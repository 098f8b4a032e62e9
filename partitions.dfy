/** `_iter_partitions(k, points)` in src/geometry/kcenter.py: every way of
    assigning the points to k numbered clusters, the reference enumeration
    behind the brute-force solver. The generator is modelled as the list of
    everything it yields, in the order it yields it. */
module Partitions {
  import opened Wrappers
  import opened SeqUtil

  /** The partition `partition` of the later points with p appended to
      part i: `[(i == j) and partition[j] + [p] or partition[j] for j in range(k)]`. */
  function Place<T>(partition: seq<seq<T>>, i: nat, p: T): (r: seq<seq<T>>)
    ensures |r| == |partition|
  {
    seq(|partition|, j requires 0 <= j < |partition| => if j == i then partition[j] + [p] else partition[j])
  }

  /** The partition of a single point p into k parts, p in part i. */
  function Single<T>(k: nat, i: nat, p: T): (r: seq<seq<T>>)
    ensures |r| == k
  {
    seq(k, j => if j == i then [p] else [])
  }

  /** What one pass of the outer loop (first point into part i) yields. */
  function Row<T>(k: nat, i: nat, p: T, rest: seq<seq<seq<T>>>, last: bool): seq<seq<seq<T>>> {
    if last then [Single(k, i, p)]
    else seq(|rest|, m requires 0 <= m < |rest| => Place(rest[m], i, p))
  }

  /** What the first m passes of the outer loop yield. */
  function Rows<T>(k: nat, m: nat, p: T, rest: seq<seq<seq<T>>>, last: bool): seq<seq<seq<T>>> {
    if m == 0 then [] else Rows(k, m - 1, p, rest, last) + Row(k, m - 1, p, rest, last)
  }

  /** The partitions of a non-empty list into k parts, in generator order:
      the first point goes to part 0, 1, ..., k - 1 in turn, and for each
      choice the partitions of the other points follow in their own order. */
  function AllPartitions<T>(k: nat, points: seq<T>): seq<seq<seq<T>>>
    requires |points| > 0
    decreases |points|
  {
    var last := |points| == 1;
    var rest := if last then [] else AllPartitions(k, points[1..]);
    Rows(k, k, points[0], rest, last)
  }

  /** `_iter_partitions(k, points)`: `points[0]` of an empty list raises
      IndexError, modelled as None; k <= 0 yields nothing. */
  function IterPartitions<T>(k: int, points: seq<T>): Option<seq<seq<seq<T>>>> {
    if |points| == 0 then None
    else Some(AllPartitions(if k <= 0 then 0 else k, points))
  }

  /** k to the power n. */
  function Power(k: nat, n: nat): nat {
    if n == 0 then 1 else k * Power(k, n - 1)
  }

  lemma {:induction false} RowsLength<T>(k: nat, m: nat, p: T, rest: seq<seq<seq<T>>>, last: bool)
    ensures |Rows(k, m, p, rest, last)| == m * (if last then 1 else |rest|)
  {
    if m > 0 {
      RowsLength(k, m - 1, p, rest, last);
    }
  }

  /** On n points the generator yields k^n partitions. */
  lemma {:induction false} PartitionCount<T>(k: int, points: seq<T>)
    requires |points| > 0
    ensures IterPartitions(k, points).Some?
    ensures |IterPartitions(k, points).value| == Power(if k <= 0 then 0 else k, |points|)
    decreases |points|
  {
    var kk: nat := if k <= 0 then 0 else k;
    if |points| > 1 {
      PartitionCount(k, points[1..]);
      RowsLength(kk, kk, points[0], AllPartitions(kk, points[1..]), false);
    } else {
      RowsLength(kk, kk, points[0], [], true);
    }
  }

  /** A partition of `points` into k parts: k lists that together hold
      every point exactly as often as `points` does. */
  ghost predicate IsPartition<T>(k: nat, points: seq<T>, partition: seq<seq<T>>) {
    |partition| == k && multiset(Flatten(partition)) == multiset(points)
  }

  /** Appending p to part i of a partition of the later points gives a
      partition of all points. */
  lemma PlaceIsPartition<T>(k: nat, points: seq<T>, partition: seq<seq<T>>, i: nat)
    requires |points| > 1 && i < k
    requires IsPartition(k, points[1..], partition)
    ensures IsPartition(k, points, Place(partition, i, points[0]))
  {
    assert Place(partition, i, points[0]) == partition[i := partition[i] + [points[0]]];
    FlattenAppendAt(partition, i, points[0]);
    assert points == [points[0]] + points[1..];
  }

  /** A single point in part i is a partition of that point. */
  lemma SingleIsPartition<T>(k: nat, p: T, i: nat)
    requires i < k
    ensures IsPartition(k, [p], Single(k, i, p))
  {
    var empty: seq<seq<T>> := seq(k, j => []);
    FlattenEmpty(empty);
    assert forall j :: 0 <= j < k ==> Single(k, i, p)[j] == empty[i := empty[i] + [p]][j];
    assert Single(k, i, p) == empty[i := empty[i] + [p]];
    FlattenAppendAt(empty, i, p);
  }

  /** One pass of the outer loop yields partitions of all points. */
  lemma RowArePartitions<T>(k: nat, i: nat, points: seq<T>, rest: seq<seq<seq<T>>>, last: bool)
    requires |points| > 0 && i < k
    requires last <==> |points| == 1
    requires forall t :: 0 <= t < |rest| ==> IsPartition(k, points[1..], rest[t])
    ensures forall t :: 0 <= t < |Row(k, i, points[0], rest, last)| ==>
      IsPartition(k, points, Row(k, i, points[0], rest, last)[t])
  {
    var row := Row(k, i, points[0], rest, last);
    if last {
      assert points == [points[0]];
      SingleIsPartition(k, points[0], i);
    } else {
      forall t | 0 <= t < |row| ensures IsPartition(k, points, row[t]) {
        PlaceIsPartition(k, points, rest[t], i);
      }
    }
  }

  lemma {:induction false} RowsArePartitions<T>(k: nat, m: nat, points: seq<T>, rest: seq<seq<seq<T>>>, last: bool)
    requires |points| > 0 && m <= k
    requires last <==> |points| == 1
    requires forall t :: 0 <= t < |rest| ==> IsPartition(k, points[1..], rest[t])
    ensures forall t :: 0 <= t < |Rows(k, m, points[0], rest, last)| ==>
      IsPartition(k, points, Rows(k, m, points[0], rest, last)[t])
  {
    if m > 0 {
      RowsArePartitions(k, m - 1, points, rest, last);
      RowArePartitions(k, m - 1, points, rest, last);
      var prev := Rows(k, m - 1, points[0], rest, last);
      var row := Row(k, m - 1, points[0], rest, last);
      var all := Rows(k, m, points[0], rest, last);
      assert all == prev + row;
      forall t | 0 <= t < |all| ensures IsPartition(k, points, all[t]) {
        if t < |prev| {
          assert all[t] == prev[t];
        } else {
          assert all[t] == row[t - |prev|];
        }
      }
    }
  }

  /** Every yielded partition has k parts, and every point lies in exactly
      one part (as often as it occurs in the input). */
  lemma {:induction false} PartitionsArePartitions<T>(k: nat, points: seq<T>)
    requires |points| > 0
    ensures forall t :: 0 <= t < |AllPartitions(k, points)| ==> IsPartition(k, points, AllPartitions(k, points)[t])
    decreases |points|
  {
    if |points| > 1 {
      PartitionsArePartitions(k, points[1..]);
      RowsArePartitions(k, k, points, AllPartitions(k, points[1..]), false);
    } else {
      RowsArePartitions(k, k, points, [], true);
    }
  }

  /** The partition an assignment of the points to parts describes, built
      the way the generator builds it: part a[0] of the partition of the
      later points gets the first point appended. */
  function Assigned<T>(k: nat, points: seq<T>, a: seq<nat>): seq<seq<T>>
    requires |points| == |a| > 0
    decreases |points|
  {
    if |points| == 1 then Single(k, a[0], points[0])
    else Place(Assigned(k, points[1..], a[1..]), a[0], points[0])
  }

  /** Under an assignment each point lies in the part it is assigned to. */
  lemma {:induction false} AssignedPlaces<T>(k: nat, points: seq<T>, a: seq<nat>)
    requires |points| == |a| > 0
    requires forall t :: 0 <= t < |a| ==> a[t] < k
    ensures |Assigned(k, points, a)| == k
    ensures forall t :: 0 <= t < |points| ==> points[t] in Assigned(k, points, a)[a[t]]
    decreases |points|
  {
    if |points| > 1 {
      AssignedPlaces(k, points[1..], a[1..]);
      var q := Assigned(k, points[1..], a[1..]);
      forall t | 0 <= t < |points| ensures points[t] in Assigned(k, points, a)[a[t]] {
        if t > 0 {
          assert points[t] == points[1..][t - 1] && a[t] == a[1..][t - 1];
          assert points[t] in q[a[t]];
        }
      }
    }
  }

  lemma {:induction false} InRows<T>(k: nat, m: nat, p: T, rest: seq<seq<seq<T>>>, last: bool, i: nat, x: seq<seq<T>>)
    requires i < m
    requires if last then x == Single(k, i, p) else exists t :: 0 <= t < |rest| && x == Place(rest[t], i, p)
    ensures x in Rows(k, m, p, rest, last)
  {
    var prev := Rows(k, m - 1, p, rest, last);
    var row := Row(k, m - 1, p, rest, last);
    assert Rows(k, m, p, rest, last) == prev + row;
    if i < m - 1 {
      InRows(k, m - 1, p, rest, last, i, x);
    } else if last {
      assert row[0] == x;
    } else {
      var t :| 0 <= t < |rest| && x == Place(rest[t], i, p);
      assert row[t] == x;
    }
  }

  /** The generator misses no assignment: every way of sending each point
      to one of the k parts is yielded. */
  lemma {:induction false} PartitionsComplete<T>(k: nat, points: seq<T>, a: seq<nat>)
    requires |points| == |a| > 0
    requires forall t :: 0 <= t < |a| ==> a[t] < k
    ensures Assigned(k, points, a) in AllPartitions(k, points)
    decreases |points|
  {
    if |points| == 1 {
      InRows(k, k, points[0], [], true, a[0], Assigned(k, points, a));
    } else {
      var rest := AllPartitions(k, points[1..]);
      PartitionsComplete(k, points[1..], a[1..]);
      var t :| 0 <= t < |rest| && rest[t] == Assigned(k, points[1..], a[1..]);
      InRows(k, k, points[0], rest, false, a[0], Assigned(k, points, a));
    }
  }
}
