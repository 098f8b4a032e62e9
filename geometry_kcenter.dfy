/** The geometric k-center objective and Gonzalez's farthest-point greedy
    (src/geometry/kcenter.py). Distance is an abstract non-negative function
    on points: the algorithms only ever compare distances. */
module GeometryKCenter {
  import opened Wrappers
  import opened SeqUtil

  type NonNeg = r: real | r >= 0.0

  datatype Point = Point(x: real, y: real)

  /** A distance on the plane: `geometry.distance`, or the `math.sqrt` of
      the squared differences that `gonzalez` defines for itself. */
  type Metric = (Point, Point) -> NonNeg

  /** `min([distance(p, c) for c in centers])`. */
  function NearestDist(dist: Metric, p: Point, centers: seq<Point>): NonNeg
    requires |centers| > 0
  {
    if |centers| == 1 then dist(p, centers[0])
    else
      var d := NearestDist(dist, p, centers[..|centers| - 1]);
      var e := dist(p, centers[|centers| - 1]);
      if e < d then e else d
  }

  /** NearestDist is the distance from p to its nearest center: no center is
      closer, and some center is that far. */
  lemma {:induction false} NearestDistIsMin(dist: Metric, p: Point, centers: seq<Point>)
    requires |centers| > 0
    ensures forall i :: 0 <= i < |centers| ==> NearestDist(dist, p, centers) <= dist(p, centers[i])
    ensures exists i :: 0 <= i < |centers| && NearestDist(dist, p, centers) == dist(p, centers[i])
  {
    if |centers| > 1 {
      var init := centers[..|centers| - 1];
      NearestDistIsMin(dist, p, init);
      assert forall i :: 0 <= i < |init| ==> centers[i] == init[i];
      var i :| 0 <= i < |init| && NearestDist(dist, p, init) == dist(p, init[i]);
      var last := |centers| - 1;
      if dist(p, centers[last]) < NearestDist(dist, p, init) {
        assert NearestDist(dist, p, centers) == dist(p, centers[last]);
      } else {
        assert NearestDist(dist, p, centers) == dist(p, centers[i]);
      }
    } else {
      assert NearestDist(dist, p, centers) == dist(p, centers[0]);
    }
  }

  /** The first center at the nearest distance from p. */
  function NearestIndex(dist: Metric, p: Point, centers: seq<Point>): (i: nat)
    requires |centers| > 0
    ensures i < |centers| && dist(p, centers[i]) == NearestDist(dist, p, centers)
  {
    if |centers| == 1 then 0
    else
      var i := NearestIndex(dist, p, centers[..|centers| - 1]);
      if dist(p, centers[|centers| - 1]) < dist(p, centers[i]) then |centers| - 1 else i
  }

  /** NearestIndex is the first of the nearest centers. */
  lemma {:induction false} NearestIndexIsFirst(dist: Metric, p: Point, centers: seq<Point>)
    requires |centers| > 0
    ensures forall j :: 0 <= j < NearestIndex(dist, p, centers) ==>
      dist(p, centers[NearestIndex(dist, p, centers)]) < dist(p, centers[j])
  {
    if |centers| > 1 {
      var init := centers[..|centers| - 1];
      NearestIndexIsFirst(dist, p, init);
      NearestDistIsMin(dist, p, init);
      assert forall i :: 0 <= i < |init| ==> centers[i] == init[i];
    }
  }

  /** A new center changes p's nearest distance and nearest center only when
      it is strictly closer than the nearest one so far. */
  lemma NearestAppend(dist: Metric, p: Point, centers: seq<Point>, c: Point)
    requires |centers| > 0
    ensures NearestDist(dist, p, centers + [c])
         == if dist(p, c) < NearestDist(dist, p, centers) then dist(p, c) else NearestDist(dist, p, centers)
    ensures NearestIndex(dist, p, centers + [c])
         == if dist(p, c) < NearestDist(dist, p, centers) then |centers| else NearestIndex(dist, p, centers)
  {
    assert (centers + [c])[..|centers|] == centers;
  }

  /** `objective(points, centers)`: 0 when either list is empty, otherwise
      the largest, over the points, of the distance to the nearest center. */
  function Objective(dist: Metric, points: seq<Point>, centers: seq<Point>): (r: NonNeg)
    ensures |points| == 0 || |centers| == 0 ==> r == 0.0
    ensures |centers| > 0 ==> forall i :: 0 <= i < |points| ==> NearestDist(dist, points[i], centers) <= r
    ensures |centers| > 0 && |points| > 0 ==>
      exists i :: 0 <= i < |points| && NearestDist(dist, points[i], centers) == r
  {
    if |centers| > 0 && |points| > 0 then
      var ds := seq(|points|, i requires 0 <= i < |points| => NearestDist(dist, points[i], centers));
      var m := MaxOf(ds);
      MaxOfIsMax(ds);
      assert forall i :: 0 <= i < |points| ==> ds[i] == NearestDist(dist, points[i], centers);
      assert ds[0] >= 0.0;
      m
    else 0.0
  }

  datatype GonzalezError =
    | NoPoints    // `points[0]` of an empty list raises IndexError
    | NoFarthest  // `max` over an empty range raises ValueError when k exceeds the points

  /** One entry of the `data` list: a point not chosen yet, its nearest
      chosen center and the distance to it. */
  datatype Entry = Entry(point: Point, center: Point, dist: real)

  /** The entry `gonzalez` keeps for p once `centers` are chosen. */
  function EntryFor(dist: Metric, p: Point, centers: seq<Point>): Entry
    requires |centers| > 0
  {
    Entry(p, centers[NearestIndex(dist, p, centers)], NearestDist(dist, p, centers))
  }

  /** The positions below n that `chosen` does not hold, in increasing order. */
  ghost function Unchosen(n: nat, chosen: seq<nat>): seq<nat> {
    if n == 0 then []
    else Unchosen(n - 1, chosen) + (if n - 1 in chosen then [] else [n - 1])
  }

  /** Unchosen lists exactly the positions below n missing from `chosen`,
      each once and in increasing order. */
  lemma {:induction false} UnchosenFacts(n: nat, chosen: seq<nat>)
    ensures forall t :: 0 <= t < |Unchosen(n, chosen)| ==>
      Unchosen(n, chosen)[t] < n && Unchosen(n, chosen)[t] !in chosen
    ensures forall t, u :: 0 <= t < u < |Unchosen(n, chosen)| ==> Unchosen(n, chosen)[t] < Unchosen(n, chosen)[u]
    ensures forall i :: 0 <= i < n && i !in chosen ==> i in Unchosen(n, chosen)
  {
    if n > 0 {
      UnchosenFacts(n - 1, chosen);
      var init := Unchosen(n - 1, chosen);
      var u := Unchosen(n, chosen);
      assert forall t :: 0 <= t < |init| ==> u[t] == init[t];
    }
  }

  /** Every position Unchosen(n, _) lists is below n. */
  lemma {:induction false} UnchosenBelow(n: nat, chosen: seq<nat>, t: nat)
    requires t < |Unchosen(n, chosen)|
    ensures Unchosen(n, chosen)[t] < n
  {
    if t < |Unchosen(n - 1, chosen)| {
      UnchosenBelow(n - 1, chosen, t);
    }
  }

  /** Choosing a position at or beyond n does not change Unchosen(n, _). */
  lemma {:induction false} UnchosenBeyond(n: nat, chosen: seq<nat>, x: nat)
    requires n <= x
    ensures Unchosen(n, chosen + [x]) == Unchosen(n, chosen)
  {
    if n > 0 {
      UnchosenBeyond(n - 1, chosen, x);
      assert (n - 1 in chosen + [x]) == (n - 1 in chosen);
    }
  }

  /** Choosing the position at index f of Unchosen removes exactly that index. */
  lemma {:induction false} UnchosenRemove(n: nat, chosen: seq<nat>, f: nat)
    requires f < |Unchosen(n, chosen)|
    ensures Unchosen(n, chosen + [Unchosen(n, chosen)[f]]) == RemoveAt(Unchosen(n, chosen), f)
  {
    var x := Unchosen(n, chosen)[f];
    var init := Unchosen(n - 1, chosen);
    var tail := if n - 1 in chosen then [] else [n - 1];
    assert Unchosen(n, chosen) == init + tail;
    if f == |init| {
      assert x == n - 1 && tail == [n - 1];
      UnchosenBeyond(n - 1, chosen, x);
      assert n - 1 in chosen + [x];
      RemoveAtEnd(init, n - 1);
    } else {
      assert x == init[f];
      UnchosenBelow(n - 1, chosen, f);
      UnchosenRemove(n - 1, chosen, f);
      assert (n - 1 in chosen + [x]) == (n - 1 in chosen);
      RemoveAtAppend(init, tail, f);
    }
  }

  /** After position 0 alone is chosen, the others are pending in order. */
  lemma {:induction false} UnchosenAfterFirst(n: nat)
    requires n > 0
    ensures |Unchosen(n, [0])| == n - 1
    ensures forall t :: 0 <= t < n - 1 ==> Unchosen(n, [0])[t] == t + 1
  {
    if n > 1 {
      UnchosenAfterFirst(n - 1);
      assert n - 1 !in [0];
    }
  }

  /** The `data` list `gonzalez` keeps: the points not chosen yet, in their
      order in `points`, each with its nearest center among `centers`. */
  ghost function Pending(dist: Metric, points: seq<Point>, chosen: seq<nat>, centers: seq<Point>): (r: seq<Entry>)
    requires |centers| > 0
    ensures |r| == |Unchosen(|points|, chosen)|
  {
    var u := Unchosen(|points|, chosen);
    UnchosenFacts(|points|, chosen);
    seq(|u|, t requires 0 <= t < |u| => EntryFor(dist, points[u[t]], centers))
  }

  /** Entry t of the pending list is the entry for the t-th position not
      chosen yet. */
  lemma PendingAt(dist: Metric, points: seq<Point>, chosen: seq<nat>, centers: seq<Point>)
    requires |centers| > 0
    ensures forall t :: 0 <= t < |Pending(dist, points, chosen, centers)| ==>
      Unchosen(|points|, chosen)[t] < |points| &&
      Pending(dist, points, chosen, centers)[t] == EntryFor(dist, points[Unchosen(|points|, chosen)[t]], centers)
  {
    UnchosenFacts(|points|, chosen);
  }

  /** Position i of `points` is not chosen yet and is the first of the
      not-chosen positions whose nearest-center distance is largest. */
  ghost predicate IsFirstFarthest(dist: Metric, points: seq<Point>, chosen: seq<nat>, centers: seq<Point>, i: nat)
    requires |centers| > 0
  {
    && i < |points| && i !in chosen
    && (forall j :: 0 <= j < |points| && j !in chosen ==>
          NearestDist(dist, points[j], centers) <= NearestDist(dist, points[i], centers))
    && (forall j :: 0 <= j < i && j !in chosen ==>
          NearestDist(dist, points[j], centers) < NearestDist(dist, points[i], centers))
  }

  /** `chosen` is a run of the farthest-point greedy: it starts at
      position 0, each later position is the first not-chosen position
      farthest from the centers chosen before it, and `centers` are the
      points at those positions. */
  ghost predicate Greedy(dist: Metric, points: seq<Point>, chosen: seq<nat>, centers: seq<Point>)
    decreases |chosen|
  {
    && 0 < |chosen| == |centers|
    && if |chosen| == 1 then 0 < |points| && chosen[0] == 0 && centers[0] == points[0]
       else
         var m := |chosen| - 1;
         && Greedy(dist, points, chosen[..m], centers[..m])
         && IsFirstFarthest(dist, points, chosen[..m], centers[..m], chosen[m])
         && centers[m] == points[chosen[m]]
  }

  /** A greedy run starts at position 0 and its centers are the points at
      its positions. */
  lemma {:induction false} GreedyPositions(dist: Metric, points: seq<Point>, chosen: seq<nat>, centers: seq<Point>)
    requires Greedy(dist, points, chosen, centers)
    ensures 0 < |chosen| == |centers| && chosen[0] == 0
    ensures forall j :: 0 <= j < |chosen| ==> chosen[j] < |points| && centers[j] == points[chosen[j]]
    decreases |chosen|
  {
    if |chosen| > 1 {
      var m := |chosen| - 1;
      var pre, cs := chosen[..m], centers[..m];
      GreedyPositions(dist, points, pre, cs);
      forall j | 0 <= j < |chosen|
        ensures chosen[j] < |points| && centers[j] == points[chosen[j]]
      {
        if j < m { assert pre[j] == chosen[j] && cs[j] == centers[j]; }
      }
    }
  }

  /** A greedy run never chooses a position twice. */
  lemma {:induction false} GreedyDistinct(dist: Metric, points: seq<Point>, chosen: seq<nat>, centers: seq<Point>)
    requires Greedy(dist, points, chosen, centers)
    ensures forall j, l :: 0 <= j < l < |chosen| ==> chosen[j] != chosen[l]
    decreases |chosen|
  {
    if |chosen| > 1 {
      var m := |chosen| - 1;
      var pre, cs := chosen[..m], centers[..m];
      GreedyDistinct(dist, points, pre, cs);
      forall j, l | 0 <= j < l < |chosen|
        ensures chosen[j] != chosen[l]
      {
        assert pre[j] == chosen[j];
        if l < m {
          assert pre[l] == chosen[l];
        } else {
          assert chosen[m] !in pre;
        }
      }
    }
  }

  /** Each choice of a greedy run after the first is the first farthest
      not-chosen position from the centers chosen before it. */
  lemma {:induction false} GreedyHistory(dist: Metric, points: seq<Point>, chosen: seq<nat>, centers: seq<Point>)
    requires Greedy(dist, points, chosen, centers)
    ensures forall j :: 1 <= j < |chosen| ==> IsFirstFarthest(dist, points, chosen[..j], centers[..j], chosen[j])
    decreases |chosen|
  {
    if |chosen| > 1 {
      var m := |chosen| - 1;
      var pre, cs := chosen[..m], centers[..m];
      GreedyHistory(dist, points, pre, cs);
      forall j | 1 <= j < |chosen|
        ensures IsFirstFarthest(dist, points, chosen[..j], centers[..j], chosen[j])
      {
        if j < m {
          assert pre[..j] == chosen[..j] && cs[..j] == centers[..j] && pre[j] == chosen[j];
        }
      }
    }
  }

  /** Adding the first farthest not-chosen position extends a greedy run. */
  lemma GreedyStep(dist: Metric, points: seq<Point>, chosen: seq<nat>, centers: seq<Point>, x: nat)
    requires Greedy(dist, points, chosen, centers)
    requires IsFirstFarthest(dist, points, chosen, centers, x)
    ensures Greedy(dist, points, chosen + [x], centers + [points[x]])
  {
    assert (chosen + [x])[..|chosen|] == chosen;
    assert (centers + [points[x]])[..|centers|] == centers;
  }

  /** `gonzalez(k, points, randomized=False)`. The first center is
      `points[0]`; every further center is the first not-chosen point
      farthest from the centers chosen before it (GreedyPositions,
      GreedyDistinct and GreedyHistory spell this out). `chosen` gives the position in `points` of each center. It fails
      on an empty list, and when k exceeds the number of points. */
  method Gonzalez(k: int, points: seq<Point>, dist: Metric)
    returns (r: Result<seq<Point>, GonzalezError>, ghost chosen: seq<nat>)
    ensures |points| == 0 ==> r == Err(NoPoints)
    ensures 0 < |points| < k ==> r == Err(NoFarthest)
    ensures r.Ok? <==> 0 < |points| && k <= |points|
    ensures r.Ok? ==> |r.value| == (if k <= 1 then 1 else k) && Greedy(dist, points, chosen, r.value)
  {
    chosen := [];
    if |points| == 0 {
      return Err(NoPoints), chosen;
    }
    var n := |points|;
    var result := [points[0]];
    chosen := [0];
    var data := seq(n, i requires 0 <= i < n => Entry(points[i], points[0], dist(points[i], points[0])));
    data := data[1..];
    PendingInit(dist, points, data);
    while |result| < k
      invariant |result| == 1 || |result| <= k
      invariant |chosen| + |data| == n
      invariant Greedy(dist, points, chosen, result)
      invariant data == Pending(dist, points, chosen, result)
      decreases k - |result|
    {
      if |data| == 0 {
        return Err(NoFarthest), chosen;
      }
      var furthest := Farthest(data);
      var newCenter := data[furthest].point;
      ghost var x := Unchosen(n, chosen)[furthest];
      FarthestIsFirstFarthest(dist, points, chosen, result, furthest);
      GreedyStep(dist, points, chosen, result, x);
      data := RemoveAt(data, furthest);
      data := UpdateNearest(dist, data, result, newCenter);
      PendingStep(dist, points, chosen, result, furthest, data);
      chosen := chosen + [x];
      result := result + [newCenter];
    }
    return Ok(result), chosen;
  }

  /** The list `gonzalez` builds before its loop is the pending list once
      `points[0]` is the only center. */
  lemma PendingInit(dist: Metric, points: seq<Point>, data: seq<Entry>)
    requires |points| > 0 && |data| == |points| - 1
    requires forall t :: 0 <= t < |data| ==>
      data[t] == Entry(points[t + 1], points[0], dist(points[t + 1], points[0]))
    ensures data == Pending(dist, points, [0], [points[0]])
  {
    UnchosenAfterFirst(|points|);
    PendingAt(dist, points, [0], [points[0]]);
  }

  /** `max(range(len(data)), key=lambda i: data[i][2])`. */
  function Farthest(data: seq<Entry>): (t: nat)
    requires |data| > 0
    ensures t < |data|
  {
    if |data| == 1 then 0
    else
      var t := Farthest(data[..|data| - 1]);
      if data[|data| - 1].dist > data[t].dist then |data| - 1 else t
  }

  /** Farthest is the first entry with the largest distance, as Python's
      `max` picks it. */
  lemma {:induction false} FarthestIsFirstMax(data: seq<Entry>)
    requires |data| > 0
    ensures forall u :: 0 <= u < |data| ==> data[u].dist <= data[Farthest(data)].dist
    ensures forall u :: 0 <= u < Farthest(data) ==> data[u].dist < data[Farthest(data)].dist
  {
    if |data| > 1 {
      var init := data[..|data| - 1];
      FarthestIsFirstMax(init);
      assert forall u :: 0 <= u < |init| ==> data[u] == init[u];
    }
  }

  /** The entry Farthest picks from the pending list belongs to the first
      not-chosen point farthest from the centers. */
  lemma FarthestIsFirstFarthest(dist: Metric, points: seq<Point>, chosen: seq<nat>, centers: seq<Point>, f: nat)
    requires |centers| > 0
    requires |Pending(dist, points, chosen, centers)| > 0
    requires f == Farthest(Pending(dist, points, chosen, centers))
    ensures Unchosen(|points|, chosen)[f] < |points|
    ensures Pending(dist, points, chosen, centers)[f].point == points[Unchosen(|points|, chosen)[f]]
    ensures IsFirstFarthest(dist, points, chosen, centers, Unchosen(|points|, chosen)[f])
  {
    var data := Pending(dist, points, chosen, centers);
    var pos := Unchosen(|points|, chosen);
    FarthestIsFirstMax(data);
    UnchosenFacts(|points|, chosen);
    PendingAt(dist, points, chosen, centers);
    var i := pos[f];
    forall j | 0 <= j < |points| && j !in chosen
      ensures NearestDist(dist, points[j], centers) <= NearestDist(dist, points[i], centers)
    {
      var t := IndexOf(pos, j);
      assert data[t].dist <= data[f].dist;
    }
    forall j | 0 <= j < i && j !in chosen
      ensures NearestDist(dist, points[j], centers) < NearestDist(dist, points[i], centers)
    {
      var t := IndexOf(pos, j);
      assert t < f;
      assert data[t].dist < data[f].dist;
    }
    assert i < |points| && i !in chosen;
  }

  /** The inner loop of `gonzalez`: every entry whose point lies strictly
      closer to the new center than to its recorded center switches to the
      new one, so each entry again holds its nearest center among
      `centers + [c]` and the distance to it. */
  method UpdateNearest(dist: Metric, data: seq<Entry>, centers: seq<Point>, c: Point) returns (r: seq<Entry>)
    requires |centers| > 0
    requires forall t :: 0 <= t < |data| ==> data[t] == EntryFor(dist, data[t].point, centers)
    ensures |r| == |data|
    ensures forall t :: 0 <= t < |r| ==> r[t] == EntryFor(dist, data[t].point, centers + [c])
  {
    ghost var extended := centers + [c];
    r := data;
    var i := 0;
    while i < |r|
      invariant 0 <= i <= |r| == |data|
      invariant forall t :: 0 <= t < i ==> r[t] == EntryFor(dist, data[t].point, extended)
      invariant forall t :: i <= t < |r| ==> r[t] == data[t]
    {
      var newDistance := dist(r[i].point, c);
      NearestAppend(dist, r[i].point, centers, c);
      if r[i].dist > newDistance {
        r := r[i := Entry(r[i].point, c, newDistance)];
      }
      i := i + 1;
    }
  }

  /** Deleting the chosen entry and updating the rest yields the pending
      list for the extended choice. */
  lemma PendingStep(dist: Metric, points: seq<Point>, chosen: seq<nat>, centers: seq<Point>, f: nat, r: seq<Entry>)
    requires |centers| > 0
    requires f < |Pending(dist, points, chosen, centers)|
    requires |r| == |Pending(dist, points, chosen, centers)| - 1
    requires forall t :: 0 <= t < |r| ==>
      r[t] == EntryFor(dist, RemoveAt(Pending(dist, points, chosen, centers), f)[t].point,
                       centers + [Pending(dist, points, chosen, centers)[f].point])
    ensures r == Pending(dist, points, chosen + [Unchosen(|points|, chosen)[f]],
                         centers + [Pending(dist, points, chosen, centers)[f].point])
  {
    var data := Pending(dist, points, chosen, centers);
    var x := Unchosen(|points|, chosen)[f];
    UnchosenRemove(|points|, chosen, f);
    var next := Pending(dist, points, chosen + [x], centers + [data[f].point]);
    PendingAt(dist, points, chosen, centers);
    PendingAt(dist, points, chosen + [x], centers + [data[f].point]);
    forall t | 0 <= t < |r| ensures r[t] == next[t] {
      if t < f {
        assert RemoveAt(data, f)[t] == data[t];
      } else {
        assert RemoveAt(data, f)[t] == data[t + 1];
      }
    }
  }
}
