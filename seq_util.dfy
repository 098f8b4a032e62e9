/** Sequence operations that stand for Python's list built-ins: `del s[i]`,
    `s.remove(x)`, `max(range(len(s)), key=...)` (the first index holding a
    largest key), and the concatenation of a list of lists. */
module SeqUtil {

  /** `del s[i]`: the list without the entry at position i. */
  function RemoveAt<T>(s: seq<T>, i: nat): (r: seq<T>)
    requires i < |s|
    ensures |r| == |s| - 1
    ensures forall j :: 0 <= j < i ==> r[j] == s[j]
    ensures forall j :: i <= j < |r| ==> r[j] == s[j + 1]
  {
    s[..i] + s[i + 1..]
  }

  /** `del s[i]` takes exactly one copy of s[i] out of the list. */
  lemma RemoveAtMultiset<T>(s: seq<T>, i: nat)
    requires i < |s|
    ensures multiset(RemoveAt(s, i)) == multiset(s) - multiset{s[i]}
  {
    assert s == s[..i] + [s[i]] + s[i + 1..];
  }

  /** Removing the appended last entry gives back the list. */
  lemma RemoveAtEnd<T>(s: seq<T>, x: T)
    ensures RemoveAt(s + [x], |s|) == s
  {
    assert (s + [x])[..|s|] == s;
  }

  /** Removing an entry before an appended tail commutes with the append. */
  lemma RemoveAtAppend<T>(s: seq<T>, tail: seq<T>, i: nat)
    requires i < |s|
    ensures RemoveAt(s + tail, i) == RemoveAt(s, i) + tail
  {
    assert (s + tail)[..i] == s[..i];
    assert (s + tail)[i + 1..] == s[i + 1..] + tail;
  }

  /** The position of the first entry equal to x. */
  function IndexOf<T(==)>(s: seq<T>, x: T): (i: nat)
    requires x in s
    ensures i < |s| && s[i] == x
    ensures forall j :: 0 <= j < i ==> s[j] != x
  {
    if s[0] == x then 0 else 1 + IndexOf(s[1..], x)
  }

  /** `s.remove(x)`: drops the first entry equal to x; Python raises
      ValueError when there is none, which every caller here rules out. */
  function RemoveFirst<T(==)>(s: seq<T>, x: T): (r: seq<T>)
    requires x in s
    ensures |r| == |s| - 1
    ensures multiset(r) == multiset(s) - multiset{x}
  {
    RemoveAtMultiset(s, IndexOf(s, x));
    RemoveAt(s, IndexOf(s, x))
  }

  /** `max(range(len(keys)), key=lambda i: keys[i])`: Python's `max` keeps the
      first of several equal largest keys. */
  function FirstArgMax(keys: seq<real>): (t: nat)
    requires |keys| > 0
    ensures t < |keys|
    ensures forall u :: 0 <= u < |keys| ==> keys[u] <= keys[t]
    ensures forall u :: 0 <= u < t ==> keys[u] < keys[t]
  {
    if |keys| == 1 then 0
    else
      var t := FirstArgMax(keys[..|keys| - 1]);
      if keys[|keys| - 1] > keys[t] then |keys| - 1 else t
  }

  /** `max(xs)` of a non-empty list. */
  function MaxOf(xs: seq<real>): real
    requires |xs| > 0
  {
    if |xs| == 1 then xs[0]
    else
      var m := MaxOf(xs[..|xs| - 1]);
      if xs[|xs| - 1] > m then xs[|xs| - 1] else m
  }

  /** MaxOf is an entry of the list and no entry exceeds it. */
  lemma {:induction false} MaxOfIsMax(xs: seq<real>)
    requires |xs| > 0
    ensures forall i :: 0 <= i < |xs| ==> xs[i] <= MaxOf(xs)
    ensures exists i :: 0 <= i < |xs| && xs[i] == MaxOf(xs)
  {
    if |xs| > 1 {
      var init := xs[..|xs| - 1];
      MaxOfIsMax(init);
      assert forall i :: 0 <= i < |init| ==> xs[i] == init[i];
      var i :| 0 <= i < |init| && init[i] == MaxOf(init);
      if xs[|xs| - 1] <= MaxOf(init) {
        assert xs[i] == MaxOf(xs);
      } else {
        assert xs[|xs| - 1] == MaxOf(xs);
      }
    } else {
      assert xs[0] == MaxOf(xs);
    }
  }

  /** `min(xs)` of a non-empty list. */
  function MinOf(xs: seq<real>): real
    requires |xs| > 0
  {
    if |xs| == 1 then xs[0]
    else
      var m := MinOf(xs[..|xs| - 1]);
      if xs[|xs| - 1] < m then xs[|xs| - 1] else m
  }

  /** MinOf is an entry of the list and no entry is below it. */
  lemma {:induction false} MinOfIsMin(xs: seq<real>)
    requires |xs| > 0
    ensures forall i :: 0 <= i < |xs| ==> MinOf(xs) <= xs[i]
    ensures exists i :: 0 <= i < |xs| && xs[i] == MinOf(xs)
  {
    if |xs| > 1 {
      var init := xs[..|xs| - 1];
      MinOfIsMin(init);
      assert forall i :: 0 <= i < |init| ==> xs[i] == init[i];
      var i :| 0 <= i < |init| && init[i] == MinOf(init);
      if xs[|xs| - 1] >= MinOf(init) {
        assert xs[i] == MinOf(xs);
      } else {
        assert xs[|xs| - 1] == MinOf(xs);
      }
    } else {
      assert xs[0] == MinOf(xs);
    }
  }

  /** The concatenation of a list of lists, in order. */
  function Flatten<T>(ss: seq<seq<T>>): seq<T> {
    if ss == [] then [] else Flatten(ss[..|ss| - 1]) + ss[|ss| - 1]
  }

  /** A list of empty lists flattens to the empty list. */
  lemma {:induction false} FlattenEmpty<T>(ss: seq<seq<T>>)
    requires forall i :: 0 <= i < |ss| ==> ss[i] == []
    ensures Flatten(ss) == []
  {
    if ss != [] {
      FlattenEmpty(ss[..|ss| - 1]);
    }
  }

  /** Appending x to one of the lists adds one copy of x to the flattened list. */
  lemma FlattenAppendAt<T>(ss: seq<seq<T>>, i: nat, x: T)
    requires i < |ss|
    ensures multiset(Flatten(ss[i := ss[i] + [x]])) == multiset(Flatten(ss)) + multiset{x}
  {
    var front, y, back := ss[..i], ss[i], ss[i + 1..];
    Pivot(ss, i);
    UpdatePivot(ss, i, y + [x]);
    FlattenConcat(front + [y], back);
    FlattenSnoc(front, y);
    FlattenConcat(front + [y + [x]], back);
    FlattenSnoc(front, y + [x]);
    calc {
      multiset(Flatten(ss[i := y + [x]]));
      multiset(Flatten(front) + (y + [x]) + Flatten(back));
      multiset(Flatten(front)) + multiset(y) + multiset{x} + multiset(Flatten(back));
      multiset(Flatten(front) + y + Flatten(back)) + multiset{x};
    }
  }

  /** Flattening a list that starts with x starts with x's entries. */
  lemma {:induction false} FlattenCons<T>(x: seq<T>, ss: seq<seq<T>>)
    ensures Flatten([x] + ss) == x + Flatten(ss)
    decreases |ss|
  {
    if ss != [] {
      var m := |ss| - 1;
      assert ([x] + ss)[..|ss|] == [x] + ss[..m];
      FlattenCons(x, ss[..m]);
    }
  }

  /** Flattening distributes over concatenation. */
  lemma {:induction false} FlattenConcat<T>(a: seq<seq<T>>, b: seq<seq<T>>)
    ensures Flatten(a + b) == Flatten(a) + Flatten(b)
    decreases |b|
  {
    if b == [] {
      assert a + b == a;
    } else {
      var m := |b| - 1;
      var ab := a + b;
      assert ab[..|ab| - 1] == a + b[..m];
      assert ab[|ab| - 1] == b[m];
      FlattenConcat(a, b[..m]);
    }
  }

  /** Deleting one of the lists takes exactly its entries out of the
      flattened list. */
  lemma FlattenRemoveAt<T>(ss: seq<seq<T>>, i: nat)
    requires i < |ss|
    ensures multiset(Flatten(RemoveAt(ss, i))) + multiset(ss[i]) == multiset(Flatten(ss))
  {
    var front, x, back := ss[..i], ss[i], ss[i + 1..];
    assert RemoveAt(ss, i) == front + back;
    Pivot(ss, i);
    FlattenConcat(front + [x], back);
    FlattenSnoc(front, x);
    FlattenConcat(front, back);
    calc {
      multiset(Flatten(ss));
      multiset(Flatten(front) + x + Flatten(back));
      multiset(Flatten(front)) + multiset(x) + multiset(Flatten(back));
      multiset(Flatten(front + back)) + multiset(x);
    }
  }

  /** A list is what comes before position i, the entry at i, and what
      comes after. */
  lemma Pivot<T>(s: seq<T>, i: nat)
    requires i < |s|
    ensures s == (s[..i] + [s[i]]) + s[i + 1..]
  {
  }

  /** Replacing the entry at position i. */
  lemma UpdatePivot<T>(s: seq<T>, i: nat, v: T)
    requires i < |s|
    ensures s[i := v] == (s[..i] + [v]) + s[i + 1..]
  {
  }

  /** Flattening a list that ends with x ends with x's entries. */
  lemma FlattenSnoc<T>(ss: seq<seq<T>>, x: seq<T>)
    ensures Flatten(ss + [x]) == Flatten(ss) + x
  {
    assert (ss + [x])[..|ss|] == ss;
  }

  /** An entry of the flattened list lies in one of the lists. */
  lemma {:induction false} FlattenMember<T>(ss: seq<seq<T>>, x: T)
    requires x in multiset(Flatten(ss))
    ensures exists j :: 0 <= j < |ss| && x in ss[j]
  {
    var m := |ss| - 1;
    if x in ss[m] {
    } else {
      assert x in multiset(Flatten(ss[..m]));
      FlattenMember(ss[..m], x);
      var j :| 0 <= j < m && x in ss[..m][j];
      assert ss[..m][j] == ss[j];
    }
  }

  /** 0, 1, ..., n - 1: Python's `range(n)`. */
  function Range(n: nat): (r: seq<nat>)
    ensures |r| == n
    ensures forall i :: 0 <= i < n ==> r[i] == i
  {
    if n == 0 then [] else Range(n - 1) + [n - 1]
  }

  /** No entry occurs twice. */
  predicate Distinct<T(==)>(xs: seq<T>) {
    forall i, j :: 0 <= i < j < |xs| ==> xs[i] != xs[j]
  }

  /** The set of the entries: Python's `set(xs)`. */
  function Elements<T(==)>(xs: seq<T>): set<T> {
    set x | x in xs
  }

  /** A list without repeats has as many elements as entries. */
  lemma {:induction false} DistinctCard<T>(xs: seq<T>)
    requires Distinct(xs)
    ensures |Elements(xs)| == |xs|
  {
    if |xs| > 0 {
      DistinctCard(xs[1..]);
      assert Elements(xs) == {xs[0]} + Elements(xs[1..]);
      assert xs[0] !in Elements(xs[1..]);
    }
  }
}
