/** Brandenberg and Roth's branch-and-bound for the geometric k-center
    problem (`brandenberg_roth` and `solve` in src/geometry/kcenter.py).
    The smallest enclosing ball of a cluster comes from a miniball oracle
    that reports a radius, a center and a relative error. */
module BranchAndBound {
  import opened Wrappers
  import opened SeqUtil
  import opened ExtReal
  import opened GeometryKCenter

  /** What the miniball oracle reports for a cluster. */
  datatype Ball = Ball(radius: NonNeg, center: Point, error: real)

  type Miniball = seq<Point> -> Ball

  /** The oracle is sound when every point of a cluster lies within the
      reported radius of the reported center. */
  ghost predicate Encloses(dist: Metric, ball: Miniball) {
    forall c: seq<Point>, q: Point :: q in c ==> dist(q, ball(c).center) <= ball(c).radius
  }

  /** One search node: the clusters built so far, the points not assigned
      yet, each cluster's radius and center, and the oracle's relative error
      for the last cluster it measured. */
  datatype State = State(core: seq<seq<Point>>, remainings: seq<Point>, rho: seq<real>,
                         centers: seq<Point>, error: real)

  /** The best search node recorded so far with its lower and upper bound. */
  datatype Record = Record(state: State, lower: real, upper: real)

  datatype BrError =
    | EmptyClusters  // `max(state.rho)` of an empty list when k <= 0
    | NoResult       // `ValueError('No result found')`

  /** `range(k)` has this many entries. */
  function Clusters(k: int): nat {
    if k <= 0 then 0 else k
  }

  /** The radius a cluster is given: 0 while it is empty. */
  function Radius(ball: Miniball, c: seq<Point>): real {
    if c == [] then 0.0 else ball(c).radius
  }

  /** The center a cluster is given: the origin while it is empty. */
  function CenterOf(ball: Miniball, c: seq<Point>): Point {
    if c == [] then Point(0.0, 0.0) else ball(c).center
  }

  /** A state of the search for n clusters: the clusters together with the
      remaining points are the input points, and each cluster's radius and
      center are the oracle's answer for it. */
  ghost predicate Consistent(n: nat, points: seq<Point>, ball: Miniball, s: State) {
    && |s.core| == n && |s.rho| == n && |s.centers| == n
    && multiset(Flatten(s.core)) + multiset(s.remainings) == multiset(points)
    && forall i :: 0 <= i < n ==> s.rho[i] == Radius(ball, s.core[i]) && s.centers[i] == CenterOf(ball, s.core[i])
  }

  /** Every state of the stack is consistent. */
  ghost predicate AllConsistent(n: nat, points: seq<Point>, ball: Miniball, stack: seq<State>) {
    forall t :: 0 <= t < |stack| ==> Consistent(n, points, ball, stack[t])
  }

  /** The state the search starts from: k empty clusters. */
  function Initial(k: int, points: seq<Point>): (s: State)
    ensures |s.core| == |s.rho| == |s.centers| == Clusters(k)
    ensures s.remainings == points
  {
    var n := Clusters(k);
    State(seq(n, _ => []), points, seq(n, _ => 0.0), seq(n, _ => Point(0.0, 0.0)), 0.0)
  }

  /** The initial state is consistent whatever the oracle. */
  lemma InitialConsistent(k: int, points: seq<Point>, ball: Miniball)
    ensures Consistent(Clusters(k), points, ball, Initial(k, points))
  {
    var s := Initial(k, points);
    FlattenEmpty(s.core);
  }

  /** `delta`: the distance from p to each cluster's center. */
  function Deltas(dist: Metric, p: Point, centers: seq<Point>): (d: seq<real>)
    ensures |d| == |centers|
  {
    if centers == [] then []
    else Deltas(dist, p, centers[..|centers| - 1]) + [dist(p, centers[|centers| - 1])]
  }

  lemma {:induction false} DeltasAt(dist: Metric, p: Point, centers: seq<Point>)
    ensures forall i :: 0 <= i < |centers| ==> Deltas(dist, p, centers)[i] == dist(p, centers[i])
  {
    if centers != [] {
      DeltasAt(dist, p, centers[..|centers| - 1]);
    }
  }

  /** The sort keys `objective([p], state.centers)` of the remaining points. */
  function RemainingKeys(dist: Metric, rem: seq<Point>, centers: seq<Point>): (keys: seq<real>)
    ensures |keys| == |rem|
  {
    seq(|rem|, t requires 0 <= t < |rem| => Objective(dist, [rem[t]], centers))
  }

  /** For a single point the objective is its distance to the nearest center. */
  lemma RemainingKeysAt(dist: Metric, rem: seq<Point>, centers: seq<Point>)
    requires |centers| > 0
    ensures forall u :: 0 <= u < |rem| ==> RemainingKeys(dist, rem, centers)[u] == NearestDist(dist, rem[u], centers)
  {
  }

  /** `max(state.remainings, key=lambda p: objective([p], state.centers))`:
      the first remaining point farthest from the centers. */
  function FarthestRemaining(dist: Metric, rem: seq<Point>, centers: seq<Point>): (p: Point)
    requires |rem| > 0
    ensures p in rem
  {
    rem[FirstArgMax(RemainingKeys(dist, rem, centers))]
  }

  /** No remaining point is farther from the centers than FarthestRemaining. */
  lemma FarthestRemainingIsFarthest(dist: Metric, rem: seq<Point>, centers: seq<Point>)
    requires |rem| > 0 && |centers| > 0
    ensures forall q :: q in rem ==>
      NearestDist(dist, q, centers) <= NearestDist(dist, FarthestRemaining(dist, rem, centers), centers)
  {
    var keys := RemainingKeys(dist, rem, centers);
    var t := FirstArgMax(keys);
    RemainingKeysAt(dist, rem, centers);
    forall q | q in rem ensures NearestDist(dist, q, centers) <= NearestDist(dist, rem[t], centers) {
      var u :| 0 <= u < |rem| && rem[u] == q;
      assert keys[u] <= keys[t];
    }
  }

  /** Every remaining point listed before FarthestRemaining is strictly
      closer to the centers: Python's `max` keeps the first largest key. */
  lemma FarthestRemainingIsFirst(dist: Metric, rem: seq<Point>, centers: seq<Point>)
    requires |rem| > 0 && |centers| > 0
    ensures exists t ::
      && 0 <= t < |rem|
      && rem[t] == FarthestRemaining(dist, rem, centers)
      && (forall u :: 0 <= u < t ==>
            NearestDist(dist, rem[u], centers) < NearestDist(dist, FarthestRemaining(dist, rem, centers), centers))
  {
    var keys := RemainingKeys(dist, rem, centers);
    var t := FirstArgMax(keys);
    RemainingKeysAt(dist, rem, centers);
    assert forall u :: 0 <= u < t ==> keys[u] < keys[t];
    assert rem[t] == FarthestRemaining(dist, rem, centers);
  }

  /** The sort key of cluster i: its entry of `delta`. */
  function Key(keys: seq<real>, i: nat): real {
    if i < |keys| then keys[i] else 0.0
  }

  /** Stable insertion of index i into xs, after every index whose key is
      at most the key of i. */
  function Insert(keys: seq<real>, i: nat, xs: seq<nat>): (r: seq<nat>)
    ensures |r| == |xs| + 1
  {
    if xs == [] || Key(keys, xs[|xs| - 1]) <= Key(keys, i) then xs + [i]
    else Insert(keys, i, xs[..|xs| - 1]) + [xs[|xs| - 1]]
  }

  /** Insert adds one copy of i and keeps every index of xs. */
  lemma {:induction false} InsertMultiset(keys: seq<real>, i: nat, xs: seq<nat>)
    ensures multiset(Insert(keys, i, xs)) == multiset(xs) + multiset{i}
  {
    if !(xs == [] || Key(keys, xs[|xs| - 1]) <= Key(keys, i)) {
      InsertMultiset(keys, i, xs[..|xs| - 1]);
      assert xs == xs[..|xs| - 1] + [xs[|xs| - 1]];
    }
  }

  /** Every entry of Insert(keys, i, xs) is i or an entry of xs. */
  lemma {:induction false} InsertMembers(keys: seq<real>, i: nat, xs: seq<nat>)
    ensures forall t :: 0 <= t < |Insert(keys, i, xs)| ==>
      Insert(keys, i, xs)[t] == i || exists u :: 0 <= u < |xs| && xs[u] == Insert(keys, i, xs)[t]
  {
    if !(xs == [] || Key(keys, xs[|xs| - 1]) <= Key(keys, i)) {
      var init := xs[..|xs| - 1];
      InsertMembers(keys, i, init);
      var r := Insert(keys, i, xs);
      forall t | 0 <= t < |r|
        ensures r[t] == i || exists u :: 0 <= u < |xs| && xs[u] == r[t]
      {
        if t < |r| - 1 && r[t] != i {
          var u :| 0 <= u < |init| && init[u] == r[t];
          assert xs[u] == r[t];
        } else if t == |r| - 1 {
          assert xs[|xs| - 1] == r[t];
        }
      }
    }
  }

  /** `sorted(delta, key=delta.get)` over the clusters 0 .. n - 1: Python's
      sort is stable. */
  function Ascending(keys: seq<real>, n: nat): (r: seq<nat>)
    ensures |r| == n
  {
    if n == 0 then [] else Insert(keys, n - 1, Ascending(keys, n - 1))
  }

  lemma RangeMultiset(n: nat)
    requires n > 0
    ensures multiset(Range(n)) == multiset(Range(n - 1)) + multiset{(n - 1) as nat}
  {
    assert Range(n) == Range(n - 1) + [n - 1];
  }

  /** The order lists each cluster index exactly once. */
  lemma {:induction false} AscendingPermutation(keys: seq<real>, n: nat)
    ensures multiset(Ascending(keys, n)) == multiset(Range(n))
  {
    if n > 0 {
      var xs := Ascending(keys, n - 1);
      AscendingPermutation(keys, n - 1);
      InsertMultiset(keys, n - 1, xs);
      RangeMultiset(n);
      assert Ascending(keys, n) == Insert(keys, n - 1, xs);
    }
  }

  /** Inserting an index below m into indices below m keeps them below m. */
  lemma {:induction false} InsertBelow(keys: seq<real>, i: nat, xs: seq<nat>, m: nat)
    requires i < m
    requires forall t :: 0 <= t < |xs| ==> xs[t] < m
    ensures forall t :: 0 <= t < |xs| + 1 ==> Insert(keys, i, xs)[t] < m
  {
    if !(xs == [] || Key(keys, xs[|xs| - 1]) <= Key(keys, i)) {
      InsertBelow(keys, i, xs[..|xs| - 1], m);
    }
  }

  /** The order lists only indices below n. */
  lemma {:induction false} AscendingBelow(keys: seq<real>, n: nat)
    ensures forall t :: 0 <= t < n ==> Ascending(keys, n)[t] < n
  {
    if n > 0 {
      AscendingBelow(keys, n - 1);
      InsertBelow(keys, n - 1, Ascending(keys, n - 1), n);
    }
  }

  /** Keys never decrease along xs. */
  ghost predicate SortedBy(keys: seq<real>, xs: seq<nat>) {
    forall a, b :: 0 <= a < b < |xs| ==> Key(keys, xs[a]) <= Key(keys, xs[b])
  }

  /** Indices with equal keys keep their increasing order. */
  ghost predicate StableBy(keys: seq<real>, xs: seq<nat>) {
    forall a, b :: 0 <= a < b < |xs| && Key(keys, xs[a]) == Key(keys, xs[b]) ==> xs[a] < xs[b]
  }

  lemma {:induction false} InsertSorted(keys: seq<real>, i: nat, xs: seq<nat>)
    requires forall t :: 0 <= t < |xs| ==> xs[t] < i
    requires SortedBy(keys, xs) && StableBy(keys, xs)
    ensures SortedBy(keys, Insert(keys, i, xs)) && StableBy(keys, Insert(keys, i, xs))
  {
    if xs != [] && Key(keys, xs[|xs| - 1]) > Key(keys, i) {
      var init := xs[..|xs| - 1];
      var last := xs[|xs| - 1];
      assert forall a :: 0 <= a < |init| ==> init[a] == xs[a];
      InsertSorted(keys, i, init);
      InsertMembers(keys, i, init);
      var r := Insert(keys, i, init);
      var rr := Insert(keys, i, xs);
      assert rr == r + [last];
      forall a | 0 <= a < |r|
        ensures Key(keys, r[a]) <= Key(keys, last)
        ensures Key(keys, r[a]) == Key(keys, last) ==> r[a] < last
      {
        if r[a] != i {
          var b :| 0 <= b < |init| && init[b] == r[a];
          assert xs[b] == r[a];
        }
      }
      forall a, b | 0 <= a < b < |rr|
        ensures Key(keys, rr[a]) <= Key(keys, rr[b])
        ensures Key(keys, rr[a]) == Key(keys, rr[b]) ==> rr[a] < rr[b]
      {
        if b < |r| {
          assert rr[a] == r[a] && rr[b] == r[b];
        } else {
          assert rr[a] == r[a] && rr[b] == last;
        }
      }
    }
  }

  /** The order is ascending by key, and ties keep increasing index order. */
  lemma {:induction false} AscendingSorted(keys: seq<real>, n: nat)
    ensures SortedBy(keys, Ascending(keys, n)) && StableBy(keys, Ascending(keys, n))
  {
    if n > 0 {
      var xs := Ascending(keys, n - 1);
      AscendingSorted(keys, n - 1);
      AscendingBelow(keys, n - 1);
      InsertSorted(keys, n - 1, xs);
    }
  }

  /** Every index of the order names a cluster. */
  ghost predicate InRange(order: seq<nat>, core: seq<seq<Point>>) {
    forall t :: 0 <= t < |order| ==> order[t] < |core|
  }

  /** One of the first j clusters of the order is empty: `empty_set` after j
      steps of the branching loop. */
  predicate SomeEmpty(order: seq<nat>, j: nat, core: seq<seq<Point>>)
    requires j <= |order| && InRange(order, core)
  {
    j > 0 && (core[order[j - 1]] == [] || SomeEmpty(order, j - 1, core))
  }

  /** The branching loop tries cluster order[t]: it is non-empty, or no
      cluster before it in the order is empty. */
  predicate Tried(order: seq<nat>, t: nat, core: seq<seq<Point>>)
    requires t < |order| && InRange(order, core)
  {
    core[order[t]] != [] || !SomeEmpty(order, t, core)
  }

  /** `empty_set` is set exactly when an earlier cluster of the order is empty. */
  lemma {:induction false} SomeEmptyMeans(order: seq<nat>, j: nat, core: seq<seq<Point>>)
    requires j <= |order| && InRange(order, core)
    ensures SomeEmpty(order, j, core) <==> exists u :: 0 <= u < j && core[order[u]] == []
  {
    if j > 0 {
      SomeEmptyMeans(order, j - 1, core);
    }
  }

  /** Every non-empty cluster is tried, and of the empty clusters only the
      first one in the order. */
  lemma OnlyFirstEmpty(order: seq<nat>, core: seq<seq<Point>>)
    requires InRange(order, core)
    ensures forall t :: 0 <= t < |order| && core[order[t]] != [] ==> Tried(order, t, core)
    ensures forall t :: 0 <= t < |order| && core[order[t]] == [] ==>
      (Tried(order, t, core) <==> forall u :: 0 <= u < t ==> core[order[u]] != [])
  {
    forall t | 0 <= t < |order| {
      SomeEmptyMeans(order, t, core);
    }
  }

  /** The child state that assigns p to cluster i: cluster i gets p
      appended and is measured again by the oracle, p leaves the remaining
      points, and every other cluster is kept. */
  function Child(ball: Miniball, s: State, i: nat, p: Point): State
    requires i < |s.core| && i < |s.rho| && i < |s.centers|
    requires p in s.remainings
  {
    var c := s.core[i] + [p];
    var mb := ball(c);
    State(s.core[i := c], RemoveFirst(s.remainings, p), s.rho[i := mb.radius], s.centers[i := mb.center], mb.error)
  }

  /** Branching keeps a state consistent and takes one point out of the
      remaining ones. */
  lemma ChildConsistent(n: nat, points: seq<Point>, ball: Miniball, s: State, i: nat, p: Point)
    requires Consistent(n, points, ball, s)
    requires i < n && p in s.remainings
    ensures Consistent(n, points, ball, Child(ball, s, i, p))
    ensures |Child(ball, s, i, p).remainings| == |s.remainings| - 1
  {
    FlattenAppendAt(s.core, i, p);
  }

  /** A child is kept when its largest radius is within the inflated upper
      bound. */
  predicate Fits(child: State, bound: real, epsilon: real) {
    |child.rho| > 0 && MaxOf(child.rho) <= Inflated(bound, epsilon, child.error)
  }

  /** `upper * (1 + epsilon) * (1 + error)`. */
  function Inflated(bound: real, epsilon: real, error: real): real {
    (bound * (1.0 + epsilon)) * (1.0 + error)
  }

  /** The children the first j steps of the branching loop push, in push
      order: the child of each tried cluster, when it fits the bound. */
  function Kids(ball: Miniball, s: State, p: Point, bound: real, epsilon: real, order: seq<nat>, j: nat): (r: seq<State>)
    requires j <= |order| && InRange(order, s.core)
    requires |s.rho| == |s.core| && |s.centers| == |s.core| && p in s.remainings
    ensures |r| <= j
  {
    if j == 0 then []
    else
      var i := order[j - 1];
      Kids(ball, s, p, bound, epsilon, order, j - 1)
        + (if Tried(order, j - 1, s.core) && Fits(Child(ball, s, i, p), bound, epsilon)
           then [Child(ball, s, i, p)] else [])
  }

  /** Every tried cluster whose child fits the bound has that child pushed. */
  lemma {:induction false} FittingChildPushed(ball: Miniball, s: State, p: Point, bound: real, epsilon: real,
                                              order: seq<nat>, j: nat, t: nat)
    requires j <= |order| && InRange(order, s.core)
    requires |s.rho| == |s.core| && |s.centers| == |s.core| && p in s.remainings
    requires t < j && Tried(order, t, s.core) && Fits(Child(ball, s, order[t], p), bound, epsilon)
    ensures Child(ball, s, order[t], p) in Kids(ball, s, p, bound, epsilon, order, j)
  {
    var all := Kids(ball, s, p, bound, epsilon, order, j);
    if t < j - 1 {
      FittingChildPushed(ball, s, p, bound, epsilon, order, j - 1, t);
      var prev := Kids(ball, s, p, bound, epsilon, order, j - 1);
      var u :| 0 <= u < |prev| && prev[u] == Child(ball, s, order[t], p);
      assert all[u] == prev[u];
    } else {
      assert all[|all| - 1] == Child(ball, s, order[t], p);
    }
  }

  /** Every pushed child is consistent, fits the bound, and has one
      remaining point fewer than its parent. */
  lemma {:induction false} KidsFacts(n: nat, points: seq<Point>, ball: Miniball, s: State, p: Point,
                                     bound: real, epsilon: real, order: seq<nat>, j: nat)
    requires Consistent(n, points, ball, s) && p in s.remainings
    requires j <= |order| && InRange(order, s.core)
    ensures forall t :: 0 <= t < |Kids(ball, s, p, bound, epsilon, order, j)| ==>
      && Consistent(n, points, ball, Kids(ball, s, p, bound, epsilon, order, j)[t])
      && Fits(Kids(ball, s, p, bound, epsilon, order, j)[t], bound, epsilon)
      && |Kids(ball, s, p, bound, epsilon, order, j)[t].remainings| == |s.remainings| - 1
  {
    if j > 0 {
      var prev := Kids(ball, s, p, bound, epsilon, order, j - 1);
      KidsFacts(n, points, ball, s, p, bound, epsilon, order, j - 1);
      ChildConsistent(n, points, ball, s, order[j - 1], p);
      var all := Kids(ball, s, p, bound, epsilon, order, j);
      forall t | 0 <= t < |all|
        ensures Consistent(n, points, ball, all[t]) && Fits(all[t], bound, epsilon)
        ensures |all[t].remainings| == |s.remainings| - 1
      {
        if t < |prev| {
          assert all[t] == prev[t];
        } else {
          assert all[t] == Child(ball, s, order[j - 1], p);
        }
      }
    }
  }

  lemma AllConsistentAppend(n: nat, points: seq<Point>, ball: Miniball, base: seq<State>, kids: seq<State>)
    requires AllConsistent(n, points, ball, base)
    requires forall t :: 0 <= t < |kids| ==> Consistent(n, points, ball, kids[t])
    ensures AllConsistent(n, points, ball, base + kids)
  {
    forall t | 0 <= t < |base + kids| ensures Consistent(n, points, ball, (base + kids)[t]) {
      if t < |base| {
        assert (base + kids)[t] == base[t];
      } else {
        assert (base + kids)[t] == kids[t - |base|];
      }
    }
  }

  /** a copies of w added up; written with additions only, so that the
      termination argument stays within linear arithmetic. */
  function Times(a: nat, w: nat): nat {
    if a == 0 then 0 else Times(a - 1, w) + w
  }

  lemma {:induction false} TimesMono(a: nat, b: nat, w: nat)
    requires a <= b
    ensures Times(a, w) <= Times(b, w)
  {
    if a < b {
      TimesMono(a, b - 1, w);
    }
  }

  /** b to the power e. */
  function Pow(b: nat, e: nat): nat {
    if e == 0 then 1 else Times(b, Pow(b, e - 1))
  }

  lemma {:induction false} Positive(b: nat, e: nat)
    requires b > 0
    ensures Pow(b, e) > 0
  {
    if e > 0 {
      Positive(b, e - 1);
      TimesMono(1, b, Pow(b, e - 1));
    }
  }

  /** Termination measure: a state with r remaining points weighs (n+1)^r,
      which exceeds the weight of its at most n children. */
  function Weight(n: nat, stack: seq<State>): nat {
    if stack == [] then 0
    else Weight(n, stack[..|stack| - 1]) + Pow(n + 1, |stack[|stack| - 1].remainings|)
  }

  lemma WeightPush(n: nat, base: seq<State>, s: State)
    ensures Weight(n, base + [s]) == Weight(n, base) + Pow(n + 1, |s.remainings|)
  {
    assert (base + [s])[..|base|] == base;
  }

  lemma {:induction false} WeightAppend(n: nat, base: seq<State>, kids: seq<State>, r: nat)
    requires forall t :: 0 <= t < |kids| ==> |kids[t].remainings| == r
    ensures Weight(n, base + kids) == Weight(n, base) + Times(|kids|, Pow(n + 1, r))
  {
    if kids != [] {
      var m := |kids| - 1;
      var init := kids[..m];
      assert forall t :: 0 <= t < m ==> init[t] == kids[t];
      WeightAppend(n, base, init, r);
      WeightPush(n, base + init, kids[m]);
      assert base + init + [kids[m]] == base + kids;
    } else {
      assert base + kids == base;
    }
  }

  /** Replacing a state with r > 0 remaining points by at most n children
      with r - 1 remaining points makes the stack lighter. */
  lemma BranchLighter(n: nat, base: seq<State>, kids: seq<State>, r: nat)
    requires r > 0 && |kids| <= n
    requires forall t :: 0 <= t < |kids| ==> |kids[t].remainings| == r - 1
    ensures Weight(n, base + kids) < Weight(n, base) + Pow(n + 1, r)
  {
    WeightAppend(n, base, kids, r - 1);
    var w := Pow(n + 1, r - 1);
    TimesMono(|kids|, n, w);
    Positive(n + 1, r - 1);
    assert Pow(n + 1, r) == Times(n, w) + w;
  }

  /** Within `bound` of the centers: the largest cluster radius is at most
      `bound`, and so is every remaining point's distance to its nearest
      center. */
  ghost predicate Covers(dist: Metric, s: State, bound: real)
    requires |s.rho| > 0 && |s.centers| > 0
  {
    && MaxOf(s.rho) <= bound
    && forall q :: q in s.remainings ==> NearestDist(dist, q, s.centers) <= bound
  }

  /** With a sound oracle, a consistent state within `bound` of its centers
      has objective at most `bound`: a clustered point is within its
      cluster's radius of that cluster's center. */
  lemma StateBound(dist: Metric, ball: Miniball, n: nat, points: seq<Point>, s: State, bound: real)
    requires Encloses(dist, ball)
    requires n > 0 && Consistent(n, points, ball, s)
    requires Covers(dist, s, bound)
    ensures Objective(dist, points, s.centers) <= bound
  {
    forall i | 0 <= i < |points|
      ensures NearestDist(dist, points[i], s.centers) <= bound
    {
      var q := points[i];
      assert q in multiset(points);
      if q !in s.remainings {
        assert q in multiset(Flatten(s.core));
        FlattenMember(s.core, q);
        var j :| 0 <= j < |s.core| && q in s.core[j];
        NearestDistIsMin(dist, q, s.centers);
        MaxOfIsMax(s.rho);
        assert dist(q, s.centers[j]) <= s.rho[j];
      }
    }
    assert s.rho[0] == Radius(ball, s.core[0]);
  }

  /** A state cut off by the bound test is recorded with the upper bound
      max(delta_min, lower); every remaining point is that close to the
      centers, since p is the remaining point farthest from them. */
  lemma CutoffCovers(dist: Metric, s: State, p: Point, current: real)
    requires |s.rho| > 0 && |s.centers| > 0 && |s.remainings| > 0
    requires p == FarthestRemaining(dist, s.remainings, s.centers)
    requires MaxOf(s.rho) <= current && MinOf(Deltas(dist, p, s.centers)) <= current
    ensures Covers(dist, s, current)
  {
    FarthestRemainingIsFarthest(dist, s.remainings, s.centers);
    DeltasAt(dist, p, s.centers);
    var delta := Deltas(dist, p, s.centers);
    MinOfIsMin(delta);
    var i :| 0 <= i < |delta| && delta[i] == MinOf(delta);
    NearestDistIsMin(dist, p, s.centers);
  }

  /** Each value is at most the one before it. */
  ghost predicate NonIncreasing(xs: seq<Ext>) {
    |xs| <= 1 || (NonIncreasing(xs[..|xs| - 1]) && Le(xs[|xs| - 1], xs[|xs| - 2]))
  }

  /** A non-increasing sequence is ordered between any two positions. */
  lemma {:induction false} NonIncreasingMeans(xs: seq<Ext>)
    requires NonIncreasing(xs)
    ensures forall i, j :: 0 <= i <= j < |xs| ==> Le(xs[j], xs[i])
  {
    if |xs| > 1 {
      var init := xs[..|xs| - 1];
      NonIncreasingMeans(init);
      forall i, j | 0 <= i <= j < |xs| ensures Le(xs[j], xs[i]) {
        if j < |xs| - 1 {
          assert init[i] == xs[i] && init[j] == xs[j];
        } else if i < j {
          assert init[i] == xs[i] && init[j - 1] == xs[j - 1];
          LeTrans(xs[j], xs[j - 1], xs[i]);
        }
      }
    }
  }

  /** `upper_bound = min(upper_bound, x)` extends the history of upper
      bounds without breaking its order, and leaves a finite bound. */
  lemma UpperNonIncreasing(bounds: seq<Ext>, x: real)
    requires |bounds| > 0 && bounds[0] == Inf && NonIncreasing(bounds)
    ensures var b := bounds + [Min(bounds[|bounds| - 1], Fin(x))];
      b[0] == Inf && NonIncreasing(b) && b[|b| - 1].Fin?
  {
    var b := bounds + [Min(bounds[|bounds| - 1], Fin(x))];
    assert b[..|bounds|] == bounds;
  }

  /** The branching loop of `brandenberg_roth`: for each cluster index in
      `order`, the child assigning p to that cluster is pushed when it fits
      the bound; of the empty clusters only the first is tried. */
  method Branch(ball: Miniball, s: State, p: Point, bound: real, epsilon: real, order: seq<nat>, stack: seq<State>)
    returns (stack': seq<State>)
    requires p in s.remainings
    requires |s.rho| == |s.core| && |s.centers| == |s.core| && InRange(order, s.core)
    ensures stack' == stack + Kids(ball, s, p, bound, epsilon, order, |order|)
  {
    stack' := stack;
    var emptySet := false;
    ghost var kids: seq<State> := [];
    var j := 0;
    while j < |order|
      invariant 0 <= j <= |order|
      invariant kids == Kids(ball, s, p, bound, epsilon, order, j)
      invariant stack' == stack + kids
      invariant emptySet == SomeEmpty(order, j, s.core)
    {
      var i := order[j];
      assert Tried(order, j, s.core) <==> s.core[i] != [] || !emptySet;
      if s.core[i] == [] {
        if emptySet {
          j := j + 1;
          continue;
        }
        emptySet := true;
      }
      // The copied lists with p moved into cluster i, re-measured.
      var child := Child(ball, s, i, p);
      if Fits(child, bound, epsilon) {
        stack' := stack' + [child];
        kids := kids + [child];
      }
      j := j + 1;
    }
  }

  /** The recorded result so far: a consistent state within its recorded
      upper bound of its centers, and that bound is no better than the
      global upper bound. */
  ghost predicate Best(n: nat, points: seq<Point>, ball: Miniball, dist: Metric, upper: Ext, result: Option<Record>) {
    result.Some? ==>
      && n > 0
      && Consistent(n, points, ball, result.value.state)
      && Covers(dist, result.value.state, result.value.upper)
      && Le(upper, Fin(result.value.upper))
  }

  /** The update of the best result when a state without remaining points is
      reached: its largest radius is both its lower and its upper bound. */
  lemma TerminalBest(n: nat, points: seq<Point>, ball: Miniball, dist: Metric, upper: Ext,
                     result: Option<Record>, s: State, result': Option<Record>)
    requires Best(n, points, ball, dist, upper, result)
    requires n > 0 && Consistent(n, points, ball, s) && s.remainings == []
    requires result' == if result.None? || MaxOf(s.rho) < result.value.upper
                        then Some(Record(s, MaxOf(s.rho), MaxOf(s.rho))) else result
    ensures Best(n, points, ball, dist, Min(upper, Fin(MaxOf(s.rho))), result')
  {
    if result.Some? {
      LeTrans(Min(upper, Fin(MaxOf(s.rho))), upper, Fin(result.value.upper));
    }
  }

  /** The update of the best result when a state is cut off by the bound
      test: it is recorded with the upper bound `current`. */
  lemma CutoffBest(n: nat, points: seq<Point>, ball: Miniball, dist: Metric, upper: Ext,
                   result: Option<Record>, s: State, p: Point, current: real, result': Option<Record>)
    requires Best(n, points, ball, dist, upper, result)
    requires n > 0 && Consistent(n, points, ball, s) && |s.remainings| > 0
    requires p == FarthestRemaining(dist, s.remainings, s.centers)
    requires MaxOf(s.rho) <= current && MinOf(Deltas(dist, p, s.centers)) <= current
    requires result' == if result.None? || current < result.value.upper
                        then Some(Record(s, MaxOf(s.rho), current)) else result
    ensures Best(n, points, ball, dist, Min(upper, Fin(current)), result')
  {
    if result' != result {
      CutoffCovers(dist, s, p, current);
    } else {
      LeTrans(Min(upper, Fin(current)), upper, Fin(result.value.upper));
    }
  }

  /** Branching replaces a consistent state by consistent children with one
      remaining point fewer, which makes the stack lighter. */
  lemma BranchKeeps(n: nat, points: seq<Point>, ball: Miniball, rest: seq<State>, s: State, p: Point,
                    bound: real, epsilon: real, order: seq<nat>)
    requires AllConsistent(n, points, ball, rest) && Consistent(n, points, ball, s)
    requires p in s.remainings
    requires |order| == n && InRange(order, s.core)
    ensures AllConsistent(n, points, ball, rest + Kids(ball, s, p, bound, epsilon, order, n))
    ensures Weight(n, rest + Kids(ball, s, p, bound, epsilon, order, n)) < Weight(n, rest + [s])
  {
    var kids := Kids(ball, s, p, bound, epsilon, order, n);
    KidsFacts(n, points, ball, s, p, bound, epsilon, order, n);
    AllConsistentAppend(n, points, ball, rest, kids);
    BranchLighter(n, rest, kids, |s.remainings|);
    WeightPush(n, rest, s);
  }

  /** Popping a state leaves a consistent stack and gives a consistent state. */
  lemma PopConsistent(n: nat, points: seq<Point>, ball: Miniball, stack: seq<State>)
    requires stack != [] && AllConsistent(n, points, ball, stack)
    ensures AllConsistent(n, points, ball, stack[..|stack| - 1])
    ensures Consistent(n, points, ball, stack[|stack| - 1])
  {
    var init := stack[..|stack| - 1];
    forall t | 0 <= t < |init| ensures Consistent(n, points, ball, init[t]) {
      assert init[t] == stack[t];
    }
  }

  /** Popping a state makes the stack lighter. */
  lemma PopLighter(n: nat, stack: seq<State>)
    requires stack != []
    ensures stack[..|stack| - 1] + [stack[|stack| - 1]] == stack
    ensures Weight(n, stack[..|stack| - 1]) < Weight(n, stack)
  {
    Positive(n + 1, |stack[|stack| - 1].remainings|);
  }

  /** A tighter global upper bound keeps the recorded result valid. */
  lemma BestTighter(n: nat, points: seq<Point>, ball: Miniball, dist: Metric, upper: Ext, upper': Ext,
                    result: Option<Record>)
    requires Best(n, points, ball, dist, upper, result) && Le(upper', upper)
    ensures Best(n, points, ball, dist, upper', result)
  {
    if result.Some? {
      LeTrans(upper', upper, Fin(result.value.upper));
    }
  }

  /** The invariant of the search loop: every state on the stack is
      consistent, the upper bounds so far start at infinity, never increase
      and end with `upper`, and the recorded result is within its bound. */
  ghost predicate Searching(n: nat, points: seq<Point>, ball: Miniball, dist: Metric, stack: seq<State>,
                            upper: Ext, result: Option<Record>, bounds: seq<Ext>)
  {
    && AllConsistent(n, points, ball, stack)
    && |bounds| > 0 && bounds[0] == Inf && bounds[|bounds| - 1] == upper && NonIncreasing(bounds)
    && Best(n, points, ball, dist, upper, result)
  }

  /** `if not result or x < result.upper_bound: result = Result(...)`: the
      state is recorded with bounds `lower` and `upper` when nothing is
      recorded yet or its upper bound beats the recorded one. */
  function Recorded(result: Option<Record>, s: State, lower: real, upper: real): Option<Record> {
    if result.None? || upper < result.value.upper then Some(Record(s, lower, upper)) else result
  }

  /** `current_objective = max(delta_min, lower_bound)` for the remaining
      point farthest from the centers. */
  function Current(dist: Metric, s: State): real
    requires |s.remainings| > 0 && |s.rho| > 0 && |s.centers| > 0
  {
    var p := FarthestRemaining(dist, s.remainings, s.centers);
    var deltaMin := MinOf(Deltas(dist, p, s.centers));
    var lower := MaxOf(s.rho);
    if deltaMin > lower then deltaMin else lower
  }

  /** The bound test `(1 + epsilon) * lower_bound > upper_bound`: the
      state cannot be improved on by more than the factor 1 + epsilon. */
  predicate Cut(epsilon: real, lower: real, bound: real) {
    (1.0 + epsilon) * lower > bound
  }

  /** The variables of the search loop: the stack, the global upper bound
      and the recorded result. */
  datatype Search = Search(stack: seq<State>, upper: Ext, result: Option<Record>)

  /** A popped state without remaining points: its largest radius tightens
      the upper bound, and the state is recorded with it as both bounds. */
  function Settled(rest: seq<State>, upper: Ext, result: Option<Record>, state: State): Search
    requires |state.rho| > 0
  {
    var lower := MaxOf(state.rho);
    Search(rest, Min(upper, Fin(lower)), Recorded(result, state, lower, lower))
  }

  /** The children of a state in the branching loop's push order, for the
      remaining point farthest from the centers and the clusters in
      ascending order of their distance to it. */
  function Children(n: nat, epsilon: real, dist: Metric, ball: Miniball, state: State, bound: real): seq<State>
    requires n > 0 && |state.remainings| > 0
    requires |state.core| == n && |state.rho| == n && |state.centers| == n
  {
    var p := FarthestRemaining(dist, state.remainings, state.centers);
    var delta := Deltas(dist, p, state.centers);
    AscendingBelow(delta, n);
    Kids(ball, state, p, bound, epsilon, Ascending(delta, n), n)
  }

  /** A popped state with remaining points: Current tightens the upper
      bound; the state is recorded with Current as its upper bound when
      `(1 + epsilon) * lower` exceeds the bound, and otherwise its children
      are pushed and the recorded result stays. */
  function Expanded(n: nat, epsilon: real, dist: Metric, ball: Miniball, rest: seq<State>, upper: Ext,
                    result: Option<Record>, state: State): Search
    requires n > 0 && |state.remainings| > 0
    requires |state.core| == n && |state.rho| == n && |state.centers| == n
  {
    var lower := MaxOf(state.rho);
    var current := Current(dist, state);
    var upper' := Min(upper, Fin(current));
    if Cut(epsilon, lower, upper'.v) then Search(rest, upper', Recorded(result, state, lower, current))
    else Search(rest + Children(n, epsilon, dist, ball, state, upper'.v), upper', result)
  }

  /** Expanding a consistent state leaves a consistent, lighter stack and a
      finite upper bound no larger than before. */
  lemma ExpandedKeeps(n: nat, points: seq<Point>, epsilon: real, dist: Metric, ball: Miniball, rest: seq<State>,
                      upper: Ext, result: Option<Record>, state: State)
    requires n > 0 && AllConsistent(n, points, ball, rest) && Consistent(n, points, ball, state)
    requires |state.remainings| > 0
    ensures var s' := Expanded(n, epsilon, dist, ball, rest, upper, result, state);
      && AllConsistent(n, points, ball, s'.stack)
      && Weight(n, s'.stack) < Weight(n, rest + [state])
      && Le(s'.upper, upper) && s'.upper.Fin?
  {
    var p := FarthestRemaining(dist, state.remainings, state.centers);
    var delta := Deltas(dist, p, state.centers);
    AscendingBelow(delta, n);
    BranchKeeps(n, points, ball, rest, state, p, Min(upper, Fin(Current(dist, state))).v, epsilon, Ascending(delta, n));
    WeightPush(n, rest, state);
    Positive(n + 1, |state.remainings|);
  }

  /** One pass of the search loop: the top state is popped and settled when
      no points remain, expanded otherwise. */
  function Step(n: nat, points: seq<Point>, epsilon: real, dist: Metric, ball: Miniball, s: Search): (s': Search)
    requires n > 0 && s.stack != [] && AllConsistent(n, points, ball, s.stack)
    ensures AllConsistent(n, points, ball, s'.stack)
    ensures Weight(n, s'.stack) < Weight(n, s.stack)
    ensures Le(s'.upper, s.upper) && s'.upper.Fin?
  {
    PopConsistent(n, points, ball, s.stack);
    PopLighter(n, s.stack);
    var state := s.stack[|s.stack| - 1];
    var rest := s.stack[..|s.stack| - 1];
    if state.remainings == [] then Settled(rest, s.upper, s.result, state)
    else
      ExpandedKeeps(n, points, epsilon, dist, ball, rest, s.upper, s.result, state);
      Expanded(n, epsilon, dist, ball, rest, s.upper, s.result, state)
  }

  /** The search loop run until the stack is empty. */
  function Run(n: nat, points: seq<Point>, epsilon: real, dist: Metric, ball: Miniball, s: Search): (s': Search)
    requires n > 0 && AllConsistent(n, points, ball, s.stack)
    ensures s'.stack == [] && Le(s'.upper, s.upper)
    decreases Weight(n, s.stack)
  {
    if s.stack == [] then s
    else
      var t := Step(n, points, epsilon, dist, ball, s);
      var u := Run(n, points, epsilon, dist, ball, t);
      LeTrans(u.upper, t.upper, s.upper);
      u
  }

  /** A pass of the loop on a non-empty stack leaves the rest of the search
      to Run: the top state settled when no points remain, expanded
      otherwise. */
  lemma RunPass(n: nat, points: seq<Point>, epsilon: real, dist: Metric, ball: Miniball, s: Search, t: Search)
    requires n > 0 && s.stack != [] && AllConsistent(n, points, ball, s.stack)
    requires var state := s.stack[|s.stack| - 1];
      var rest := s.stack[..|s.stack| - 1];
      && |state.rho| == n
      && t == if state.remainings == [] then Settled(rest, s.upper, s.result, state)
              else Expanded(n, epsilon, dist, ball, rest, s.upper, s.result, state)
    ensures Run(n, points, epsilon, dist, ball, s) == Run(n, points, epsilon, dist, ball, t)
  {
    PopConsistent(n, points, ball, s.stack);
    assert Step(n, points, epsilon, dist, ball, s) == t;
  }

  /** The search started from k empty clusters, infinity as the upper bound
      and nothing recorded. */
  function Final(k: int, points: seq<Point>, epsilon: real, dist: Metric, ball: Miniball): Search
    requires k > 0
  {
    InitialConsistent(k, points, ball);
    Run(k, points, epsilon, dist, ball, Search([Initial(k, points)], Inf, None))
  }

  /** What `brandenberg_roth` returns: EmptyClusters for k <= 0 (`max` of
      an empty `rho`), the recorded state's centers, or NoResult when the
      search recorded nothing. */
  function Answer(k: int, points: seq<Point>, epsilon: real, dist: Metric, ball: Miniball): Result<seq<Point>, BrError> {
    if k <= 0 then Err(EmptyClusters)
    else
      var f := Final(k, points, epsilon, dist, ball);
      if f.result.Some? then Ok(f.result.value.state.centers) else Err(NoResult)
  }

  /** One pass of the loop keeps the recorded result within its bound. */
  lemma StepBest(n: nat, points: seq<Point>, epsilon: real, dist: Metric, ball: Miniball, s: Search)
    requires n > 0 && s.stack != [] && AllConsistent(n, points, ball, s.stack)
    requires Best(n, points, ball, dist, s.upper, s.result)
    ensures var s' := Step(n, points, epsilon, dist, ball, s);
      Best(n, points, ball, dist, s'.upper, s'.result)
  {
    PopConsistent(n, points, ball, s.stack);
    var state := s.stack[|s.stack| - 1];
    var lower := MaxOf(state.rho);
    if state.remainings == [] {
      TerminalBest(n, points, ball, dist, s.upper, s.result, state, Recorded(s.result, state, lower, lower));
    } else {
      var p := FarthestRemaining(dist, state.remainings, state.centers);
      var current := Current(dist, state);
      var upper := Min(s.upper, Fin(current));
      if Cut(epsilon, lower, upper.v) {
        CutoffBest(n, points, ball, dist, s.upper, s.result, state, p, current,
                   Recorded(s.result, state, lower, current));
      } else {
        BestTighter(n, points, ball, dist, s.upper, upper, s.result);
      }
    }
  }

  /** The whole search keeps the recorded result within its bound. */
  lemma {:induction false} RunBest(n: nat, points: seq<Point>, epsilon: real, dist: Metric, ball: Miniball, s: Search)
    requires n > 0 && AllConsistent(n, points, ball, s.stack)
    requires Best(n, points, ball, dist, s.upper, s.result)
    ensures var s' := Run(n, points, epsilon, dist, ball, s);
      Best(n, points, ball, dist, s'.upper, s'.result)
    decreases Weight(n, s.stack)
  {
    if s.stack != [] {
      StepBest(n, points, epsilon, dist, ball, s);
      RunBest(n, points, epsilon, dist, ball, Step(n, points, epsilon, dist, ball, s));
    }
  }

  /** What the answer means: it is Ok exactly when the search recorded a
      state, and then it is that state's k centers; the state is consistent
      and within its recorded upper bound, which is no better than the final
      global upper bound; with a sound oracle the objective of the centers
      is at most that bound. */
  lemma SearchSound(k: int, points: seq<Point>, epsilon: real, dist: Metric, ball: Miniball)
    requires k > 0
    ensures var f := Final(k, points, epsilon, dist, ball);
      var r := Answer(k, points, epsilon, dist, ball);
      && (r.Ok? <==> f.result.Some?)
      && (f.result.Some? ==>
            && r.value == f.result.value.state.centers && |r.value| == k
            && Consistent(k, points, ball, f.result.value.state)
            && Covers(dist, f.result.value.state, f.result.value.upper)
            && Le(f.upper, Fin(f.result.value.upper)))
      && (f.result.Some? && Encloses(dist, ball) ==> Objective(dist, points, r.value) <= f.result.value.upper)
  {
    InitialConsistent(k, points, ball);
    RunBest(k, points, epsilon, dist, ball, Search([Initial(k, points)], Inf, None));
    var f := Final(k, points, epsilon, dist, ball);
    if f.result.Some? && Encloses(dist, ball) {
      StateBound(dist, ball, k, points, f.result.value.state, f.result.value.upper);
    }
  }

  /** A popped state without remaining points: its largest radius `lower`
      is an upper bound, and the state is recorded when it improves on the
      recorded result. */
  method Settle(n: nat, points: seq<Point>, dist: Metric, ball: Miniball, ghost stack: seq<State>,
                upper: Ext, result: Option<Record>, ghost bounds: seq<Ext>, state: State, lower: real)
    returns (upper': Ext, result': Option<Record>, ghost bounds': seq<Ext>)
    requires Searching(n, points, ball, dist, stack, upper, result, bounds)
    requires n > 0 && Consistent(n, points, ball, state) && state.remainings == []
    requires lower == MaxOf(state.rho)
    ensures Searching(n, points, ball, dist, stack, upper', result', bounds')
    ensures upper' == Min(upper, Fin(lower))
    ensures result' == Recorded(result, state, lower, lower)
    ensures Search(stack, upper', result') == Settled(stack, upper, result, state)
  {
    UpperNonIncreasing(bounds, lower);
    upper' := Min(upper, Fin(lower));
    bounds' := bounds + [upper'];
    result' := result;
    if result.None? || lower < result.value.upper {
      result' := Some(Record(state, lower, lower));
    }
    TerminalBest(n, points, ball, dist, upper, result, state, result');
  }

  /** A popped state with remaining points. The remaining point p farthest
      from the centers is chosen, max(delta_min, lower) tightens the upper
      bound, and the state is either recorded (when (1 + epsilon) * lower
      exceeds the upper bound) or replaced by its children: the new stack,
      bound and result are one pass of the loop on the stack with the state
      pushed back. */
  method Expand(n: nat, points: seq<Point>, epsilon: real, dist: Metric, ball: Miniball, stack: seq<State>,
                upper: Ext, result: Option<Record>, ghost bounds: seq<Ext>, state: State, lower: real)
    returns (stack': seq<State>, upper': Ext, result': Option<Record>, ghost bounds': seq<Ext>)
    requires Searching(n, points, ball, dist, stack, upper, result, bounds)
    requires n > 0 && Consistent(n, points, ball, state) && state.remainings != []
    requires lower == MaxOf(state.rho)
    ensures Searching(n, points, ball, dist, stack', upper', result', bounds')
    ensures upper' == Min(upper, Fin(Current(dist, state)))
    ensures stack' == if Cut(epsilon, lower, upper'.v) then stack
                      else stack + Children(n, epsilon, dist, ball, state, upper'.v)
    ensures result' == if Cut(epsilon, lower, upper'.v) then Recorded(result, state, lower, Current(dist, state))
                       else result
    ensures Search(stack', upper', result') == Expanded(n, epsilon, dist, ball, stack, upper, result, state)
  {
    var p := FarthestRemaining(dist, state.remainings, state.centers);
    var delta := Deltas(dist, p, state.centers);
    var deltaMin := MinOf(delta);
    var current := if deltaMin > lower then deltaMin else lower;
    UpperNonIncreasing(bounds, current);
    upper' := Min(upper, Fin(current));
    bounds' := bounds + [upper'];
    result' := result;
    if Cut(epsilon, lower, upper'.v) {
      if result.None? || current < result.value.upper {
        result' := Some(Record(state, lower, current));
      }
      CutoffBest(n, points, ball, dist, upper, result, state, p, current, result');
      stack' := stack;
      WeightPush(n, stack, state);
      Positive(n + 1, |state.remainings|);
      return;
    }
    BestTighter(n, points, ball, dist, upper, upper', result);
    var order := Ascending(delta, n);
    AscendingBelow(delta, n);
    BranchKeeps(n, points, ball, stack, state, p, upper'.v, epsilon, order);
    stack' := Branch(ball, state, p, upper'.v, epsilon, order, stack);
  }

  /** The search loop `while stack:` of `brandenberg_roth` for n > 0
      clusters: it ends with the search Run computes from the given stack,
      bound and result. */
  method Explore(n: nat, points: seq<Point>, epsilon: real, dist: Metric, ball: Miniball, stack: seq<State>,
                 upper: Ext, result: Option<Record>, ghost bounds: seq<Ext>)
    returns (upper': Ext, result': Option<Record>, ghost bounds': seq<Ext>)
    requires n > 0 && Searching(n, points, ball, dist, stack, upper, result, bounds)
    ensures Searching(n, points, ball, dist, [], upper', result', bounds')
    ensures Search([], upper', result') == Run(n, points, epsilon, dist, ball, Search(stack, upper, result))
  {
    ghost var start := Search(stack, upper, result);
    var stack := stack;
    upper', result', bounds' := upper, result, bounds;
    while stack != []
      invariant Searching(n, points, ball, dist, stack, upper', result', bounds')
      invariant Run(n, points, epsilon, dist, ball, Search(stack, upper', result'))
             == Run(n, points, epsilon, dist, ball, start)
      decreases Weight(n, stack)
    {
      PopConsistent(n, points, ball, stack);
      PopLighter(n, stack);
      ghost var before := Search(stack, upper', result');
      var state := stack[|stack| - 1];
      stack := stack[..|stack| - 1];
      var lower := MaxOf(state.rho);
      // The skip test of the source only counts; it never prunes a state.
      if state.remainings == [] {
        upper', result', bounds' := Settle(n, points, dist, ball, stack, upper', result', bounds', state, lower);
      } else {
        stack, upper', result', bounds' := Expand(n, points, epsilon, dist, ball, stack, upper', result', bounds',
                                                  state, lower);
      }
      RunPass(n, points, epsilon, dist, ball, before, Search(stack, upper', result'));
    }
  }

  /** `brandenberg_roth(k, points, epsilon)`. A depth-first search over the
      assignments of points to k clusters, taking the points farthest from
      the current centers first. The result is Answer, the outcome of the
      search Run; `bound` is the recorded state's upper bound, `found` that
      state and `bounds` the successive values of the global upper bound,
      which end with the search's final bound. */
  method BrandenbergRoth(k: int, points: seq<Point>, epsilon: real, dist: Metric, ball: Miniball)
    returns (r: Result<seq<Point>, BrError>, bound: real, ghost found: State, ghost bounds: seq<Ext>)
    ensures r == Answer(k, points, epsilon, dist, ball)
    ensures r.Ok? ==>
      && k > 0 && Consistent(k, points, ball, found)
      && Final(k, points, epsilon, dist, ball).result.Some?
      && Final(k, points, epsilon, dist, ball).result.value.state == found
      && Final(k, points, epsilon, dist, ball).result.value.upper == bound
      && Covers(dist, found, bound)
    ensures r.Ok? && Encloses(dist, ball) ==> Objective(dist, points, r.value) <= bound
    ensures |bounds| > 0 && bounds[0] == Inf && NonIncreasing(bounds)
    ensures k > 0 ==> bounds[|bounds| - 1] == Final(k, points, epsilon, dist, ball).upper
    ensures r.Ok? ==> Le(bounds[|bounds| - 1], Fin(bound))
  {
    bound, found, bounds := 0.0, Initial(k, points), [Inf];
    if k <= 0 {
      // The first state popped has no clusters: `max(state.rho)` fails.
      return Err(EmptyClusters), bound, found, bounds;
    }
    InitialConsistent(k, points, ball);
    var upper, result;
    upper, result, bounds := Explore(k, points, epsilon, dist, ball, [Initial(k, points)], Inf, None, bounds);
    if result.Some? {
      r, bound, found := Ok(result.value.state.centers), result.value.upper, result.value.state;
      if Encloses(dist, ball) {
        StateBound(dist, ball, k, points, found, bound);
      }
      return;
    }
    return Err(NoResult), bound, found, bounds;
  }

  /** `solve(k, points)`: the branch-and-bound with epsilon = 0. */
  method Solve(k: int, points: seq<Point>, dist: Metric, ball: Miniball)
    returns (r: Result<seq<Point>, BrError>, bound: real)
    ensures r == Answer(k, points, 0.0, dist, ball)
    ensures r.Ok? ==> |r.value| == k && Final(k, points, 0.0, dist, ball).result.value.upper == bound
    ensures r.Ok? && Encloses(dist, ball) ==> Objective(dist, points, r.value) <= bound
  {
    ghost var found, bounds;
    r, bound, found, bounds := BrandenbergRoth(k, points, 0.0, dist, ball);
  }
}
