/** The k-center objective and Gonzalez's farthest-node greedy on a graph
    (`objective` and `gonzalez` in src/graph/kcenter.py). The graph is its
    list of nodes, in `graph.nodes()` order, and two shortest-path oracles
    standing for networkx: Bellman-Ford from a source (the distances of the
    nodes it reaches) and an A* path length that fails when no path exists. */
module GraphKCenter {
  import opened Wrappers
  import opened ExtReal

  /** `networkx.bellman_ford(graph, c)[1]`: the distance from c of every
      node reachable from c. */
  type BellmanFord<!N(==)> = N -> map<N, real>

  /** `networkx.astar_path_length(graph, a, b)`: None when it raises
      NetworkXNoPath. The heuristic only speeds the search up and is not
      modelled. */
  type AStar<!N(==)> = (N, N) -> Option<real>

  /** Which distances `gonzalez` uses: Bellman-Ford distances from every
      center (`bellman_ford=True`), or A* from each node to each center. */
  datatype Mode<!N(==)> = ByBellmanFord(sp: BellmanFord<N>) | ByAStar(len: AStar<N>)

  /** `distance[c].get(n, float('inf'))`. */
  function Get<N(==)>(m: map<N, real>, n: N): Ext {
    if n in m then Fin(m[n]) else Inf
  }

  /** The inner `distance(node, target)` of `gonzalez`: the A* length, or
      +infinity where networkx raises NetworkXNoPath. */
  function Distance<N(==)>(len: AStar<N>, node: N, target: N): (d: Ext)
    ensures d == Inf <==> len(node, target).None?
    ensures len(node, target).Some? ==> d == Fin(len(node, target).value)
  {
    match len(node, target)
    case None => Inf
    case Some(v) => Fin(v)
  }

  /** The distance between node n and center c that `mode` measures. */
  function Reach<N(==)>(mode: Mode<N>, n: N, c: N): Ext {
    match mode
    case ByBellmanFord(sp) => Get(sp(c), n)
    case ByAStar(len) => Distance(len, n, c)
  }

  /** `min(... for c in centers)`: the distance from n to its nearest center. */
  function Nearest<N(==)>(mode: Mode<N>, n: N, centers: seq<N>): Ext
    requires |centers| > 0
  {
    if |centers| == 1 then Reach(mode, n, centers[0])
    else Min(Nearest(mode, n, centers[..|centers| - 1]), Reach(mode, n, centers[|centers| - 1]))
  }

  /** Nearest is the distance to the nearest center: no center is nearer,
      and some center is that far. */
  lemma {:induction false} NearestIsMin<N>(mode: Mode<N>, n: N, centers: seq<N>)
    requires |centers| > 0
    ensures forall j :: 0 <= j < |centers| ==> Le(Nearest(mode, n, centers), Reach(mode, n, centers[j]))
    ensures exists j :: 0 <= j < |centers| && Nearest(mode, n, centers) == Reach(mode, n, centers[j])
  {
    if |centers| > 1 {
      var init := centers[..|centers| - 1];
      var last := |centers| - 1;
      NearestIsMin(mode, n, init);
      forall j | 0 <= j < |centers| ensures Le(Nearest(mode, n, centers), Reach(mode, n, centers[j])) {
        if j < last {
          assert centers[j] == init[j];
          LeTrans(Nearest(mode, n, centers), Nearest(mode, n, init), Reach(mode, n, centers[j]));
        }
      }
      var j :| 0 <= j < |init| && Nearest(mode, n, init) == Reach(mode, n, init[j]);
      if Nearest(mode, n, centers) == Nearest(mode, n, init) {
        assert centers[j] == init[j];
      } else {
        assert Nearest(mode, n, centers) == Reach(mode, n, centers[last]);
      }
    } else {
      assert Nearest(mode, n, centers) == Reach(mode, n, centers[0]);
    }
  }

  /** The nearest-center distance of every node, in node order. */
  function Dists<N(==)>(mode: Mode<N>, nodes: seq<N>, centers: seq<N>): (ds: seq<Ext>)
    requires |centers| > 0
    ensures |ds| == |nodes|
    ensures forall i :: 0 <= i < |nodes| ==> ds[i] == Nearest(mode, nodes[i], centers)
  {
    seq(|nodes|, i requires 0 <= i < |nodes| => Nearest(mode, nodes[i], centers))
  }

  /** `max(xs)` over extended reals. */
  function MaxExt(xs: seq<Ext>): Ext
    requires |xs| > 0
  {
    if |xs| == 1 then xs[0] else Max(MaxExt(xs[..|xs| - 1]), xs[|xs| - 1])
  }

  /** MaxExt is an entry of the list that no entry exceeds. */
  lemma {:induction false} MaxExtIsMax(xs: seq<Ext>)
    requires |xs| > 0
    ensures forall i :: 0 <= i < |xs| ==> Le(xs[i], MaxExt(xs))
    ensures exists i :: 0 <= i < |xs| && xs[i] == MaxExt(xs)
  {
    if |xs| > 1 {
      var init := xs[..|xs| - 1];
      MaxExtIsMax(init);
      forall i | 0 <= i < |xs| ensures Le(xs[i], MaxExt(xs)) {
        if i < |xs| - 1 {
          assert xs[i] == init[i];
          LeTrans(xs[i], MaxExt(init), MaxExt(xs));
        }
      }
      var i :| 0 <= i < |init| && init[i] == MaxExt(init);
      if MaxExt(xs) == MaxExt(init) {
        assert xs[i] == init[i];
      } else {
        assert xs[|xs| - 1] == MaxExt(xs);
      }
    } else {
      assert xs[0] == MaxExt(xs);
    }
  }

  /** `objective(graph, centers)`: +infinity without centers; otherwise the
      largest, over the nodes, of the Bellman-Ford distance to the nearest
      center, a node no center reaches counting as +infinity. `max` of no
      nodes raises ValueError, modelled as None. */
  function Objective<N(==)>(sp: BellmanFord<N>, nodes: seq<N>, centers: seq<N>): Option<Ext> {
    if |centers| == 0 then Some(Inf)
    else if |nodes| == 0 then None
    else Some(MaxExt(Dists(ByBellmanFord(sp), nodes, centers)))
  }

  /** The objective is +infinity without centers, and otherwise the
      distance from the worst-served node to its nearest center: every
      node is within it of some center, and some node is no nearer. */
  lemma ObjectiveIsWorstNode<N>(sp: BellmanFord<N>, nodes: seq<N>, centers: seq<N>)
    ensures |centers| == 0 ==> Objective(sp, nodes, centers) == Some(Inf)
    ensures |centers| > 0 && |nodes| > 0 ==>
      && Objective(sp, nodes, centers).Some?
      && (forall i :: 0 <= i < |nodes| ==>
            exists c :: c in centers && Le(Get(sp(c), nodes[i]), Objective(sp, nodes, centers).value))
      && (exists i :: 0 <= i < |nodes| &&
            forall c :: c in centers ==> Le(Objective(sp, nodes, centers).value, Get(sp(c), nodes[i])))
  {
    if |centers| > 0 && |nodes| > 0 {
      var mode := ByBellmanFord(sp);
      var ds := Dists(mode, nodes, centers);
      var m := MaxExt(ds);
      MaxExtIsMax(ds);
      forall i | 0 <= i < |nodes| ensures exists c :: c in centers && Le(Get(sp(c), nodes[i]), m) {
        NearestIsMin(mode, nodes[i], centers);
        var j :| 0 <= j < |centers| && Nearest(mode, nodes[i], centers) == Reach(mode, nodes[i], centers[j]);
        assert Le(ds[i], m);
      }
      var i :| 0 <= i < |ds| && ds[i] == m;
      NearestIsMin(mode, nodes[i], centers);
      forall c | c in centers ensures Le(m, Get(sp(c), nodes[i])) {
        var j :| 0 <= j < |centers| && centers[j] == c;
      }
    }
  }

  /** Position i holds a largest entry, and every entry before it is
      smaller: the entry Python's `max` returns. */
  ghost predicate FirstMaxAt(ds: seq<Ext>, i: nat) {
    && i < |ds|
    && (forall j :: 0 <= j < |ds| ==> Le(ds[j], ds[i]))
    && (forall j :: 0 <= j < i ==> Lt(ds[j], ds[i]))
  }

  /** `max(..., key=lambda i: i[1])[0]` of the Bellman-Ford branch: the
      position of the first node at the largest nearest-center distance. */
  function FirstArgMaxExt(ds: seq<Ext>): (i: nat)
    requires |ds| > 0
    ensures FirstMaxAt(ds, i)
  {
    if |ds| == 1 then 0
    else
      var i := FirstArgMaxExt(ds[..|ds| - 1]);
      assert forall j :: 0 <= j < |ds| - 1 ==> ds[j] == ds[..|ds| - 1][j];
      if Lt(ds[i], ds[|ds| - 1]) then
        assert forall j :: 0 <= j < |ds| - 1 ==> Le(ds[j], ds[|ds| - 1]) by {
          forall j | 0 <= j < |ds| - 1 ensures Le(ds[j], ds[|ds| - 1]) {
            LeTrans(ds[j], ds[i], ds[|ds| - 1]);
          }
        }
        assert forall j :: 0 <= j < |ds| - 1 ==> Lt(ds[j], ds[|ds| - 1]) by {
          forall j | 0 <= j < |ds| - 1 ensures Lt(ds[j], ds[|ds| - 1]) {
            if Le(ds[|ds| - 1], ds[j]) {
              LeTrans(ds[|ds| - 1], ds[j], ds[i]);
            }
          }
        }
        |ds| - 1
      else
        LeTotal(ds[i], ds[|ds| - 1]);
        i
  }

  /** The node the selection step picks, by position, given the nearest-center
      distances ds of all nodes. With Bellman-Ford it is the first node at
      the largest distance. With A* it is the first node whose distance
      exceeds 0 and every earlier node's distance and is not exceeded by a
      later one; there is none when no distance exceeds 0. */
  ghost predicate Picks<N>(mode: Mode<N>, ds: seq<Ext>, head: Option<nat>) {
    match mode
    case ByBellmanFord(_) => head.Some? && FirstMaxAt(ds, head.value)
    case ByAStar(_) =>
      && (head.None? <==> forall j :: 0 <= j < |ds| ==> Le(ds[j], Fin(0.0)))
      && (head.Some? ==> FirstMaxAt(ds, head.value) && Lt(Fin(0.0), ds[head.value]))
  }

  /** The A* loop over the nodes: `dist` starts at 0, and a node becomes
      `head` when its nearest-center distance strictly exceeds `dist`. */
  method ScanFarthest<N(==)>(len: AStar<N>, nodes: seq<N>, centers: seq<N>) returns (head: Option<N>, ghost at: Option<nat>)
    requires |centers| > 0
    ensures Picks(ByAStar(len), Dists(ByAStar(len), nodes, centers), at)
    ensures head.Some? <==> at.Some?
    ensures at.Some? ==> at.value < |nodes| && head.value == nodes[at.value]
  {
    ghost var ds := Dists(ByAStar(len), nodes, centers);
    var dist: Ext := Fin(0.0);
    head, at := None, None;
    var i := 0;
    while i < |nodes|
      invariant 0 <= i <= |nodes|
      invariant head.Some? <==> at.Some?
      invariant at.None? ==> dist == Fin(0.0) && forall j :: 0 <= j < i ==> Le(ds[j], Fin(0.0))
      invariant at.Some? ==> at.value < i && head.value == nodes[at.value] && dist == ds[at.value]
      invariant at.Some? ==> Lt(Fin(0.0), dist)
      invariant at.Some? ==> forall j :: 0 <= j < i ==> Le(ds[j], dist)
      invariant at.Some? ==> forall j :: 0 <= j < at.value ==> Lt(ds[j], dist)
    {
      var tmpDist := Nearest(ByAStar(len), nodes[i], centers);
      if Lt(dist, tmpDist) {
        forall j | 0 <= j < i ensures Le(ds[j], tmpDist) && Lt(ds[j], tmpDist) {
          if at.Some? {
            LeTrans(ds[j], dist, tmpDist);
          } else {
            LeTrans(ds[j], Fin(0.0), tmpDist);
          }
          if Le(tmpDist, ds[j]) {
            LeTrans(tmpDist, ds[j], dist);
          }
        }
        dist := tmpDist;
        head, at := Some(nodes[i]), Some(i);
      } else {
        LeTotal(dist, tmpDist);
      }
      i := i + 1;
    }
  }

  /** Python's truth test of a picked node: `if head:` fails for None and
      for a node id that is falsy (0, an empty string). */
  predicate Appends<N(==)>(falsy: N -> bool, head: Option<N>) {
    head.Some? && !falsy(head.value)
  }

  /** `centers` is a run of the greedy: it starts with the first node, and
      each later center is the node the selection step picks for the
      centers before it, a node that is not falsy. */
  ghost predicate GreedyRun<N>(mode: Mode<N>, nodes: seq<N>, falsy: N -> bool, centers: seq<N>) {
    && |centers| > 0 && |nodes| > 0 && centers[0] == nodes[0]
    && forall j :: 1 <= j < |centers| ==>
         exists i :: 0 <= i < |nodes| && Picks(mode, Dists(mode, nodes, centers[..j]), Some(i))
                     && centers[j] == nodes[i] && !falsy(nodes[i])
  }

  datatype GraphError = NoNodes  // `graph.nodes()[0]` of an empty graph raises IndexError

  /** The number of centers `gonzalez` aims for: the first, and k - 1 more. */
  function Target(k: int): nat {
    if k <= 1 then 1 else k
  }

  /** `gonzalez(k, graph, randomized=False, bellman_ford=...)`. The first
      node is the first center; each of the k - 1 rounds picks the node the
      selection step chooses (Picks) and appends it, or returns the centers
      so far when no node is picked or the picked node id is falsy. */
  method Gonzalez<N(==)>(k: int, nodes: seq<N>, mode: Mode<N>, falsy: N -> bool) returns (r: Result<seq<N>, GraphError>)
    ensures r.Err? <==> |nodes| == 0
    ensures r.Ok? ==> GreedyRun(mode, nodes, falsy, r.value) && |r.value| <= Target(k)
    ensures r.Ok? && |r.value| < Target(k) ==>
      exists head: Option<nat> :: Picks(mode, Dists(mode, nodes, r.value), head)
                     && !Appends(falsy, if head.Some? then Some(nodes[head.value]) else None)
  {
    if |nodes| == 0 {
      return Err(NoNodes);
    }
    var result := [nodes[0]];
    var l := 0;
    while l < k - 1
      invariant 0 <= l && |result| == l + 1
      invariant l <= Target(k) - 1
      invariant GreedyRun(mode, nodes, falsy, result)
    {
      var head: Option<N>;
      ghost var at: Option<nat>;
      ghost var ds := Dists(mode, nodes, result);
      if mode.ByBellmanFord? {
        var i := FirstArgMaxExt(Dists(mode, nodes, result));
        head, at := Some(nodes[i]), Some(i);
      } else {
        head, at := ScanFarthest(mode.len, nodes, result);
      }
      assert Picks(mode, ds, at);
      assert head == if at.Some? then Some(nodes[at.value]) else None;
      if Appends(falsy, head) {
        GreedyStep(mode, nodes, falsy, result, at.value);
        result := result + [head.value];
      } else {
        return Ok(result);
      }
      l := l + 1;
    }
    return Ok(result);
  }

  /** Appending the picked node extends a greedy run. */
  lemma GreedyStep<N>(mode: Mode<N>, nodes: seq<N>, falsy: N -> bool, centers: seq<N>, i: nat)
    requires GreedyRun(mode, nodes, falsy, centers)
    requires i < |nodes| && Picks(mode, Dists(mode, nodes, centers), Some(i)) && !falsy(nodes[i])
    ensures GreedyRun(mode, nodes, falsy, centers + [nodes[i]])
  {
    var next := centers + [nodes[i]];
    assert next[..|centers|] == centers;
    forall j | 1 <= j < |next|
      ensures exists x :: 0 <= x < |nodes| && Picks(mode, Dists(mode, nodes, next[..j]), Some(x))
                          && next[j] == nodes[x] && !falsy(nodes[x])
    {
      if j < |centers| {
        assert next[..j] == centers[..j];
        assert next[j] == centers[j];
      } else {
        assert next[..j] == centers;
      }
    }
  }

  /** Without Bellman-Ford no center is ever appended twice: a picked node
      is strictly farther than 0 from every center, and A* finds length 0
      from a node to itself. */
  lemma AStarRunDistinct<N>(len: AStar<N>, nodes: seq<N>, falsy: N -> bool, centers: seq<N>)
    requires forall n :: len(n, n) == Some(0.0)
    requires GreedyRun(ByAStar(len), nodes, falsy, centers)
    ensures forall a, b :: 0 <= a < b < |centers| ==> centers[a] != centers[b]
  {
    var mode := ByAStar(len);
    forall a, b | 0 <= a < b < |centers| ensures centers[a] != centers[b] {
      var i :| 0 <= i < |nodes| && Picks(mode, Dists(mode, nodes, centers[..b]), Some(i))
               && centers[b] == nodes[i] && !falsy(nodes[i]);
      NearestIsMin(mode, nodes[i], centers[..b]);
      assert centers[..b][a] == centers[a];
      var d := Reach(mode, nodes[i], centers[a]);
      LeTrans(Fin(0.0), Nearest(mode, nodes[i], centers[..b]), d);
      assert d != Fin(0.0);
      assert len(centers[a], centers[a]) == Some(0.0);
    }
  }

  /** With Bellman-Ford a center can be appended again: on a graph of one
      node n whose id is truthy, the second round picks n once more. */
  lemma BellmanFordRepeatsCenter<N>(sp: BellmanFord<N>, n: N, falsy: N -> bool)
    requires sp(n) == map[n := 0.0] && !falsy(n)
    ensures Picks(ByBellmanFord(sp), Dists(ByBellmanFord(sp), [n], [n]), Some(0))
    ensures GreedyRun(ByBellmanFord(sp), [n], falsy, [n, n])
  {
    var mode := ByBellmanFord(sp);
    assert Dists(mode, [n], [n]) == [Fin(0.0)];
    assert [n, n][..1] == [n];
  }
}

/** `gonzalez` of the older graph/kcenter.py: the same greedy without the
    Bellman-Ford option, always measuring with A*. Its `objective` and inner
    `distance` are the same code as in src/graph/kcenter.py and are modelled
    by GraphKCenter.Objective and GraphKCenter.Distance. */
module LegacyGraphKCenter {
  import opened Wrappers
  import opened GraphKCenter

  /** `gonzalez(k, graph, randomized=False)`: start from the first node;
      each of the k - 1 rounds appends the first node at the largest
      nearest-center A* distance when that distance exceeds 0 and the node
      id is truthy, and otherwise returns the centers so far. */
  method Gonzalez<N(==)>(k: int, nodes: seq<N>, len: AStar<N>, falsy: N -> bool) returns (r: Result<seq<N>, GraphError>)
    ensures r.Err? <==> |nodes| == 0
    ensures r.Ok? ==> GreedyRun(ByAStar(len), nodes, falsy, r.value) && |r.value| <= Target(k)
    ensures r.Ok? && |r.value| < Target(k) ==>
      exists head: Option<nat> :: Picks(ByAStar(len), Dists(ByAStar(len), nodes, r.value), head)
                                  && !Appends(falsy, if head.Some? then Some(nodes[head.value]) else None)
  {
    if |nodes| == 0 {
      return Err(NoNodes);
    }
    var result := [nodes[0]];
    var l := 0;
    while l < k - 1
      invariant 0 <= l && |result| == l + 1
      invariant l <= Target(k) - 1
      invariant GreedyRun(ByAStar(len), nodes, falsy, result)
    {
      var head, at := ScanFarthest(len, nodes, result);
      if Appends(falsy, head) {
        GreedyStep(ByAStar(len), nodes, falsy, result, at.value);
        result := result + [head.value];
      } else {
        return Ok(result);
      }
      l := l + 1;
    }
    return Ok(result);
  }
}
