/** The graph helpers of src/graph/__init__.py: the squared graph and the
    brute-force dominating sets. A graph is its list of nodes, in
    `graph.nodes()` order, and the weight of each edge, stored under both
    orientations (a, b) and (b, a) as networkx stores an undirected edge. */
module GraphOps {
  import opened Wrappers
  import opened SeqUtil

  datatype Graph<N(==)> = Graph(nodes: seq<N>, weight: map<(N, N), real>)

  /** An undirected weight table: each edge has one weight, whichever way
      round it is looked up. */
  ghost predicate Symmetric<N>(w: map<(N, N), real>) {
    forall e :: e in w ==> (e.1, e.0) in w && w[(e.1, e.0)] == w[e]
  }

  /** a and b are joined by an edge. */
  predicate Linked<N(==)>(g: Graph<N>, a: N, b: N) {
    (a, b) in g.weight
  }

  /** The nodes of xs joined to n, in the order of xs. */
  function NeighborsIn<N(==)>(xs: seq<N>, w: map<(N, N), real>, n: N): seq<N> {
    if xs == [] then []
    else (if (n, xs[0]) in w then [xs[0]] else []) + NeighborsIn(xs[1..], w, n)
  }

  /** `graph.neighbors(n)`, taken in node order. */
  function Neighbors<N(==)>(g: Graph<N>, n: N): seq<N> {
    NeighborsIn(g.nodes, g.weight, n)
  }

  /** The neighbours of n are exactly the nodes joined to n, each once. */
  lemma {:induction false} NeighborsInAre<N>(xs: seq<N>, w: map<(N, N), real>, n: N)
    ensures forall m :: m in NeighborsIn(xs, w, n) ==> m in xs && (n, m) in w
    ensures forall m :: m in xs && (n, m) in w ==> m in NeighborsIn(xs, w, n)
    ensures Distinct(xs) ==> Distinct(NeighborsIn(xs, w, n))
  {
    if xs != [] {
      NeighborsInAre(xs[1..], w, n);
      var r := NeighborsIn(xs, w, n);
      var rest := NeighborsIn(xs[1..], w, n);
      forall m ensures m in r <==> m in xs && (n, m) in w {
        assert m in xs <==> m == xs[0] || m in xs[1..];
      }
      if Distinct(xs) && (n, xs[0]) in w {
        assert xs[0] !in xs[1..];
        assert xs[0] !in rest;
        assert r == [xs[0]] + rest;
        forall i, j | 0 <= i < j < |r| ensures r[i] != r[j] {
          if i > 0 {
            assert r[i] == rest[i - 1] && r[j] == rest[j - 1];
          } else {
            assert r[j] == rest[j - 1];
          }
        }
      }
      if Distinct(xs) && (n, xs[0]) !in w {
        assert r == rest;
      }
    }
  }

  lemma NeighborsAre<N>(g: Graph<N>, n: N)
    requires Distinct(g.nodes)
    ensures forall m :: m in Neighbors(g, n) ==> m in g.nodes && Linked(g, n, m)
    ensures forall m :: m in g.nodes && Linked(g, n, m) ==> m in Neighbors(g, n)
    ensures Distinct(Neighbors(g, n))
  {
    NeighborsInAre(g.nodes, g.weight, n);
  }

  /** Edge e joins two distinct nodes that are both neighbours of node n. */
  predicate Through<N(==)>(g: Graph<N>, e: (N, N), n: N) {
    && e.0 in g.nodes && e.1 in g.nodes && e.0 != e.1
    && n in g.nodes && Linked(g, n, e.0) && Linked(g, n, e.1)
  }

  /** Edge e joins two distinct neighbours of a common node of g. */
  ghost predicate TwoHop<N>(g: Graph<N>, e: (N, N)) {
    exists n :: n in g.nodes && Through(g, e, n)
  }

  /** What the working copy w of the squared graph keeps, with via naming
      the node each rewritten edge goes through: every edge of g, at no
      more than its weight in g and at less only when it joins two
      neighbours of a node; besides these, only edges joining two
      neighbours of a node. */
  ghost predicate Keeps<N>(g: Graph<N>, w: map<(N, N), real>, via: map<(N, N), N>) {
    && (forall e {:trigger KeepsAt(g, w, via, e)} | e in g.weight :: KeepsAt(g, w, via, e))
    && (forall e {:trigger KeepsAt(g, w, via, e)} | e in w :: KeepsAt(g, w, via, e))
  }

  /** Keeps, for one edge e. */
  ghost predicate KeepsAt<N>(g: Graph<N>, w: map<(N, N), real>, via: map<(N, N), N>, e: (N, N)) {
    && (e in g.weight ==> e in w && w[e] <= g.weight[e])
    && (e in g.weight && e in w ==> w[e] == g.weight[e] || (e in via && Through(g, e, via[e])))
    && (e in w ==> e in g.weight || (e in via && Through(g, e, via[e])))
  }

  /** The graph's own weights keep what Keeps asks, with no witnesses. */
  lemma KeepsStart<N>(g: Graph<N>)
    ensures Keeps(g, g.weight, map[])
  {
    forall e ensures KeepsAt(g, g.weight, map[], e) {
    }
  }

  /** Writing to w the edge between two neighbours of a node n, both ways
      round, at a weight below its weight in g if g has it, keeps what w
      keeps. */
  lemma KeepsUpdate<N>(g: Graph<N>, w: map<(N, N), real>, via: map<(N, N), N>, a: N, b: N, n: N, weight: real)
    requires Keeps(g, w, via) && Through(g, (a, b), n) && Symmetric(g.weight)
    requires (a, b) in g.weight ==> g.weight[(a, b)] > weight
    ensures Keeps(g, w[(a, b) := weight][(b, a) := weight], via[(a, b) := n][(b, a) := n])
  {
    KeepsSet(g, w, via, (a, b), n, weight);
    assert Through(g, (b, a), n);
    KeepsSet(g, w[(a, b) := weight], via[(a, b) := n], (b, a), n, weight);
  }

  /** Writing one edge e between two neighbours of n, below its weight in g
      if g has it, keeps what w keeps. */
  lemma KeepsSet<N>(g: Graph<N>, w: map<(N, N), real>, via: map<(N, N), N>, e: (N, N), n: N, weight: real)
    requires Keeps(g, w, via) && Through(g, e, n)
    requires e in g.weight ==> g.weight[e] > weight
    ensures Keeps(g, w[e := weight], via[e := n])
  {
    var w', via' := w[e := weight], via[e := n];
    forall d ensures KeepsAt(g, w', via', d) {
      if d != e {
        assert KeepsAt(g, w, via, d);
        assert d in w' <==> d in w;
        assert d in w ==> w'[d] == w[d];
        assert d in via' <==> d in via;
        assert d in via ==> via'[d] == via[d];
      }
    }
  }

  lemma KeepsHas<N>(g: Graph<N>, w: map<(N, N), real>, via: map<(N, N), N>, e: (N, N))
    requires Keeps(g, w, via) && e in g.weight
    ensures e in w
  {
    assert KeepsAt(g, w, via, e);
  }

  /** What Keeps says, without the witnesses. */
  lemma KeepsMeans<N>(g: Graph<N>, w: map<(N, N), real>, via: map<(N, N), N>)
    requires Keeps(g, w, via)
    ensures forall e :: e in g.weight ==> e in w && w[e] <= g.weight[e]
    ensures forall e :: e in g.weight && w[e] < g.weight[e] ==> TwoHop(g, e)
    ensures forall e :: e in w ==> e in g.weight || TwoHop(g, e)
  {
    forall e | e in g.weight ensures e in w && w[e] <= g.weight[e] {
      assert KeepsAt(g, w, via, e);
    }
    forall e | e in w && e !in g.weight ensures TwoHop(g, e) {
      assert KeepsAt(g, w, via, e);
      assert Through(g, e, via[e]);
    }
    forall e | e in g.weight && w[e] < g.weight[e] ensures TwoHop(g, e) {
      assert KeepsAt(g, w, via, e);
      assert Through(g, e, via[e]);
    }
  }

  /** The body of the innermost loop of `squared_graph`: the two-hop
      weight from a to b through the node, read from the working copy,
      replaces the weight of a-b when g has no such edge or a heavier one. */
  method JoinPair<N(==)>(g: Graph<N>, w: map<(N, N), real>, ghost via: map<(N, N), N>, node: N, a: N, b: N)
      returns (w': map<(N, N), real>, ghost via': map<(N, N), N>)
    requires Symmetric(g.weight) && Keeps(g, w, via)
    requires Through(g, (a, b), node)
    ensures Keeps(g, w', via') && w.Keys <= w'.Keys && (a, b) in w' && (b, a) in w'
    ensures (node, a) in w && (node, b) in w
    ensures var weight := w[(node, a)] + w[(node, b)];
      w' == if ((a, b) in g.weight && g.weight[(a, b)] > weight) || (a, b) !in g.weight
            then w[(a, b) := weight][(b, a) := weight] else w
  {
    KeepsHas(g, w, via, (node, a));
    KeepsHas(g, w, via, (node, b));
    var weight := w[(node, a)] + w[(node, b)];
    if ((a, b) in g.weight && g.weight[(a, b)] > weight) || (a, b) !in g.weight {
      KeepsUpdate(g, w, via, a, b, node, weight);
      w' := w[(a, b) := weight][(b, a) := weight];
      via' := via[(a, b) := node][(b, a) := node];
    } else {
      KeepsHas(g, w, via, (a, b));
      KeepsHas(g, w, via, (b, a));
      w', via' := w, via;
    }
  }

  /** One pass of the inner loop of `squared_graph`: neighbour a = nbrs[p]
      against every later neighbour b. The two-hop weight through the node,
      read from the working copy, becomes the weight of a-b when g has no
      such edge or a heavier one. */
  method JoinFrom<N(==)>(g: Graph<N>, w: map<(N, N), real>, ghost via: map<(N, N), N>, node: N, nbrs: seq<N>, p: nat)
      returns (w': map<(N, N), real>, ghost via': map<(N, N), N>)
    requires node in g.nodes && p < |nbrs| && Distinct(nbrs) && Symmetric(g.weight)
    requires forall m :: m in nbrs ==> m in g.nodes && Linked(g, node, m)
    requires Keeps(g, w, via)
    ensures Keeps(g, w', via') && w.Keys <= w'.Keys
    ensures forall j :: p < j < |nbrs| ==> (nbrs[p], nbrs[j]) in w' && (nbrs[j], nbrs[p]) in w'
  {
    w', via' := w, via;
    var q := p + 1;
    while q < |nbrs|
      invariant p + 1 <= q <= |nbrs|
      invariant Keeps(g, w', via') && w.Keys <= w'.Keys
      invariant forall j :: p < j < q ==> (nbrs[p], nbrs[j]) in w' && (nbrs[j], nbrs[p]) in w'
    {
      var a, b := nbrs[p], nbrs[q];
      assert a in nbrs && b in nbrs && a != b;
      ghost var before := w';
      w', via' := JoinPair(g, w', via', node, a, b);
      assert (a, b) in w' && (b, a) in w';
      forall j | p < j < q + 1
        ensures (nbrs[p], nbrs[j]) in w' && (nbrs[j], nbrs[p]) in w'
      {
        if j < q {
          assert (nbrs[p], nbrs[j]) in before && (nbrs[j], nbrs[p]) in before;
        } else {
          assert nbrs[j] == b;
        }
      }
      q := q + 1;
    }
  }

  /** The inner loops of `squared_graph` for one node: every pair of its
      neighbours, in `itertools.combinations` order. */
  method SquareAround<N(==)>(g: Graph<N>, w: map<(N, N), real>, ghost via: map<(N, N), N>, node: N)
      returns (w': map<(N, N), real>, ghost via': map<(N, N), N>)
    requires Distinct(g.nodes) && node in g.nodes && Symmetric(g.weight)
    requires Keeps(g, w, via)
    ensures Keeps(g, w', via')
    ensures w.Keys <= w'.Keys
    ensures forall a, b :: a in Neighbors(g, node) && b in Neighbors(g, node) && a != b ==> (a, b) in w'
  {
    var nbrs := Neighbors(g, node);
    NeighborsAre(g, node);
    assert forall m :: m in nbrs ==> m in g.nodes && Linked(g, node, m);
    w', via' := w, via;
    var p := 0;
    while p < |nbrs|
      invariant 0 <= p <= |nbrs|
      invariant Keeps(g, w', via') && w.Keys <= w'.Keys
      invariant forall i, j :: 0 <= i < p && i < j < |nbrs| ==> (nbrs[i], nbrs[j]) in w' && (nbrs[j], nbrs[i]) in w'
    {
      ghost var before := w';
      w', via' := JoinFrom(g, w', via', node, nbrs, p);
      forall i, j | 0 <= i < p + 1 && i < j < |nbrs| ensures (nbrs[i], nbrs[j]) in w' && (nbrs[j], nbrs[i]) in w' {
        if i < p {
          assert (nbrs[i], nbrs[j]) in before && (nbrs[j], nbrs[i]) in before;
        }
      }
      p := p + 1;
    }
    forall a, b | a in nbrs && b in nbrs && a != b ensures (a, b) in w' {
      var i :| 0 <= i < |nbrs| && nbrs[i] == a;
      var j :| 0 <= j < |nbrs| && nbrs[j] == b;
      if j < i {
        assert (nbrs[i], nbrs[j]) in w';
      }
    }
  }

  /** Any two distinct neighbours of a common node are joined in w. */
  ghost predicate TwoHopClosed<N>(g: Graph<N>, w: map<(N, N), real>) {
    forall n, a, b :: (n in g.nodes && a in g.nodes && b in g.nodes && a != b
                       && Linked(g, n, a) && Linked(g, n, b)) ==> (a, b) in w
  }

  /** `squared_graph(graph)`: on a copy of the graph (the input stays as
      it is), every node's neighbours are joined pairwise. The result has
      the same nodes; it joins any two neighbours
      of a common node; it keeps every edge of the input, never heavier
      than before, lighter only where it joins two neighbours of a node;
      and it has no edge that is neither an input edge nor such a two-hop
      edge. */
  method SquaredGraph<N(==)>(g: Graph<N>) returns (sq: Graph<N>)
    requires Distinct(g.nodes) && Symmetric(g.weight)
    ensures sq.nodes == g.nodes
    ensures TwoHopClosed(g, sq.weight)
    ensures forall e :: e in g.weight ==> e in sq.weight && sq.weight[e] <= g.weight[e]
    ensures forall e :: e in g.weight && sq.weight[e] < g.weight[e] ==> TwoHop(g, e)
    ensures forall e :: e in sq.weight ==> e in g.weight || TwoHop(g, e)
  {
    var w := g.weight;
    ghost var via: map<(N, N), N> := map[];
    KeepsStart(g);
    var i := 0;
    while i < |g.nodes|
      invariant 0 <= i <= |g.nodes|
      invariant Keeps(g, w, via)
      invariant forall t, a, b :: 0 <= t < i && a in Neighbors(g, g.nodes[t]) && b in Neighbors(g, g.nodes[t]) && a != b
                  ==> (a, b) in w
    {
      w, via := SquareAround(g, w, via, g.nodes[i]);
      i := i + 1;
    }
    forall n, a, b | n in g.nodes && a in g.nodes && b in g.nodes && a != b && Linked(g, n, a) && Linked(g, n, b)
      ensures (a, b) in w
    {
      var t :| 0 <= t < |g.nodes| && g.nodes[t] == n;
      NeighborsAre(g, n);
    }
    KeepsMeans(g, w, via);
    sq := Graph(g.nodes, w);
  }

  /** `networkx.is_dominating_set`: every node is in s or joined to a
      member of s. */
  predicate IsDominating<N(==)>(g: Graph<N>, s: set<N>) {
    forall n | n in g.nodes :: n in s || exists m | m in s :: Linked(g, m, n)
  }

  /** `[x] + c` for every c of cs. */
  function Prefixed<T>(x: T, cs: seq<seq<T>>): (r: seq<seq<T>>)
    ensures |r| == |cs|
  {
    seq(|cs|, i requires 0 <= i < |cs| => [x] + cs[i])
  }

  /** `itertools.combinations(xs, r)`, in its order: the combinations that
      take the first entry, then those that skip it. */
  function Combinations<T>(xs: seq<T>, r: nat): seq<seq<T>>
    decreases |xs|
  {
    if r == 0 then [[]]
    else if xs == [] then []
    else Prefixed(xs[0], Combinations(xs[1..], r - 1)) + Combinations(xs[1..], r)
  }

  /** The entries of a list: its first entry and those of its tail. */
  lemma ElementsCons<T>(xs: seq<T>)
    requires xs != []
    ensures Elements(xs) == {xs[0]} + Elements(xs[1..])
    ensures Distinct(xs) ==> Distinct(xs[1..]) && xs[0] !in Elements(xs[1..])
  {
    assert forall x :: x in xs <==> x == xs[0] || x in xs[1..];
    if Distinct(xs) {
      forall x | x in xs[1..] ensures x != xs[0] {
        var i :| 0 <= i < |xs[1..]| && xs[1..][i] == x;
        assert xs[i + 1] == x;
      }
    }
  }

  /** A combination of xs either takes its first entry, followed by a
      combination of the rest, or is a combination of the rest. */
  lemma CombinationCases<T>(xs: seq<T>, r: nat, c: seq<T>)
    requires r > 0 && xs != [] && c in Combinations(xs, r)
    ensures (c != [] && c[0] == xs[0] && c[1..] in Combinations(xs[1..], r - 1)) || c in Combinations(xs[1..], r)
  {
    var take := Combinations(xs[1..], r - 1);
    if c in Prefixed(xs[0], take) {
      var i :| 0 <= i < |take| && Prefixed(xs[0], take)[i] == c;
      assert c[1..] == take[i];
    }
  }

  /** Every combination has r entries taken from distinct positions of xs. */
  lemma {:induction false} CombinationSound<T>(xs: seq<T>, r: nat, c: seq<T>)
    requires Distinct(xs) && c in Combinations(xs, r)
    ensures |c| == r && Distinct(c) && Elements(c) <= Elements(xs)
    decreases |xs|
  {
    if r == 0 {
      assert c == [];
    } else if xs == [] {
      assert false;
    } else {
      ElementsCons(xs);
      CombinationCases(xs, r, c);
      if c != [] && c[0] == xs[0] && c[1..] in Combinations(xs[1..], r - 1) {
        CombinationSound(xs[1..], r - 1, c[1..]);
        ElementsCons(c);
        forall i, j | 0 <= i < j < |c| ensures c[i] != c[j] {
          assert c[j] == c[1..][j - 1];
          if i > 0 {
            assert c[i] == c[1..][i - 1];
          } else {
            assert c[j] in Elements(c[1..]);
          }
        }
      } else {
        CombinationSound(xs[1..], r, c);
      }
    }
  }

  /** Every set of nodes is a combination: the search misses none. */
  lemma {:induction false} CombinationsComplete<T>(xs: seq<T>, s: set<T>)
    requires Distinct(xs) && s <= Elements(xs)
    ensures exists c :: c in Combinations(xs, |s|) && Elements(c) == s
    decreases |xs|
  {
    if |s| == 0 {
      assert s == {};
      assert Elements([]) == s;
      assert [] in Combinations(xs, 0);
    } else if xs == [] {
      assert false;
    } else {
      ElementsCons(xs);
      if xs[0] in s {
        TakeFirst(xs, s);
      } else {
        CombinationsComplete(xs[1..], s);
        var c :| c in Combinations(xs[1..], |s|) && Elements(c) == s;
        assert c in Combinations(xs, |s|);
      }
    }
  }

  /** The first entry followed by a combination of the rest is a combination. */
  lemma TakeIn<T>(xs: seq<T>, r: nat, c: seq<T>)
    requires r > 0 && xs != [] && c in Combinations(xs[1..], r - 1)
    ensures [xs[0]] + c in Combinations(xs, r)
  {
    var take := Combinations(xs[1..], r - 1);
    var i :| 0 <= i < |take| && take[i] == c;
    assert Prefixed(xs[0], take)[i] == [xs[0]] + c;
  }

  /** The case of CombinationsComplete where the set holds the first entry. */
  lemma {:induction false} TakeFirst<T>(xs: seq<T>, s: set<T>)
    requires Distinct(xs) && xs != [] && xs[0] in s && s <= Elements(xs)
    requires Elements(xs) == {xs[0]} + Elements(xs[1..]) && Distinct(xs[1..]) && xs[0] !in Elements(xs[1..])
    ensures exists c :: c in Combinations(xs, |s|) && Elements(c) == s
    decreases |xs|, 0
  {
    var s' := s - {xs[0]};
    CombinationsComplete(xs[1..], s');
    var c' :| c' in Combinations(xs[1..], |s'|) && Elements(c') == s';
    assert |s'| == |s| - 1;
    var c := [xs[0]] + c';
    TakeIn(xs, |s|, c');
    ElementsCons(c);
    assert c[1..] == c';
    assert Elements(c) == {xs[0]} + s';
    assert s == {xs[0]} + s';
  }

  /** `dominating_set(graph, size)`: the first combination of `size` nodes,
      in `itertools.combinations` order, that dominates the graph, or None
      when no set of `size` nodes does. */
  method DominatingSet<N(==)>(g: Graph<N>, size: nat) returns (r: Option<seq<N>>)
    requires Distinct(g.nodes)
    ensures r.Some? ==> |r.value| == size && Distinct(r.value) && Elements(r.value) <= Elements(g.nodes)
    ensures r.Some? ==> IsDominating(g, Elements(r.value))
    ensures r.Some? ==> exists i :: 0 <= i < |Combinations(g.nodes, size)| && Combinations(g.nodes, size)[i] == r.value
                          && forall j :: 0 <= j < i ==> !IsDominating(g, Elements(Combinations(g.nodes, size)[j]))
    ensures r.None? ==> forall s :: s <= Elements(g.nodes) && |s| == size ==> !IsDominating(g, s)
  {
    var combos := Combinations(g.nodes, size);
    var i := 0;
    while i < |combos|
      invariant 0 <= i <= |combos|
      invariant forall j :: 0 <= j < i ==> !IsDominating(g, Elements(combos[j]))
    {
      if IsDominating(g, Elements(combos[i])) {
        CombinationSound(g.nodes, size, combos[i]);
        return Some(combos[i]);
      }
      i := i + 1;
    }
    forall s | s <= Elements(g.nodes) && |s| == size ensures !IsDominating(g, s) {
      CombinationsComplete(g.nodes, s);
      var c :| c in combos && Elements(c) == s;
    }
    return None;
  }

  /** `minimal_dominating_set(graph)`: tries sizes 1, 2, ... and returns
      the first dominating combination found, a dominating set of the
      fewest nodes. On a graph without nodes the source loops forever. */
  method MinimalDominatingSet<N(==)>(g: Graph<N>) returns (r: seq<N>)
    requires |g.nodes| > 0 && Distinct(g.nodes)
    ensures Distinct(r) && Elements(r) <= Elements(g.nodes)
    ensures IsDominating(g, Elements(r))
    ensures forall s :: s <= Elements(g.nodes) && |s| < |r| ==> !IsDominating(g, s)
  {
    var k := 1;
    assert g.nodes[0] in g.nodes;
    while true
      invariant 1 <= k <= |g.nodes|
      invariant forall s :: s <= Elements(g.nodes) && |s| < k ==> !IsDominating(g, s)
      decreases |g.nodes| - k
    {
      var found := DominatingSet(g, k);
      if found.Some? {
        return found.value;
      }
      if k == |g.nodes| {
        DistinctCard(g.nodes);
        assert IsDominating(g, Elements(g.nodes));
        assert false;
      }
      k := k + 1;
    }
  }

  /** The edges of the cycle 0 - 1 - ... - 9 - 0, both ways round. */
  function CycleEdges(): set<(int, int)> {
    set i, j | 0 <= i < 10 && 0 <= j < 10 && (j == (i + 1) % 10 || i == (j + 1) % 10) :: (i, j)
  }

  /** `networkx.generators.cycle_graph(10)`, every edge of weight 1. */
  function Cycle10(): Graph<int> {
    Graph(seq(10, i => i), map e | e in CycleEdges() :: 1.0)
  }

  /** A node of the 10-cycle and its two neighbours. */
  function Around(m: int): set<int> {
    {m, (m + 1) % 10, (m + 9) % 10}
  }

  /** Whatever m dominates in the 10-cycle lies around m. */
  lemma CycleLinks(m: int, n: int)
    requires Linked(Cycle10(), m, n)
    ensures n in Around(m)
  {
    assert (m, n) in CycleEdges();
    var i, j :| 0 <= i < 10 && 0 <= j < 10 && (j == (i + 1) % 10 || i == (j + 1) % 10) && (i, j) == (m, n);
  }

  /** Four nodes dominate the 10-cycle, so `dominating_set(cycle, 4)`
      finds a set. */
  lemma CycleHasDominatingFour()
    ensures IsDominating(Cycle10(), {0, 3, 6, 8})
  {
    var g := Cycle10();
    forall n | n in g.nodes ensures n in {0, 3, 6, 8} || exists m | m in {0, 3, 6, 8} :: Linked(g, m, n) {
      var i :| 0 <= i < 10 && g.nodes[i] == n;
      assert n == i;
      if n == 1 || n == 9 {
        assert (0, n) in CycleEdges();
        assert Linked(g, 0, n);
      } else if n == 2 || n == 4 {
        assert (3, n) in CycleEdges();
        assert Linked(g, 3, n);
      } else if n == 5 || n == 7 {
        assert (6, n) in CycleEdges();
        assert Linked(g, 6, n);
      }
    }
  }

  /** A set of three elements lists them. */
  lemma ThreeOf<T>(s: set<T>) returns (x: T, y: T, z: T)
    requires |s| == 3
    ensures s == {x, y, z}
  {
    x :| x in s;
    var s1 := s - {x};
    assert |s1| == 2;
    y :| y in s1;
    var s2 := s1 - {y};
    assert |s2| == 1;
    z :| z in s2;
    var s3 := s2 - {z};
    assert |s3| == 0;
    assert s3 == {};
    assert s2 == {z};
    assert s1 == s2 + {y};
    assert s == s1 + {x};
  }

  /** No three nodes dominate the 10-cycle: each covers at most three of
      the ten nodes. So `dominating_set(cycle, 3)` returns None. */
  lemma CycleHasNoDominatingThree(s: set<int>)
    requires |s| == 3
    ensures !IsDominating(Cycle10(), s)
  {
    var g := Cycle10();
    var x, y, z := ThreeOf(s);
    var covered := Around(x) + Around(y) + Around(z);
    assert |covered| <= 9;
    var all := Elements(g.nodes);
    assert Distinct(g.nodes);
    DistinctCard(g.nodes);
    NotSubset(all, covered);
    var n :| n in all && n !in covered;
    assert n in g.nodes && n !in s;
    if exists m | m in s :: Linked(g, m, n) {
      var m :| m in s && Linked(g, m, n);
      CycleLinks(m, n);
      assert false;
    }
  }

  /** A larger set is not contained in a smaller one. */
  lemma NotSubset<T>(a: set<T>, b: set<T>)
    requires |a| > |b|
    ensures exists v :: v in a && v !in b
    decreases |b|
  {
    if b == {} {
      var v :| v in a;
      assert v !in b;
    } else {
      var y :| y in b;
      NotSubset(a - {y}, b - {y});
      var v :| v in a - {y} && v !in b - {y};
      assert v in a && v !in b;
    }
  }

}
