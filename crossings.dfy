/** The orientation test `_ccw` and the edge-crossing scan `edge_crossings`
    of src/graph/__init__.py, over exact real coordinates. */
module Crossings {
  import opened Wrappers

  /** A node position `graph.node[n]['pos']`. */
  datatype Pos = Pos(x: real, y: real)

  /** The cross product of b - a and c - a: positive when a, b, c turn
      counterclockwise, negative when they turn clockwise, zero when they
      are collinear. */
  function Cross(a: Pos, b: Pos, c: Pos): real {
    (b.x - a.x) * (c.y - a.y) - (b.y - a.y) * (c.x - a.x)
  }

  /** `_ccw(a, b, c)`: 1 for a counterclockwise turn and -1 for a clockwise
      one. For collinear points it is -1 when c lies on the other side of a
      than b, 0 when c is no farther from a than b, and 1 beyond b. */
  function Ccw(a: Pos, b: Pos, c: Pos): (r: int)
    ensures r == 1 || r == -1 || r == 0
    ensures Cross(a, b, c) > 0.0 ==> r == 1
    ensures Cross(a, b, c) < 0.0 ==> r == -1
  {
    var dx1 := b.x - a.x;
    var dy1 := b.y - a.y;
    var dx2 := c.x - a.x;
    var dy2 := c.y - a.y;
    if dx1 * dy2 > dy1 * dx2 then 1
    else if dx1 * dy2 < dy1 * dx2 then -1
    else if dx1 * dx2 < 0.0 || dy1 * dy2 < 0.0 then -1
    else if dx1 * dx1 + dy1 * dy1 >= dx2 * dx2 + dy2 * dy2 then 0
    else 1
  }

  /** c is the point a + t * (b - a). */
  predicate At(a: Pos, b: Pos, c: Pos, t: real) {
    c.x == a.x + t * (b.x - a.x) && c.y == a.y + t * (b.y - a.y)
  }

  /** c lies on the closed segment from a to b. */
  ghost predicate OnSegment(a: Pos, b: Pos, c: Pos) {
    exists t: real :: 0.0 <= t <= 1.0 && At(a, b, c, t)
  }

  /** `_ccw` is 0 exactly when c lies on the segment from a to b. */
  lemma CcwZeroOnSegment(a: Pos, b: Pos, c: Pos)
    ensures Ccw(a, b, c) == 0 ==> OnSegment(a, b, c)
    ensures OnSegment(a, b, c) ==> Ccw(a, b, c) == 0
  {
    if Ccw(a, b, c) == 0 {
      var t := Scale(b.x - a.x, b.y - a.y, c.x - a.x, c.y - a.y);
      assert At(a, b, c, t);
    }
    if OnSegment(a, b, c) {
      var t: real :| 0.0 <= t <= 1.0 && At(a, b, c, t);
      OnSegmentZero(a, b, c, t);
    }
  }

  lemma OnSegmentZero(a: Pos, b: Pos, c: Pos, t: real)
    requires 0.0 <= t <= 1.0 && At(a, b, c, t)
    ensures Ccw(a, b, c) == 0
  {
    var dx1, dy1 := b.x - a.x, b.y - a.y;
    Scaled(dx1, dy1, t);
    assert c.x - a.x == t * dx1 && c.y - a.y == t * dy1;
  }

  // Real-arithmetic helpers. Strict signs are written as `!(e <= 0.0)` so
  // that products compared with a constant appear in one form throughout.

  lemma MulPos(u: real, v: real)
    requires u > 0.0 && v > 0.0
    ensures !(u * v <= 0.0)
  {
  }

  lemma SquareNonNeg(x: real)
    ensures x * x >= 0.0
  {
    if x < 0.0 {
      MulPos(-x, -x);
      assert x * x == (-x) * (-x);
    }
  }

  lemma SquarePos(x: real)
    ensures x == 0.0 || !(x * x <= 0.0)
  {
    if x > 0.0 {
      MulPos(x, x);
    }
    if x < 0.0 {
      MulPos(-x, -x);
    }
  }

  lemma SquareZero(x: real)
    requires x * x <= 0.0
    ensures x == 0.0
  {
    SquarePos(x);
  }

  lemma BothZero(a: real, b: real, c: real, d: real)
    requires a >= 0.0 && b >= 0.0 && c >= 0.0 && d >= 0.0
    requires a + b == 0.0 && a + b >= c + d
    ensures c <= 0.0 && d <= 0.0
  {
  }

  lemma NonNegFactor(u: real, v: real)
    requires !(v <= 0.0) && u * v >= 0.0
    ensures u >= 0.0
  {
    assert u == (u * v) / v;
  }

  lemma Parallel(dx1: real, dy1: real, dx2: real, dy2: real)
    requires dx1 * dy2 == dy1 * dx2
    ensures dx2 * (dx1 * dx1 + dy1 * dy1) == dx1 * (dx1 * dx2 + dy1 * dy2)
  {
    assert dy1 * (dx1 * dy2) == dy1 * (dy1 * dx2);
  }

  lemma SquareScale(t: real, dx1: real, dy1: real)
    requires dx1 * dx1 + dy1 * dy1 >= (t * dx1) * (t * dx1) + (t * dy1) * (t * dy1)
    ensures dx1 * dx1 + dy1 * dy1 >= (t * t) * (dx1 * dx1 + dy1 * dy1)
  {
  }

  lemma Scale(dx1: real, dy1: real, dx2: real, dy2: real) returns (t: real)
    requires dx1 * dy2 == dy1 * dx2
    requires dx1 * dx2 >= 0.0 && dy1 * dy2 >= 0.0
    requires dx1 * dx1 + dy1 * dy1 >= dx2 * dx2 + dy2 * dy2
    ensures 0.0 <= t <= 1.0 && dx2 == t * dx1 && dy2 == t * dy1
  {
    SquareNonNeg(dx1);
    SquareNonNeg(dy1);
    SquareNonNeg(dx2);
    SquareNonNeg(dy2);
    if dx1 * dx1 + dy1 * dy1 == 0.0 {
      BothZero(dx1 * dx1, dy1 * dy1, dx2 * dx2, dy2 * dy2);
      SquareZero(dx2);
      SquareZero(dy2);
      t := 0.0;
    } else {
      t := ScaleBy(dx1, dy1, dx2, dy2, dx1 * dx1 + dy1 * dy1);
    }
  }

  lemma ScaleBy(dx1: real, dy1: real, dx2: real, dy2: real, len: real) returns (t: real)
    requires len == dx1 * dx1 + dy1 * dy1 && !(len <= 0.0)
    requires dx1 * dy2 == dy1 * dx2
    requires dx1 * dx2 >= 0.0 && dy1 * dy2 >= 0.0
    requires len >= dx2 * dx2 + dy2 * dy2
    ensures 0.0 <= t <= 1.0 && dx2 == t * dx1 && dy2 == t * dy1
  {
    var dot := dx1 * dx2 + dy1 * dy2;
    t := Quotient(dot, len);
    NonNegFactor(t, len);
    Parallel(dx1, dy1, dx2, dy2);
    Parallel(dy1, dx1, dy2, dx2);
    assert dx1 * dot == (t * dx1) * len;
    assert dy1 * dot == (t * dy1) * len;
    CancelLen(dx2, t * dx1, len);
    CancelLen(dy2, t * dy1, len);
    ScaleAtMostOne(t, dx1, dy1);
  }

  lemma ScaleAtMostOne(t: real, dx1: real, dy1: real)
    requires !(dx1 * dx1 + dy1 * dy1 <= 0.0) && t >= 0.0
    requires dx1 * dx1 + dy1 * dy1 >= (t * dx1) * (t * dx1) + (t * dy1) * (t * dy1)
    ensures t <= 1.0
  {
    SquareScale(t, dx1, dy1);
    var len := dx1 * dx1 + dy1 * dy1;
    assert (1.0 - t * t) * len == len - (t * t) * len;
    NonNegFactor(1.0 - t * t, len);
    assert (1.0 - t) * (1.0 + t) == 1.0 - t * t;
    NonNegFactor(1.0 - t, 1.0 + t);
  }

  lemma CancelLen(x: real, y: real, len: real)
    requires !(len <= 0.0) && x * len == y * len
    ensures x == y
  {
    assert (x - y) * len == x * len - y * len;
    assert (y - x) * len == y * len - x * len;
    NonNegFactor(x - y, len);
    NonNegFactor(y - x, len);
  }

  lemma Quotient(p: real, len: real) returns (q: real)
    requires !(len <= 0.0)
    ensures q * len == p
  {
    q := p / len;
  }

  /** t times (dx1, dy1), for t in [0, 1], is parallel to it, points the
      same way and is no longer. */
  lemma Scaled(dx1: real, dy1: real, t: real)
    requires 0.0 <= t <= 1.0
    ensures dx1 * (t * dy1) == dy1 * (t * dx1)
    ensures dx1 * (t * dx1) >= 0.0 && dy1 * (t * dy1) >= 0.0
    ensures dx1 * dx1 + dy1 * dy1 >= (t * dx1) * (t * dx1) + (t * dy1) * (t * dy1)
  {
    SquareNonNeg(dx1);
    SquareNonNeg(dy1);
    assert dx1 * (t * dx1) == t * (dx1 * dx1);
    assert dy1 * (t * dy1) == t * (dy1 * dy1);
    var len := dx1 * dx1 + dy1 * dy1;
    assert (t * dx1) * (t * dx1) + (t * dy1) * (t * dy1) == (t * t) * len;
    assert t * t <= 1.0 by {
      assert t * t <= t * 1.0;
    }
    assert (t * t) * len <= 1.0 * len;
  }

  /** For points that are not collinear, swapping b and c flips the turn. */
  lemma CcwSwap(a: Pos, b: Pos, c: Pos)
    requires Cross(a, b, c) != 0.0
    ensures Ccw(a, c, b) == -Ccw(a, b, c)
  {
    assert Cross(a, c, b) == -Cross(a, b, c);
  }

  /** The node positions `graph.node[n]['pos']`. */
  type Layout<!N> = N -> Pos

  /** Edge e shares an end with the pair x, y. */
  predicate Touches<N(==)>(e: (N, N), x: N, y: N) {
    e.0 == x || e.1 == x || e.0 == y || e.1 == y
  }

  /** The test of the scan: c and d are not strictly on one side of the
      line through a and b, and a and b not strictly on one side of the
      line through c and d. */
  predicate Straddles(a: Pos, b: Pos, c: Pos, d: Pos) {
    Ccw(a, b, c) * Ccw(a, b, d) <= 0 && Ccw(c, d, a) * Ccw(c, d, b) <= 0
  }

  /** The single-edge scan of `edge_crossings(graph, x, y)`: walks the
      edges in order, skipping any that shares an end with x-y, and stops
      with True at the first that straddles it. */
  function CrossesEdge<N(==)>(pos: Layout<N>, edges: seq<(N, N)>, x: N, y: N): bool {
    if edges == [] then false
    else if Touches(edges[0], x, y) then CrossesEdge(pos, edges[1..], x, y)
    else if Straddles(pos(x), pos(y), pos(edges[0].0), pos(edges[0].1)) then true
    else CrossesEdge(pos, edges[1..], x, y)
  }

  /** The whole-graph scan: stops with True at the first edge whose own
      single-edge scan succeeds. */
  function CrossesAny<N(==)>(pos: Layout<N>, all: seq<(N, N)>, edges: seq<(N, N)>): bool {
    if edges == [] then false
    else if CrossesEdge(pos, all, edges[0].0, edges[0].1) then true
    else CrossesAny(pos, all, edges[1..])
  }

  /** `edge_crossings(graph, x, y)`: the single-edge scan when both x and y
      are given, the whole-graph scan when either is None. */
  function EdgeCrossings<N(==)>(pos: Layout<N>, edges: seq<(N, N)>, x: Option<N>, y: Option<N>): bool {
    if x.Some? && y.Some? then CrossesEdge(pos, edges, x.value, y.value)
    else CrossesAny(pos, edges, edges)
  }

  /** The single-edge scan reports a crossing exactly when some edge that
      shares no end with x-y straddles it: an edge touching x or y is never
      reported. */
  lemma {:induction false} CrossesEdgeMeans<N>(pos: Layout<N>, edges: seq<(N, N)>, x: N, y: N)
    ensures CrossesEdge(pos, edges, x, y) <==>
      exists i :: 0 <= i < |edges| && !Touches(edges[i], x, y)
                  && Straddles(pos(x), pos(y), pos(edges[i].0), pos(edges[i].1))
  {
    if edges != [] {
      CrossesEdgeMeans(pos, edges[1..], x, y);
      if exists i :: 0 <= i < |edges[1..]| && !Touches(edges[1..][i], x, y)
                     && Straddles(pos(x), pos(y), pos(edges[1..][i].0), pos(edges[1..][i].1)) {
        var i :| 0 <= i < |edges[1..]| && !Touches(edges[1..][i], x, y)
                 && Straddles(pos(x), pos(y), pos(edges[1..][i].0), pos(edges[1..][i].1));
        assert edges[i + 1] == edges[1..][i];
      }
      if exists i :: 0 <= i < |edges| && !Touches(edges[i], x, y)
                     && Straddles(pos(x), pos(y), pos(edges[i].0), pos(edges[i].1)) {
        var i :| 0 <= i < |edges| && !Touches(edges[i], x, y)
                 && Straddles(pos(x), pos(y), pos(edges[i].0), pos(edges[i].1));
        if i > 0 {
          assert edges[1..][i - 1] == edges[i];
        }
      }
    }
  }

  /** The whole-graph mode reports a crossing exactly when the single-edge
      scan succeeds for some edge. */
  lemma {:induction false} CrossesAnyMeans<N>(pos: Layout<N>, all: seq<(N, N)>, edges: seq<(N, N)>)
    ensures CrossesAny(pos, all, edges) <==>
      exists i :: 0 <= i < |edges| && CrossesEdge(pos, all, edges[i].0, edges[i].1)
  {
    if edges != [] {
      CrossesAnyMeans(pos, all, edges[1..]);
      if exists i :: 0 <= i < |edges[1..]| && CrossesEdge(pos, all, edges[1..][i].0, edges[1..][i].1) {
        var i :| 0 <= i < |edges[1..]| && CrossesEdge(pos, all, edges[1..][i].0, edges[1..][i].1);
        assert edges[i + 1] == edges[1..][i];
      }
      if exists i :: 0 <= i < |edges| && CrossesEdge(pos, all, edges[i].0, edges[i].1) {
        var i :| 0 <= i < |edges| && CrossesEdge(pos, all, edges[i].0, edges[i].1);
        if i > 0 {
          assert edges[1..][i - 1] == edges[i];
        }
      }
    }
  }

  /** `edge_crossings` in both modes, stated by what it finds. */
  lemma EdgeCrossingsMeans<N>(pos: Layout<N>, edges: seq<(N, N)>, x: Option<N>, y: Option<N>)
    ensures x.Some? && y.Some? ==>
      (EdgeCrossings(pos, edges, x, y) <==>
         exists i :: 0 <= i < |edges| && !Touches(edges[i], x.value, y.value)
                     && Straddles(pos(x.value), pos(y.value), pos(edges[i].0), pos(edges[i].1)))
    ensures x.None? || y.None? ==>
      (EdgeCrossings(pos, edges, x, y) <==>
         exists i :: 0 <= i < |edges| && EdgeCrossings(pos, edges, Some(edges[i].0), Some(edges[i].1)))
  {
    if x.Some? && y.Some? {
      CrossesEdgeMeans(pos, edges, x.value, y.value);
    } else {
      CrossesAnyMeans(pos, edges, edges);
    }
  }
}
