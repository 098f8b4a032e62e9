/** The list utilities of src/utils/lists.py: `glue_together`, which joins
    ways (lists of points) end to end into chains, and `split`, which
    transposes ragged lists. */
module Lists {
  import opened Wrappers
  import opened SeqUtil

  /** The exceptions `glue_together` lets escape: ValueError('Lists not
      connected.') and the IndexError of `way[0]` or `points[-1]` on an
      empty list. */
  datatype GlueError = NotConnected | EmptyIndex

  /** What `glue_together` returns: the single chain (without
      `unconnected`), or the list of chains. */
  datatype Output<T> = One(chain: seq<T>) | Many(chains: seq<seq<T>>)

  /** `list(reversed(s))`. */
  function Reversed<T>(s: seq<T>): (r: seq<T>)
    ensures |r| == |s|
    ensures forall i :: 0 <= i < |s| ==> r[i] == s[|s| - 1 - i]
  {
    if s == [] then [] else Reversed(s[1..]) + [s[0]]
  }

  /** `points[-1]`, None when the chain is empty. */
  function End<T>(points: seq<T>): Option<T> {
    if points == [] then None else Some(points[|points| - 1])
  }

  /** The way can be joined to a chain ending in `end`: forward when it
      starts there, backward when it does not but ends there. */
  predicate Joins<T(==)>(end: Option<T>, way: seq<T>, forward: bool) {
    end.Some? && |way| > 0 &&
    if forward then way[0] == end.value
    else way[0] != end.value && way[|way| - 1] == end.value
  }

  /** The scan passes over the way: it is not empty and neither of its ends
      is the chain's end. */
  predicate Passes<T(==)>(end: Option<T>, way: seq<T>) {
    end.Some? && |way| > 0 && way[0] != end.value && way[|way| - 1] != end.value
  }

  /** The outcome of one scan over the unmatched ways: the first way that
      can be joined, the first position whose indexing fails, or a gap. */
  datatype Match = Found(i: nat, forward: bool) | Broken(i: nat) | Gap

  function Shift(j: nat, m: Match): Match {
    match m
    case Found(i, forward) => Found(i + j, forward)
    case Broken(i) => Broken(i + j)
    case Gap => Gap
  }

  /** The `for way in unmatched` scan of lines 23-33, as a function. */
  function FirstMatch<T(==)>(end: Option<T>, ways: seq<seq<T>>): (m: Match)
    ensures m.Found? ==> m.i < |ways| && Joins(end, ways[m.i], m.forward)
    ensures m.Broken? ==> m.i < |ways| && (end.None? || ways[m.i] == [])
    ensures !m.Gap? ==> forall j :: 0 <= j < m.i ==> Passes(end, ways[j])
    ensures m.Gap? ==> forall j :: 0 <= j < |ways| ==> Passes(end, ways[j])
    decreases |ways|
  {
    if ways == [] then Gap
    else if end.None? || ways[0] == [] then Broken(0)
    else if ways[0][0] == end.value then Found(0, true)
    else if ways[0][|ways[0]| - 1] == end.value then Found(0, false)
    else
      var m := FirstMatch(end, ways[1..]);
      assert forall j :: 1 <= j < |ways| ==> ways[j] == ways[1..][j - 1];
      Shift(1, m)
  }

  /** What joining the way appends to the chain: `way[1:]` forward,
      `list(reversed(way))[1:]` backward. */
  function Tail<T>(way: seq<T>, forward: bool): seq<T>
    requires |way| > 0
  {
    if forward then way[1..] else Reversed(way)[1..]
  }

  /** Joining shares one point: the new chain is the old one without its
      end, followed by the way in the orientation that starts at that end. */
  lemma TailGlues<T>(points: seq<T>, way: seq<T>, forward: bool)
    requires Joins(End(points), way, forward)
    ensures points + Tail(way, forward) == points[..|points| - 1] + (if forward then way else Reversed(way))
  {
    var oriented := if forward then way else Reversed(way);
    assert oriented[0] == points[|points| - 1];
    assert points == points[..|points| - 1] + [oriented[0]];
    assert oriented == [oriented[0]] + Tail(way, forward);
  }

  /** A chain grown from a first way: the points so far, the ways joined to
      it in order, and the ways left over for later chains. */
  datatype Grown<T> = Grown(chain: seq<T>, joined: seq<seq<T>>, left: seq<seq<T>>)

  function WithJoined<T>(way: seq<T>, r: Result<Grown<T>, GlueError>): Result<Grown<T>, GlueError> {
    if r.Err? then r else Ok(Grown(r.value.chain, [way] + r.value.joined, r.value.left))
  }

  /** The inner `while unmatched` loop of lines 21-39, as a function. */
  function Grow<T(==)>(points: seq<T>, unmatched: seq<seq<T>>, unconnected: bool): (r: Result<Grown<T>, GlueError>)
    ensures r.Ok? ==> |r.value.left| <= |unmatched|
    decreases |unmatched|
  {
    if unmatched == [] then Ok(Grown(points, [], []))
    else
      match FirstMatch(End(points), unmatched)
      case Broken(_) => Err(EmptyIndex)
      case Gap => if unconnected then Ok(Grown(points, [], unmatched)) else Err(NotConnected)
      case Found(i, forward) =>
        var way := unmatched[i];
        WithJoined(way, Grow(points + Tail(way, forward), RemoveFirst(unmatched, way), unconnected))
  }

  /** A finished chain: its points and the ways glued into it, first way
      first. */
  datatype Chain<T> = Chain(points: seq<T>, ways: seq<seq<T>>)

  /** The outer `while remaining` loop of lines 17-40, as a function. */
  function Glue<T(==)>(remaining: seq<seq<T>>, unconnected: bool): Result<seq<Chain<T>>, GlueError>
    decreases |remaining|
  {
    if remaining == [] then Ok([])
    else
      var g := Grow(remaining[0], remaining[1..], unconnected);
      if g.Err? then Err(g.error)
      else
        var rest := Glue(g.value.left, unconnected);
        if rest.Err? then rest
        else Ok([Chain(g.value.chain, [remaining[0]] + g.value.joined)] + rest.value)
  }

  function PointsOf<T>(cs: seq<Chain<T>>): seq<seq<T>> {
    seq(|cs|, i requires 0 <= i < |cs| => cs[i].points)
  }

  function WaysOf<T>(cs: seq<Chain<T>>): seq<seq<seq<T>>> {
    seq(|cs|, i requires 0 <= i < |cs| => cs[i].ways)
  }

  lemma WaysOfCons<T>(c: Chain<T>, cs: seq<Chain<T>>)
    ensures WaysOf([c] + cs) == [c.ways] + WaysOf(cs)
  {
  }

  /** `glue_together(*lists, unconnected=unconnected)`. */
  function Outcome<T(==)>(lists: seq<seq<T>>, unconnected: bool): Result<Output<T>, GlueError> {
    match Glue(lists, unconnected)
    case Err(e) => Err(e)
    case Ok(cs) => if !unconnected && |cs| > 0 then Ok(One(cs[0].points)) else Ok(Many(PointsOf(cs)))
  }

  function Prepend<T>(cs: seq<Chain<T>>, r: Result<seq<Chain<T>>, GlueError>): Result<seq<Chain<T>>, GlueError> {
    if r.Err? then r else Ok(cs + r.value)
  }

  /** The scan of lines 23-33: the first way, in list order, that starts or
      ends at the chain's end. */
  method ScanWays<T(==)>(points: seq<T>, ways: seq<seq<T>>) returns (m: Match)
    ensures m == FirstMatch(End(points), ways)
  {
    var j := 0;
    while j < |ways|
      invariant j <= |ways|
      invariant FirstMatch(End(points), ways) == Shift(j, FirstMatch(End(points), ways[j..]))
    {
      var way := ways[j];
      assert ways[j..][1..] == ways[j + 1..];
      if |way| == 0 || |points| == 0 {
        return Broken(j);
      }
      if way[0] == points[|points| - 1] {
        return Found(j, true);
      } else if way[|way| - 1] == points[|points| - 1] {
        return Found(j, false);
      }
      j := j + 1;
    }
    return Gap;
  }

  /** The inner loop of lines 21-39: grows the chain started by `points`
      from the unmatched ways; returns the chain and the ways it leaves to
      later chains. */
  method GrowChain<T(==)>(points: seq<T>, unmatched: seq<seq<T>>, unconnected: bool)
      returns (r: Result<(seq<T>, seq<seq<T>>), GlueError>, ghost joined: seq<seq<T>>)
    ensures r.Err? ==> Grow(points, unmatched, unconnected) == Err(r.error)
    ensures r.Ok? ==> Grow(points, unmatched, unconnected) == Ok(Grown(r.value.0, joined, r.value.1))
  {
    var chain, ways := points, unmatched;
    var remaining: seq<seq<T>> := [];
    joined := [];
    Units(joined, Grow(chain, ways, unconnected), []);
    while ways != []
      invariant remaining == [] ==>
        Grow(points, unmatched, unconnected) == JoinedAll(joined, Grow(chain, ways, unconnected))
      invariant remaining != [] ==>
        ways == [] && Grow(points, unmatched, unconnected) == Ok(Grown(chain, joined, remaining))
      decreases |ways|
    {
      var m := ScanWays(chain, ways);
      GrowStep(chain, ways, unconnected);
      match m
      case Broken(_) =>
        return Err(EmptyIndex), joined;
      case Gap =>
        if unconnected {
          Units(joined, Grow(chain, ways, unconnected), ways);
          remaining := remaining + ways;
          ways := [];
        } else {
          return Err(NotConnected), joined;
        }
      case Found(i, forward) =>
        var way := ways[i];
        JoinedAllStep(joined, way, Grow(chain + Tail(way, forward), RemoveFirst(ways, way), unconnected));
        chain := chain + Tail(way, forward);
        ways := RemoveFirst(ways, way);
        joined := joined + [way];
    }
    if remaining == [] {
      Units(joined, Grow(chain, ways, unconnected), []);
    }
    return Ok((chain, remaining)), joined;
  }

  /** `glue_together`: the first remaining way starts a chain; the first
      unmatched way that starts or ends at the chain's end is joined to it
      and removed, until none is left. A way that matches nothing raises
      ValueError, or, with `unconnected`, leaves the ways still unmatched to
      later chains. */
  method GlueTogether<T(==)>(lists: seq<seq<T>>, unconnected: bool) returns (r: Result<Output<T>, GlueError>)
    ensures r == Outcome(lists, unconnected)
  {
    var result: seq<seq<T>> := [];
    ghost var chains: seq<Chain<T>> := [];
    var remaining := lists;
    PrependNone(Glue(lists, unconnected));
    while remaining != []
      invariant Glue(lists, unconnected) == Prepend(chains, Glue(remaining, unconnected))
      invariant result == PointsOf(chains)
      decreases |remaining|
    {
      ghost var pending := remaining;
      var grown, joined := GrowChain(remaining[0], remaining[1..], unconnected);
      GlueStep(pending, unconnected);
      if grown.Err? {
        return Err(grown.error);
      }
      var points := grown.value.0;
      remaining := grown.value.1;
      var chain := Chain(points, [pending[0]] + joined);
      PrependStep(chains, chain, Glue(remaining, unconnected));
      assert PointsOf(chains + [chain]) == result + [points];
      result := result + [points];
      chains := chains + [chain];
    }
    assert chains + [] == chains;
    if !unconnected && result != [] {
      r := Ok(One(result[0]));
    } else {
      r := Ok(Many(result));
    }
  }

  /** One pass of the inner loop, read off the scan's outcome. */
  lemma GrowStep<T>(chain: seq<T>, ways: seq<seq<T>>, unconnected: bool)
    requires ways != []
    ensures FirstMatch(End(chain), ways).Broken? ==> Grow(chain, ways, unconnected) == Err(EmptyIndex)
    ensures FirstMatch(End(chain), ways).Gap? ==>
      Grow(chain, ways, unconnected) == if unconnected then Ok(Grown(chain, [], ways)) else Err(NotConnected)
    ensures FirstMatch(End(chain), ways).Found? ==>
      var m := FirstMatch(End(chain), ways);
      Grow(chain, ways, unconnected) ==
        WithJoined(ways[m.i], Grow(chain + Tail(ways[m.i], m.forward), RemoveFirst(ways, ways[m.i]), unconnected))
  {
  }

  function JoinedAll<T>(ways: seq<seq<T>>, r: Result<Grown<T>, GlueError>): Result<Grown<T>, GlueError> {
    if r.Err? then r else Ok(Grown(r.value.chain, ways + r.value.joined, r.value.left))
  }

  lemma Units<T>(joined: seq<seq<T>>, r: Result<Grown<T>, GlueError>, ways: seq<seq<T>>)
    ensures JoinedAll([], r) == r
    ensures joined + [] == joined && [] + ways == ways
  {
    if r.Ok? {
      assert [] + r.value.joined == r.value.joined;
    }
  }

  lemma PrependNone<T>(r: Result<seq<Chain<T>>, GlueError>)
    ensures Prepend([], r) == r
  {
    if r.Ok? {
      assert [] + r.value == r.value;
    }
  }

  lemma JoinedAllStep<T>(ways: seq<seq<T>>, way: seq<T>, r: Result<Grown<T>, GlueError>)
    ensures JoinedAll(ways, WithJoined(way, r)) == JoinedAll(ways + [way], r)
  {
    if r.Ok? {
      assert ways + ([way] + r.value.joined) == (ways + [way]) + r.value.joined;
    }
  }

  /** One pass of the outer loop. */
  lemma GlueStep<T>(remaining: seq<seq<T>>, unconnected: bool)
    requires remaining != []
    ensures var g := Grow(remaining[0], remaining[1..], unconnected);
      Glue(remaining, unconnected) ==
        if g.Err? then Err(g.error)
        else Prepend([Chain(g.value.chain, [remaining[0]] + g.value.joined)], Glue(g.value.left, unconnected))
  {
  }

  lemma PrependStep<T>(cs: seq<Chain<T>>, c: Chain<T>, r: Result<seq<Chain<T>>, GlueError>)
    ensures Prepend(cs, Prepend([c], r)) == Prepend(cs + [c], r)
  {
    if r.Ok? {
      assert cs + ([c] + r.value) == (cs + [c]) + r.value;
    }
  }

  /** How much joining the ways lengthens a chain: each adds all its points
      but the shared one. */
  function Growth<T>(ways: seq<seq<T>>): int {
    if ways == [] then 0 else |ways[0]| - 1 + Growth(ways[1..])
  }

  lemma {:induction false} GrowthRemove<T>(ways: seq<seq<T>>, i: nat)
    requires i < |ways|
    ensures Growth(RemoveAt(ways, i)) == Growth(ways) - (|ways[i]| - 1)
    decreases |ways|
  {
    if i > 0 {
      GrowthRemove(ways[1..], i - 1);
      assert RemoveAt(ways, i) == [ways[0]] + RemoveAt(ways[1..], i - 1);
    } else {
      assert RemoveAt(ways, 0) == ways[1..];
    }
  }

  lemma GrowthRemoveFirst<T>(ways: seq<seq<T>>, i: nat)
    requires i < |ways|
    ensures Growth(RemoveFirst(ways, ways[i])) == Growth(ways) - (|ways[i]| - 1)
  {
    GrowthRemove(ways, IndexOf(ways, ways[i]));
  }

  /** A grown chain starts with the points it was started from, in their
      orientation, and grows by Growth of the ways joined to it; every
      unmatched way is either joined or left for later chains, and without
      `unconnected` none is left. */
  lemma {:induction false} GrowShape<T>(points: seq<T>, unmatched: seq<seq<T>>, unconnected: bool)
    requires Grow(points, unmatched, unconnected).Ok?
    ensures points <= Grow(points, unmatched, unconnected).value.chain
    ensures |Grow(points, unmatched, unconnected).value.chain| ==
      |points| + Growth(Grow(points, unmatched, unconnected).value.joined)
    ensures Growth(Grow(points, unmatched, unconnected).value.joined) +
      Growth(Grow(points, unmatched, unconnected).value.left) == Growth(unmatched)
    ensures !unconnected ==> Grow(points, unmatched, unconnected).value.left == []
    decreases |unmatched|
  {
    if unmatched != [] {
      GrowStep(points, unmatched, unconnected);
      var m := FirstMatch(End(points), unmatched);
      if m.Found? {
        var way := unmatched[m.i];
        var next, rest := points + Tail(way, m.forward), RemoveFirst(unmatched, way);
        var r := Grow(next, rest, unconnected);
        assert Grow(points, unmatched, unconnected) == WithJoined(way, r);
        GrowShape(next, rest, unconnected);
        GrowthRemoveFirst(unmatched, m.i);
        assert ([way] + r.value.joined)[1..] == r.value.joined;
      }
    }
  }

  lemma {:induction false} GrowWays<T>(points: seq<T>, unmatched: seq<seq<T>>, unconnected: bool)
    requires Grow(points, unmatched, unconnected).Ok?
    ensures multiset(Grow(points, unmatched, unconnected).value.joined) +
      multiset(Grow(points, unmatched, unconnected).value.left) == multiset(unmatched)
    decreases |unmatched|
  {
    if unmatched != [] {
      GrowStep(points, unmatched, unconnected);
      var m := FirstMatch(End(points), unmatched);
      if m.Found? {
        var way := unmatched[m.i];
        var next, rest := points + Tail(way, m.forward), RemoveFirst(unmatched, way);
        var r := Grow(next, rest, unconnected);
        assert Grow(points, unmatched, unconnected) == WithJoined(way, r);
        GrowWays(next, rest, unconnected);
        assert way in multiset(unmatched);
        calc {
          multiset([way] + r.value.joined) + multiset(r.value.left);
          multiset{way} + (multiset(r.value.joined) + multiset(r.value.left));
          multiset{way} + multiset(rest);
          multiset{way} + (multiset(unmatched) - multiset{way});
          multiset(unmatched);
        }
      }
    }
  }

  /** Every input way ends up in exactly one chain. */
  lemma {:induction false} GlueWays<T>(remaining: seq<seq<T>>, unconnected: bool)
    requires Glue(remaining, unconnected).Ok?
    ensures multiset(Flatten(WaysOf(Glue(remaining, unconnected).value))) == multiset(remaining)
    decreases |remaining|
  {
    if remaining != [] {
      var g := Grow(remaining[0], remaining[1..], unconnected).value;
      GlueWays(g.left, unconnected);
      GlueWaysStep(remaining, unconnected);
    }
  }

  lemma GlueWaysStep<T>(remaining: seq<seq<T>>, unconnected: bool)
    requires remaining != [] && Glue(remaining, unconnected).Ok?
    requires var left := Grow(remaining[0], remaining[1..], unconnected).value.left;
      multiset(Flatten(WaysOf(Glue(left, unconnected).value))) == multiset(left)
    ensures multiset(Flatten(WaysOf(Glue(remaining, unconnected).value))) == multiset(remaining)
  {
    GlueStep(remaining, unconnected);
    var g := Grow(remaining[0], remaining[1..], unconnected).value;
    var ways := [remaining[0]] + g.joined;
    var rest := Glue(g.left, unconnected).value;
    assert Glue(remaining, unconnected).value == [Chain(g.chain, ways)] + rest;
    WaysOfCons(Chain(g.chain, ways), rest);
    FlattenCons(ways, WaysOf(rest));
    GrowWays(remaining[0], remaining[1..], unconnected);
    assert remaining == [remaining[0]] + remaining[1..];
    calc {
      multiset(ways) + multiset(Flatten(WaysOf(rest)));
      multiset{remaining[0]} + (multiset(g.joined) + multiset(g.left));
      multiset{remaining[0]} + multiset(remaining[1..]);
      multiset(remaining);
    }
  }

  /** Every chain starts with its first way and is as long as that way plus
      the Growth of the ways joined to it; without `unconnected` there is at
      most one chain. */
  lemma {:induction false} GlueStarts<T>(remaining: seq<seq<T>>, unconnected: bool)
    requires Glue(remaining, unconnected).Ok?
    ensures forall i :: 0 <= i < |Glue(remaining, unconnected).value| ==>
      Starts(Glue(remaining, unconnected).value[i])
    ensures !unconnected ==> |Glue(remaining, unconnected).value| <= 1
    decreases |remaining|
  {
    if remaining != [] {
      GlueStep(remaining, unconnected);
      var g := Grow(remaining[0], remaining[1..], unconnected).value;
      GrowShape(remaining[0], remaining[1..], unconnected);
      GlueStarts(g.left, unconnected);
      var c := Chain(g.chain, [remaining[0]] + g.joined);
      var rest := Glue(g.left, unconnected).value;
      var cs := Glue(remaining, unconnected).value;
      assert cs == [c] + rest;
      assert c.ways[1..] == g.joined;
      assert Starts(c);
      forall i | 0 <= i < |cs| ensures Starts(cs[i]) {
        if i > 0 {
          assert cs[i] == rest[i - 1];
        }
      }
    }
  }

  /** The chain starts with its first way and is as long as that way plus
      the Growth of the ways joined to it. */
  ghost predicate Starts<T>(c: Chain<T>) {
    c.ways != [] && c.ways[0] <= c.points && |c.points| == |c.ways[0]| + Growth(c.ways[1..])
  }

  /** Without `unconnected`, `glue_together` returns the one chain, which
      starts with the first list and takes in every other list, or `[]` for
      no lists. */
  lemma ConnectedOutcome<T>(lists: seq<seq<T>>)
    requires Outcome(lists, false).Ok?
    ensures lists == [] ==> Outcome(lists, false).value == Many([])
    ensures lists != [] ==>
      && Outcome(lists, false).value.One?
      && lists[0] <= Outcome(lists, false).value.chain
      && |Outcome(lists, false).value.chain| == |lists[0]| + Growth(lists[1..])
  {
    if lists != [] {
      GrowShape(lists[0], lists[1..], false);
    }
  }

  /** With `unconnected`, every input list ends up in exactly one chain. */
  lemma UnconnectedOutcome<T>(lists: seq<seq<T>>)
    requires Outcome(lists, true).Ok?
    ensures Outcome(lists, true).value.Many?
    ensures multiset(Flatten(WaysOf(Glue(lists, true).value))) == multiset(lists)
    ensures Outcome(lists, true).value.chains == PointsOf(Glue(lists, true).value)
  {
    GlueWays(lists, true);
  }

  /** ValueError('Lists not connected.') is raised only without `unconnected`. */
  lemma {:induction false} GrowNeverDisconnected<T>(points: seq<T>, unmatched: seq<seq<T>>)
    ensures Grow(points, unmatched, true) != Err(NotConnected)
    decreases |unmatched|
  {
    if unmatched != [] {
      match FirstMatch(End(points), unmatched)
      case Broken(_) =>
      case Gap =>
      case Found(i, forward) =>
        var way := unmatched[i];
        GrowNeverDisconnected(points + Tail(way, forward), RemoveFirst(unmatched, way));
    }
  }

  lemma {:induction false} GlueNeverDisconnected<T>(remaining: seq<seq<T>>)
    ensures Glue(remaining, true) != Err(NotConnected)
    decreases |remaining|
  {
    if remaining != [] {
      GrowNeverDisconnected(remaining[0], remaining[1..]);
      var g := Grow(remaining[0], remaining[1..], true);
      if g.Ok? {
        GlueNeverDisconnected(g.value.left);
      }
    }
  }

  lemma UnconnectedNeverRaises<T>(lists: seq<seq<T>>)
    ensures Outcome(lists, true) != Err(NotConnected)
  {
    GlueNeverDisconnected(lists);
  }

  /** IndexError comes only from an empty list: when every list has a point
      the chain never is empty and neither is a scanned way. */
  lemma {:induction false} GrowNeverEmpty<T>(points: seq<T>, unmatched: seq<seq<T>>, unconnected: bool)
    requires points != []
    requires forall i :: 0 <= i < |unmatched| ==> unmatched[i] != []
    ensures Grow(points, unmatched, unconnected) != Err(EmptyIndex)
    decreases |unmatched|
  {
    if unmatched != [] {
      match FirstMatch(End(points), unmatched)
      case Broken(_) =>
      case Gap =>
      case Found(i, forward) =>
        var way := unmatched[i];
        var rest := RemoveFirst(unmatched, way);
        forall j | 0 <= j < |rest| ensures rest[j] != [] {
          assert rest[j] in multiset(unmatched);
        }
        GrowNeverEmpty(points + Tail(way, forward), rest, unconnected);
    }
  }

  lemma {:induction false} GlueNeverEmpty<T>(remaining: seq<seq<T>>, unconnected: bool)
    requires forall i :: 0 <= i < |remaining| ==> remaining[i] != []
    ensures Glue(remaining, unconnected) != Err(EmptyIndex)
    decreases |remaining|
  {
    if remaining != [] {
      GrowNeverEmpty(remaining[0], remaining[1..], unconnected);
      var g := Grow(remaining[0], remaining[1..], unconnected);
      if g.Ok? {
        GrowWays(remaining[0], remaining[1..], unconnected);
        var left := g.value.left;
        forall j | 0 <= j < |left| ensures left[j] != [] {
          assert left[j] in multiset(remaining[1..]);
        }
        GlueNeverEmpty(left, unconnected);
      }
    }
  }

  lemma NonEmptyNeverIndexError<T>(lists: seq<seq<T>>, unconnected: bool)
    requires forall i :: 0 <= i < |lists| ==> lists[i] != []
    ensures Outcome(lists, unconnected) != Err(EmptyIndex)
  {
    GlueNeverEmpty(lists, unconnected);
  }

  /** `glue_together([1, 2, 3], [3, 4, 5])` is `[1, 2, 3, 4, 5]`. */
  lemma GlueExample()
    ensures Outcome([[1, 2, 3], [3, 4, 5]], false) == Ok(One([1, 2, 3, 4, 5]))
  {
    var ways: seq<seq<int>> := [[3, 4, 5]];
    assert FirstMatch(End([1, 2, 3]), ways) == Found(0, true);
    assert RemoveFirst(ways, [3, 4, 5]) == [];
    assert [1, 2, 3] + Tail([3, 4, 5], true) == [1, 2, 3, 4, 5];
    GrowStep([1, 2, 3], ways, false);
    assert Grow([1, 2, 3, 4, 5], [], false) == Ok(Grown([1, 2, 3, 4, 5], [], []));
    assert [[3, 4, 5]] + [] == [[3, 4, 5]];
    assert Grow([1, 2, 3], ways, false) == Ok(Grown([1, 2, 3, 4, 5], [[3, 4, 5]], []));
    assert [[1, 2, 3], [3, 4, 5]][1..] == ways;
  }

  /** The i-th entries, in input order, of the lists long enough to have
      one. */
  function Column<T>(ls: seq<seq<T>>, i: nat): seq<T>
    decreases |ls|
  {
    if ls == [] then []
    else Column(ls[..|ls| - 1], i) + (if i < |ls[|ls| - 1]| then [ls[|ls| - 1][i]] else [])
  }

  /** The length of the longest list, 0 for none. */
  function MaxLen<T>(ls: seq<seq<T>>): nat
    decreases |ls|
  {
    if ls == [] then 0
    else
      var m := MaxLen(ls[..|ls| - 1]);
      if |ls[|ls| - 1]| > m then |ls[|ls| - 1]| else m
  }

  /** What `split(nested_lists)` returns: column i for every i below the
      longest list's length. */
  function Transposed<T>(ls: seq<seq<T>>): seq<seq<T>> {
    seq(MaxLen(ls), i requires 0 <= i => Column(ls, i))
  }

  /** ss after the first n entries of l are appended to its positions 0 to
      n - 1, opening new positions as needed. */
  function Deal<T>(ss: seq<seq<T>>, l: seq<T>, n: nat): seq<seq<T>>
    requires n <= |l|
  {
    seq(if n > |ss| then n else |ss|, j requires 0 <= j =>
      (if j < |ss| then ss[j] else []) + (if j < n then [l[j]] else []))
  }

  /** `split`: for each list in turn, its i-th entry is appended to
      `result[i]`, opening `result[i]` when it does not exist yet. */
  method Split<T>(nested: seq<seq<T>>) returns (result: seq<seq<T>>)
    ensures result == Transposed(nested)
  {
    result := [];
    var k := 0;
    while k < |nested|
      invariant k <= |nested|
      invariant result == Transposed(nested[..k])
    {
      var list := nested[k];
      ghost var before := result;
      var i := 0;
      DealNone(before, list);
      while i < |list|
        invariant i <= |list|
        invariant result == Deal(before, list, i)
      {
        if i >= |result| {
          result := result + [[]];
        }
        result := result[i := result[i] + [list[i]]];
        DealStep(before, list, i);
        i := i + 1;
      }
      TransposedStep(nested[..k], list);
      assert nested[..k + 1] == nested[..k] + [list];
      k := k + 1;
    }
    assert nested[..k] == nested;
  }

  lemma {:induction false} ColumnBeyond<T>(ls: seq<seq<T>>, i: nat)
    requires i >= MaxLen(ls)
    ensures Column(ls, i) == []
    decreases |ls|
  {
    if ls != [] {
      ColumnBeyond(ls[..|ls| - 1], i);
    }
  }

  /** Adding a list to the input deals its entries to the columns. */
  lemma TransposedStep<T>(ls: seq<seq<T>>, l: seq<T>)
    ensures Transposed(ls + [l]) == Deal(Transposed(ls), l, |l|)
  {
    var all := ls + [l];
    assert all[..|all| - 1] == ls;
    forall j | 0 <= j < |Transposed(all)|
      ensures Transposed(all)[j] == Deal(Transposed(ls), l, |l|)[j]
    {
      if j >= MaxLen(ls) {
        ColumnBeyond(ls, j);
      }
    }
  }

  /** The longest list's length is the number of columns. */
  lemma {:induction false} MaxLenIsMax<T>(ls: seq<seq<T>>)
    ensures forall k :: 0 <= k < |ls| ==> |ls[k]| <= MaxLen(ls)
    ensures ls != [] ==> exists k :: 0 <= k < |ls| && |ls[k]| == MaxLen(ls)
    decreases |ls|
  {
    if ls != [] {
      var init := ls[..|ls| - 1];
      MaxLenIsMax(init);
      assert forall k :: 0 <= k < |init| ==> ls[k] == init[k];
      if |ls[|ls| - 1]| <= MaxLen(init) && init != [] {
        var k :| 0 <= k < |init| && |init[k]| == MaxLen(init);
        assert ls[k] == init[k];
      }
    }
  }

  /** Column i holds the i-th entry of every list long enough to have one,
      and nothing else. */
  lemma {:induction false} ColumnHolds<T>(ls: seq<seq<T>>, i: nat)
    ensures forall k :: 0 <= k < |ls| && i < |ls[k]| ==> ls[k][i] in Column(ls, i)
    ensures forall x :: x in Column(ls, i) ==> exists k :: 0 <= k < |ls| && i < |ls[k]| && ls[k][i] == x
    decreases |ls|
  {
    if ls != [] {
      var init := ls[..|ls| - 1];
      ColumnHolds(init, i);
      assert forall k :: 0 <= k < |init| ==> ls[k] == init[k];
    }
  }

  lemma DealNone<T>(ss: seq<seq<T>>, l: seq<T>)
    ensures Deal(ss, l, 0) == ss
  {
    assert forall j :: 0 <= j < |ss| ==> Deal(ss, l, 0)[j] == ss[j];
  }

  /** Dealing one more entry appends it to its position, or opens that
      position. */
  lemma DealStep<T>(ss: seq<seq<T>>, l: seq<T>, n: nat)
    requires n < |l|
    ensures var d := Deal(ss, l, n);
      Deal(ss, l, n + 1) == if n < |d| then d[n := d[n] + [l[n]]] else d + [[l[n]]]
  {
    var d, e := Deal(ss, l, n), Deal(ss, l, n + 1);
    var f := if n < |d| then d[n := d[n] + [l[n]]] else d + [[l[n]]];
    assert |e| == |f|;
    forall j | 0 <= j < |e| ensures e[j] == f[j] {
      if j != n {
        assert e[j] == d[j];
      }
    }
  }

  /** Appending x at position i, or opening that position with x, adds
      one x to the entries. */
  lemma DealOneKeeps<T>(d: seq<seq<T>>, i: nat, x: T)
    requires i <= |d|
    ensures multiset(Flatten(if i < |d| then d[i := d[i] + [x]] else d + [[x]]))
      == multiset(Flatten(d)) + multiset{x}
  {
    if i < |d| {
      FlattenAppendAt(d, i, x);
    } else {
      var e := d + [[x]];
      assert e[..|e| - 1] == d;
    }
  }

  lemma {:induction false} DealKeeps<T>(ss: seq<seq<T>>, l: seq<T>, n: nat)
    requires n <= |l|
    ensures multiset(Flatten(Deal(ss, l, n))) == multiset(Flatten(ss)) + multiset(l[..n])
    decreases n
  {
    if n == 0 {
      DealNone(ss, l);
    } else {
      assert l[..n] == l[..n - 1] + [l[n - 1]];
      var d := Deal(ss, l, n - 1);
      DealKeeps(ss, l, n - 1);
      DealStep(ss, l, n - 1);
      DealOneKeeps(d, n - 1, l[n - 1]);
      calc {
        multiset(Flatten(Deal(ss, l, n)));
        multiset(Flatten(d)) + multiset{l[n - 1]};
        multiset(Flatten(ss)) + multiset(l[..n - 1]) + multiset{l[n - 1]};
        multiset(Flatten(ss)) + multiset(l[..n]);
      }
    }
  }

  /** `split` keeps every entry: the columns hold exactly the entries of
      the lists, so the total count is preserved. */
  lemma {:induction false} SplitKeeps<T>(ls: seq<seq<T>>)
    ensures multiset(Flatten(Transposed(ls))) == multiset(Flatten(ls))
    ensures |Flatten(Transposed(ls))| == |Flatten(ls)|
    decreases |ls|
  {
    if ls == [] {
      assert Transposed(ls) == [];
    } else {
      var init, l := ls[..|ls| - 1], ls[|ls| - 1];
      SplitKeeps(init);
      assert ls == init + [l];
      TransposedStep(init, l);
      DealKeeps(Transposed(init), l, |l|);
      assert l[..|l|] == l;
    }
    calc {
      |Flatten(Transposed(ls))|;
      |multiset(Flatten(Transposed(ls)))|;
      |multiset(Flatten(ls))|;
      |Flatten(ls)|;
    }
  }

  /** `split([[1, 2], [1, 2]])` is `[[1, 1], [2, 2]]`. */
  lemma SplitExample()
    ensures Transposed([[1, 2], [1, 2]]) == [[1, 1], [2, 2]]
  {
    var ls: seq<seq<int>> := [[1, 2], [1, 2]];
    assert ls[..1] == [[1, 2]] && ls[..1][..0] == [];
    assert MaxLen(ls) == 2;
    assert Column(ls, 0) == [1, 1];
    assert Column(ls, 1) == [2, 2];
  }
}
