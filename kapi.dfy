/** The argument handling and the suggestion tree of the demo server in
    src/kapi.py: `resolve_args` checks and converts the positional arguments
    of a request, `build_decisions` builds the tree of allowed argument
    values, `decide` lists the values the tree suggests after a prefix of
    arguments, and `_train` reshapes the tree after a run that failed.
    The `resolve_args` of the older top-level kapi.py has the same body and
    is modelled by the same member. */
module Kapi {
  import opened Wrappers
  import opened SeqUtil

  /** The Python exceptions the modelled functions raise. */
  datatype KapiError = ValueError | IndexError | TypeError

  // ---------------------------------------------------------------------
  // resolve_args

  /** The allowed arguments at one position: a list or range of values,
      or a dict from values to what they stand for. */
  datatype Allowed<V(==), M> = Values(values: seq<V>) | Mapping(mapping: map<V, M>)

  /** A resolved argument: the converted value itself, or the dict entry
      it selects. */
  datatype Resolved<V, M> = Plain(value: V) | Mapped(image: M)

  /** What `resolve_args` makes of the raw argument at position i: the
      conversion `arg_types[i]` (None when it raises, and a missing
      position raises as well, both inside the bare `except` that turns
      them into ValueError), then the membership test in `args[i]`
      (IndexError when that list is too short, ValueError for a value that
      is not allowed). */
  function ResolveAt<R, V(==), M>(types: seq<R -> Option<V>>, allowed: seq<Allowed<V, M>>, i: nat, raw: R)
    : Result<Resolved<V, M>, KapiError>
  {
    if i >= |types| then Err(ValueError)
    else match types[i](raw)
      case None => Err(ValueError)
      case Some(v) =>
        if i >= |allowed| then Err(IndexError)
        else match allowed[i]
          case Values(vs) => if v in vs then Ok(Plain(v)) else Err(ValueError)
          case Mapping(m) => if v in m then Ok(Mapped(m[v])) else Err(ValueError)
  }

  /** The outcome of `resolve_args` on the arguments `args`: the first
      argument that fails decides the exception. */
  function Resolution<R, V(==), M>(types: seq<R -> Option<V>>, allowed: seq<Allowed<V, M>>, args: seq<R>)
    : Result<seq<Resolved<V, M>>, KapiError>
    decreases |args|
  {
    if args == [] then Ok([])
    else match Resolution(types, allowed, args[..|args| - 1])
      case Err(e) => Err(e)
      case Ok(prefix) =>
        match ResolveAt(types, allowed, |args| - 1, args[|args| - 1])
        case Err(e) => Err(e)
        case Ok(x) => Ok(prefix + [x])
  }

  /** `resolve_args`: the position of each argument is the length of the
      result built so far. */
  method ResolveArgs<R, V(==), M>(types: seq<R -> Option<V>>, allowed: seq<Allowed<V, M>>, args: seq<R>)
      returns (r: Result<seq<Resolved<V, M>>, KapiError>)
    ensures r == Resolution(types, allowed, args)
  {
    var result: seq<Resolved<V, M>> := [];
    for k := 0 to |args|
      invariant |result| == k
      invariant Resolution(types, allowed, args[..k]) == Ok(result)
    {
      assert args[..k + 1][..k] == args[..k];
      var pos := |result|;
      var failed: Option<KapiError> := None;
      if pos >= |types| {
        failed := Some(ValueError);
      } else {
        var converted := types[pos](args[k]);
        if converted.None? {
          failed := Some(ValueError);
        } else if pos >= |allowed| {
          failed := Some(IndexError);
        } else {
          var value := converted.value;
          match allowed[pos]
          case Values(vs) =>
            if value in vs {
              result := result + [Plain(value)];
            } else {
              failed := Some(ValueError);
            }
          case Mapping(m) =>
            if value in m {
              result := result + [Mapped(m[value])];
            } else {
              failed := Some(ValueError);
            }
        }
      }
      if failed.Some? {
        ResolutionFails(types, allowed, args, k + 1);
        return Err(failed.value);
      }
    }
    assert args[..|args|] == args;
    return Ok(result);
  }

  /** Once a prefix of the arguments fails, the whole call fails with the
      same exception. */
  lemma {:induction false} ResolutionFails<R, V, M>(types: seq<R -> Option<V>>, allowed: seq<Allowed<V, M>>, args: seq<R>, k: nat)
    requires k <= |args| && Resolution(types, allowed, args[..k]).Err?
    ensures Resolution(types, allowed, args) == Resolution(types, allowed, args[..k])
    decreases |args| - k
  {
    if k < |args| {
      assert args[..k + 1][..k] == args[..k];
      ResolutionFails(types, allowed, args, k + 1);
    } else {
      assert args[..k] == args;
    }
  }

  /** The call succeeds exactly when every argument resolves at its
      position, and then it returns one entry per argument, in order. */
  lemma {:induction false} ResolutionSucceeds<R, V, M>(types: seq<R -> Option<V>>, allowed: seq<Allowed<V, M>>, args: seq<R>)
    ensures Resolution(types, allowed, args).Ok? ==>
      forall i :: 0 <= i < |args| ==> ResolveAt(types, allowed, i, args[i]).Ok?
    ensures (forall i :: 0 <= i < |args| ==> ResolveAt(types, allowed, i, args[i]).Ok?) ==>
      Resolution(types, allowed, args).Ok?
    ensures Resolution(types, allowed, args).Ok? ==>
      |Resolution(types, allowed, args).value| == |args| &&
      forall i :: 0 <= i < |args| ==>
        Resolution(types, allowed, args).value[i] == ResolveAt(types, allowed, i, args[i]).value
    decreases |args|
  {
    if args != [] {
      var init := args[..|args| - 1];
      ResolutionSucceeds(types, allowed, init);
      assert forall i :: 0 <= i < |init| ==> init[i] == args[i];
    }
  }

  /** A failing call fails at its first argument that does not resolve. */
  lemma {:induction false} ResolutionFailsAtFirst<R, V, M>(types: seq<R -> Option<V>>, allowed: seq<Allowed<V, M>>, args: seq<R>)
    requires Resolution(types, allowed, args).Err?
    ensures exists i :: (0 <= i < |args| &&
      ResolveAt(types, allowed, i, args[i]) == Err(Resolution(types, allowed, args).error) &&
      forall j :: 0 <= j < i ==> ResolveAt(types, allowed, j, args[j]).Ok?)
    decreases |args|
  {
    var init := args[..|args| - 1];
    assert forall i :: 0 <= i < |init| ==> init[i] == args[i];
    if Resolution(types, allowed, init).Err? {
      ResolutionFailsAtFirst(types, allowed, init);
      var i :| 0 <= i < |init| &&
        ResolveAt(types, allowed, i, init[i]) == Err(Resolution(types, allowed, init).error) &&
        forall j :: 0 <= j < i ==> ResolveAt(types, allowed, j, init[j]).Ok?;
      assert ResolveAt(types, allowed, i, args[i]) == Err(Resolution(types, allowed, args).error);
    } else {
      ResolutionSucceeds(types, allowed, init);
      var i := |args| - 1;
      assert ResolveAt(types, allowed, i, args[i]) == Err(Resolution(types, allowed, args).error);
    }
  }

  /** An argument resolves to the converted value when its position allows
      a list of values, and to the dict's entry for it when the position
      allows a dict; a converted value that is not allowed raises
      ValueError. */
  lemma ResolvedMeans<R, V, M>(types: seq<R -> Option<V>>, allowed: seq<Allowed<V, M>>, i: nat, raw: R)
    ensures ResolveAt(types, allowed, i, raw).Ok? ==>
      i < |types| && i < |allowed| && types[i](raw).Some?
    ensures ResolveAt(types, allowed, i, raw).Ok? && allowed[i].Values? ==>
      types[i](raw).value in allowed[i].values &&
      ResolveAt(types, allowed, i, raw).value == Plain(types[i](raw).value)
    ensures ResolveAt(types, allowed, i, raw).Ok? && allowed[i].Mapping? ==>
      types[i](raw).value in allowed[i].mapping &&
      ResolveAt(types, allowed, i, raw).value == Mapped(allowed[i].mapping[types[i](raw).value])
    ensures (i < |types| && i < |allowed| && types[i](raw).Some? &&
        if allowed[i].Values? then types[i](raw).value !in allowed[i].values
        else types[i](raw).value !in allowed[i].mapping) ==>
      ResolveAt(types, allowed, i, raw) == Err(ValueError)
  {
  }

  /** When every position with a conversion also has its allowed values,
      the IndexError of a short `args` list cannot arise: every failure is
      the ValueError of the bare `except` or of the membership test. */
  lemma {:induction false} OnlyValueError<R, V, M>(types: seq<R -> Option<V>>, allowed: seq<Allowed<V, M>>, args: seq<R>)
    requires |allowed| >= |types|
    ensures Resolution(types, allowed, args).Err? ==> Resolution(types, allowed, args).error == ValueError
    decreases |args|
  {
    if args != [] {
      OnlyValueError(types, allowed, args[..|args| - 1]);
    }
  }

  /** More arguments than positions always raise: the argument past the
      last position has no conversion. The exception is the ValueError the
      source documents whenever every position has its allowed values. */
  lemma TooManyArguments<R, V, M>(types: seq<R -> Option<V>>, allowed: seq<Allowed<V, M>>, args: seq<R>)
    requires |args| > |types|
    ensures Resolution(types, allowed, args).Err?
    ensures |allowed| >= |types| ==> Resolution(types, allowed, args) == Err(ValueError)
  {
    ResolutionSucceeds(types, allowed, args);
    assert ResolveAt(types, allowed, |types|, args[|types|]).Err?;
    if |allowed| >= |types| {
      OnlyValueError(types, allowed, args);
    }
  }

  // ---------------------------------------------------------------------
  // The suggestion tree

  /** A level of the suggestion tree: `None`, a flat list of values (the
      last level), or a list of groups `(choices, options)`, each pairing
      some values with the tree of what may follow them. */
  datatype Tree<V> = Nil | Leaf(values: seq<V>) | Branch(groups: seq<Group<V>>)
  datatype Group<V> = Group(choices: seq<V>, options: Tree<V>)

  /** Python's truth value of a level: None and empty lists are false. */
  predicate Truthy<V>(t: Tree<V>) {
    match t
    case Nil => false
    case Leaf(vs) => vs != []
    case Branch(gs) => gs != []
  }

  /** `list(map(f, raw))`. */
  function Convert<R, V>(f: R -> V, raw: seq<R>): seq<V> {
    seq(|raw|, i requires 0 <= i < |raw| => f(raw[i]))
  }

  /** `build_decisions(data, types)`: None for no data; the converted
      first level paired with the deeper tree when that tree is truthy,
      and the converted first level alone otherwise. A `types` list shorter
      than `data` raises IndexError at `types[0]`. */
  function BuildDecisions<R, V>(data: seq<seq<R>>, types: seq<R -> V>): Result<Tree<V>, KapiError>
    decreases |data|
  {
    if data == [] then Ok(Nil)
    else match BuildDecisions(data[1..], if types == [] then [] else types[1..])
      case Err(e) => Err(e)
      case Ok(deeper) =>
        if types == [] then Err(IndexError)
        else if Truthy(deeper) then Ok(Branch([Group(Convert(types[0], data[0]), deeper)]))
        else Ok(Leaf(Convert(types[0], data[0])))
  }

  /** The levels of a tree in which every branch holds one group, as
      `build_decisions` makes them: the values of each level, top first. */
  function Levels<V>(t: Tree<V>): seq<seq<V>> {
    match t
    case Nil => []
    case Leaf(vs) => [vs]
    case Branch(gs) => if |gs| == 1 then [gs[0].choices] + Levels(gs[0].options) else []
  }

  /** Every level of the data, converted by its type. */
  function ConvertAll<R, V>(data: seq<seq<R>>, types: seq<R -> V>): seq<seq<V>>
    requires |types| >= |data|
  {
    seq(|data|, i requires 0 <= i < |data| => Convert(types[i], data[i]))
  }

  /** `build_decisions` succeeds exactly when every level has a type. */
  lemma {:induction false} BuildSucceeds<R, V>(data: seq<seq<R>>, types: seq<R -> V>)
    ensures BuildDecisions(data, types).Ok? ==> |types| >= |data|
    ensures |types| >= |data| ==> BuildDecisions(data, types).Ok?
    decreases |data|
  {
    if data != [] {
      BuildSucceeds(data[1..], if types == [] then [] else types[1..]);
    }
  }

  /** The tree `build_decisions` makes is a chain of single groups whose
      levels are the converted data levels, top first, except that the
      empty levels at the bottom are dropped (at least one level stays). */
  lemma {:induction false} BuildLevels<R, V>(data: seq<seq<R>>, types: seq<R -> V>)
    requires |types| >= |data|
    requires BuildDecisions(data, types).Ok?
    ensures data == [] ==> BuildDecisions(data, types) == Ok(Nil)
    ensures data != [] ==>
      var levels := Levels(BuildDecisions(data, types).value);
      1 <= |levels| <= |data| &&
      levels == ConvertAll(data, types)[..|levels|] &&
      forall j :: |levels| <= j < |data| ==> data[j] == []
    decreases |data|
  {
    if data != [] {
      var rest, more := data[1..], types[1..];
      var t := BuildDecisions(data, types).value;
      var head := Convert(types[0], data[0]);
      BuildSucceeds(rest, more);
      var deeper := BuildDecisions(rest, more).value;
      BuildLevels(rest, more);
      var all := ConvertAll(data, types);
      assert all[0] == head;
      assert forall j :: 0 <= j < |rest| ==> ConvertAll(rest, more)[j] == all[j + 1];
      if Truthy(deeper) {
        var levels := Levels(deeper);
        assert Levels(t) == [head] + levels;
        assert Levels(t) == all[..|levels| + 1];
      } else if rest != [] {
        var levels := Levels(deeper);
        assert |Convert(more[0], rest[0])| == |rest[0]|;
        assert levels == [[]];
      }
    }
  }

  // ---------------------------------------------------------------------
  // decide

  /** The first group whose choices hold a: the scan
      `for choices, options in result: if arg in choices: ... break`. */
  function FirstGroup<V(==)>(gs: seq<Group<V>>, a: V): (r: Option<nat>)
    ensures r.Some? ==> r.value < |gs| && a in gs[r.value].choices
    ensures r.Some? ==> forall j :: 0 <= j < r.value ==> a !in gs[j].choices
    ensures r.None? ==> forall j :: 0 <= j < |gs| ==> a !in gs[j].choices
  {
    if gs == [] then None
    else if a in gs[0].choices then Some(0)
    else match FirstGroup(gs[1..], a)
      case None => None
      case Some(i) => Some(i + 1)
  }

  /** The same scan over any level: iterating None raises TypeError, and
      iterating a non-empty flat list fails on unpacking its first value
      into `choices, options` (the exception `unpack` names for that
      value); an empty list is scanned without effect. */
  function Lookup<V(==)>(t: Tree<V>, a: V, unpack: V -> KapiError): (r: Result<Option<nat>, KapiError>)
    ensures r.Ok? && r.value.Some? ==>
      t.Branch? && r.value.value < |t.groups| && a in t.groups[r.value.value].choices &&
      forall j :: 0 <= j < r.value.value ==> a !in t.groups[j].choices
    ensures t.Branch? ==> r.Ok?
    ensures t.Branch? && r == Ok(None) ==> forall j :: 0 <= j < |t.groups| ==> a !in t.groups[j].choices
    ensures t.Nil? ==> r == Err(TypeError)
    ensures t.Leaf? ==> (r == Ok(None) <==> t.values == [])
    ensures t.Leaf? && t.values != [] ==> r == Err(unpack(t.values[0]))
  {
    match t
    case Nil => Err(TypeError)
    case Leaf(vs) => if vs == [] then Ok(None) else Err(unpack(vs[0]))
    case Branch(gs) => Ok(FirstGroup(gs, a))
  }

  /** One pass of the loop in `decide`: a value of a flat list sets the
      level to None; otherwise the options of the first group holding the
      argument become the level, and an argument in no group leaves the
      level as it is. */
  function Step<V(==)>(t: Tree<V>, a: V, unpack: V -> KapiError): Result<Tree<V>, KapiError> {
    if t.Nil? then Err(TypeError)
    else if t.Leaf? && a in t.values then Ok(Nil)
    else match Lookup(t, a, unpack)
      case Err(e) => Err(e)
      case Ok(None) => Ok(t)
      case Ok(Some(i)) => Ok(t.groups[i].options)
  }

  /** The level the loop in `decide` reaches after the arguments `args`. */
  function Reach<V(==)>(t: Tree<V>, args: seq<V>, unpack: V -> KapiError): Result<Tree<V>, KapiError>
    decreases |args|
  {
    if args == [] then Ok(t)
    else match Step(t, args[0], unpack)
      case Err(e) => Err(e)
      case Ok(next) => Reach(next, args[1..], unpack)
  }

  /** The choice lists of the groups, in order. */
  function ChoiceLists<V>(gs: seq<Group<V>>): seq<seq<V>> {
    seq(|gs|, j requires 0 <= j < |gs| => gs[j].choices)
  }

  /** Every choice of every group, group after group. */
  function AllChoices<V>(gs: seq<Group<V>>): seq<V> {
    Flatten(ChoiceLists(gs))
  }

  /** The values the reached level offers, before sorting: `result[0]` on
      None raises TypeError and on an empty list IndexError; a level of
      groups offers all their choices, a flat list its values. */
  function Offer<V>(t: Tree<V>): Result<seq<V>, KapiError> {
    match t
    case Nil => Err(TypeError)
    case Leaf(vs) => if vs == [] then Err(IndexError) else Ok(vs)
    case Branch(gs) => if gs == [] then Err(IndexError) else Ok(AllChoices(gs))
  }

  /** x inserted into s before the first entry it is less than. */
  function Insert<V>(x: V, s: seq<V>, less: (V, V) -> bool): seq<V>
    decreases |s|
  {
    if s == [] then [x]
    else if less(x, s[0]) then [x] + s
    else [s[0]] + Insert(x, s[1..], less)
  }

  /** `sorted(s)` under the order `less`: a stable insertion sort, each
      entry inserted after the earlier entries it is not less than. */
  function SortBy<V>(s: seq<V>, less: (V, V) -> bool): seq<V>
    decreases |s|
  {
    if s == [] then [] else Insert(s[|s| - 1], SortBy(s[..|s| - 1], less), less)
  }

  /** `less` is a strict order, as `<` is on the numbers and strings the
      server compares. */
  ghost predicate StrictOrder<V(!new)>(less: (V, V) -> bool) {
    (forall x :: !less(x, x)) &&
    (forall x, y, z :: less(x, y) && less(y, z) ==> less(x, z))
  }

  /** No entry is less than an earlier one. */
  ghost predicate SortedBy<V>(s: seq<V>, less: (V, V) -> bool) {
    forall i, j :: 0 <= i < j < |s| ==> !less(s[j], s[i])
  }

  /** The outcome of `decide(*args)` on the tree `t`. */
  function Decision<V(==)>(t: Tree<V>, args: seq<V>, less: (V, V) -> bool, unpack: V -> KapiError)
    : Result<seq<V>, KapiError>
  {
    match Reach(t, args, unpack)
    case Err(e) => Err(e)
    case Ok(level) =>
      match Offer(level)
      case Err(e) => Err(e)
      case Ok(vs) => Ok(SortBy(vs, less))
  }

  /** The scan for the first group holding a. */
  method ScanGroups<V(==)>(gs: seq<Group<V>>, a: V) returns (found: Option<nat>)
    ensures found == FirstGroup(gs, a)
  {
    for i := 0 to |gs|
      invariant forall j :: 0 <= j < i ==> a !in gs[j].choices
    {
      if a in gs[i].choices {
        return Some(i);
      }
    }
    return None;
  }

  /** `decide(*args)`: walks the tree down the arguments, then returns the
      sorted values the reached level offers. */
  method Decide<V(==)>(decisions: Tree<V>, args: seq<V>, less: (V, V) -> bool, unpack: V -> KapiError)
      returns (r: Result<seq<V>, KapiError>)
    ensures r == Decision(decisions, args, less, unpack)
  {
    var result := decisions;
    for k := 0 to |args|
      invariant Reach(decisions, args, unpack) == Reach(result, args[k..], unpack)
    {
      var arg := args[k];
      assert args[k..][1..] == args[k + 1..];
      match result
      case Nil =>
        return Err(TypeError);
      case Leaf(vs) =>
        if arg in vs {
          result := Nil;
        } else if vs != [] {
          return Err(unpack(vs[0]));
        }
      case Branch(gs) =>
        var found := ScanGroups(gs, arg);
        if found.Some? {
          result := gs[found.value].options;
        }
    }
    match result
    case Nil =>
      return Err(TypeError);
    case Leaf(vs) =>
      if vs == [] {
        return Err(IndexError);
      }
      return Ok(SortBy(vs, less));
    case Branch(gs) =>
      if gs == [] {
        return Err(IndexError);
      }
      var all: seq<V> := [];
      for i := 0 to |gs|
        invariant all == Flatten(ChoiceLists(gs[..i]))
      {
        assert ChoiceLists(gs[..i + 1])[..i] == ChoiceLists(gs[..i]);
        all := all + gs[i].choices;
      }
      assert gs[..|gs|] == gs;
      return Ok(SortBy(all, less));
  }

  /** Insertion keeps the entries and adds x. */
  lemma {:induction false} InsertKeeps<V>(x: V, s: seq<V>, less: (V, V) -> bool)
    ensures multiset(Insert(x, s, less)) == multiset(s) + multiset{x}
    decreases |s|
  {
    if s != [] && !less(x, s[0]) {
      InsertKeeps(x, s[1..], less);
      assert s == [s[0]] + s[1..];
    }
  }

  /** Insertion adds x and nothing else. */
  lemma {:induction false} InsertMembers<V>(x: V, s: seq<V>, less: (V, V) -> bool)
    ensures forall y :: y in Insert(x, s, less) ==> y == x || y in s
    decreases |s|
  {
    if s != [] && !less(x, s[0]) {
      InsertMembers(x, s[1..], less);
    }
  }

  /** Inserting into a sorted list keeps it sorted. */
  lemma {:induction false} InsertSorted<V(!new)>(x: V, s: seq<V>, less: (V, V) -> bool)
    requires StrictOrder(less) && SortedBy(s, less)
    ensures SortedBy(Insert(x, s, less), less)
    decreases |s|
  {
    if s != [] {
      if less(x, s[0]) {
        InsertFront(x, s, less);
      } else {
        InsertSorted(x, s[1..], less);
        InsertAfter(x, s, less);
      }
    }
  }

  /** x less than the sorted list's first entry goes in front. */
  lemma InsertFront<V(!new)>(x: V, s: seq<V>, less: (V, V) -> bool)
    requires StrictOrder(less) && SortedBy(s, less)
    requires s != [] && less(x, s[0])
    ensures SortedBy([x] + s, less)
  {
    var r := [x] + s;
    forall i, j | 0 <= i < j < |r| ensures !less(r[j], r[i]) {
      if i > 0 {
        assert r[i] == s[i - 1] && r[j] == s[j - 1];
      } else if j > 1 {
        assert !less(s[j - 1], s[0]);
      }
    }
  }

  /** x not less than the sorted list's first entry goes after it. */
  lemma InsertAfter<V(!new)>(x: V, s: seq<V>, less: (V, V) -> bool)
    requires StrictOrder(less) && SortedBy(s, less)
    requires s != [] && !less(x, s[0])
    requires SortedBy(Insert(x, s[1..], less), less)
    ensures SortedBy([s[0]] + Insert(x, s[1..], less), less)
  {
    var tail := Insert(x, s[1..], less);
    var r := [s[0]] + tail;
    InsertMembers(x, s[1..], less);
    forall i, j | 0 <= i < j < |r| ensures !less(r[j], r[i]) {
      if i == 0 {
        assert r[j] in tail;
        if r[j] != x {
          var m :| 0 <= m < |s[1..]| && s[1..][m] == r[j];
          assert s[m + 1] == r[j];
        }
      } else {
        assert r[i] == tail[i - 1] && r[j] == tail[j - 1];
      }
    }
  }

  /** `sorted` returns a sorted permutation of its input. */
  lemma {:induction false} SortByMeans<V(!new)>(s: seq<V>, less: (V, V) -> bool)
    requires StrictOrder(less)
    ensures SortedBy(SortBy(s, less), less)
    ensures multiset(SortBy(s, less)) == multiset(s)
    decreases |s|
  {
    if s != [] {
      var init := s[..|s| - 1];
      SortByMeans(init, less);
      InsertSorted(s[|s| - 1], SortBy(init, less), less);
      InsertKeeps(s[|s| - 1], SortBy(init, less), less);
      assert s == init + [s[|s| - 1]];
    }
  }

  /** `decide` returns the values the reached level offers, sorted: all
      choices of its groups, or the values of its flat list. */
  lemma DecisionSorted<V(!new)>(t: Tree<V>, args: seq<V>, less: (V, V) -> bool, unpack: V -> KapiError)
    requires StrictOrder(less)
    requires Decision(t, args, less, unpack).Ok?
    ensures Reach(t, args, unpack).Ok? && Offer(Reach(t, args, unpack).value).Ok?
    ensures SortedBy(Decision(t, args, less, unpack).value, less)
    ensures multiset(Decision(t, args, less, unpack).value) == multiset(Offer(Reach(t, args, unpack).value).value)
  {
    SortByMeans(Offer(Reach(t, args, unpack).value).value, less);
  }

  /** Walking the tree down `xs + ys` walks it down xs, then down ys. */
  lemma {:induction false} ReachConcat<V>(t: Tree<V>, xs: seq<V>, ys: seq<V>, unpack: V -> KapiError)
    ensures Reach(t, xs + ys, unpack) ==
      match Reach(t, xs, unpack) case Err(e) => Err(e) case Ok(level) => Reach(level, ys, unpack)
    decreases |xs|
  {
    if xs == [] {
      assert xs + ys == ys;
    } else {
      assert (xs + ys)[0] == xs[0] && (xs + ys)[1..] == xs[1..] + ys;
      match Step(t, xs[0], unpack)
      case Err(e) =>
      case Ok(next) => ReachConcat(next, xs[1..], ys, unpack);
    }
  }

  /** An argument found in no group of the reached level changes nothing. */
  lemma UnknownArgument<V>(t: Tree<V>, args: seq<V>, a: V, less: (V, V) -> bool, unpack: V -> KapiError)
    requires Reach(t, args, unpack).Ok? && Reach(t, args, unpack).value.Branch?
    requires forall g :: g in Reach(t, args, unpack).value.groups ==> a !in g.choices
    ensures Decision(t, args + [a], less, unpack) == Decision(t, args, less, unpack)
  {
    ReachConcat(t, args, [a], unpack);
  }

  /** An argument that is a value of the reached flat list sets the level
      to None, so the call fails however it goes on. */
  lemma LeafValueFails<V>(t: Tree<V>, args: seq<V>, a: V, more: seq<V>, less: (V, V) -> bool, unpack: V -> KapiError)
    requires Reach(t, args, unpack).Ok? && Reach(t, args, unpack).value.Leaf?
    requires a in Reach(t, args, unpack).value.values
    ensures Decision(t, args + [a] + more, less, unpack) == Err(TypeError)
  {
    ReachConcat(t, args, [a], unpack);
    ReachConcat(t, args + [a], more, unpack);
    if more != [] {
      assert Reach(Nil, more, unpack) == Err(TypeError);
    }
  }

  /** A freshly built tree offers the converted values of its first
      level, unless that level and all below it are empty. */
  lemma BuildOffers<R, V>(data: seq<seq<R>>, types: seq<R -> V>)
    requires data != [] && BuildDecisions(data, types).Ok?
    requires BuildDecisions(data, types).value != Leaf([])
    ensures types != []
    ensures Offer(BuildDecisions(data, types).value) == Ok(Convert(types[0], data[0]))
  {
    var t := BuildDecisions(data, types).value;
    var deeper := BuildDecisions(data[1..], if types == [] then [] else types[1..]);
    assert deeper.Ok? && types != [];
    var c := Convert(types[0], data[0]);
    if Truthy(deeper.value) {
      assert t == Branch([Group(c, deeper.value)]);
      assert ChoiceLists(t.groups) == [c];
      FlattenCons(c, []);
      assert [c] + [] == [c];
      assert AllChoices(t.groups) == c;
    } else {
      assert t == Leaf(c);
    }
  }

  /** On a freshly built tree, with the top level's group holding the
      algorithm's name, `decide(name)` offers the first argument's
      converted values, sorted. */
  lemma DecideFresh<R, V>(name: V, data: seq<seq<R>>, types: seq<R -> V>, less: (V, V) -> bool, unpack: V -> KapiError)
    requires data != [] && BuildDecisions(data, types).Ok?
    requires BuildDecisions(data, types).value != Leaf([])
    ensures types != []
    ensures Decision(Branch([Group([name], BuildDecisions(data, types).value)]), [name], less, unpack)
      == Ok(SortBy(Convert(types[0], data[0]), less))
  {
    var t := BuildDecisions(data, types).value;
    var top := Branch([Group([name], t)]);
    assert FirstGroup(top.groups, name) == Some(0);
    assert Reach(top, [name], unpack) == Reach(t, [], unpack);
    BuildOffers(data, types);
  }

  // ---------------------------------------------------------------------
  // _train

  /** One entry of `pattern`: None, or the comparison that tells which
      values lie on the failed value's side. */
  type Pattern<!V> = Option<(V, V) -> bool>

  /** The values v of s, in order, for which `f(v, a)` is `side`. */
  function Sift<V>(s: seq<V>, f: (V, V) -> bool, a: V, side: bool): seq<V>
    decreases |s|
  {
    if s == [] then []
    else Sift(s[..|s| - 1], f, a, side) + (if f(s[|s| - 1], a) == side then [s[|s| - 1]] else [])
  }

  /** The groups after the group i holding the failed value a is split:
      it is removed, the part that goes with a gets the retrained subtree
      `sub` and is appended, and the rest, if any, is appended with the
      original subtree. With a pattern, a's part is the values v with
      `pattern(v, a)` false; without one, it is a alone. */
  function Regrouped<V(==)>(gs: seq<Group<V>>, i: nat, a: V, p: Pattern<V>, sub: Tree<V>): seq<Group<V>>
    requires i < |gs| && a in gs[i].choices
  {
    RemoveAt(gs, i) + RegroupedParts(gs[i], a, p, sub)
  }

  /** `_train(args, pattern, decisions)`: None raises TypeError at
      `decisions[:]`, an empty pattern or argument list IndexError. When
      the failed value `args[0]` is a value of the flat list, the list
      keeps the values v with `pattern[0](v, args[0])`, or loses one copy
      of the failed value when there is no pattern. Otherwise the group
      holding it is split and the failed value's part retrained one level
      down; a level where no group holds it stays as it is. A ValueError
      is caught and gives back the level unchanged; the other exceptions
      propagate. */
  function Trained<V(==)>(args: seq<V>, pattern: seq<Pattern<V>>, t: Tree<V>, unpack: V -> KapiError)
    : Result<Tree<V>, KapiError>
    decreases |args|
  {
    var body :=
      if t.Nil? then Err(TypeError)
      else if pattern == [] || args == [] then Err(IndexError)
      else if t.Leaf? && args[0] in t.values then
        match pattern[0]
        case Some(f) => Ok(Leaf(Sift(t.values, f, args[0], true)))
        case None => Ok(Leaf(RemoveFirst(t.values, args[0])))
      else match Lookup(t, args[0], unpack)
        case Err(e) => Err(e)
        case Ok(None) => Ok(t)
        case Ok(Some(i)) =>
          match Trained(args[1..], pattern[1..], t.groups[i].options, unpack)
          case Err(e) => Err(e)
          case Ok(sub) => Ok(Branch(Regrouped(t.groups, i, args[0], pattern[0], sub)));
    if body == Err(ValueError) then Ok(t) else body
  }

  /** The loop `for arg in decisions: if not pattern(arg, a):
      result.remove(arg)` over a copy of the flat list. */
  method KeepMatching<V(==)>(vs: seq<V>, a: V, f: (V, V) -> bool) returns (result: seq<V>)
    ensures result == Sift(vs, f, a, true)
  {
    result := vs;
    for k := 0 to |vs|
      invariant result == Sift(vs[..k], f, a, true) + vs[k..]
    {
      KeepStep(vs, f, a, k, result);
      if !f(vs[k], a) {
        result := RemoveFirst(result, vs[k]);
      }
    }
    assert vs[..|vs|] == vs;
  }

  /** One pass of the loop in `KeepMatching`: a value that fails the test
      is present, and removing its first copy drops exactly it. */
  lemma KeepStep<V>(vs: seq<V>, f: (V, V) -> bool, a: V, k: nat, result: seq<V>)
    requires k < |vs| && result == Sift(vs[..k], f, a, true) + vs[k..]
    ensures !f(vs[k], a) ==> (vs[k] in result &&
      RemoveFirst(result, vs[k]) == Sift(vs[..k + 1], f, a, true) + vs[k + 1..])
    ensures f(vs[k], a) ==> result == Sift(vs[..k + 1], f, a, true) + vs[k + 1..]
  {
    SiftStep(vs, f, a, true, k);
    SplitAt(vs, k);
    if !f(vs[k], a) {
      KeepDrop(vs, f, a, k, Sift(vs[..k], f, a, true));
    } else {
      var kept := Sift(vs[..k], f, a, true);
      assert kept + ([vs[k]] + vs[k + 1..]) == (kept + [vs[k]]) + vs[k + 1..];
    }
  }

  lemma KeepDrop<V>(vs: seq<V>, f: (V, V) -> bool, a: V, k: nat, kept: seq<V>)
    requires k < |vs| && !f(vs[k], a) && kept == Sift(vs[..k], f, a, true)
    ensures vs[k] in kept + vs[k..]
    ensures RemoveFirst(kept + vs[k..], vs[k]) == kept + vs[k + 1..]
  {
    SiftSide(vs[..k], f, a, true);
    SplitAt(vs, k);
    RemoveFirstAfter(kept, vs[k], vs[k + 1..]);
    assert kept + vs[k..] == kept + [vs[k]] + vs[k + 1..];
  }

  /** One more value of s goes to its side of the test. */
  lemma SiftStep<V>(s: seq<V>, f: (V, V) -> bool, a: V, side: bool, k: nat)
    requires k < |s|
    ensures Sift(s[..k + 1], f, a, side) ==
      Sift(s[..k], f, a, side) + (if f(s[k], a) == side then [s[k]] else [])
  {
    assert s[..k + 1][..k] == s[..k];
  }

  /** The rest of s from position k starts with s[k]. */
  lemma SplitAt<V>(s: seq<V>, k: nat)
    requires k < |s|
    ensures s[k..] == [s[k]] + s[k + 1..]
  {
  }

  /** `x.remove(v)` on a list whose entries before a copy of v are all
      different from it drops exactly that copy. */
  lemma RemoveFirstAfter<V>(front: seq<V>, v: V, back: seq<V>)
    requires v !in front
    ensures v in front + [v] + back
    ensures RemoveFirst(front + [v] + back, v) == front + back
  {
    var s := front + [v] + back;
    assert s[|front|] == v;
    assert IndexOf(s, v) == |front|;
    assert s[..|front|] == front && s[|front| + 1..] == back;
  }

  /** The loop that deals the group's choices into `low` and `high`. */
  method Divide<V>(choices: seq<V>, a: V, f: (V, V) -> bool) returns (low: seq<V>, high: seq<V>)
    ensures low == Sift(choices, f, a, true)
    ensures high == Sift(choices, f, a, false)
  {
    low, high := [], [];
    for k := 0 to |choices|
      invariant low == Sift(choices[..k], f, a, true)
      invariant high == Sift(choices[..k], f, a, false)
    {
      assert choices[..k + 1][..k] == choices[..k];
      if f(choices[k], a) {
        low := low + [choices[k]];
      } else {
        high := high + [choices[k]];
      }
    }
    assert choices[..|choices|] == choices;
  }

  /** `_train`, on a copy of the level: the flat list is filtered or loses
      the failed value; a level of groups is handled by `TrainGroups`. */
  method Train<V(==)>(args: seq<V>, pattern: seq<Pattern<V>>, decisions: Tree<V>, unpack: V -> KapiError)
      returns (r: Result<Tree<V>, KapiError>)
    ensures r == Trained(args, pattern, decisions, unpack)
    decreases |args|, 1
  {
    if decisions.Nil? {
      return Err(TypeError);
    }
    if pattern == [] || args == [] {
      return Err(IndexError);
    }
    var a := args[0];
    match decisions
    case Leaf(vs) =>
      if a in vs {
        var result := vs;
        match pattern[0] {
          case Some(f) =>
            result := KeepMatching(vs, a, f);
          case None =>
            result := RemoveFirst(result, a);
        }
        return Ok(Leaf(result));
      }
      if vs != [] {
        var e := unpack(vs[0]);
        if e == ValueError {
          return Ok(decisions);
        }
        return Err(e);
      }
      return Ok(decisions);
    case Branch(gs) =>
      r := TrainGroups(args, pattern, gs, unpack);
  }

  /** `_train` at a level of groups: the group holding the failed value is
      removed with `result.remove((choices, options))`, and its parts are
      appended. */
  method TrainGroups<V(==)>(args: seq<V>, pattern: seq<Pattern<V>>, gs: seq<Group<V>>, unpack: V -> KapiError)
      returns (r: Result<Tree<V>, KapiError>)
    requires args != [] && pattern != []
    ensures r == Trained(args, pattern, Branch(gs), unpack)
    decreases |args|, 0
  {
    var a := args[0];
    var found := ScanGroups(gs, a);
    if found.None? {
      return Ok(Branch(gs));
    }
    var i := found.value;
    var g := gs[i];
    GroupFirst(gs, i, a);
    var result := RemoveFirst(gs, g);
    var sub := Train(args[1..], pattern[1..], g.options, unpack);
    if sub.Err? {
      if sub.error == ValueError {
        return Ok(Branch(gs));
      }
      return Err(sub.error);
    }
    var parts := Parts(g, a, pattern[0], sub.value);
    result := result + parts;
    assert result == Regrouped(gs, i, a, pattern[0], sub.value);
    return Ok(Branch(result));
  }

  /** The groups the split group becomes, built as the source builds
      them: with a pattern, the values on each side of the test; without
      one, the failed value alone and the group's other choices after
      `choices.remove`. */
  method Parts<V(==)>(g: Group<V>, a: V, p: Pattern<V>, sub: Tree<V>) returns (parts: seq<Group<V>>)
    requires a in g.choices
    ensures parts == RegroupedParts(g, a, p, sub)
  {
    match p
    case Some(f) =>
      var low, high := Divide(g.choices, a, f);
      parts := [Group(high, sub)];
      if low != [] {
        parts := parts + [Group(low, g.options)];
      }
    case None =>
      parts := [Group([a], sub)];
      var rest := RemoveFirst(g.choices, a);
      if rest != [] {
        parts := parts + [Group(rest, g.options)];
      }
  }

  /** The first group holding a is the first group equal to it, so
      `result.remove((choices, options))` removes that very group. */
  lemma GroupFirst<V>(gs: seq<Group<V>>, i: nat, a: V)
    requires i < |gs| && a in gs[i].choices
    requires forall j :: 0 <= j < i ==> a !in gs[j].choices
    ensures gs[i] in gs && RemoveFirst(gs, gs[i]) == RemoveAt(gs, i)
  {
    assert forall j :: 0 <= j < i ==> gs[j] != gs[i];
    assert IndexOf(gs, gs[i]) == i;
  }

  /** A value on the other side of the test is not kept on this side. */
  lemma {:induction false} SiftSide<V>(s: seq<V>, f: (V, V) -> bool, a: V, side: bool)
    ensures forall v :: v in Sift(s, f, a, side) ==> v in s && f(v, a) == side
    decreases |s|
  {
    if s != [] {
      SiftSide(s[..|s| - 1], f, a, side);
    }
  }

  /** The two sides of the test together hold every value, as often as s
      does. */
  lemma {:induction false} SiftSplits<V>(s: seq<V>, f: (V, V) -> bool, a: V)
    ensures multiset(Sift(s, f, a, true)) + multiset(Sift(s, f, a, false)) == multiset(s)
    decreases |s|
  {
    if s != [] {
      var init := s[..|s| - 1];
      SiftSplits(init, f, a);
      assert s == init + [s[|s| - 1]];
    }
  }

  /** A value on its side of the test is kept as often as s holds it. */
  lemma {:induction false} SiftCount<V>(s: seq<V>, f: (V, V) -> bool, a: V, side: bool, v: V)
    ensures multiset(Sift(s, f, a, side))[v] == if f(v, a) == side then multiset(s)[v] else 0
    decreases |s|
  {
    if s != [] {
      var init := s[..|s| - 1];
      SiftCount(init, f, a, side, v);
      assert s == init + [s[|s| - 1]];
    }
  }

  /** At a flat list that holds the failed value, `_train` keeps exactly
      the values v with `pattern(v, failed)`, each as often as before; with
      no pattern it removes the failed value once. */
  lemma TrainLeaf<V>(args: seq<V>, pattern: seq<Pattern<V>>, vs: seq<V>, unpack: V -> KapiError)
    requires args != [] && pattern != [] && args[0] in vs
    ensures Trained(args, pattern, Leaf(vs), unpack).Ok?
    ensures Trained(args, pattern, Leaf(vs), unpack).value.Leaf?
    ensures pattern[0].Some? ==> forall v ::
      multiset(Trained(args, pattern, Leaf(vs), unpack).value.values)[v]
        == if pattern[0].value(v, args[0]) then multiset(vs)[v] else 0
    ensures pattern[0].None? ==>
      multiset(Trained(args, pattern, Leaf(vs), unpack).value.values) == multiset(vs) - multiset{args[0]}
  {
    if pattern[0].Some? {
      forall v ensures multiset(Trained(args, pattern, Leaf(vs), unpack).value.values)[v]
          == if pattern[0].value(v, args[0]) then multiset(vs)[v] else 0 {
        SiftCount(vs, pattern[0].value, args[0], true, v);
      }
    }
  }

  /** `_train` never lets a ValueError out. A flat list that does not hold
      the failed value comes back unchanged when unpacking its first value
      raises ValueError; when it raises TypeError, that error gets out. */
  lemma TrainCatches<V>(args: seq<V>, pattern: seq<Pattern<V>>, t: Tree<V>, unpack: V -> KapiError)
    ensures Trained(args, pattern, t, unpack) != Err(ValueError)
    ensures (t.Leaf? && t.values != [] && args != [] && pattern != [] && args[0] !in t.values &&
        unpack(t.values[0]) == ValueError) ==> Trained(args, pattern, t, unpack) == Ok(t)
    ensures (t.Leaf? && t.values != [] && args != [] && pattern != [] && args[0] !in t.values &&
        unpack(t.values[0]) == TypeError) ==> Trained(args, pattern, t, unpack) == Err(TypeError)
  {
  }

  /** A level where no group holds the failed value stays as it is. */
  lemma TrainUnknown<V>(args: seq<V>, pattern: seq<Pattern<V>>, gs: seq<Group<V>>, unpack: V -> KapiError)
    requires args != [] && pattern != []
    requires forall g :: g in gs ==> args[0] !in g.choices
    ensures Trained(args, pattern, Branch(gs), unpack) == Ok(Branch(gs))
  {
  }

  /** The choice lists of concatenated groups are concatenated. */
  lemma ChoiceListsConcat<V>(xs: seq<Group<V>>, ys: seq<Group<V>>)
    ensures ChoiceLists(xs + ys) == ChoiceLists(xs) + ChoiceLists(ys)
  {
  }

  /** Removing a group removes its choice list. */
  lemma ChoiceListsRemoveAt<V>(gs: seq<Group<V>>, i: nat)
    requires i < |gs|
    ensures ChoiceLists(RemoveAt(gs, i)) == RemoveAt(ChoiceLists(gs), i)
  {
  }

  /** Appending groups adds their choices. */
  lemma AllChoicesAppend<V>(gs: seq<Group<V>>, more: seq<Group<V>>)
    ensures multiset(AllChoices(gs + more)) == multiset(AllChoices(gs)) + multiset(AllChoices(more))
  {
    ChoiceListsConcat(gs, more);
    FlattenConcat(ChoiceLists(gs), ChoiceLists(more));
  }

  /** Splitting group i into parts whose choices together are its choices
      keeps every choice of the level. */
  lemma SplitKeepsChoices<V>(gs: seq<Group<V>>, i: nat, parts: seq<Group<V>>)
    requires i < |gs|
    requires multiset(AllChoices(parts)) == multiset(gs[i].choices)
    ensures multiset(AllChoices(RemoveAt(gs, i) + parts)) == multiset(AllChoices(gs))
  {
    AllChoicesAppend(RemoveAt(gs, i), parts);
    ChoiceListsRemoveAt(gs, i);
    FlattenRemoveAt(ChoiceLists(gs), i);
  }

  /** The choices of one or two groups. */
  lemma PartsChoices<V>(x: Group<V>, more: seq<Group<V>>)
    requires |more| <= 1
    ensures multiset(AllChoices([x] + more)) ==
      multiset(x.choices) + (if more == [] then multiset{} else multiset(more[0].choices))
  {
    if more == [] {
      assert ChoiceLists([x] + more) == [x.choices];
      FlattenCons(x.choices, []);
    } else {
      assert ChoiceLists([x] + more) == [x.choices] + [more[0].choices];
      FlattenCons(x.choices, [more[0].choices]);
      FlattenCons(more[0].choices, []);
    }
  }

  /** Splitting the group that holds the failed value loses no choice: the
      level's choices are the same values, as often as before. */
  lemma RegroupedKeepsChoices<V>(gs: seq<Group<V>>, i: nat, a: V, p: Pattern<V>, sub: Tree<V>)
    requires i < |gs| && a in gs[i].choices
    ensures multiset(AllChoices(Regrouped(gs, i, a, p, sub))) == multiset(AllChoices(gs))
  {
    var g := gs[i];
    var parts := RegroupedParts(g, a, p, sub);
    assert Regrouped(gs, i, a, p, sub) == RemoveAt(gs, i) + parts;
    PartsKeepChoices(g, a, p, sub);
    SplitKeepsChoices(gs, i, parts);
  }

  /** The groups the split group becomes. */
  function RegroupedParts<V(==)>(g: Group<V>, a: V, p: Pattern<V>, sub: Tree<V>): seq<Group<V>>
    requires a in g.choices
  {
    match p
    case Some(f) =>
      var low := Sift(g.choices, f, a, true);
      [Group(Sift(g.choices, f, a, false), sub)] + (if low != [] then [Group(low, g.options)] else [])
    case None =>
      var rest := RemoveFirst(g.choices, a);
      [Group([a], sub)] + (if rest != [] then [Group(rest, g.options)] else [])
  }

  /** The parts of a split group hold its choices. */
  lemma PartsKeepChoices<V>(g: Group<V>, a: V, p: Pattern<V>, sub: Tree<V>)
    requires a in g.choices
    ensures multiset(AllChoices(RegroupedParts(g, a, p, sub))) == multiset(g.choices)
  {
    match p
    case Some(f) =>
      var low := Sift(g.choices, f, a, true);
      SiftSplits(g.choices, f, a);
      PartsChoices(Group(Sift(g.choices, f, a, false), sub), if low != [] then [Group(low, g.options)] else []);
    case None =>
      var rest := RemoveFirst(g.choices, a);
      PartsChoices(Group([a], sub), if rest != [] then [Group(rest, g.options)] else []);
  }

  /** `_train` at a level of groups loses no choice value. */
  lemma TrainKeepsChoices<V>(args: seq<V>, pattern: seq<Pattern<V>>, gs: seq<Group<V>>, unpack: V -> KapiError)
    requires Trained(args, pattern, Branch(gs), unpack).Ok?
    ensures Trained(args, pattern, Branch(gs), unpack).value.Branch?
    ensures multiset(AllChoices(Trained(args, pattern, Branch(gs), unpack).value.groups)) == multiset(AllChoices(gs))
  {
    var f := FirstGroup(gs, args[0]);
    if f.Some? && Trained(args[1..], pattern[1..], gs[f.value].options, unpack).Ok? {
      RegroupedKeepsChoices(gs, f.value, args[0], pattern[0], Trained(args[1..], pattern[1..], gs[f.value].options, unpack).value);
    }
  }

  /** `_train` at a level of groups whose group i is the first to hold the
      failed value retrains that group's subtree and regroups the level. */
  lemma TrainRegroups<V>(args: seq<V>, pattern: seq<Pattern<V>>, gs: seq<Group<V>>, i: nat, unpack: V -> KapiError)
    requires args != [] && pattern != []
    requires FirstGroup(gs, args[0]) == Some(i)
    requires Trained(args, pattern, Branch(gs), unpack).Ok?
    ensures Trained(args[1..], pattern[1..], gs[i].options, unpack).Ok?
    ensures Trained(args, pattern, Branch(gs), unpack) ==
      Ok(Branch(Regrouped(gs, i, args[0], pattern[0], Trained(args[1..], pattern[1..], gs[i].options, unpack).value)))
  {
  }

  /** The regrouped level: the group holding the failed value is taken
      out, the other groups stay in order, the part that goes with the
      failed value follows them with the retrained subtree, and the part
      that does not, if any, comes last with the original subtree. The
      failed value itself is in the retrained part unless the pattern puts
      it on its own side. */
  lemma RegroupedShape<V>(gs: seq<Group<V>>, i: nat, a: V, p: Pattern<V>, sub: Tree<V>)
    requires i < |gs| && a in gs[i].choices
    ensures var r := Regrouped(gs, i, a, p, sub);
      |gs| <= |r| <= |gs| + 1 &&
      r[..|gs| - 1] == RemoveAt(gs, i) &&
      r[|gs| - 1].options == sub &&
      ((p.None? || !p.value(a, a)) ==> a in r[|gs| - 1].choices) &&
      (|r| == |gs| + 1 ==> r[|gs|].options == gs[i].options)
  {
    var g := gs[i];
    var parts := RegroupedParts(g, a, p, sub);
    var r := RemoveAt(gs, i) + parts;
    assert r[..|gs| - 1] == RemoveAt(gs, i);
    assert r[|gs| - 1] == parts[0];
    if p.Some? && !p.value(a, a) {
      SiftHas(g.choices, p.value, a, false, a);
    }
  }

  /** A value of s on the given side of the test is kept. */
  lemma {:induction false} SiftHas<V>(s: seq<V>, f: (V, V) -> bool, a: V, side: bool, v: V)
    requires v in s && f(v, a) == side
    ensures v in Sift(s, f, a, side)
    decreases |s|
  {
    var init := s[..|s| - 1];
    if s[|s| - 1] != v {
      assert v in init;
      SiftHas(init, f, a, side, v);
    }
  }

  /** Training on `[3]` with pattern `[None]` removes one 3 from a flat
      list. */
  lemma TrainExample(unpack: int -> KapiError)
    ensures Trained([3], [None], Leaf([1, 3, 2, 3]), unpack) == Ok(Leaf([1, 2, 3]))
  {
    assert IndexOf([1, 3, 2, 3], 3) == 1;
    assert [1, 3, 2, 3][..1] + [1, 3, 2, 3][2..] == [1, 2, 3];
  }
}
