# kcenter core, modelled in Dafny

This project models the algorithmic core of the kcenter repository: k-center clustering of points and graph nodes, the graph helpers around it, two list utilities, and the demo server's argument validation and suggestion tree.

Each Python source file maps to one or two Dafny modules:

- `GeometryKCenter` (geometry_kcenter.dfy) covers the geometric `objective` and the deterministic `gonzalez` farthest-point greedy.
  - `data` is kept as a list of entries (point, nearest center, distance).
  - The proofs show it always equals the pending list that a specification function computes from the chosen positions.
- `BranchAndBound` (branch_bound.dfy) covers Brandenberg and Roth's branch-and-bound `brandenberg_roth` and `solve`.
  - The search runs over an explicit stack of states.
  - Its loop invariant: every state on the stack is consistent (its clusters plus its remaining points are the input, as a multiset), the upper bounds never increase, and the recorded result lies within its recorded bound.
  - Termination uses the weight Σ (k+1)^|remaining| over the stack.
  - The function `Run` is the whole search: `Step` is one pass of the loop, made of `Settled` for a state without remaining points and `Expanded` otherwise. The loop method `Explore` is proved to compute `Run`, and `Answer` reads the result off it.
  - For k ≤ 0 the method returns EmptyClusters before the loop. The source fails the same way at `max(state.rho)` on the first state it pops.
- `Partitions` (partitions.dfy) covers `_iter_partitions`. The generator becomes the list of everything it yields.
- `GraphKCenter` and `LegacyGraphKCenter` (graph_kcenter.dfy) cover the graph `objective` and both `gonzalez` versions.
  - A missing path is +∞, via `ExtReal`.
  - With Bellman-Ford, the next center is the first node at the largest distance.
  - With A*, the selection is the strict `>` scan.
- `GraphOps` (graph_ops.dfy) covers `squared_graph`, `dominating_set` and `minimal_dominating_set`. It also has the 10-cycle facts from the package's tests.
- `Crossings` (crossings.dfy) covers `_ccw` and `edge_crossings`, over real coordinates.
- `Lists` (lists.dfy) covers `glue_together` and `split`.
- `Kapi` (kapi.dfy) covers `resolve_args` (identical in kapi.py and src/kapi.py, modelled once), `build_decisions`, `decide` and `_train`.
- `SeqUtil`, `ExtReal` and `Wrappers` hold the list built-ins (`del`, `remove`, `max` with a key), the extended reals and Option/Result.

Modelling choices:

- **Loops become loops.** Code that loops and mutates becomes a method with a loop.
  - Most such methods are proved equal to a specification function, and the properties are proved about that function. This holds for `gonzalez`, `brandenberg_roth` (through `Run`), the dominating-set searches, `glue_together`, `split`, `resolve_args`, `decide` and `_train`.
  - The `squared_graph` loops are not tied to a function. They are proved to keep an invariant on the working copy (`Keeps`), and each single write is stated exactly (`JoinPair`).
  - Python's exceptions become `Err` results.
- **External services become parameters.** Distances, miniball, the shortest-path searches and `networkx` are parameters.
  - The point distance is any non-negative function of two points.
  - miniball is an oracle returning a radius, a center and a relative error.
  - A* is a path-length function that returns None when there is no path.
  - Bellman-Ford is a map from nodes to their distances from a source.
  - The demo server's conversions and lookup tables are parameters of `Kapi`.
  - A node id's Python truth value (`if head:`) is a `falsy` predicate parameter.
- **Randomness is not modelled.** Every algorithm takes its deterministic start (`randomized=False`).

Three details of `brandenberg_roth` that the model follows as the code has them:

- The bound test at src/geometry/kcenter.py:114-115 only counts skipped states. It does not prune them.
- Clusters are tried in ascending distance order (src/geometry/kcenter.py:149), although the comment at src/geometry/kcenter.py:147 says descending. Python's `sorted` is stable, so ties keep index order; empty clusters are not preferred on ties.
- Only the first empty cluster in that order is branched into (src/geometry/kcenter.py:151-155).

## Model

| member | source | states |
|---|---|---|
| GeometryKCenter.Objective | src/geometry/kcenter.py:22-31 | 0 when points or centers are empty; otherwise no point is farther than the result from its nearest center, and some point is exactly that far |
| GeometryKCenter.NearestDistIsMin | src/geometry/kcenter.py:29 | the inner `min` over centers is below every center's distance and attained by one |
| GeometryKCenter.NearestIndex | src/geometry/kcenter.py:49-58 | the nearest center kept with each entry is a center at the nearest distance |
| GeometryKCenter.NearestIndexIsFirst | src/geometry/kcenter.py:55-58 | since an entry is rewritten only on a strictly closer center, the recorded center is the first nearest one |
| GeometryKCenter.NearestAppend | src/geometry/kcenter.py:55-58 | a new center replaces a point's distance and nearest center exactly when it is strictly closer |
| GeometryKCenter.Gonzalez | src/geometry/kcenter.py:34-60 | Err for no points (`points[0]`) and for 0 < len(points) < k (`max` of an empty range); otherwise exactly max(k, 1) centers forming a greedy run |
| GeometryKCenter.GreedyPositions | src/geometry/kcenter.py:48-59 | a greedy run starts with points[0] and every center is the point at its chosen position |
| GeometryKCenter.GreedyDistinct | src/geometry/kcenter.py:50-54 | no position is chosen twice, because chosen entries are deleted from `data` |
| GeometryKCenter.GreedyHistory | src/geometry/kcenter.py:51-54 | each center after the first is the first unchosen point at the largest nearest-center distance |
| GeometryKCenter.GreedyStep | src/geometry/kcenter.py:51-59 | appending the first farthest unchosen point extends a greedy run |
| GeometryKCenter.UpdateNearest | src/geometry/kcenter.py:55-58 | after the inner loop every entry holds its nearest distance and first nearest center among the centers plus the new one |
| GeometryKCenter.PendingInit | src/geometry/kcenter.py:49-50 | the list built before the loop, minus its first entry, is the pending list once points[0] is chosen |
| GeometryKCenter.PendingStep | src/geometry/kcenter.py:54-58 | deleting the farthest entry and updating the others gives the pending list for the extended choice |
| GeometryKCenter.FarthestIsFirstMax | src/geometry/kcenter.py:52 | Python's `max` with a key returns the first index of the largest distance |
| GeometryKCenter.FarthestIsFirstFarthest | src/geometry/kcenter.py:52-53 | the entry picked from the pending list is the first unchosen point farthest from the centers |
| GeometryKCenter.UnchosenRemove | src/geometry/kcenter.py:54 | `del data[furthest]` removes exactly the chosen position from the pending positions |
| BranchAndBound.Initial | src/geometry/kcenter.py:96-106 | the start state has k empty clusters, k radii, k centers, and every point remaining |
| BranchAndBound.InitialConsistent | src/geometry/kcenter.py:96-106 | the start state is consistent: clusters plus remaining points are the input as a multiset |
| BranchAndBound.FarthestRemaining | src/geometry/kcenter.py:129 | the chosen p is one of the remaining points |
| BranchAndBound.FarthestRemainingIsFarthest | src/geometry/kcenter.py:129 | no remaining point is farther from its nearest center than p |
| BranchAndBound.FarthestRemainingIsFirst | src/geometry/kcenter.py:129 | every remaining point listed before p is strictly nearer, as with Python's `max` |
| BranchAndBound.RemainingKeysAt | src/geometry/kcenter.py:129 | the key `objective([p], centers)` is p's nearest-center distance |
| BranchAndBound.DeltasAt | src/geometry/kcenter.py:130 | delta[i] is the distance from p to cluster i's center |
| BranchAndBound.AscendingPermutation | src/geometry/kcenter.py:149 | the branching order lists every cluster index exactly once |
| BranchAndBound.AscendingSorted | src/geometry/kcenter.py:149 | the order is ascending in delta, and ties keep index order (a stable sort) |
| BranchAndBound.AscendingBelow | src/geometry/kcenter.py:149 | the order names only cluster indices |
| BranchAndBound.SomeEmptyMeans | src/geometry/kcenter.py:148-155 | `empty_set` holds after j steps exactly when one of the first j clusters tried was empty |
| BranchAndBound.OnlyFirstEmpty | src/geometry/kcenter.py:148-155 | every non-empty cluster is tried; an empty one is tried only if it is the first empty one in the order |
| BranchAndBound.ChildConsistent | src/geometry/kcenter.py:158-170 | a child moves p out of the remaining points into cluster i and keeps the state consistent |
| BranchAndBound.FittingChildPushed | src/geometry/kcenter.py:172-178 | every tried child whose largest radius is within the inflated bound is pushed |
| BranchAndBound.KidsFacts | src/geometry/kcenter.py:158-178 | every pushed child is consistent, within the inflated bound, and has one fewer remaining point |
| BranchAndBound.BranchLighter | src/geometry/kcenter.py:109-178 | replacing a state by at most k children with one fewer remaining point lowers the stack's weight |
| BranchAndBound.Branch | src/geometry/kcenter.py:149-178 | the branching loop pushes exactly the fitting children of the tried clusters, in order |
| BranchAndBound.StateBound | src/geometry/kcenter.py:121-138 | with a sound ball oracle, a recorded state's centers are within its bound of every input point |
| BranchAndBound.CutoffCovers | src/geometry/kcenter.py:129-145 | a state cut off by the bound test is covered by max(delta_min, lower_bound) |
| BranchAndBound.TerminalBest | src/geometry/kcenter.py:118-126 | a state without remaining points tightens the upper bound and is recorded when it improves the result |
| BranchAndBound.CutoffBest | src/geometry/kcenter.py:135-145 | a cut-off state tightens the upper bound and is recorded when its objective improves the result |
| BranchAndBound.UpperNonIncreasing | src/geometry/kcenter.py:92-138 | the global upper bound starts at +∞ and never increases |
| BranchAndBound.NonIncreasingMeans | src/geometry/kcenter.py:121-138 | every later upper bound is at most every earlier one |
| BranchAndBound.BranchKeeps | src/geometry/kcenter.py:149-178 | branching keeps every stack state consistent and lowers the stack's weight |
| BranchAndBound.ExpandedKeeps | src/geometry/kcenter.py:128-178 | expanding a consistent state leaves a consistent, lighter stack and a finite upper bound no larger than before |
| BranchAndBound.Step | src/geometry/kcenter.py:109-178 | one pass of the loop keeps every stack state consistent, lowers the stack's weight and never raises the upper bound |
| BranchAndBound.Run | src/geometry/kcenter.py:109-178 | the loop run to the end empties the stack and never raises the upper bound |
| BranchAndBound.StepBest | src/geometry/kcenter.py:118-178 | one pass keeps the recorded state consistent, within its recorded upper bound, and that bound no better than the global one |
| BranchAndBound.RunBest | src/geometry/kcenter.py:109-178 | the whole search keeps the recorded state consistent and within its recorded upper bound |
| BranchAndBound.RunPass | src/geometry/kcenter.py:109-178 | after a pass that settles or expands the top state, the rest of the search is Run on the new stack, bound and result |
| BranchAndBound.SearchSound | src/geometry/kcenter.py:109-184 | the answer is Ok exactly when the search recorded a state; it is then that state's k centers, the state is consistent and within its recorded upper bound, which is no better than the final global bound; with a sound oracle the objective is within that bound |
| BranchAndBound.Settle | src/geometry/kcenter.py:118-126 | keeps the search invariant; the upper bound becomes min(upper, lower); the state is recorded with lower as both bounds when nothing is recorded or lower beats the recorded upper bound; the outcome is the pass Settled |
| BranchAndBound.Expand | src/geometry/kcenter.py:128-178 | keeps the search invariant and lowers the stack's weight; the upper bound becomes min(upper, max(delta_min, lower)); when (1 + epsilon) · lower exceeds it the stack is unchanged and the state is recorded with that bound if it beats the recorded one; otherwise the children are pushed in ascending delta order and the result stays; the outcome is the pass Expanded |
| BranchAndBound.Explore | src/geometry/kcenter.py:109-178 | the loop `while stack:` ends with the stack, bound and result that Run computes, and keeps the search invariant |
| BranchAndBound.BrandenbergRoth | src/geometry/kcenter.py:70-184 | returns Answer: EmptyClusters for k ≤ 0, NoResult when the search records nothing, otherwise the centers of the state the search records; `bound` is that state's recorded upper bound, and with a sound oracle the objective is within it; the bound history starts at +∞, never increases and ends at the search's final bound |
| BranchAndBound.Solve | src/geometry/kcenter.py:190-197 | returns Answer with epsilon 0; a result is k centers, `bound` is the recorded upper bound, and with a sound oracle the objective is within it |
| Partitions.PartitionCount | src/geometry/kcenter.py:199-206 | on non-empty points it yields k^n lists (none for k ≤ 0) |
| Partitions.PartitionsArePartitions | src/geometry/kcenter.py:199-206 | each yielded list has k parts, and together they hold exactly the points as a multiset |
| Partitions.PartitionsComplete | src/geometry/kcenter.py:199-206 | every assignment of points to the k parts is yielded |
| Partitions.AssignedPlaces | src/geometry/kcenter.py:204-206 | the partition of an assignment has k parts, with each point in its assigned part |
| Partitions.PlaceIsPartition | src/geometry/kcenter.py:204 | adding the first point to part i of a partition of the rest partitions all points |
| Partitions.SingleIsPartition | src/geometry/kcenter.py:206 | the one-point case yields a partition |
| Partitions.RowsLength | src/geometry/kcenter.py:201-206 | the loops over i and the sub-partitions yield k times as many lists |
| GraphKCenter.Distance | src/graph/kcenter.py:42-47 | +∞ exactly when there is no path; otherwise the path length |
| GraphKCenter.NearestIsMin | src/graph/kcenter.py:27 | the nearest-center distance is below every center's distance and attained by one |
| GraphKCenter.Dists | src/graph/kcenter.py:59-64 | one nearest-center distance per node, in node order |
| GraphKCenter.MaxExtIsMax | src/graph/kcenter.py:27 | the `max` over nodes bounds every node's distance and is attained |
| GraphKCenter.ObjectiveIsWorstNode | src/graph/kcenter.py:22-29 | +∞ for no centers; otherwise every node is within the objective of a center, and some node is exactly that far; unreachable nodes count as +∞ |
| GraphKCenter.FirstArgMaxExt | src/graph/kcenter.py:58-61 | Bellman-Ford selection: the first node at the largest distance |
| GraphKCenter.ScanFarthest | src/graph/kcenter.py:63-67 | the A* scan picks the first node whose distance exceeds 0 and every earlier one, and no later node is farther; none if no distance exceeds 0 |
| GraphKCenter.Gonzalez | src/graph/kcenter.py:32-72 | fails only on an empty graph; a greedy run from the first node of at most max(k, 1) centers; stopping early means no node was picked or the pick was falsy |
| GraphKCenter.GreedyStep | src/graph/kcenter.py:53-69 | appending the node the selection picks extends a greedy run |
| GraphKCenter.AStarRunDistinct | src/graph/kcenter.py:63-67 | with A* (a node is at distance 0 from itself) no center is appended twice |
| GraphKCenter.BellmanFordRepeatsCenter | src/graph/kcenter.py:56-69 | with Bellman-Ford, a one-node graph gets its node appended as a center again |
| LegacyGraphKCenter.Gonzalez | graph/kcenter.py:28-61 | the older A*-only version, with the same contract as the A* mode above |
| GraphOps.NeighborsAre | src/graph/__init__.py:21 | `graph.neighbors(node)` lists exactly the nodes joined to the node, each once |
| GraphOps.KeepsStart | src/graph/__init__.py:19 | the copy starts as the graph itself |
| GraphOps.KeepsUpdate | src/graph/__init__.py:22-25 | writing a lighter two-hop edge in both directions keeps the copy's invariant |
| GraphOps.KeepsMeans | src/graph/__init__.py:22-25 | every original edge survives at no more than its weight; lighter or new edges join two neighbours of one node |
| GraphOps.JoinPair | src/graph/__init__.py:22-25 | the node–a and node–b edges exist; a–b and b–a are set to w(node, a) + w(node, b) from the copy when the input graph lacks a–b or has it heavier, and the copy is otherwise unchanged; the invariant holds |
| GraphOps.JoinFrom | src/graph/__init__.py:21-25 | every pair (a, later neighbour) is joined in both directions, and the invariant holds |
| GraphOps.SquareAround | src/graph/__init__.py:21-25 | every two distinct neighbours of the node are joined, and the invariant holds |
| GraphOps.SquaredGraph | src/graph/__init__.py:12-26 | same nodes; two neighbours of a node are adjacent; original edges keep at most their weight and drop only for two-hop pairs; new edges are two-hop pairs |
| GraphOps.CombinationSound | src/graph/__init__.py:37 | every combination has `size` distinct nodes of the graph |
| GraphOps.CombinationsComplete | src/graph/__init__.py:37 | every set of `size` nodes appears among the combinations |
| GraphOps.DominatingSet | src/graph/__init__.py:29-39 | a result is the first dominating combination, of `size` distinct nodes; None means no set of that size dominates |
| GraphOps.MinimalDominatingSet | src/graph/__init__.py:42-54 | a dominating set of distinct nodes; no smaller node set dominates |
| GraphOps.CycleHasDominatingFour | src/graph/test_graph.py:15-19 | on the 10-cycle, {0, 3, 6, 8} dominates |
| GraphOps.CycleHasNoDominatingThree | src/graph/test_graph.py:20-21 | on the 10-cycle, no three nodes dominate |
| Crossings.Ccw | src/graph/__init__.py:57-80 | always 1, -1 or 0; 1 for a positive cross product and -1 for a negative one |
| Crossings.CcwZeroOnSegment | src/graph/__init__.py:74-80 | 0 exactly when c lies on the segment from a to b |
| Crossings.CcwSwap | src/graph/__init__.py:70-73 | for non-collinear points, swapping b and c negates the result |
| Crossings.CrossesEdgeMeans | src/graph/__init__.py:92-101 | True iff some edge avoiding x and y has its endpoints not strictly on one side of the line xy, and x and y not strictly on one side of the edge's line (touching and collinear count) |
| Crossings.CrossesAnyMeans | src/graph/__init__.py:102-105 | True iff the single-edge check succeeds for some edge |
| Crossings.EdgeCrossingsMeans | src/graph/__init__.py:83-106 | dispatches to the single-edge check when both x and y are given, otherwise to the whole-graph scan |
| Lists.FirstMatch | src/utils/lists.py:23-33 | the first way that starts or ends at the chain's end, with its direction; every earlier way matches neither |
| Lists.ScanWays | src/utils/lists.py:23-33 | the scan over `unmatched` finds FirstMatch |
| Lists.TailGlues | src/utils/lists.py:25-30 | the appended tail continues the chain with the way, or the reversed way, minus its shared end |
| Lists.GrowChain | src/utils/lists.py:21-39 | the inner loop computes Grow: the chain, the ways joined, and the ways left to later chains |
| Lists.GlueTogether | src/utils/lists.py:5-44 | the whole function computes Outcome |
| Lists.GrowShape | src/utils/lists.py:17-40 | the chain starts with its first way; its length is the first way's plus Σ(len(way) − 1) over the joined ways; nothing is left over without `unconnected` |
| Lists.GrowWays | src/utils/lists.py:17-40 | the joined ways plus the leftover ways are the unmatched ways, as a multiset |
| Lists.GlueWays | src/utils/lists.py:17-40 | every input way ends up in exactly one chain |
| Lists.GlueStarts | src/utils/lists.py:17-40 | each chain begins with its first way; without `unconnected` there is at most one chain |
| Lists.ConnectedOutcome | src/utils/lists.py:34-44 | without `unconnected`: [] for no lists, otherwise the single chain, with length len(first) + Σ(len(way) − 1) |
| Lists.UnconnectedOutcome | src/utils/lists.py:35-40 | with `unconnected`: a list of chains that together hold every input way once |
| Lists.UnconnectedNeverRaises | src/utils/lists.py:34-39 | with `unconnected`, 'Lists not connected.' is never raised |
| Lists.NonEmptyNeverIndexError | src/utils/lists.py:18-24 | with no empty list among the inputs, no IndexError arises |
| Lists.GlueExample | src/utils/test_lists.py:6-8 | glue_together([1,2,3],[3,4,5]) is [1,2,3,4,5] |
| Lists.Split | src/utils/lists.py:46-61 | the loops compute the transposition of the ragged lists |
| Lists.TransposedStep | src/utils/lists.py:56-60 | one outer iteration deals the next list's entries out to the columns |
| Lists.MaxLenIsMax | src/utils/lists.py:58-59 | the result has as many lists as the longest input list |
| Lists.ColumnHolds | src/utils/lists.py:57-60 | result[i] holds the i-th entry of each list long enough, and nothing else |
| Lists.SplitKeeps | src/utils/lists.py:55-61 | the total entries are preserved as a multiset, and so is their count |
| Lists.SplitExample | src/utils/test_lists.py:10-12 | split([[1,2],[1,2]]) is [[1,1],[2,2]] |
| Kapi.ResolveArgs | src/kapi.py:46-61 | the loop computes Resolution of the arguments |
| Kapi.ResolutionSucceeds | src/kapi.py:46-61 | success iff every position resolves; the output has one entry per argument, each the value its position resolves to |
| Kapi.ResolutionFailsAtFirst | src/kapi.py:50-60 | a failure is the error of the first argument that fails |
| Kapi.ResolutionFails | kapi.py:39-54 | once a prefix fails, the whole call fails with that error |
| Kapi.ResolvedMeans | kapi.py:47-51 | a value in a plain collection is kept, and a dict position yields the mapped value; conversion and membership are both required |
| Kapi.TooManyArguments | kapi.py:43-46 | more arguments than positions always fails, and fails with ValueError whenever every position has its allowed values |
| Kapi.OnlyValueError | kapi.py:39-54 | when every position has its allowed values, every failure is ValueError (the IndexError of a short `args` list cannot arise) |
| Kapi.BuildSucceeds | src/kapi.py:528-536 | succeeds iff there are at least as many types as data levels |
| Kapi.BuildLevels | src/kapi.py:528-536 | None for empty data; otherwise the tree's levels are the converted data, dropping only trailing empty levels |
| Kapi.FirstGroup | src/kapi.py:515-518 | the first group whose choices contain the argument, or none |
| Kapi.ScanGroups | src/kapi.py:515-518 | the scan finds FirstGroup |
| Kapi.Lookup | src/kapi.py:510-518 | on a branch, the index found is the first group whose choices hold the argument, and None means no group holds it; None as the level raises TypeError; an empty flat list is scanned without effect, a non-empty one fails on unpacking its first value |
| Kapi.Decide | src/kapi.py:508-525 | the loop computes Decision |
| Kapi.DecisionSorted | src/kapi.py:519-525 | the answer is sorted and is a permutation of the reached level's offers |
| Kapi.SortByMeans | src/kapi.py:523-525 | `sorted` yields a sorted permutation |
| Kapi.InsertKeeps | src/kapi.py:523-525 | insertion adds one copy of the value |
| Kapi.InsertSorted | src/kapi.py:523-525 | insertion keeps a list sorted |
| Kapi.ReachConcat | src/kapi.py:510-518 | walking the arguments in two parts equals walking them at once |
| Kapi.UnknownArgument | src/kapi.py:514-518 | an argument in no group leaves the level, and the answer, unchanged |
| Kapi.LeafValueFails | src/kapi.py:511-519 | an argument equal to a leaf value makes the call fail |
| Kapi.BuildOffers | src/kapi.py:519-536 | a built tree offers the converted first level |
| Kapi.DecideFresh | src/kapi.py:519-536 | deciding on a fresh tree's name offers its sorted first level |
| Kapi.KeepMatching | src/kapi.py:549-551 | the removal loop keeps exactly the leaf values the pattern accepts, in order |
| Kapi.Divide | src/kapi.py:557-561 | low and high are the choices the pattern accepts and rejects, in order |
| Kapi.SiftSide | src/kapi.py:549-561 | every value kept on a side comes from the input and the pattern puts it on that side |
| Kapi.SiftSplits | src/kapi.py:557-561 | low and high together are the choices, as a multiset |
| Kapi.SiftCount | src/kapi.py:549-561 | each value keeps its count on its side and is absent from the other |
| Kapi.SiftHas | src/kapi.py:549-561 | a value the pattern puts on a side is kept there |
| Kapi.Parts | src/kapi.py:562-578 | the groups appended for the split group are RegroupedParts |
| Kapi.Train | src/kapi.py:544-581 | the method computes Trained |
| Kapi.TrainGroups | src/kapi.py:553-578 | the branch case computes Trained on a branch |
| Kapi.GroupFirst | src/kapi.py:562-573 | `result.remove((choices, options))` removes the first matching group, which always exists |
| Kapi.TrainLeaf | src/kapi.py:547-569 | at a leaf: with a pattern keeps exactly the accepted values; without one removes the first copy of the failed value |
| Kapi.TrainCatches | src/kapi.py:547-581 | _train never surfaces a ValueError; a leaf without the failed value comes back unchanged when unpacking its first value raises ValueError, and the call fails with TypeError when that raises TypeError |
| Kapi.TrainUnknown | src/kapi.py:553-572 | an argument in no group returns the groups unchanged |
| Kapi.TrainKeepsChoices | src/kapi.py:553-578 | training a branch loses and duplicates no choice value |
| Kapi.RegroupedKeepsChoices | src/kapi.py:562-578 | regrouping keeps the choices as a multiset |
| Kapi.PartsKeepChoices | src/kapi.py:556-577 | the split parts hold exactly the split group's choices |
| Kapi.TrainRegroups | src/kapi.py:553-578 | a trained branch is the regrouping of the first matching group around the retrained subtree |
| Kapi.RegroupedShape | src/kapi.py:562-578 | the other groups keep their order; the failed value's part holds the retrained subtree; the rest keeps the old options |
| Kapi.TrainExample | src/kapi.py:567-569 | without a pattern, training [1,3,2,3] on 3 removes the first 3 only |
| SeqUtil.RemoveFirst | src/kapi.py:551 | `list.remove` drops one copy of the value |
| SeqUtil.FirstArgMax | src/geometry/kcenter.py:52 | the first index of the largest key |
| SeqUtil.MaxOfIsMax | src/geometry/kcenter.py:112 | `max(rho)` is an entry and bounds every entry |
| SeqUtil.MinOfIsMin | src/geometry/kcenter.py:132 | `min(delta.values())` is an entry and is below every entry |
| SeqUtil.RemoveAtMultiset | src/geometry/kcenter.py:54 | `del data[i]` takes out one copy of data[i] |
| SeqUtil.FlattenRemoveAt | src/kapi.py:562-573 | removing a group takes exactly its choices out of the concatenation |

## Left out

- The web and server layer is not modelled: tornado handlers, the task pool, timeouts, `hash_args`, plotting, `nearest_center` and module-level instance loading.
- `ilhan_pinar`, `sample_approximation`, `hochbaum_shmoys`, both `brute_force` functions, `add_missing_edges`, the grid approximation and the random instance generators are not modelled. They rely on LP solvers, randomized networkx routines, shapely or floating-point stepping.
- Randomized starts (`random.choice`) are not modelled. So the quirk that randomized geometric `gonzalez` deletes `data[0]`, not the random pick, is not represented.
- Floating point is not modelled. Distances and coordinates are exact reals, and `math.sqrt` sits inside the distance parameter.
- miniball internals, A*, Bellman-Ford and the A* heuristic are oracles given as parameters.
- The instrumentation in `brandenberg_roth` is left out: recursion depth, `uid`, warnings and logging. It does not affect results.
- The `print(options)` call in `_train` is left out.
- The global assignment in `train` is not modelled. `Kapi.Train` returns the new tree instead.
- `_train`'s `deepcopy` and its in-place `choices.remove` are modelled on values. The mutation of the shared list cannot be observed, since no ValueError can follow it.
- The conversions in `build_decisions` are assumed to succeed, because they are total functions in the model.
- Leaf values that unpack as pairs in `_train`'s `for choices, options in decisions`, and in the same loop of `decide` (`Kapi.Lookup`), are not modelled. An unpack failure is a parameter mapping the value to its exception.
- `sorted` in `decide` is a stable insertion sort over a `less` parameter. Its sortedness and permutation are proved for every strict partial order (irreflexive and transitive `less`). That it returns exactly what Python's `sorted` returns, for strict weak orders, is not proved.
- GraphKCenter.Objective: uses Bellman-Ford distances only. The A*-based `distance` is the separate `GraphKCenter.Distance`.
- GraphOps.SquaredGraph: neighbours are taken in node order. The symmetry of the result is not stated. The weight of a new or lowered edge is not stated either: it is the two-hop sum read from the working copy when it is written, and a later write through another node may replace it, even with a heavier sum, because the test compares with the input graph. `GraphOps.JoinPair` states each single write exactly.
- BranchAndBound.BrandenbergRoth: optimality is not proved. The model proves that a result is the state the search records, that it is consistent and within its recorded upper bound, and that with a sound oracle its objective is within that bound. It does not prove that bound within a factor 1 + epsilon of the optimum: that needs an exact oracle and a proof that the bound test never discards every assignment leading to an optimal one.
- BranchAndBound.Solve: as for BrandenbergRoth, the objective is not proved optimal.
- GraphOps.DominatingSet: the size is a `nat`. A negative `size` (for which `itertools.combinations` raises) is not modelled.
- GraphOps.MinimalDominatingSet: requires a non-empty graph, because on an empty graph the source loops forever.
- Crossings.Ccw: covers real coordinates only. The `None` return for incomparable values (NaN) cannot arise.
- The older graph/kcenter.py `objective` is the same code as src/graph/kcenter.py's and is modelled once, as `GraphKCenter.Objective`.
