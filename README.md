# A* route finding over the Eve Online map — a Dafny model

This project models the core of a route finder for the Eve Online star map, adds the properties that core
promises, and proves them in Dafny:

- a generic A* search (`astar`), with its three error outcomes;
- the two containers it runs over: a priority open list without deduplication and a fixed-capacity
  closed list with `unwind`;
- the compact map it searches:
  - solar systems stored densely, indexed by a 16-bit `SolarSystemIndex`;
  - neighbour sets stored inline (up to three) or in a vector;
  - the index-building half of `Map::new`, and the getters;
- the path-based classification in `parse` of the static data export's files.

Modules, one concept each:

| module | file | models |
|---|---|---|
| `Wrappers` | wrappers.dfy | `Option` / `Result` |
| `AStar` | astar.dfy | `ClosedListState`, `OpenItem` and its `Ord`/`PartialEq`, `AStarError`, and a step-by-step specification of the search loop: `Relax` → `Expand` → `Step` → `Continues`/`IsRun`. It also holds the back-link forest invariant and the specification of `unwind` (`IsUnwinding`). |
| `AStarDriver` | driver.dfy | the `astar` loop itself, imperative over the two concrete containers, proved against `IsRun` |
| `SimpleOpen` | simpleopen.dfy | `SimpleOpenList`: a class whose `BinaryHeap` field is a `multiset<OpenItem>` |
| `SimpleClosed` | simpleclosed.dfy | `SimpleClosed`: a class over an `array<ClosedListState>`, with the inherited `unwind` as a method |
| `EveMap` | evemap.dfy | `Neighbours`, `from_iter`, `get_neighbours`, `Map` and its getters, and the map invariant `Valid` |
| `KeySort` | sorting.dfy | `sort_unstable_by_key` as an in-place array sort, proved sorted and a permutation |
| `MapBuild` | mapbuild.dfy | `Map::new` after parsing: the name table, the system tables, sorting, the id→index lookup, the gate table and the once-only neighbour sets |
| `MapParse` | parse.dfy | `str::rsplitn` and `parse` on an already decoded record |
| `Scenarios` | scenarios.dfy | a worked three-node search, seeded the way `src/main.rs` seeds its search |

The search is specified as relations on values. A `SearchState` is the closed list as a sequence plus
the open list as a multiset. `Step` is one iteration of the `while let` loop. `Expand` is the inner loop
over a node's edges, written as a left fold. `IsRun(p, states, pops, r)` says that `states` is the
sequence of states between pops, `pops` the items popped, and `r` the result.

`AStarDriver.Search` is the imperative loop over a `SimpleOpenList` and a `SimpleClosed`. Its contract
is that the states it passes through (kept as ghost outputs) form a run with its result. Every property
of the search is then a lemma about `IsRun`: where it stops, what it writes, and that the back-links
stay a forest.

Costs are unbounded integers and nodes are natural numbers (the offsets the closed list is indexed
by). The `Problem` datatype carries the three closures `astar` takes: `is_goal`, `heuristic` and
`neighbours`.

### Behaviour of the code worth knowing

- **A cheaper path found after a node is labelled is an error, not a relaxation.** When a neighbour is
  already `PathFrom` at a higher cost than the new candidate, the loop returns
  `Err(FoundHigherCostPath)` and never relabels it (src/astar.rs:91-94). On the graph A–B (1),
  B–C (1), A–C (5) with a zero heuristic, expanding A labels C as `PathFrom(A, 5)`; expanding B then
  finds the candidate 2 for C, and the search returns that error.
  - `Scenarios.TriangleRuns` proves this for every A–C cost `ac`: the outcome is `FoundHigherCostPath`
    exactly when `ac > 2`. Otherwise the result is `Ok(C)`, and C unwinds to [A, C].
- **`OpenItem` equality compares the node only**, not the priority (src/astar.rs:116-120). Ordering
  compares the heuristic only, reversed. So `==` and `cmp` disagree on items of one node with different
  estimates. `AStar.OpenItemOrderLaws` states both facts and exhibits such a pair.
- **`OpenItemNotInClosedList` cannot happen under correct seeding.** When every item in the open list
  is for a labelled node, as `main` seeds it (src/main.rs:86-90), no run returns that error, and the
  node of an `Ok` is labelled, so its unwinding starts at a `StartingPoint`
  (`AStar.RunSeededCorrectly`, `AStar.RunUnwindsToStart`).
- **`Map::new` panics on an unknown gate system or destination.** It indexes
  `solarsystem_lookup[ssid]` and `stargate_id_to_system_id[..]` with `[]` (src/evemap.rs:192, 199, 203),
  so an unknown key panics. The model makes these keys a precondition (`MapBuild.GatesResolve`).
  It returns errors only for the cases the code returns them (`MapBuild.MapError`).

## Model

| member | source | states |
|---|---|---|
| AStar.Compare | src/astar.rs:122-133 | `Greater` exactly when the first heuristic is smaller, `Less` exactly when it is larger, `Equal` when the heuristics are equal; the node plays no part |
| AStar.OpenItemOrderLaws | src/astar.rs:114-133 | the ordering is antisymmetric (reversing the arguments reverses the result), transitive, and ignores nodes; equality ignores heuristics; equal-and-`Equal` holds exactly for identical items; one node with two estimates is `==` yet compares `Greater` |
| AStar.Relax | src/astar.rs:91-96 | the neighbour match: `Label` exactly for `Unvisited`; `Conflict` exactly for a `PathFrom` dearer than the candidate; `Skip` exactly for a `StartingPoint` or a `PathFrom` no dearer than the candidate |
| AStar.ItemEq | src/astar.rs:116-120 | no contract of its own: `PartialEq` as the nodes alone; its laws are in `OpenItemOrderLaws` |
| AStar.Expand | src/astar.rs:88-106 | its own contract says only that the closed list keeps its length; what the edge loop does is stated by the `Expand*` lemmas below |
| AStar.ExpandRelaxes | src/astar.rs:88-106 | the edge loop finishes without conflict exactly when every edge's neighbour, in the final closed list, is one `Relax` skips; and when it stops with a conflict, some edge's neighbour is a `Conflict` |
| AStar.ExpandLabelsFirstCandidate | src/astar.rs:88-99 | every entry the edge loop changes becomes exactly `PathFrom(current, edge + current_cost)` for the first edge to that node |
| AStar.ExpandPushes | src/astar.rs:99-105 | each pushed item is for a node that was `Unvisited`, is now `PathFrom`, and has heuristic `cost + h(node)`; every changed entry has a pushed item; no node is pushed twice by one expansion |
| AStar.ExpandChangesOnlyUnvisited | src/astar.rs:91-99 | an entry the edge loop changes was `Unvisited` and becomes a `PathFrom` whose predecessor is the current node; others keep their state |
| AStar.ExpandUsesUnvisited | src/astar.rs:95-105 | each push uses up exactly one `Unvisited` entry |
| AStar.ExpandStopsAtConflict | src/astar.rs:94 | once an edge conflicts, the rest of the edges change nothing (the loop has returned) |
| AStar.ExpandNext | src/astar.rs:88-106 | one more edge: a skipped neighbour changes nothing, a conflicting one sets the conflict, an `Unvisited` one is labelled and its item appended |
| AStar.Step | src/astar.rs:74-106 | no contract of its own: one pop, as the loop body does it (goal check, `Unvisited` check, then `Expand`); its meaning is stated by `StepCases`, `StepFrame` and `StepDecreasesWork` |
| AStar.Continues | src/astar.rs:74-107 | no contract of its own: the states follow one another by `Step` on the popped items, and no step returns |
| AStar.IsRun | src/astar.rs:74-109 | no contract of its own: either the steps continue until the open list is empty and the result is `PathNotFound`, or they continue up to a last pop whose step returns the result; what a run means is stated by `RunOutcome`, `RunConflict` and `RunKeepsForest` |
| AStar.StepCases | src/astar.rs:74-106 | one pop returns `Ok(node)` exactly when the node is a goal; returns `OpenItemNotInClosedList` exactly when it is no goal and `Unvisited`, without touching the closed list; `FoundHigherCostPath` only for a labelled non-goal; never `PathNotFound` |
| AStar.StepFrame | src/astar.rs:74-106 | a step changes closed entries only from `Unvisited`, and the open list keeps holding in-range nodes |
| AStar.StepDecreasesWork | src/astar.rs:74-107 | a step that does not return strictly decreases pending items plus `Unvisited` entries, so the loop terminates |
| AStar.ContinuesLabelsOnce | src/astar.rs:74-107 | across any number of pops, closed entries change only from `Unvisited` |
| AStar.RunOutcome | src/astar.rs:74-109 | of a whole run: no goal is popped before the last pop; `Ok(n)` is the last popped node and a goal; `PathNotFound` means the open list ran dry and no popped node was a goal; `OpenItemNotInClosedList` means the last popped node was an `Unvisited` non-goal, and the closed list did not change in that last step |
| AStar.RunConflict | src/astar.rs:82-94 | a run ending in `FoundHigherCostPath` popped a labelled non-goal, and one of its edges met a `PathFrom` dearer than the candidate |
| AStar.StepKeepsOpenLabelled | src/astar.rs:74-106 | from a state whose open items are all for labelled nodes, a step never returns `OpenItemNotInClosedList`, and the next state's open items are again all for labelled nodes |
| AStar.ContinuesKeepsOpenLabelled | src/astar.rs:74-107 | across any number of pops, open items stay for labelled nodes when they started so |
| AStar.RunSeededCorrectly | src/astar.rs:74-109 | a run seeded with only labelled open items never returns `OpenItemNotInClosedList`, and the node it returns with `Ok` is labelled in the final closed list |
| AStar.ExpandKeepsForest | src/astar.rs:88-99 | labelling from a labelled node keeps the back-links ranked (acyclic) and each pointing at a labelled node |
| AStar.RunKeepsForest | src/astar.rs:74-109 | a whole run started on an acyclic, labelled-linked closed list ends on one |
| AStar.IsUnwinding | src/astar.rs:36-47 | no contract of its own: the path `unwind` returns ends at the node, starts at an entry that is not `PathFrom`, and each element is the recorded predecessor of the next; `UnwindingUnique` and `SimpleClosed.Unwind` state its properties |
| AStar.UnwindingUnique | src/astar.rs:36-47 | the closed list determines the result of `unwind`: two unwindings of one node are equal |
| AStar.UnwindStartingPoint | src/astar.rs:36-47 | a `StartingPoint` unwinds to itself alone |
| AStar.UnwindingFromLabelled | src/astar.rs:36-47 | on back-links that all point at labelled nodes, the unwinding of a labelled node starts at a `StartingPoint` |
| AStar.RunUnwindsToStart | src/astar.rs:36-109 | after a correctly seeded run from an acyclic, labelled-linked closed list returns `Ok(n)`, the unwinding of `n` on the final closed list starts at a `StartingPoint` |
| AStarDriver.RelaxEdge | src/astar.rs:89-105 | one neighbour: reports a conflict exactly when `Relax` says so; on `Label` writes exactly `PathFrom(current, candidate)` into that slot and pushes exactly one item `candidate + h(neighbour)`; otherwise changes nothing |
| AStarDriver.ExpandNode | src/astar.rs:88-106 | the `for` loop over the neighbours leaves the closed list and the open list as the fold `Expand` says, and reports its conflict |
| AStarDriver.SearchStep | src/astar.rs:74-106 | one iteration: nothing to pop exactly when the open list is empty, and then nothing changes; otherwise it pops an item of least estimate and the new state and result are those of `Step` |
| AStarDriver.RunGuarantees | src/astar.rs:74-109 | of any run: with only labelled open items at the start, no `OpenItemNotInClosedList` and a labelled `Ok` node; from an acyclic, labelled-linked closed list, the final one is so too |
| AStarDriver.Search | src/astar.rs:58-110 | `astar`: the returned result, with the states passed through, is a run (`IsRun`) from the containers' initial contents to their final contents; when every open item was for a labelled node it is never `OpenItemNotInClosedList` and an `Ok` node is labelled; acyclic, labelled-linked back-links stay so, so `unwind` of the found node starts at a `StartingPoint` |
| SimpleOpen.GreatestIsLeastEstimate | src/simpleopen.rs:52-54 | what the max-heap pops under the reversed `Ord` is exactly an item of least heuristic |
| SimpleOpen.GreatestExists | src/simpleopen.rs:52-54 | a non-empty heap has a greatest item, so `pop` on it is never `None` |
| SimpleOpen.SimpleOpenList.constructor | src/simpleopen.rs:28-33 | a new open list holds nothing |
| SimpleOpen.SimpleOpenList.IsEmpty | src/simpleopen.rs:40-42 | true exactly when the list holds no item |
| SimpleOpen.SimpleOpenList.PushOpen | src/simpleopen.rs:44-50 | adds exactly one copy of the item and keeps every item already there, duplicates for one node included |
| SimpleOpen.SimpleOpenList.PopMin | src/simpleopen.rs:52-54 | on an empty list returns `None` and stays empty; otherwise returns an item whose heuristic is at most that of every remaining item and removes exactly that one copy |
| SimpleClosed.SimpleClosed.constructor | src/simpleclosed.rs:7-9 | `capacity` slots, all `Unvisited`; the slot array is a constant, so the capacity never changes |
| SimpleClosed.SimpleClosed.Get | src/simpleclosed.rs:14-20 | reads a node's slot; an index past the capacity panics, so it is required to be within it |
| SimpleClosed.SimpleClosed.Set | src/simpleclosed.rs:22-26 | writing through `index_mut` changes slot `i` to the new state and no other slot |
| SimpleClosed.SimpleClosed.Unwind | src/astar.rs:36-47 | on acyclic back-links: the path ends at `node`, starts at an entry that is not `PathFrom`, each element is the recorded predecessor of the next, no node repeats; with every link pointing at a labelled node, a labelled `node` unwinds from a `StartingPoint` |
| EveMap.Present | src/evemap.rs:356 | the `filter_map` over the inline slots keeps exactly the present indices, no more of them than slots |
| EveMap.Values | src/evemap.rs:352-360 | the members of a neighbour set in stored order; an inline set gives at most three |
| EveMap.GetItemNeighbours | src/evemap.rs:352-360 | a system whose set was never written has no neighbours; an inline set gives at most three |
| EveMap.PresentPadded | src/evemap.rs:369-373 | slots holding the values in order and `None` after them read back as exactly those values |
| EveMap.FromIter | src/evemap.rs:362-375 | more than three values give a `Vec` of them in order; otherwise the inline slots hold them in order, padded with `None`; either way `get_neighbours` reads back exactly the values, in order |
| EveMap.GetSolarSystemIdByName | src/evemap.rs:221-224 | `Some` exactly for a known name, carrying its recorded id |
| EveMap.GetSolarSystemIdx | src/evemap.rs:226-229 | the `unwrap` requires a known id; in a valid map the index is in range and names the system with that id |
| EveMap.GetSystem | src/evemap.rs:231-235 | the unchecked read requires an index in range; in a valid map looking the system's id back up gives the same index |
| EveMap.GetNeighbours | src/evemap.rs:237-240 | in a valid map every neighbour is the index of a system of the map |
| EveMap.GetExtendedSolarSystemInfo | src/evemap.rs:242-246 | in a valid map the extended entry describes the same system as `get_system` |
| KeySort.SortByKey | src/evemap.rs:178-179 | `sort_unstable_by_key`: the array ends ordered by key and is a permutation of what it held |
| KeySort.PermutationKeys | src/evemap.rs:178-179 | rearranging the elements rearranges their keys |
| KeySort.SortedPermutationUnique | src/evemap.rs:177-179 | two ascending key sequences with the same keys are equal, so the two tables sorted separately stay aligned |
| KeySort.PermutationDistinct | src/evemap.rs:177 | a rearrangement of distinct ids has no repeats |
| MapBuild.NameTable | src/evemap.rs:130-133 | the names that are keys are exactly the items' names |
| MapBuild.NameTableLastWins | src/evemap.rs:130-133 | for a shared name the `collect` keeps the id of the last item with it |
| MapBuild.SystemItems | src/evemap.rs:143-151 | the items the loop acts on are all solar systems, no more than the items |
| MapBuild.SystemItemsMembers | src/evemap.rs:143-151 | an item is among them exactly when it is an item and a solar system |
| MapBuild.ResolveSystem | src/evemap.rs:153-173 | a system resolves exactly when both its constellation and region names are known, to the extended entry with their ids; else the error is "constellation not found" when the constellation is unknown, otherwise "region not found" |
| MapBuild.FirstUnresolved | src/evemap.rs:143-175 | `None` exactly when every system resolves; otherwise the error of the first system that does not |
| MapBuild.CollectSystems | src/evemap.rs:140-175 | the push loop either fails with `FirstUnresolved`'s error, or returns the two tables aligned with the systems, with no neighbour set written |
| MapBuild.Enumerate | src/evemap.rs:182-186 | the lookup maps exactly the table's ids, each to an in-range index holding that id (for a repeated id, its last position) |
| MapBuild.IndexLookup | src/evemap.rs:182-186 | the `try_into` fails with `IndexOutOfRange` exactly when there are more than 65536 systems; otherwise it returns a sound lookup |
| MapBuild.AddGates | src/evemap.rs:191-194 | adding one system's gates adds exactly their ids; every one of them maps to that system's index, overriding an earlier value; every key not among them keeps its value |
| MapBuild.GateTable | src/evemap.rs:189-195 | the gate table's keys are exactly the gate ids of all entries; each maps to the index of some entry's system, and a gate id that no later entry lists maps to the index of its own entry's system (a gate listed twice goes to the last entry listing it); the `[ssid]` panics, so every entry's system is required to be known |
| MapBuild.GateTableAt | src/evemap.rs:189-195 | for one gate of one entry, listed by no later entry: the gate id is in the table and maps to that entry's system |
| MapBuild.WrittenNeighbour | src/evemap.rs:198-209 | after the final loop, neighbour `l` of an entry's system (found at its lookup index, holding its id) is the table's system for the destination of the entry's gate `l` |
| MapBuild.Destinations | src/evemap.rs:201-204 | one neighbour per gate, in gate order: the system holding the destination gate |
| MapBuild.FirstRepeat | src/evemap.rs:198-209 | `None` exactly when no system has two entries; otherwise the first entry whose system was seen before |
| MapBuild.SetNeighbours | src/evemap.rs:198-209 | the final loop keeps the ids in place; it fails with `NeighboursAlreadySet` exactly for the first repeated system; otherwise every entry's system holds its destinations in gate order, in the right shape, and every other system holds none |
| MapBuild.SortTables | src/evemap.rs:177-179 | both tables are sorted by id, are permutations of their inputs, stay aligned, and are strictly ascending when the ids are distinct |
| MapBuild.BuildError | src/evemap.rs:130-216 | the error `Map::new` returns, phase by phase; none exactly when every system resolves, the indices fit 16 bits and no system is given neighbours twice |
| MapBuild.BuildErrorAfterCollect | src/evemap.rs:177-209 | once every system resolves: more than 65536 systems give `IndexOutOfRange`; otherwise a repeated system gives `NeighboursAlreadySet` for the first one, and no repeat gives no error |
| MapBuild.IndexSystems | src/evemap.rs:177-216 | after collection: the 16-bit overflow error, else the repeat error, else a map built from the items, which is valid when the ids are distinct |
| MapBuild.MapNew | src/evemap.rs:130-216 | `Map::new` fails exactly when `BuildError` gives an error, with that error; on success the map is built from the items and gates, and is valid when the ids are distinct |
| MapBuild.BuiltValid | src/evemap.rs:177-216 | a map built from items with distinct system ids is valid: aligned tables in strictly ascending id order, a lookup that inverts them, neighbours in range |
| MapParse.LastIndexOf | src/evemap.rs:289 | `None` exactly when the separator is absent; otherwise a position holding it with none after |
| MapParse.RSplitN | src/evemap.rs:289 | `rsplitn(n, "/")`: no pieces exactly when `n` is 0; at most `n` pieces; every piece but the last holds no separator, and neither does the last when fewer than `n` were taken |
| MapParse.RSplitNJoin | src/evemap.rs:289 | joining the pieces back from the right gives the name again |
| MapParse.ItemTypeOf | src/evemap.rs:292-297 | each of the three `.staticdata` file names, and only it, gives its kind |
| MapParse.Classify | src/evemap.rs:289-325 | `Ok(None)` exactly for a file of no known kind; the missing-id error exactly when that kind's id field is absent; an item exactly when the kind is known, the id present and the path deep enough, else the missing path item; an item's kind, id, name, constellation and region are the kind's id field and path components 1, 2 and 3 |
| MapParse.RegionFile | src/evemap.rs:311-323 | `<prefix><Region>/region.staticdata` with a region id is the region named by its directory |
| MapParse.ConstellationFile | src/evemap.rs:311-323 | `<prefix><Region>/<Constellation>/constellation.staticdata` is that constellation, in that region |
| MapParse.SystemFile | src/evemap.rs:311-323 | `<prefix><Region>/<Constellation>/<System>/solarsystem.staticdata` is that system, in that constellation and region |
| MapParse.Parse | src/evemap.rs:289-343 | errors and `Ok(None)` exactly as `Classify`; an item as `Classify`; gates exactly for a solar system, keyed by its id, one `StargateData` per listed gate in order, each tagged with that id |
| MapParse.JitaFile | src/evemap.rs:311-318 | the Jita file of the export is the solar system Jita, in Kimotoro, in The Forge |
| MapParse.BareSystemFile | src/evemap.rs:306-313 | a system file with no directories fails on path item 1 |
| Scenarios.TriangleRuns | src/astar.rs:74-109 | on the three-node graph seeded at A: `FoundHigherCostPath` exactly when `ac > 2`, after popping A then B; `Ok(C)` exactly when `ac <= 2`; C ends labelled from A |
| Scenarios.TriangleUnwind | src/astar.rs:36-47 | C unwinds to [A, C] |
| Scenarios.SolveTriangle | src/main.rs:72-104 | seeding and searching as `main` does, with real containers: the result is `Ok(C)` exactly when `ac <= 2`, `FoundHigherCostPath` exactly when `ac > 2`, and on success the path is [A, C] |

## Left out

- src/sde.rs (the zip reader) and the I/O, CLI, download, timing and printing of src/main.rs are I/O over foreign crates. Only main's seeding of the search is modelled, as a scenario.
- The parallel parse in `Map::new` (`par_bridge`/rayon) is concurrency. `MapBuild.MapNew` takes the parsed items and gate entries as sequences; `MapParse.Parse` models one file.
- YAML decoding (`serde_yaml::from_slice`), its "failed to load" error and the `assert_ne!(data.len(), 0)` work on bytes through a foreign crate. `MapParse.Parse` takes the decoded `UnionSystemData`.
- MapParse.Parse: the stargates `HashMap`'s iteration order is unspecified, so the record's gates are taken as a sequence in that order and the result follows it.
- `BinaryHeap` internals: the open list is the multiset of its items. Which of several items of least estimate `pop` returns is left open, as the heap leaves it.
- `sort_unstable_by_key` is modelled by an insertion sort (`KeySort.SortByKey`). Only its contract, sorted and a permutation, is used.
- Floating-point and `NotNan` costs: costs are unbounded integers.
- Cost width: `main`'s costs are unsuffixed integer literals (src/main.rs:77-90), so Rust makes `Cost` an `i32`. The sums `edge + current_cost` (src/astar.rs:90) and `cost + heuristic` (src/astar.rs:102) can overflow: a panic in a debug build, wrap-around in a release build. The model adds unbounded integers and does not model either overflow behaviour.
- AStar.CanPop and AStar.NeighboursInRange require more than the code reads: every node's neighbours in range, and a popped node in range even when it is a goal. The loop returns for a goal before it reads the closed list (src/astar.rs:77-79) and reads neighbours only of popped, labelled non-goal nodes (src/astar.rs:88-91). `main`'s graph, the scenarios' graph and `Map` (`EveMap.GetNeighbours` in a valid map) meet the stronger condition.
- The generic `OpenList`/`ClosedList` traits: the driver is written against the two concrete containers.
- The `Display` impl and the text of `eyre!` messages: errors are datatypes carrying the names and ids the messages mention.
- `OnceCell` and the `unsafe get_unchecked` reads: a neighbour set is an `Option` written once, and the reads require an index in range.
- AStarDriver.Search: it does not prove that the returned path is cheapest, which the code does not establish locally. It proves the run relation and the local invariants (labels written once, back-links an acyclic forest, what each outcome means).
- MapBuild.MapNew: the panicking `[]` lookups of `Map::new` are preconditions (`GatesResolve`: every gate entry's system is a solar system, and each gate the final loop reaches leads to a known gate), not outcomes.
- MapBuild.MapNew: `Valid` (strictly ascending ids, an inverting lookup) is proved when the system ids are distinct. The code assumes they are; with repeated ids the lookup keeps the last position.
