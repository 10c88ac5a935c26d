# ComputeGraph in Dafny

A model of the dataflow engine in `Graph.py`, with proofs about it. The
engine computes over tables held as lists of dicts. A **node** is one
stage:

- `Input` yields records from a list, a file, or the stored result of
  another graph.
- `Map` yields what a generator makes of each record.
- `Sort` sorts stably on key columns.
- `Reduce` hands blocks of consecutive records with equal keys to a
  generator.
- `Fold` threads a state through the records.
- `Join` joins the records with another graph's result (inner, left,
  right, outer or cross).

Nodes are wired into a chain with `__call__`. A **graph** is built over
the chain from its input node to its output node. Its constructor:

- collects the graphs its nodes read (its dependencies);
- orders everything they depend on, in post-order, with a depth-first
  search.

`Graph.run` then:

- points input nodes at files;
- computes every graph of that order that has no result yet;
- pulls the records out of the last node.

The project has five modules:

- `Records` (records.dfy) models a dict as a list of fields, oldest key
  first. It provides `update`, `pop`, the sorted copy the join yields,
  and the ordering of values and key tuples (`itemgetter`).
- `Stages` (stages.dfy) gives what Map, Sort, Reduce and Fold compute, as
  functions:
  - a stable insertion sort specified by order, permutation and
    stability;
  - the split into key blocks, with the Reduce loop as a method proved
    against it;
  - the fold.
- `JoinAlgo` (join.dfy) is the join algorithm:
  - the constructor's key and strategy normalisation;
  - renaming of shared columns;
  - the four reducers and the sort-then-reduce runs;
  - the cross product, whose two loops are methods.
- `Scheduler` (scheduler.dfy) is the depth-first search and topological
  sort, as functions over a dependency map. Acyclicity is stated with a
  rank that falls along every dependency. It includes a counterexample
  for the source's flag clearing, and a corrected sort proved to leave
  the flags as it found them (see Findings). The engine runs the sort as
  written, from whatever flags earlier builds left.
- `Engine` (engine.dfy) has the classes `Node` and `Graph` with the
  source's mutable fields:
  - `input`, `output`, `input_file` and a Fold's `state`;
  - a Join's `res`, `left_keys` and `right_keys`;
  - a graph's `_used`, `res` and `order`.

  Its methods change these fields as the source does:
  - wiring;
  - the chain walk of `_create_node_list`;
  - the dependency scan;
  - the search and sort;
  - `run`.

  Each method is proved against the functions of the modules above.

Acyclicity of graph dependencies is a ghost `rank` on every graph, above
the ranks of the graphs it reads. Graphs are built in order, so every
graph reads only graphs built before it. The file system is a parameter:
a map from path to the records of that file.

## Model

| member | source | states |
|---|---|---|
| Records.Get | Graph.py:438 | a key reads a value exactly when it is one of the record's names, and the field is in the record |
| Records.Assign | Graph.py:203 | `r[k] = v` makes `k` read `v` and leaves every other key as it was |
| Records.AssignNames | Graph.py:203 | assigning keeps an existing key at its position and appends a new key last |
| Records.Remove | Graph.py:203 | after `pop(k)` the key `k` is gone, every other key reads as before, and a missing key leaves the record unchanged |
| Records.RemoveWellFormed | Graph.py:203 | popping a present key from a dict leaves a dict one item shorter |
| Records.UpdateGet | Graph.py:244 | after `r.update(s)` every key of `s` reads its value in `s` and every other key reads its old value in `r` |
| Records.UpdateWellFormed | Graph.py:244 | `update` never duplicates a key |
| Records.UpdateKeepsPositions | Graph.py:252 | `update` keeps the old key order as a prefix, and the keys afterwards are exactly the keys of both records |
| Records.UpdateAppend | Graph.py:370-372 | updating with `a` and then with `b` equals updating with `a + b` |
| Records.SortedByNameMeaning | Graph.py:245-247 | the copy built with `for key in sorted(value)` has strictly ascending names and answers every lookup as the original does |
| Records.SortedByNameSorted | Graph.py:246-247 | the names of the sorted copy strictly ascend |
| Records.StrLtTotal | Graph.py:246 | string comparison is total on distinct strings |
| Records.StrLtTransitive | Graph.py:246 | string comparison is transitive |
| Records.SeqLtTotal | Graph.py:141 | comparison of key tuples (`itemgetter`) is total on distinct tuples |
| Records.SeqLtTransitive | Graph.py:141 | comparison of key tuples is transitive |
| Records.SeqLtIrreflexive | Graph.py:141 | no key tuple is below itself |
| Stages.FlatMapAppend | Graph.py:113-114 | mapping a concatenation yields the two parts' outputs concatenated |
| Stages.FlatMapIdentity | Graph.py:113-114 | a mapper that yields its argument once leaves the stream unchanged |
| Stages.FlatMapOneEach | Graph.py:113-114 | a mapper that yields exactly one record per input keeps the length and is applied position by position |
| Stages.MapRun | Graph.py:113-114 | the Map loop yields the concatenation of the mapper's outputs, in input order |
| Stages.SortBy | Graph.py:128-133 | a str becomes a one-element key list and a list is kept; a tuple or any other type is exactly the ValueError case |
| Stages.Insert | Graph.py:141 | insertion adds exactly one copy of the record |
| Stages.StableSort | Graph.py:141 | `sorted` returns a permutation of its input |
| Stages.StableSortSorted | Graph.py:141 | the sorted output is ordered by the key tuples |
| Stages.StableSortWithKey | Graph.py:141 | stability: the records sharing any one key tuple appear in the output in their input order |
| Stages.SortRecordsMeaning | Graph.py:135-143 | Sort succeeds iff the key list is non-empty and every record has every key. On success it yields a permutation, ordered by key, stable |
| Stages.Groups | Graph.py:433-452 | a non-empty input gives at least one block, and no block is empty |
| Stages.GroupsSnoc | Graph.py:436-449 | a record with the previous key extends the current stack, and a new key opens a new one |
| Stages.GroupsFlatten | Graph.py:433-452 | the blocks handed to the operation, put back together, are the input |
| Stages.GroupsBlocks | Graph.py:433-452 | each block holds one key tuple, and neighbouring blocks have different key tuples (the blocks are maximal runs) |
| Stages.GroupsOfSorted | Graph.py:266-270 | after a sort on the same keys, block keys strictly increase, so each key tuple has exactly one block |
| Stages.ReduceKeyOf | Graph.py:418-421 | None stays None, a str becomes a one-element list, a list or a tuple is kept and iterated alike, and any other value is kept as a key that fails later |
| Stages.ReduceByKey | Graph.py:429-452 | the keyed Reduce loop (stack, flush on key change, flush at end) yields the operation applied block by block, or KeyError when a record lacks a key |
| Stages.FoldLeftAppend | Graph.py:393-400 | the state lives in the node, so folding `a` and then `b` equals folding `a + b` |
| JoinAlgo.Configure | Graph.py:162-174 | a str key becomes a one-element list and a list or tuple is kept; the strategy changes exactly when that key list is empty and the strategy is "outer", and then it becomes "cross"; a key without `len()` is a TypeError |
| JoinAlgo.Common | Graph.py:198-199 | the shared columns are exactly the names in both first records that are not join keys, with no repeats |
| JoinAlgo.RenameRecords | Graph.py:201-206 | renaming a side succeeds iff it succeeds on each record, keeps the number of records, and fails only with KeyError |
| JoinAlgo.RenameRecordEffect | Graph.py:201-206 | when the new names are free, renaming succeeds iff every shared column is present, and moves each value to its prefixed name |
| JoinAlgo.Prepare | Graph.py:195-209 | an empty side is an IndexError (`self.res[0]`) and any other failure a KeyError. On success both sides keep their length and the key lists are the names of each first record |
| JoinAlgo.ZipDiffers | Graph.py:234-240 | the zip loop's flag is set exactly when the two key lists differ at a position both have |
| JoinAlgo.MergedMeaning | Graph.py:244-248 | a merged row has strictly ascending names; a name of the second record reads its value there, and any other name reads its value in the first |
| JoinAlgo.MergeEach | Graph.py:243-248 | one merged row per record of the block |
| JoinAlgo.MergeEachAt | Graph.py:243-248 | the `i`-th merged row is record `i` updated with the shared record |
| JoinAlgo.InnerReducer | Graph.py:226-256 | a block of one yields nothing, and a block of `n >= 2` yields `n - 1` rows |
| JoinAlgo.InnerOneToMany | Graph.py:242-248 | one record followed by records laid out differently is merged into each of them |
| JoinAlgo.InnerManyToOne | Graph.py:250-256 | records laid out alike, followed by one more, each absorb the last |
| JoinAlgo.MergedParts | Graph.py:231-256 | every inner row is the merge of two different records of the block |
| JoinAlgo.MergedKey | Graph.py:243-248 | merging two records with the same key tuple keeps that key tuple |
| JoinAlgo.InnerKeepsKey | Graph.py:226-256 | every inner row carries its block's key tuple and has ascending names |
| JoinAlgo.NullPad | Graph.py:285-286 | the padding holds exactly the names of one side missing from the other, all Null |
| JoinAlgo.LeftLoneRecord | Graph.py:280-291 | a lone record laid out like the left side gives one row: right-only columns are Null, and every other field is unchanged |
| JoinAlgo.RightLoneRecord | Graph.py:312-322 | a lone record laid out like the right side gives one row: left-only columns are Null, and every other field is unchanged |
| JoinAlgo.OuterLonePadded | Graph.py:338-355 | a lone record of the outer join laid out like the right side has its left-only columns Null; any other lone record has its right-only columns Null; every other field is unchanged and the names ascend |
| JoinAlgo.OuterLoneRecord | Graph.py:333-355 | outer keeps every lone record (one row); left and right keep a lone record only when its layout matches their side |
| JoinAlgo.CrossRow | Graph.py:371-376 | one left record gives one row per right record |
| JoinAlgo.CrossRowAt | Graph.py:370-376 | the `j`-th row of a left record is that record updated with right records `0..j`, in order, then sorted (the dict is updated in place across the loop) |
| JoinAlgo.CrossRowRightWins | Graph.py:370-376 | in a cross row every field of the current right record reads its own value, and names ascend |
| JoinAlgo.CrossJoinCount | Graph.py:365-376 | the cross join yields `|left| * |right|` rows |
| JoinAlgo.CrossRowRun | Graph.py:371-376 | the inner loop of `_cross_run` yields exactly `CrossRow`, and leaves the left record having absorbed every right record |
| JoinAlgo.CrossRun | Graph.py:370-376 | the outer loop of `_cross_run` yields exactly `CrossJoin`, and leaves the left records updated in place as `CrossLeft` says |
| JoinAlgo.CrossLeftAt | Graph.py:370-376 | after the cross join each left record is itself updated with every right record in order, and the last row built from it is its sorted copy |
| JoinAlgo.SortReduceMeaning | Graph.py:258-270 | a keyed strategy fails iff the keys are empty (TypeError) or a record lacks a key (KeyError). Otherwise the reducer runs on the blocks of the stably sorted union, one per key tuple, in increasing key order |
| JoinAlgo.JoinRun | Graph.py:176-224 | an empty side is an IndexError |
| JoinAlgo.RunStrategy | Graph.py:209-222 | the dispatch on the strategy yields exactly the rows the strategy defines, the cross product by its loop; the left records end updated in place by a cross join, and as prepared otherwise |
| JoinAlgo.CrossJoinRunCount | Graph.py:365-376 | a cross join that succeeds yields one row per pair of a left and a right record |
| Scheduler.ReachRank | Graph.py:523-530 | everything reachable from a graph is ranked no higher than it |
| Scheduler.ReachListHas | Graph.py:516-518 | everything reachable from a root is reached from the roots |
| Scheduler.ClosedReach | Graph.py:523-530 | a post-ordered list holds everything reachable from its members |
| Scheduler.VisitCorrect | Graph.py:523-530 | a search from an unflagged graph appends exactly the unflagged graphs reachable from it, each once, dependencies first, and flags exactly those |
| Scheduler.VisitListCorrect | Graph.py:516-518 | the loop over the dependencies appends exactly the unflagged graphs they reach, each once, in post-order |
| Scheduler.VisitListWithin | Graph.py:516-518 | whatever is flagged, the loop appends only graphs the dependencies reach |
| Scheduler.VisitWithin | Graph.py:523-530 | whatever is flagged, a search appends only graphs reachable from where it starts |
| Scheduler.VisitListFlagged | Graph.py:516-518 | a loop over dependencies that are all flagged searches nothing and changes nothing |
| Scheduler.TopoSortCorrect | Graph.py:511-521 | as written, when nothing reachable is flagged, the order lists every graph reachable from the dependencies once, each after its own dependencies; every graph reached stays flagged except the direct dependencies |
| Scheduler.TopoSortWithin | Graph.py:511-521 | whatever was flagged before, the order as written lists only graphs reachable from the dependencies; when every dependency is already flagged, the order is empty and only their flags are cleared |
| Scheduler.TopoSortFixedCorrect | Graph.py:511-521 | with every flag cleared, the order is the same and the flags are left as they were found |
| Scheduler.StaleFlag | Graph.py:520-521 | counterexample: after building a graph over 2 (which reads 1), a graph reading 1 gets an empty order; the corrected sort orders [1] |
| Engine.Refs | Graph.py:481-490 | a Join reads its `on` graph and an Input reads its source graph; no other node reads a graph |
| Engine.InputYield | Graph.py:68-92 | a source graph yields its result (a missing result is a TypeError); a list yields its records; without input the named file is read (FileNotFound if absent) |
| Engine.Node.Yield | Graph.py:82-92 | an Input node over a graph yields something exactly when that graph has a result |
| Engine.StageRunErrors | Graph.py:108-143 | Map and Fold never fail and Fold yields one record; Sort fails exactly when the keys are empty or missing and otherwise sorts; Join with an empty side is an IndexError |
| Engine.Node.Input | Graph.py:50-66 | a graph source is kept apart and the input is emptied; a list stays the input; the file name is kept |
| Engine.Node.Make | Graph.py:8-16 | a node starts unwired, holding its kind, name and Fold start state |
| Engine.Node.NewSort | Graph.py:120-133 | Sort's constructor fails with ValueError exactly for a key of the wrong type, and otherwise holds the normalised keys |
| Engine.Node.NewJoin | Graph.py:149-174 | Join's constructor holds `on` and the configuration that `Configure` gives |
| Engine.Node.Call | Graph.py:18-35 | `__call__` links both ways (`source.output` is this node, this node's input is `source`) and returns this node |
| Engine.Node.FoldRun | Graph.py:395-400 | the loop leaves the node's state as the fold of the input over its old state, and yields that state once |
| Engine.Node.JoinStep | Graph.py:176-224 | yields the join of the left graph's result with the input. The left graph's `res` ends as the renamed records, further updated in place by a cross join (`LeftAfter`); `output`, `left_keys` and `right_keys` are set |
| Engine.Node.Step | Graph.py:108-143 | every non-Input stage yields what its function gives on the input; only a Fold changes its state, and only a Join changes another graph's result |
| Engine.WalkDistinct | Graph.py:500-507 | the walk back along `input` never revisits a node |
| Engine.Reverse | Graph.py:509 | `result[::-1]` reverses the list |
| Engine.AddRefs | Graph.py:481-490 | the `not in self._dependencies` test adds each graph once, keeping the earlier list as a prefix |
| Engine.DepsOfMeaning | Graph.py:480-490 | the dependencies have no repeats and are exactly the graphs the nodes read |
| Engine.DepsWithin | Graph.py:480-490 | the dependencies lie within any set holding every graph the nodes read |
| Engine.Graph.constructor | Graph.py:458-492 | the fields are stored and `res` is None; from whatever flags earlier builds left, the order and the flags are those of the sort as written, the order lists graphs built before and ranked below, and when nothing in reach was flagged it is duplicate-free, post-ordered and holds exactly the graphs reachable from the dependencies |
| Engine.Graph.Build | Graph.py:458-509 | building succeeds iff the walk back reaches the input node; otherwise it is a RuntimeError (a node without input) or an AttributeError (a list as input), and no flag changes. The node list is the walk reversed, the dependencies are what its nodes read, and the order and flags are those of the sort as written; when nothing in reach was flagged, every graph a node reads is in the order |
| Engine.Graph.DepsInWorld | Graph.py:480-490 | every dependency is a graph built before |
| Engine.Graph.BuiltOk | Graph.py:458-492 | a built graph over an Input node, whatever its order holds, has the node chain its runs rely on, and reads only graphs built before |
| Engine.Graph.RefsBelow | Graph.py:480-490 | every graph a node reads was built before the graph and ranks below it |
| Engine.Graph.OrderBelow | Graph.py:511-530 | an order within the reach of the dependencies, as the sort leaves it whatever was flagged, lists only graphs built before, ranked below this one |
| Engine.Graph.RefsOrdered | Graph.py:480-530 | when the order is the whole reach, as a sort that starts with nothing in reach flagged leaves it, every graph a node reads is in the order |
| Engine.Graph.ReversedWalk | Graph.py:500-509 | the reversed walk has no repeats and each node's input is the node before it |
| Engine.Graph.CreateNodeList | Graph.py:494-509 | the nodes run from the input node to the output node, each linked to the one before; a missing input is a RuntimeError, a list is an AttributeError |
| Engine.Graph.CollectDependencies | Graph.py:480-490 | the scan's result equals the dependency specification |
| Engine.Graph.TopologicalSort | Graph.py:511-521 | from whatever flags were set before, the order and the flags left afterwards are exactly those of the sort as written (`Scheduler.TopoSort`) |
| Engine.Graph.ClearFlags | Graph.py:520-521 | the clearing loop clears exactly the flags of the direct dependencies |
| Engine.SortFlags | Graph.py:511-521 | what the sort as written leaves flagged: from nothing in reach flagged, every graph reached except the direct dependencies; when every direct dependency was already flagged, an empty order |
| Engine.Graph.DepthFirstSearch | Graph.py:523-530 | the recursive search changes the flags and the order exactly as `Visit` specifies |
| Engine.Graph.Run | Graph.py:532-566 | a successful run leaves every graph of the order with a result and, when every graph a node reads is in the order, every one of them computed. Graphs not below this one keep their results, and a result, once set, keeps its length |
| Engine.Graph.ComputeOrder | Graph.py:555-557 | every graph of the order without a result is computed in order, and on success all have one |
| Engine.Graph.FindGraph | Graph.py:547-550 | the scan of the order stops at the first graph equal to the one named, or runs off the end when there is none |
| Engine.Graph.SetFileOf | Graph.py:546-550 | an entry whose graph is in the order points that graph's input node at its file; no other node's file changes, and nothing changes when the graph is not in the order |
| Engine.Graph.SetListedFiles | Graph.py:545-550 | after the loop over `inputs`, every entry naming a graph of the order that no later such entry overrides has set its file; only input nodes of named graphs change |
| Engine.Graph.ComputeOne | Graph.py:555-557 | a graph that already holds a result is no failure and nothing changes, in any graph or node; otherwise it is run, and on success it holds a result. Graphs not below this one are untouched, and a result once set keeps its length |
| Engine.Graph.SetInputFiles | Graph.py:545-553 | every `inputs` entry naming a graph of the order (the last such entry wins) sets that graph's input file. With only `input_file`, it sets this graph's own; no other node's file changes |
| Engine.Graph.Pull | Graph.py:559-560 | an Input node yields from its source. In a chain of Map, Sort, Reduce and Fold stages, the last node yields what each stage makes of the one before, folds starting from their stored state |
| Engine.Graph.PullStage | Graph.py:559-560 | a node other than an Input node yields what its stage makes of the records the node before it yields, and only its own state changes beyond what that pull changed |

## Left out

- JSON decoding of input files, and writing `output_file`: a file is a map
  entry from its path to its records. With `output_file` given, `run`
  returns None instead of the list; the model always returns the list.
- Printing: `verbose` and `__str__`.
- Laziness of the generators. A run is modelled as complete lists. Work a
  generator would have done before an exception is not modelled. Neither
  is the case where a consumer stops early.
- The bodies of user callbacks (mapper, reducer, folder). They are
  arbitrary total Dafny functions.
- The in-place `update`s of the inner, left and right reducers on the
  records they merge or pad (Graph.py:244, 252, 285, 317). Those records
  are the left graph's `res` dicts and the right records. The model does
  not write these updates back: after such a join the left graph's `res`
  holds the renamed records. The cross join's in-place updates of the
  left records are written back (`LeftAfter`).
- Aliasing of the right side. When the Join's input yields the dicts of
  another graph's `res`, renaming the shared columns (Graph.py:205-206)
  also changes that graph's records. This happens for an Input over that
  graph (Graph.py:90-91), or for stages that pass records through. The
  model renames a copy, and the other graph's `res` is unchanged.
- Aliasing of the left side. The left records a Join renames
  (Graph.py:201-203) and a cross join updates (Graph.py:370-376) are the
  dicts of the `on` graph's `res`. Those dicts may also be held by:
  - another graph's `res`, when that graph passes on unchanged the
    records of an Input over the same source graph or the same list
    (Graph.py:88-91);
  - an Input node's own list, which a later run of that chain yields
    again;
  - a Fold node's `state`, which the Fold yields itself (Graph.py:400).
  The model writes the new records back only to the `on` graph's `res`.
  Every other holder keeps its old records.
- Engine.Graph.Run and Engine.Graph.ComputeOne: "graphs not below this
  one keep their results" holds because records are values in the model.
  In the source a Join can change the dicts of a graph outside the order
  through the sharing above.
- The mini-graph that each `_*_run` method builds around one Reduce node
  is modelled directly as a sort followed by the same reduce.
- Iteration order of the shared-column set (Graph.py:199-206), which
  depends on Python's string hash seed. The model fixes one order: that of
  the first left record (`Common`). In the source this order decides:
  - the key order of the renamed records, where each `left_<c>` or
    `right_<c>` goes last;
  - the `left_keys` and `right_keys` taken from them (Graph.py:208-209),
    and so the layout tests of the reducers;
  - the values, when a prefixed name such as `left_c` is itself a shared
    column: whether it is overwritten depends on which of the two columns
    comes first.
- Comparisons between values of different types (Python raises
  TypeError): values are ordered by kind first. `bool` values are not
  modelled.
- Cyclic graph dependencies: every graph has a rank above those it reads.
- A cycle of `input` links that never reaches `input_node`:
  `_create_node_list` (Graph.py:503-507) then loops forever.
  `CreateNodeList` and `Build` take the walk as a finite sequence, so
  they model only walks that end.
- Sorting on a single key where two records both hold None. Python's
  `sorted` then compares `None < None` and raises TypeError (Graph.py:141,
  and the join's sorts at Graph.py:266, 301, 327, 359). The model orders
  Null equal to itself, so it sorts such records stably instead.
- `Node.__call__(None)`: only nodes are passed.
- Non-Input nodes given `input=` or `output=` in their constructor: they
  start unwired and are wired with `__call__`.
- A Join whose `on` graph is the graph being run (self-join aliasing).
- JoinAlgo.Prepare and Engine.Node.JoinStep: a Join whose input passes on
  the `on` graph's own dicts, for example `Input(g)` followed by
  `Join(g, …)` with only Sort or pass-through stages between. In the source
  `self.res` and `self.output` then hold the same objects (Graph.py:90-91,
  195-196). The left loop pops every shared non-key column
  (Graph.py:201-203), so the right loop's `pop` raises KeyError
  (Graph.py:205-206). The model renames copies of the two sides, and the
  join succeeds.
- A set or dict as the key of a Reduce or a Join. It has `len()` and
  iterates, so the source accepts it (Graph.py:169-170, 420, 436), a set in
  hash order. The model's key argument has no such case; `OtherType` stands
  for a value without `len()` or iteration.
- Engine.Graph.Run: its result is stated through `Pull` and the graphs'
  results, not as a function of the state before the run. Computing the
  order may run Fold stages of shared nodes.
- Engine.Graph.Run: a node re-wired by `__call__` (Graph.py:33-35) after a
  graph over it was built is not modelled. The run requires every built
  graph to keep its chain of `input` links. The source follows the live
  links from the last node (Graph.py:559) and runs graphs that do not
  involve the re-wired node as before.
- Engine.Graph.Pull: for a chain containing a Join, only the
  Join step's own contract (`Step`, `JoinStep`) states the result.
- Engine.Graph.PullStage: the same limit as `Pull`.
- Engine.Node.Step: the Join case is stated through the prepared sides
  and `StageRun`. The partial effects of a Join that fails after renaming
  are not modelled.

## Findings

| source | as written | input that shows it | evidently intended | confidence | as-written member | corrected member |
|---|---|---|---|---|---|---|
| Graph.py:520-521 | `_topological_sort` clears the `_used` flag only on the direct dependencies, so graphs reached through them stay flagged (the engine runs the sort as written: `Engine.Graph.TopologicalSort`, `Engine.SortFlags`) | build gr2 over an Input reading gr1 and gr3 over an Input reading gr2, then, before any run, build gr4 over an Input reading gr1: its order is empty, so `run` never computes gr1 and iterating `gr1.res` (None) is a TypeError | clear the flag of every graph the search flagged | not executed | Scheduler.StaleFlag | Scheduler.TopoSortFixedCorrect |
