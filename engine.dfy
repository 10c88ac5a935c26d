/** The engine's objects: nodes wired into chains, graphs built over a chain,
    the order in which a graph computes the graphs it reads, and the run that
    pulls records from the output node back to the input node. Every graph
    carries a ghost rank above the ranks of the graphs it depends on, which
    is how acyclicity of the dependencies is stated. */
module Engine {
  import opened Records
  import opened Stages
  import opened JoinAlgo
  import Scheduler

  /** What a node's `input`/`output` attribute holds. */
  datatype Link = NoLink | NodeLink(node: Node) | ListLink(records: seq<Record>)

  /** The `input` argument of Input's constructor. */
  datatype InputArg = NoInput | ListInput(records: seq<Record>) | GraphInput(graph: Graph)

  /** The subclass of a node, with what its constructor kept. */
  datatype Kind =
    | InputKind(source: Option<Graph>)
    | MapKind(mapper: Record -> seq<Record>)
    | SortKind(keys: seq<string>)
    | ReduceKind(reducer: seq<Record> -> seq<Record>, key: ReduceKey)
    | FoldKind(folder: (Record, Record) -> Record)
    | JoinKind(on: Graph, config: JoinConfig)

  /** The graphs a node reads: a Join's left graph, an Input's source graph. */
  function Refs(k: Kind): (gs: seq<Graph>)
    ensures |gs| <= 1
    ensures k.JoinKind? ==> gs == [k.on]
    ensures k.InputKind? && k.source.Some? ==> gs == [k.source.value]
    ensures !k.JoinKind? && !(k.InputKind? && k.source.Some?) ==> gs == []
  {
    match k
    case JoinKind(on, _) => [on]
    case InputKind(Some(g)) => [g]
    case _ => []
  }

  /** Input.run: a source graph yields its stored result (iterating a result
      that was never computed is a TypeError); otherwise a list input yields
      its records, a node given as input is not iterable, and without input
      the file named by `input_file` is read, `files` standing for the file
      system with each file already decoded line by line. */
  function InputYield(source: Option<Option<seq<Record>>>, input: Link, file: Option<string>,
                      files: map<string, seq<Record>>): (r: Result<seq<Record>>)
    ensures source.Some? ==> (r.Ok? <==> source.value.Some?)
    ensures source.Some? && source.value.Some? ==> r.value == source.value.value
    ensures source.None? && input.ListLink? ==> r == Ok(input.records)
    ensures source.None? && input.NodeLink? ==> r == Err(TypeError)
    ensures source.None? && input.NoLink? ==>
      (r.Ok? <==> file.Some? && file.value in files) && (r.Ok? ==> r.value == files[file.value])
    ensures r.Err? ==> r.error in {TypeError, FileNotFound}
  {
    match source
    case Some(None) => Err(TypeError)
    case Some(Some(rs)) => Ok(rs)
    case None =>
      match input
      case ListLink(rs) => Ok(rs)
      case NodeLink(_) => Err(TypeError)
      case NoLink =>
        match file
        case None => Err(TypeError)
        case Some(path) => if path in files then Ok(files[path]) else Err(FileNotFound)
  }

  /** What a non-input node yields from the records `up` its input yielded:
      `state` is a Fold node's state before the run, `onRes` the result of a
      Join node's left graph at the moment it runs. */
  function StageRun(k: Kind, state: Record, onRes: Option<seq<Record>>, up: seq<Record>): Result<seq<Record>>
    requires !k.InputKind?
  {
    match k
    case MapKind(op) => Ok(FlatMap(op, up))
    case SortKind(keys) => SortRecords(keys, up)
    case ReduceKind(op, key) => ReduceSpec(op, key, up)
    case FoldKind(f) => Ok([FoldLeft(f, state, up)])
    case JoinKind(_, cfg) =>
      match onRes
      case None => Err(TypeError)
      case Some(left) =>
        match JoinRun(cfg, left, up)
        case Err(e) => Err(e)
        case Ok(jr) => Ok(jr.rows)
  }

  /** A stage never yields an error of a kind its code cannot raise, and the
      stateless stages are the algorithms they name. */
  lemma {:induction false} StageRunErrors(k: Kind, state: Record, onRes: Option<seq<Record>>, up: seq<Record>)
    requires !k.InputKind?
    ensures var r := StageRun(k, state, onRes, up);
      && (k.MapKind? || k.FoldKind? ==> r.Ok?)
      && (k.FoldKind? ==> |r.value| == 1)
      && (k.SortKind? ==> (r.Ok? <==> k.keys != [] && AllHave(up, k.keys)))
      && (k.SortKind? && r.Ok? ==> SortedBy(r.value, k.keys) && multiset(r.value) == multiset(up))
      && (k.JoinKind? && onRes.Some? && (onRes.value == [] || up == []) ==> r == Err(IndexError))
      && (k.JoinKind? && onRes.None? ==> r == Err(TypeError))
  {
    if k.SortKind? {
      SortRecordsMeaning(k.keys, up);
    }
  }

  class Node {
    var input: Link
    var output: Link
    const name: Option<string>
    const kind: Kind
    var inputFile: Option<string>
    /** A Fold node's state. */
    var state: Record
    /** A Join node's `res`, `left_keys` and `right_keys`; its `output`
        holds the right side once it has run. */
    var joinRes: Option<seq<Record>>
    var leftKeys: seq<string>
    var rightKeys: seq<string>

    /** Input's constructor: a source graph is kept apart and the input
        emptied; a list is kept as the input. */
    constructor Input(source: InputArg, inputFile: Option<string>, name: Option<string>)
      ensures this.name == name && this.inputFile == inputFile && output == NoLink
      ensures source.GraphInput? ==> kind == InputKind(Some(source.graph)) && input == NoLink
      ensures source.ListInput? ==> kind == InputKind(None) && input == ListLink(source.records)
      ensures source.NoInput? ==> kind == InputKind(None) && input == NoLink
      ensures joinRes == None
    {
      this.name := name;
      this.inputFile := inputFile;
      output := NoLink;
      state := [];
      joinRes := None;
      leftKeys := [];
      rightKeys := [];
      match source
      case GraphInput(g) =>
        kind := InputKind(Some(g));
        input := NoLink;
      case ListInput(rs) =>
        kind := InputKind(None);
        input := ListLink(rs);
      case NoInput =>
        kind := InputKind(None);
        input := NoLink;
    }

    /** The constructors of Map, Reduce and Fold, which cannot fail, and the
        common part of Sort's and Join's. `state` is Fold's start state. */
    constructor Make(kind: Kind, name: Option<string>, state: Record)
      requires !kind.InputKind?
      ensures this.kind == kind && this.name == name && this.state == state
      ensures input == NoLink && output == NoLink && joinRes == None && inputFile == None
    {
      this.kind := kind;
      this.name := name;
      this.state := state;
      input := NoLink;
      output := NoLink;
      inputFile := None;
      joinRes := None;
      leftKeys := [];
      rightKeys := [];
    }

    /** Sort's constructor: ValueError for a `by` that is neither str nor list. */
    static method NewSort(key: KeyArg, name: Option<string>) returns (r: Result<Node>)
      ensures key.OtherType? || key.KeyTuple? <==> r.Err?
      ensures r.Err? ==> r.error == ValueError
      ensures r.Ok? ==> fresh(r.value) && r.value.kind == SortKind(SortBy(key).value) && r.value.input == NoLink
    {
      var keys := SortBy(key);
      if keys.Err? {
        r := Err(keys.error);
      } else {
        var n := new Node.Make(SortKind(keys.value), name, []);
        r := Ok(n);
      }
    }

    /** Join's constructor: keys and strategy as `Configure` normalises them. */
    static method NewJoin(on: Graph, key: KeyArg, strategy: string, name: Option<string>) returns (r: Result<Node>)
      ensures Configure(key, strategy).Err? <==> r.Err?
      ensures r.Err? ==> r.error == TypeError
      ensures r.Ok? ==> fresh(r.value) && r.value.kind == JoinKind(on, Configure(key, strategy).value)
      ensures r.Ok? ==> r.value.input == NoLink
    {
      var cfg := Configure(key, strategy);
      if cfg.Err? {
        r := Err(cfg.error);
      } else {
        var n := new Node.Make(JoinKind(on, cfg.value), name, []);
        r := Ok(n);
      }
    }

    /** `__call__`: wire `source` in front of this node, both ways. */
    method Call(source: Node) returns (r: Node)
      modifies this`input, source`output
      ensures source.output == NodeLink(this) && input == NodeLink(source) && r == this
    {
      source.output := NodeLink(this);
      input := NodeLink(source);
      r := this;
    }

    /** Fold.run: thread the state through the input, then yield it. */
    method FoldRun(up: seq<Record>) returns (out: seq<Record>)
      requires kind.FoldKind?
      modifies this`state
      ensures state == FoldLeft(kind.folder, old(state), up) && out == [state]
    {
      var i := 0;
      while i < |up|
        invariant 0 <= i <= |up|
        invariant state == FoldLeft(kind.folder, old(state), up[..i])
      {
        assert up[..i + 1][..i] == up[..i];
        state := kind.folder(state, up[i]);
        i := i + 1;
      }
      assert up[..i] == up;
      out := [state];
    }

    /** Join.run: take the left graph's result and the right records, rename
        clashing columns in both (the left graph sees the renaming), record
        both key lists, then run the strategy (the left graph also sees a
        cross join's in-place updates). */
    method JoinStep(up: seq<Record>) returns (r: Result<seq<Record>>)
      requires kind.JoinKind?
      modifies this`output, this`joinRes, this`leftKeys, this`rightKeys, kind.on`res
      ensures r == StageRun(kind, state, old(kind.on.res), up)
      ensures old(kind.on.res).None? ==> joinRes == None && kind.on.res == None && output == ListLink(up)
      ensures old(kind.on.res).Some? ==>
        match Prepare(kind.config.keys, old(kind.on.res).value, up)
        case Err(_) => joinRes == old(kind.on.res) && kind.on.res == old(kind.on.res) && output == ListLink(up)
        case Ok(p) =>
          && kind.on.res == Some(LeftAfter(kind.config.strategy, p)) && joinRes == kind.on.res
          && output == ListLink(p.right) && leftKeys == p.leftKeys && rightKeys == p.rightKeys
    {
      var on := kind.on;
      var cfg := kind.config;
      joinRes := on.res;
      output := ListLink(up);
      if on.res.None? {
        r := Err(TypeError);
        return;
      }
      var left := on.res.value;
      JoinRunRows(cfg, left, up);
      var prepared := Prepare(cfg.keys, left, up);
      if prepared.Err? {
        r := Err(prepared.error);
        return;
      }
      var p := prepared.value;
      on.res := Some(p.left);
      joinRes := Some(p.left);
      output := ListLink(p.right);
      leftKeys := p.leftKeys;
      rightKeys := p.rightKeys;
      var rows, left' := RunStrategy(cfg.keys, cfg.strategy, p);
      on.res := Some(left');
      joinRes := Some(left');
      r := if rows.Err? then Err(rows.error) else Ok(rows.value);
    }

    /** What this node yields as an Input node, in the current state. */
    ghost function Yield(files: map<string, seq<Record>>): (r: Result<seq<Record>>)
      reads this, if kind.InputKind? && kind.source.Some? then {kind.source.value} else {}
      ensures kind.InputKind? && kind.source.Some? ==> (r.Ok? <==> kind.source.value.res.Some?)
    {
      InputYield(if kind.InputKind? && kind.source.Some? then Some(kind.source.value.res) else None, input, inputFile, files)
    }

    /** `run` of every node but Input, on the records its input yielded. */
    method Step(up: seq<Record>, ghost U: set<Graph>) returns (r: Result<seq<Record>>)
      requires !kind.InputKind?
      requires kind.JoinKind? ==> kind.on in U
      modifies this`state, this`output, this`joinRes, this`leftKeys, this`rightKeys, U`res
      ensures r == StageRun(kind, old(state), if kind.JoinKind? then old(kind.on.res) else None, up)
      ensures kind.FoldKind? ==> state == FoldLeft(kind.folder, old(state), up)
      ensures !kind.FoldKind? ==> state == old(state)
      ensures forall h :: h in U && !(kind.JoinKind? && h == kind.on) ==> h.res == old(h.res)
      ensures kind.JoinKind? && old(kind.on.res).Some? ==> kind.on.res.Some? && |kind.on.res.value| == |old(kind.on.res).value|
    {
      match kind
      case MapKind(op) =>
        var out := MapRun(op, up);
        r := Ok(out);
      case SortKind(keys) =>
        r := SortRecords(keys, up);
      case ReduceKind(op, key) =>
        if key.Keys? {
          r := ReduceByKey(op, key.names, up);
        } else {
          r := ReduceSpec(op, key, up);
        }
      case FoldKind(f) =>
        var out := FoldRun(up);
        r := Ok(out);
      case JoinKind(on, cfg) =>
        r := JoinStep(up);
    }
  }

  /** The chain from `outputNode` back along `input` links: it stops at
      `inputNode` or at the first node whose input is not a node. */
  ghost predicate Walk(chain: seq<Node>, inputNode: Node, outputNode: Node)
    reads chain
  {
    && |chain| > 0 && chain[0] == outputNode
    && (forall k :: 0 <= k < |chain| - 1 ==> chain[k] != inputNode && chain[k].input == NodeLink(chain[k + 1]))
    && (chain[|chain| - 1] == inputNode || !chain[|chain| - 1].input.NodeLink?)
  }

  /** A walk never comes back to a node it passed. */
  lemma {:induction false} WalkDistinct(chain: seq<Node>, inputNode: Node, outputNode: Node, i: nat, j: nat)
    requires Walk(chain, inputNode, outputNode) && i < j < |chain|
    ensures chain[i] != chain[j]
    decreases |chain| - j
  {
    assert chain[i] != inputNode && chain[i].input == NodeLink(chain[i + 1]);
    if j < |chain| - 1 {
      WalkDistinct(chain, inputNode, outputNode, i + 1, j + 1);
      assert chain[j].input == NodeLink(chain[j + 1]);
    }
  }

  function Reverse<T>(s: seq<T>): (r: seq<T>)
    ensures |r| == |s| && forall i :: 0 <= i < |s| ==> r[i] == s[|s| - 1 - i]
  {
    if s == [] then [] else Reverse(s[1..]) + [s[0]]
  }

  /** `_dependencies` after the scan of `nodes`: each graph a node reads,
      once, in order of first appearance. */
  function DepsOf(nodes: seq<Node>): seq<Graph>
  {
    if nodes == [] then [] else AddRefs(DepsOf(nodes[..|nodes| - 1]), nodes[|nodes| - 1].kind)
  }

  function AddRefs(deps: seq<Graph>, k: Kind): (r: seq<Graph>)
    ensures Scheduler.Elems(r) == Scheduler.Elems(deps) + Scheduler.Elems(Refs(k))
    ensures Scheduler.NoDup(deps) ==> Scheduler.NoDup(r)
    ensures |deps| <= |r| && r[..|deps|] == deps
  {
    var rs := Refs(k);
    if rs == [] || rs[0] in deps then deps else deps + rs
  }

  /** The dependencies are duplicate-free and are exactly the graphs the
      nodes read. */
  lemma {:induction false} DepsOfMeaning(nodes: seq<Node>)
    ensures Scheduler.NoDup(DepsOf(nodes))
    ensures forall h :: h in DepsOf(nodes) <==> exists k :: 0 <= k < |nodes| && h in Refs(nodes[k].kind)
  {
    if nodes != [] {
      DepsOfMeaning(nodes[..|nodes| - 1]);
      DepsOfStep(nodes, DepsOf(nodes[..|nodes| - 1]));
    }
  }

  /** The inductive step of DepsOfMeaning: the last node adds what it reads. */
  lemma {:induction false} DepsOfStep(nodes: seq<Node>, deps: seq<Graph>)
    requires nodes != [] && Scheduler.NoDup(deps)
    requires forall h :: h in deps <==> exists k :: 0 <= k < |nodes| - 1 && h in Refs(nodes[k].kind)
    ensures var r := AddRefs(deps, nodes[|nodes| - 1].kind);
      && Scheduler.NoDup(r)
      && forall h :: h in r <==> exists k :: 0 <= k < |nodes| && h in Refs(nodes[k].kind)
  {
    var last := nodes[|nodes| - 1];
    var r := AddRefs(deps, last.kind);
    forall h ensures h in r <==> exists k :: 0 <= k < |nodes| && h in Refs(nodes[k].kind) {
      assert h in Scheduler.Elems(r) <==> h in deps || h in Refs(last.kind);
      if exists k :: 0 <= k < |nodes| && h in Refs(nodes[k].kind) {
        var k :| 0 <= k < |nodes| && h in Refs(nodes[k].kind);
        if k < |nodes| - 1 {
          assert h in deps;
        }
      }
    }
  }

  /** The dependencies lie within any set that holds every graph the nodes
      read. */
  lemma {:induction false} DepsWithin(nodes: seq<Node>, S: set<Graph>)
    requires forall k :: 0 <= k < |nodes| ==> Scheduler.Elems(Refs(nodes[k].kind)) <= S
    ensures Scheduler.Elems(DepsOf(nodes)) <= S
  {
    if nodes != [] {
      var init := nodes[..|nodes| - 1];
      assert forall k :: 0 <= k < |init| ==> init[k] == nodes[k];
      DepsWithin(init, S);
    }
  }

  /** The graphs built so far, with their dependencies among them and ranked
      below their dependents. */
  ghost predicate RankedWorld(world: set<Graph>)
  {
    forall g :: g in world ==> forall i :: 0 <= i < |g.dependencies| ==>
      g.dependencies[i] in world && g.dependencies[i].rank < g.rank
  }

  ghost function DepMap(world: set<Graph>): map<Graph, seq<Graph>>
  {
    map g | g in world :: g.dependencies
  }

  ghost function RankMap(world: set<Graph>): map<Graph, nat>
  {
    map g | g in world :: g.rank
  }

  /** `_topological_sort` as written, for a graph ranked `rank` over
      `deps`: from the flags `before`, it leaves the flags `after` and the
      order `order`. */
  ghost predicate SortOf(world: set<Graph>, deps: seq<Graph>, rank: nat, before: set<Graph>, after: set<Graph>, order: seq<Graph>)
  {
    && Scheduler.Ranked(DepMap(world), RankMap(world)) && Scheduler.Below(DepMap(world), RankMap(world), deps, rank)
    && (after, order) == Scheduler.TopoSort(DepMap(world), RankMap(world), deps, rank, before)
  }

  /** No graph reachable from `deps` is among the flagged graphs `before`. */
  ghost predicate Unflagged(world: set<Graph>, deps: seq<Graph>, rank: nat, before: set<Graph>)
  {
    && Scheduler.Ranked(DepMap(world), RankMap(world)) && Scheduler.Below(DepMap(world), RankMap(world), deps, rank)
    && forall y :: y in before ==> y !in Scheduler.ReachList(DepMap(world), RankMap(world), deps, rank, 0)
  }

  /** The flags the sort leaves: starting with nothing in reach flagged,
      every graph it reached stays flagged except the direct dependencies;
      when every direct dependency is already flagged, the order is empty
      and only their flags are cleared. */
  lemma {:induction false} SortFlags(world: set<Graph>, deps: seq<Graph>, rank: nat, before: set<Graph>, after: set<Graph>, order: seq<Graph>)
    requires SortOf(world, deps, rank, before, after, order)
    ensures Unflagged(world, deps, rank, before) ==>
      after == (before + Scheduler.ReachList(DepMap(world), RankMap(world), deps, rank, 0)) - Scheduler.Elems(deps)
    ensures (forall j :: 0 <= j < |deps| ==> deps[j] in before) ==> order == [] && after == before - Scheduler.Elems(deps)
  {
    Scheduler.TopoSortWithin(DepMap(world), RankMap(world), deps, rank, before);
    if Unflagged(world, deps, rank, before) {
      Scheduler.TopoSortCorrect(DepMap(world), RankMap(world), deps, rank, before);
    }
  }

  /** What `_topological_sort` leaves in `order` when it starts unflagged:
      every graph once, each after its own dependencies, and exactly the
      graphs reachable from `deps`, which all rank below `rank`. */
  ghost predicate OrderOf(world: set<Graph>, deps: seq<Graph>, rank: nat, order: seq<Graph>)
  {
    && Scheduler.NoDup(order) && Scheduler.Closed(DepMap(world), order)
    && Scheduler.Ranked(DepMap(world), RankMap(world)) && Scheduler.Below(DepMap(world), RankMap(world), deps, rank)
    && Scheduler.Elems(order) == Scheduler.ReachList(DepMap(world), RankMap(world), deps, rank, 0)
  }

  /** The graphs whose search flag is set. */
  ghost function UsedSet(world: set<Graph>): set<Graph>
    reads world`used
  {
    set g | g in world && g.used
  }

  lemma {:induction false} RankedWorldRanked(world: set<Graph>)
    requires RankedWorld(world)
    ensures Scheduler.Ranked(DepMap(world), RankMap(world))
  {
  }

  ghost function MaxRank(gs: seq<Graph>): (m: nat)
    ensures forall i :: 0 <= i < |gs| ==> gs[i].rank <= m
  {
    if gs == [] then 0
    else
      var m := MaxRank(gs[..|gs| - 1]);
      assert forall i :: 0 <= i < |gs| - 1 ==> gs[..|gs| - 1][i] == gs[i];
      if gs[|gs| - 1].rank > m then gs[|gs| - 1].rank else m
  }

  /** What a run relies on for a graph `g`, with `U` the graphs and `N` the
      nodes in play: its node list is an intact chain starting at an Input
      node, and every graph in its order, and every graph a Join node of it
      reads, is in play and ranked below it. */
  ghost predicate GraphOk(g: Graph, U: set<Graph>, N: set<Node>)
    reads g`order, N`input
  {
    && |g.nodes| > 0
    && (forall k :: 0 <= k < |g.nodes| ==> g.nodes[k] in N)
    && g.nodes[0] == g.inputNode && g.inputNode.kind.InputKind?
    && Scheduler.NoDup(g.nodes)
    && (forall k :: 0 < k < |g.nodes| ==> g.nodes[k].input == NodeLink(g.nodes[k - 1]))
    && (forall i :: 0 <= i < |g.order| ==> g.order[i] in U && g.order[i].rank < g.rank)
    && (forall k :: 0 <= k < |g.nodes| && g.nodes[k].kind.JoinKind? ==> g.nodes[k].kind.on in U && g.nodes[k].kind.on.rank < g.rank)
  }

  /** Node `k` of a graph of the world is a node of the world that does not
      come earlier in the chain, and a Join there reads a graph of the world. */
  lemma {:induction false} StageNode(g: Graph, U: set<Graph>, N: set<Node>, k: nat)
    requires g in U && World(U, N) && k < |g.nodes|
    ensures g.nodes[k] in N && g.nodes[k] !in g.nodes[..k]
    ensures g.nodes[k].kind.JoinKind? ==> g.nodes[k].kind.on in U
  {
    assert GraphOk(g, U, N);
    assert forall j :: 0 <= j < k ==> g.nodes[..k][j] == g.nodes[j];
  }

  /** Every graph one of `g`'s nodes reads is in its order. */
  ghost predicate RefsInOrder(g: Graph)
    reads g`order
  {
    forall k, h :: 0 <= k < |g.nodes| && h in Refs(g.nodes[k].kind) ==> h in g.order
  }

  ghost predicate World(U: set<Graph>, N: set<Node>)
    reads U`order, N`input
  {
    forall g :: g in U ==> GraphOk(g, U, N)
  }

  /** The input nodes a run may point at a file: those of the graphs named
      in `inputs`, or the graph's own input node when only `inputFile` is
      given. */
  ghost function Targets(inputs: Option<seq<(Graph, string)>>, inputFile: Option<string>, own: Node): set<Node>
  {
    match inputs
    case Some(items) => set p | 0 <= p < |items| :: items[p].0.inputNode
    case None => if inputFile.Some? then {own} else {}
  }

  /** Entry `p` of `items` names a graph of the order, and no later entry
      before `upto` names a graph of the order with the same input node. */
  ghost predicate Settled(items: seq<(Graph, string)>, p: nat, upto: nat, order: seq<Graph>)
    requires p < upto <= |items|
  {
    && items[p].0 in order
    && forall q :: p < q < upto ==> !(items[q].0 in order && items[q].0.inputNode == items[p].0.inputNode)
  }

  /** An entry settled up to `upto + 1` was settled up to `upto`, and entry
      `upto`, when it names a graph of the order, has another input node. */
  lemma {:induction false} SettledBefore(items: seq<(Graph, string)>, p: nat, upto: nat, order: seq<Graph>)
    requires p < upto < |items| && Settled(items, p, upto + 1, order)
    ensures Settled(items, p, upto, order)
    ensures items[upto].0 in order ==> items[upto].0.inputNode != items[p].0.inputNode
  {
  }

  /** The graphs a node reads have been computed. */
  ghost predicate Computed(k: Kind)
    reads Refs(k)
  {
    forall h :: h in Refs(k) ==> h.res.Some?
  }

  /** The records `nodes[k]` yields when the nodes after the first are
      Map, Sort, Reduce and Fold stages, `y0` being what the first yields:
      each stage runs on what the one before it yielded, a Fold from the
      state it holds. */
  ghost function ChainYield(nodes: seq<Node>, k: nat, y0: Result<seq<Record>>): (r: Result<seq<Record>>)
    requires k < |nodes|
    requires forall j :: 0 < j <= k ==> !nodes[j].kind.InputKind? && !nodes[j].kind.JoinKind?
    reads nodes`state
    ensures k == 0 ==> r == y0
    ensures k > 0 && ChainYield(nodes, k - 1, y0).Err? ==> r == ChainYield(nodes, k - 1, y0)
    decreases k
  {
    if k == 0 then y0
    else
      match ChainYield(nodes, k - 1, y0)
      case Err(e) => Err(e)
      case Ok(up) => StageRun(nodes[k].kind, nodes[k].state, None, up)
  }

  class Graph {
    const inputNode: Node
    const outputNode: Node
    const name: Option<string>
    const nodes: seq<Node>
    const dependencies: seq<Graph>
    ghost const rank: nat
    var used: bool
    var res: Option<seq<Record>>
    var order: seq<Graph>

    /** `__init__` from the node list onwards: store the fields, then sort
        the dependencies. `world` is the graphs built before, some of which
        an earlier sort may have left flagged. */
    constructor (inputNode: Node, outputNode: Node, name: Option<string>, nodes: seq<Node>,
                 deps: seq<Graph>, ghost world: set<Graph>)
      requires RankedWorld(world) && forall d :: d in deps ==> d in world
      modifies world`used
      ensures this.inputNode == inputNode && this.outputNode == outputNode && this.name == name
      ensures this.nodes == nodes && dependencies == deps && res == None && !used
      ensures forall d :: d in deps ==> d.rank < rank
      ensures SortOf(world, deps, rank, old(UsedSet(world)), UsedSet(world), order)
      ensures forall i :: 0 <= i < |order| ==> order[i] in world && order[i].rank < rank
      ensures Unflagged(world, deps, rank, old(UsedSet(world))) ==> OrderOf(world, deps, rank, order)
    {
      this.inputNode := inputNode;
      this.outputNode := outputNode;
      this.name := name;
      this.nodes := nodes;
      dependencies := deps;
      rank := 1 + MaxRank(deps);
      used := false;
      res := None;
      order := [];
      new;
      RankedWorldRanked(world);
      ghost var before := UsedSet(world);
      TopologicalSort(world);
      Scheduler.TopoSortWithin(DepMap(world), RankMap(world), deps, rank, before);
      OrderBelow(order, world, deps, rank);
      if Unflagged(world, deps, rank, before) {
        Scheduler.TopoSortCorrect(DepMap(world), RankMap(world), deps, rank, before);
      }
    }

    /** Graph(input_node, output_node, name): build the node list, collect
        the dependencies, sort them. `chain` is the walk back from the
        output node and `world` the graphs built before. */
    static method Build(inputNode: Node, outputNode: Node, name: Option<string>,
                        ghost chain: seq<Node>, ghost world: set<Graph>, ghost N: set<Node>)
      returns (r: Result<Graph>)
      requires Walk(chain, inputNode, outputNode)
      requires RankedWorld(world)
      requires forall k, h :: 0 <= k < |chain| && h in Refs(chain[k].kind) ==> h in world
      modifies world`used
      ensures r.Ok? <==> chain[|chain| - 1] == inputNode
      ensures r.Err? ==> (r.error == RuntimeError <==> chain[|chain| - 1].input.NoLink?)
      ensures r.Err? ==> (r.error == AttributeError <==> chain[|chain| - 1].input.ListLink?)
      ensures r.Err? ==> UsedSet(world) == old(UsedSet(world))
      ensures r.Ok? ==> var g := r.value;
        && fresh(g) && g.nodes == Reverse(chain) && g.inputNode == inputNode && g.outputNode == outputNode
        && g.dependencies == DepsOf(g.nodes) && g.res == None && !g.used
        && (forall d :: d in g.dependencies ==> d in world && d.rank < g.rank)
        && SortOf(world, g.dependencies, g.rank, old(UsedSet(world)), UsedSet(world), g.order)
        && (Unflagged(world, g.dependencies, g.rank, old(UsedSet(world))) ==>
              OrderOf(world, g.dependencies, g.rank, g.order) && RefsInOrder(g))
      ensures r.Ok? && inputNode.kind.InputKind? ==>
        GraphOk(r.value, world + {r.value}, N + Scheduler.Elems(r.value.nodes))
    {
      var list := CreateNodeList(inputNode, outputNode, chain);
      if list.Err? {
        return Err(list.error);
      }
      var nodes := list.value;
      var deps := CollectDependencies(nodes);
      DepsInWorld(chain, nodes, world);
      ghost var before := UsedSet(world);
      var g := new Graph(inputNode, outputNode, name, nodes, deps, world);
      r := Ok(g);
      if Unflagged(world, deps, g.rank, before) {
        RefsOrdered(g, world);
      }
      if inputNode.kind.InputKind? {
        BuiltOk(g, world, chain, N);
      }
    }

    /** The graphs a walk's nodes read are among the graphs built before. */
    static lemma {:induction false} DepsInWorld(chain: seq<Node>, nodes: seq<Node>, world: set<Graph>)
      requires nodes == Reverse(chain)
      requires forall k, h :: 0 <= k < |chain| && h in Refs(chain[k].kind) ==> h in world
      ensures Scheduler.Elems(DepsOf(nodes)) <= world
    {
      forall k | 0 <= k < |nodes| ensures Scheduler.Elems(Refs(nodes[k].kind)) <= world {
        assert nodes[k] == chain[|chain| - 1 - k];
      }
      DepsWithin(nodes, world);
    }

    /** A built graph over an Input node meets what its runs rely on. */
    static lemma {:induction false} BuiltOk(g: Graph, world: set<Graph>, chain: seq<Node>, N: set<Node>)
      requires Walk(chain, g.inputNode, g.outputNode) && chain[|chain| - 1] == g.inputNode
      requires g.inputNode.kind.InputKind? && RankedWorld(world)
      requires g.nodes == Reverse(chain) && g.dependencies == DepsOf(g.nodes)
      requires forall d :: d in g.dependencies ==> d in world && d.rank < g.rank
      requires forall i :: 0 <= i < |g.order| ==> g.order[i] in world && g.order[i].rank < g.rank
      ensures GraphOk(g, world + {g}, N + Scheduler.Elems(g.nodes))
    {
      RefsBelow(g, world);
      ReversedWalk(chain, g.inputNode, g.outputNode, g.nodes);
      assert forall k :: 0 <= k < |g.nodes| ==> g.nodes[k] in Scheduler.Elems(g.nodes);
    }

    /** Every graph a node of a built graph reads was built before it and
        ranks below it. */
    static lemma {:induction false} RefsBelow(g: Graph, world: set<Graph>)
      requires g.dependencies == DepsOf(g.nodes)
      requires forall d :: d in g.dependencies ==> d in world && d.rank < g.rank
      ensures forall k, h :: 0 <= k < |g.nodes| && h in Refs(g.nodes[k].kind) ==> h in world && h.rank < g.rank
      ensures forall k :: 0 <= k < |g.nodes| && g.nodes[k].kind.JoinKind? ==> g.nodes[k].kind.on in world && g.nodes[k].kind.on.rank < g.rank
    {
      DepsOfMeaning(g.nodes);
      forall k, h | 0 <= k < |g.nodes| && h in Refs(g.nodes[k].kind) ensures h in world && h.rank < g.rank {
        assert h in DepsOf(g.nodes);
      }
      forall k | 0 <= k < |g.nodes| && g.nodes[k].kind.JoinKind? ensures g.nodes[k].kind.on in world {
        assert g.nodes[k].kind.on in Refs(g.nodes[k].kind);
      }
    }

    /** An order within the reach of the dependencies, as the sort leaves
        it whatever was flagged, lists graphs built before, ranked below. */
    static lemma {:induction false} OrderBelow(order: seq<Graph>, world: set<Graph>, deps: seq<Graph>, rank: nat)
      requires RankedWorld(world) && forall d :: d in deps ==> d in world && d.rank < rank
      requires Scheduler.Elems(order) <= Scheduler.ReachList(DepMap(world), RankMap(world), deps, rank, 0)
      ensures forall i :: 0 <= i < |order| ==> order[i] in world && order[i].rank < rank
    {
      var D, R := DepMap(world), RankMap(world);
      RankedWorldRanked(world);
      Scheduler.ReachListRank(D, R, deps, rank, 0);
      forall i | 0 <= i < |order| ensures order[i] in world && order[i].rank < rank {
        assert order[i] in Scheduler.Elems(order);
        assert R[order[i]] == order[i].rank;
      }
    }

    /** When the order is the whole reach, as a sort that starts unflagged
        leaves it, every graph a node of the built graph reads is in it. */
    static lemma {:induction false} RefsOrdered(g: Graph, world: set<Graph>)
      requires RankedWorld(world) && g.dependencies == DepsOf(g.nodes)
      requires forall d :: d in g.dependencies ==> d in world && d.rank < g.rank
      requires Scheduler.Elems(g.order) == Scheduler.ReachList(DepMap(world), RankMap(world), g.dependencies, g.rank, 0)
      ensures RefsInOrder(g)
    {
      var D, R := DepMap(world), RankMap(world);
      RankedWorldRanked(world);
      DepsOfMeaning(g.nodes);
      forall j | 0 <= j < |g.dependencies| ensures g.dependencies[j] in g.order {
        Scheduler.ReachListHas(D, R, g.dependencies, g.rank, 0, j);
        Scheduler.ReachRank(D, R, g.dependencies[j]);
        assert g.dependencies[j] in Scheduler.Reach(D, R, g.dependencies[j]);
        assert g.dependencies[j] in Scheduler.Elems(g.order);
      }
      forall k, h | 0 <= k < |g.nodes| && h in Refs(g.nodes[k].kind) ensures h in g.order {
        assert h in DepsOf(g.nodes);
        var j :| 0 <= j < |g.dependencies| && g.dependencies[j] == h;
      }
    }

    /** A complete walk, reversed, is a duplicate-free chain of links from
        the input node to the output node. */
    static lemma {:induction false} ReversedWalk(chain: seq<Node>, inputNode: Node, outputNode: Node, nodes: seq<Node>)
      requires Walk(chain, inputNode, outputNode) && nodes == Reverse(chain)
      ensures Scheduler.NoDup(nodes)
      ensures forall k :: 0 < k < |nodes| ==> nodes[k].input == NodeLink(nodes[k - 1])
    {
      forall i, j | 0 <= i < j < |nodes| ensures nodes[i] != nodes[j] {
        WalkDistinct(chain, inputNode, outputNode, |chain| - 1 - j, |chain| - 1 - i);
      }
      forall k | 0 < k < |nodes| ensures nodes[k].input == NodeLink(nodes[k - 1]) {
        assert nodes[k] == chain[|chain| - 1 - k] && nodes[k - 1] == chain[|chain| - 1 - k + 1];
      }
    }

    /** `_create_node_list`: walk back from the output node to the input
        node and return the nodes input first. A node without input is a
        RuntimeError; a list in place of a node is an AttributeError
        (it has no `input`). */
    static method CreateNodeList(inputNode: Node, outputNode: Node, ghost chain: seq<Node>) returns (r: Result<seq<Node>>)
      requires Walk(chain, inputNode, outputNode)
      ensures r.Ok? <==> chain[|chain| - 1] == inputNode
      ensures r.Ok? ==> r.value == Reverse(chain)
      ensures r.Ok? ==> r.value[0] == inputNode && r.value[|r.value| - 1] == outputNode
      ensures r.Ok? ==> forall k :: 0 < k < |r.value| ==> r.value[k].input == NodeLink(r.value[k - 1])
      ensures r.Err? ==> (r.error == RuntimeError <==> chain[|chain| - 1].input.NoLink?)
      ensures r.Err? ==> (r.error == AttributeError <==> chain[|chain| - 1].input.ListLink?)
    {
      var result: seq<Node> := [];
      var current := outputNode;
      ghost var i := 0;
      while current != inputNode
        invariant 0 <= i < |chain| && current == chain[i] && result == chain[..i]
        decreases |chain| - i
      {
        result := result + [current];
        if i < |chain| - 1 {
          assert chain[i].input == NodeLink(chain[i + 1]);
        }
        match current.input
        case NoLink =>
          assert i == |chain| - 1;
          return Err(RuntimeError);
        case ListLink(_) =>
          assert i == |chain| - 1;
          return Err(AttributeError);
        case NodeLink(n) =>
          current := n;
          i := i + 1;
      }
      result := result + [inputNode];
      assert i == |chain| - 1 && result == chain;
      var nodes := Reverse(result);
      forall k | 0 < k < |nodes| ensures nodes[k].input == NodeLink(nodes[k - 1]) {
        assert nodes[k] == chain[|chain| - 1 - k] && nodes[k - 1] == chain[|chain| - 1 - k + 1];
      }
      r := Ok(nodes);
    }

    /** The scan in `__init__` that fills `_dependencies`. */
    static method CollectDependencies(nodes: seq<Node>) returns (deps: seq<Graph>)
      ensures deps == DepsOf(nodes)
    {
      deps := [];
      var i := 0;
      while i < |nodes|
        invariant 0 <= i <= |nodes| && deps == DepsOf(nodes[..i])
      {
        assert nodes[..i + 1][..i] == nodes[..i];
        var node := nodes[i];
        if node.kind.JoinKind? {
          if node.kind.on !in deps {
            deps := deps + [node.kind.on];
          }
        }
        if node.kind.InputKind? && node.kind.source.Some? {
          if node.kind.source.value !in deps {
            deps := deps + [node.kind.source.value];
          }
        }
        i := i + 1;
      }
      assert nodes[..i] == nodes;
    }

    /** `_topological_sort`: search every unflagged dependency, then clear
        the flags of the direct dependencies only, so flags the search set
        deeper down stay set (see `Scheduler.StaleFlag`). */
    method TopologicalSort(ghost world: set<Graph>)
      requires RankedWorld(world) && forall d :: d in dependencies ==> d in world && d.rank < rank
      modifies this`order, world`used
      ensures SortOf(world, dependencies, rank, old(UsedSet(world)), UsedSet(world), order)
    {
      ghost var D, R := DepMap(world), RankMap(world);
      RankedWorldRanked(world);
      order := [];
      var i := 0;
      while i < |dependencies|
        invariant 0 <= i <= |dependencies|
        invariant Scheduler.VisitList(D, R, dependencies, rank, i, UsedSet(world), order)
               == Scheduler.VisitList(D, R, dependencies, rank, 0, old(UsedSet(world)), [])
      {
        var g := dependencies[i];
        if !g.used {
          assert g !in UsedSet(world);
          DepthFirstSearch(g, world);
        } else {
          assert g in UsedSet(world);
        }
        i := i + 1;
      }
      ClearFlags(world);
    }

    /** The loop at the end of `_topological_sort`, over `_dependencies`. */
    method ClearFlags(ghost world: set<Graph>)
      requires forall d :: d in dependencies ==> d in world
      modifies world`used
      ensures UsedSet(world) == old(UsedSet(world)) - Scheduler.Elems(dependencies)
    {
      var j := 0;
      while j < |dependencies|
        invariant 0 <= j <= |dependencies|
        invariant UsedSet(world) == old(UsedSet(world)) - Scheduler.Elems(dependencies[..j])
      {
        ghost var before := UsedSet(world);
        dependencies[j].used := false;
        assert UsedSet(world) == before - {dependencies[j]};
        assert Scheduler.Elems(dependencies[..j + 1]) == Scheduler.Elems(dependencies[..j]) + {dependencies[j]};
        j := j + 1;
      }
      assert dependencies[..j] == dependencies;
    }

    /** `_depth_first_search(x)`. */
    method DepthFirstSearch(x: Graph, ghost world: set<Graph>)
      requires RankedWorld(world) && x in world && !x.used
      modifies this`order, world`used
      ensures RankedWorld(world)
      ensures (UsedSet(world), order) == Scheduler.Visit(DepMap(world), RankMap(world), x, old(UsedSet(world)), old(order))
      decreases x.rank
    {
      ghost var D, R := DepMap(world), RankMap(world);
      RankedWorldRanked(world);
      ghost var start := UsedSet(world);
      x.used := true;
      assert UsedSet(world) == start + {x};
      var i := 0;
      while i < |x.dependencies|
        invariant 0 <= i <= |x.dependencies|
        invariant Scheduler.VisitList(D, R, x.dependencies, x.rank, i, UsedSet(world), order)
               == Scheduler.VisitList(D, R, x.dependencies, x.rank, 0, start + {x}, old(order))
      {
        var c := x.dependencies[i];
        Scheduler.VisitListStep(D, R, x.dependencies, x.rank, i, UsedSet(world), order);
        if !c.used {
          assert c !in UsedSet(world);
          DepthFirstSearch(c, world);
        } else {
          assert c in UsedSet(world);
        }
        i := i + 1;
      }
      order := order + [x];
    }

    /** Graph.run: point the input nodes named in `inputs` (or this graph's
        own, given `inputFile` alone) at their files, compute every graph in
        the order that has no result yet, then pull the records out of the
        last node. `U` and `N` are the graphs and nodes in play. */
    method Run(inputs: Option<seq<(Graph, string)>>, inputFile: Option<string>,
               files: map<string, seq<Record>>, ghost U: set<Graph>, ghost N: set<Node>)
      returns (r: Result<seq<Record>>)
      requires this in U && World(U, N)
      modifies N`inputFile, N`state, N`output, N`joinRes, N`leftKeys, N`rightKeys, U`res
      ensures forall h :: h in U && h.rank >= rank ==> h.res == old(h.res)
      ensures forall h :: h in U && old(h.res).Some? ==> h.res.Some? && |h.res.value| == |old(h.res).value|
      ensures r.Ok? ==> forall i :: 0 <= i < |order| ==> order[i].res.Some?
      ensures r.Ok? && RefsInOrder(this) ==> forall k :: 0 <= k < |nodes| ==> Computed(nodes[k].kind)
      decreases rank, 2
    {
      SetInputFiles(inputs, inputFile, U, N);
      var err := ComputeOrder(files, U, N);
      if err.Some? {
        return Err(err.value);
      }
      r := Pull(|nodes| - 1, files, U, N);
      if r.Ok? && RefsInOrder(this) {
        forall k | 0 <= k < |nodes| ensures Computed(nodes[k].kind) {
          forall h | h in Refs(nodes[k].kind) ensures h.res.Some? {
            assert h in order;
            var j :| 0 <= j < |order| && order[j] == h;
          }
        }
      }
    }

    /** The loop of Graph.run over the order: compute, with no inputs and no
        input file, every graph that has no result yet. */
    method ComputeOrder(files: map<string, seq<Record>>, ghost U: set<Graph>, ghost N: set<Node>)
      returns (err: Option<Error>)
      requires this in U && World(U, N)
      modifies N`inputFile, N`state, N`output, N`joinRes, N`leftKeys, N`rightKeys, U`res
      ensures forall h :: h in U && h.rank >= rank ==> h.res == old(h.res)
      ensures forall h :: h in U && old(h.res).Some? ==> h.res.Some? && |h.res.value| == |old(h.res).value|
      ensures err.None? ==> forall i :: 0 <= i < |order| ==> order[i].res.Some?
      decreases rank, 1
    {
      assert GraphOk(this, U, N);
      var i := 0;
      while i < |order|
        invariant 0 <= i <= |order|
        invariant World(U, N)
        invariant forall j :: 0 <= j < i ==> order[j].res.Some?
        invariant forall h :: h in U && h.rank >= rank ==> h.res == old(h.res)
        invariant forall h :: h in U && old(h.res).Some? ==> h.res.Some? && |h.res.value| == |old(h.res).value|
      {
        assert order[i] in U && order[i].rank < rank;
        err := ComputeOne(order[i], files, U, N);
        if err.Some? {
          return;
        }
        i := i + 1;
      }
      err := None;
    }

    /** One turn of that loop: run graph `d`, ranked below this one, unless
        it already holds a result, and store what it yields. */
    method ComputeOne(d: Graph, files: map<string, seq<Record>>, ghost U: set<Graph>, ghost N: set<Node>)
      returns (err: Option<Error>)
      requires d in U && World(U, N) && d.rank < rank
      modifies N`inputFile, N`state, N`output, N`joinRes, N`leftKeys, N`rightKeys, U`res
      ensures err.None? ==> d.res.Some?
      ensures old(d.res).Some? ==> err.None? && unchanged(U) && unchanged(N)
      ensures forall h :: h in U && h.rank >= rank ==> h.res == old(h.res)
      ensures forall h :: h in U && old(h.res).Some? ==> h.res.Some? && |h.res.value| == |old(h.res).value|
      decreases rank, 0
    {
      if d.res.Some? {
        return None;
      }
      var v := d.Run(None, None, files, U, N);
      if v.Err? {
        return Some(v.error);
      }
      assert old(d.res).None? && d.res.None?;
      d.res := Some(v.value);
      err := None;
    }

    /** The inner loop of Graph.run over `order`: the first position holding
        `graph`, or `|order|` when there is none. */
    static method FindGraph(order: seq<Graph>, graph: Graph) returns (j: nat)
      ensures j <= |order| && graph !in order[..j]
      ensures j < |order| ==> order[j] == graph
    {
      j := 0;
      while j < |order| && order[j] != graph
        invariant 0 <= j <= |order| && graph !in order[..j]
      {
        j := j + 1;
      }
    }

    /** The part of Graph.run that sets input files. */
    method SetInputFiles(inputs: Option<seq<(Graph, string)>>, inputFile: Option<string>,
                         ghost U: set<Graph>, ghost N: set<Node>)
      requires this in U && World(U, N)
      modifies N`inputFile
      ensures inputs.None? && inputFile.Some? ==> inputNode.inputFile == inputFile
      ensures inputs.Some? ==> forall p :: 0 <= p < |inputs.value| && Settled(inputs.value, p, |inputs.value|, order) ==>
        inputs.value[p].0.inputNode.inputFile == Some(inputs.value[p].1)
      ensures forall n :: n in N && n !in Targets(inputs, inputFile, inputNode) ==> n.inputFile == old(n.inputFile)
    {
      if inputs.Some? {
        SetListedFiles(inputs.value, U, N);
      } else if inputFile.Some? {
        assert GraphOk(this, U, N);
        inputNode.inputFile := inputFile;
      }
    }

    /** The loop over `inputs`: each entry whose graph is in the order points
        that graph's input node at the entry's file. */
    method SetListedFiles(items: seq<(Graph, string)>, ghost U: set<Graph>, ghost N: set<Node>)
      requires this in U && World(U, N)
      modifies N`inputFile
      ensures forall p :: 0 <= p < |items| && Settled(items, p, |items|, order) ==>
        items[p].0.inputNode.inputFile == Some(items[p].1)
      ensures forall n :: n in N && n !in Targets(Some(items), None, inputNode) ==> n.inputFile == old(n.inputFile)
    {
      ghost var T := Targets(Some(items), None, inputNode);
      var i := 0;
      while i < |items|
        invariant 0 <= i <= |items|
        invariant forall p :: 0 <= p < i && Settled(items, p, i, order) ==> items[p].0.inputNode.inputFile == Some(items[p].1)
        invariant forall n :: n in N && n !in T ==> n.inputFile == old(n.inputFile)
      {
        SetFileOf(items[i].0, items[i].1, U, N);
        assert items[i].0 in order ==> items[i].0.inputNode in T;
        forall p | 0 <= p < i + 1 && Settled(items, p, i + 1, order)
          ensures items[p].0.inputNode.inputFile == Some(items[p].1)
        {
          if p < i {
            SettledBefore(items, p, i, order);
          }
        }
        i := i + 1;
      }
    }

    /** One turn of that loop: find `graph` in the order and, when it is
        there, point its input node at `file`. */
    method SetFileOf(graph: Graph, file: string, ghost U: set<Graph>, ghost N: set<Node>)
      requires this in U && World(U, N)
      modifies N`inputFile
      ensures graph in order ==> graph.inputNode in N && graph.inputNode.inputFile == Some(file)
      ensures forall n :: n in N && !(graph in order && n == graph.inputNode) ==> n.inputFile == old(n.inputFile)
    {
      var j := FindGraph(order, graph);
      if j < |order| {
        assert graph.inputNode in N by {
          assert GraphOk(this, U, N);
          assert GraphOk(order[j], U, N);
        }
        graph.inputNode.inputFile := Some(file);
      } else {
        assert order[..j] == order;
      }
    }

    /** The records `nodes[k]` yields: an Input node yields from its source,
        any other node runs on what its input yields. */
    method Pull(k: nat, files: map<string, seq<Record>>, ghost U: set<Graph>, ghost N: set<Node>)
      returns (r: Result<seq<Record>>)
      requires this in U && World(U, N) && k < |nodes|
      modifies N`state, N`output, N`joinRes, N`leftKeys, N`rightKeys, U`res
      ensures forall h :: h in U && h.rank >= rank ==> h.res == old(h.res)
      ensures forall h :: h in U && old(h.res).Some? ==> h.res.Some? && |h.res.value| == |old(h.res).value|
      ensures nodes[k].kind.InputKind? ==> r == old(nodes[k].Yield(files))
      ensures forall n :: n in N && n !in nodes[..k + 1] ==> n.state == old(n.state)
      ensures (forall j :: 0 < j <= k ==> !nodes[j].kind.InputKind? && !nodes[j].kind.JoinKind?) ==>
        r == old(ChainYield(nodes, k, nodes[0].Yield(files)))
      decreases k, 1
    {
      var n := nodes[k];
      if n.kind.InputKind? {
        var source := n.kind.source;
        r := InputYield(if source.Some? then Some(source.value.res) else None, n.input, n.inputFile, files);
      } else {
        assert GraphOk(this, U, N);
        r := PullStage(k, files, U, N);
      }
    }

    /** Pull for a node that is not an Input node: pull from the node before
        it, then run this one on those records. */
    method PullStage(k: nat, files: map<string, seq<Record>>, ghost U: set<Graph>, ghost N: set<Node>)
      returns (r: Result<seq<Record>>)
      requires this in U && World(U, N) && 0 < k < |nodes| && !nodes[k].kind.InputKind?
      modifies N`state, N`output, N`joinRes, N`leftKeys, N`rightKeys, U`res
      ensures forall h :: h in U && h.rank >= rank ==> h.res == old(h.res)
      ensures forall h :: h in U && old(h.res).Some? ==> h.res.Some? && |h.res.value| == |old(h.res).value|
      ensures forall n :: n in N && n !in nodes[..k + 1] ==> n.state == old(n.state)
      ensures (forall j :: 0 < j <= k ==> !nodes[j].kind.InputKind? && !nodes[j].kind.JoinKind?) ==>
        r == old(ChainYield(nodes, k, nodes[0].Yield(files)))
      decreases k, 0
    {
      StageNode(this, U, N, k);
      var n := nodes[k];
      var up := Pull(k - 1, files, U, N);
      if up.Err? {
        r := Err(up.error);
        return;
      }
      r := n.Step(up.value, U);
    }
  }
}
