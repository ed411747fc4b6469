/**
 The layout bookkeeping of `SchemaDiagram`: which graph's layout is pending, which one is
 applied, when the spinner is on, and where every table stands. Renders, passive effects and
 layout answers are separate steps, so an answer may land between a render and its effects.
 */
module Layout {
  import opened Options
  import opened Sequences

  datatype Pos = Pos(x: real, y: real)

  datatype Node = Node(id: string, position: Pos)

  datatype Edge = Edge(id: string, source: string, target: string)

  /** A built graph; `stamp` is its identity as an object, `signature` that of its structure. */
  datatype Graph = Graph(stamp: nat, nodes: seq<Node>, edges: seq<Edge>, signature: string)

  /** One run of the layout engine and the graph its closure holds. */
  datatype Job = Job(n: nat, graph: Graph)

  /** `Nothing` is a null result or a rejection. */
  datatype Outcome = Placed(children: map<string, Pos>) | Nothing

  datatype Move = Move(id: string, position: Pos)

  datatype State = State(
    graph: Graph,                  // of the latest render
    instance: nat,                 // the identity of the React Flow instance
    nodes: seq<Node>,
    edges: seq<Edge>,
    positions: map<string, Pos>,
    lastLayoutSig: Option<string>,
    layoutedSignature: Option<string>,
    effected: Option<(Graph, nat)>,  // what the layout effect last ran for
    active: Option<Job>,             // the job the effect's cleanup would cancel
    cancelled: set<nat>,
    pending: set<Job>,
    next: nat,
    mounted: bool,
    shown: Graph)                  // the graph whose nodes are on screen
  {
    predicate IsLayouting() {
      graph.nodes != [] && layoutedSignature != Some(graph.signature)
    }

    /** The effects of the latest render have run. */
    predicate Synced() {
      mounted && effected == Some((graph, instance))
    }

    predicate Wanted(job: Job) {
      job in pending && job.n !in cancelled
    }
  }

  datatype Event =
    | Render(graph: Graph, instance: nat)
    | Effects
    | Settle(job: Job, outcome: Outcome)
    | Drag(moves: seq<Move>)
    | Unmount

  // ---------------------------------------------------------------------------
  // Nodes and remembered positions

  function Place(node: Node, positions: map<string, Pos>): (r: Node)
    ensures r.id == node.id
  {
    if node.id in positions then Node(node.id, positions[node.id]) else node
  }

  /** `restorePositions` and `applyLayout`: a node absent from the map keeps its own position. */
  function PlaceAll(nodes: seq<Node>, positions: map<string, Pos>): (r: seq<Node>)
    ensures |r| == |nodes|
    ensures forall i | 0 <= i < |r| :: r[i] == Place(nodes[i], positions)
  {
    seq(|nodes|, i requires 0 <= i < |nodes| => Place(nodes[i], positions))
  }

  /** The map after `set` on every node in turn. */
  function Remember(positions: map<string, Pos>, nodes: seq<Node>): map<string, Pos> {
    if nodes == [] then positions
    else
      var last := nodes[|nodes| - 1];
      Remember(positions, nodes[..|nodes| - 1])[last.id := last.position]
  }

  /** `applyNodeChanges` with one position change. */
  function MoveNode(nodes: seq<Node>, move: Move): seq<Node> {
    PlaceAll(nodes, map[move.id := move.position])
  }

  function MoveNodes(nodes: seq<Node>, moves: seq<Move>): seq<Node> {
    if moves == [] then nodes else MoveNode(MoveNodes(nodes, moves[..|moves| - 1]), moves[|moves| - 1])
  }

  function RememberMoves(positions: map<string, Pos>, moves: seq<Move>): map<string, Pos> {
    if moves == [] then positions
    else
      var last := moves[|moves| - 1];
      RememberMoves(positions, moves[..|moves| - 1])[last.id := last.position]
  }

  // ---------------------------------------------------------------------------
  // Steps

  function Cleanup(s: State): State {
    if s.active.Some? then s.(cancelled := s.cancelled + {s.active.value.n}, active := None) else s
  }

  function StartLayout(s: State): State {
    var job := Job(s.next, s.graph);
    s.(active := Some(job), pending := s.pending + {job}, next := s.next + 1)
  }

  function RunEffect(s: State): State {
    if s.effected == Some((s.graph, s.instance)) then s else
    var s' := Cleanup(s).(effected := Some((s.graph, s.instance)));
    if s.graph.nodes == [] || s.lastLayoutSig == Some(s.graph.signature) then s' else StartLayout(s')
  }

  function Apply(s: State, graph: Graph, outcome: Outcome): State {
    var s' := s.(lastLayoutSig := Some(graph.signature), layoutedSignature := Some(graph.signature));
    if outcome.Nothing? then s' else
    var layouted := PlaceAll(graph.nodes, outcome.children);
    s'.(positions := Remember(s.positions, layouted), nodes := layouted, shown := graph)
  }

  function Step(s: State, e: Event): State {
    match e
    case Render(graph, instance) =>
      if graph == s.graph then s.(instance := instance)
      else s.(graph := graph, instance := instance, shown := graph,
              nodes := PlaceAll(graph.nodes, s.positions), edges := graph.edges)
    case Effects => RunEffect(s)
    case Settle(job, outcome) =>
      var s' := s.(pending := s.pending - {job});
      if job.n in s.cancelled then s' else Apply(s', job.graph, outcome)
    case Drag(moves) => s.(positions := RememberMoves(s.positions, moves), nodes := MoveNodes(s.nodes, moves))
    case Unmount => Cleanup(s).(mounted := false)
  }

  ghost predicate DistinctIds(nodes: seq<Node>) {
    forall i, j | 0 <= i < j < |nodes| :: nodes[i].id != nodes[j].id
  }

  /** A node's id is its object's address, so a graph never holds one id twice. */
  ghost predicate Enabled(s: State, e: Event) {
    match e
    case Render(graph, _) => s.mounted && DistinctIds(graph.nodes)
    case Effects => s.mounted
    case Settle(job, _) => job in s.pending
    case Drag(_) => s.mounted
    case Unmount => s.mounted
  }

  function Start(graph: Graph): State {
    State(graph, 0, graph.nodes, graph.edges, map[], None, None, None, None, {}, {}, 0, true, graph)
  }

  function Exec(first: Graph, trace: seq<Event>): State {
    if trace == [] then Start(first) else Step(Exec(first, trace[..|trace| - 1]), trace[|trace| - 1])
  }

  ghost predicate Valid(first: Graph, trace: seq<Event>) {
    if trace == [] then DistinctIds(first.nodes)
    else
      && Valid(first, trace[..|trace| - 1])
      && Enabled(Exec(first, trace[..|trace| - 1]), trace[|trace| - 1])
  }

  // ---------------------------------------------------------------------------
  // The invariant

  /** Exactly the last effect's graph may have a wanted job, and it has one unless it needs none. */
  ghost predicate JobsInv(s: State) {
    && (forall job <- s.pending :: job.n < s.next)
    && (forall n <- s.cancelled :: n < s.next)
    && (s.active.Some? ==> s.active.value.n < s.next && s.active.value.n !in s.cancelled && s.effected.Some?
                           && s.active.value.graph == s.effected.value.0)
    && (forall job | s.Wanted(job) :: s.active == Some(job))
    && s.lastLayoutSig == s.layoutedSignature
    && (s.mounted && s.effected.Some? ==>
         var laid := s.effected.value.0;
         (laid.nodes != [] && s.lastLayoutSig != Some(laid.signature)) <==> s.active.Some? && s.Wanted(s.active.value))
    && (!s.mounted ==> s.active.None?)
  }

  ghost predicate NodesInv(s: State) {
    && DistinctIds(s.shown.nodes) && DistinctIds(s.graph.nodes)
    && (forall job <- s.pending :: DistinctIds(job.graph.nodes))
    && s.nodes == PlaceAll(s.shown.nodes, s.positions)
    && s.edges == s.graph.edges
  }

  lemma StepJobs(s: State, e: Event)
    requires JobsInv(s) && Enabled(s, e)
    ensures JobsInv(Step(s, e))
  {
    if e.Settle? {
      assert e.job.n !in s.cancelled ==> s.Wanted(e.job);
    }
  }

  lemma {:induction false} RememberAt(positions: map<string, Pos>, nodes: seq<Node>)
    ensures forall i | 0 <= i < |nodes| :: nodes[i].id in Remember(positions, nodes)
    ensures DistinctIds(nodes) ==> forall i | 0 <= i < |nodes| :: Remember(positions, nodes)[nodes[i].id] == nodes[i].position
    ensures forall id | (forall i | 0 <= i < |nodes| :: nodes[i].id != id) ::
              (id in Remember(positions, nodes) <==> id in positions)
              && (id in positions ==> Remember(positions, nodes)[id] == positions[id])
  {
    if nodes != [] {
      RememberAt(positions, nodes[..|nodes| - 1]);
    }
  }

  lemma {:induction false} MovesAgree(nodes: seq<Node>, positions: map<string, Pos>, moves: seq<Move>)
    ensures MoveNodes(PlaceAll(nodes, positions), moves) == PlaceAll(nodes, RememberMoves(positions, moves))
  {
    if moves != [] {
      MovesAgree(nodes, positions, moves[..|moves| - 1]);
    }
  }

  lemma AppliedIsRemembered(graph: Graph, positions: map<string, Pos>, children: map<string, Pos>)
    requires DistinctIds(graph.nodes)
    ensures
      var layouted := PlaceAll(graph.nodes, children);
      layouted == PlaceAll(graph.nodes, Remember(positions, layouted))
  {
    var layouted := PlaceAll(graph.nodes, children);
    RememberAt(positions, layouted);
  }

  lemma StepNodes(s: State, e: Event)
    requires NodesInv(s) && Enabled(s, e)
    ensures NodesInv(Step(s, e))
  {
    if e.Drag? {
      MovesAgree(s.shown.nodes, s.positions, e.moves);
    } else if e.Settle? && e.outcome.Placed? {
      AppliedIsRemembered(e.job.graph, s.positions, e.outcome.children);
    }
  }

  lemma {:induction false} Reachable(first: Graph, trace: seq<Event>)
    requires Valid(first, trace)
    ensures JobsInv(Exec(first, trace)) && NodesInv(Exec(first, trace))
  {
    if trace != [] {
      var was, e := trace[..|trace| - 1], trace[|trace| - 1];
      Reachable(first, was);
      StepJobs(Exec(first, was), e);
      StepNodes(Exec(first, was), e);
    }
  }

  // ---------------------------------------------------------------------------
  // What every run keeps

  /**
   Never skipped: once the effects of the latest render have run, the graph is empty, or its
   structure is the one last laid out, or exactly one layout is wanted and it is of that graph.
   */
  lemma LayoutIsNeverSkipped(first: Graph, trace: seq<Event>)
    requires Valid(first, trace) && Exec(first, trace).Synced()
    ensures
      var s := Exec(first, trace);
      || s.graph.nodes == []
      || s.lastLayoutSig == Some(s.graph.signature)
      || exists job :: s.Wanted(job) && job.graph == s.graph && forall other | s.Wanted(other) :: other == job
  {
    Reachable(first, trace);
    var s := Exec(first, trace);
    assert s.active.Some? && s.Wanted(s.active.value) ==> s.active.value.graph == s.graph;
  }

  /** The spinner is on exactly while a layout is wanted, so it cannot be stuck. */
  lemma SpinnerIffWanted(first: Graph, trace: seq<Event>)
    requires Valid(first, trace) && Exec(first, trace).Synced()
    ensures Exec(first, trace).IsLayouting() <==> exists job :: Exec(first, trace).Wanted(job)
  {
    Reachable(first, trace);
    var s := Exec(first, trace);
    assert s.active.Some? && s.Wanted(s.active.value) ==> exists job :: s.Wanted(job);
  }

  /** Never stale: what is applied was computed for the graph the effects last ran for. */
  lemma OnlyTheEffectsGraphIsApplied(first: Graph, trace: seq<Event>, job: Job, outcome: Outcome)
    requires Valid(first, trace) && job in Exec(first, trace).pending
    requires Step(Exec(first, trace), Settle(job, outcome)) != Exec(first, trace).(pending := Exec(first, trace).pending - {job})
    ensures
      var s := Exec(first, trace);
      && s.mounted && s.effected.Some? && s.effected.value.0 == job.graph
      && (s.Synced() ==> job.graph == s.graph && s.IsLayouting() && !Step(s, Settle(job, outcome)).IsLayouting())
  {
    Reachable(first, trace);
    assert Exec(first, trace).Wanted(job);
  }

  /** Where the last of these moves puts a table. */
  function MovedTo(moves: seq<Move>, id: string): Option<Pos> {
    if moves == [] then None
    else if moves[|moves| - 1].id == id then Some(moves[|moves| - 1].position)
    else MovedTo(moves[..|moves| - 1], id)
  }

  /** Where a graph draws a table by itself. */
  function DrawnAt(nodes: seq<Node>, id: string): Option<Pos> {
    if nodes == [] then None
    else if nodes[|nodes| - 1].id == id then Some(nodes[|nodes| - 1].position)
    else DrawnAt(nodes[..|nodes| - 1], id)
  }

  /** Where a step puts a table: a drag of it, or a layout that was not cancelled of a graph that holds it. */
  function PutBy(s: State, e: Event, id: string): Option<Pos> {
    if e.Drag? then MovedTo(e.moves, id)
    else if e.Settle? && s.Wanted(e.job) && e.outcome.Placed? && DrawnAt(e.job.graph.nodes, id).Some? then
      if id in e.outcome.children then Some(e.outcome.children[id]) else DrawnAt(e.job.graph.nodes, id)
    else None
  }

  function LastPut(first: Graph, trace: seq<Event>, id: string): Option<Pos> {
    if trace == [] then None
    else
      var put := PutBy(Exec(first, trace[..|trace| - 1]), trace[|trace| - 1], id);
      if put.Some? then put else LastPut(first, trace[..|trace| - 1], id)
  }

  lemma {:induction false} MovesPut(positions: map<string, Pos>, moves: seq<Move>, id: string)
    ensures Get(RememberMoves(positions, moves), id)
         == if MovedTo(moves, id).Some? then MovedTo(moves, id) else Get(positions, id)
  {
    if moves != [] {
      MovesPut(positions, moves[..|moves| - 1], id);
    }
  }

  lemma {:induction false} LayoutPuts(positions: map<string, Pos>, nodes: seq<Node>, children: map<string, Pos>, id: string)
    ensures Get(Remember(positions, PlaceAll(nodes, children)), id) ==
      if DrawnAt(nodes, id) == None then Get(positions, id)
      else if id in children then Some(children[id]) else DrawnAt(nodes, id)
  {
    if nodes != [] {
      var placed := PlaceAll(nodes, children);
      LayoutPuts(positions, nodes[..|nodes| - 1], children, id);
      assert placed[..|placed| - 1] == PlaceAll(nodes[..|nodes| - 1], children);
    }
  }

  lemma StepPuts(s: State, e: Event, id: string)
    requires Enabled(s, e)
    ensures Get(Step(s, e).positions, id) == if PutBy(s, e, id).Some? then PutBy(s, e, id) else Get(s.positions, id)
  {
    if e.Drag? {
      MovesPut(s.positions, e.moves, id);
    } else if e.Settle? && e.outcome.Placed? {
      LayoutPuts(s.positions, e.job.graph.nodes, e.outcome.children, id);
    }
  }

  lemma {:induction false} RememberedIsLastPut(first: Graph, trace: seq<Event>, id: string)
    requires Valid(first, trace)
    ensures Get(Exec(first, trace).positions, id) == LastPut(first, trace, id)
  {
    if trace != [] {
      RememberedIsLastPut(first, trace[..|trace| - 1], id);
      StepPuts(Exec(first, trace[..|trace| - 1]), trace[|trace| - 1], id);
    }
  }

  /** Every table on screen stands where it was last put, by hand or by a layout, else where its graph draws it. */
  lemma TablesStandWhereLastPut(first: Graph, trace: seq<Event>, i: nat)
    requires Valid(first, trace) && i < |Exec(first, trace).nodes|
    ensures
      var s := Exec(first, trace);
      && |s.nodes| == |s.shown.nodes|
      && s.nodes[i].id == s.shown.nodes[i].id
      && s.nodes[i].position ==
           match LastPut(first, trace, s.nodes[i].id)
           case Some(position) => position
           case None => s.shown.nodes[i].position
  {
    Reachable(first, trace);
    var s := Exec(first, trace);
    assert s.nodes[i] == Place(s.shown.nodes[i], s.positions);
    RememberedIsLastPut(first, trace, s.nodes[i].id);
  }

  /** The edges, unlike the nodes, are those of the graph rendered at every point of every run. */
  lemma EdgesFollowTheGraph(first: Graph, trace: seq<Event>)
    requires Valid(first, trace)
    ensures Exec(first, trace).edges == Exec(first, trace).graph.edges
  {
    Reachable(first, trace);
  }

  lemma {:induction false} MovesAreKept(positions: map<string, Pos>, moves: seq<Move>)
    ensures positions.Keys <= RememberMoves(positions, moves).Keys
    ensures forall id <- positions :: (forall m <- moves :: m.id != id) ==> RememberMoves(positions, moves)[id] == positions[id]
  {
    if moves != [] {
      MovesAreKept(positions, moves[..|moves| - 1]);
    }
  }

  predicate Places(s: State, e: Event, id: string) {
    match e
    case Drag(moves) => exists m <- moves :: m.id == id
    case Settle(job, outcome) => s.Wanted(job) && outcome.Placed? && exists n <- job.graph.nodes :: n.id == id
    case _ => false
  }

  /**
   A remembered position outlives filters, searches and expansions: only a drag of that table
   or a wanted layout of a graph that holds it moves it.
   */
  lemma PositionsSurvive(s: State, e: Event, id: string)
    requires Enabled(s, e) && id in s.positions && !Places(s, e, id)
    ensures id in Step(s, e).positions && Step(s, e).positions[id] == s.positions[id]
  {
    if e.Drag? {
      MovesAreKept(s.positions, e.moves);
    } else if e.Settle? && s.Wanted(e.job) && e.outcome.Placed? {
      RememberAt(s.positions, PlaceAll(e.job.graph.nodes, e.outcome.children));
      forall i | 0 <= i < |e.job.graph.nodes| ensures e.job.graph.nodes[i].id != id {
        assert e.job.graph.nodes[i] in e.job.graph.nodes;
      }
    }
  }

  // ---------------------------------------------------------------------------
  // The window between a render and its effects

  /** The layout effect has run for the graph rendered: the render kept the graph, or its effects are done. */
  predicate Caught(s: State) {
    s.effected.Some? && s.effected.value.0 == s.graph
  }

  /** Every layout that places nodes and was not cancelled lands after the effects of the latest new graph. */
  ghost predicate Timely(first: Graph, trace: seq<Event>) {
    trace == [] || (
      var s, e := Exec(first, trace[..|trace| - 1]), trace[|trace| - 1];
      && Timely(first, trace[..|trace| - 1])
      && (e.Settle? && e.outcome.Placed? && s.Wanted(e.job) ==> Caught(s)))
  }

  ghost predicate Follows(s: State) {
    s.shown == s.graph
  }

  ghost predicate FollowsAt(first: Graph, trace: seq<Event>) {
    Follows(Exec(first, trace))
  }

  ghost predicate AlwaysFollows(first: Graph, trace: seq<Event>) {
    forall k | 0 <= k <= |trace| :: FollowsAt(first, trace[..k])
  }

  /** What a step does to nodes that are the current graph's: only an answer ahead of the effects replaces them. */
  lemma StepFollowsIff(s: State, e: Event)
    requires JobsInv(s) && Enabled(s, e) && Follows(s)
    ensures Follows(Step(s, e)) <==> (e.Settle? && e.outcome.Placed? && s.Wanted(e.job) ==> Caught(s))
  {
    if e.Settle? {
      assert e.job.n !in s.cancelled ==> s.Wanted(e.job) && s.effected.value.0 == e.job.graph;
    }
  }

  lemma AlwaysFollowsSplits(first: Graph, was: seq<Event>, e: Event)
    ensures AlwaysFollows(first, was + [e]) <==> AlwaysFollows(first, was) && FollowsAt(first, was + [e])
  {
    PrefixesOf(was, e);
    forall k | 0 <= k <= |was|
      ensures FollowsAt(first, (was + [e])[..k]) <==> FollowsAt(first, was[..k])
    {
      assert (was + [e])[..k] == was[..k];
    }
  }

  /**
   Over a whole run the nodes on screen are at every point those of the current graph if and
   only if no layout is applied between the render of a new graph and its effects.
   */
  lemma {:induction false} NodesFollowTheGraphIff(first: Graph, trace: seq<Event>)
    requires Valid(first, trace)
    ensures AlwaysFollows(first, trace) <==> Timely(first, trace)
  {
    if trace != [] {
      var was, e := trace[..|trace| - 1], trace[|trace| - 1];
      assert trace == was + [e];
      NodesFollowTheGraphIff(first, was);
      AlwaysFollowsSplits(first, was, e);
      Reachable(first, was);
      assert was[..|was|] == was;
      if Follows(Exec(first, was)) {
        StepFollowsIff(Exec(first, was), e);
      }
    } else {
      assert forall k | 0 <= k <= |trace| :: trace[..k] == [];
    }
  }

  /** An answer after the effects have run is of the graph rendered. */
  lemma SyncedIsTimely(first: Graph, trace: seq<Event>, job: Job)
    requires Valid(first, trace) && Exec(first, trace).Wanted(job)
    ensures job.graph == Exec(first, trace).graph <==> Caught(Exec(first, trace))
    ensures Exec(first, trace).Synced() ==> Caught(Exec(first, trace))
  {
    Reachable(first, trace);
  }

  lemma EffectsAfterEarlyAnswer(s: State, job: Job, next: Graph, children: map<string, Pos>)
    requires JobsInv(s) && s.Synced() && s.Wanted(job) && job.graph == s.graph
    requires next != s.graph && next.signature == s.graph.signature
    ensures
      var settled := Step(Step(s, Render(next, s.instance)), Settle(job, Placed(children)));
      && settled.lastLayoutSig == settled.layoutedSignature == Some(next.signature)
      && settled.graph == next && settled.shown == job.graph && settled.nodes == PlaceAll(job.graph.nodes, children)
      && Step(settled, Effects) == Cleanup(settled).(effected := Some((next, s.instance)))
      && settled.mounted && settled.instance == s.instance
      && forall other :: !settled.Wanted(other)
  {
    var settled := Step(Step(s, Render(next, s.instance)), Settle(job, Placed(children)));
    assert forall other :: settled.Wanted(other) ==> s.Wanted(other);
  }

  /**
   One that lands before they have run puts the old graph's nodes back, and where the new
   graph has the same structure nothing ever replaces them: the effect sees a completed
   signature and starts no layout.
   */
  lemma EarlyAnswerLeavesOldNodes(first: Graph, trace: seq<Event>, job: Job, next: Graph, children: map<string, Pos>)
    requires Valid(first, trace) && Exec(first, trace).Synced() && Exec(first, trace).Wanted(job)
    requires next != job.graph && next.signature == job.graph.signature && DistinctIds(next.nodes)
    ensures
      var s := Exec(first, trace);
      var rendered := Step(s, Render(next, s.instance));
      var settled := Step(rendered, Settle(job, Placed(children)));
      var after := Step(settled, Effects);
      && Enabled(s, Render(next, s.instance)) && Enabled(rendered, Settle(job, Placed(children))) && Enabled(settled, Effects)
      && after.Synced() && after.graph == next && after.shown == job.graph
      && after.nodes == PlaceAll(job.graph.nodes, children)
      && !after.IsLayouting() && forall other :: !after.Wanted(other)
  {
    Reachable(first, trace);
    var s := Exec(first, trace);
    EffectsAfterEarlyAnswer(s, job, next, children);
    var settled := Step(Step(s, Render(next, s.instance)), Settle(job, Placed(children)));
    assert forall other :: Step(settled, Effects).Wanted(other) ==> settled.Wanted(other);
  }

  // ---------------------------------------------------------------------------
  // The neighbours a selection lights up

  ghost predicate Joins(e: Edge, a: string, b: string) {
    (e.source == a && e.target == b) || (e.source == b && e.target == a)
  }

  predicate Linked(neighbours: map<string, set<string>>, a: string, b: string) {
    a in neighbours && b in neighbours[a]
  }

  /** Two tables are neighbours exactly when an edge joins them, either way round. */
  method Adjacency(edges: seq<Edge>) returns (neighbours: map<string, set<string>>)
    ensures forall a, b :: Linked(neighbours, a, b) <==> exists e <- edges :: Joins(e, a, b)
  {
    neighbours := map[];
    assert edges[..|edges|] == edges;
    for i := 0 to |edges|
      invariant forall a, b :: Linked(neighbours, a, b) <==> exists e <- edges[..i] :: Joins(e, a, b)
    {
      var edge := edges[i];
      assert edges[..i + 1] == edges[..i] + [edge];
      ghost var was := neighbours;
      if edge.source !in neighbours { neighbours := neighbours[edge.source := {}]; }
      if edge.target !in neighbours { neighbours := neighbours[edge.target := {}]; }
      assert forall a, b :: Linked(neighbours, a, b) <==> Linked(was, a, b);
      neighbours := neighbours[edge.source := neighbours[edge.source] + {edge.target}];
      neighbours := neighbours[edge.target := neighbours[edge.target] + {edge.source}];
      assert forall a, b :: Linked(neighbours, a, b) <==> Linked(was, a, b) || Joins(edge, a, b);
    }
  }
}
