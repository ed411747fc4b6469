/**
 `SchemaDiagram` as an object: its references, its node list and its layout effect.
 */
module SchemaCanvas {
  import opened Options
  import opened Layout

  class Canvas {
    var graph: Graph
    var instance: nat
    var nodes: seq<Node>
    var edges: seq<Edge>
    var positionsRef: map<string, Pos>
    var lastLayoutSigRef: Option<string>
    var layoutedSignature: Option<string>
    var effected: Option<(Graph, nat)>
    /** The closure the effect's cleanup would cancel, and those cancelled so far. */
    var active: Option<Job>
    var cancelled: set<nat>
    var next: nat
    var isMounted: bool
    ghost var pending: set<Job>
    ghost var shown: Graph

    ghost function Now(): State
      reads this
    {
      State(graph, instance, nodes, edges, positionsRef, lastLayoutSigRef, layoutedSignature, effected,
            active, cancelled, pending, next, isMounted, shown)
    }

    constructor (first: Graph)
      ensures Now() == Start(first)
    {
      graph, instance, nodes, edges, positionsRef := first, 0, first.nodes, first.edges, map[];
      lastLayoutSigRef, layoutedSignature, effected, active := None, None, None, None;
      cancelled, next, isMounted, pending, shown := {}, 0, true, {}, first;
    }

    /** A render: a rebuilt graph is copied in at the remembered positions. */
    method OnRender(rebuilt: Graph, flow: nat)
      modifies this
      ensures Now() == Step(old(Now()), Render(rebuilt, flow))
    {
      instance := flow;
      if rebuilt != graph {
        graph := rebuilt;
        nodes := PlaceAll(rebuilt.nodes, positionsRef);
        edges := rebuilt.edges;
        shown := rebuilt;
      }
    }

    method CancelActive()
      modifies this
      ensures Now() == Cleanup(old(Now()))
    {
      if active.Some? {
        cancelled := cancelled + {active.value.n};
        active := None;
      }
    }

    method OnEffects()
      modifies this
      ensures Now() == Step(old(Now()), Effects)
    {
      if effected == Some((graph, instance)) { return; }
      CancelActive();
      effected := Some((graph, instance));
      if |graph.nodes| == 0 { return; }
      if lastLayoutSigRef == Some(graph.signature) { return; }
      active := Some(Job(next, graph));
      pending := pending + {Job(next, graph)};
      next := next + 1;
    }

    method RememberPositions(layouted: seq<Node>)
      modifies `positionsRef
      ensures positionsRef == Remember(old(positionsRef), layouted)
    {
      ghost var was := positionsRef;
      for i := 0 to |layouted|
        invariant positionsRef == Remember(was, layouted[..i])
      {
        positionsRef := positionsRef[layouted[i].id := layouted[i].position];
        assert layouted[..i + 1][..i] == layouted[..i];
      }
      assert layouted[..|layouted|] == layouted;
    }

    /** What a layout that was not cancelled writes; a null result keeps the nodes in place. */
    method OnLayouted(laid: Graph, outcome: Outcome)
      modifies this
      ensures Now() == Apply(old(Now()), laid, outcome)
    {
      lastLayoutSigRef := Some(laid.signature);
      layoutedSignature := Some(laid.signature);
      if outcome.Nothing? { return; }
      var layouted := PlaceAll(laid.nodes, outcome.children);
      RememberPositions(layouted);
      nodes := layouted;
      shown := laid;
    }

    /** The layout's continuation: a closure that was cancelled writes nothing. */
    method OnSettled(job: Job, outcome: Outcome)
      modifies this
      ensures Now() == Step(old(Now()), Settle(job, outcome))
    {
      pending := pending - {job};
      if job.n in cancelled { return; }
      OnLayouted(job.graph, outcome);
    }

    method OnNodesChange(moves: seq<Move>)
      modifies this
      ensures Now() == Step(old(Now()), Event.Drag(moves))
    {
      ghost var was := positionsRef;
      for i := 0 to |moves|
        invariant positionsRef == RememberMoves(was, moves[..i])
        invariant Now() == old(Now()).(positions := positionsRef)
      {
        positionsRef := positionsRef[moves[i].id := moves[i].position];
        assert moves[..i + 1][..i] == moves[..i];
      }
      assert moves[..|moves|] == moves;
      nodes := MoveNodes(nodes, moves);
    }

    method OnUnmount()
      modifies this
      ensures Now() == Step(old(Now()), Unmount)
    {
      CancelActive();
      isMounted := false;
    }
  }
}
