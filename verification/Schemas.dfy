/** When a small schema compiles to a given graph, and when validation accepts it. */
module Schemas {
  import opened WorkflowIR
  import opened Compiler
  import opened Absorbers
  import CycleCheck

  // ---- Adjacency of a few edges

  function Source(e: Edge, id: NodeId): seq<NodeId> {
    if e.to == id then [e.from] else []
  }

  function Target(e: Edge, id: NodeId): seq<NodeId> {
    if e.from == id then [e.to] else []
  }

  lemma SnocAdjacency(es: seq<Edge>, e: Edge, id: NodeId, sources: seq<NodeId>, targets: seq<NodeId>)
    requires SourcesTo(es, id) == sources && Tos(EdgesFrom(es, id)) == targets
    ensures SourcesTo(es + [e], id) == sources + Source(e, id)
    ensures Tos(EdgesFrom(es + [e], id)) == targets + Target(e, id)
  {
    AdjacencySnoc(es, e, id);
  }

  lemma OneEdge(e: Edge, id: NodeId)
    ensures SourcesTo([e], id) == Source(e, id) && Tos(EdgesFrom([e], id)) == Target(e, id)
  {
    SnocAdjacency([], e, id, [], []);
    assert [] + [e] == [e] && [] + Source(e, id) == Source(e, id) && [] + Target(e, id) == Target(e, id);
  }

  lemma TwoEdges(e1: Edge, e2: Edge, id: NodeId)
    ensures SourcesTo([e1, e2], id) == Source(e1, id) + Source(e2, id)
    ensures Tos(EdgesFrom([e1, e2], id)) == Target(e1, id) + Target(e2, id)
  {
    OneEdge(e1, id);
    SnocAdjacency([e1], e2, id, Source(e1, id), Target(e1, id));
    assert [e1] + [e2] == [e1, e2];
  }

  lemma ThreeEdges(e1: Edge, e2: Edge, e3: Edge, id: NodeId)
    ensures SourcesTo([e1, e2, e3], id) == Source(e1, id) + Source(e2, id) + Source(e3, id)
    ensures Tos(EdgesFrom([e1, e2, e3], id)) == Target(e1, id) + Target(e2, id) + Target(e3, id)
  {
    TwoEdges(e1, e2, id);
    SnocAdjacency([e1, e2], e3, id, Source(e1, id) + Source(e2, id), Target(e1, id) + Target(e2, id));
    assert [e1, e2] + [e3] == [e1, e2, e3];
  }

  lemma FourEdges(e1: Edge, e2: Edge, e3: Edge, e4: Edge, id: NodeId)
    ensures SourcesTo([e1, e2, e3, e4], id) == Source(e1, id) + Source(e2, id) + Source(e3, id) + Source(e4, id)
    ensures Tos(EdgesFrom([e1, e2, e3, e4], id)) == Target(e1, id) + Target(e2, id) + Target(e3, id) + Target(e4, id)
  {
    ThreeEdges(e1, e2, e3, id);
    SnocAdjacency([e1, e2, e3], e4, id, Source(e1, id) + Source(e2, id) + Source(e3, id), Target(e1, id) + Target(e2, id) + Target(e3, id));
    assert [e1, e2, e3] + [e4] == [e1, e2, e3, e4];
  }

  /** A node with no later node of the same id is the one that counts. */
  lemma {:induction false} LastNodeWins(ns: seq<WorkflowNode>, k: nat)
    requires k < |ns| && forall j :: k < j < |ns| ==> ns[j].id != ns[k].id
    ensures ns[k].id in Ids(ns) && LastNode(ns, ns[k].id) == ns[k]
  {
    assert ns[k] in ns;
    if k < |ns| - 1 {
      var init := ns[..|ns| - 1];
      assert init[k] == ns[k];
      LastNodeWins(init, k);
    }
  }

  // ---- Nodes

  lemma PlainIsLinked(schema: Schema, id: NodeId, n: Node)
    requires id in Ids(schema.nodes) && LastNode(schema.nodes, id).kind == n.kind && n.kind in EXECUTABLE && n.kind != "hitl"
    requires n.id == id && n.loop.None? && n.branch.None?
    requires n.dependencies == SourcesTo(schema.edges, id) && n.dependents == Tos(EdgesFrom(schema.edges, id))
    ensures Linked(schema, schema.edges, id, n)
  {
    assert n.kind != "loop" && n.kind != "conditional";
  }

  lemma LoopIsLinked(schema: Schema, w: WorkflowNode, n: Node)
    requires w.id in Ids(schema.nodes) && LastNode(schema.nodes, w.id) == w && w.kind == "loop" && LoopConfigValid(w.config)
    requires n.id == w.id && n.kind == "task" && n.loop.Some? && LoopOf(w.config, n.loop.value) && n.branch.None?
    requires n.dependencies == SourcesTo(schema.edges, w.id) && n.dependents == Tos(EdgesFrom(schema.edges, w.id))
    ensures Linked(schema, schema.edges, w.id, n)
  {
    assert "loop" !in EXECUTABLE && "loop" != "hitl" && "loop" != "conditional";
  }

  /** A conditional node whose edges carry no condition. */
  function Fallback(targets: seq<NodeId>): BranchConfig {
    BranchConfig(true, "conditional", [], targets)
  }

  lemma {:induction false} UnconditionalEdges(es: seq<Edge>)
    requires forall e :: e in es ==> e.condition == ""
    ensures Conditions(es) == {} && Group(es, "") == Tos(es)
  {
    if es != [] {
      var init, last := es[..|es| - 1], es[|es| - 1];
      assert last in es;
      UnconditionalEdges(init);
    }
  }

  lemma {:induction false} EdgesFromIff(edges: seq<Edge>, u: NodeId)
    ensures forall e :: e in EdgesFrom(edges, u) <==> e in edges && e.from == u
  {
    if edges != [] {
      assert edges == edges[..|edges| - 1] + [edges[|edges| - 1]];
      EdgesFromIff(edges[..|edges| - 1], u);
    }
  }

  lemma FallbackIsLinked(schema: Schema, id: NodeId, n: Node)
    requires id in Ids(schema.nodes) && LastNode(schema.nodes, id).kind == "conditional"
    requires forall e :: e in schema.edges ==> e.condition == ""
    requires n.id == id && n.kind == "task" && n.loop.None? && n.branch.Some? && n.branch.value == Fallback(n.dependents)
    requires n.dependencies == SourcesTo(schema.edges, id) && n.dependents == Tos(EdgesFrom(schema.edges, id))
    ensures Linked(schema, schema.edges, id, n)
  {
    assert "conditional" !in EXECUTABLE && "conditional" != "loop";
    var es := EdgesFrom(schema.edges, id);
    EdgesFromIff(schema.edges, id);
    UnconditionalEdges(es);
    assert [] + n.branch.value.fallback == n.dependents;
  }

  ghost predicate FlagsAreSet(n: Node) {
    n.waitForAll == (|n.dependencies| > 1) && n.isTerminal == NoSuccessors(n)
  }

  ghost predicate AllNodesLinked(schema: Schema, ir: IR) {
    forall id :: id in ir ==> Linked(schema, schema.edges, id, ir[id]) && FlagsAreSet(ir[id])
  }

  // ---- Ranked graphs are accepted

  lemma RankedHasNoCycle(ir: IR, rank: Ranking, c: seq<NodeId>)
    requires RankedEdges(ir, rank)
    ensures !IsCycle(ir, c)
  {
    if IsCycle(ir, c) {
      WalkFalls(ir, rank, c);
    }
  }

  lemma RankedAccepted(ir: IR, rank: Ranking)
    requires RankedEdges(ir, rank)
    ensures exists order :: IsOrder(order, ir.Keys) && CycleCheck.Accepts(ir, order)
  {
    var order := OrderExists(ir.Keys);
    if !CycleCheck.Accepts(ir, order) {
      var c := CycleCheck.RejectionExhibitsCycle(ir, order);
      RankedHasNoCycle(ir, rank, c);
    }
  }
}
