/** What compilation does, in terms of the schema alone: which edges end up where and in which order,
    what the node types become, and what validation demands of the workflow's author. */
module SchemaMeaning {
  import opened Wrappers
  import opened Json
  import opened WorkflowIR
  import opened Compiler
  import opened Seqs
  import Coordinator
  import CycleCheck
  import Schemas

  // ---- Order

  function TextOf(j: Json): string {
    if j.Str? then j.s else ""
  }

  predicate IsText(j: Json) {
    j.Str?
  }

  /** The strings of a list are its string items, in order. */
  lemma {:induction false} StringsAreFiltered(items: seq<Json>)
    ensures Strings(items) == Filtered(items, IsText, TextOf)
  {
    if items != [] {
      StringsAreFiltered(items[..|items| - 1]);
    }
  }

  function From(e: Edge): NodeId {
    e.from
  }

  function To(e: Edge): NodeId {
    e.to
  }

  function Enters(v: NodeId): Edge -> bool {
    (e: Edge) => e.to == v
  }

  function Leaves(u: NodeId): Edge -> bool {
    (e: Edge) => e.from == u
  }

  function LeavesWith(u: NodeId, c: string): Edge -> bool {
    (e: Edge) => e.from == u && e.condition == c
  }

  lemma {:induction false} SourcesAreFiltered(edges: seq<Edge>, v: NodeId)
    ensures SourcesTo(edges, v) == Filtered(edges, Enters(v), From)
  {
    if edges != [] {
      SourcesAreFiltered(edges[..|edges| - 1], v);
    }
  }

  lemma TargetsSnoc(es: seq<Edge>, e: Edge, c: string)
    ensures Tos(es + [e]) == Tos(es) + [e.to]
    ensures Group(es + [e], c) == if e.condition == c then Group(es, c) + [e.to] else Group(es, c)
  {
    assert (es + [e])[..|es|] == es;
  }

  lemma {:induction false} TargetsAreFiltered(edges: seq<Edge>, u: NodeId, c: string)
    ensures Tos(EdgesFrom(edges, u)) == Filtered(edges, Leaves(u), To)
    ensures Group(EdgesFrom(edges, u), c) == Filtered(edges, LeavesWith(u, c), To)
  {
    if edges != [] {
      var init, last := edges[..|edges| - 1], edges[|edges| - 1];
      TargetsAreFiltered(init, u, c);
      TargetsSnoc(EdgesFrom(init, u), last, c);
    }
  }

  /** Dependencies are the sources of the edges into a node, in edge order. The targets of its outgoing
      edges are, in edge order: its dependents, if it does not branch; otherwise the nodes of the rule
      with the edge's condition, or the default. */
  lemma CompiledKeepsOrder(schema: Schema, ir: IR, id: NodeId)
    requires Compiled(schema, ir) && id in ir
    ensures ir[id].dependencies == Filtered(schema.edges, Enters(id), From)
    ensures ir[id].branch.None? ==> ir[id].dependents == Filtered(schema.edges, Leaves(id), To)
    ensures ir[id].branch.Some? ==> ir[id].branch.value.fallback == Filtered(schema.edges, LeavesWith(id, ""), To)
    ensures ir[id].branch.Some? ==> forall r :: r in ir[id].branch.value.rules ==>
      r.condition.Some? && r.nextNodes == Filtered(schema.edges, LeavesWith(id, r.condition.value.expression), To)
  {
    SourcesAreFiltered(schema.edges, id);
    TargetsAreFiltered(schema.edges, id, "");
    assert Linked(schema, schema.edges, id, ir[id]);
    if ir[id].branch.Some? {
      forall r | r in ir[id].branch.value.rules
        ensures r.condition.Some? && r.nextNodes == Filtered(schema.edges, LeavesWith(id, r.condition.value.expression), To)
      {
        assert RuleFor(EdgesFrom(schema.edges, id), r);
        TargetsAreFiltered(schema.edges, id, r.condition.value.expression);
      }
    }
  }

  // ---- Loop configs

  function Quoted(ss: seq<string>): seq<Json> {
    if ss == [] then [] else Quoted(ss[..|ss| - 1]) + [Str(ss[|ss| - 1])]
  }

  lemma {:induction false} QuotedRoundTrip(ss: seq<string>)
    ensures Strings(Quoted(ss)) == ss
  {
    if ss != [] {
      QuotedRoundTrip(ss[..|ss| - 1]);
      assert Quoted(ss)[..|Quoted(ss)| - 1] == Quoted(ss[..|ss| - 1]);
    }
  }

  /** The config of a loop node as an author writes it. */
  function LoopJson(l: LoopConfig): map<string, Json> {
    var fields := map[
      "max_iterations" := Num(l.maxIterations as real),
      "loop_back_to" := Str(l.loopBackTo),
      "break_path" := Arr(Quoted(l.breakPath)),
      "timeout_path" := Arr(Quoted(l.timeoutPath))];
    if l.condition.None? then fields else fields["condition" := Str(l.condition.value.expression)]
  }

  lemma LoopFields(l: LoopConfig)
    ensures var c := LoopJson(l);
      && "max_iterations" in c && c["max_iterations"] == Num(l.maxIterations as real)
      && "loop_back_to" in c && c["loop_back_to"] == Str(l.loopBackTo)
      && "break_path" in c && c["break_path"] == Arr(Quoted(l.breakPath))
      && "timeout_path" in c && c["timeout_path"] == Arr(Quoted(l.timeoutPath))
      && ("condition" in c <==> l.condition.Some?) && (l.condition.Some? ==> c["condition"] == Str(l.condition.value.expression))
  {
  }

  lemma LoopReadBack(c: map<string, Json>, l: LoopConfig)
    requires l.enabled && l.maxIterations > 0 && l.loopBackTo != ""
    requires l.condition.Some? ==> l.condition.value.kind == "cel" && l.condition.value.expression != ""
    requires "max_iterations" in c && c["max_iterations"] == Num(l.maxIterations as real)
    requires "loop_back_to" in c && c["loop_back_to"] == Str(l.loopBackTo)
    requires StringArray(c, "break_path") == l.breakPath && StringArray(c, "timeout_path") == l.timeoutPath
    requires ("condition" in c <==> l.condition.Some?) && (l.condition.Some? ==> c["condition"] == Str(l.condition.value.expression))
    ensures LoopConfigValid(c) && LoopOf(c, l)
  {
  }

  /** Every usable loop config is read back from the JSON an author writes for it. */
  lemma LoopRoundTrip(l: LoopConfig)
    requires l.enabled && l.maxIterations > 0 && l.loopBackTo != ""
    requires l.condition.Some? ==> l.condition.value.kind == "cel" && l.condition.value.expression != ""
    ensures LoopConfigValid(LoopJson(l)) && LoopOf(LoopJson(l), l)
  {
    LoopFields(l);
    QuotedRoundTrip(l.breakPath);
    QuotedRoundTrip(l.timeoutPath);
    LoopReadBack(LoopJson(l), l);
  }

  lemma LoopIsUnique(c: map<string, Json>, l: LoopConfig, m: LoopConfig)
    requires LoopConfigValid(c) && LoopOf(c, l) && LoopOf(c, m)
    ensures l == m
  {
  }

  // ---- Node types

  lemma ShapeWorker(w: WorkflowNode, es: seq<Edge>, n: Node)
    requires Shape(w, es, n)
    ensures Coordinator.HasWorker(n) <==> w.kind == "http" || w.kind == "agent" || w.kind == "hitl"
  {
  }

  lemma ShapeAbsorber(w: WorkflowNode, es: seq<Edge>, n: Node)
    requires Shape(w, es, n)
    ensures n.IsAbsorber() <==> w.kind == "conditional" || w.kind == "loop"
  {
    assert w.kind in EXECUTABLE ==> n.IsExecutableType();
  }

  lemma KindIsKnown(w: WorkflowNode)
    requires Convertible(w)
    ensures w.kind in {"function", "http", "agent", "hitl", "transform", "aggregate", "filter", "conditional", "loop", "parallel"}
  {
  }

  /** The types a workflow may use. */
  lemma KnownTypes(schema: Schema, ir: IR, id: NodeId)
    requires Compiled(schema, ir) && id in ir
    ensures id in Ids(schema.nodes)
    ensures LastNode(schema.nodes, id).kind in
      {"function", "http", "agent", "hitl", "transform", "aggregate", "filter", "conditional", "loop", "parallel"}
  {
    assert Linked(schema, schema.edges, id, ir[id]);
    KindIsKnown(LastNode(schema.nodes, id));
  }

  /** What a node's type in the schema makes of it at run time. */
  lemma TypeDecides(schema: Schema, ir: IR, id: NodeId)
    requires Compiled(schema, ir) && id in ir
    ensures id in Ids(schema.nodes)
    ensures var kind := LastNode(schema.nodes, id).kind;
      && (Coordinator.HasWorker(ir[id]) <==> kind == "http" || kind == "agent" || kind == "hitl")
      && (ir[id].IsAbsorber() <==> kind == "conditional" || kind == "loop")
  {
    assert Linked(schema, schema.edges, id, ir[id]);
    ShapeWorker(LastNode(schema.nodes, id), EdgesFrom(schema.edges, id), ir[id]);
    ShapeAbsorber(LastNode(schema.nodes, id), EdgesFrom(schema.edges, id), ir[id]);
  }

  /** A token for a next node goes to a worker for http, agent and hitl nodes, a conditional or loop node
      is evaluated inline, and every other node is completed at once. */
  lemma TypeDecidesSpawn(schema: Schema, ir: IR, id: NodeId)
    requires Compiled(schema, ir) && id in ir
    ensures id in Ids(schema.nodes)
    ensures var kind, p := LastNode(schema.nodes, id).kind, Coordinator.Spawn(ir, id);
      && p.node == id && p.phase == (
        if kind == "http" || kind == "agent" || kind == "hitl" then Coordinator.InStream
        else if kind == "conditional" || kind == "loop" then Coordinator.Absorbing
        else Coordinator.Skipping)
  {
    TypeDecides(schema, ir, id);
  }

  lemma ConditionLeaves(edges: seq<Edge>, u: NodeId)
    ensures Conditions(EdgesFrom(edges, u)) != {} <==> exists e :: e in edges && e.from == u && e.condition != ""
  {
    var es := EdgesFrom(edges, u);
    Schemas.EdgesFromIff(edges, u);
    if e :| e in es && e.condition != "" {
      assert e.condition in Conditions(es);
    }
    if c :| c in Conditions(es) {
      var e :| e in es && e.condition != "" && e.condition == c;
    }
  }

  /** Exactly conditional nodes and approval nodes with a conditional edge branch, and exactly loop nodes
      loop. */
  lemma TypeDecidesRouting(schema: Schema, ir: IR, id: NodeId)
    requires Compiled(schema, ir) && id in ir
    ensures id in Ids(schema.nodes)
    ensures var kind := LastNode(schema.nodes, id).kind;
      && (ir[id].BranchEnabled() <==> kind == "conditional" || (kind == "hitl" && exists e :: e in schema.edges && e.from == id && e.condition != ""))
      && (ir[id].LoopEnabled() <==> kind == "loop")
  {
    assert Linked(schema, schema.edges, id, ir[id]);
    ConditionLeaves(schema.edges, id);
    ShapeLoop(LastNode(schema.nodes, id), EdgesFrom(schema.edges, id), ir[id]);
  }

  // ---- Flags

  lemma TwoSelected(src: seq<Edge>, keep: Edge -> bool, f: Edge -> NodeId)
    ensures |Filtered(src, keep, f)| > 1 <==> exists i, j :: 0 <= i < j < |src| && keep(src[i]) && keep(src[j])
    ensures Filtered(src, keep, f) == [] <==> forall e :: e in src ==> !keep(e)
  {
    var out := Filtered(src, keep, f);
    var at := FilteredSelects(src, keep, f);
    if |out| > 1 {
      assert keep(src[at[0]]) && keep(src[at[1]]) && at[0] < at[1];
    }
    if i, j :| 0 <= i < j < |src| && keep(src[i]) && keep(src[j]) {
      assert i in at && j in at;
    }
    if out != [] {
      assert src[at[0]] in src;
    }
    if e :| e in src && keep(e) {
      var i :| 0 <= i < |src| && src[i] == e;
      assert i in at;
    }
  }

  /** A node waits for all exactly when two edges lead to it, and is an entry exactly when none does. */
  lemma JoinMeaning(schema: Schema, ir: IR, id: NodeId)
    requires Compiled(schema, ir) && id in ir
    ensures ir[id].waitForAll <==> exists i, j :: 0 <= i < j < |schema.edges| && schema.edges[i].to == id && schema.edges[j].to == id
    ensures ir[id].dependencies == [] <==> forall e :: e in schema.edges ==> e.to != id
  {
    CompiledKeepsOrder(schema, ir, id);
    TwoSelected(schema.edges, Enters(id), From);
  }

  ghost predicate NoEdgeFrom(schema: Schema, id: NodeId) {
    forall e :: e in schema.edges ==> e.from != id
  }

  lemma SameCounts(a: seq<NodeId>, b: seq<NodeId>)
    requires forall v :: multiset(a)[v] == multiset(b)[v]
    ensures a == [] <==> b == []
  {
    assert a != [] ==> multiset(a)[a[0]] > 0;
    assert b != [] ==> multiset(b)[b[0]] > 0;
  }

  lemma OutgoingMeaning(schema: Schema, id: NodeId)
    ensures Tos(EdgesFrom(schema.edges, id)) == [] <==> NoEdgeFrom(schema, id)
    ensures EdgesFrom(schema.edges, id) == [] <==> NoEdgeFrom(schema, id)
  {
    TargetsAreFiltered(schema.edges, id, "");
    TwoSelected(schema.edges, Leaves(id), To);
  }

  /** A node has dependents exactly when an edge leaves it. */
  lemma DependentsMeaning(schema: Schema, ir: IR, id: NodeId)
    requires Compiled(schema, ir) && id in ir
    ensures ir[id].dependents == [] <==> NoEdgeFrom(schema, id)
  {
    var es, n := EdgesFrom(schema.edges, id), ir[id];
    assert Linked(schema, schema.edges, id, n);
    OutgoingMeaning(schema, id);
    if n.branch.Some? {
      forall v ensures multiset(n.dependents)[v] == multiset(Tos(es))[v] {
        BranchCount(es, n.branch.value, v);
      }
      SameCounts(n.dependents, Tos(es));
    }
  }

  lemma ShapeTerminal(w: WorkflowNode, es: seq<Edge>, n: Node)
    requires Shape(w, es, n)
    ensures NoSuccessors(n) <==> w.kind != "loop" && n.dependents == []
  {
    if n.branch.Some? && n.dependents == [] {
      assert RuleTargets(n.branch.value.rules) == [];
      RuleTargetsEmptyIff(n.branch.value.rules);
    }
  }

  /** A node is terminal exactly when it is no loop node and no edge leaves it. */
  lemma TerminalMeaning(schema: Schema, ir: IR, id: NodeId)
    requires Compiled(schema, ir) && id in ir
    ensures id in Ids(schema.nodes)
    ensures ir[id].isTerminal <==> LastNode(schema.nodes, id).kind != "loop" && NoEdgeFrom(schema, id)
  {
    assert Linked(schema, schema.edges, id, ir[id]) && ir[id].isTerminal == NoSuccessors(ir[id]);
    DependentsMeaning(schema, ir, id);
    ShapeTerminal(LastNode(schema.nodes, id), EdgesFrom(schema.edges, id), ir[id]);
  }

  // ---- Validation

  /** The loop can run at least once and leads back to a node of the workflow. */
  ghost predicate LoopUsable(schema: Schema, w: WorkflowNode) {
    LoopConfigValid(w.config) && w.config["max_iterations"].n >= 1.0 && w.config["loop_back_to"].s in Ids(schema.nodes)
  }

  lemma FloorIsPositive(x: real)
    requires x > 0.0
    ensures x.Floor > 0 <==> x >= 1.0
  {
  }

  lemma LoopsMeaning(schema: Schema, ir: IR)
    requires Compiled(schema, ir)
    ensures LoopsValid(ir) <==> LoopsUsable(schema)
  {
    forall id | id in ir
      ensures ir[id].LoopEnabled() <==> LastNode(schema.nodes, id).kind == "loop"
      ensures ir[id].LoopEnabled() ==>
        (ir[id].loop.value.maxIterations > 0 && ir[id].loop.value.loopBackTo != "" && ir[id].loop.value.loopBackTo in ir <==> LoopUsable(schema, LastNode(schema.nodes, id)))
    {
      LoopMeaningAt(schema, ir, id);
    }
  }

  lemma ShapeLoop(w: WorkflowNode, es: seq<Edge>, n: Node)
    requires Shape(w, es, n)
    ensures n.LoopEnabled() <==> w.kind == "loop"
    ensures n.LoopEnabled() ==> LoopConfigValid(w.config) && n.loop.value.loopBackTo == w.config["loop_back_to"].s
    ensures n.LoopEnabled() ==> (n.loop.value.maxIterations > 0 <==> w.config["max_iterations"].n >= 1.0)
  {
    if n.loop.Some? {
      FloorIsPositive(w.config["max_iterations"].n);
    }
  }

  lemma LoopMeaningAt(schema: Schema, ir: IR, id: NodeId)
    requires Compiled(schema, ir) && id in ir
    ensures id in Ids(schema.nodes) && (ir[id].LoopEnabled() <==> LastNode(schema.nodes, id).kind == "loop")
    ensures ir[id].LoopEnabled() ==>
      (ir[id].loop.value.maxIterations > 0 && ir[id].loop.value.loopBackTo != "" && ir[id].loop.value.loopBackTo in ir <==> LoopUsable(schema, LastNode(schema.nodes, id)))
  {
    assert Linked(schema, schema.edges, id, ir[id]);
    ShapeLoop(LastNode(schema.nodes, id), EdgesFrom(schema.edges, id), ir[id]);
  }

  lemma FilteredIsMapped(src: seq<Edge>, keep: Edge -> bool, f: Edge -> NodeId, x: NodeId)
    requires x in Filtered(src, keep, f)
    ensures exists e :: e in src && f(e) == x
  {
    var at := FilteredSelects(src, keep, f);
    var k :| 0 <= k < |at| && Filtered(src, keep, f)[k] == x;
    assert src[at[k]] in src;
  }

  lemma BranchTargetsExist(schema: Schema, ir: IR, id: NodeId)
    requires Compiled(schema, ir) && id in ir && ir[id].branch.Some?
    ensures forall r, m :: r in ir[id].branch.value.rules && m in r.nextNodes ==> m in ir
    ensures forall m :: m in ir[id].branch.value.fallback ==> m in ir
  {
    CompiledKeepsOrder(schema, ir, id);
    forall r, m | r in ir[id].branch.value.rules && m in r.nextNodes ensures m in ir {
      FilteredIsMapped(schema.edges, LeavesWith(id, r.condition.value.expression), To, m);
    }
    forall m | m in ir[id].branch.value.fallback ensures m in ir {
      FilteredIsMapped(schema.edges, LeavesWith(id, ""), To, m);
    }
  }

  /** A branch is valid exactly when some edge leaves its node: its targets always exist. */
  lemma BranchMeaningAt(schema: Schema, ir: IR, id: NodeId)
    requires Compiled(schema, ir) && id in ir && ir[id].branch.Some?
    ensures BranchValid(ir, ir[id].branch.value) <==> !NoEdgeFrom(schema, id)
  {
    var es, b := EdgesFrom(schema.edges, id), ir[id].branch.value;
    assert Linked(schema, schema.edges, id, ir[id]);
    BranchTargetsExist(schema, ir, id);
    OutgoingMeaning(schema, id);
    DependentsMeaning(schema, ir, id);
    if es == [] {
      assert Conditions(es) == {} && b.fallback == [];
      assert b.rules == [] by {
        assert forall r :: r in b.rules ==> RuleFor(es, r);
        assert b.rules != [] ==> RuleFor(es, b.rules[0]);
      }
    }
  }

  lemma BranchesMeaning(schema: Schema, ir: IR)
    requires Compiled(schema, ir)
    ensures BranchesValid(ir) <==> BranchesUsable(schema)
  {
    forall id | id in ir
      ensures LastNode(schema.nodes, id).kind == "conditional" ==> ir[id].BranchEnabled()
      ensures ir[id].BranchEnabled() ==> (BranchValid(ir, ir[id].branch.value) <==> !NoEdgeFrom(schema, id))
      ensures ir[id].BranchEnabled() && LastNode(schema.nodes, id).kind != "conditional" ==> !NoEdgeFrom(schema, id)
    {
      assert Linked(schema, schema.edges, id, ir[id]);
      if ir[id].branch.Some? {
        BranchMeaningAt(schema, ir, id);
        OutgoingMeaning(schema, id);
      }
    }
  }

  ghost predicate HasEnd(schema: Schema) {
    exists id :: id in Ids(schema.nodes) && LastNode(schema.nodes, id).kind != "loop" && NoEdgeFrom(schema, id)
  }

  ghost predicate HasStart(schema: Schema) {
    exists id :: id in Ids(schema.nodes) && forall e :: e in schema.edges ==> e.to != id
  }

  ghost predicate LoopsUsable(schema: Schema) {
    forall id :: id in Ids(schema.nodes) && LastNode(schema.nodes, id).kind == "loop" ==> LoopUsable(schema, LastNode(schema.nodes, id))
  }

  ghost predicate BranchesUsable(schema: Schema) {
    forall id :: id in Ids(schema.nodes) && LastNode(schema.nodes, id).kind == "conditional" ==> !NoEdgeFrom(schema, id)
  }

  lemma EndMeaning(schema: Schema, ir: IR)
    requires Compiled(schema, ir)
    ensures (exists n :: n in ir && ir[n].isTerminal) <==> HasEnd(schema)
  {
    forall id | id in ir ensures ir[id].isTerminal <==> LastNode(schema.nodes, id).kind != "loop" && NoEdgeFrom(schema, id) {
      TerminalMeaning(schema, ir, id);
    }
  }

  lemma StartMeaning(schema: Schema, ir: IR)
    requires Compiled(schema, ir)
    ensures (exists n :: n in ir && |ir[n].dependencies| == 0) <==> HasStart(schema)
  {
    forall id | id in ir ensures |ir[id].dependencies| == 0 <==> forall e :: e in schema.edges ==> e.to != id {
      JoinMeaning(schema, ir, id);
    }
  }

  /** What validation demands, in terms of the schema: a node that is no loop and that no edge leaves, a
      node that no edge enters, loops that can run and lead back to a node, conditionals with an edge,
      and a cycle check that some map order passes. */
  lemma AcceptedMeaning(schema: Schema, ir: IR)
    requires Compiled(schema, ir)
    ensures Accepted(ir) <==>
      && HasEnd(schema) && HasStart(schema) && LoopsUsable(schema) && BranchesUsable(schema)
      && Closed(ir) && exists order :: IsOrder(order, ir.Keys) && CycleCheck.Accepts(ir, order)
  {
    CompiledIsClosed(schema, ir);
    LoopsMeaning(schema, ir);
    BranchesMeaning(schema, ir);
    EndMeaning(schema, ir);
    StartMeaning(schema, ir);
  }

  /** Every type of the schema can be converted; a loop node needs a limit and a node to go back to. */
  lemma TypesConvert(w: WorkflowNode)
    requires w.kind in {"function", "http", "agent", "hitl", "transform", "aggregate", "filter", "conditional", "parallel"}
      || (w.kind == "loop" && LoopConfigValid(w.config))
    ensures Convertible(w)
  {
  }

  /** Which problem is reported: the first of the five checks that fails. */
  lemma VerdictMeaning(ir: IR, order: seq<NodeId>)
    requires Closed(ir) && IsOrder(order, ir.Keys)
    ensures var terminal, entry := exists n :: n in ir && ir[n].isTerminal, exists n :: n in ir && ir[n].dependencies == [];
      && (FirstProblem(ir, order) == Some(NoTerminal) <==> !terminal)
      && (FirstProblem(ir, order) == Some(NoEntry) <==> terminal && !entry)
      && (FirstProblem(ir, order) == Some(BadLoop) <==> terminal && entry && !LoopsValid(ir))
      && (FirstProblem(ir, order) == Some(BadBranch) <==> terminal && entry && LoopsValid(ir) && !BranchesValid(ir))
      && (FirstProblem(ir, order) == Some(BadCycle) <==> terminal && entry && LoopsValid(ir) && BranchesValid(ir) && !CycleCheck.Accepts(ir, order))
  {
  }
}
