/** Workflows that compile, that validation accepts, and that show what goes wrong: a join, a loop node
    that never emits, two conditionals in a row, and chains and forks of tasks. */
module Witnesses {
  import opened Wrappers
  import opened Json
  import opened WorkflowIR
  import opened Compiler
  import opened Schemas
  import opened Coordinator
  import opened Activations
  import opened Completion
  import opened Schedules
  import opened CompletionExact
  import opened LateTokens
  import Absorbers
  import ControlFlow

  function Task(id: NodeId): WorkflowNode {
    WorkflowNode(id, "http", map[])
  }

  function TaskNode(id: NodeId, sources: seq<NodeId>, targets: seq<NodeId>): Node {
    Node(id, "http", sources, targets, |sources| > 1, |targets| == 0, None, None)
  }

  lemma TaskIsLinked(schema: Schema, id: NodeId, n: Node)
    requires id in Ids(schema.nodes) && LastNode(schema.nodes, id) == Task(id)
    requires n == TaskNode(id, SourcesTo(schema.edges, id), Tos(EdgesFrom(schema.edges, id)))
    ensures Linked(schema, schema.edges, id, n)
  {
    assert "http" in EXECUTABLE && "http" != "hitl";
    PlainIsLinked(schema, id, n);
  }

  lemma ThreeIds(x: WorkflowNode, y: WorkflowNode, z: WorkflowNode)
    requires x.id != y.id && x.id != z.id && y.id != z.id
    ensures Ids([x, y, z]) == {x.id, y.id, z.id}
    ensures LastNode([x, y, z], x.id) == x && LastNode([x, y, z], y.id) == y && LastNode([x, y, z], z.id) == z
  {
    var ns := [x, y, z];
    assert ns[0] == x && ns[1] == y && ns[2] == z;
    LastNodeWins(ns, 0);
    LastNodeWins(ns, 1);
    LastNodeWins(ns, 2);
  }

  // ---- Two tasks in a row beside a third: a leads to b, c stands alone

  function Beside(a: NodeId, b: NodeId, c: NodeId): Schema {
    Schema([Task(a), Task(b), Task(c)], [Edge(a, b, "")])
  }

  function BesideIR(a: NodeId, b: NodeId, c: NodeId): IR {
    map[a := TaskNode(a, [], [b]), b := TaskNode(b, [a], []), c := TaskNode(c, [], [])]
  }

  lemma BesideIsLinked(a: NodeId, b: NodeId, c: NodeId, id: NodeId)
    requires a != b && a != c && b != c && id in BesideIR(a, b, c)
    ensures Linked(Beside(a, b, c), Beside(a, b, c).edges, id, BesideIR(a, b, c)[id])
  {
    ThreeIds(Task(a), Task(b), Task(c));
    OneEdge(Edge(a, b, ""), id);
    TaskIsLinked(Beside(a, b, c), id, BesideIR(a, b, c)[id]);
  }

  lemma BesideAllLinked(a: NodeId, b: NodeId, c: NodeId)
    requires a != b && a != c && b != c
    ensures AllNodesLinked(Beside(a, b, c), BesideIR(a, b, c))
  {
    var ir := BesideIR(a, b, c);
    forall id | id in ir ensures Linked(Beside(a, b, c), Beside(a, b, c).edges, id, ir[id]) && FlagsAreSet(ir[id]) {
      BesideIsLinked(a, b, c, id);
    }
  }

  lemma BesideKeys(a: NodeId, b: NodeId, c: NodeId)
    requires a != b && a != c && b != c
    ensures BesideIR(a, b, c).Keys == Ids(Beside(a, b, c).nodes) && EdgesClosed(Beside(a, b, c).edges, BesideIR(a, b, c).Keys)
  {
    ThreeIds(Task(a), Task(b), Task(c));
  }

  lemma BesideCompiles(a: NodeId, b: NodeId, c: NodeId)
    requires a != b && a != c && b != c
    ensures Compiled(Beside(a, b, c), BesideIR(a, b, c))
  {
    BesideKeys(a, b, c);
    BesideAllLinked(a, b, c);
    assert AllNodesLinked(Beside(a, b, c), BesideIR(a, b, c));
  }

  lemma BesideAccepted(a: NodeId, b: NodeId, c: NodeId)
    requires a != b && a != c && b != c
    ensures Accepted(BesideIR(a, b, c))
  {
    var ir := BesideIR(a, b, c);
    RankedAccepted(ir, n => if n == a then 1 else 0);
    assert c in ir && ir[c].isTerminal && |ir[c].dependencies| == 0;
  }

  lemma BesideIsApart(a: NodeId, b: NodeId, c: NodeId)
    requires a != b && a != c && b != c
    ensures Apart(BesideIR(a, b, c))
  {
    var ir := BesideIR(a, b, c);
    forall p | IsWalk(ir, p) && |p| >= 2 ensures p[|p| - 1] != c {
      WalkInit(ir, p);
    }
    assert a in ir && c in ir && !ir[a].isTerminal && ir[c].isTerminal && !Reaches(ir, a, c);
  }

  lemma BesideIsForest(a: NodeId, b: NodeId, c: NodeId)
    requires a != b && a != c && b != c
    ensures LoopFree(BesideIR(a, b, c)) && BranchFree(BesideIR(a, b, c)) && Forest(BesideIR(a, b, c))
    ensures var ir := BesideIR(a, b, c);
      && a in ir && b in ir && c in ir && ir[a].dependents != [] && ir[b].isTerminal && ir[c].isTerminal
  {
  }

  lemma BesideIsPlain(a: NodeId, b: NodeId, c: NodeId)
    requires a != b && a != c && b != c
    ensures Plain(Beside(a, b, c), BesideIR(a, b, c))
  {
    BesideIsForest(a, b, c);
    BesideCompiles(a, b, c);
    BesideAccepted(a, b, c);
  }

  /** One workflow, three runs: COMPLETED is missed, recorded twice, and recorded before the last
      token is published. */
  lemma CompletedMissed(a: NodeId, b: NodeId, c: NodeId) returns (entries: seq<NodeId>, ss: seq<Run>, es: seq<Event>)
    requires a != b && a != c && b != c
    ensures QuietRun(BesideIR(a, b, c), entries, ss, es) && Drained(ss[|es|]) && ss[|es|].completions == 0
  {
    assert a in BesideIR(a, b, c) && BesideIR(a, b, c)[a].dependents != [] by {
      BesideIsForest(a, b, c);
    }
    BesideIsPlain(a, b, c);
    entries, ss, es := MissedRunExists(Beside(a, b, c), BesideIR(a, b, c), a);
  }

  lemma CompletedTwice(a: NodeId, b: NodeId, c: NodeId) returns (entries: seq<NodeId>, ss: seq<Run>, es: seq<Event>)
    requires a != b && a != c && b != c
    ensures QuietRun(BesideIR(a, b, c), entries, ss, es) && ss[|es|].completions == 2
  {
    BesideIsPlain(a, b, c);
    entries, ss, es := TwiceRunExists(Beside(a, b, c), BesideIR(a, b, c), b, c);
  }

  lemma CompletedBeforeToken(a: NodeId, b: NodeId, c: NodeId)
    returns (entries: seq<NodeId>, ss: seq<Run>, es: seq<Event>, k: nat, j: nat)
    requires a != b && a != c && b != c
    ensures QuietRun(BesideIR(a, b, c), entries, ss, es) && LateToken(ss, es, k, j)
  {
    BesideIsPlain(a, b, c);
    BesideIsApart(a, b, c);
    entries, ss, es, k, j := LateRunExists(Beside(a, b, c), BesideIR(a, b, c));
  }

  // ---- A join: a and b lead to c

  function Join(a: NodeId, b: NodeId, c: NodeId): Schema {
    Schema([Task(a), Task(b), Task(c)], [Edge(a, c, ""), Edge(b, c, "")])
  }

  function JoinIR(a: NodeId, b: NodeId, c: NodeId): IR {
    map[a := TaskNode(a, [], [c]), b := TaskNode(b, [], [c]), c := TaskNode(c, [a, b], [])]
  }

  lemma JoinAdjacency(a: NodeId, b: NodeId, c: NodeId, id: NodeId)
    requires a != b && a != c && b != c && id in JoinIR(a, b, c)
    ensures JoinIR(a, b, c)[id] == TaskNode(id, SourcesTo(Join(a, b, c).edges, id), Tos(EdgesFrom(Join(a, b, c).edges, id)))
  {
    var e, f := Edge(a, c, ""), Edge(b, c, "");
    TwoEdges(e, f, id);
    if id == a {
      assert Source(e, id) + Source(f, id) == [] && Target(e, id) + Target(f, id) == [c];
    } else if id == b {
      assert Source(e, id) + Source(f, id) == [] && Target(e, id) + Target(f, id) == [c];
    } else {
      assert Source(e, id) + Source(f, id) == [a, b] && Target(e, id) + Target(f, id) == [];
    }
  }

  lemma JoinIsLinked(a: NodeId, b: NodeId, c: NodeId, id: NodeId)
    requires a != b && a != c && b != c && id in JoinIR(a, b, c)
    ensures Linked(Join(a, b, c), Join(a, b, c).edges, id, JoinIR(a, b, c)[id])
  {
    ThreeIds(Task(a), Task(b), Task(c));
    JoinAdjacency(a, b, c, id);
    TaskIsLinked(Join(a, b, c), id, JoinIR(a, b, c)[id]);
  }

  lemma JoinKeys(a: NodeId, b: NodeId, c: NodeId)
    requires a != b && a != c && b != c
    ensures JoinIR(a, b, c).Keys == Ids(Join(a, b, c).nodes) && EdgesClosed(Join(a, b, c).edges, JoinIR(a, b, c).Keys)
  {
    ThreeIds(Task(a), Task(b), Task(c));
  }

  lemma JoinAllLinked(a: NodeId, b: NodeId, c: NodeId)
    requires a != b && a != c && b != c
    ensures AllNodesLinked(Join(a, b, c), JoinIR(a, b, c))
  {
    var ir := JoinIR(a, b, c);
    forall id | id in ir ensures Linked(Join(a, b, c), Join(a, b, c).edges, id, ir[id]) && FlagsAreSet(ir[id]) {
      JoinIsLinked(a, b, c, id);
    }
  }

  lemma JoinCompiles(a: NodeId, b: NodeId, c: NodeId)
    requires a != b && a != c && b != c
    ensures Compiled(Join(a, b, c), JoinIR(a, b, c))
  {
    JoinKeys(a, b, c);
    JoinAllLinked(a, b, c);
    assert AllNodesLinked(Join(a, b, c), JoinIR(a, b, c));
  }

  lemma JoinAccepted(a: NodeId, b: NodeId, c: NodeId)
    requires a != b && a != c && b != c
    ensures Accepted(JoinIR(a, b, c))
  {
    var ir := JoinIR(a, b, c);
    RankedAccepted(ir, n => if n == c then 0 else 1);
    assert c in ir && ir[c].isTerminal;
    assert a in ir && |ir[a].dependencies| == 0;
  }

  lemma JoinIsPlainJoin(a: NodeId, b: NodeId, c: NodeId)
    requires a != b && a != c && b != c
    ensures LoopFree(JoinIR(a, b, c)) && BranchFree(JoinIR(a, b, c)) && !Forest(JoinIR(a, b, c))
  {
    assert |JoinIR(a, b, c)[c].dependencies| == 2;
  }

  /** Two tasks that lead to a third: a run drains, and its counter is not zero. */
  lemma JoinLeaks(a: NodeId, b: NodeId, c: NodeId) returns (entries: seq<NodeId>, ss: seq<Run>, es: seq<Event>)
    requires a != b && a != c && b != c
    ensures QuietRun(JoinIR(a, b, c), entries, ss, es) && Drained(ss[|es|]) && ss[|es|].counter.value != 0
  {
    JoinCompiles(a, b, c);
    JoinAccepted(a, b, c);
    JoinIsPlainJoin(a, b, c);
    entries, ss, es := LeakingRun(Join(a, b, c), JoinIR(a, b, c));
  }

  // ---- A dead loop: a leads to l, l to z, and l may run once

  function DeadConfig(a: NodeId): map<string, Json> {
    map["max_iterations" := Num(1.0), "loop_back_to" := Str(a)]
  }

  function Dead(a: NodeId, l: NodeId, z: NodeId): Schema {
    Schema([Task(a), WorkflowNode(l, "loop", DeadConfig(a)), Task(z)], [Edge(a, l, ""), Edge(l, z, "")])
  }

  function DeadNode(a: NodeId, l: NodeId, z: NodeId): Node {
    Node(l, "task", [a], [z], false, false, Some(LoopConfig(true, None, 1, a, [], [])), None)
  }

  function DeadIR(a: NodeId, l: NodeId, z: NodeId): IR {
    map[a := TaskNode(a, [], [l]), l := DeadNode(a, l, z), z := TaskNode(z, [l], [])]
  }

  ghost predicate Names(a: NodeId, l: NodeId, z: NodeId) {
    a != l && a != z && l != z && a != ""
  }

  lemma DeadAdjacency(a: NodeId, l: NodeId, z: NodeId, id: NodeId)
    requires Names(a, l, z) && id in DeadIR(a, l, z)
    ensures var n, es := DeadIR(a, l, z)[id], Dead(a, l, z).edges;
      n.dependencies == SourcesTo(es, id) && n.dependents == Tos(EdgesFrom(es, id))
  {
    var e, f := Edge(a, l, ""), Edge(l, z, "");
    TwoEdges(e, f, id);
    if id == a {
      assert Source(e, id) + Source(f, id) == [] && Target(e, id) + Target(f, id) == [l];
    } else if id == l {
      assert Source(e, id) + Source(f, id) == [a] && Target(e, id) + Target(f, id) == [z];
    } else {
      assert Source(e, id) + Source(f, id) == [l] && Target(e, id) + Target(f, id) == [];
    }
  }

  lemma DeadConfigIsValid(a: NodeId)
    requires a != ""
    ensures LoopConfigValid(DeadConfig(a)) && LoopOf(DeadConfig(a), LoopConfig(true, None, 1, a, [], []))
  {
  }

  lemma DeadIds(a: NodeId, l: NodeId, z: NodeId)
    requires Names(a, l, z)
    ensures DeadIR(a, l, z).Keys == Ids(Dead(a, l, z).nodes) && EdgesClosed(Dead(a, l, z).edges, DeadIR(a, l, z).Keys)
    ensures LastNode(Dead(a, l, z).nodes, a) == Task(a) && LastNode(Dead(a, l, z).nodes, z) == Task(z)
    ensures LastNode(Dead(a, l, z).nodes, l) == WorkflowNode(l, "loop", DeadConfig(a))
  {
    ThreeIds(Task(a), WorkflowNode(l, "loop", DeadConfig(a)), Task(z));
  }

  lemma DeadNodeIsLinked(a: NodeId, l: NodeId, z: NodeId)
    requires Names(a, l, z)
    ensures Linked(Dead(a, l, z), Dead(a, l, z).edges, l, DeadNode(a, l, z))
  {
    DeadIds(a, l, z);
    DeadAdjacency(a, l, z, l);
    DeadConfigIsValid(a);
    LoopIsLinked(Dead(a, l, z), WorkflowNode(l, "loop", DeadConfig(a)), DeadNode(a, l, z));
  }

  lemma DeadIsLinked(a: NodeId, l: NodeId, z: NodeId, id: NodeId)
    requires Names(a, l, z) && id in DeadIR(a, l, z)
    ensures Linked(Dead(a, l, z), Dead(a, l, z).edges, id, DeadIR(a, l, z)[id])
  {
    if id == l {
      DeadNodeIsLinked(a, l, z);
    } else {
      DeadIds(a, l, z);
      DeadAdjacency(a, l, z, id);
      TaskIsLinked(Dead(a, l, z), id, DeadIR(a, l, z)[id]);
    }
  }

  lemma DeadAllLinked(a: NodeId, l: NodeId, z: NodeId)
    requires Names(a, l, z)
    ensures AllNodesLinked(Dead(a, l, z), DeadIR(a, l, z))
  {
    var ir := DeadIR(a, l, z);
    forall id | id in ir ensures Linked(Dead(a, l, z), Dead(a, l, z).edges, id, ir[id]) && FlagsAreSet(ir[id]) {
      DeadIsLinked(a, l, z, id);
    }
  }

  lemma DeadCompiles(a: NodeId, l: NodeId, z: NodeId)
    requires Names(a, l, z)
    ensures Compiled(Dead(a, l, z), DeadIR(a, l, z))
  {
    DeadIds(a, l, z);
    DeadAllLinked(a, l, z);
    assert AllNodesLinked(Dead(a, l, z), DeadIR(a, l, z));
  }

  lemma DeadAccepted(a: NodeId, l: NodeId, z: NodeId)
    requires Names(a, l, z)
    ensures Accepted(DeadIR(a, l, z))
  {
    var ir := DeadIR(a, l, z);
    RankedAccepted(ir, n => if n == z then 0 else if n == l then 1 else 2);
    assert z in ir && ir[z].isTerminal;
    assert a in ir && |ir[a].dependencies| == 0;
  }

  /** A set of nodes that contains the entry nodes, that no outcome leaves, and that has no terminal
      node. */
  ghost predicate Trap(ir: IR, nodes: set<NodeId>) {
    && EntryNodes(ir) <= nodes
    && (forall n :: n in nodes ==> n in ir && !ir[n].isTerminal)
    && (forall n, next, m :: n in nodes && ControlFlow.CanRoute(ir[n], next) && m in next ==> m in nodes)
  }

  ghost predicate Trapped(nodes: set<NodeId>, s: Run) {
    s.completions == 0 && forall p :: p in s.procs ==> p.node in nodes
  }

  lemma StepStaysTrapped(ir: IR, nodes: set<NodeId>, s: Run, e: Event)
    requires Trap(ir, nodes) && Enabled(s, e) && !e.Patch? && !e.Redeliver? && s.ir == ir && Legal(ir, s.procs[e.i]) && Trapped(nodes, s)
    ensures Trapped(nodes, Step(s, e))
  {
    var p := s.procs[e.i];
    assert p in s.procs;
    if e.Route? {
      assert p.next[p.pos] in p.next;
    }
    forall q | q in Step(s, e).procs ensures q.node in nodes {
      assert q in s.procs || q == Advance(s, e) || q in Added(s, e);
    }
  }

  lemma StartIsTrapped(ir: IR, nodes: set<NodeId>, entries: seq<NodeId>)
    requires Trap(ir, nodes) && EntryOrder(ir, entries)
    ensures Trapped(nodes, Start(ir, entries))
  {
    var ps := Start(ir, entries).procs;
    forall p | p in ps ensures p.node in nodes {
      var i :| 0 <= i < |ps| && ps[i] == p;
      assert entries[i] in EntryNodes(ir);
    }
  }

  lemma RunStepStaysTrapped(ir: IR, nodes: set<NodeId>, entries: seq<NodeId>, ss: seq<Run>, es: seq<Event>, k: nat)
    requires Trap(ir, nodes) && QuietRun(ir, entries, ss, es) && k < |es|
    ensures Trapped(nodes, ss[k]) ==> Trapped(nodes, ss[k + 1])
  {
    if Trapped(nodes, ss[k]) {
      QuietStep(ir, entries, ss, es, k);
      StepStaysTrapped(ir, nodes, ss[k], es[k]);
    }
  }

  /** A run that starts in a trap never records COMPLETED. */
  lemma {:induction false} TrappedRunsNeverComplete(ir: IR, nodes: set<NodeId>, entries: seq<NodeId>, ss: seq<Run>, es: seq<Event>, k: nat)
    requires Trap(ir, nodes) && QuietRun(ir, entries, ss, es) && k < |ss|
    ensures Trapped(nodes, ss[k])
  {
    if k == 0 {
      StartIsTrapped(ir, nodes, entries);
    } else {
      TrappedRunsNeverComplete(ir, nodes, entries, ss, es, k - 1);
      RunStepStaysTrapped(ir, nodes, entries, ss, es, k - 1);
    }
  }

  lemma DeadIsTrap(a: NodeId, l: NodeId, z: NodeId)
    requires Names(a, l, z)
    ensures Trap(DeadIR(a, l, z), {a, l})
  {
    var ir := DeadIR(a, l, z);
    ControlFlow.LoopCanEmitIff(ir[l]);
    forall next, m | ControlFlow.CanRoute(ir[a], next) && m in next ensures m in {a, l} {
      assert next == [l];
    }
  }

  /** The loop node is never terminal and never emits, so no run of this workflow records COMPLETED. */
  lemma DeadLoopNeverCompletes(a: NodeId, l: NodeId, z: NodeId, entries: seq<NodeId>, ss: seq<Run>, es: seq<Event>)
    requires Names(a, l, z) && QuietRun(DeadIR(a, l, z), entries, ss, es)
    ensures !ControlFlow.CanEmit(DeadIR(a, l, z)[l]) && !DeadIR(a, l, z)[l].isTerminal
    ensures ss[|es|].completions == 0
  {
    ControlFlow.LoopCanEmitIff(DeadIR(a, l, z)[l]);
    DeadIsTrap(a, l, z);
    TrappedRunsNeverComplete(DeadIR(a, l, z), {a, l}, entries, ss, es, |es|);
  }

  // ---- Two conditionals in a row: a leads to c, c to d, d to z

  datatype Row = Row(a: NodeId, c: NodeId, d: NodeId, z: NodeId)

  ghost predicate AllDistinct(r: Row) {
    r.a != r.c && r.a != r.d && r.a != r.z && r.c != r.d && r.c != r.z && r.d != r.z
  }

  function RowNodes(r: Row): seq<WorkflowNode> {
    [Task(r.a), WorkflowNode(r.c, "conditional", map[]), WorkflowNode(r.d, "conditional", map[]), Task(r.z)]
  }

  function RowSchema(r: Row): Schema {
    Schema(RowNodes(r), [Edge(r.a, r.c, ""), Edge(r.c, r.d, ""), Edge(r.d, r.z, "")])
  }

  function Conditional(id: NodeId, source: NodeId, target: NodeId): Node {
    Node(id, "task", [source], [target], false, false, None, Some(Fallback([target])))
  }

  function RowIR(r: Row): IR {
    map[r.a := TaskNode(r.a, [], [r.c]), r.c := Conditional(r.c, r.a, r.d), r.d := Conditional(r.d, r.c, r.z), r.z := TaskNode(r.z, [r.d], [])]
  }

  lemma RowSources(r: Row, id: NodeId)
    requires AllDistinct(r) && id in RowIR(r)
    ensures var es := RowSchema(r).edges; Source(es[0], id) + Source(es[1], id) + Source(es[2], id) == RowIR(r)[id].dependencies
  {
    var es := RowSchema(r).edges;
    if id == r.a {
      assert Source(es[0], id) == Source(es[1], id) == Source(es[2], id) == [];
    } else if id == r.c {
      assert Source(es[0], id) == [r.a] && Source(es[1], id) == Source(es[2], id) == [];
    } else if id == r.d {
      assert Source(es[0], id) == [] && Source(es[1], id) == [r.c] && Source(es[2], id) == [];
    } else {
      assert Source(es[0], id) == Source(es[1], id) == [] && Source(es[2], id) == [r.d];
    }
  }

  lemma RowTargets(r: Row, id: NodeId)
    requires AllDistinct(r) && id in RowIR(r)
    ensures var es := RowSchema(r).edges; Target(es[0], id) + Target(es[1], id) + Target(es[2], id) == RowIR(r)[id].dependents
  {
    var es := RowSchema(r).edges;
    if id == r.a {
      assert Target(es[0], id) == [r.c] && Target(es[1], id) == Target(es[2], id) == [];
    } else if id == r.c {
      assert Target(es[0], id) == [] && Target(es[1], id) == [r.d] && Target(es[2], id) == [];
    } else if id == r.d {
      assert Target(es[0], id) == Target(es[1], id) == [] && Target(es[2], id) == [r.z];
    } else {
      assert Target(es[0], id) == Target(es[1], id) == Target(es[2], id) == [];
    }
  }

  lemma RowAdjacency(r: Row, id: NodeId)
    requires AllDistinct(r) && id in RowIR(r)
    ensures var n, es := RowIR(r)[id], RowSchema(r).edges;
      n.dependencies == SourcesTo(es, id) && n.dependents == Tos(EdgesFrom(es, id))
  {
    var es := RowSchema(r).edges;
    RowSources(r, id);
    RowTargets(r, id);
    ThreeEdges(es[0], es[1], es[2], id);
    assert es == [es[0], es[1], es[2]];
  }

  lemma RowNode(r: Row, k: nat)
    requires AllDistinct(r) && k < 4
    ensures var id := RowNodes(r)[k].id; id in RowIR(r) && id in Ids(RowNodes(r)) && LastNode(RowNodes(r), id) == RowNodes(r)[k]
  {
    LastNodeWins(RowNodes(r), k);
  }

  lemma RowTaskIsLinked(r: Row, k: nat)
    requires AllDistinct(r) && (k == 0 || k == 3)
    ensures var id := RowNodes(r)[k].id; id in RowIR(r) && Linked(RowSchema(r), RowSchema(r).edges, id, RowIR(r)[id])
  {
    RowNode(r, k);
    var id := RowNodes(r)[k].id;
    RowAdjacency(r, id);
    TaskIsLinked(RowSchema(r), id, RowIR(r)[id]);
  }

  lemma RowUnconditional(r: Row)
    ensures forall e :: e in RowSchema(r).edges ==> e.condition == ""
  {
  }

  lemma RowConditionalIsLinked(r: Row, id: NodeId)
    requires AllDistinct(r) && (id == r.c || id == r.d)
    ensures Linked(RowSchema(r), RowSchema(r).edges, id, RowIR(r)[id])
  {
    var k := if id == r.c then 1 else 2;
    assert id in Ids(RowNodes(r)) && LastNode(RowNodes(r), id).kind == "conditional" by {
      RowNode(r, k);
    }
    var n := RowIR(r)[id];
    assert n.id == id && n.kind == "task" && n.loop.None? && n.branch == Some(Fallback(n.dependents));
    RowAdjacency(r, id);
    RowUnconditional(r);
    FallbackIsLinked(RowSchema(r), id, n);
  }

  lemma RowKeys(r: Row)
    requires AllDistinct(r)
    ensures RowIR(r).Keys == Ids(RowNodes(r)) && EdgesClosed(RowSchema(r).edges, RowIR(r).Keys)
  {
    var ns := RowNodes(r);
    assert ns[0] in ns && ns[1] in ns && ns[2] in ns && ns[3] in ns;
  }

  lemma RowFlags(r: Row, id: NodeId)
    requires AllDistinct(r) && id in RowIR(r)
    ensures FlagsAreSet(RowIR(r)[id])
  {
  }

  lemma RowIsLinked(r: Row, id: NodeId)
    requires AllDistinct(r) && id in RowIR(r)
    ensures Linked(RowSchema(r), RowSchema(r).edges, id, RowIR(r)[id])
  {
    if id == r.a || id == r.z {
      RowTaskIsLinked(r, if id == r.a then 0 else 3);
    } else {
      RowConditionalIsLinked(r, id);
    }
  }

  lemma RowAllLinked(r: Row)
    requires AllDistinct(r)
    ensures AllNodesLinked(RowSchema(r), RowIR(r))
  {
    forall id | id in RowIR(r) ensures Linked(RowSchema(r), RowSchema(r).edges, id, RowIR(r)[id]) && FlagsAreSet(RowIR(r)[id]) {
      RowIsLinked(r, id);
      RowFlags(r, id);
    }
  }

  lemma RowCompiles(r: Row)
    requires AllDistinct(r)
    ensures Compiled(RowSchema(r), RowIR(r))
  {
    RowKeys(r);
    RowAllLinked(r);
    assert AllNodesLinked(RowSchema(r), RowIR(r));
  }

  function RowRank(r: Row): Absorbers.Ranking {
    n => if n == r.a then 3 else if n == r.c then 2 else if n == r.d then 1 else 0
  }

  lemma RowIsRanked(r: Row)
    requires AllDistinct(r)
    ensures Absorbers.RankedEdges(RowIR(r), RowRank(r))
  {
  }

  lemma RowIsValid(r: Row)
    requires AllDistinct(r)
    ensures LoopsValid(RowIR(r)) && BranchesValid(RowIR(r))
  {
    var ir := RowIR(r);
    forall n | n in ir && ir[n].BranchEnabled() ensures BranchValid(ir, ir[n].branch.value) {
      assert ir[n].branch.value == Fallback([if n == r.c then r.d else r.z]);
    }
  }

  lemma RowAccepted(r: Row)
    requires AllDistinct(r)
    ensures Accepted(RowIR(r))
  {
    var ir := RowIR(r);
    RowIsRanked(r);
    RowIsValid(r);
    RankedAccepted(ir, RowRank(r));
    assert r.z in ir && ir[r.z].isTerminal;
    assert r.a in ir && |ir[r.a].dependencies| == 0;
  }

  lemma RowOutcomes(r: Row, choose: Choices)
    requires AllDistinct(r) && RoutesBy(RowIR(r), choose)
    ensures choose(r.a) == [r.c] && choose(r.c) == [r.d] && choose(r.d) == [r.z] && choose(r.z) == []
  {
    var ir := RowIR(r);
    assert ControlFlow.CanRoute(ir[r.a], choose(r.a)) && ControlFlow.CanRoute(ir[r.c], choose(r.c));
    assert ControlFlow.CanRoute(ir[r.d], choose(r.d)) && ControlFlow.CanRoute(ir[r.z], choose(r.z));
  }

  /** Some outcome oracle exists: every node follows its dependents. */
  lemma RowChoices(r: Row) returns (choose: Choices)
    requires AllDistinct(r)
    ensures RoutesBy(RowIR(r), choose)
  {
    var ir := RowIR(r);
    choose := n => if n in ir then ir[n].dependents else [];
    forall n | n in ir ensures ControlFlow.CanRoute(ir[n], choose(n)) {
      assert n == r.c || n == r.d ==> ControlFlow.BranchChoice(ir[n].branch.value, None) == choose(n);
    }
  }

  lemma OneOutcome(ir: IR, rank: Absorbers.Ranking, choose: Choices, n: NodeId, m: NodeId)
    requires Absorbers.Falling(ir, rank, choose) && n in ir && m in ir && choose(n) == [m] && ir[n].IsAbsorber()
    ensures Absorbers.Expand(ir, rank, choose, n) == Absorbers.Expand(ir, rank, choose, m)
    ensures Absorbers.Emitted(ir, rank, choose, n) == 1 + Absorbers.Emitted(ir, rank, choose, m)
  {
    Absorbers.ChoicesBelow(ir, rank, choose, n);
    assert [m][..0] == [];
    assert Absorbers.ExpandAll(ir, rank, choose, [m][..0], rank(n)) == multiset{};
    assert Absorbers.EmittedAll(ir, rank, choose, [m][..0], rank(n)) == 0;
    assert Absorbers.ExpandAll(ir, rank, choose, [m], rank(n)) == Absorbers.Expand(ir, rank, choose, m);
    assert Absorbers.EmittedAll(ir, rank, choose, [m], rank(n)) == Absorbers.Emitted(ir, rank, choose, m);
  }

  /** Two conditionals in a row publish one token and raise the counter by two. */
  lemma NestedConditionalsLeak(r: Row, choose: Choices)
    requires AllDistinct(r) && RoutesBy(RowIR(r), choose)
    ensures Absorbers.Falling(RowIR(r), RowRank(r), choose)
    ensures Absorbers.Expand(RowIR(r), RowRank(r), choose, r.c) == multiset{r.z}
    ensures Absorbers.Emitted(RowIR(r), RowRank(r), choose, r.c) == 2
  {
    RowOutcomes(r, choose);
    OneOutcome(RowIR(r), RowRank(r), choose, r.c, r.d);
    OneOutcome(RowIR(r), RowRank(r), choose, r.d, r.z);
  }
}
