/** A workflow whose validation (common/compiler/ir.go) succeeds or fails depending on the order in
    which Go ranges over the node map: an entry leads to a task, the task and a loop node lead to
    each other, and the loop node leads to an end. */
module MapOrder {
  import opened Wrappers
  import opened Json
  import opened WorkflowIR
  import opened Compiler
  import opened Schemas
  import CycleCheck

  /** The four nodes and the loop node's config. */
  datatype Parts = Parts(entry: NodeId, task: NodeId, loop: NodeId, end: NodeId, kind: string, config: map<string, Json>, cfg: LoopConfig)

  ghost predicate Proper(p: Parts) {
    && p.entry != p.task && p.entry != p.loop && p.entry != p.end
    && p.task != p.loop && p.task != p.end && p.loop != p.end
    && p.kind in EXECUTABLE && p.kind != "hitl"
    && LoopConfigValid(p.config) && LoopOf(p.config, p.cfg)
    && p.cfg.maxIterations > 0 && p.cfg.loopBackTo == p.task
  }

  function Nodes(p: Parts): seq<WorkflowNode> {
    [WorkflowNode(p.entry, p.kind, map[]), WorkflowNode(p.task, p.kind, map[]), WorkflowNode(p.loop, "loop", p.config), WorkflowNode(p.end, p.kind, map[])]
  }

  function Edges(p: Parts): seq<Edge> {
    [Edge(p.entry, p.task, ""), Edge(p.task, p.loop, ""), Edge(p.loop, p.task, ""), Edge(p.loop, p.end, "")]
  }

  function Graph(p: Parts): IR {
    map[
      p.entry := Node(p.entry, p.kind, [], [p.task], false, false, None, None),
      p.task := Node(p.task, p.kind, [p.entry, p.loop], [p.loop], true, false, None, None),
      p.loop := Node(p.loop, "task", [p.task], [p.task, p.end], false, false, Some(p.cfg), None),
      p.end := Node(p.end, p.kind, [p.loop], [], false, true, None, None)]
  }

  // ---- It is what the compiler produces

  lemma Sources(p: Parts, id: NodeId)
    requires Proper(p) && id in Graph(p)
    ensures var es := Edges(p); Source(es[0], id) + Source(es[1], id) + Source(es[2], id) + Source(es[3], id) == Graph(p)[id].dependencies
  {
    var es := Edges(p);
    if id == p.entry {
      assert Source(es[0], id) == Source(es[1], id) == Source(es[2], id) == Source(es[3], id) == [];
    } else if id == p.task {
      assert Source(es[0], id) == [p.entry] && Source(es[1], id) == [] && Source(es[2], id) == [p.loop] && Source(es[3], id) == [];
    } else if id == p.loop {
      assert Source(es[0], id) == [] && Source(es[1], id) == [p.task] && Source(es[2], id) == [] && Source(es[3], id) == [];
    } else {
      assert Source(es[0], id) == [] && Source(es[1], id) == [] && Source(es[2], id) == [] && Source(es[3], id) == [p.loop];
    }
  }

  lemma Targets(p: Parts, id: NodeId)
    requires Proper(p) && id in Graph(p)
    ensures var es := Edges(p); Target(es[0], id) + Target(es[1], id) + Target(es[2], id) + Target(es[3], id) == Graph(p)[id].dependents
  {
    var es := Edges(p);
    if id == p.entry {
      assert Target(es[0], id) == [p.task] && Target(es[1], id) == [] && Target(es[2], id) == [] && Target(es[3], id) == [];
    } else if id == p.task {
      assert Target(es[0], id) == [] && Target(es[1], id) == [p.loop] && Target(es[2], id) == [] && Target(es[3], id) == [];
    } else if id == p.loop {
      assert Target(es[0], id) == [] && Target(es[1], id) == [] && Target(es[2], id) == [p.task] && Target(es[3], id) == [p.end];
    } else {
      assert Target(es[0], id) == Target(es[1], id) == Target(es[2], id) == Target(es[3], id) == [];
    }
  }

  lemma GraphAdjacency(p: Parts, id: NodeId)
    requires Proper(p) && id in Graph(p)
    ensures SourcesTo(Edges(p), id) == Graph(p)[id].dependencies && Tos(EdgesFrom(Edges(p), id)) == Graph(p)[id].dependents
  {
    var es := Edges(p);
    Sources(p, id);
    Targets(p, id);
    FourEdges(es[0], es[1], es[2], es[3], id);
    assert es == [es[0], es[1], es[2], es[3]];
  }

  lemma NodeIsLinked(p: Parts, k: nat)
    requires Proper(p) && k < 4
    ensures var id := Nodes(p)[k].id;
      id in Graph(p) && Linked(Schema(Nodes(p), Edges(p)), Edges(p), id, Graph(p)[id])
  {
    var w := Nodes(p)[k];
    LastNodeWins(Nodes(p), k);
    GraphAdjacency(p, w.id);
    if k == 2 {
      LoopIsLinked(Schema(Nodes(p), Edges(p)), w, Graph(p)[w.id]);
    } else {
      PlainIsLinked(Schema(Nodes(p), Edges(p)), w.id, Graph(p)[w.id]);
    }
  }

  lemma GraphIds(p: Parts)
    ensures Ids(Nodes(p)) == Graph(p).Keys && EdgesClosed(Edges(p), Graph(p).Keys)
  {
    var ns := Nodes(p);
    assert ns[0] in ns && ns[1] in ns && ns[2] in ns && ns[3] in ns;
  }

  lemma GraphFlags(p: Parts, id: NodeId)
    requires Proper(p) && id in Graph(p)
    ensures Graph(p)[id].waitForAll == (|Graph(p)[id].dependencies| > 1) && Graph(p)[id].isTerminal == NoSuccessors(Graph(p)[id])
  {
  }

  lemma GraphIsCompiled(p: Parts)
    requires Proper(p)
    ensures Compiled(Schema(Nodes(p), Edges(p)), Graph(p))
  {
    GraphIds(p);
    var ns := Nodes(p);
    forall id | id in Graph(p) ensures Linked(Schema(ns, Edges(p)), Edges(p), id, Graph(p)[id]) {
      assert id == ns[0].id || id == ns[1].id || id == ns[2].id || id == ns[3].id;
      NodeIsLinked(p, if id == ns[0].id then 0 else if id == ns[1].id then 1 else if id == ns[2].id then 2 else 3);
    }
    forall id | id in Graph(p)
      ensures Graph(p)[id].waitForAll == (|Graph(p)[id].dependencies| > 1) && Graph(p)[id].isTerminal == NoSuccessors(Graph(p)[id])
    {
      GraphFlags(p, id);
    }
  }

  // ---- Two orders, two verdicts

  function LoopFirst(p: Parts): seq<NodeId> {
    [p.loop, p.task, p.end, p.entry]
  }

  function TaskFirst(p: Parts): seq<NodeId> {
    [p.task, p.loop, p.end, p.entry]
  }

  lemma GraphIsClosed(p: Parts)
    requires Proper(p)
    ensures Closed(Graph(p)) && IsOrder(LoopFirst(p), Graph(p).Keys) && IsOrder(TaskFirst(p), Graph(p).Keys)
  {
    var a, b := LoopFirst(p), TaskFirst(p);
    assert a[0] == p.loop && a[1] == p.task && a[2] == p.end && a[3] == p.entry;
    assert b[0] == p.task && b[1] == p.loop && b[2] == p.end && b[3] == p.entry;
  }

  /** Starting at the loop node, the edge back into it is tolerated. */
  lemma TaskInsideLoop(ir: IR, task: NodeId, loop: NodeId)
    requires Closed(ir) && task in ir && loop in ir && task != loop
    requires ir[task].dependents == [loop] && ir[loop].LoopEnabled()
    ensures CycleCheck.Visit(ir, task, [loop], {loop}, []) == CycleCheck.Clean({loop, task}, [task])
  {
    CycleCheck.VisitOne(ir, loop, [loop, task], {loop, task}, []);
    assert [loop] + [task] == [loop, task] && {loop} + {task} == {loop, task} && [] + [task] == [task];
  }

  lemma LoopVisit(ir: IR, task: NodeId, loop: NodeId, end: NodeId)
    requires Closed(ir) && task in ir && loop in ir && end in ir && task != loop && end != task && end != loop
    requires ir[task].dependents == [loop] && ir[loop].dependents == [task, end] && ir[end].dependents == [] && ir[loop].LoopEnabled()
    ensures CycleCheck.Visit(ir, loop, [], {}, []) == CycleCheck.Clean({loop, task, end}, [task, end, loop])
  {
    TaskInsideLoop(ir, task, loop);
    assert [loop] + [end] == [loop, end] && {loop, task} + {end} == {loop, task, end} && [task] + [end] == [task, end];
    CycleCheck.VisitOne(ir, end, [loop], {loop, task}, [task]);
    assert [task, end][1..] == [end];
    assert [] + [loop] == [loop] && {} + {loop} == {loop} && [task, end] + [loop] == [task, end, loop];
  }

  lemma RestVisit(ir: IR, task: NodeId, end: NodeId, entry: NodeId, visited: set<NodeId>, finished: seq<NodeId>)
    requires Closed(ir) && entry in ir && entry !in visited && visited <= ir.Keys && task in visited && end in visited
    requires ir[entry].dependents == [task]
    ensures CycleCheck.VisitAll(ir, [task, end, entry], [], visited, finished).Clean?
  {
    CycleCheck.VisitOne(ir, task, [entry], visited + {entry}, finished);
    assert [] + [entry] == [entry];
    CycleCheck.VisitOne(ir, entry, [], visited, finished);
    assert [task, end, entry][1..] == [end, entry] && [end, entry][1..] == [entry];
  }

  lemma AcceptedLoopFirst(p: Parts)
    requires Proper(p) && Closed(Graph(p)) && IsOrder(LoopFirst(p), Graph(p).Keys)
    ensures CycleCheck.Accepts(Graph(p), LoopFirst(p))
  {
    LoopVisit(Graph(p), p.task, p.loop, p.end);
    RestVisit(Graph(p), p.task, p.end, p.entry, {p.loop, p.task, p.end}, [p.task, p.end, p.loop]);
    assert LoopFirst(p)[1..] == [p.task, p.end, p.entry];
  }

  lemma RejectedTaskFirst(p: Parts)
    requires Proper(p) && Closed(Graph(p)) && IsOrder(TaskFirst(p), Graph(p).Keys)
    ensures !CycleCheck.Accepts(Graph(p), TaskFirst(p))
  {
    var c, ir := [p.task, p.loop], Graph(p);
    assert ir[p.task].dependents[0] == p.loop && ir[p.loop].dependents[0] == p.task;
    assert CycleCheck.NonLoopOnCycle(ir, TaskFirst(p)[0], c);
    CycleCheck.StartOnCycleRejects(ir, TaskFirst(p), c);
  }

  lemma OtherChecksPass(p: Parts)
    requires Proper(p)
    ensures Graph(p)[p.end].isTerminal && |Graph(p)[p.entry].dependencies| == 0 && LoopsValid(Graph(p)) && BranchesValid(Graph(p))
  {
  }

  lemma Verdicts(ir: IR, good: seq<NodeId>, bad: seq<NodeId>, entry: NodeId, end: NodeId)
    requires Closed(ir) && IsOrder(good, ir.Keys) && IsOrder(bad, ir.Keys) && LoopsValid(ir) && BranchesValid(ir)
    requires CycleCheck.Accepts(ir, good) && !CycleCheck.Accepts(ir, bad)
    requires entry in ir && |ir[entry].dependencies| == 0 && end in ir && ir[end].isTerminal
    ensures FirstProblem(ir, good) == None && FirstProblem(ir, bad) == Some(BadCycle)
  {
  }

  /** One workflow that compiles (GraphIsCompiled), two map orders: validation finds no problem in the
      first and a cycle without loop configuration in the second. */
  lemma VerdictDependsOnOrder(p: Parts)
    requires Proper(p)
    ensures Closed(Graph(p)) && IsOrder(LoopFirst(p), Graph(p).Keys) && IsOrder(TaskFirst(p), Graph(p).Keys)
    ensures FirstProblem(Graph(p), LoopFirst(p)) == None && FirstProblem(Graph(p), TaskFirst(p)) == Some(BadCycle)
  {
    GraphIsClosed(p);
    AcceptedLoopFirst(p);
    RejectedTaskFirst(p);
    OtherChecksPass(p);
    Verdicts(Graph(p), LoopFirst(p), TaskFirst(p), p.entry, p.end);
  }

  /** Such workflows exist. */
  lemma ProperExists() returns (p: Parts)
    ensures Proper(p)
  {
    var config := map["max_iterations" := Num(3.0), "loop_back_to" := Str("t")];
    p := Parts("e", "t", "l", "z", "http", config, LoopConfig(true, None, 3, "t", [], []));
  }
}
