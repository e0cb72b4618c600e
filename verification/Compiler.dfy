/** The workflow compiler (common/compiler/ir.go): a node list and an edge list become an IR with
    forward and backward adjacency, branch rules, loop configs and terminal flags. */
module Compiler {
  import opened Wrappers
  import opened Json
  import opened WorkflowIR
  import CycleCheck
  import Seqs

  datatype WorkflowNode = WorkflowNode(id: NodeId, kind: string, config: map<string, Json>)

  /** An empty condition means the edge is unconditional. */
  datatype Edge = Edge(from: NodeId, to: NodeId, condition: string)

  datatype Schema = Schema(nodes: seq<WorkflowNode>, edges: seq<Edge>)

  datatype Problem =
    | NoTerminal | NoEntry | BadLoop | BadBranch | BadCycle

  datatype CompileError =
    | BadNode(id: NodeId)
    | DanglingEdge(edge: Edge)
    | Invalid(problem: Problem)

  const EXECUTABLE := {"function", "http", "agent", "hitl", "transform", "aggregate", "filter"}

  // ---- Reading the schema

  function EdgesFrom(edges: seq<Edge>, u: NodeId): seq<Edge> {
    if edges == [] then []
    else
      var last := edges[|edges| - 1];
      var init := EdgesFrom(edges[..|edges| - 1], u);
      if last.from == u then init + [last] else init
  }

  lemma EdgesFromSnoc(edges: seq<Edge>, e: Edge, u: NodeId)
    ensures EdgesFrom(edges + [e], u) == if e.from == u then EdgesFrom(edges, u) + [e] else EdgesFrom(edges, u)
  {
    assert (edges + [e])[..|edges|] == edges;
  }

  function Tos(es: seq<Edge>): seq<NodeId> {
    if es == [] then [] else Tos(es[..|es| - 1]) + [es[|es| - 1].to]
  }

  /** Targets of the edges that carry condition `c`, in edge order. */
  function Group(es: seq<Edge>, c: string): seq<NodeId> {
    if es == [] then []
    else
      var last := es[|es| - 1];
      var init := Group(es[..|es| - 1], c);
      if last.condition == c then init + [last.to] else init
  }

  /** The distinct conditions on the edges. */
  ghost function Conditions(es: seq<Edge>): set<string> {
    set e | e in es && e.condition != "" :: e.condition
  }

  function SourcesTo(edges: seq<Edge>, v: NodeId): seq<NodeId> {
    if edges == [] then []
    else
      var last := edges[|edges| - 1];
      var init := SourcesTo(edges[..|edges| - 1], v);
      if last.to == v then init + [last.from] else init
  }

  ghost function EdgeCount(edges: seq<Edge>, u: NodeId, v: NodeId): nat {
    if edges == [] then 0
    else
      var last := edges[|edges| - 1];
      EdgeCount(edges[..|edges| - 1], u, v) + (if last.from == u && last.to == v then 1 else 0)
  }

  ghost function Ids(ns: seq<WorkflowNode>): set<NodeId> {
    set w | w in ns :: w.id
  }

  /** A later node with the same id replaces an earlier one. */
  ghost function LastNode(ns: seq<WorkflowNode>, id: NodeId): (w: WorkflowNode)
    requires id in Ids(ns)
    ensures w in ns && w.id == id
  {
    var last := ns[|ns| - 1];
    assert ns == ns[..|ns| - 1] + [last];
    if last.id == id then last else LastNode(ns[..|ns| - 1], id)
  }

  // ---- What a converted node looks like

  ghost predicate LoopConfigValid(config: map<string, Json>) {
    && "max_iterations" in config && config["max_iterations"].Num? && config["max_iterations"].n > 0.0
    && "loop_back_to" in config && config["loop_back_to"].Str? && config["loop_back_to"].s != ""
  }

  ghost predicate Convertible(w: WorkflowNode) {
    || w.kind in EXECUTABLE || w.kind == "conditional" || w.kind == "parallel"
    || (w.kind == "loop" && LoopConfigValid(w.config))
  }

  ghost predicate HasBranch(w: WorkflowNode, es: seq<Edge>) {
    w.kind == "conditional" || (w.kind == "hitl" && Conditions(es) != {})
  }

  function Strings(items: seq<Json>): seq<string> {
    if items == [] then []
    else
      var last := items[|items| - 1];
      var init := Strings(items[..|items| - 1]);
      if last.Str? then init + [last.s] else init
  }

  ghost function StringArray(config: map<string, Json>, key: string): seq<string> {
    if key in config && config[key].Arr? then Strings(config[key].items) else []
  }

  ghost predicate LoopOf(config: map<string, Json>, l: LoopConfig)
    requires LoopConfigValid(config)
  {
    && l.enabled
    && l.maxIterations == config["max_iterations"].n.Floor
    && l.loopBackTo == config["loop_back_to"].s
    && l.breakPath == StringArray(config, "break_path")
    && l.timeoutPath == StringArray(config, "timeout_path")
    && l.condition == if "condition" in config && config["condition"].Str? && config["condition"].s != ""
                      then Some(Condition("cel", config["condition"].s)) else None
  }

  function RuleTargets(rules: seq<BranchRule>): seq<NodeId> {
    if rules == [] then [] else RuleTargets(rules[..|rules| - 1]) + rules[|rules| - 1].nextNodes
  }

  lemma {:induction false} RuleTargetsEmptyIff(rules: seq<BranchRule>)
    ensures RuleTargets(rules) == [] <==> forall r :: r in rules ==> r.nextNodes == []
  {
    if rules != [] {
      assert rules == rules[..|rules| - 1] + [rules[|rules| - 1]];
      RuleTargetsEmptyIff(rules[..|rules| - 1]);
    }
  }

  ghost predicate RuleFor(es: seq<Edge>, r: BranchRule) {
    && r.condition.Some? && r.condition.value.kind == "cel"
    && r.condition.value.expression in Conditions(es)
    && r.nextNodes == Group(es, r.condition.value.expression)
  }

  /** One rule per distinct condition, in any order; unconditional edges form the default. */
  ghost predicate BranchOf(es: seq<Edge>, b: BranchConfig) {
    && b.enabled && b.kind == "conditional"
    && b.fallback == Group(es, "")
    && (forall r :: r in b.rules ==> RuleFor(es, r))
    && (forall i, j :: 0 <= i < j < |b.rules| ==> b.rules[i].condition != b.rules[j].condition)
    && (forall c :: c in Conditions(es) ==> exists i :: 0 <= i < |b.rules| && b.rules[i].condition == Some(Condition("cel", c)))
  }

  ghost predicate Shape(w: WorkflowNode, es: seq<Edge>, n: Node) {
    && Convertible(w)
    && n.id == w.id
    && n.kind == (if w.kind in EXECUTABLE then w.kind else "task")
    && (n.loop.Some? <==> w.kind == "loop")
    && (n.loop.Some? ==> LoopOf(w.config, n.loop.value))
    && (n.branch.Some? <==> HasBranch(w, es))
    && (n.branch.Some? ==> BranchOf(es, n.branch.value) && n.dependents == RuleTargets(n.branch.value.rules) + n.branch.value.fallback)
  }

  /** `n` once the edges `linked` (a prefix of the schema's edges) have been added to the IR. */
  ghost predicate Linked(schema: Schema, linked: seq<Edge>, id: NodeId, n: Node) {
    && id in Ids(schema.nodes)
    && Shape(LastNode(schema.nodes, id), EdgesFrom(schema.edges, id), n)
    && n.dependencies == SourcesTo(linked, id)
    && (n.branch.None? ==> n.dependents == Tos(EdgesFrom(linked, id)))
  }

  ghost predicate EdgesClosed(edges: seq<Edge>, ids: set<NodeId>) {
    forall e :: e in edges ==> e.from in ids && e.to in ids
  }

  /** The declarative meaning of a successful compilation. */
  ghost predicate Compiled(schema: Schema, ir: IR) {
    && ir.Keys == Ids(schema.nodes)
    && EdgesClosed(schema.edges, ir.Keys)
    && forall id :: id in ir ==>
         && Linked(schema, schema.edges, id, ir[id])
         && ir[id].waitForAll == (|ir[id].dependencies| > 1)
         && ir[id].isTerminal == NoSuccessors(ir[id])
  }

  predicate NoSuccessors(n: Node) {
    && |n.dependents| == 0
    && (n.BranchEnabled() ==>
          && (forall r :: r in n.branch.value.rules ==> |r.nextNodes| == 0)
          && |n.branch.value.fallback| == 0)
    && (n.LoopEnabled() ==>
          && |n.loop.value.breakPath| == 0
          && |n.loop.value.timeoutPath| == 0
          && n.loop.value.loopBackTo == "")
  }

  // ---- Validation

  ghost predicate LoopsValid(ir: IR) {
    forall n :: n in ir && ir[n].LoopEnabled() ==>
      ir[n].loop.value.maxIterations > 0 && ir[n].loop.value.loopBackTo != "" && ir[n].loop.value.loopBackTo in ir
  }

  ghost predicate BranchValid(ir: IR, b: BranchConfig) {
    && (|b.rules| > 0 || |b.fallback| > 0)
    && (forall r, m :: r in b.rules && m in r.nextNodes ==> m in ir)
    && (forall m :: m in b.fallback ==> m in ir)
  }

  ghost predicate BranchesValid(ir: IR) {
    forall n :: n in ir && ir[n].BranchEnabled() ==> BranchValid(ir, ir[n].branch.value)
  }

  /** The first problem `validate` reports, with the cycle check run in the given order. */
  ghost function FirstProblem(ir: IR, order: seq<NodeId>): Option<Problem>
    requires Closed(ir) && IsOrder(order, ir.Keys)
  {
    if forall n :: n in ir ==> !ir[n].isTerminal then Some(NoTerminal)
    else if forall n :: n in ir ==> |ir[n].dependencies| > 0 then Some(NoEntry)
    else if !LoopsValid(ir) then Some(BadLoop)
    else if !BranchesValid(ir) then Some(BadBranch)
    else if !CycleCheck.Accepts(ir, order) then Some(BadCycle)
    else None
  }

  /** Everything `validate` established about an accepted IR. */
  ghost predicate Accepted(ir: IR) {
    && Closed(ir) && LoopsValid(ir) && BranchesValid(ir)
    && (exists n :: n in ir && ir[n].isTerminal)
    && (exists n :: n in ir && |ir[n].dependencies| == 0)
    && (exists order :: IsOrder(order, ir.Keys) && CycleCheck.Accepts(ir, order))
  }

  // ---- The compiler

  method ExtractStringArray(config: map<string, Json>, key: string) returns (result: seq<string>)
    ensures result == StringArray(config, key)
  {
    result := [];
    if key in config && config[key].Arr? {
      var arr := config[key].items;
      for i := 0 to |arr|
        invariant result == Strings(arr[..i])
      {
        assert arr[..i + 1][..i] == arr[..i];
        if arr[i].Str? { result := result + [arr[i].s]; }
      }
      assert arr[..|arr|] == arr;
    }
  }

  method CreateLoopConfig(w: WorkflowNode) returns (r: Option<LoopConfig>)
    ensures r.Some? <==> LoopConfigValid(w.config)
    ensures r.Some? ==> LoopOf(w.config, r.value)
  {
    var config := w.config;
    if !("max_iterations" in config && config["max_iterations"].Num? && config["max_iterations"].n > 0.0) {
      return None;
    }
    if !("loop_back_to" in config && config["loop_back_to"].Str? && config["loop_back_to"].s != "") {
      return None;
    }
    var breakPath := ExtractStringArray(config, "break_path");
    var timeoutPath := ExtractStringArray(config, "timeout_path");
    var condition: Option<Condition> := None;
    if "condition" in config && config["condition"].Str? && config["condition"].s != "" {
      condition := Some(Condition("cel", config["condition"].s));
    }
    r := Some(LoopConfig(true, condition, config["max_iterations"].n.Floor, config["loop_back_to"].s, breakPath, timeoutPath));
  }

  ghost predicate Grouped(es: seq<Edge>, groups: map<string, seq<NodeId>>, fallback: seq<NodeId>) {
    && fallback == Group(es, "")
    && groups.Keys == Conditions(es)
    && (forall c :: c in groups ==> groups[c] == Group(es, c))
  }

  lemma {:induction false} NoGroup(es: seq<Edge>, c: string)
    requires c !in Conditions(es) && c != ""
    ensures Group(es, c) == []
  {
    if es != [] {
      assert es == es[..|es| - 1] + [es[|es| - 1]];
      NoGroup(es[..|es| - 1], c);
    }
  }

  lemma GroupSnoc(es: seq<Edge>, e: Edge, c: string)
    ensures Group(es + [e], c) == if e.condition == c then Group(es, c) + [e.to] else Group(es, c)
  {
    assert (es + [e])[..|es|] == es;
  }

  lemma ConditionsSnoc(es: seq<Edge>, e: Edge)
    ensures Conditions(es + [e]) == Conditions(es) + if e.condition != "" then {e.condition} else {}
  {
    assert forall f :: f in es + [e] <==> f in es || f == e;
  }

  lemma GroupStep(es: seq<Edge>, e: Edge, groups: map<string, seq<NodeId>>, fallback: seq<NodeId>)
    requires Grouped(es, groups, fallback)
    ensures e.condition == "" ==> Grouped(es + [e], groups, fallback + [e.to])
    ensures e.condition != "" ==>
              Grouped(es + [e], groups[e.condition := (if e.condition in groups then groups[e.condition] else []) + [e.to]], fallback)
  {
    ConditionsSnoc(es, e);
    forall c {
      GroupSnoc(es, e, c);
    }
    if e.condition !in groups && e.condition != "" {
      NoGroup(es, e.condition);
    }
  }

  method GroupByCondition(es: seq<Edge>) returns (groups: map<string, seq<NodeId>>, fallback: seq<NodeId>)
    ensures Grouped(es, groups, fallback)
  {
    groups, fallback := map[], [];
    for i := 0 to |es|
      invariant Grouped(es[..i], groups, fallback)
    {
      var e := es[i];
      GroupStep(es[..i], e, groups, fallback);
      Seqs.Snoc(es, i);
      if e.condition != "" {
        groups := groups[e.condition := (if e.condition in groups then groups[e.condition] else []) + [e.to]];
      } else {
        fallback := fallback + [e.to];
      }
    }
    Seqs.Whole(es);
  }

  lemma RulesFormBranch(es: seq<Edge>, groups: map<string, seq<NodeId>>, b: BranchConfig, order: seq<string>)
    requires Grouped(es, groups, b.fallback) && IsOrder(order, groups.Keys) && b.enabled && b.kind == "conditional"
    requires |b.rules| == |order|
    requires forall k :: 0 <= k < |order| ==> b.rules[k] == BranchRule(Some(Condition("cel", order[k])), groups[order[k]])
    ensures BranchOf(es, b)
  {
    forall c | c in Conditions(es)
      ensures exists i :: 0 <= i < |b.rules| && b.rules[i].condition == Some(Condition("cel", c))
    {
      assert c in order;
      var i :| 0 <= i < |order| && order[i] == c;
      assert b.rules[i].condition == Some(Condition("cel", c));
    }
  }

  /** Turns the condition groups into rules, one per distinct condition, in arbitrary map order. */
  method CreateBranchConfig(es: seq<Edge>) returns (b: BranchConfig)
    ensures BranchOf(es, b)
  {
    var groups, fallback := GroupByCondition(es);
    var order := AnyOrder(groups.Keys);
    var rules: seq<BranchRule> := [];
    for i := 0 to |order|
      invariant |rules| == i
      invariant forall k :: 0 <= k < i ==> rules[k] == BranchRule(Some(Condition("cel", order[k])), groups[order[k]])
    {
      rules := rules + [BranchRule(Some(Condition("cel", order[i])), groups[order[i]])];
    }
    b := BranchConfig(true, "conditional", rules, fallback);
    RulesFormBranch(es, groups, b, order);
  }

  method BranchDependents(b: BranchConfig) returns (dependents: seq<NodeId>)
    ensures dependents == RuleTargets(b.rules) + b.fallback
  {
    dependents := [];
    for i := 0 to |b.rules|
      invariant dependents == RuleTargets(b.rules[..i])
    {
      assert b.rules[..i + 1][..i] == b.rules[..i];
      dependents := dependents + b.rules[i].nextNodes;
    }
    assert b.rules[..|b.rules|] == b.rules;
    dependents := dependents + b.fallback;
  }

  method ConvertWorkflowNode(w: WorkflowNode, conditionalEdges: map<NodeId, seq<Edge>>, edgesFromNode: map<NodeId, seq<Edge>>, ghost es: seq<Edge>)
    returns (r: Result<Node, CompileError>)
    requires es == if w.id in edgesFromNode then edgesFromNode[w.id] else []
    requires w.id in conditionalEdges <==> Conditions(es) != {}
    ensures r.Ok? <==> Convertible(w)
    ensures r.Err? ==> r.error == BadNode(w.id)
    ensures r.Ok? ==> Shape(w, es, r.value) && Fresh(r.value)
  {
    var node := Node(w.id, "", [], [], false, false, None, None);
    if w.kind == "conditional" {
      var b := CreateBranchConfig(if w.id in edgesFromNode then edgesFromNode[w.id] else []);
      var ds := BranchDependents(b);
      node := node.(kind := "task", branch := Some(b), dependents := ds);
    } else if w.kind == "hitl" {
      node := node.(kind := "hitl");
      if w.id in conditionalEdges {
        var b := CreateBranchConfig(if w.id in edgesFromNode then edgesFromNode[w.id] else []);
        var ds := BranchDependents(b);
        node := node.(branch := Some(b), dependents := ds);
      }
    } else if w.kind == "loop" {
      var l := CreateLoopConfig(w);
      if l.None? { return Err(BadNode(w.id)); }
      node := node.(kind := "task", loop := l);
    } else if w.kind == "parallel" {
      node := node.(kind := "task");
    } else {
      if w.kind !in EXECUTABLE { return Err(BadNode(w.id)); }
      node := node.(kind := w.kind);
    }
    return Ok(node);
  }

  ghost predicate IndexedAt(edges: seq<Edge>, conditional: map<NodeId, seq<Edge>>, all: map<NodeId, seq<Edge>>, u: NodeId) {
    && (if u in all then all[u] else []) == EdgesFrom(edges, u)
    && (u in conditional <==> Conditions(EdgesFrom(edges, u)) != {})
  }

  ghost predicate Indexed(edges: seq<Edge>, conditional: map<NodeId, seq<Edge>>, all: map<NodeId, seq<Edge>>) {
    forall u :: IndexedAt(edges, conditional, all, u)
  }

  function Append(index: map<NodeId, seq<Edge>>, e: Edge): map<NodeId, seq<Edge>> {
    index[e.from := (if e.from in index then index[e.from] else []) + [e]]
  }

  lemma IndexStep(edges: seq<Edge>, e: Edge, conditional: map<NodeId, seq<Edge>>, all: map<NodeId, seq<Edge>>, u: NodeId)
    requires IndexedAt(edges, conditional, all, u)
    ensures IndexedAt(edges + [e], if e.condition != "" then Append(conditional, e) else conditional, Append(all, e), u)
  {
    EdgesFromSnoc(edges, e, u);
    ConditionsSnoc(EdgesFrom(edges, u), e);
  }

  /** The two edge indexes built by the first loop. */
  method IndexEdges(edges: seq<Edge>) returns (conditional: map<NodeId, seq<Edge>>, all: map<NodeId, seq<Edge>>)
    ensures Indexed(edges, conditional, all)
  {
    conditional, all := map[], map[];
    for i := 0 to |edges|
      invariant Indexed(edges[..i], conditional, all)
    {
      var e := edges[i];
      ghost var conditional0, all0 := conditional, all;
      all := Append(all, e);
      if e.condition != "" {
        conditional := Append(conditional, e);
      }
      Seqs.Snoc(edges, i);
      ghost var seen := edges[..i + 1];
      forall u ensures IndexedAt(seen, conditional, all, u) {
        IndexStep(edges[..i], e, conditional0, all0, u);
      }
    }
    Seqs.Whole(edges);
  }

  ghost predicate Fresh(n: Node) {
    !n.waitForAll && n.dependencies == [] && (n.branch.None? ==> n.dependents == [])
  }

  ghost predicate Converted(schema: Schema, ns: seq<WorkflowNode>, nodes: IR) {
    && nodes.Keys == Ids(ns)
    && forall id :: id in nodes ==>
         Shape(LastNode(ns, id), EdgesFrom(schema.edges, id), nodes[id]) && Fresh(nodes[id])
  }

  lemma LastNodeSnoc(ns: seq<WorkflowNode>, w: WorkflowNode, id: NodeId)
    ensures Ids(ns + [w]) == Ids(ns) + {w.id}
    ensures id in Ids(ns) || id == w.id ==> LastNode(ns + [w], id) == if id == w.id then w else LastNode(ns, id)
  {
    assert (ns + [w])[..|ns|] == ns;
    assert forall v :: v in ns + [w] <==> v in ns || v == w;
  }

  lemma ConvertStep(schema: Schema, ns: seq<WorkflowNode>, nodes: IR, w: WorkflowNode, n: Node)
    requires Converted(schema, ns, nodes)
    requires Shape(w, EdgesFrom(schema.edges, w.id), n) && Fresh(n)
    ensures Converted(schema, ns + [w], nodes[w.id := n])
  {
    var out := nodes[w.id := n];
    LastNodeSnoc(ns, w, w.id);
    assert out.Keys == Ids(ns + [w]);
    forall id | id in out
      ensures Shape(LastNode(ns + [w], id), EdgesFrom(schema.edges, id), out[id]) && Fresh(out[id])
    {
      LastNodeSnoc(ns, w, id);
      if id != w.id {
        assert Shape(LastNode(ns, id), EdgesFrom(schema.edges, id), nodes[id]);
      }
    }
  }

  method ConvertNodes(schema: Schema) returns (r: Result<IR, CompileError>)
    ensures r.Ok? <==> forall w :: w in schema.nodes ==> Convertible(w)
    ensures r.Err? ==> r.error.BadNode? && exists w :: w in schema.nodes && w.id == r.error.id && !Convertible(w)
    ensures r.Ok? ==> Converted(schema, schema.nodes, r.value)
  {
    var conditional, all := IndexEdges(schema.edges);
    var nodes: IR := map[];
    for i := 0 to |schema.nodes|
      invariant forall w :: w in schema.nodes[..i] ==> Convertible(w)
      invariant Converted(schema, schema.nodes[..i], nodes)
    {
      var w := schema.nodes[i];
      assert IndexedAt(schema.edges, conditional, all, w.id);
      var c := ConvertWorkflowNode(w, conditional, all, EdgesFrom(schema.edges, w.id));
      if c.Err? { return Err(c.error); }
      ConvertStep(schema, schema.nodes[..i], nodes, w, c.value);
      Seqs.Snoc(schema.nodes, i);
      nodes := nodes[w.id := c.value];
    }
    Seqs.Whole(schema.nodes);
    return Ok(nodes);
  }

  ghost predicate AllLinked(schema: Schema, linked: seq<Edge>, nodes: IR) {
    && nodes.Keys == Ids(schema.nodes)
    && forall id :: id in nodes ==> Linked(schema, linked, id, nodes[id]) && !nodes[id].waitForAll
  }

  function AddForward(n: Node, e: Edge): Node {
    if n.branch.None? then n.(dependents := n.dependents + [e.to]) else n
  }

  function AddBackward(n: Node, e: Edge): Node {
    n.(dependencies := n.dependencies + [e.from])
  }

  /** What one edge does to the node `id`. */
  function LinkNode(n: Node, id: NodeId, e: Edge): Node {
    var m := if e.from == id then AddForward(n, e) else n;
    if e.to == id then AddBackward(m, e) else m
  }

  function LinkBoth(nodes: IR, e: Edge): IR
    requires e.from in nodes && e.to in nodes
  {
    var mid := nodes[e.from := AddForward(nodes[e.from], e)];
    mid[e.to := AddBackward(mid[e.to], e)]
  }

  lemma LinkBothPerNode(nodes: IR, e: Edge)
    requires e.from in nodes && e.to in nodes
    ensures LinkBoth(nodes, e) == map id | id in nodes :: LinkNode(nodes[id], id, e)
  {
  }

  lemma AdjacencySnoc(linked: seq<Edge>, e: Edge, id: NodeId)
    ensures SourcesTo(linked + [e], id) == if e.to == id then SourcesTo(linked, id) + [e.from] else SourcesTo(linked, id)
    ensures var es := EdgesFrom(linked, id);
            Tos(EdgesFrom(linked + [e], id)) == if e.from == id then Tos(es) + [e.to] else Tos(es)
  {
    EdgesFromSnoc(linked, e, id);
    assert (linked + [e])[..|linked|] == linked;
    var es := EdgesFrom(linked, id);
    assert (es + [e])[..|es|] == es;
  }

  lemma LinkStep(schema: Schema, linked: seq<Edge>, e: Edge, id: NodeId, n: Node)
    requires Linked(schema, linked, id, n)
    ensures Linked(schema, linked + [e], id, LinkNode(n, id, e))
  {
    AdjacencySnoc(linked, e, id);
  }

  lemma LinkAll(schema: Schema, linked: seq<Edge>, e: Edge, nodes: IR)
    requires AllLinked(schema, linked, nodes) && e.from in nodes && e.to in nodes
    ensures AllLinked(schema, linked + [e], LinkBoth(nodes, e))
  {
    LinkBothPerNode(nodes, e);
    forall id | id in nodes
      ensures Linked(schema, linked + [e], id, LinkNode(nodes[id], id, e)) && !LinkNode(nodes[id], id, e).waitForAll
    {
      LinkStep(schema, linked, e, id, nodes[id]);
    }
  }

  /** Adds every edge to the adjacency lists of its two ends; a self-edge updates one node twice. */
  method LinkEdges(schema: Schema, start: IR) returns (r: Result<IR, CompileError>)
    requires Converted(schema, schema.nodes, start)
    ensures r.Ok? <==> EdgesClosed(schema.edges, start.Keys)
    ensures r.Err? ==> r.error.DanglingEdge? && r.error.edge in schema.edges
    ensures r.Err? ==> r.error.edge.from !in start || r.error.edge.to !in start
    ensures r.Ok? ==> AllLinked(schema, schema.edges, r.value)
  {
    var nodes := start;
    var edges := schema.edges;
    for i := 0 to |edges|
      invariant EdgesClosed(edges[..i], start.Keys)
      invariant AllLinked(schema, edges[..i], nodes)
    {
      var e := edges[i];
      if e.from !in nodes || e.to !in nodes { return Err(DanglingEdge(e)); }
      Seqs.Snoc(edges, i);
      LinkAll(schema, edges[..i], e, nodes);
      nodes := nodes[e.from := AddForward(nodes[e.from], e)];
      nodes := nodes[e.to := AddBackward(nodes[e.to], e)];
    }
    Seqs.Whole(edges);
    return Ok(nodes);
  }

  function Flagged(n: Node): Node {
    n.(waitForAll := n.waitForAll || |n.dependencies| > 1, isTerminal := NoSuccessors(n))
  }

  /** Sets the join and terminal flags of every node, in map order. */
  method SetFlags(start: IR, order: seq<NodeId>) returns (nodes: IR)
    requires IsOrder(order, start.Keys)
    ensures nodes.Keys == start.Keys
    ensures forall id :: id in nodes ==>
              nodes[id] == start[id].(waitForAll := start[id].waitForAll || |start[id].dependencies| > 1,
                                      isTerminal := NoSuccessors(start[id]))
  {
    nodes := start;
    for i := 0 to |order|
      invariant nodes.Keys == start.Keys
      invariant forall id :: id in nodes ==> nodes[id] == if id in order[..i] then Flagged(start[id]) else start[id]
    {
      var id := order[i];
      Seqs.Snoc(order, i);
      assert id !in order[..i];
      var node := nodes[id];
      if |node.dependencies| > 1 {
        node := node.(waitForAll := true);
      }
      node := node.(isTerminal := NoSuccessors(node));
      assert node == Flagged(start[id]);
      nodes := nodes[id := node];
    }
    Seqs.Whole(order);
  }

  method CountTerminals(ir: IR, order: seq<NodeId>) returns (count: nat)
    requires IsOrder(order, ir.Keys)
    ensures count == 0 <==> forall n :: n in ir ==> !ir[n].isTerminal
  {
    count := 0;
    for i := 0 to |order|
      invariant count == 0 <==> forall k :: 0 <= k < i ==> !ir[order[k]].isTerminal
    {
      if ir[order[i]].isTerminal { count := count + 1; }
    }
  }

  method CountEntries(ir: IR, order: seq<NodeId>) returns (count: nat)
    requires IsOrder(order, ir.Keys)
    ensures count == 0 <==> forall n :: n in ir ==> |ir[n].dependencies| > 0
  {
    count := 0;
    for i := 0 to |order|
      invariant count == 0 <==> forall k :: 0 <= k < i ==> |ir[order[k]].dependencies| > 0
    {
      if |ir[order[i]].dependencies| == 0 { count := count + 1; }
    }
  }

  method CheckLoops(ir: IR, order: seq<NodeId>) returns (ok: bool)
    requires IsOrder(order, ir.Keys)
    ensures ok <==> LoopsValid(ir)
  {
    for i := 0 to |order|
      invariant forall k :: 0 <= k < i && ir[order[k]].LoopEnabled() ==>
        var l := ir[order[k]].loop.value; l.maxIterations > 0 && l.loopBackTo != "" && l.loopBackTo in ir
    {
      var n := ir[order[i]];
      if n.LoopEnabled() {
        if n.loop.value.maxIterations <= 0 || n.loop.value.loopBackTo == "" || n.loop.value.loopBackTo !in ir {
          return false;
        }
      }
    }
    return true;
  }

  predicate AllPresent(ir: IR, ns: seq<NodeId>) {
    forall n :: n in ns ==> n in ir
  }

  method CheckBranches(ir: IR, order: seq<NodeId>) returns (ok: bool)
    requires IsOrder(order, ir.Keys)
    ensures ok <==> BranchesValid(ir)
  {
    for i := 0 to |order|
      invariant forall k :: 0 <= k < i && ir[order[k]].BranchEnabled() ==> BranchValid(ir, ir[order[k]].branch.value)
    {
      if ir[order[i]].BranchEnabled() {
        var b := ir[order[i]].branch.value;
        if |b.rules| == 0 && |b.fallback| == 0 { return false; }
        for j := 0 to |b.rules|
          invariant forall k :: 0 <= k < j ==> AllPresent(ir, b.rules[k].nextNodes)
        {
          if !AllPresent(ir, b.rules[j].nextNodes) { return false; }
        }
        if !AllPresent(ir, b.fallback) { return false; }
      }
    }
    return true;
  }

  method Validate(ir: IR, order: seq<NodeId>) returns (problem: Option<Problem>)
    requires Closed(ir) && IsOrder(order, ir.Keys)
    ensures problem == FirstProblem(ir, order)
  {
    var terminals := CountTerminals(ir, order);
    if terminals == 0 { return Some(NoTerminal); }
    var entries := CountEntries(ir, order);
    if entries == 0 { return Some(NoEntry); }
    var loopsOk := CheckLoops(ir, order);
    if !loopsOk { return Some(BadLoop); }
    var branchesOk := CheckBranches(ir, order);
    if !branchesOk { return Some(BadBranch); }
    var search := new CycleCheck.Search(ir);
    var cyclic := search.FindCycle(order);
    if cyclic { return Some(BadCycle); }
    return None;
  }

  lemma FlagsComplete(schema: Schema, linked: IR, ir: IR)
    requires AllLinked(schema, schema.edges, linked) && EdgesClosed(schema.edges, linked.Keys)
    requires ir.Keys == linked.Keys
    requires forall id :: id in ir ==>
               ir[id] == linked[id].(waitForAll := |linked[id].dependencies| > 1, isTerminal := NoSuccessors(linked[id]))
    ensures Compiled(schema, ir)
  {
    forall id | id in ir ensures Linked(schema, schema.edges, id, ir[id]) {
      assert Linked(schema, schema.edges, id, linked[id]);
    }
  }

  lemma AcceptedWhenNoProblem(ir: IR, order: seq<NodeId>)
    requires Closed(ir) && IsOrder(order, ir.Keys) && FirstProblem(ir, order).None?
    ensures Accepted(ir)
  {
  }

  /** What can stop a compilation: an inconvertible node, an edge without a node at an end, or a check
      that fails in some map order. */
  ghost predicate CanFail(schema: Schema) {
    || (exists w :: w in schema.nodes && !Convertible(w))
    || !EdgesClosed(schema.edges, Ids(schema.nodes))
    || exists ir, order :: Compiled(schema, ir) && Closed(ir) && IsOrder(order, ir.Keys) && FirstProblem(ir, order).Some?
  }

  /** Compilation succeeds with an IR that means the schema and passed every check; each kind of
      failure names a condition of the schema that caused it. */
  method CompileWorkflowSchema(schema: Schema) returns (r: Result<IR, CompileError>)
    ensures r.Ok? ==> Compiled(schema, r.value) && Accepted(r.value)
    ensures r.Err? ==> CanFail(schema)
    ensures r.Err? && r.error.BadNode? <==> exists w :: w in schema.nodes && !Convertible(w)
    ensures r.Err? && r.error.DanglingEdge? <==> (forall w :: w in schema.nodes ==> Convertible(w)) && !EdgesClosed(schema.edges, Ids(schema.nodes))
    ensures r.Err? && r.error.BadNode? ==> exists w :: w in schema.nodes && w.id == r.error.id && !Convertible(w)
    ensures r.Err? && r.error.DanglingEdge? ==>
              r.error.edge in schema.edges && (r.error.edge.from !in Ids(schema.nodes) || r.error.edge.to !in Ids(schema.nodes))
    ensures r.Err? && r.error.Invalid? ==>
              exists ir, order :: Compiled(schema, ir) && Closed(ir) && IsOrder(order, ir.Keys) && FirstProblem(ir, order) == Some(r.error.problem)
  {
    var converted := ConvertNodes(schema);
    if converted.Err? { return Err(converted.error); }
    var linked := LinkEdges(schema, converted.value);
    if linked.Err? { return Err(linked.error); }
    var flagOrder := AnyOrder(linked.value.Keys);
    var ir := SetFlags(linked.value, flagOrder);
    FlagsComplete(schema, linked.value, ir);
    CompiledIsClosed(schema, ir);
    var order := AnyOrder(ir.Keys);
    var problem := Validate(ir, order);
    if problem.Some? { return Err(Invalid(problem.value)); }
    AcceptedWhenNoProblem(ir, order);
    return Ok(ir);
  }

  // ---- The adjacency lists are transposes of each other

  lemma {:induction false} ToCount(edges: seq<Edge>, u: NodeId, v: NodeId)
    ensures multiset(Tos(EdgesFrom(edges, u)))[v] == EdgeCount(edges, u, v)
  {
    if edges != [] {
      var last := edges[|edges| - 1];
      var es := EdgesFrom(edges[..|edges| - 1], u);
      ToCount(edges[..|edges| - 1], u, v);
      assert (es + [last])[..|es|] == es;
      assert Tos(es + [last]) == Tos(es) + [last.to];
    }
  }

  lemma {:induction false} SourceCount(edges: seq<Edge>, u: NodeId, v: NodeId)
    ensures multiset(SourcesTo(edges, v))[u] == EdgeCount(edges, u, v)
  {
    if edges != [] {
      SourceCount(edges[..|edges| - 1], u, v);
    }
  }

  /** Edges to `v` whose condition lies in `cs`. */
  ghost function CondCount(es: seq<Edge>, cs: set<string>, v: NodeId): nat {
    if es == [] then 0
    else
      var last := es[|es| - 1];
      CondCount(es[..|es| - 1], cs, v) + (if last.condition in cs && last.to == v then 1 else 0)
  }

  lemma {:induction false} CondCountAdds(es: seq<Edge>, cs: set<string>, ds: set<string>, v: NodeId)
    requires cs !! ds
    ensures CondCount(es, cs + ds, v) == CondCount(es, cs, v) + CondCount(es, ds, v)
  {
    if es != [] {
      CondCountAdds(es[..|es| - 1], cs, ds, v);
    }
  }

  lemma {:induction false} CondCountAll(es: seq<Edge>, cs: set<string>, v: NodeId)
    requires forall e :: e in es ==> e.condition in cs
    ensures CondCount(es, cs, v) == multiset(Tos(es))[v]
  {
    if es != [] {
      assert es == es[..|es| - 1] + [es[|es| - 1]];
      CondCountAll(es[..|es| - 1], cs, v);
    }
  }

  lemma {:induction false} GroupCount(es: seq<Edge>, c: string, v: NodeId)
    ensures multiset(Group(es, c))[v] == CondCount(es, {c}, v)
  {
    if es != [] {
      GroupCount(es[..|es| - 1], c, v);
    }
  }

  ghost function RuleConditions(rules: seq<BranchRule>): set<string> {
    set r | r in rules && r.condition.Some? :: r.condition.value.expression
  }

  lemma {:induction false} RuleTargetsCount(es: seq<Edge>, rules: seq<BranchRule>, v: NodeId)
    requires forall r :: r in rules ==> RuleFor(es, r)
    requires forall i, j :: 0 <= i < j < |rules| ==> rules[i].condition != rules[j].condition
    ensures multiset(RuleTargets(rules))[v] == CondCount(es, RuleConditions(rules), v)
  {
    if rules == [] {
      NoConditions(es, v);
      assert RuleConditions(rules) == {};
    } else {
      var init, last := rules[..|rules| - 1], rules[|rules| - 1];
      assert last in rules && rules == init + [last];
      assert RuleFor(es, last);
      var c := last.condition.value.expression;
      RuleTargetsCount(es, init, v);
      GroupCount(es, c, v);
      assert RuleConditions(rules) == RuleConditions(init) + {c};
      CondCountAdds(es, RuleConditions(init), {c}, v);
    }
  }

  lemma {:induction false} NoConditions(es: seq<Edge>, v: NodeId)
    ensures CondCount(es, {}, v) == 0
  {
    if es != [] {
      NoConditions(es[..|es| - 1], v);
    }
  }

  /** Grouping the edges of a branch node into rules and a default loses and adds no edge. */
  lemma BranchCount(es: seq<Edge>, b: BranchConfig, v: NodeId)
    requires BranchOf(es, b)
    ensures multiset(RuleTargets(b.rules) + b.fallback)[v] == multiset(Tos(es))[v]
  {
    var cs := RuleConditions(b.rules);
    RuleTargetsCount(es, b.rules, v);
    GroupCount(es, "", v);
    CondCountAdds(es, cs, {""}, v);
    forall e | e in es ensures e.condition in cs + {""} {
      if e.condition != "" {
        assert e.condition in Conditions(es);
        var i :| 0 <= i < |b.rules| && b.rules[i].condition == Some(Condition("cel", e.condition));
        assert b.rules[i] in b.rules;
      }
    }
    CondCountAll(es, cs + {""}, v);
  }

  /** The parts of a compiled node that routing reads. */
  ghost predicate Routable(es: seq<Edge>, n: Node) {
    && n.isTerminal == NoSuccessors(n)
    && (n.loop.Some? ==> n.loop.value.enabled && n.loop.value.loopBackTo != "" && n.branch.None?)
    && (n.branch.Some? ==> BranchOf(es, n.branch.value) && n.dependents == RuleTargets(n.branch.value.rules) + n.branch.value.fallback)
  }

  lemma ShapeRoutable(w: WorkflowNode, es: seq<Edge>, n: Node)
    requires Shape(w, es, n) && n.isTerminal == NoSuccessors(n)
    ensures Routable(es, n)
  {
  }

  lemma CompiledRoutable(schema: Schema, ir: IR, id: NodeId)
    requires Compiled(schema, ir) && id in ir
    ensures Routable(EdgesFrom(schema.edges, id), ir[id])
  {
    assert Linked(schema, schema.edges, id, ir[id]);
    ShapeRoutable(LastNode(schema.nodes, id), EdgesFrom(schema.edges, id), ir[id]);
  }

  lemma {:induction false} CountedEdgeExists(edges: seq<Edge>, u: NodeId, v: NodeId) returns (e: Edge)
    requires EdgeCount(edges, u, v) > 0
    ensures e in edges && e.from == u && e.to == v
  {
    var last := edges[|edges| - 1];
    if last.from == u && last.to == v {
      e := last;
    } else {
      e := CountedEdgeExists(edges[..|edges| - 1], u, v);
    }
  }

  /** Backward adjacency is the list of edge sources, in edge order. */
  ghost predicate Backward(edges: seq<Edge>, ir: IR) {
    && EdgesClosed(edges, ir.Keys)
    && forall v :: v in ir ==> ir[v].dependencies == SourcesTo(edges, v)
  }

  /** Forward adjacency holds every edge target as often as there are such edges. */
  ghost predicate Forward(edges: seq<Edge>, ir: IR) {
    forall u, v :: u in ir ==> multiset(ir[u].dependents)[v] == EdgeCount(edges, u, v)
  }

  lemma CompiledBackward(schema: Schema, ir: IR)
    requires Compiled(schema, ir)
    ensures Backward(schema.edges, ir)
  {
  }

  lemma ForwardCount(edges: seq<Edge>, u: NodeId, v: NodeId, n: Node)
    requires Routable(EdgesFrom(edges, u), n)
    requires n.branch.None? ==> n.dependents == Tos(EdgesFrom(edges, u))
    ensures multiset(n.dependents)[v] == EdgeCount(edges, u, v)
  {
    ToCount(edges, u, v);
    if n.branch.Some? {
      BranchCount(EdgesFrom(edges, u), n.branch.value, v);
    }
  }

  lemma CompiledForward(schema: Schema, ir: IR)
    requires Compiled(schema, ir)
    ensures Forward(schema.edges, ir)
  {
    forall u, v | u in ir ensures multiset(ir[u].dependents)[v] == EdgeCount(schema.edges, u, v) {
      CompiledRoutable(schema, ir, u);
      ForwardCount(schema.edges, u, v, ir[u]);
    }
  }

  /** For every pair of nodes, the forward multiplicity, the backward multiplicity and the number
      of schema edges agree, branch nodes included. */
  lemma EdgeTranspose(schema: Schema, ir: IR, u: NodeId, v: NodeId)
    requires Compiled(schema, ir) && u in ir && v in ir
    ensures multiset(ir[u].dependents)[v] == EdgeCount(schema.edges, u, v)
    ensures multiset(ir[v].dependencies)[u] == EdgeCount(schema.edges, u, v)
  {
    CompiledForward(schema, ir);
    CompiledBackward(schema, ir);
    SourceCount(schema.edges, u, v);
  }

  lemma ForwardIsClosed(edges: seq<Edge>, ir: IR)
    requires Forward(edges, ir) && EdgesClosed(edges, ir.Keys)
    ensures Closed(ir)
  {
    forall u, v | u in ir && v in ir[u].dependents ensures v in ir {
      assert v in multiset(ir[u].dependents);
      var e := CountedEdgeExists(edges, u, v);
    }
  }

  lemma CompiledIsClosed(schema: Schema, ir: IR)
    requires Compiled(schema, ir)
    ensures Closed(ir)
  {
    CompiledForward(schema, ir);
    ForwardIsClosed(schema.edges, ir);
  }

  /** Backward lists only hold real edges. */
  ghost predicate Wired(ir: IR) {
    forall n, u :: n in ir && u in ir[n].dependencies ==> u in ir && n in ir[u].dependents
  }

  lemma TransposeIsWired(edges: seq<Edge>, ir: IR)
    requires Forward(edges, ir) && Backward(edges, ir)
    ensures Wired(ir)
  {
    forall n, u | n in ir && u in ir[n].dependencies ensures u in ir && n in ir[u].dependents {
      SourceCount(edges, u, n);
      assert u in multiset(ir[n].dependencies);
      var e := CountedEdgeExists(edges, u, n);
      assert n in multiset(ir[u].dependents);
    }
  }

  lemma CompiledIsWired(schema: Schema, ir: IR)
    requires Compiled(schema, ir)
    ensures Wired(ir)
  {
    CompiledForward(schema, ir);
    CompiledBackward(schema, ir);
    TransposeIsWired(schema.edges, ir);
  }
}
