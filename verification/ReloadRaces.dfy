/** Concurrent reloads of a patched run (cmd/workflow-runner/coordinator/patch_loader.go): a reload
    that fetched earlier can store later and take nodes away from the running workflow. */
module ReloadRaces {
  import opened Wrappers
  import opened Json
  import opened WorkflowIR
  import opened Compiler
  import opened RunPatches
  import opened Schemas
  import WP = WorkflowPatch
  import Seqs

  // ---- Decoding JSON objects into nodes and edges

  /** A missing or null string field is empty; any other non-string is an error. */
  function StringField(fields: map<string, Json>, key: string): Option<string> {
    if key !in fields || fields[key].Null? then Some("")
    else if fields[key].Str? then Some(fields[key].s)
    else None
  }

  function DecodeNode(j: Json): Option<WorkflowNode> {
    if !j.Obj? then None
    else
      var id, kind := StringField(j.fields, "id"), StringField(j.fields, "type");
      if id.None? || kind.None? then None
      else if "config" !in j.fields || j.fields["config"].Null? then Some(WorkflowNode(id.value, kind.value, map[]))
      else if j.fields["config"].Obj? then Some(WorkflowNode(id.value, kind.value, j.fields["config"].fields))
      else None
  }

  function DecodeEdge(j: Json): Option<Edge> {
    if !j.Obj? then None
    else
      var from, to, condition := StringField(j.fields, "from"), StringField(j.fields, "to"), StringField(j.fields, "condition");
      if from.None? || to.None? || condition.None? then None else Some(Edge(from.value, to.value, condition.value))
  }

  const OBJECTS := Decoder(DecodeNode, DecodeEdge, _ => true)

  function NodeJson(id: NodeId): Json {
    Obj(map["id" := Str(id), "type" := Str("http")])
  }

  function EdgeJson(from: NodeId, to: NodeId): Json {
    Obj(map["from" := Str(from), "to" := Str(to)])
  }

  lemma JsonDecodes(id: NodeId, from: NodeId, to: NodeId)
    ensures DecodeNode(NodeJson(id)) == Some(WorkflowNode(id, "http", map[]))
    ensures DecodeEdge(EdgeJson(from, to)) == Some(Edge(from, to, ""))
  {
  }

  // ---- Stars: one root that leads to every leaf

  function Leaves(ids: seq<NodeId>): seq<WorkflowNode> {
    if ids == [] then [] else Leaves(ids[..|ids| - 1]) + [WorkflowNode(ids[|ids| - 1], "http", map[])]
  }

  function Spokes(root: NodeId, ids: seq<NodeId>): seq<Edge> {
    if ids == [] then [] else Spokes(root, ids[..|ids| - 1]) + [Edge(root, ids[|ids| - 1], "")]
  }

  function Star(root: NodeId, ids: seq<NodeId>): Schema {
    Schema([WorkflowNode(root, "http", map[])] + Leaves(ids), Spokes(root, ids))
  }

  function RootNode(root: NodeId, ids: seq<NodeId>): Node {
    Node(root, "http", [], ids, false, ids == [], None, None)
  }

  function LeafNode(root: NodeId, id: NodeId): Node {
    Node(id, "http", [root], [], false, true, None, None)
  }

  function StarIR(root: NodeId, ids: seq<NodeId>): IR {
    (map id | id in ids :: LeafNode(root, id))[root := RootNode(root, ids)]
  }

  ghost predicate Distinct(root: NodeId, ids: seq<NodeId>) {
    root !in ids && forall i, j :: 0 <= i < j < |ids| ==> ids[i] != ids[j]
  }

  lemma {:induction false} SpokesFrom(root: NodeId, ids: seq<NodeId>, v: NodeId)
    requires Distinct(root, ids)
    ensures SourcesTo(Spokes(root, ids), v) == (if v in ids then [root] else [])
    ensures Tos(EdgesFrom(Spokes(root, ids), v)) == (if v == root then ids else [])
  {
    if ids != [] {
      var init, last := ids[..|ids| - 1], ids[|ids| - 1];
      assert ids == init + [last];
      assert forall x :: x in ids <==> x in init || x == last;
      assert last !in init;
      SpokesFrom(root, init, v);
      AdjacencySnoc(Spokes(root, init), Edge(root, last, ""), v);
    }
  }

  lemma {:induction false} LeafIds(ids: seq<NodeId>)
    ensures Ids(Leaves(ids)) == set id | id in ids
    ensures forall w :: w in Leaves(ids) ==> w.kind == "http"
  {
    if ids != [] {
      var init, last := ids[..|ids| - 1], ids[|ids| - 1];
      assert ids == init + [last];
      LeafIds(init);
      LastNodeSnoc(Leaves(init), WorkflowNode(last, "http", map[]), last);
      assert forall w :: w in Leaves(ids) <==> w in Leaves(init) || w == WorkflowNode(last, "http", map[]);
    }
  }

  lemma StarIds(root: NodeId, ids: seq<NodeId>)
    ensures Ids(Star(root, ids).nodes) == StarIR(root, ids).Keys
    ensures forall w :: w in Star(root, ids).nodes ==> w.kind == "http"
  {
    LeafIds(ids);
    var r := WorkflowNode(root, "http", map[]);
    assert forall w :: w in Star(root, ids).nodes <==> w == r || w in Leaves(ids);
  }

  lemma {:induction false} SpokesClosed(root: NodeId, ids: seq<NodeId>)
    ensures forall e :: e in Spokes(root, ids) ==> e.from == root && e.to in ids
  {
    if ids != [] {
      SpokesClosed(root, ids[..|ids| - 1]);
    }
  }

  lemma StarIsLinked(root: NodeId, ids: seq<NodeId>, id: NodeId)
    requires Distinct(root, ids) && id in StarIR(root, ids)
    ensures Linked(Star(root, ids), Spokes(root, ids), id, StarIR(root, ids)[id])
  {
    StarIds(root, ids);
    SpokesFrom(root, ids, id);
    PlainIsLinked(Star(root, ids), id, StarIR(root, ids)[id]);
  }

  lemma StarCompiles(root: NodeId, ids: seq<NodeId>)
    requires Distinct(root, ids)
    ensures Compiled(Star(root, ids), StarIR(root, ids))
  {
    var schema, ir := Star(root, ids), StarIR(root, ids);
    assert ir.Keys == Ids(schema.nodes) by {
      StarIds(root, ids);
    }
    assert EdgesClosed(schema.edges, ir.Keys) by {
      SpokesClosed(root, ids);
    }
    forall id | id in ir ensures Linked(schema, schema.edges, id, ir[id]) {
      StarIsLinked(root, ids, id);
    }
  }

  lemma StarAccepted(root: NodeId, ids: seq<NodeId>)
    requires Distinct(root, ids)
    ensures Accepted(StarIR(root, ids))
  {
    var ir := StarIR(root, ids);
    assert Closed(ir);
    RankedAccepted(ir, n => if n == root then 1 else 0);
    var end := if ids == [] then root else ids[0];
    assert end in ir && ir[end].isTerminal;
    assert root in ir && |ir[root].dependencies| == 0;
  }

  // ---- Patches that add one leaf each

  function AddLeaf(root: NodeId, id: NodeId): RunPatch {
    [map["op" := Str("add"), "path" := Str("/nodes/-"), "value" := NodeJson(id)],
     map["op" := Str("add"), "path" := Str("/edges/-"), "value" := EdgeJson(root, id)]]
  }

  function AddLeaves(root: NodeId, ids: seq<NodeId>): seq<RunPatch> {
    if ids == [] then [] else AddLeaves(root, ids[..|ids| - 1]) + [AddLeaf(root, ids[|ids| - 1])]
  }

  function Base(root: NodeId): Doc {
    map["nodes" := Arr([NodeJson(root)])]
  }

  /** Both collections are arrays or absent, and decode to the star. */
  ghost predicate StarDoc(d: Doc, root: NodeId, ids: seq<NodeId>) {
    && ("nodes" in d ==> d["nodes"].Arr?) && ("edges" in d ==> d["edges"].Arr?)
    && DecodeList(DecodeNode, WP.Items(d, "nodes")) == Some(Star(root, ids).nodes)
    && DecodeList(DecodeEdge, WP.Items(d, "edges")) == Some(Spokes(root, ids))
  }

  lemma DecodeSnoc<T>(f: Json -> Option<T>, items: seq<Json>, j: Json)
    requires DecodeList(f, items).Some? && f(j).Some?
    ensures DecodeList(f, items + [j]) == Some(DecodeList(f, items).value + [f(j).value])
  {
    assert (items + [j])[..|items|] == items;
  }

  lemma TwoSteps(d: Doc, ops: seq<RawOp>)
    requires |ops| == 2
    ensures AppendAll(d, ops) == var r := AppendStep(d, ops[0]); if r.None? then None else AppendStep(r.value, ops[1])
  {
    assert ops[..1][..0] == [] && ops[..1][0] == ops[0];
    assert AppendAll(d, ops[..1]) == AppendStep(d, ops[0]);
  }

  lemma LeafApplies(d: Doc, root: NodeId, id: NodeId)
    ensures AppendAll(d, AddLeaf(root, id)) == Some(AppendTo(AppendTo(d, "nodes", NodeJson(id)), "edges", EdgeJson(root, id)))
  {
    TwoSteps(d, AddLeaf(root, id));
  }

  lemma LeafKeepsStar(d: Doc, root: NodeId, ids: seq<NodeId>, id: NodeId)
    requires StarDoc(d, root, ids)
    ensures StarDoc(AppendTo(AppendTo(d, "nodes", NodeJson(id)), "edges", EdgeJson(root, id)), root, ids + [id])
  {
    JsonDecodes(id, root, id);
    DecodeSnoc(DecodeNode, WP.Items(d, "nodes"), NodeJson(id));
    DecodeSnoc(DecodeEdge, WP.Items(d, "edges"), EdgeJson(root, id));
    var all := ids + [id];
    assert all[..|ids|] == ids && all[|ids|] == id;
    Seqs.Assoc([WorkflowNode(root, "http", map[])], Leaves(ids), [WorkflowNode(id, "http", map[])]);
  }

  lemma BaseIsStar(root: NodeId)
    ensures StarDoc(Base(root), root, [])
  {
    JsonDecodes(root, root, root);
    assert DecodeList(DecodeNode, []) == Some([]);
    DecodeSnoc(DecodeNode, [], NodeJson(root));
    assert [] + [NodeJson(root)] == [NodeJson(root)];
    assert [] + [WorkflowNode(root, "http", map[])] == [WorkflowNode(root, "http", map[])] + [];
  }

  lemma OneMore(base: Doc, ps: seq<RunPatch>, patch: RunPatch, d: Doc)
    requires AppendAll(base, Flatten(ps)) == Some(d)
    ensures AppendAll(base, Flatten(ps + [patch])) == AppendAll(d, patch)
  {
    FlattenSplits(ps, [patch]);
    assert Flatten([patch][..0]) == [];
    assert Flatten([patch]) == patch;
    AppendAllSplits(base, Flatten(ps), patch);
  }

  lemma {:induction false} PatchedDoc(root: NodeId, ids: seq<NodeId>) returns (d: Doc)
    ensures AppendAll(Base(root), Flatten(AddLeaves(root, ids))) == Some(d) && StarDoc(d, root, ids)
  {
    if ids == [] {
      BaseIsStar(root);
      d := Base(root);
    } else {
      var init, last := ids[..|ids| - 1], ids[|ids| - 1];
      Seqs.Shift(ids, []);
      var before := PatchedDoc(root, init);
      d := LeafStep(root, init, last, before);
    }
  }

  lemma LeafStep(root: NodeId, ids: seq<NodeId>, id: NodeId, before: Doc) returns (d: Doc)
    requires AppendAll(Base(root), Flatten(AddLeaves(root, ids))) == Some(before) && StarDoc(before, root, ids)
    ensures AppendAll(Base(root), Flatten(AddLeaves(root, ids) + [AddLeaf(root, id)])) == Some(d) && StarDoc(d, root, ids + [id])
  {
    OneMore(Base(root), AddLeaves(root, ids), AddLeaf(root, id), before);
    LeafApplies(before, root, id);
    LeafKeepsStar(before, root, ids, id);
    d := AppendTo(AppendTo(before, "nodes", NodeJson(id)), "edges", EdgeJson(root, id));
  }

  lemma StarDocDecodes(d: Doc, root: NodeId, ids: seq<NodeId>)
    requires StarDoc(d, root, ids)
    ensures Decode(OBJECTS, d) == Some(Star(root, ids))
  {
  }

  lemma StarReloads(root: NodeId, ids: seq<NodeId>)
    requires Distinct(root, ids)
    ensures Reloads(OBJECTS, Base(root), AddLeaves(root, ids), StarIR(root, ids))
  {
    var d := PatchedDoc(root, ids);
    StarDocDecodes(d, root, ids);
    StarCompiles(root, ids);
  }

  // ---- The race

  lemma Extend(root: NodeId, states: seq<Run>, events: seq<Event>, e: Event, r: Run)
    requires IsRun(OBJECTS, Base(root), states, events)
    requires Enabled(OBJECTS, Base(root), states[|events|], e) && r == Next(OBJECTS, Base(root), states[|events|], e)
    ensures IsRun(OBJECTS, Base(root), states + [r], events + [e])
  {
    var ss, es := states + [r], events + [e];
    forall i | 0 <= i < |es| ensures Enabled(OBJECTS, Base(root), ss[i], es[i]) && ss[i + 1] == Next(OBJECTS, Base(root), ss[i], es[i]) {
      if i < |events| {
        assert ss[i] == states[i] && ss[i + 1] == states[i + 1] && es[i] == events[i];
      }
    }
  }

  /** The first handler fetches one patch, then the second patch arrives and the second handler
      fetches both. */
  lemma BothFetched(root: NodeId, b: NodeId, c: NodeId) returns (states: seq<Run>, events: seq<Event>)
    ensures IsRun(OBJECTS, Base(root), states, events) && states[0] == Run([], 0, StarIR(root, []), [])
    ensures states[|events|] == Run([AddLeaf(root, b), AddLeaf(root, c)], 0, StarIR(root, []), [1, 2])
  {
    var ir, p1, p2 := StarIR(root, []), AddLeaf(root, b), AddLeaf(root, c);
    states, events := [Run([], 0, ir, [])], [];
    Extend(root, states, events, Arrive(p1), Run([p1], 0, ir, []));
    states, events := states + [Run([p1], 0, ir, [])], events + [Arrive(p1)];
    Extend(root, states, events, Fetch, Run([p1], 0, ir, [1]));
    states, events := states + [Run([p1], 0, ir, [1])], events + [Fetch];
    Extend(root, states, events, Arrive(p2), Run([p1, p2], 0, ir, [1]));
    states, events := states + [Run([p1, p2], 0, ir, [1])], events + [Arrive(p2)];
    Extend(root, states, events, Fetch, Run([p1, p2], 0, ir, [1, 2]));
    states, events := states + [Run([p1, p2], 0, ir, [1, 2])], events + [Fetch];
  }

  lemma LogsAre(root: NodeId, b: NodeId, c: NodeId)
    ensures var log := [AddLeaf(root, b), AddLeaf(root, c)];
      log[..1] == AddLeaves(root, [b]) && log[..2] == AddLeaves(root, [b, c])
  {
    assert [b, c][..1] == [b] && [b][..0] == [];
    assert AddLeaves(root, [b]) == [AddLeaf(root, b)];
  }

  /** One more step of a run: reload `k` stores what it compiled from its patches. */
  lemma StarStores(root: NodeId, ids: seq<NodeId>, states: seq<Run>, events: seq<Event>, k: nat)
    requires IsRun(OBJECTS, Base(root), states, events) && Distinct(root, ids)
    requires var r := states[|events|]; k < |r.pending| && r.pending[k] <= |r.log| && r.log[..r.pending[k]] == AddLeaves(root, ids)
    ensures var r, ir := states[|events|], StarIR(root, ids);
      IsRun(OBJECTS, Base(root), states + [Run(r.log, r.pending[k], ir, Without(r.pending, k))], events + [Store(k, ir)])
  {
    var r, ir := states[|events|], StarIR(root, ids);
    StarReloads(root, ids);
    StarAccepted(root, ids);
    Extend(root, states, events, Store(k, ir), Run(r.log, r.pending[k], ir, Without(r.pending, k)));
  }

  lemma StartIsAccepted(root: NodeId)
    ensures Reloads(OBJECTS, Base(root), [], StarIR(root, [])) && Accepted(StarIR(root, []))
  {
    StarReloads(root, []);
    StarAccepted(root, []);
  }

  lemma SecondStores(root: NodeId, b: NodeId, c: NodeId) returns (states: seq<Run>, events: seq<Event>)
    requires Distinct(root, [b, c])
    ensures IsRun(OBJECTS, Base(root), states, events) && states[0] == Run([], 0, StarIR(root, []), [])
    ensures states[|events|] == Run([AddLeaf(root, b), AddLeaf(root, c)], 2, StarIR(root, [b, c]), [1])
  {
    states, events := BothFetched(root, b, c);
    LogsAre(root, b, c);
    StarStores(root, [b, c], states, events, 1);
    var log, two := [AddLeaf(root, b), AddLeaf(root, c)], StarIR(root, [b, c]);
    assert Without([1, 2], 1) == [1];
    states, events := states + [Run(log, 2, two, [1])], events + [Store(1, two)];
  }

  /** Started from an accepted workflow, with patches that add one node each. The second handler stores
      the IR with both nodes; then the first handler stores the IR it compiled from one patch, and the
      node `c`, which the run may already be executing, is gone. */
  lemma OvertakenReloadLosesNode(root: NodeId, b: NodeId, c: NodeId) returns (states: seq<Run>, events: seq<Event>)
    requires Distinct(root, [b, c])
    ensures IsRun(OBJECTS, Base(root), states, events) && |events| >= 1
    ensures states[0] == Run([], 0, StarIR(root, []), [])
    ensures Reloads(OBJECTS, Base(root), [], StarIR(root, [])) && Accepted(StarIR(root, []))
    ensures c in states[|events| - 1].ir && c !in states[|events|].ir
  {
    states, events := SecondStores(root, b, c);
    ghost var r, one := states[|events|], StarIR(root, [b]);
    FirstStores(root, b, c, states, events);
    states, events := states + [Run(r.log, 1, one, [])], events + [Store(0, one)];
    StartIsAccepted(root);
  }

  lemma FirstStores(root: NodeId, b: NodeId, c: NodeId, states: seq<Run>, events: seq<Event>)
    requires IsRun(OBJECTS, Base(root), states, events) && Distinct(root, [b, c])
    requires states[|events|] == Run([AddLeaf(root, b), AddLeaf(root, c)], 2, StarIR(root, [b, c]), [1])
    ensures var one := StarIR(root, [b]);
      && IsRun(OBJECTS, Base(root), states + [Run(states[|events|].log, 1, one, [])], events + [Store(0, one)])
      && c in StarIR(root, [b, c]) && c !in one
  {
    assert [b, c][0] == b && [b, c][1] == c;
    LogsAre(root, b, c);
    StarStores(root, [b], states, events, 0);
    assert Without([1], 0) == [];
  }
}
