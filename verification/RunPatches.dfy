/** Patches that arrive while a run executes: the append-only patcher
    (common/clients/orchestrator.go) and the recompilation that follows it
    (cmd/workflow-runner/coordinator/patch_loader.go). */
module RunPatches {
  import opened Wrappers
  import opened Json
  import opened WorkflowIR
  import opened Compiler
  import WP = WorkflowPatch
  import Seqs

  type Doc = WP.Doc
  type RawOp = WP.RawOp
  type RunPatch = seq<RawOp>

  // ---- The append-only patcher

  function AppendTo(d: Doc, key: string, value: Json): Doc {
    d[key := Arr(WP.Items(d, key) + [value])]
  }

  /** Only add, and only at the end of nodes or edges; remove and replace are refused. */
  function AppendStep(d: Doc, op: RawOp): Option<Doc> {
    if WP.Text(op, "op") != Some("add") then None
    else if WP.Text(op, "path") == Some("/nodes/-") then Some(AppendTo(d, "nodes", WP.Value(op)))
    else if WP.Text(op, "path") == Some("/edges/-") then Some(AppendTo(d, "edges", WP.Value(op)))
    else None
  }

  function AppendAll(d: Doc, ops: seq<RawOp>): Option<Doc> {
    if ops == [] then Some(d)
    else
      var r := AppendAll(d, ops[..|ops| - 1]);
      if r.None? then None else AppendStep(r.value, ops[|ops| - 1])
  }

  function Flatten(patches: seq<RunPatch>): seq<RawOp> {
    if patches == [] then [] else Flatten(patches[..|patches| - 1]) + patches[|patches| - 1]
  }

  /** The run-time patcher is the handler-side patcher restricted to add operations. */
  lemma {:induction false} RestrictsHandlerPatcher(d: Doc, ops: seq<RawOp>)
    ensures AppendAll(d, ops).Some? <==>
      WP.PatchAll(d, ops).Some? && forall i :: 0 <= i < |ops| ==> WP.Text(ops[i], "op") == Some("add")
    ensures AppendAll(d, ops).Some? ==> AppendAll(d, ops) == WP.PatchAll(d, ops)
  {
    if ops != [] {
      var init, last := ops[..|ops| - 1], ops[|ops| - 1];
      RestrictsHandlerPatcher(d, init);
      assert forall i :: 0 <= i < |init| ==> init[i] == ops[i];
      if WP.PatchAll(d, init).Some? {
        StepRestricts(WP.PatchAll(d, init).value, last);
      }
    }
  }

  lemma StepRestricts(d: Doc, op: RawOp)
    ensures AppendStep(d, op) == if WP.Text(op, "op") == Some("add") then WP.PatchStep(d, op) else None
  {
  }

  lemma {:induction false} AppendAllSplits(d: Doc, ops: seq<RawOp>, more: seq<RawOp>)
    ensures AppendAll(d, ops + more) ==
      if AppendAll(d, ops).None? then None else AppendAll(AppendAll(d, ops).value, more)
    decreases |more|
  {
    if more == [] {
      assert ops + more == ops;
    } else {
      AppendAllSplits(d, ops, more[..|more| - 1]);
      assert (ops + more)[..|ops + more| - 1] == ops + more[..|more| - 1];
    }
  }

  lemma {:induction false} FlattenSplits(ps: seq<RunPatch>, qs: seq<RunPatch>)
    ensures Flatten(ps + qs) == Flatten(ps) + Flatten(qs)
    decreases |qs|
  {
    if qs == [] {
      assert ps + qs == ps;
    } else {
      var all, init, last := ps + qs, qs[..|qs| - 1], qs[|qs| - 1];
      FlattenSplits(ps, init);
      assert all[..|all| - 1] == ps + init && all[|all| - 1] == last;
      assert Flatten(all) == Flatten(ps + init) + last;
      assert Flatten(qs) == Flatten(init) + last;
    }
  }

  class RunWorkflow {
    var doc: Doc

    method ApplyOperation(op: RawOp) returns (ok: bool)
      modifies this
      ensures ok <==> AppendStep(old(doc), op).Some?
      ensures doc == if ok then AppendStep(old(doc), op).value else old(doc)
    {
      if WP.Text(op, "op") != Some("add") { return false; }
      var path := WP.Text(op, "path");
      if path == Some("/nodes/-") {
        doc := AppendTo(doc, "nodes", WP.Value(op));
        return true;
      }
      if path == Some("/edges/-") {
        doc := AppendTo(doc, "edges", WP.Value(op));
        return true;
      }
      return false;
    }

    method ApplyPatch(ops: RunPatch) returns (ok: bool)
      modifies this
      ensures ok <==> AppendAll(old(doc), ops).Some?
      ensures ok ==> doc == AppendAll(old(doc), ops).value
    {
      for i := 0 to |ops|
        invariant AppendAll(old(doc), ops[..i]) == Some(doc)
      {
        assert ops[..i + 1][..i] == ops[..i];
        assert ops == ops[..i + 1] + ops[i + 1..];
        AppendAllSplits(old(doc), ops[..i + 1], ops[i + 1..]);
        ok := ApplyOperation(ops[i]);
        if !ok { return; }
      }
      Seqs.Whole(ops);
      return true;
    }

    /** Applies every operation of every patch, in order. */
    method MaterializeWorkflowForRun(patches: seq<RunPatch>) returns (ok: bool)
      modifies this
      ensures ok <==> AppendAll(old(doc), Flatten(patches)).Some?
      ensures ok ==> doc == AppendAll(old(doc), Flatten(patches)).value
    {
      for i := 0 to |patches|
        invariant AppendAll(old(doc), Flatten(patches[..i])) == Some(doc)
      {
        Seqs.Snoc(patches, i);
        FlattenSplits(patches[..i], [patches[i]]);
        assert Flatten([patches[i]]) == patches[i];
        AppendAllSplits(old(doc), Flatten(patches[..i]), patches[i]);
        ok := ApplyPatch(patches[i]);
        if !ok {
          assert patches == patches[..i + 1] + patches[i + 1..];
          FlattenSplits(patches[..i + 1], patches[i + 1..]);
          AppendAllSplits(old(doc), Flatten(patches[..i + 1]), Flatten(patches[i + 1..]));
          return;
        }
      }
      Seqs.Whole(patches);
      return true;
    }
  }

  // ---- Decoding into a schema

  /** encoding/json on single values: each node and edge decodes on its own, and the rest of the
      document decodes or not. */
  datatype Decoder = Decoder(node: Json -> Option<WorkflowNode>, edge: Json -> Option<Edge>, rest: Doc -> bool)

  function DecodeList<T>(f: Json -> Option<T>, items: seq<Json>): Option<seq<T>> {
    if items == [] then Some([])
    else
      var init, last := DecodeList(f, items[..|items| - 1]), f(items[|items| - 1]);
      if init.None? || last.None? then None else Some(init.value + [last.value])
  }

  /** A missing or null field is an empty list; any other non-array is an error. */
  function DecodeField<T>(f: Json -> Option<T>, d: Doc, key: string): Option<seq<T>> {
    if key !in d || d[key].Null? then Some([])
    else if d[key].Arr? then DecodeList(f, d[key].items)
    else None
  }

  function Decode(D: Decoder, d: Doc): Option<Schema> {
    var nodes, edges := DecodeField(D.node, d, "nodes"), DecodeField(D.edge, d, "edges");
    if nodes.None? || edges.None? || !D.rest(d - {"nodes", "edges"}) then None
    else Some(Schema(nodes.value, edges.value))
  }

  ghost predicate Grows(d: Doc, d': Doc) {
    WP.Items(d, "nodes") <= WP.Items(d', "nodes") && WP.Items(d, "edges") <= WP.Items(d', "edges")
  }

  lemma {:induction false} AppendsGrow(d: Doc, ops: seq<RawOp>)
    requires AppendAll(d, ops).Some?
    ensures Grows(d, AppendAll(d, ops).value)
  {
    if ops != [] {
      AppendsGrow(d, ops[..|ops| - 1]);
    }
  }

  lemma {:induction false} DecodeListPrefix<T>(f: Json -> Option<T>, xs: seq<Json>, ys: seq<Json>)
    requires xs <= ys && DecodeList(f, ys).Some?
    ensures DecodeList(f, xs).Some? && DecodeList(f, xs).value <= DecodeList(f, ys).value
    decreases |ys|
  {
    if xs != ys {
      DecodeListPrefix(f, xs, ys[..|ys| - 1]);
    }
  }

  lemma DecodeFieldPrefix<T>(f: Json -> Option<T>, d: Doc, d': Doc, key: string)
    requires DecodeField(f, d, key).Some? && DecodeField(f, d', key).Some?
    requires WP.Items(d, key) <= WP.Items(d', key)
    ensures DecodeField(f, d, key).value <= DecodeField(f, d', key).value
  {
    if key in d' && d'[key].Arr? {
      DecodeListPrefix(f, WP.Items(d, key), WP.Items(d', key));
    }
  }

  ghost predicate SchemaGrows(s: Schema, s': Schema) {
    s.nodes <= s'.nodes && s.edges <= s'.edges
  }

  // ---- Compilation is monotone

  lemma {:induction false} SourcesGrow(es: seq<Edge>, es': seq<Edge>, v: NodeId)
    requires es <= es'
    ensures SourcesTo(es, v) <= SourcesTo(es', v)
    decreases |es'|
  {
    if es != es' {
      SourcesGrow(es, es'[..|es'| - 1], v);
    }
  }

  lemma {:induction false} CountGrows(es: seq<Edge>, es': seq<Edge>, u: NodeId, v: NodeId)
    requires es <= es'
    ensures EdgeCount(es, u, v) <= EdgeCount(es', u, v)
    decreases |es'|
  {
    if es != es' {
      CountGrows(es, es'[..|es'| - 1], u, v);
    }
  }

  /** What a running workflow may rely on when its IR is replaced. */
  ghost predicate Survives(ir: IR, ir': IR) {
    forall n :: n in ir ==>
      && n in ir'
      && ir[n].dependencies <= ir'[n].dependencies
      && multiset(ir[n].dependents) <= multiset(ir'[n].dependents)
  }

  lemma SchemaGrowthSurvives(s: Schema, s': Schema, ir: IR, ir': IR)
    requires SchemaGrows(s, s') && Compiled(s, ir) && Compiled(s', ir')
    ensures Survives(ir, ir')
  {
    CompiledBackward(s, ir);
    CompiledBackward(s', ir');
    CompiledForward(s, ir);
    CompiledForward(s', ir');
    forall n | n in ir
      ensures n in ir' && ir[n].dependencies <= ir'[n].dependencies && multiset(ir[n].dependents) <= multiset(ir'[n].dependents)
    {
      assert n in Ids(s.nodes) && n in Ids(s'.nodes);
      SourcesGrow(s.edges, s'.edges, n);
      forall v ensures multiset(ir[n].dependents)[v] <= multiset(ir'[n].dependents)[v] {
        CountGrows(s.edges, s'.edges, n, v);
      }
    }
  }

  // ---- Reloading

  /** `ir` is a possible outcome of recompiling the base with these patches applied. */
  ghost predicate Reloads(D: Decoder, base: Doc, patches: seq<RunPatch>, ir: IR) {
    var doc := AppendAll(base, Flatten(patches));
    doc.Some? && Decode(D, doc.value).Some? && Compiled(Decode(D, doc.value).value, ir)
  }

  lemma ReloadSchemasGrow(D: Decoder, base: Doc, ps: seq<RunPatch>, qs: seq<RunPatch>)
    requires ps <= qs
    requires AppendAll(base, Flatten(ps)).Some? && AppendAll(base, Flatten(qs)).Some?
    requires Decode(D, AppendAll(base, Flatten(ps)).value).Some? && Decode(D, AppendAll(base, Flatten(qs)).value).Some?
    ensures SchemaGrows(Decode(D, AppendAll(base, Flatten(ps)).value).value, Decode(D, AppendAll(base, Flatten(qs)).value).value)
  {
    var more := qs[|ps|..];
    assert qs == ps + more;
    FlattenSplits(ps, more);
    AppendAllSplits(base, Flatten(ps), Flatten(more));
    var d, d' := AppendAll(base, Flatten(ps)).value, AppendAll(base, Flatten(qs)).value;
    AppendsGrow(d, Flatten(more));
    DecodeFieldPrefix(D.node, d, d', "nodes");
    DecodeFieldPrefix(D.edge, d, d', "edges");
  }

  /** Later patches never take away a node, a dependency or a dependent. */
  lemma PatchesAreMonotone(D: Decoder, base: Doc, ps: seq<RunPatch>, qs: seq<RunPatch>, ir: IR, ir': IR)
    requires ps <= qs && Reloads(D, base, ps, ir) && Reloads(D, base, qs, ir')
    ensures Survives(ir, ir')
  {
    ReloadSchemasGrow(D, base, ps, qs);
    SchemaGrowthSurvives(
      Decode(D, AppendAll(base, Flatten(ps)).value).value, Decode(D, AppendAll(base, Flatten(qs)).value).value, ir, ir');
  }

  /** What can stop a reload: a refused operation, a document that does not decode, a compilation that
      can fail, or a compiled workflow beyond the limit. */
  ghost predicate ReloadCanFail(D: Decoder, base: Doc, patches: seq<RunPatch>, allowed: IR -> bool) {
    var doc := AppendAll(base, Flatten(patches));
    || doc.None? || Decode(D, doc.value).None? || CanFail(Decode(D, doc.value).value)
    || exists ir :: Compiled(Decode(D, doc.value).value, ir) && !allowed(ir)
  }

  class RunIR {
    var ir: IR

    /** The patch list is fetched twice: `listed` decides whether there is anything to do, and the
        later `patches`, which may have grown, are applied. Nothing happens without patches; on any
        error the stored IR stays. */
    method ReloadIRIfPatched(D: Decoder, workflow: RunWorkflow, listed: seq<RunPatch>, patches: seq<RunPatch>, allowed: IR -> bool)
      returns (ok: bool)
      requires listed <= patches
      modifies this, workflow
      ensures !ok || listed == [] ==> ir == old(ir)
      ensures ok && listed != [] ==> Reloads(D, old(workflow.doc), patches, ir) && Accepted(ir) && allowed(ir)
      ensures !ok ==> listed != [] && ReloadCanFail(D, old(workflow.doc), patches, allowed)
    {
      if listed == [] { return true; }
      ok := workflow.MaterializeWorkflowForRun(patches);
      if !ok { return; }
      var schema := Decode(D, workflow.doc);
      if schema.None? { return false; }
      var compiled := CompileWorkflowSchema(schema.value);
      if compiled.Err? || !allowed(compiled.value) { return false; }
      ir := compiled.value;
    }
  }

  // ---- Reloading the same patches again

  /** Equal up to the order of the branch rules, which follows Go's map order. */
  ghost predicate SameNode(n: Node, m: Node) {
    && n.(dependents := [], branch := None) == m.(dependents := [], branch := None)
    && multiset(n.dependents) == multiset(m.dependents)
    && (n.branch.Some? <==> m.branch.Some?)
    && (n.branch.Some? ==>
          && n.branch.value.(rules := []) == m.branch.value.(rules := [])
          && multiset(n.branch.value.rules) == multiset(m.branch.value.rules))
  }

  lemma RuleIn(es: seq<Edge>, b: BranchConfig, c: BranchConfig, r: BranchRule)
    requires BranchOf(es, b) && BranchOf(es, c) && r in b.rules
    ensures r in c.rules
  {
    assert RuleFor(es, r);
    var i :| 0 <= i < |c.rules| && c.rules[i].condition == Some(Condition("cel", r.condition.value.expression));
    assert c.rules[i] in c.rules && RuleFor(es, c.rules[i]);
    assert c.rules[i] == r;
  }

  lemma SameBranch(es: seq<Edge>, b: BranchConfig, c: BranchConfig)
    requires BranchOf(es, b) && BranchOf(es, c)
    ensures b.(rules := []) == c.(rules := []) && multiset(b.rules) == multiset(c.rules)
  {
    forall r ensures multiset(b.rules)[r] == multiset(c.rules)[r] {
      Seqs.DistinctCount(b.rules, r);
      Seqs.DistinctCount(c.rules, r);
      if r in b.rules { RuleIn(es, b, c, r); }
      if r in c.rules { RuleIn(es, c, b, r); }
    }
  }

  lemma SameMembers<T>(s: seq<T>, t: seq<T>, x: T)
    requires multiset(s) == multiset(t)
    ensures x in s <==> x in t
  {
    assert x in s <==> x in multiset(s);
    assert x in t <==> x in multiset(t);
  }

  lemma SameTerminal(n: Node, m: Node)
    requires n.loop == m.loop && multiset(n.dependents) == multiset(m.dependents)
    requires (n.branch.Some? <==> m.branch.Some?) && (n.branch.Some? ==>
      n.branch.value.(rules := []) == m.branch.value.(rules := []) && multiset(n.branch.value.rules) == multiset(m.branch.value.rules))
    ensures NoSuccessors(n) == NoSuccessors(m)
  {
    assert |n.dependents| == |multiset(n.dependents)| == |m.dependents|;
    if n.branch.Some? {
      forall r ensures r in n.branch.value.rules <==> r in m.branch.value.rules {
        SameMembers(n.branch.value.rules, m.branch.value.rules, r);
      }
    }
  }

  lemma SameShape(w: WorkflowNode, es: seq<Edge>, n: Node, m: Node)
    requires Shape(w, es, n) && Shape(w, es, m)
    ensures n.id == m.id && n.kind == m.kind && n.loop == m.loop && (n.branch.Some? <==> m.branch.Some?)
    ensures n.branch.Some? ==>
      n.branch.value.(rules := []) == m.branch.value.(rules := []) && multiset(n.branch.value.rules) == multiset(m.branch.value.rules)
  {
    if n.branch.Some? {
      SameBranch(es, n.branch.value, m.branch.value);
    }
  }

  /** Two compilations of one schema differ at most in rule order. */
  lemma RecompilationIsStable(s: Schema, ir: IR, ir': IR, id: NodeId)
    requires Compiled(s, ir) && Compiled(s, ir') && id in ir
    ensures ir.Keys == ir'.Keys && SameNode(ir[id], ir'[id])
  {
    var n, m := ir[id], ir'[id];
    assert multiset(n.dependents) == multiset(m.dependents) by {
      SameForward(s.edges, ir, ir', id) by {
        CompiledForward(s, ir);
        CompiledForward(s, ir');
      }
    }
    assert Linked(s, s.edges, id, n) && Linked(s, s.edges, id, m);
    SameShape(LastNode(s.nodes, id), EdgesFrom(s.edges, id), n, m);
    SameTerminal(n, m);
  }

  lemma SameForward(edges: seq<Edge>, ir: IR, ir': IR, id: NodeId)
    requires Forward(edges, ir) && Forward(edges, ir') && id in ir && id in ir'
    ensures multiset(ir[id].dependents) == multiset(ir'[id].dependents)
  {
    forall v ensures multiset(ir[id].dependents)[v] == multiset(ir'[id].dependents)[v] {
      assert multiset(ir[id].dependents)[v] == EdgeCount(edges, id, v);
    }
  }

  /** Reloading an unchanged patch list gives the same graph again. */
  lemma ReloadIsIdempotent(D: Decoder, base: Doc, ps: seq<RunPatch>, ir: IR, ir': IR)
    requires Reloads(D, base, ps, ir) && Reloads(D, base, ps, ir')
    ensures ir.Keys == ir'.Keys && forall id :: id in ir ==> SameNode(ir[id], ir'[id])
  {
    var s := Decode(D, AppendAll(base, Flatten(ps)).value).value;
    forall id | id in ir ensures SameNode(ir[id], ir'[id]) {
      RecompilationIsStable(s, ir, ir', id);
    }
  }

  // ---- Runs: patches arrive, handlers reload

  /** `version` patches are reflected in the stored IR; `pending` holds, for each reload under way,
      how many patches it fetched. A reload fetches twice; the first fetch only decides whether to
      go on, and once there are patches there always are, so Fetch stands for the second. */
  datatype Run = Run(log: seq<RunPatch>, version: nat, ir: IR, pending: seq<nat>)

  datatype Event =
    | Arrive(patch: RunPatch)
    | Fetch
    | Store(k: nat, ir: IR)
    | Fail(k: nat)

  function Without(s: seq<nat>, k: nat): seq<nat>
    requires k < |s|
  {
    s[..k] + s[k + 1..]
  }

  ghost predicate Enabled(D: Decoder, base: Doc, r: Run, e: Event) {
    match e
    case Arrive(_) => true
    case Fetch => r.log != []
    case Store(k, ir) =>
      k < |r.pending| && r.pending[k] <= |r.log| && Reloads(D, base, r.log[..r.pending[k]], ir) && Accepted(ir)
    case Fail(k) => k < |r.pending|
  }

  ghost function Next(D: Decoder, base: Doc, r: Run, e: Event): Run
    requires Enabled(D, base, r, e)
  {
    match e
    case Arrive(patch) => r.(log := r.log + [patch])
    case Fetch => r.(pending := r.pending + [|r.log|])
    case Store(k, ir) => r.(version := r.pending[k], ir := ir, pending := Without(r.pending, k))
    case Fail(k) => r.(pending := Without(r.pending, k))
  }

  ghost predicate Consistent(D: Decoder, base: Doc, r: Run) {
    && r.version <= |r.log| && Reloads(D, base, r.log[..r.version], r.ir)
    && forall k :: 0 <= k < |r.pending| ==> r.pending[k] <= |r.log|
  }

  lemma StepStaysConsistent(D: Decoder, base: Doc, r: Run, e: Event)
    requires Consistent(D, base, r) && Enabled(D, base, r, e)
    ensures Consistent(D, base, Next(D, base, r, e))
  {
    if e.Arrive? {
      assert (r.log + [e.patch])[..r.version] == r.log[..r.version];
    }
  }

  /** No reload under way fetched fewer patches than the stored IR reflects, and they are listed
      in the order they fetched. */
  ghost predicate InOrder(r: Run) {
    && (forall k :: 0 <= k < |r.pending| ==> r.version <= r.pending[k])
    && (forall i, j :: 0 <= i < j < |r.pending| ==> r.pending[i] <= r.pending[j])
  }

  /** Reloads store in the order in which they fetched. */
  ghost predicate Fifo(e: Event) {
    e.Store? ==> e.k == 0
  }

  lemma ArriveInOrder(r: Run, r': Run)
    requires InOrder(r) && r'.version == r.version && r'.pending == r.pending
    ensures InOrder(r')
  {
  }

  lemma FetchInOrder(r: Run, r': Run, n: nat)
    requires InOrder(r) && r'.version == r.version && r'.pending == r.pending + [n]
    requires r.version <= n && forall k :: 0 <= k < |r.pending| ==> r.pending[k] <= n
    ensures InOrder(r')
  {
  }

  lemma LeaveInOrder(r: Run, r': Run, k: nat)
    requires InOrder(r) && k < |r.pending| && r'.pending == Without(r.pending, k)
    requires r'.version == r.version || (k == 0 && r'.version == r.pending[0])
    ensures InOrder(r')
  {
  }

  lemma FifoStaysInOrder(D: Decoder, base: Doc, r: Run, e: Event)
    requires InOrder(r) && Enabled(D, base, r, e) && Fifo(e)
    requires r.version <= |r.log| && forall k :: 0 <= k < |r.pending| ==> r.pending[k] <= |r.log|
    ensures InOrder(Next(D, base, r, e))
  {
    var r' := Next(D, base, r, e);
    match e
    case Arrive(_) => ArriveInOrder(r, r');
    case Fetch => FetchInOrder(r, r', |r.log|);
    case Store(k, _) => LeaveInOrder(r, r', k);
    case Fail(k) => LeaveInOrder(r, r', k);
  }

  lemma StoreSurvives(D: Decoder, base: Doc, log: seq<RunPatch>, v: nat, w: nat, ir: IR, ir': IR)
    requires v <= w <= |log| && Reloads(D, base, log[..v], ir) && Reloads(D, base, log[..w], ir')
    ensures Survives(ir, ir')
  {
    assert log[..v] <= log[..w];
    PatchesAreMonotone(D, base, log[..v], log[..w], ir, ir');
  }

  lemma StepSurvives(D: Decoder, base: Doc, r: Run, e: Event)
    requires Consistent(D, base, r) && Enabled(D, base, r, e)
    requires e.Store? ==> r.version <= r.pending[e.k]
    ensures Survives(r.ir, Next(D, base, r, e).ir)
  {
    if e.Store? {
      StoreSurvives(D, base, r.log, r.version, r.pending[e.k], r.ir, e.ir);
    }
  }

  ghost predicate IsRun(D: Decoder, base: Doc, states: seq<Run>, events: seq<Event>) {
    && |states| == |events| + 1
    && forall i :: 0 <= i < |events| ==> Enabled(D, base, states[i], events[i]) && states[i + 1] == Next(D, base, states[i], events[i])
  }

  /** Whatever the interleaving of arrivals, fetches and stores, in every state of every run the
      stored IR is a compilation of some prefix of the patch log. */
  lemma {:induction false} RunsStayConsistent(D: Decoder, base: Doc, states: seq<Run>, events: seq<Event>, k: nat)
    requires IsRun(D, base, states, events) && Consistent(D, base, states[0]) && k < |states|
    ensures Consistent(D, base, states[k])
  {
    if k > 0 {
      RunsStayConsistent(D, base, states, events, k - 1);
      assert states[k - 1 + 1] == Next(D, base, states[k - 1], events[k - 1]);
      StepStaysConsistent(D, base, states[k - 1], events[k - 1]);
    }
  }

  /** A reload that starts with no other under way reflects every patch that had arrived when it fetched,
      whatever arrives or is fetched before it stores. */
  lemma ReloadCatchesUp(D: Decoder, base: Doc, states: seq<Run>, events: seq<Event>, j: nat, m: nat)
    requires IsRun(D, base, states, events) && j < m < |events| && events[j] == Fetch && states[j].pending == []
    requires (forall i :: j < i < m ==> events[i].Arrive? || events[i].Fetch?) && events[m].Store? && events[m].k == 0
    ensures states[m + 1].version == |states[j].log| && Reloads(D, base, states[j].log, states[m + 1].ir)
  {
    OldestStaysFirst(D, base, states, events, j, m);
    assert Enabled(D, base, states[m], events[m]) && states[m + 1] == Next(D, base, states[m], events[m]);
    assert states[m].log[..|states[j].log|] == states[j].log;
  }

  lemma {:induction false} OldestStaysFirst(D: Decoder, base: Doc, states: seq<Run>, events: seq<Event>, j: nat, m: nat)
    requires IsRun(D, base, states, events) && j < m < |states| && events[j] == Fetch && states[j].pending == []
    requires forall i :: j < i < m ==> events[i].Arrive? || events[i].Fetch?
    ensures states[m].pending != [] && states[m].pending[0] == |states[j].log| && states[j].log <= states[m].log
    decreases m
  {
    var i := m - 1;
    assert Enabled(D, base, states[i], events[i]) && states[i + 1] == Next(D, base, states[i], events[i]);
    if j < i {
      OldestStaysFirst(D, base, states, events, j, i);
    }
  }

  ghost predicate FifoRun(D: Decoder, base: Doc, states: seq<Run>, events: seq<Event>) {
    && IsRun(D, base, states, events) && Consistent(D, base, states[0]) && InOrder(states[0])
    && forall k :: 0 <= k < |events| ==> Fifo(events[k])
  }

  lemma FifoStep(D: Decoder, base: Doc, r: Run, e: Event, r': Run)
    requires Consistent(D, base, r) && InOrder(r) && Enabled(D, base, r, e) && Fifo(e) && r' == Next(D, base, r, e)
    ensures Consistent(D, base, r') && InOrder(r') && Survives(r.ir, r'.ir)
  {
    StepStaysConsistent(D, base, r, e);
    FifoStaysInOrder(D, base, r, e);
    StepSurvives(D, base, r, e);
  }

  lemma {:induction false} FifoRunsStayInOrder(D: Decoder, base: Doc, states: seq<Run>, events: seq<Event>, j: nat)
    requires FifoRun(D, base, states, events) && j < |states|
    ensures Consistent(D, base, states[j]) && InOrder(states[j])
  {
    if j > 0 {
      var k := j - 1;
      FifoRunsStayInOrder(D, base, states, events, k);
      assert Fifo(events[k]) && states[k + 1] == Next(D, base, states[k], events[k]);
      FifoStep(D, base, states[k], events[k], states[j]);
    }
  }

  /** When reloads store in fetch order, whatever a handler read from the IR at one moment is
      still there at every later moment: in particular, re-fetching the executed node succeeds. */
  lemma {:induction false} RefetchSucceeds(D: Decoder, base: Doc, states: seq<Run>, events: seq<Event>, i: nat, j: nat)
    requires FifoRun(D, base, states, events) && i <= j < |states|
    ensures Survives(states[i].ir, states[j].ir)
    decreases j
  {
    if i < j {
      var k := j - 1;
      RefetchSucceeds(D, base, states, events, i, k);
      assert Survives(states[k].ir, states[j].ir) by {
        FifoRunsStayInOrder(D, base, states, events, k);
        assert Fifo(events[k]) && states[k + 1] == Next(D, base, states[k], events[k]);
        FifoStep(D, base, states[k], events[k], states[j]);
      }
      SurvivesTransitive(states[i].ir, states[k].ir, states[j].ir);
    }
  }

  lemma SurvivesTransitive(a: IR, b: IR, c: IR)
    requires Survives(a, b) && Survives(b, c)
    ensures Survives(a, c)
  {
  }

  // ---- Overtaken reloads

  /** The schema the stored IR would be compiled from with `v` patches applied. */
  ghost function SchemaAt(D: Decoder, base: Doc, log: seq<RunPatch>, v: nat): Schema
    requires v <= |log| && exists ir :: Reloads(D, base, log[..v], ir)
  {
    Decode(D, AppendAll(base, Flatten(log[..v])).value).value
  }

  /** The nodes that patches v+1 to w add. */
  ghost function Added(D: Decoder, base: Doc, log: seq<RunPatch>, v: nat, w: nat): seq<WorkflowNode>
    requires v <= |log| && exists ir :: Reloads(D, base, log[..v], ir)
    requires w <= |log| && exists ir :: Reloads(D, base, log[..w], ir)
  {
    var before, after := |SchemaAt(D, base, log, v).nodes|, SchemaAt(D, base, log, w).nodes;
    if before <= |after| then after[before..] else []
  }

  /** A store keeps every node of the stored IR exactly when it is not overtaken, or when the
      patches it missed only add nodes whose ids it already had. */
  lemma StoreKeepsNodesIff(D: Decoder, base: Doc, r: Run, k: nat, ir: IR)
    requires Consistent(D, base, r) && Enabled(D, base, r, Store(k, ir))
    ensures r.ir.Keys <= ir.Keys <==>
      r.version <= r.pending[k] || forall w :: w in Added(D, base, r.log, r.pending[k], r.version) ==> w.id in ir
  {
    if r.version <= r.pending[k] {
      StepSurvives(D, base, r, Store(k, ir));
    } else {
      IdsAt(D, base, r.log, r.pending[k], r.version, ir, r.ir);
    }
  }

  lemma IdsAt(D: Decoder, base: Doc, log: seq<RunPatch>, v: nat, w: nat, ir: IR, ir': IR)
    requires v <= w <= |log| && Reloads(D, base, log[..v], ir) && Reloads(D, base, log[..w], ir')
    ensures ir'.Keys == ir.Keys + Ids(Added(D, base, log, v, w))
  {
    var s, s' := SchemaAt(D, base, log, v), SchemaAt(D, base, log, w);
    assert log[..v] <= log[..w];
    ReloadSchemasGrow(D, base, log[..v], log[..w]);
    IdsOfPrefix(s.nodes, s'.nodes);
  }

  lemma IdsOfPrefix(ns: seq<WorkflowNode>, ms: seq<WorkflowNode>)
    requires ns <= ms
    ensures Ids(ms) == Ids(ns) + Ids(ms[|ns|..])
  {
    assert ms == ns + ms[|ns|..];
    assert forall w :: w in ms <==> w in ns || w in ms[|ns|..];
  }
}
