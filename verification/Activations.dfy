/** How often each node is activated in a run of a compiled loop-free workflow, over every
    interleaving and every branch outcome. */
module Activations {
  import opened WorkflowIR
  import opened Coordinator
  import Compiler
  import ControlFlow
  import CycleCheck
  import Reachability
  import Seqs

  // ---- What routing can do on a compiled loop-free graph

  /** The facts about the graph that the run-level proofs use. */
  ghost predicate Graph(ir: IR, f: seq<NodeId>) {
    && LoopFree(ir) && Reachability.Topological(ir, f) && Compiler.Wired(ir)
    && (forall u, v :: u in ir && v in ir ==> multiset(ir[u].dependents)[v] == multiset(ir[v].dependencies)[u])
    && (forall u, next :: u in ir && ControlFlow.CanRoute(ir[u], next) ==> multiset(next) <= multiset(ir[u].dependents))
  }

  lemma {:induction false} RuleWithinTargets(rules: seq<BranchRule>, i: nat, v: NodeId)
    requires i < |rules|
    ensures multiset(rules[i].nextNodes)[v] <= multiset(Compiler.RuleTargets(rules))[v]
  {
    if i < |rules| - 1 {
      RuleWithinTargets(rules[..|rules| - 1], i, v);
    }
  }

  lemma RoutesWithinDependents(es: seq<Compiler.Edge>, n: Node, next: seq<NodeId>)
    requires Compiler.Routable(es, n) && !n.LoopEnabled() && ControlFlow.CanRoute(n, next)
    ensures multiset(next) <= multiset(n.dependents)
  {
    if n.BranchEnabled() {
      var b := n.branch.value;
      var payload :| ControlFlow.BranchChoice(b, payload) == next;
      if payload.Some? {
        var i := ControlFlow.FirstMatchIsARule(b.rules, b.fallback, payload.value);
        if i < |b.rules| {
          forall v ensures multiset(next)[v] <= multiset(n.dependents)[v] {
            RuleWithinTargets(b.rules, i, v);
          }
        }
      }
    }
  }

  lemma CompiledRoutes(schema: Compiler.Schema, ir: IR)
    requires Compiler.Compiled(schema, ir) && LoopFree(ir)
    ensures forall u, next :: u in ir && ControlFlow.CanRoute(ir[u], next) ==> multiset(next) <= multiset(ir[u].dependents)
  {
    forall u, next | u in ir && ControlFlow.CanRoute(ir[u], next)
      ensures multiset(next) <= multiset(ir[u].dependents)
    {
      Compiler.CompiledRoutable(schema, ir, u);
      RoutesWithinDependents(Compiler.EdgesFrom(schema.edges, u), ir[u], next);
    }
  }

  lemma CompiledTransposes(schema: Compiler.Schema, ir: IR)
    requires Compiler.Forward(schema.edges, ir) && Compiler.Backward(schema.edges, ir)
    ensures forall u, v :: u in ir && v in ir ==> multiset(ir[u].dependents)[v] == multiset(ir[v].dependencies)[u]
  {
    forall u, v | u in ir && v in ir
      ensures multiset(ir[u].dependents)[v] == multiset(ir[v].dependencies)[u]
    {
      Compiler.SourceCount(schema.edges, u, v);
    }
  }

  lemma CompiledGraph(schema: Compiler.Schema, ir: IR) returns (f: seq<NodeId>)
    requires Compiler.Compiled(schema, ir) && Compiler.Accepted(ir) && LoopFree(ir)
    ensures Graph(ir, f)
  {
    f := Reachability.LoopFreeIsTopological(ir);
    Compiler.CompiledIsWired(schema, ir);
    Compiler.CompiledForward(schema, ir);
    Compiler.CompiledBackward(schema, ir);
    CompiledTransposes(schema, ir);
    CompiledRoutes(schema, ir);
  }

  // ---- Every activation is an entry or was routed to exactly once

  /** Runs in which signals are delivered once and the IR is not patched. */
  ghost predicate Quiet(es: seq<Event>) {
    forall e :: e in es ==> !e.Patch? && !e.Redeliver?
  }

  ghost function At(n: NodeId): Proc -> int {
    (p: Proc) => if p.node == n then 1 else 0
  }

  /** How often `n` stands among the next nodes already handled by `p`. */
  ghost function Passed(n: NodeId): Proc -> int {
    (p: Proc) => if p.pos <= |p.next| then multiset(p.next[..p.pos])[n] else 0
  }

  ghost function Count(s: Run, n: NodeId): int {
    Sum(s.procs, At(n))
  }

  ghost predicate Legal(ir: IR, p: Proc) {
    && WellFormed(p) && p.ir == ir && p.node in ir
    && (p.absorber ==> ir[p.node].IsAbsorber())
    && (p.next != [] ==> ControlFlow.CanRoute(ir[p.node], p.next))
    && (p.phase == Routing || p.phase == Checking || p.phase == Done ==> ControlFlow.CanRoute(ir[p.node], p.next))
    && (p.phase == Checking || p.phase == Done ==> p.pos == |p.next|)
    && p.phase != Lost
  }

  ghost predicate Tracked(ir: IR, entries: seq<NodeId>, s: Run) {
    && s.ir == ir && s.redelivered == 0
    && (forall p :: p in s.procs ==> Legal(ir, p))
    && (forall n :: n in ir ==> Count(s, n) == multiset(entries)[n] + Sum(s.procs, Passed(n)))
  }

  lemma StepKeepsLegal(ir: IR, s: Run, e: Event)
    requires Enabled(s, e) && !e.Patch? && !e.Redeliver? && s.ir == ir
    requires forall p :: p in s.procs ==> Legal(ir, p)
    ensures Legal(ir, Advance(s, e)) && forall q :: q in Added(s, e) ==> Legal(ir, q)
  {
    assert s.procs[e.i] in s.procs;
    StepKeepsShape(s, e);
  }

  lemma StepKeepsLegals(ir: IR, s: Run, e: Event)
    requires Enabled(s, e) && !e.Patch? && !e.Redeliver? && s.ir == ir
    requires forall p :: p in s.procs ==> Legal(ir, p)
    ensures forall p :: p in Step(s, e).procs ==> Legal(ir, p)
  {
    StepKeepsLegal(ir, s, e);
    forall p | p in Step(s, e).procs ensures Legal(ir, p) {
      assert p in s.procs[e.i := Advance(s, e)] || p in Added(s, e);
      assert p in s.procs || p == Advance(s, e) || p in Added(s, e);
    }
  }

  lemma RouteBalance(p: Proc, n: NodeId)
    requires p.pos < |p.next|
    ensures Passed(n)(p.(pos := p.pos + 1)) == Passed(n)(p) + if p.next[p.pos] == n then 1 else 0
  {
    assert p.next[..p.pos + 1] == p.next[..p.pos] + [p.next[p.pos]];
  }

  lemma SpawnBalance(ir: IR, m: NodeId, n: NodeId)
    requires m in ir
    ensures Sum([Spawn(ir, m)], At(n)) == if m == n then 1 else 0
    ensures Sum([Spawn(ir, m)], Passed(n)) == 0
  {
    SumSingle(Spawn(ir, m), At(n));
    SumSingle(Spawn(ir, m), Passed(n));
  }

  /** Only routing creates activations or moves the routing position forward. */
  lemma QuietStepShape(s: Run, e: Event)
    requires Enabled(s, e) && !e.Patch? && !e.Redeliver? && WellFormed(s.procs[e.i])
    ensures Advance(s, e).node == s.procs[e.i].node
    ensures e.Route? ==> Advance(s, e) == s.procs[e.i].(pos := s.procs[e.i].pos + 1)
    ensures !e.Route? ==> Added(s, e) == []
    ensures !e.Route? ==> Advance(s, e).pos == s.procs[e.i].pos
    ensures !e.Route? ==> Advance(s, e).next == s.procs[e.i].next || s.procs[e.i].next == []
  {
  }

  lemma StepBalance(ir: IR, s: Run, e: Event, n: NodeId)
    requires Enabled(s, e) && !e.Patch? && !e.Redeliver?
    requires WellFormed(s.procs[e.i]) && s.procs[e.i].ir == ir && n in ir
    ensures At(n)(Advance(s, e)) == At(n)(s.procs[e.i])
    ensures Sum(Added(s, e), Passed(n)) == 0
    ensures Sum(Added(s, e), At(n)) == Passed(n)(Advance(s, e)) - Passed(n)(s.procs[e.i])
  {
    var p := s.procs[e.i];
    QuietStepShape(s, e);
    if e.Route? {
      RouteBalance(p, n);
      if p.next[p.pos] in p.ir {
        SpawnBalance(p.ir, p.next[p.pos], n);
      }
    } else if p.next == [] {
      assert Advance(s, e).pos == 0;
      assert Advance(s, e).next[..0] == p.next[..0];
    }
  }

  lemma StepTracks(ir: IR, entries: seq<NodeId>, s: Run, e: Event)
    requires Tracked(ir, entries, s) && Enabled(s, e) && !e.Patch? && !e.Redeliver?
    ensures Tracked(ir, entries, Step(s, e))
  {
    StepKeepsLegals(ir, s, e);
    var t := Step(s, e);
    forall n | n in ir ensures Count(t, n) == multiset(entries)[n] + Sum(t.procs, Passed(n)) {
      assert s.procs[e.i] in s.procs;
      StepBalance(ir, s, e, n);
      SumStep(s, e, At(n));
      SumStep(s, e, Passed(n));
    }
  }

  lemma {:induction false} StartCounts(ir: IR, entries: seq<NodeId>, n: NodeId)
    ensures Sum(Start(ir, entries).procs, At(n)) == multiset(entries)[n]
    ensures Sum(Start(ir, entries).procs, Passed(n)) == 0
  {
    if entries != [] {
      var init := entries[..|entries| - 1];
      StartCounts(ir, init, n);
      assert entries == init + [entries[|entries| - 1]];
      assert Start(ir, entries).procs[..|init|] == Start(ir, init).procs;
    }
  }

  ghost predicate EntryOrder(ir: IR, entries: seq<NodeId>) {
    IsOrder(entries, EntryNodes(ir))
  }

  lemma {:induction false} QuietRunTracks(ir: IR, entries: seq<NodeId>, ss: seq<Run>, es: seq<Event>, k: nat)
    requires IsRun(ir, entries, ss, es) && Quiet(es) && EntryOrder(ir, entries) && k < |ss|
    ensures Tracked(ir, entries, ss[k])
  {
    if k == 0 {
      StartTracks(ir, entries);
    } else {
      QuietRunTracks(ir, entries, ss, es, k - 1);
      assert es[k - 1] in es;
      StepTracks(ir, entries, ss[k - 1], es[k - 1]);
    }
  }

  lemma StartTracks(ir: IR, entries: seq<NodeId>)
    requires EntryOrder(ir, entries)
    ensures Tracked(ir, entries, Start(ir, entries))
  {
    var s := Start(ir, entries);
    forall n | n in ir ensures Count(s, n) == multiset(entries)[n] + Sum(s.procs, Passed(n)) {
      StartCounts(ir, entries, n);
    }
    assert forall i :: 0 <= i < |entries| ==> entries[i] in EntryNodes(ir);
  }

  lemma NodesKnown(ir: IR, entries: seq<NodeId>, ss: seq<Run>, es: seq<Event>, k: nat)
    requires IsRun(ir, entries, ss, es) && Quiet(es) && EntryOrder(ir, entries) && k < |ss|
    ensures forall p :: p in ss[k].procs ==> p.node in ss[k].ir
  {
    QuietRunTracks(ir, entries, ss, es, k);
  }

  // ---- At most once

  lemma {:induction false} PrefixWithin(ns: seq<NodeId>, k: nat, n: NodeId)
    requires k <= |ns|
    ensures multiset(ns[..k])[n] <= multiset(ns)[n]
  {
    assert ns == ns[..k] + ns[k..];
  }

  lemma PassedBound(ir: IR, f: seq<NodeId>, p: Proc, n: NodeId)
    requires Graph(ir, f) && Legal(ir, p) && n in ir
    ensures Passed(n)(p) <= multiset(ir[n].dependencies)[p.node]
  {
    PrefixWithin(p.next, p.pos, n);
  }

  ghost predicate Forest(ir: IR) {
    forall n :: n in ir ==> |ir[n].dependencies| <= 1
  }

  lemma PassedBounds(ir: IR, f: seq<NodeId>, ps: seq<Proc>, n: NodeId)
    requires Graph(ir, f) && n in ir && forall p :: p in ps ==> Legal(ir, p)
    ensures ir[n].dependencies == [] ==> Sum(ps, Passed(n)) == 0
    ensures |ir[n].dependencies| == 1 ==> Sum(ps, Passed(n)) <= Sum(ps, At(ir[n].dependencies[0]))
  {
    var deps := ir[n].dependencies;
    forall p | p in ps ensures 0 <= Passed(n)(p) <= multiset(deps)[p.node] {
      PassedBound(ir, f, p, n);
    }
    if deps == [] {
      SumAllZero(ps, Passed(n));
    } else if |deps| == 1 {
      assert deps == [deps[0]];
      SumMonotone(ps, Passed(n), At(deps[0]));
    }
  }

  lemma {:induction false} CountAtMostOne(ir: IR, f: seq<NodeId>, entries: seq<NodeId>, s: Run, n: NodeId)
    requires Graph(ir, f) && Forest(ir) && EntryOrder(ir, entries) && Tracked(ir, entries, s) && n in ir
    ensures Count(s, n) <= 1
    decreases |f| - CycleCheck.Rank(f, n)
  {
    Seqs.DistinctCount(entries, n);
    PassedBounds(ir, f, s.procs, n);
    if ir[n].dependencies != [] {
      var u := ir[n].dependencies[0];
      assert u in ir && n in ir[u].dependents;
      CountAtMostOne(ir, f, entries, s, u);
      assert n !in entries;
    }
  }

  /** On a forest every run activates every node at most once, through worker, skipped and
      absorber routing alike. */
  lemma ActivatedAtMostOnce(schema: Compiler.Schema, ir: IR, entries: seq<NodeId>, ss: seq<Run>, es: seq<Event>, k: nat, n: NodeId)
    requires Compiler.Compiled(schema, ir) && Compiler.Accepted(ir) && LoopFree(ir) && Forest(ir)
    requires IsRun(ir, entries, ss, es) && Quiet(es) && EntryOrder(ir, entries) && k < |ss| && n in ir
    ensures Count(ss[k], n) <= 1
  {
    var f := CompiledGraph(schema, ir);
    QuietRunTracks(ir, entries, ss, es, k);
    CountAtMostOne(ir, f, entries, ss[k], n);
  }

  // ---- Runs are finite

  /** Steps an activation may still take when no node has more than `d` dependents. */
  ghost function Budget(d: nat): Proc -> int {
    (p: Proc) =>
      match p.phase
      case InStream => 6 + d
      case Signalled(_) => 5 + d
      case Skipping => 5 + d
      case Ready => 4 + d
      case Consumed => 3 + d
      case Absorbing => 3 + d
      case Routing => |p.next| - p.pos + 2
      case Checking => 1
      case _ => 0
  }

  ghost predicate DegreeAtMost(ir: IR, d: nat) {
    forall n :: n in ir ==> |ir[n].dependents| <= d
  }

  lemma RouteLength(ir: IR, f: seq<NodeId>, u: NodeId, next: seq<NodeId>)
    requires Graph(ir, f) && u in ir && ControlFlow.CanRoute(ir[u], next)
    ensures |next| <= |ir[u].dependents|
  {
    SubmultisetLength(next, ir[u].dependents);
  }

  lemma SubmultisetLength(a: seq<NodeId>, b: seq<NodeId>)
    requires multiset(a) <= multiset(b)
    ensures |a| <= |b|
  {
    assert multiset(b) == multiset(a) + (multiset(b) - multiset(a));
    assert |multiset(a)| == |a| && |multiset(b)| == |b|;
  }

  ghost function Full(d: nat): Proc -> int {
    (p: Proc) => 6 + d
  }

  lemma StepSpends(d: nat, s: Run, e: Event)
    requires Enabled(s, e) && !e.Patch? && !e.Redeliver? && WellFormed(s.procs[e.i])
    requires e.Determine? ==> |e.next| <= d
    ensures Budget(d)(Advance(s, e)) + Sum(Added(s, e), Budget(d)) + 1 <= Budget(d)(s.procs[e.i]) + Sum(Added(s, e), Full(d))
  {
    var p := s.procs[e.i];
    if e.Route? && p.next[p.pos] in p.ir {
      SumSingle(Spawn(p.ir, p.next[p.pos]), Budget(d));
      SumSingle(Spawn(p.ir, p.next[p.pos]), Full(d));
    }
  }

  lemma DetermineLength(ir: IR, f: seq<NodeId>, d: nat, entries: seq<NodeId>, s: Run, e: Event)
    requires Graph(ir, f) && DegreeAtMost(ir, d) && Tracked(ir, entries, s) && Enabled(s, e) && e.Determine?
    ensures |e.next| <= d
  {
    var p := s.procs[e.i];
    assert p in s.procs;
    RouteLength(ir, f, p.node, e.next);
  }

  lemma StepWithinBudget(ir: IR, f: seq<NodeId>, d: nat, entries: seq<NodeId>, s: Run, e: Event)
    requires Graph(ir, f) && DegreeAtMost(ir, d) && Tracked(ir, entries, s) && Enabled(s, e) && !e.Patch? && !e.Redeliver?
    ensures Sum(Step(s, e).procs, Budget(d)) + 1 - Sum(s.procs, Budget(d)) <= Sum(Step(s, e).procs, Full(d)) - Sum(s.procs, Full(d))
  {
    assert s.procs[e.i] in s.procs;
    if e.Determine? {
      DetermineLength(ir, f, d, entries, s, e);
    }
    StepSpends(d, s, e);
    SumStep(s, e, Budget(d));
    SumStep(s, e, Full(d));
  }

  /** Steps already spent out of the full budget of the activations so far. */
  ghost function Spent(s: Run, d: nat): int {
    Sum(s.procs, Full(d)) - Sum(s.procs, Budget(d))
  }

  lemma RunStepWithinBudget(ir: IR, f: seq<NodeId>, d: nat, entries: seq<NodeId>, ss: seq<Run>, es: seq<Event>, k: nat)
    requires Graph(ir, f) && DegreeAtMost(ir, d)
    requires IsRun(ir, entries, ss, es) && Quiet(es) && EntryOrder(ir, entries) && k < |es|
    ensures Spent(ss[k], d) + 1 <= Spent(ss[k + 1], d)
  {
    QuietRunTracks(ir, entries, ss, es, k);
    assert es[k] in es;
    StepWithinBudget(ir, f, d, entries, ss[k], es[k]);
  }

  lemma StepsWithinBudget(ir: IR, f: seq<NodeId>, d: nat, entries: seq<NodeId>, ss: seq<Run>, es: seq<Event>, k: nat)
    requires Graph(ir, f) && DegreeAtMost(ir, d)
    requires IsRun(ir, entries, ss, es) && Quiet(es) && EntryOrder(ir, entries) && k < |ss|
    ensures k + Sum(ss[k].procs, Budget(d)) <= Sum(ss[k].procs, Full(d))
  {
    forall j | 0 <= j < k ensures Spent(ss[j], d) < Spent(ss[j + 1], d) {
      RunStepWithinBudget(ir, f, d, entries, ss, es, j);
    }
    StartBudget(ir, entries, d);
    SpentGrows(ss, d, k);
  }

  lemma {:induction false} SpentGrows(ss: seq<Run>, d: nat, k: nat)
    requires k < |ss| && forall j :: 0 <= j < k ==> Spent(ss[j], d) < Spent(ss[j + 1], d)
    ensures k + Spent(ss[0], d) <= Spent(ss[k], d)
  {
    if k > 0 {
      SpentGrows(ss, d, k - 1);
      assert Spent(ss[k - 1], d) < Spent(ss[k - 1 + 1], d);
    }
  }

  lemma {:induction false} StartBudget(ir: IR, entries: seq<NodeId>, d: nat)
    ensures Sum(Start(ir, entries).procs, Budget(d)) == Sum(Start(ir, entries).procs, Full(d))
  {
    if entries != [] {
      var init := entries[..|entries| - 1];
      StartBudget(ir, init, d);
      assert Start(ir, entries).procs[..|init|] == Start(ir, init).procs;
    }
  }

  lemma {:induction false} FullBound(ps: seq<Proc>, d: nat, limit: nat)
    requires |ps| <= limit
    ensures Sum(ps, Full(d)) <= limit * (6 + d)
  {
    if ps != [] {
      FullBound(ps[..|ps| - 1], d, limit - 1);
      assert (limit - 1) * (6 + d) + (6 + d) == limit * (6 + d);
    }
  }

  lemma {:induction false} SumTwo(ps: seq<Proc>, w: Proc -> int, i: nat, j: nat)
    requires i < j < |ps| && forall p :: p in ps ==> w(p) >= 0
    ensures w(ps[i]) + w(ps[j]) <= Sum(ps, w)
  {
    var init := ps[..|ps| - 1];
    assert ps == init + [ps[|ps| - 1]];
    if j == |ps| - 1 {
      SumOne(init, w, i);
    } else {
      SumTwo(init, w, i, j);
    }
  }

  lemma {:induction false} SumOne(ps: seq<Proc>, w: Proc -> int, i: nat)
    requires i < |ps| && forall p :: p in ps ==> w(p) >= 0
    ensures w(ps[i]) <= Sum(ps, w)
  {
    var init := ps[..|ps| - 1];
    assert ps == init + [ps[|ps| - 1]];
    if i == |ps| - 1 {
      SumZero(init, w);
    } else {
      SumOne(init, w, i);
    }
  }

  lemma {:induction false} DistinctLength(ps: seq<Proc>, keys: set<NodeId>)
    requires forall i :: 0 <= i < |ps| ==> ps[i].node in keys
    requires forall i, j :: 0 <= i < j < |ps| ==> ps[i].node != ps[j].node
    ensures |ps| <= |keys|
  {
    if ps != [] {
      DistinctLength(ps[..|ps| - 1], keys - {ps[|ps| - 1].node});
    }
  }

  lemma FewActivations(ir: IR, f: seq<NodeId>, entries: seq<NodeId>, s: Run)
    requires Graph(ir, f) && Forest(ir) && EntryOrder(ir, entries) && Tracked(ir, entries, s)
    ensures |s.procs| <= |ir|
  {
    forall i, j | 0 <= i < j < |s.procs| ensures s.procs[i].node != s.procs[j].node {
      if s.procs[i].node == s.procs[j].node {
        assert s.procs[i] in s.procs;
        CountAtMostOne(ir, f, entries, s, s.procs[i].node);
        SumTwo(s.procs, At(s.procs[i].node), i, j);
        assert false;
      }
    }
    forall i | 0 <= i < |s.procs| ensures s.procs[i].node in ir.Keys {
      assert s.procs[i] in s.procs;
    }
    DistinctLength(s.procs, ir.Keys);
  }

  /** On a forest every run stops: it has at most one activation per node and a bounded number
      of steps, whatever the interleaving. */
  lemma RunsAreFinite(schema: Compiler.Schema, ir: IR, d: nat, entries: seq<NodeId>, ss: seq<Run>, es: seq<Event>)
    requires Compiler.Compiled(schema, ir) && Compiler.Accepted(ir) && LoopFree(ir) && Forest(ir) && DegreeAtMost(ir, d)
    requires IsRun(ir, entries, ss, es) && Quiet(es) && EntryOrder(ir, entries)
    ensures |ss[|es|].procs| <= |ir|
    ensures |es| <= |ir| * (6 + d)
  {
    var f := CompiledGraph(schema, ir);
    var s := ss[|es|];
    QuietRunTracks(ir, entries, ss, es, |es|);
    StepsWithinBudget(ir, f, d, entries, ss, es, |es|);
    FewActivations(ir, f, entries, s);
    BudgetNonNegative(ir, d, s.procs);
    FullBound(s.procs, d, |ir|);
  }

  lemma BudgetNonNegative(ir: IR, d: nat, ps: seq<Proc>)
    requires forall p :: p in ps ==> Legal(ir, p)
    ensures Sum(ps, Budget(d)) >= 0
  {
    forall p | p in ps ensures Budget(d)(p) >= 0 {
      assert Legal(ir, p);
    }
    SumZero(ps, Budget(d));
  }

  // ---- The activations of a drained run do not depend on the schedule

  ghost predicate Drained(s: Run) {
    forall p :: p in s.procs ==> p.phase == Done
  }

  type Choices = NodeId -> seq<NodeId>

  /** Every decision of the run follows the same outcome for each node. */
  ghost predicate Follows(ss: seq<Run>, es: seq<Event>, choose: Choices) {
    |es| < |ss| &&
    forall k :: 0 <= k < |es| && es[k].Determine? && es[k].i < |ss[k].procs| ==> es[k].next == choose(ss[k].procs[es[k].i].node)
  }

  ghost predicate Chose(p: Proc, choose: Choices) {
    p.phase == Routing || p.phase == Checking || p.phase == Done ==> p.next == choose(p.node)
  }

  lemma StepKeepsChoices(s: Run, e: Event, choose: Choices)
    requires Enabled(s, e) && !e.Patch? && !e.Redeliver?
    requires forall p :: p in s.procs ==> Chose(p, choose) && p.node in s.ir
    requires e.Determine? ==> e.next == choose(s.procs[e.i].node)
    ensures forall p :: p in Step(s, e).procs ==> Chose(p, choose)
  {
    assert s.procs[e.i] in s.procs;
    forall p | p in Step(s, e).procs ensures Chose(p, choose) {
      assert p in s.procs[e.i := Advance(s, e)] || p in Added(s, e);
      assert p in s.procs || p == Advance(s, e) || p in Added(s, e);
    }
  }

  lemma {:induction false} RunKeepsChoices(ir: IR, entries: seq<NodeId>, ss: seq<Run>, es: seq<Event>, choose: Choices, k: nat)
    requires IsRun(ir, entries, ss, es) && Quiet(es) && EntryOrder(ir, entries) && Follows(ss, es, choose) && k < |ss|
    ensures forall p :: p in ss[k].procs ==> Chose(p, choose)
  {
    if k > 0 {
      RunKeepsChoices(ir, entries, ss, es, choose, k - 1);
      assert es[k - 1] in es;
      NodesKnown(ir, entries, ss, es, k - 1);
      StepKeepsChoices(ss[k - 1], es[k - 1], choose);
    }
  }

  /** Expected activations of the node of rank `k`: one if it is an entry node, plus, for every
      node of higher rank, its own expected activations times how often it chose this node. */
  ghost function Expected(ir: IR, f: seq<NodeId>, choose: Choices, k: nat): nat
    requires k < |f|
    decreases |f| - k, 1, 0
  {
    (if f[k] in EntryNodes(ir) then 1 else 0) + ExpectedFrom(ir, f, choose, k, k + 1)
  }

  ghost function ExpectedFrom(ir: IR, f: seq<NodeId>, choose: Choices, k: nat, j: nat): nat
    requires k < j <= |f|
    decreases |f| - k, 0, |f| - j
  {
    if j == |f| then 0
    else Expected(ir, f, choose, j) * multiset(choose(f[j]))[f[k]] + ExpectedFrom(ir, f, choose, k, j + 1)
  }

  ghost function Chosen(choose: Choices, n: NodeId): Proc -> int {
    (p: Proc) => multiset(choose(p.node))[n]
  }

  /** Choices made by the activations of the nodes of rank `j` and above. */
  ghost function Weighted(ps: seq<Proc>, f: seq<NodeId>, choose: Choices, n: NodeId, j: nat): int
    requires j <= |f|
    decreases |f| - j
  {
    if j == |f| then 0
    else Sum(ps, At(f[j])) * multiset(choose(f[j]))[n] + Weighted(ps, f, choose, n, j + 1)
  }

  lemma {:induction false} WeightedSnoc(ps: seq<Proc>, p: Proc, f: seq<NodeId>, choose: Choices, n: NodeId, j: nat)
    requires j <= |f| && forall a, b :: 0 <= a < b < |f| ==> f[a] != f[b]
    ensures Weighted(ps + [p], f, choose, n, j)
         == Weighted(ps, f, choose, n, j) + if p.node in f[j..] then multiset(choose(p.node))[n] else 0
    decreases |f| - j
  {
    if j < |f| {
      WeightedSnoc(ps, p, f, choose, n, j + 1);
      assert (ps + [p])[..|ps|] == ps;
      var x, y, m := Sum(ps, At(f[j])), At(f[j])(p), multiset(choose(f[j]))[n];
      assert (x + y) * m == x * m + y * m;
      assert f[j..] == [f[j]] + f[j + 1..];
    }
  }

  lemma {:induction false} WeightedIsSum(ps: seq<Proc>, f: seq<NodeId>, choose: Choices, n: NodeId)
    requires forall a, b :: 0 <= a < b < |f| ==> f[a] != f[b]
    requires forall p :: p in ps ==> p.node in f
    ensures Weighted(ps, f, choose, n, 0) == Sum(ps, Chosen(choose, n))
  {
    if ps == [] {
      WeightedEmpty(f, choose, n, 0);
    } else {
      var init, last := ps[..|ps| - 1], ps[|ps| - 1];
      assert ps == init + [last] && last in ps;
      WeightedIsSum(init, f, choose, n);
      WeightedSnoc(init, last, f, choose, n, 0);
    }
  }

  lemma {:induction false} WeightedEmpty(f: seq<NodeId>, choose: Choices, n: NodeId, j: nat)
    requires j <= |f|
    ensures Weighted([], f, choose, n, j) == 0
    decreases |f| - j
  {
    if j < |f| {
      WeightedEmpty(f, choose, n, j + 1);
    }
  }

  /** Only nodes of higher rank can choose the node of rank `k`. */
  lemma ChoicesComeFromAbove(ir: IR, f: seq<NodeId>, choose: Choices, j: nat, k: nat)
    requires Graph(ir, f) && j <= k < |f| && ControlFlow.CanRoute(ir[f[j]], choose(f[j]))
    ensures multiset(choose(f[j]))[f[k]] == 0
  {
    RankAt(f, j);
    RankAt(f, k);
    assert f[k] !in ir[f[j]].dependents;
    assert f[k] !in multiset(ir[f[j]].dependents);
  }

  lemma RankAt(f: seq<NodeId>, k: nat)
    requires k < |f| && forall a, b :: 0 <= a < b < |f| ==> f[a] != f[b]
    ensures CycleCheck.Rank(f, f[k]) == k
  {
    var r := CycleCheck.Rank(f, f[k]);
    assert f[r] == f[k];
  }

  /** If every higher-ranked node was activated as expected, the choices made for the node of
      rank `k` add up as expected. */
  lemma {:induction false} WeightedAsExpected(ir: IR, f: seq<NodeId>, choose: Choices, ps: seq<Proc>, k: nat, j: nat)
    requires k < j <= |f|
    requires forall i :: k < i < |f| ==> Sum(ps, At(f[i])) == Expected(ir, f, choose, i)
    ensures Weighted(ps, f, choose, f[k], j) == ExpectedFrom(ir, f, choose, k, j)
    decreases |f| - j
  {
    if j < |f| {
      WeightedAsExpected(ir, f, choose, ps, k, j + 1);
    }
  }

  lemma {:induction false} WeightedBelow(f: seq<NodeId>, choose: Choices, ps: seq<Proc>, k: nat, j: nat)
    requires j <= k + 1 <= |f|
    requires forall i :: j <= i <= k ==> multiset(choose(f[i]))[f[k]] == 0
    ensures Weighted(ps, f, choose, f[k], j) == Weighted(ps, f, choose, f[k], k + 1)
    decreases k + 1 - j
  {
    if j <= k {
      WeightedBelow(f, choose, ps, k, j + 1);
    }
  }

  ghost predicate RoutesBy(ir: IR, choose: Choices) {
    forall n :: n in ir ==> ControlFlow.CanRoute(ir[n], choose(n))
  }

  lemma {:induction false} ChosenIsPassed(ps: seq<Proc>, choose: Choices, n: NodeId)
    requires forall p :: p in ps ==> p.phase == Done && p.pos == |p.next| && Chose(p, choose)
    ensures Sum(ps, Chosen(choose, n)) == Sum(ps, Passed(n))
  {
    if ps != [] {
      var last := ps[|ps| - 1];
      assert ps == ps[..|ps| - 1] + [last] && last in ps;
      ChosenIsPassed(ps[..|ps| - 1], choose, n);
      assert last.next[..last.pos] == last.next;
    }
  }

  lemma {:induction false} CountAsExpected(ir: IR, f: seq<NodeId>, entries: seq<NodeId>, choose: Choices, s: Run, k: nat)
    requires Graph(ir, f) && EntryOrder(ir, entries) && RoutesBy(ir, choose) && Tracked(ir, entries, s) && Drained(s)
    requires (forall p :: p in s.procs ==> Chose(p, choose)) && k < |f|
    ensures Count(s, f[k]) == Expected(ir, f, choose, k)
    decreases |f| - k
  {
    var n, ps := f[k], s.procs;
    forall i | k < i < |f| ensures Sum(ps, At(f[i])) == Expected(ir, f, choose, i) {
      CountAsExpected(ir, f, entries, choose, s, i);
    }
    WeightedAsExpected(ir, f, choose, ps, k, k + 1);
    assert Sum(ps, Passed(n)) == Weighted(ps, f, choose, n, k + 1) by {
      ChosenIsPassed(ps, choose, n);
      WeightedIsSum(ps, f, choose, n);
      forall i | 0 <= i <= k ensures multiset(choose(f[i]))[f[k]] == 0 {
        ChoicesComeFromAbove(ir, f, choose, i, k);
      }
      WeightedBelow(f, choose, ps, k, 0);
    }
    Seqs.DistinctCount(entries, n);
  }

  ghost predicate DrainedRun(ir: IR, choose: Choices, entries: seq<NodeId>, ss: seq<Run>, es: seq<Event>) {
    && EntryOrder(ir, entries) && IsRun(ir, entries, ss, es) && Quiet(es) && Follows(ss, es, choose)
    && Drained(ss[|es|])
  }

  lemma DrainedCount(ir: IR, f: seq<NodeId>, choose: Choices, entries: seq<NodeId>, ss: seq<Run>, es: seq<Event>, k: nat)
    requires Graph(ir, f) && RoutesBy(ir, choose) && DrainedRun(ir, choose, entries, ss, es) && k < |f|
    ensures Count(ss[|es|], f[k]) == Expected(ir, f, choose, k)
  {
    QuietRunTracks(ir, entries, ss, es, |es|);
    RunKeepsChoices(ir, entries, ss, es, choose, |es|);
    CountAsExpected(ir, f, entries, choose, ss[|es|], k);
  }

  /** A drained run has activated every node exactly as often as the path count from the entry
      nodes says. The schedule, the goroutine interleaving and the nesting of absorbers play no
      part: only the branch outcomes do. */
  lemma DrainedActivations(schema: Compiler.Schema, ir: IR, entries: seq<NodeId>, choose: Choices, ss: seq<Run>, es: seq<Event>)
    returns (f: seq<NodeId>)
    requires Compiler.Compiled(schema, ir) && Compiler.Accepted(ir) && LoopFree(ir) && RoutesBy(ir, choose)
    requires DrainedRun(ir, choose, entries, ss, es)
    ensures Reachability.Topological(ir, f)
    ensures forall k :: 0 <= k < |f| ==> Count(ss[|es|], f[k]) == Expected(ir, f, choose, k)
  {
    f := CompiledGraph(schema, ir);
    forall k | 0 <= k < |f| ensures Count(ss[|es|], f[k]) == Expected(ir, f, choose, k) {
      DrainedCount(ir, f, choose, entries, ss, es, k);
    }
  }

  /** The schedule does not matter: two drained runs with the same branch outcomes, whatever their
      interleavings and their order of entry tokens, activated every node equally often. */
  lemma ScheduleIrrelevant(
    schema: Compiler.Schema, ir: IR, choose: Choices, n: NodeId,
    entries: seq<NodeId>, ss: seq<Run>, es: seq<Event>, entries': seq<NodeId>, ss': seq<Run>, es': seq<Event>)
    requires Compiler.Compiled(schema, ir) && Compiler.Accepted(ir) && LoopFree(ir) && RoutesBy(ir, choose) && n in ir
    requires DrainedRun(ir, choose, entries, ss, es) && DrainedRun(ir, choose, entries', ss', es')
    ensures Count(ss[|es|], n) == Count(ss'[|es'|], n)
  {
    var f := CompiledGraph(schema, ir);
    assert n in f;
    var k :| 0 <= k < |f| && f[k] == n;
    DrainedCount(ir, f, choose, entries, ss, es, k);
    DrainedCount(ir, f, choose, entries', ss', es', k);
  }
}
