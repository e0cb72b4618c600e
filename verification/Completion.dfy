/** When a run is recorded as COMPLETED (cmd/workflow-runner/coordinator/completion_handler.go and
    cmd/workflow-runner/workflow_lifecycle/completion.go). */
module Completion {
  import opened WorkflowIR
  import opened Counter
  import opened Coordinator
  import opened Activations
  import Compiler
  import ControlFlow
  import CycleCheck
  import Reachability
  import Seqs

  // ---- Consume keys are used once per node

  /** `p` is the activation that used the consume key of `n`. */
  ghost function First(n: NodeId): Proc -> int {
    (p: Proc) =>
      if p.node == n && !p.absorber && !p.repeat && (p.phase == Consumed || p.phase == Routing || p.phase == Checking || p.phase == Done)
      then 1 else 0
  }

  ghost predicate Ledger(s: Run) {
    && RepeatsExplained(s)
    && (forall n :: Sum(s.procs, First(n)) == if Consume(n) in s.counter.applied then 1 else 0)
  }

  lemma StepKeepsKeys(s: Run, e: Event)
    requires Enabled(s, e) && !e.Patch?
    ensures forall n :: Consume(n) in NextCounter(s, e).applied <==>
              Consume(n) in s.counter.applied || (e.ConsumeToken? && n == s.procs[e.i].node)
  {
  }

  lemma StepFirst(s: Run, e: Event, n: NodeId)
    requires Enabled(s, e) && !e.Patch? && WellFormed(s.procs[e.i])
    ensures Sum(Added(s, e), First(n)) == 0
    ensures First(n)(Advance(s, e)) - First(n)(s.procs[e.i])
         == if e.ConsumeToken? && n == s.procs[e.i].node && Consume(n) !in s.counter.applied then 1 else 0
  {
    if Added(s, e) != [] {
      SumSingle(Added(s, e)[0], First(n));
    }
  }

  ghost predicate RepeatsExplained(s: Run) {
    forall p :: p in s.procs ==> WellFormed(p) && (p.repeat ==> Consume(p.node) in s.counter.applied)
  }

  lemma StepKeepsRepeats(s: Run, e: Event)
    requires RepeatsExplained(s) && Enabled(s, e) && !e.Patch?
    ensures RepeatsExplained(Step(s, e))
  {
    var t := Step(s, e);
    StepKeepsKeys(s, e);
    StepKeepsShapes(s, e);
    assert s.procs[e.i] in s.procs;
    forall p | p in t.procs ensures p.repeat ==> Consume(p.node) in t.counter.applied {
      assert p in s.procs[e.i := Advance(s, e)] || p in Added(s, e);
      assert p in s.procs || p == Advance(s, e) || p in Added(s, e);
    }
  }

  lemma StepKeepsLedger(s: Run, e: Event)
    requires Ledger(s) && Enabled(s, e)
    ensures Ledger(Step(s, e))
  {
    if !e.Patch? {
      var t := Step(s, e);
      StepKeepsRepeats(s, e);
      assert s.procs[e.i] in s.procs;
      forall n ensures Sum(t.procs, First(n)) == if Consume(n) in t.counter.applied then 1 else 0 {
        StepKeepsKeys(s, e);
        StepFirst(s, e, n);
        SumStep(s, e, First(n));
      }
    }
  }

  lemma {:induction false} StartFirst(ir: IR, entries: seq<NodeId>, n: NodeId)
    ensures Sum(Start(ir, entries).procs, First(n)) == 0
  {
    if entries != [] {
      var init := entries[..|entries| - 1];
      StartFirst(ir, init, n);
      assert Start(ir, entries).procs[..|init|] == Start(ir, init).procs;
    }
  }

  lemma {:induction false} EveryRunKeepsLedger(ir: IR, entries: seq<NodeId>, ss: seq<Run>, es: seq<Event>, k: nat)
    requires IsRun(ir, entries, ss, es) && k < |ss|
    ensures Ledger(ss[k])
  {
    if k == 0 {
      forall n ensures Sum(ss[0].procs, First(n)) == 0 {
        StartFirst(ir, entries, n);
      }
    } else {
      EveryRunKeepsLedger(ir, entries, ss, es, k - 1);
      StepKeepsLedger(ss[k - 1], es[k - 1]);
    }
  }

  lemma {:induction false} SumPositive(ps: seq<Proc>, w: Proc -> int) returns (i: nat)
    requires Sum(ps, w) > 0
    ensures i < |ps| && w(ps[i]) > 0
  {
    var k := |ps| - 1;
    if w(ps[k]) > 0 {
      i := k;
    } else {
      i := SumPositive(ps[..k], w);
    }
  }

  /** A repeated consumption means that the node was activated before. */
  lemma RepeatMeansTwo(s: Run, i: nat)
    requires Ledger(s) && i < |s.procs| && s.procs[i].repeat
    ensures Count(s, s.procs[i].node) >= 2
  {
    var n := s.procs[i].node;
    assert s.procs[i] in s.procs;
    var j := SumPositive(s.procs, First(n));
    assert First(n)(s.procs[i]) == 0;
    if i < j {
      SumTwo(s.procs, At(n), i, j);
    } else {
      SumTwo(s.procs, At(n), j, i);
    }
  }

  ghost function RepeatedAt(n: NodeId): Proc -> int {
    (p: Proc) => if p.node == n && p.repeat then 1 else 0
  }

  lemma TwoMeansRepeat(s: Run, n: NodeId) returns (i: nat)
    requires Ledger(s) && Drained(s) && Count(s, n) >= 2
    requires forall p :: p in s.procs ==> !p.absorber
    ensures i < |s.procs| && s.procs[i].repeat
  {
    SumOfSum(s.procs, First(n), RepeatedAt(n), At(n));
    i := SumPositive(s.procs, RepeatedAt(n));
  }

  // ---- When a drained run leaves the counter at zero

  ghost predicate BranchFree(ir: IR) {
    forall n :: n in ir ==> !ir[n].BranchEnabled()
  }

  lemma DrainedPassed(ir: IR, f: seq<NodeId>, p: Proc, n: NodeId)
    requires Graph(ir, f) && BranchFree(ir) && Legal(ir, p) && p.phase == Done && n in ir
    ensures Passed(n)(p) == multiset(ir[n].dependencies)[p.node]
  {
    assert p.next == ir[p.node].dependents;
    assert p.next[..p.pos] == p.next;
  }

  lemma EntryActivated(ir: IR, entries: seq<NodeId>, s: Run, n: NodeId)
    requires EntryOrder(ir, entries) && Tracked(ir, entries, s) && n in ir && ir[n].dependencies == []
    ensures Count(s, n) >= 1
  {
    assert n in entries;
    Seqs.DistinctCount(entries, n);
    SumZero(s.procs, Passed(n));
  }

  lemma DependentActivated(ir: IR, f: seq<NodeId>, entries: seq<NodeId>, s: Run, u: NodeId, n: NodeId)
    requires Graph(ir, f) && BranchFree(ir) && Tracked(ir, entries, s) && Drained(s)
    requires n in ir && u in ir[n].dependencies && Count(s, u) >= 1
    ensures Count(s, n) >= 1
  {
    SumZero(s.procs, Passed(n));
    var i := SumPositive(s.procs, At(u));
    assert s.procs[i] in s.procs;
    assert Passed(n)(s.procs[i]) >= 1 by {
      DrainedPassed(ir, f, s.procs[i], n);
      assert u in multiset(ir[n].dependencies);
    }
    SumOne(s.procs, Passed(n), i);
  }

  lemma {:induction false} EveryNodeActivated(ir: IR, f: seq<NodeId>, entries: seq<NodeId>, s: Run, n: NodeId)
    requires Graph(ir, f) && BranchFree(ir) && EntryOrder(ir, entries) && Tracked(ir, entries, s) && Drained(s) && n in ir
    ensures Count(s, n) >= 1
    decreases |f| - CycleCheck.Rank(f, n)
  {
    if ir[n].dependencies == [] {
      EntryActivated(ir, entries, s, n);
    } else {
      var u := ir[n].dependencies[0];
      assert u in ir && n in ir[u].dependents;
      EveryNodeActivated(ir, f, entries, s, u);
      DependentActivated(ir, f, entries, s, u, n);
    }
  }

  lemma ParentPassed(ir: IR, f: seq<NodeId>, entries: seq<NodeId>, s: Run, n: NodeId, u: NodeId) returns (i: nat)
    requires Graph(ir, f) && BranchFree(ir) && EntryOrder(ir, entries) && Tracked(ir, entries, s) && Drained(s)
    requires n in ir && u in ir[n].dependencies
    ensures i < |s.procs| && s.procs[i].node == u && Passed(n)(s.procs[i]) == multiset(ir[n].dependencies)[u]
  {
    assert u in ir;
    EveryNodeActivated(ir, f, entries, s, u);
    i := SumPositive(s.procs, At(u));
    assert s.procs[i] in s.procs;
    DrainedPassed(ir, f, s.procs[i], n);
  }

  lemma FirstTwo(deps: seq<NodeId>)
    requires |deps| >= 2
    ensures if deps[0] == deps[1] then multiset(deps)[deps[0]] >= 2 else multiset(deps)[deps[0]] >= 1 && multiset(deps)[deps[1]] >= 1
  {
    assert deps == [deps[0], deps[1]] + deps[2..];
  }

  lemma PassedTwice(ps: seq<Proc>, n: NodeId, i: nat, j: nat)
    requires i < |ps| && j < |ps| && forall p :: p in ps ==> Passed(n)(p) >= 0
    requires if i == j then Passed(n)(ps[i]) >= 2 else Passed(n)(ps[i]) >= 1 && Passed(n)(ps[j]) >= 1
    ensures Sum(ps, Passed(n)) >= 2
  {
    if i == j {
      SumOne(ps, Passed(n), i);
    } else if i < j {
      SumTwo(ps, Passed(n), i, j);
    } else {
      SumTwo(ps, Passed(n), j, i);
    }
  }

  lemma JoinActivatedTwice(ir: IR, f: seq<NodeId>, entries: seq<NodeId>, s: Run, n: NodeId)
    requires Graph(ir, f) && BranchFree(ir) && EntryOrder(ir, entries) && Tracked(ir, entries, s) && Drained(s)
    requires n in ir && |ir[n].dependencies| >= 2
    ensures Count(s, n) >= 2
  {
    var deps := ir[n].dependencies;
    FirstTwo(deps);
    var i := ParentPassed(ir, f, entries, s, n, deps[0]);
    if deps[0] == deps[1] {
      PassedTwice(s.procs, n, i, i);
    } else {
      var j := ParentPassed(ir, f, entries, s, n, deps[1]);
      PassedTwice(s.procs, n, i, j);
    }
  }

  lemma NoAbsorbers(ir: IR, ps: seq<Proc>)
    requires LoopFree(ir) && BranchFree(ir) && forall p :: p in ps ==> Legal(ir, p)
    ensures forall p :: p in ps ==> !p.absorber
  {
  }

  lemma ForestHasNoRepeats(ir: IR, f: seq<NodeId>, entries: seq<NodeId>, s: Run)
    requires Graph(ir, f) && Forest(ir) && EntryOrder(ir, entries) && Tracked(ir, entries, s) && Ledger(s)
    ensures forall p :: p in s.procs ==> !p.repeat
  {
    forall i | 0 <= i < |s.procs| ensures !s.procs[i].repeat {
      assert s.procs[i] in s.procs;
      CountAtMostOne(ir, f, entries, s, s.procs[i].node);
      if s.procs[i].repeat {
        RepeatMeansTwo(s, i);
      }
    }
  }

  // ---- Conservation on forests

  ghost predicate NoAbsorberEdges(ir: IR) {
    forall u, v :: u in ir && ir[u].IsAbsorber() && v in ir[u].dependents && v in ir ==> !ir[v].IsAbsorber()
  }

  lemma {:induction false} AllTokens(ir: IR, ns: seq<NodeId>)
    requires forall m :: m in ns ==> m in ir && !ir[m].IsAbsorber()
    ensures Tokens(ir, ns) == |ns|
  {
    if ns != [] {
      assert ns[|ns| - 1] in ns;
      AllTokens(ir, ns[..|ns| - 1]);
    }
  }

  lemma NoPhantom(ir: IR, p: Proc)
    requires Closed(ir) && NoAbsorberEdges(ir) && Legal(ir, p)
    requires forall u, next :: u in ir && ControlFlow.CanRoute(ir[u], next) ==> multiset(next) <= multiset(ir[u].dependents)
    ensures Phantom(p) == 0
  {
    if p.absorber && p.phase == Done {
      forall m | m in p.next ensures m in ir && !ir[m].IsAbsorber() {
        assert m in multiset(p.next);
        assert m in multiset(ir[p.node].dependents);
        assert m in ir[p.node].dependents;
      }
      AllTokens(ir, p.next);
    }
  }

  lemma NoneMiscounted(ir: IR, f: seq<NodeId>, entries: seq<NodeId>, s: Run)
    requires Graph(ir, f) && Forest(ir) && NoAbsorberEdges(ir) && EntryOrder(ir, entries) && Tracked(ir, entries, s) && Ledger(s)
    ensures forall p :: p in s.procs ==> Repeated(p) == 0 && Phantom(p) == 0
  {
    ForestHasNoRepeats(ir, f, entries, s);
    forall p | p in s.procs ensures Phantom(p) == 0 {
      NoPhantom(ir, p);
    }
  }

  /** On an accepted loop-free forest in which no absorber leads to another, in every state of every
      interleaving: counter + published but uncounted tokens = outstanding + failed tokens. */
  lemma ForestConservation(schema: Compiler.Schema, ir: IR, entries: seq<NodeId>, ss: seq<Run>, es: seq<Event>, k: nat)
    requires Compiler.Compiled(schema, ir) && Compiler.Accepted(ir) && LoopFree(ir) && Forest(ir) && NoAbsorberEdges(ir)
    requires EntryOrder(ir, entries) && IsRun(ir, entries, ss, es) && Quiet(es) && k < |ss|
    ensures ss[k].counter.value + Sum(ss[k].procs, Unemitted) == Sum(ss[k].procs, Live) + Sum(ss[k].procs, Stuck)
  {
    var s := ss[k];
    assert s.redelivered == 0 && forall p :: p in s.procs ==> Repeated(p) == 0 && Phantom(p) == 0 by {
      var f := CompiledGraph(schema, ir);
      QuietRunTracks(ir, entries, ss, es, k);
      EveryRunKeepsLedger(ir, entries, ss, es, k);
      NoneMiscounted(ir, f, entries, s);
    }
    SumAllZero(s.procs, Repeated);
    SumAllZero(s.procs, Phantom);
    TokenConservation(ir, entries, ss, es, k);
  }

  lemma DrainedCleanIfForest(ir: IR, f: seq<NodeId>, entries: seq<NodeId>, s: Run)
    requires Graph(ir, f) && BranchFree(ir) && EntryOrder(ir, entries) && Tracked(ir, entries, s) && Ledger(s) && Drained(s)
    requires Forest(ir)
    ensures forall p :: p in s.procs ==> Clean(p)
  {
    NoAbsorbers(ir, s.procs);
    ForestHasNoRepeats(ir, f, entries, s);
  }

  lemma DrainedLeaksUnlessForest(ir: IR, f: seq<NodeId>, entries: seq<NodeId>, s: Run) returns (p: Proc)
    requires Graph(ir, f) && BranchFree(ir) && EntryOrder(ir, entries) && Tracked(ir, entries, s) && Ledger(s) && Drained(s)
    requires !Forest(ir)
    ensures p in s.procs && !Clean(p)
  {
    var n :| n in ir && |ir[n].dependencies| > 1;
    JoinActivatedTwice(ir, f, entries, s, n);
    NoAbsorbers(ir, s.procs);
    var i := TwoMeansRepeat(s, n);
    p := s.procs[i];
  }

  /** A fully drained run of a branch-free, loop-free workflow leaves the counter at zero exactly
      when no node has two dependencies: a join consumes its key once and leaks the rest. */
  lemma DrainedZeroIffForest(schema: Compiler.Schema, ir: IR, entries: seq<NodeId>, ss: seq<Run>, es: seq<Event>)
    requires Compiler.Compiled(schema, ir) && Compiler.Accepted(ir) && LoopFree(ir) && BranchFree(ir) && EntryOrder(ir, entries)
    requires IsRun(ir, entries, ss, es) && Quiet(es) && Drained(ss[|es|])
    ensures ss[|es|].counter.value == 0 <==> Forest(ir)
  {
    assert (forall p :: p in ss[|es|].procs ==> Clean(p)) <==> Forest(ir) by {
      var f := CompiledGraph(schema, ir);
      QuietRunTracks(ir, entries, ss, es, |es|);
      EveryRunKeepsLedger(ir, entries, ss, es, |es|);
      if Forest(ir) {
        DrainedCleanIfForest(ir, f, entries, ss[|es|]);
      } else {
        var p := DrainedLeaksUnlessForest(ir, f, entries, ss[|es|]);
      }
    }
    assert ss[|es|].redelivered == 0 by {
      QuietRunTracks(ir, entries, ss, es, |es|);
    }
    ZeroIffClean(ir, entries, ss, es, |es|);
  }

  // ---- Handlers run one at a time

  /** A handler between consuming its token and its final check. */
  predicate Mid(p: Proc) {
    p.phase == Consumed || p.phase == Routing || p.phase == Checking
  }

  /** While a handler is under way only that handler steps. */
  ghost predicate Serial(ss: seq<Run>, es: seq<Event>) {
    |es| < |ss| &&
    forall k, j :: 0 <= k < |es| && 0 <= j < |ss[k].procs| && !es[k].Patch? && Mid(ss[k].procs[j]) ==> es[k].i == j
  }

  ghost predicate OneMid(s: Run) {
    forall i, j :: 0 <= i < j < |s.procs| ==> !(Mid(s.procs[i]) && Mid(s.procs[j]))
  }

  lemma StepKeepsOneMid(s: Run, e: Event)
    requires OneMid(s) && Enabled(s, e) && !e.Patch?
    requires forall j :: 0 <= j < |s.procs| && Mid(s.procs[j]) ==> e.i == j
    ensures OneMid(Step(s, e))
  {
    assert forall q :: q in Added(s, e) ==> !Mid(q);
    var t := Step(s, e);
    forall j | 0 <= j < |t.procs| ensures Mid(t.procs[j]) ==> j == e.i {
      if j >= |s.procs| {
        assert t.procs[j] in Added(s, e);
      }
    }
  }

  lemma {:induction false} SerialRunHasOneMid(ir: IR, entries: seq<NodeId>, ss: seq<Run>, es: seq<Event>, k: nat)
    requires IsRun(ir, entries, ss, es) && Serial(ss, es) && k < |ss|
    ensures OneMid(ss[k])
  {
    if k > 0 {
      SerialRunHasOneMid(ir, entries, ss, es, k - 1);
      if !es[k - 1].Patch? {
        StepKeepsOneMid(ss[k - 1], es[k - 1]);
      }
    }
  }

  /** With serial handlers and no redelivered signal, COMPLETED is recorded only when every token
      has been consumed and no node has failed, on any graph. */
  lemma CompletedWithoutTokens(ir: IR, entries: seq<NodeId>, ss: seq<Run>, es: seq<Event>, k: nat)
    requires IsRun(ir, entries, ss, es) && Serial(ss, es) && k < |es|
    requires ss[k].redelivered == 0 && Records(ss[k], es[k])
    ensures forall p :: p in ss[k].procs ==> Clean(p)
    ensures forall j :: 0 <= j < |ss[k].procs| && j != es[k].i ==> ss[k].procs[j].phase == Done || ss[k].procs[j].phase == Absorbing
  {
    var s, i := ss[k], es[k].i;
    SerialRunHasOneMid(ir, entries, ss, es, k);
    forall j | 0 <= j < |s.procs| ensures Unemitted(s.procs[j]) == 0 && (j != i ==> !Mid(s.procs[j])) {
      if j != i {
        assert !Mid(s.procs[j]);
      }
    }
    ZeroIffClean(ir, entries, ss, es, k);
    forall j | 0 <= j < |s.procs| && j != i ensures s.procs[j].phase == Done || s.procs[j].phase == Absorbing {
      assert s.procs[j] in s.procs;
      assert Clean(s.procs[j]);
    }
  }

  ghost predicate OtherWork(s: Run, i: nat) {
    exists j :: 0 <= j < |s.procs| && j != i && Unfinished(s.procs[j])
  }

  ghost predicate AbsorberPending(s: Run) {
    exists j :: 0 <= j < |s.procs| && s.procs[j].phase == Absorbing
  }

  /** With serial handlers, COMPLETED is recorded with other work left if and only if an absorber
      has been started and has not routed yet. */
  lemma SerialEarlyIffAbsorberPending(ir: IR, entries: seq<NodeId>, ss: seq<Run>, es: seq<Event>, k: nat)
    requires IsRun(ir, entries, ss, es) && Serial(ss, es) && k < |es|
    requires ss[k].redelivered == 0 && Records(ss[k], es[k])
    ensures OtherWork(ss[k], es[k].i) <==> AbsorberPending(ss[k])
  {
    CompletedWithoutTokens(ir, entries, ss, es, k);
    var s := ss[k];
    if AbsorberPending(s) {
      var j :| 0 <= j < |s.procs| && s.procs[j].phase == Absorbing;
      assert j != es[k].i && Unfinished(s.procs[j]);
    }
  }

  /** So on a workflow without absorbers nothing at all is left when COMPLETED is recorded. */
  lemma CompletedOnlyWhenIdle(ir: IR, entries: seq<NodeId>, ss: seq<Run>, es: seq<Event>, k: nat)
    requires IsRun(ir, entries, ss, es) && Quiet(es) && EntryOrder(ir, entries) && Serial(ss, es) && k < |es|
    requires Records(ss[k], es[k]) && forall n :: n in ir ==> !ir[n].IsAbsorber()
    ensures OthersDone(ss[k], es[k].i)
  {
    var s := ss[k];
    assert s.redelivered == 0 && forall p :: p in s.procs ==> Legal(ir, p) by {
      QuietRunTracks(ir, entries, ss, es, k);
    }
    CompletedWithoutTokens(ir, entries, ss, es, k);
    forall j | 0 <= j < |s.procs| ensures s.procs[j].phase != Absorbing {
      assert s.procs[j] in s.procs;
    }
  }

  // ---- Exactly once, at the last token

  /** A token no worker has finished yet. */
  predicate Untouched(p: Proc) {
    p.phase == InStream || p.phase == Skipping
  }

  /** A handler that has routed to some node leaves a token nobody has touched. */
  ghost predicate Covered(s: Run) {
    (exists i :: 0 <= i < |s.procs| && Mid(s.procs[i]) && s.procs[i].pos > 0) ==>
      exists j :: 0 <= j < |s.procs| && Untouched(s.procs[j])
  }

  lemma StepKeepsCovered(ir: IR, s: Run, e: Event)
    requires Covered(s) && Enabled(s, e) && !e.Patch? && !e.Redeliver? && LoopFree(ir) && BranchFree(ir)
    requires forall p :: p in s.procs ==> Legal(ir, p) && forall m :: m in p.next ==> m in ir
    requires forall j :: 0 <= j < |s.procs| && Mid(s.procs[j]) ==> e.i == j
    ensures Covered(Step(s, e))
  {
    var t, p := Step(s, e), s.procs[e.i];
    assert p in s.procs;
    if i :| 0 <= i < |t.procs| && Mid(t.procs[i]) && t.procs[i].pos > 0 {
      if e.Route? {
        assert p.next[p.pos] in p.next;
        assert t.procs[|s.procs|] == Spawn(p.ir, p.next[p.pos]);
        assert Untouched(t.procs[|s.procs|]);
      } else {
        QuietStepShape(s, e);
        assert i == e.i && Mid(p) && p.pos > 0;
        var j :| 0 <= j < |s.procs| && Untouched(s.procs[j]);
        assert t.procs[j] == s.procs[j];
      }
    }
  }

  /** The workflows and runs of the exact completion theorem. */
  ghost predicate SerialForestRun(ir: IR, f: seq<NodeId>, entries: seq<NodeId>, ss: seq<Run>, es: seq<Event>) {
    && Graph(ir, f) && Forest(ir) && BranchFree(ir) && Reachability.TerminalsFlagged(ir)
    && EntryOrder(ir, entries) && entries != []
    && IsRun(ir, entries, ss, es) && Quiet(es) && Serial(ss, es)
  }

  lemma NextNodesExist(ir: IR, f: seq<NodeId>, ps: seq<Proc>)
    requires Graph(ir, f) && forall p :: p in ps ==> Legal(ir, p)
    ensures forall p, m :: p in ps && m in p.next ==> m in ir
  {
    forall p, m | p in ps && m in p.next ensures m in ir {
      assert m in multiset(p.next);
      assert m in multiset(ir[p.node].dependents);
    }
  }

  lemma {:induction false} RunStaysCovered(ir: IR, f: seq<NodeId>, entries: seq<NodeId>, ss: seq<Run>, es: seq<Event>, k: nat)
    requires SerialForestRun(ir, f, entries, ss, es) && k < |ss|
    ensures Covered(ss[k])
  {
    if k > 0 {
      RunStaysCovered(ir, f, entries, ss, es, k - 1);
      var s, e := ss[k - 1], es[k - 1];
      assert e in es;
      assert s.ir == ir && forall p :: p in s.procs ==> Legal(ir, p) by {
        QuietRunTracks(ir, entries, ss, es, k - 1);
      }
      NextNodesExist(ir, f, s.procs);
      StepKeepsCovered(ir, s, e);
    }
  }

  ghost predicate OthersDone(s: Run, i: nat) {
    forall j :: 0 <= j < |s.procs| && j != i ==> s.procs[j].phase == Done
  }

  lemma LastCheckIsTerminal(ir: IR, f: seq<NodeId>, entries: seq<NodeId>, ss: seq<Run>, es: seq<Event>, k: nat)
    requires SerialForestRun(ir, f, entries, ss, es) && k < |es| && es[k].Check? && OthersDone(ss[k], es[k].i)
    ensures var p := ss[k].procs[es[k].i]; p.node in ir && ir[p.node].isTerminal
  {
    var s, p := ss[k], ss[k].procs[es[k].i];
    assert Legal(ir, p) by {
      QuietRunTracks(ir, entries, ss, es, k);
      assert p in s.procs;
    }
    assert p.next == ir[p.node].dependents && p.pos == |p.next|;
    assert p.pos == 0 by {
      RunStaysCovered(ir, f, entries, ss, es, k);
      assert forall j :: 0 <= j < |s.procs| ==> !Untouched(s.procs[j]);
      assert Mid(s.procs[es[k].i]);
    }
  }

  lemma LastIsClean(s: Run, i: nat)
    requires i < |s.procs| && s.procs[i].phase == Checking && OthersDone(s, i) && forall p :: p in s.procs ==> !p.repeat && !p.absorber
    ensures forall p :: p in s.procs ==> Unemitted(p) == 0 && Clean(p)
  {
    forall p | p in s.procs ensures Unemitted(p) == 0 && Clean(p) {
      var j :| 0 <= j < |s.procs| && s.procs[j] == p;
    }
  }

  lemma LastCheckReadsZero(ir: IR, f: seq<NodeId>, entries: seq<NodeId>, ss: seq<Run>, es: seq<Event>, k: nat)
    requires SerialForestRun(ir, f, entries, ss, es) && k < |es| && es[k].Check? && OthersDone(ss[k], es[k].i)
    ensures ss[k].counter.value == 0
  {
    var s := ss[k];
    assert s.redelivered == 0 && forall p :: p in s.procs ==> !p.absorber && !p.repeat by {
      QuietRunTracks(ir, entries, ss, es, k);
      EveryRunKeepsLedger(ir, entries, ss, es, k);
      NoAbsorbers(ir, s.procs);
      ForestHasNoRepeats(ir, f, entries, s);
    }
    LastIsClean(s, es[k].i);
    ZeroIffClean(ir, entries, ss, es, k);
  }

  /** A terminal check records COMPLETED exactly when it is the last activation of the run. */
  lemma CheckRecordsIffLast(ir: IR, f: seq<NodeId>, entries: seq<NodeId>, ss: seq<Run>, es: seq<Event>, k: nat)
    requires SerialForestRun(ir, f, entries, ss, es) && k < |es| && es[k].Check?
    ensures Records(ss[k], es[k]) <==> OthersDone(ss[k], es[k].i)
  {
    var s := ss[k];
    assert s.procs[es[k].i].ir == ir by {
      QuietRunTracks(ir, entries, ss, es, k);
      assert s.procs[es[k].i] in s.procs;
    }
    if OthersDone(s, es[k].i) {
      LastCheckIsTerminal(ir, f, entries, ss, es, k);
      LastCheckReadsZero(ir, f, entries, ss, es, k);
    }
    if Records(s, es[k]) {
      CompletedOnlyWhenIdle(ir, entries, ss, es, k);
    }
  }

  lemma OnlyChecksFinish(ir: IR, s: Run, e: Event)
    requires LoopFree(ir) && BranchFree(ir) && s.ir == ir && forall p :: p in s.procs ==> Legal(ir, p)
    requires Enabled(s, e) && !e.Patch? && !e.Redeliver?
    ensures !Drained(s)
    ensures !e.Check? ==> !Drained(Step(s, e)) && !Records(s, e)
    ensures e.Check? ==> (Drained(Step(s, e)) <==> OthersDone(s, e.i))
  {
    var t := Step(s, e);
    assert s.procs[e.i] in s.procs && t.procs[e.i] in t.procs;
    assert s.procs[e.i].phase != Done;
    if e.Check? {
      assert t.procs == s.procs[e.i := Advance(s, e)];
      if OthersDone(s, e.i) {
        forall p | p in t.procs ensures p.phase == Done {
          var j :| 0 <= j < |t.procs| && t.procs[j] == p;
        }
      } else {
        var j :| 0 <= j < |s.procs| && j != e.i && s.procs[j].phase != Done;
        assert t.procs[j] in t.procs;
      }
    }
  }

  lemma StepMatchesDraining(ir: IR, f: seq<NodeId>, entries: seq<NodeId>, ss: seq<Run>, es: seq<Event>, k: nat)
    requires SerialForestRun(ir, f, entries, ss, es) && k < |es|
    ensures !Drained(ss[k])
    ensures ss[k + 1].completions == ss[k].completions + if Drained(ss[k + 1]) then 1 else 0
  {
    assert es[k] in es;
    assert ss[k].ir == ir && forall p :: p in ss[k].procs ==> Legal(ir, p) by {
      QuietRunTracks(ir, entries, ss, es, k);
    }
    OnlyChecksFinish(ir, ss[k], es[k]);
    if es[k].Check? {
      CheckRecordsIffLast(ir, f, entries, ss, es, k);
    }
  }

  lemma {:induction false} CompletionsMatchDraining(ir: IR, f: seq<NodeId>, entries: seq<NodeId>, ss: seq<Run>, es: seq<Event>, k: nat)
    requires SerialForestRun(ir, f, entries, ss, es) && k < |ss|
    ensures ss[k].completions == if Drained(ss[k]) then 1 else 0
  {
    if k == 0 {
      assert ss[0].procs[0] in ss[0].procs;
    } else {
      StepMatchesDraining(ir, f, entries, ss, es, k - 1);
      CompletionsMatchDraining(ir, f, entries, ss, es, k - 1);
    }
  }

  /** On a branch-free, loop-free forest with serial handlers, COMPLETED is recorded exactly once,
      by the step that finishes the last activation, and never in a run with a failed node. */
  lemma CompletedExactlyWhenDrained(schema: Compiler.Schema, ir: IR, entries: seq<NodeId>, ss: seq<Run>, es: seq<Event>, k: nat)
    requires Compiler.Compiled(schema, ir) && Compiler.Accepted(ir) && LoopFree(ir) && BranchFree(ir) && Forest(ir)
    requires EntryOrder(ir, entries) && IsRun(ir, entries, ss, es) && Quiet(es) && Serial(ss, es) && k < |ss|
    ensures ss[k].completions == if Drained(ss[k]) then 1 else 0
  {
    var f := CompiledGraph(schema, ir);
    Reachability.CompiledFlagsTerminals(schema, ir);
    assert entries != [] by {
      var n :| n in ir && |ir[n].dependencies| == 0;
      assert n in entries;
    }
    CompletionsMatchDraining(ir, f, entries, ss, es, k);
  }
}
