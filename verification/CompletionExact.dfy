/** When interleaved handlers record COMPLETED exactly once. On branch-free, loop-free forests the
    record can be missed as soon as some node has a dependent, and doubled as soon as there are two
    terminal nodes, and in no other case. */
module CompletionExact {
  import opened WorkflowIR
  import opened Coordinator
  import opened Activations
  import opened Completion
  import opened Schedules
  import Compiler
  import CycleCheck
  import Reachability
  import Seqs

  // ---- What a settled run has done

  ghost predicate Routed(p: Proc) {
    (p.phase == Routing || p.phase == Checking || p.phase == Done) && p.pos == |p.next|
  }

  lemma RoutedPassed(ir: IR, f: seq<NodeId>, p: Proc, n: NodeId)
    requires Graph(ir, f) && BranchFree(ir) && Legal(ir, p) && Routed(p) && n in ir
    ensures Passed(n)(p) == multiset(ir[n].dependencies)[p.node]
  {
    assert p.next == ir[p.node].dependents;
    assert p.next[..p.pos] == p.next;
  }

  /** A set that holds every dependency of its members, all of whose activations have routed. */
  ghost predicate Upward(ir: IR, s: Run, up: set<NodeId>) {
    && up <= ir.Keys
    && forall m, d :: m in up && d in ir[m].dependencies ==> d in up && forall p :: p in s.procs && p.node == d ==> Routed(p)
  }

  lemma {:induction false} Activated(ir: IR, f: seq<NodeId>, entries: seq<NodeId>, s: Run, up: set<NodeId>, n: NodeId)
    requires Graph(ir, f) && BranchFree(ir) && EntryOrder(ir, entries) && Tracked(ir, entries, s) && Upward(ir, s, up) && n in up
    ensures Count(s, n) >= 1
    decreases |f| - CycleCheck.Rank(f, n)
  {
    Seqs.DistinctCount(entries, n);
    SumZero(s.procs, Passed(n));
    if ir[n].dependencies == [] {
      assert n in entries;
    } else {
      var u := ir[n].dependencies[0];
      assert u in ir[n].dependencies;
      assert u in ir && n in ir[u].dependents;
      Activated(ir, f, entries, s, up, u);
      var i := SumPositive(s.procs, At(u));
      assert s.procs[i] in s.procs;
      RoutedPassed(ir, f, s.procs[i], n);
      assert u in multiset(ir[n].dependencies);
      SumOne(s.procs, Passed(n), i);
    }
  }

  lemma ActivationOf(ir: IR, f: seq<NodeId>, entries: seq<NodeId>, s: Run, up: set<NodeId>, n: NodeId) returns (i: nat)
    requires Graph(ir, f) && BranchFree(ir) && EntryOrder(ir, entries) && Tracked(ir, entries, s) && Upward(ir, s, up) && n in up
    ensures i < |s.procs| && s.procs[i].node == n
  {
    Activated(ir, f, entries, s, up, n);
    i := SumPositive(s.procs, At(n));
  }

  /** If nothing is held before routing, every activation has routed. */
  lemma SettledIsRouted(ir: IR, hold: Hold, s: Run)
    requires Compiler.Wired(ir) && !hold.HoldRoute? && forall p :: p in s.procs ==> Legal(ir, p) && Settled(ir, hold, p)
    ensures Upward(ir, s, ir.Keys)
  {
  }

  /** The counter of a settled run comes from the held node alone. */
  lemma SettledDebt(ir: IR, hold: Hold, p: Proc)
    requires LoopFree(ir) && BranchFree(ir) && Legal(ir, p) && Settled(ir, hold, p) && Kept(ir, hold, p) && !p.repeat
    ensures Debt(p) + (if hold == HoldEmit(p.node) then Tokens(ir, ir[p.node].dependents) else 0) == 0
  {
    assert p.next[..|p.next|] == p.next;
  }

  ghost predicate Plain(schema: Compiler.Schema, ir: IR) {
    && Compiler.Compiled(schema, ir) && Compiler.Accepted(ir) && LoopFree(ir) && BranchFree(ir) && Forest(ir)
  }

  lemma SettledFacts(ir: IR, f: seq<NodeId>, hold: Hold, entries: seq<NodeId>, ss: seq<Run>, es: seq<Event>)
    requires Graph(ir, f) && BranchFree(ir) && Forest(ir) && SettledRun(ir, hold, entries, ss, es)
    ensures Tracked(ir, entries, ss[|es|]) && forall p :: p in ss[|es|].procs ==> !p.repeat
    ensures ss[|es|].counter.value == Sum(ss[|es|].procs, Debt)
  {
    QuietRunTracks(ir, entries, ss, es, |es|);
    EveryRunKeepsLedger(ir, entries, ss, es, |es|);
    ForestHasNoRepeats(ir, f, entries, ss[|es|]);
    EveryRunConserves(ir, entries, ss, es, |es|);
  }

  lemma FreeCounterIsZero(ir: IR, f: seq<NodeId>, entries: seq<NodeId>, ss: seq<Run>, es: seq<Event>)
    requires Graph(ir, f) && BranchFree(ir) && Forest(ir) && SettledRun(ir, Free, entries, ss, es)
    ensures ss[|es|].counter.value == 0
  {
    var s := ss[|es|];
    SettledFacts(ir, f, Free, entries, ss, es);
    forall p | p in s.procs ensures Debt(p) == 0 {
      SettledDebt(ir, Free, p);
    }
    SumAllZero(s.procs, Debt);
  }

  lemma {:induction false} SumNegative(ps: seq<Proc>, w: Proc -> int, i: nat)
    requires i < |ps| && w(ps[i]) < 0 && forall p :: p in ps ==> w(p) <= 0
    ensures Sum(ps, w) < 0
  {
    var init, last := ps[..|ps| - 1], ps[|ps| - 1];
    assert last in ps;
    if i < |ps| - 1 {
      SumNegative(init, w, i);
    } else {
      SumNonPositive(init, w);
    }
  }

  lemma {:induction false} SumNonPositive(ps: seq<Proc>, w: Proc -> int)
    requires forall p :: p in ps ==> w(p) <= 0
    ensures Sum(ps, w) <= 0
  {
    if ps != [] {
      assert ps[|ps| - 1] in ps;
      SumNonPositive(ps[..|ps| - 1], w);
    }
  }

  /** With the emission of a node held back, the counter is too low by its dependents. */
  lemma HeldCounterIsNegative(ir: IR, f: seq<NodeId>, a: NodeId, entries: seq<NodeId>, ss: seq<Run>, es: seq<Event>)
    requires Graph(ir, f) && BranchFree(ir) && Forest(ir) && SettledRun(ir, HoldEmit(a), entries, ss, es)
    requires a in ir && ir[a].dependents != []
    ensures ss[|es|].counter.value < 0
  {
    var s := ss[|es|];
    SettledFacts(ir, f, HoldEmit(a), entries, ss, es);
    SettledIsRouted(ir, HoldEmit(a), s);
    var i := ActivationOf(ir, f, entries, s, ir.Keys, a);
    forall p | p in s.procs ensures Debt(p) <= 0 && (p.node == a ==> Debt(p) < 0) {
      SettledDebt(ir, HoldEmit(a), p);
      DependentsAreTokens(ir, p.node);
    }
    assert s.procs[i] in s.procs;
    SumNegative(s.procs, Debt, i);
  }

  lemma DependentsAreTokens(ir: IR, n: NodeId)
    requires LoopFree(ir) && BranchFree(ir) && Closed(ir) && n in ir
    ensures Tokens(ir, ir[n].dependents) == |ir[n].dependents|
  {
    AllTokens(ir, ir[n].dependents);
  }

  // ---- Terminal checks, one after the other

  ghost function Checks(): Policy {
    (s: Run, e: Event) => e.Check?
  }

  /** The held node stays where it is held. */
  ghost predicate Waits(ir: IR, hold: Hold, p: Proc) {
    && Settled(ir, hold, p)
    && (hold == HoldEmit(p.node) ==> p.phase == Routing)
    && (hold == HoldRoute(p.node) ==> p.phase == Consumed)
  }

  /** Checks change nothing but phases, unless the counter is zero. */
  lemma {:induction false} ChecksKeep(ir: IR, hold: Hold, ss: seq<Run>, es: seq<Event>, from: nat, k: nat)
    requires IsTrace(ss, es) && from <= k < |ss| && Obeys(Checks(), ss, es, from)
    requires forall p :: p in ss[from].procs ==> Waits(ir, hold, p)
    ensures ss[k].counter == ss[from].counter && forall p :: p in ss[k].procs ==> Waits(ir, hold, p)
    ensures ss[from].counter.value != 0 ==> ss[k].completions == ss[from].completions
  {
    if k > from {
      ChecksKeep(ir, hold, ss, es, from, k - 1);
      var s, e := ss[k - 1], es[k - 1];
      assert Checks()(s, e) && ss[k] == Step(s, e);
      assert s.procs[e.i] in s.procs;
      forall p | p in ss[k].procs ensures Waits(ir, hold, p) {
        assert p in s.procs || p == Advance(s, e);
      }
    }
  }

  lemma CheckingCanCheck(ir: IR, s: Run, i: nat)
    requires i < |s.procs| && Legal(ir, s.procs[i])
    ensures s.procs[i].phase == Checking ==> Enabled(s, Check(i)) && Checks()(s, Check(i))
  {
  }

  lemma FinishChecks(ir: IR, hold: Hold, entries: seq<NodeId>, limit: nat, ss: seq<Run>, es: seq<Event>) returns (ss': seq<Run>, es': seq<Event>)
    requires SettledRun(ir, hold, entries, ss, es) && Bounds(ir, limit)
    ensures QuietRun(ir, entries, ss', es') && ss'[|es'|].counter == ss[|es|].counter
    ensures forall p :: p in ss'[|es'|].procs ==> Waits(ir, hold, p) && p.phase != Checking
    ensures ss[|es|].counter.value != 0 ==> ss'[|es'|].completions == 0
  {
    ss', es' := Exhaust(ir, entries, Checks(), limit, ss, es, |es|);
    assert ss'[|es|] == ss[|es|];
    ChecksKeep(ir, hold, ss', es', |es|, |es'|);
    assert forall p :: p in ss'[|es'|].procs ==> Legal(ir, p) by {
      QuietRunTracks(ir, entries, ss', es', |es'|);
    }
    var s := ss'[|es'|];
    forall p | p in s.procs ensures p.phase != Checking {
      var i :| 0 <= i < |s.procs| && s.procs[i] == p;
      CheckingCanCheck(ir, s, i);
    }
  }

  /** Every accepted loop-free, branch-free workflow can run to the end. */
  lemma DrainedRunExists(schema: Compiler.Schema, ir: IR) returns (entries: seq<NodeId>, ss: seq<Run>, es: seq<Event>)
    requires Compiler.Compiled(schema, ir) && Compiler.Accepted(ir) && LoopFree(ir) && BranchFree(ir)
    ensures QuietRun(ir, entries, ss, es) && Drained(ss[|es|])
  {
    var limit := LoopFreeRunsEnd(schema, ir);
    entries, ss, es := SettledRunExists(ir, Free, limit);
    ss, es := FinishChecks(ir, Free, entries, limit, ss, es);
  }

  /** A workflow with a join has a drained run, and its counter is not zero. */
  lemma LeakingRun(schema: Compiler.Schema, ir: IR) returns (entries: seq<NodeId>, ss: seq<Run>, es: seq<Event>)
    requires Compiler.Compiled(schema, ir) && Compiler.Accepted(ir) && LoopFree(ir) && BranchFree(ir) && !Forest(ir)
    ensures QuietRun(ir, entries, ss, es) && Drained(ss[|es|]) && ss[|es|].counter.value != 0
  {
    entries, ss, es := DrainedRunExists(schema, ir);
    DrainedZeroIffForest(schema, ir, entries, ss, es);
  }

  /** The counter is zero at the end of every drained run if and only if no node has two
      dependencies. */
  lemma NeverLeaksIff(schema: Compiler.Schema, ir: IR)
    requires Compiler.Compiled(schema, ir) && Compiler.Accepted(ir) && LoopFree(ir) && BranchFree(ir)
    ensures (forall entries: seq<NodeId>, ss: seq<Run>, es: seq<Event> :: QuietRun(ir, entries, ss, es) && Drained(ss[|es|]) ==> ss[|es|].counter.value == 0)
       <==> Forest(ir)
  {
    if Forest(ir) {
      forall entries: seq<NodeId>, ss: seq<Run>, es: seq<Event> | QuietRun(ir, entries, ss, es) && Drained(ss[|es|]) ensures ss[|es|].counter.value == 0 {
        DrainedZeroIffForest(schema, ir, entries, ss, es);
      }
    } else {
      var entries, ss, es := LeakingRun(schema, ir);
      assert QuietRun(ir, entries, ss, es) && Drained(ss[|es|]);
    }
  }

  // ---- Missed

  ghost predicate LastToEmit(ir: IR, s: Run, i: nat) {
    && i < |s.procs| && s.procs[i].phase == Routing && s.procs[i].pos == |s.procs[i].next| && !s.procs[i].absorber
    && s.procs[i].ir == ir && s.procs[i].node in ir && !ir[s.procs[i].node].isTerminal
    && s.completions == 0 && OthersDone(s, i)
  }

  lemma EmitThenCheck(ir: IR, s: Run, i: nat)
    requires LastToEmit(ir, s, i)
    ensures Enabled(s, EmitTokens(i)) && Enabled(Step(s, EmitTokens(i)), Check(i))
    ensures var u := Step(Step(s, EmitTokens(i)), Check(i)); Drained(u) && u.completions == 0
  {
    var u := Step(Step(s, EmitTokens(i)), Check(i));
    forall p | p in u.procs ensures p.phase == Done {
      var j :| 0 <= j < |u.procs| && u.procs[j] == p;
      assert j != i ==> u.procs[j] == s.procs[j];
    }
  }

  ghost function Anything(): Policy {
    (s: Run, e: Event) => !e.Patch? && !e.Redeliver?
  }

  lemma LastTwoSteps(ir: IR, entries: seq<NodeId>, ss: seq<Run>, es: seq<Event>, i: nat) returns (ss': seq<Run>, es': seq<Event>)
    requires QuietRun(ir, entries, ss, es) && LastToEmit(ir, ss[|es|], i)
    ensures QuietRun(ir, entries, ss', es') && Drained(ss'[|es'|]) && ss'[|es'|].completions == 0
  {
    var s := ss[|es|];
    EmitThenCheck(ir, s, i);
    ExtendRun(ir, entries, Anything(), ss, es, |es|, EmitTokens(i));
    var t := Step(s, EmitTokens(i));
    ss', es' := ss + [t], es + [EmitTokens(i)];
    ExtendRun(ir, entries, Anything(), ss', es', |es'|, Check(i));
    ss', es' := ss' + [Step(t, Check(i))], es' + [Check(i)];
  }

  /** If some node has a dependent, a run can drain without COMPLETED ever being recorded: the handler
      of that node counts its successors last. */
  lemma MissedRunExists(schema: Compiler.Schema, ir: IR, a: NodeId) returns (entries: seq<NodeId>, ss: seq<Run>, es: seq<Event>)
    requires Plain(schema, ir) && a in ir && ir[a].dependents != []
    ensures QuietRun(ir, entries, ss, es) && Drained(ss[|es|]) && ss[|es|].completions == 0
  {
    var f := CompiledGraph(schema, ir);
    Reachability.CompiledFlagsTerminals(schema, ir);
    var limit := LoopFreeRunsEnd(schema, ir);
    entries, ss, es := SettledRunExists(ir, HoldEmit(a), limit);
    HeldCounterIsNegative(ir, f, a, entries, ss, es);
    ss, es := FinishChecks(ir, HoldEmit(a), entries, limit, ss, es);
    assert Tracked(ir, entries, ss[|es|]) by {
      QuietRunTracks(ir, entries, ss, es, |es|);
    }
    var i := OnlyHeldIsLeft(ir, f, a, entries, ss[|es|]);
    assert ss[|es|].procs[i] in ss[|es|].procs;
    ss, es := LastTwoSteps(ir, entries, ss, es, i);
  }

  lemma OnlyActivation(ir: IR, f: seq<NodeId>, entries: seq<NodeId>, s: Run, i: nat, j: nat)
    requires Graph(ir, f) && Forest(ir) && EntryOrder(ir, entries) && Tracked(ir, entries, s)
    requires i < |s.procs| && j < |s.procs| && s.procs[i].node == s.procs[j].node
    ensures i == j
  {
    var n := s.procs[i].node;
    assert s.procs[i] in s.procs;
    CountAtMostOne(ir, f, entries, s, n);
    if i != j {
      SumTwo(s.procs, At(n), if i < j then i else j, if i < j then j else i);
    }
  }

  lemma OnlyHeldIsLeft(ir: IR, f: seq<NodeId>, a: NodeId, entries: seq<NodeId>, s: Run) returns (i: nat)
    requires Graph(ir, f) && BranchFree(ir) && Forest(ir) && EntryOrder(ir, entries) && Tracked(ir, entries, s) && a in ir
    requires forall p :: p in s.procs ==> Waits(ir, HoldEmit(a), p) && p.phase != Checking
    ensures i < |s.procs| && s.procs[i].node == a && s.procs[i].phase == Routing && s.procs[i].pos == |s.procs[i].next|
    ensures forall j :: 0 <= j < |s.procs| && j != i ==> s.procs[j].phase == Done
  {
    SettledIsRouted(ir, HoldEmit(a), s);
    i := ActivationOf(ir, f, entries, s, ir.Keys, a);
    assert s.procs[i] in s.procs;
    forall j | 0 <= j < |s.procs| && j != i ensures s.procs[j].node != a {
      if s.procs[j].node == a {
        OnlyActivation(ir, f, entries, s, i, j);
      }
    }
    forall j | 0 <= j < |s.procs| && j != i ensures s.procs[j].phase == Done {
      assert s.procs[j] in s.procs;
    }
  }

  lemma NoRepeats(ir: IR, f: seq<NodeId>, entries: seq<NodeId>, ss: seq<Run>, es: seq<Event>, k: nat)
    requires Graph(ir, f) && BranchFree(ir) && Forest(ir) && QuietRun(ir, entries, ss, es) && k < |ss|
    ensures Tracked(ir, entries, ss[k]) && forall p :: p in ss[k].procs ==> !p.repeat && !p.absorber
  {
    QuietRunTracks(ir, entries, ss, es, k);
    EveryRunKeepsLedger(ir, entries, ss, es, k);
    ForestHasNoRepeats(ir, f, entries, ss[k]);
    NoAbsorbers(ir, ss[k].procs);
  }

  lemma LastEventChecks(ir: IR, s: Run, e: Event)
    requires LoopFree(ir) && BranchFree(ir) && s.ir == ir && forall p :: p in s.procs ==> Legal(ir, p)
    requires Enabled(s, e) && !e.Patch? && !e.Redeliver? && Drained(Step(s, e))
    ensures e.Check? && e.i < |s.procs| && s.procs[e.i].phase == Checking && OthersDone(s, e.i)
  {
    OnlyChecksFinish(ir, s, e);
  }

  /** The last event of a drained run is the check of the last activation, and it reads zero. */
  lemma LastCheckOfDrained(ir: IR, f: seq<NodeId>, entries: seq<NodeId>, ss: seq<Run>, es: seq<Event>)
    requires Graph(ir, f) && BranchFree(ir) && Forest(ir) && QuietRun(ir, entries, ss, es) && es != [] && Drained(ss[|es|])
    ensures var k := |es| - 1; es[k].Check? && ss[k].counter.value == 0
  {
    var k := |es| - 1;
    assert es[k] in es && ss[k + 1] == Step(ss[k], es[k]);
    NoRepeats(ir, f, entries, ss, es, k);
    LastEventChecks(ir, ss[k], es[k]);
    LastIsClean(ss[k], es[k].i);
    ZeroIffClean(ir, entries, ss, es, k);
  }

  lemma RunHasEvents(ir: IR, entries: seq<NodeId>, ss: seq<Run>, es: seq<Event>)
    requires QuietRun(ir, entries, ss, es) && Drained(ss[|es|]) && exists n :: n in EntryNodes(ir)
    ensures es != []
  {
    assert entries != [];
    assert Start(ir, entries).procs[0] in Start(ir, entries).procs;
  }

  lemma TerminalCheckRecords(ir: IR, s: Run, e: Event)
    requires Enabled(s, e) && e.Check? && s.counter.value == 0 && s.procs[e.i].ir == ir && s.procs[e.i].node in ir
    requires ir[s.procs[e.i].node].isTerminal
    ensures Step(s, e).completions >= 1
  {
  }

  lemma IsolatedNodesComplete(ir: IR, f: seq<NodeId>, entries: seq<NodeId>, ss: seq<Run>, es: seq<Event>)
    requires Graph(ir, f) && BranchFree(ir) && Forest(ir) && (exists n :: n in EntryNodes(ir)) && forall n :: n in ir ==> ir[n].isTerminal
    requires QuietRun(ir, entries, ss, es) && Drained(ss[|es|])
    ensures ss[|es|].completions >= 1
  {
    RunHasEvents(ir, entries, ss, es);
    LastCheckOfDrained(ir, f, entries, ss, es);
    var k := |es| - 1;
    assert ss[k + 1] == Step(ss[k], es[k]);
    assert Legal(ir, ss[k].procs[es[k].i]) by {
      QuietRunTracks(ir, entries, ss, es, k);
      assert ss[k].procs[es[k].i] in ss[k].procs;
    }
    TerminalCheckRecords(ir, ss[k], es[k]);
  }

  /** Every run that drains records COMPLETED if and only if no node has a dependent. */
  lemma NeverMissedIff(schema: Compiler.Schema, ir: IR)
    requires Plain(schema, ir)
    ensures (forall entries: seq<NodeId>, ss: seq<Run>, es: seq<Event> :: QuietRun(ir, entries, ss, es) && Drained(ss[|es|]) ==> ss[|es|].completions >= 1)
       <==> forall n :: n in ir ==> ir[n].dependents == []
  {
    if forall n :: n in ir ==> ir[n].dependents == [] {
      var f := CompiledGraph(schema, ir);
      Reachability.CompiledFlagsTerminals(schema, ir);
      var n :| n in ir && |ir[n].dependencies| == 0;
      assert n in EntryNodes(ir);
      forall entries: seq<NodeId>, ss: seq<Run>, es: seq<Event> | QuietRun(ir, entries, ss, es) && Drained(ss[|es|]) ensures ss[|es|].completions >= 1 {
        IsolatedNodesComplete(ir, f, entries, ss, es);
      }
    } else {
      var a :| a in ir && ir[a].dependents != [];
      var entries, ss, es := MissedRunExists(schema, ir, a);
      assert QuietRun(ir, entries, ss, es) && Drained(ss[|es|]);
    }
  }

  // ---- Twice

  /** Terminal nodes that have made their check. */
  ghost function Checked(ir: IR): Proc -> int {
    (p: Proc) => if p.phase == Done && p.node in ir && ir[p.node].isTerminal then 1 else 0
  }

  lemma StepCountsRecords(ir: IR, s: Run, e: Event)
    requires Enabled(s, e) && !e.Patch? && !e.Redeliver? && s.ir == ir && Legal(ir, s.procs[e.i])
    requires s.completions <= Sum(s.procs, Checked(ir))
    ensures Step(s, e).completions <= Sum(Step(s, e).procs, Checked(ir))
  {
    SumStep(s, e, Checked(ir));
    CheckedNonNegative(ir, Added(s, e));
  }

  lemma {:induction false} RecordsAreChecked(ir: IR, entries: seq<NodeId>, ss: seq<Run>, es: seq<Event>, k: nat)
    requires QuietRun(ir, entries, ss, es) && k < |ss|
    ensures ss[k].completions <= Sum(ss[k].procs, Checked(ir))
  {
    if k == 0 {
      CheckedNonNegative(ir, ss[0].procs);
    } else {
      RecordsAreChecked(ir, entries, ss, es, k - 1);
      QuietStep(ir, entries, ss, es, k - 1);
      StepCountsRecords(ir, ss[k - 1], es[k - 1]);
    }
  }

  lemma CheckedNonNegative(ir: IR, ps: seq<Proc>)
    ensures Sum(ps, Checked(ir)) >= 0
  {
    SumZero(ps, Checked(ir));
  }

  ghost predicate OneTerminal(ir: IR) {
    forall m, n :: m in ir && n in ir && ir[m].isTerminal && ir[n].isTerminal ==> m == n
  }

  lemma OneTerminalOneRecord(schema: Compiler.Schema, ir: IR, entries: seq<NodeId>, ss: seq<Run>, es: seq<Event>)
    requires Plain(schema, ir) && OneTerminal(ir) && QuietRun(ir, entries, ss, es)
    ensures ss[|es|].completions <= 1
  {
    var s := ss[|es|];
    var t :| t in ir && ir[t].isTerminal;
    RecordsAreChecked(ir, entries, ss, es, |es|);
    SumMonotone(s.procs, Checked(ir), At(t));
    ActivatedAtMostOnce(schema, ir, entries, ss, es, |es|, t);
  }

  lemma TerminalIsChecking(ir: IR, f: seq<NodeId>, entries: seq<NodeId>, ss: seq<Run>, es: seq<Event>, t: NodeId) returns (i: nat)
    requires Graph(ir, f) && BranchFree(ir) && Forest(ir) && SettledRun(ir, Free, entries, ss, es) && t in ir && ir[t].isTerminal
    ensures i < |ss[|es|].procs| && ss[|es|].procs[i].node == t && ss[|es|].procs[i].phase == Checking && ss[|es|].procs[i].ir == ir
  {
    SettledFacts(ir, f, Free, entries, ss, es);
    SettledIsRouted(ir, Free, ss[|es|]);
    i := ActivationOf(ir, f, entries, ss[|es|], ir.Keys, t);
    assert ss[|es|].procs[i] in ss[|es|].procs;
  }

  /** With two terminal nodes a run can record COMPLETED twice: both consume before either checks. */
  lemma TwiceRunExists(schema: Compiler.Schema, ir: IR, m: NodeId, n: NodeId) returns (entries: seq<NodeId>, ss: seq<Run>, es: seq<Event>)
    requires Plain(schema, ir) && m in ir && n in ir && m != n && ir[m].isTerminal && ir[n].isTerminal
    ensures QuietRun(ir, entries, ss, es) && ss[|es|].completions == 2
  {
    var f := CompiledGraph(schema, ir);
    var limit := LoopFreeRunsEnd(schema, ir);
    entries, ss, es := SettledRunExists(ir, Free, limit);
    FreeCounterIsZero(ir, f, entries, ss, es);
    var i := TerminalIsChecking(ir, f, entries, ss, es, m);
    var j := TerminalIsChecking(ir, f, entries, ss, es, n);
    ss, es := TwoChecks(ir, entries, ss, es, i, j);
  }

  lemma TwoChecks(ir: IR, entries: seq<NodeId>, ss: seq<Run>, es: seq<Event>, i: nat, j: nat) returns (ss': seq<Run>, es': seq<Event>)
    requires QuietRun(ir, entries, ss, es) && ss[|es|].counter.value == 0 && ss[|es|].completions == 0 && i != j
    requires i < |ss[|es|].procs| && j < |ss[|es|].procs|
    requires CanRecord(ir, ss[|es|].procs[i]) && CanRecord(ir, ss[|es|].procs[j])
    ensures QuietRun(ir, entries, ss', es') && ss'[|es'|].completions == 2
  {
    var s := ss[|es|];
    ExtendRun(ir, entries, Checks(), ss, es, |es|, Check(i));
    var t := Step(s, Check(i));
    ss', es' := ss + [t], es + [Check(i)];
    ExtendRun(ir, entries, Checks(), ss', es', |es'|, Check(j));
    ss', es' := ss' + [Step(t, Check(j))], es' + [Check(j)];
  }

  ghost predicate CanRecord(ir: IR, p: Proc) {
    p.phase == Checking && p.ir == ir && p.node in ir && ir[p.node].isTerminal
  }

  /** No run records COMPLETED twice if and only if there is only one terminal node. */
  lemma NeverTwiceIff(schema: Compiler.Schema, ir: IR)
    requires Plain(schema, ir)
    ensures (forall entries: seq<NodeId>, ss: seq<Run>, es: seq<Event> :: QuietRun(ir, entries, ss, es) ==> ss[|es|].completions <= 1) <==> OneTerminal(ir)
  {
    if OneTerminal(ir) {
      forall entries: seq<NodeId>, ss: seq<Run>, es: seq<Event> | QuietRun(ir, entries, ss, es) ensures ss[|es|].completions <= 1 {
        OneTerminalOneRecord(schema, ir, entries, ss, es);
      }
    } else {
      var m, n :| m in ir && n in ir && ir[m].isTerminal && ir[n].isTerminal && m != n;
      var entries, ss, es := TwiceRunExists(schema, ir, m, n);
      assert QuietRun(ir, entries, ss, es);
    }
  }
}
