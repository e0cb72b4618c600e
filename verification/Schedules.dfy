/** Every run of an accepted loop-free workflow ends, and a run can be steered: it can be continued,
    step by step under any policy, until the policy allows nothing more. */
module Schedules {
  import opened WorkflowIR
  import opened Coordinator
  import opened Activations
  import opened Absorbers
  import opened Completion
  import Compiler
  import ControlFlow
  import Seqs

  ghost predicate QuietRun(ir: IR, entries: seq<NodeId>, ss: seq<Run>, es: seq<Event>) {
    IsRun(ir, entries, ss, es) && Quiet(es) && EntryOrder(ir, entries)
  }

  /** What every step of such a run starts from. */
  lemma QuietStep(ir: IR, entries: seq<NodeId>, ss: seq<Run>, es: seq<Event>, k: nat)
    requires QuietRun(ir, entries, ss, es) && k < |es|
    ensures Enabled(ss[k], es[k]) && ss[k + 1] == Step(ss[k], es[k]) && !es[k].Patch? && !es[k].Redeliver?
    ensures ss[k].ir == ir && Legal(ir, ss[k].procs[es[k].i])
  {
    assert es[k] in es;
    QuietRunTracks(ir, entries, ss, es, k);
    assert ss[k].procs[es[k].i] in ss[k].procs;
  }

  // ---- A weight for every node

  type Weight = NodeId -> nat

  ghost function Total(w: Weight, ns: seq<NodeId>): nat {
    if ns == [] then 0 else Total(w, ns[..|ns| - 1]) + w(ns[|ns| - 1])
  }

  /** A node weighs more than its own steps and all its dependents together. */
  ghost predicate Weighs(ir: IR, w: Weight) {
    forall n :: n in ir ==> w(n) >= 7 + |ir[n].dependents| + Total(w, ir[n].dependents)
  }

  function Pow(b: nat, k: nat): nat {
    if k == 0 then 1 else b * Pow(b, k - 1)
  }

  lemma {:induction false} PowGrows(b: nat, j: nat, k: nat)
    requires b >= 1 && j <= k
    ensures 1 <= Pow(b, j) <= Pow(b, k)
  {
    if j < k {
      PowGrows(b, j, k - 1);
      Scale(1, b, Pow(b, k - 1));
    } else if j > 0 {
      PowGrows(b, j - 1, j - 1);
      Scale(1, b, Pow(b, j - 1));
    }
  }

  lemma Scale(a: nat, b: nat, c: nat)
    requires a <= b
    ensures a * c <= b * c
  {
  }

  lemma {:induction false} TotalBound(w: Weight, ns: seq<NodeId>, limit: nat)
    requires forall m :: m in ns ==> w(m) <= limit
    ensures Total(w, ns) <= |ns| * limit
  {
    if ns != [] {
      var init, n := ns[..|ns| - 1], |ns| - 1;
      assert ns[n] in ns;
      TotalBound(w, init, limit);
      assert |ns| * limit == n * limit + limit;
    }
  }

  lemma WeightStep(d: nat, n: nat, x: nat)
    requires n <= d && x >= 1
    ensures 7 + n + n * x <= (2 * d + 8) * x
  {
    Scale(n, d, x);
    Scale(1, x, d + 8);
  }

  lemma PowWeighs(ir: IR, rank: Ranking, d: nat, w: Weight)
    requires RankedEdges(ir, rank) && DegreeAtMost(ir, d) && forall n :: w(n) == Pow(2 * d + 8, rank(n) + 1)
    ensures Weighs(ir, w)
  {
    forall n | n in ir ensures w(n) >= 7 + |ir[n].dependents| + Total(w, ir[n].dependents) {
      var x, ns := Pow(2 * d + 8, rank(n)), ir[n].dependents;
      forall m | m in ns ensures w(m) <= x {
        PowGrows(2 * d + 8, rank(m) + 1, rank(n));
      }
      PowGrows(2 * d + 8, 0, rank(n));
      TotalBound(w, ns, x);
      WeightStep(d, |ns|, x);
    }
  }

  lemma {:induction false} DegreeExists(ir: IR, keys: set<NodeId>) returns (d: nat)
    requires keys <= ir.Keys
    ensures forall n :: n in keys ==> |ir[n].dependents| <= d
  {
    if keys == {} {
      d := 0;
    } else {
      var n :| n in keys;
      var e := DegreeExists(ir, keys - {n});
      d := e + |ir[n].dependents|;
    }
  }

  lemma WeightExists(ir: IR, rank: Ranking) returns (w: Weight)
    requires RankedEdges(ir, rank)
    ensures Weighs(ir, w)
  {
    var d := DegreeExists(ir, ir.Keys);
    w := n => Pow(2 * d + 8, rank(n) + 1);
    PowWeighs(ir, rank, d, w);
  }

  // ---- Sums of weights

  lemma {:induction false} TotalConcat(w: Weight, a: seq<NodeId>, b: seq<NodeId>)
    ensures Total(w, a + b) == Total(w, a) + Total(w, b)
    decreases |b|
  {
    if b == [] {
      assert a + b == a;
    } else {
      var all := a + b;
      assert all[..|all| - 1] == a + b[..|b| - 1] && all[|all| - 1] == b[|b| - 1];
      TotalConcat(w, a, b[..|b| - 1]);
    }
  }

  lemma TotalCons(w: Weight, x: NodeId, b: seq<NodeId>)
    ensures Total(w, [x] + b) == w(x) + Total(w, b)
  {
    TotalConcat(w, [x], b);
    assert Total(w, [x][..0]) == 0;
  }

  lemma RemovedTotal(w: Weight, front: seq<NodeId>, x: NodeId, back: seq<NodeId>)
    ensures Total(w, front + ([x] + back)) == Total(w, front + back) + w(x)
  {
    TotalConcat(w, front, [x] + back);
    TotalCons(w, x, back);
    TotalConcat(w, front, back);
  }

  lemma RemovedMultiset(front: seq<NodeId>, x: NodeId, back: seq<NodeId>)
    ensures multiset(front + ([x] + back)) == multiset(front + back) + multiset{x}
  {
  }

  lemma RemovedBoth(a: multiset<NodeId>, b: multiset<NodeId>, x: NodeId)
    requires a + multiset{x} <= b + multiset{x}
    ensures a <= b
  {
    forall n ensures a[n] <= b[n] {
      assert (a + multiset{x})[n] <= (b + multiset{x})[n];
    }
  }

  /** Choosing fewer nodes weighs less. */
  lemma {:induction false} TotalMonotone(w: Weight, a: seq<NodeId>, b: seq<NodeId>)
    requires multiset(a) <= multiset(b)
    ensures Total(w, a) <= Total(w, b)
    decreases |a|
  {
    if a != [] {
      var init, x := a[..|a| - 1], a[|a| - 1];
      assert multiset(a) == multiset(init) + multiset{x} by {
        Seqs.Shift(a, []);
      }
      assert x in multiset(b);
      var i :| 0 <= i < |b| && b[i] == x;
      var front, back := b[..i], b[i + 1..];
      assert b == front + ([x] + back);
      RemovedMultiset(front, x, back);
      RemovedBoth(multiset(init), multiset(front + back), x);
      RemovedTotal(w, front, x, back);
      TotalMonotone(w, init, front + back);
    }
  }

  // ---- Every step uses up weight

  /** Steps and weight an activation still has to spend, its future successors included. */
  ghost function Left(ir: IR, w: Weight): Proc -> int {
    (p: Proc) =>
      if p.node !in ir then 0
      else
        var full := |ir[p.node].dependents| + Total(w, ir[p.node].dependents);
        match p.phase
        case InStream => 6 + full
        case Signalled(_) => 5 + full
        case Skipping => 5 + full
        case Ready => 4 + full
        case Consumed => 3 + full
        case Absorbing => 3 + full
        case Routing => if p.pos <= |p.next| then |p.next| - p.pos + 2 + Total(w, p.next[p.pos..]) else 0
        case Checking => 1
        case _ => 0
  }

  lemma SpawnLeft(ir: IR, w: Weight, m: NodeId)
    requires Weighs(ir, w) && m in ir
    ensures Left(ir, w)(Spawn(ir, m)) + 1 <= w(m)
  {
  }

  lemma RouteSpends(ir: IR, w: Weight, s: Run, e: Event)
    requires Weighs(ir, w) && Enabled(s, e) && e.Route? && Legal(ir, s.procs[e.i])
    ensures Left(ir, w)(Advance(s, e)) + Sum(Added(s, e), Left(ir, w)) + 1 <= Left(ir, w)(s.procs[e.i])
  {
    var p := s.procs[e.i];
    assert p.next[p.pos..] == [p.next[p.pos]] + p.next[p.pos + 1..];
    TotalCons(w, p.next[p.pos], p.next[p.pos + 1..]);
    if p.next[p.pos] in ir {
      SumSingle(Spawn(ir, p.next[p.pos]), Left(ir, w));
      SpawnLeft(ir, w, p.next[p.pos]);
    }
  }

  lemma DetermineSpends(ir: IR, w: Weight, s: Run, e: Event)
    requires Enabled(s, e) && e.Determine? && Legal(ir, s.procs[e.i]) && s.ir == ir
    requires multiset(e.next) <= multiset(ir[s.procs[e.i].node].dependents)
    ensures Left(ir, w)(Advance(s, e)) + 1 <= Left(ir, w)(s.procs[e.i])
  {
    SubmultisetLength(e.next, ir[s.procs[e.i].node].dependents);
    TotalMonotone(w, e.next, ir[s.procs[e.i].node].dependents);
    assert e.next[0..] == e.next;
  }

  lemma StepSpendsWeight(ir: IR, w: Weight, s: Run, e: Event)
    requires Weighs(ir, w) && Enabled(s, e) && !e.Patch? && !e.Redeliver? && Legal(ir, s.procs[e.i]) && s.ir == ir
    requires e.Determine? ==> multiset(e.next) <= multiset(ir[s.procs[e.i].node].dependents)
    ensures Left(ir, w)(Advance(s, e)) + Sum(Added(s, e), Left(ir, w)) + 1 <= Left(ir, w)(s.procs[e.i])
  {
    if e.Route? {
      RouteSpends(ir, w, s, e);
    } else if e.Determine? {
      DetermineSpends(ir, w, s, e);
    } else if e.EmitTokens? {
      var p := s.procs[e.i];
      assert p.next[p.pos..] == [];
    }
  }

  ghost function AllLeft(ir: IR, w: Weight, s: Run): int {
    Sum(s.procs, Left(ir, w))
  }

  lemma LeftFalls(ir: IR, f: seq<NodeId>, w: Weight, entries: seq<NodeId>, s: Run, e: Event)
    requires Graph(ir, f) && Weighs(ir, w) && Tracked(ir, entries, s) && Enabled(s, e) && !e.Patch? && !e.Redeliver?
    ensures AllLeft(ir, w, Step(s, e)) < AllLeft(ir, w, s)
  {
    assert s.procs[e.i] in s.procs;
    if e.Determine? {
      assert ControlFlow.CanRoute(ir[s.procs[e.i].node], e.next);
    }
    StepSpendsWeight(ir, w, s, e);
    SumStep(s, e, Left(ir, w));
  }

  lemma LeftNonNegative(ir: IR, w: Weight, s: Run)
    ensures AllLeft(ir, w, s) >= 0
  {
    SumZero(s.procs, Left(ir, w));
  }

  lemma {:induction false} StartLeft(ir: IR, w: Weight, entries: seq<NodeId>)
    requires Weighs(ir, w) && forall n :: n in entries ==> n in ir
    ensures AllLeft(ir, w, Start(ir, entries)) <= Total(w, entries)
  {
    if entries != [] {
      var init, last := entries[..|entries| - 1], entries[|entries| - 1];
      assert last in entries;
      StartLeft(ir, w, init);
      assert Start(ir, entries).procs[..|init|] == Start(ir, init).procs;
    }
  }

  lemma RunStepUsesWeight(ir: IR, f: seq<NodeId>, w: Weight, entries: seq<NodeId>, ss: seq<Run>, es: seq<Event>, k: nat)
    requires Graph(ir, f) && Weighs(ir, w) && QuietRun(ir, entries, ss, es) && k < |es|
    ensures AllLeft(ir, w, ss[k + 1]) < AllLeft(ir, w, ss[k])
  {
    assert Tracked(ir, entries, ss[k]) by {
      QuietRunTracks(ir, entries, ss, es, k);
    }
    assert es[k] in es;
    LeftFalls(ir, f, w, entries, ss[k], es[k]);
  }

  lemma {:induction false} WeightFalls(ir: IR, w: Weight, ss: seq<Run>, k: nat)
    requires k < |ss| && forall j :: 0 <= j < k ==> AllLeft(ir, w, ss[j + 1]) < AllLeft(ir, w, ss[j])
    ensures k + AllLeft(ir, w, ss[k]) <= AllLeft(ir, w, ss[0])
  {
    if k > 0 {
      WeightFalls(ir, w, ss, k - 1);
      assert AllLeft(ir, w, ss[k - 1 + 1]) < AllLeft(ir, w, ss[k - 1]);
    }
  }

  lemma StepsUseWeight(ir: IR, f: seq<NodeId>, w: Weight, entries: seq<NodeId>, ss: seq<Run>, es: seq<Event>)
    requires Graph(ir, f) && Weighs(ir, w) && QuietRun(ir, entries, ss, es)
    ensures |es| + AllLeft(ir, w, ss[|es|]) <= AllLeft(ir, w, ss[0])
  {
    forall j | 0 <= j < |es| ensures AllLeft(ir, w, ss[j + 1]) < AllLeft(ir, w, ss[j]) {
      RunStepUsesWeight(ir, f, w, entries, ss, es, j);
    }
    WeightFalls(ir, w, ss, |es|);
  }

  lemma EntryOrdersWeighTheSame(ir: IR, w: Weight, a: seq<NodeId>, b: seq<NodeId>)
    requires EntryOrder(ir, a) && EntryOrder(ir, b)
    ensures Total(w, a) <= Total(w, b)
  {
    forall n ensures multiset(a)[n] <= multiset(b)[n] {
      Seqs.DistinctCount(a, n);
      Seqs.DistinctCount(b, n);
    }
    TotalMonotone(w, a, b);
  }

  ghost predicate Bounds(ir: IR, limit: nat) {
    forall entries: seq<NodeId>, ss: seq<Run>, es: seq<Event> :: QuietRun(ir, entries, ss, es) ==> |es| <= limit
  }

  /** Every run of an accepted loop-free workflow ends within a number of steps that depends on the
      workflow alone: branches, joins, failures and interleavings included. */
  lemma LoopFreeRunsEnd(schema: Compiler.Schema, ir: IR) returns (limit: nat)
    requires Compiler.Compiled(schema, ir) && Compiler.Accepted(ir) && LoopFree(ir)
    ensures Bounds(ir, limit)
  {
    var f := CompiledGraph(schema, ir);
    TopologicalRanks(ir, f);
    var w := WeightExists(ir, RankIn(f));
    var order := OrderExists(EntryNodes(ir));
    limit := Total(w, order);
    forall entries: seq<NodeId>, ss: seq<Run>, es: seq<Event> | QuietRun(ir, entries, ss, es) ensures |es| <= limit {
      StepsUseWeight(ir, f, w, entries, ss, es);
      LeftNonNegative(ir, w, ss[|es|]);
      StartLeft(ir, w, entries);
      EntryOrdersWeighTheSame(ir, w, entries, order);
    }
  }

  // ---- Steering a run

  type Policy = (Run, Event) -> bool

  ghost predicate Obeys(allow: Policy, ss: seq<Run>, es: seq<Event>, from: nat) {
    |es| < |ss| && forall k :: from <= k < |es| ==> allow(ss[k], es[k])
  }

  ghost predicate Exhausted(allow: Policy, s: Run) {
    forall e :: Enabled(s, e) ==> !allow(s, e)
  }

  ghost predicate IsQuiet(allow: Policy) {
    forall s, e :: allow(s, e) ==> !e.Patch? && !e.Redeliver?
  }

  lemma ExtendRun(ir: IR, entries: seq<NodeId>, allow: Policy, ss: seq<Run>, es: seq<Event>, from: nat, e: Event)
    requires QuietRun(ir, entries, ss, es) && IsQuiet(allow) && Obeys(allow, ss, es, from) && from <= |es|
    requires Enabled(ss[|es|], e) && allow(ss[|es|], e)
    ensures var t := Step(ss[|es|], e); QuietRun(ir, entries, ss + [t], es + [e]) && Obeys(allow, ss + [t], es + [e], from)
  {
    var t := Step(ss[|es|], e);
    ExtendTrace(ss, es, e, t);
    var ss', es' := ss + [t], es + [e];
    forall x | x in es' ensures x in es || x == e {
    }
    forall k | from <= k < |es'| ensures allow(ss'[k], es'[k]) {
      assert k < |es| ==> ss'[k] == ss[k] && es'[k] == es[k];
    }
  }

  /** Any run can be continued by allowed steps until no allowed step is left. */
  lemma {:induction false} Exhaust(ir: IR, entries: seq<NodeId>, allow: Policy, limit: nat, ss: seq<Run>, es: seq<Event>, from: nat)
    returns (ss': seq<Run>, es': seq<Event>)
    requires QuietRun(ir, entries, ss, es) && Bounds(ir, limit) && IsQuiet(allow) && from <= |es| && Obeys(allow, ss, es, from)
    ensures QuietRun(ir, entries, ss', es') && ss <= ss' && es <= es' && Obeys(allow, ss', es', from)
    ensures Exhausted(allow, ss'[|es'|])
    decreases limit - |es|
  {
    assert |es| <= limit;
    if e :| Enabled(ss[|es|], e) && allow(ss[|es|], e) {
      ExtendRun(ir, entries, allow, ss, es, from, e);
      var longer, more := ss + [Step(ss[|es|], e)], es + [e];
      assert |more| <= limit;
      ss', es' := Exhaust(ir, entries, allow, limit, longer, more, from);
    } else {
      ss', es' := ss, es;
    }
  }

  // ---- Doing everything but terminal checks

  /** At most one node may be held back: before it counts its successors, or before it routes. */
  datatype Hold = Free | HoldEmit(node: NodeId) | HoldRoute(node: NodeId)

  /** Workers succeed, and every step is taken except terminal checks and what is held back. */
  ghost function Working(hold: Hold): Policy {
    (s: Run, e: Event) =>
      match e
      case Work(_, ok) => ok
      case Pop(_) => true
      case ConsumeToken(_) => true
      case Determine(i, _) => i < |s.procs| && hold != HoldRoute(s.procs[i].node)
      case Route(_) => true
      case EmitTokens(i) => i < |s.procs| && hold != HoldEmit(s.procs[i].node)
      case Check(i) => i < |s.procs| && s.procs[i].node in s.ir && !s.ir[s.procs[i].node].isTerminal
      case _ => false
  }

  /** What the policy keeps an activation from: failing, finishing a terminal node, and passing the
      point where its node is held back. */
  ghost predicate Kept(ir: IR, hold: Hold, p: Proc) {
    && p.phase != Failed && p.phase != Signalled(false)
    && (p.node in ir && ir[p.node].isTerminal ==> p.phase != Done)
    && (hold == HoldEmit(p.node) ==> p.phase != Checking && p.phase != Done)
    && (hold == HoldRoute(p.node) ==> p.phase != Routing && p.phase != Checking && p.phase != Done)
  }

  ghost predicate Fine(ir: IR, hold: Hold, s: Run) {
    s.completions == 0 && forall p :: p in s.procs ==> Kept(ir, hold, p)
  }

  lemma WorkingKeepsFine(ir: IR, s: Run, e: Event, hold: Hold)
    requires LoopFree(ir) && BranchFree(ir)
    requires Fine(ir, hold, s) && Enabled(s, e) && Working(hold)(s, e) && s.ir == ir && forall p :: p in s.procs ==> Legal(ir, p)
    ensures Fine(ir, hold, Step(s, e))
  {
    assert s.procs[e.i] in s.procs;
    forall p | p in Step(s, e).procs ensures Kept(ir, hold, p) {
      assert p in s.procs[e.i := Advance(s, e)] || p in Added(s, e);
      assert p in s.procs || p == Advance(s, e) || p in Added(s, e);
    }
  }

  lemma {:induction false} WorkingRunIsFine(ir: IR, entries: seq<NodeId>, hold: Hold, ss: seq<Run>, es: seq<Event>, k: nat)
    requires LoopFree(ir) && BranchFree(ir)
    requires QuietRun(ir, entries, ss, es) && Obeys(Working(hold), ss, es, 0) && k < |ss|
    ensures Fine(ir, hold, ss[k])
  {
    if k > 0 {
      WorkingRunIsFine(ir, entries, hold, ss, es, k - 1);
      assert ss[k - 1].ir == ir && forall p :: p in ss[k - 1].procs ==> Legal(ir, p) by {
        QuietRunTracks(ir, entries, ss, es, k - 1);
      }
      assert Working(hold)(ss[k - 1], es[k - 1]);
      WorkingKeepsFine(ir, ss[k - 1], es[k - 1], hold);
    }
  }

  /** What an activation looks like when nothing else is left to do. */
  ghost predicate Settled(ir: IR, hold: Hold, p: Proc) {
    || p.phase == Done
    || (p.phase == Checking && p.node in ir && ir[p.node].isTerminal)
    || (hold == HoldEmit(p.node) && p.phase == Routing && p.pos == |p.next|)
    || (hold == HoldRoute(p.node) && p.phase == Consumed)
  }

  /** The step an unsettled activation can take. */
  ghost function NextStep(ir: IR, p: Proc, i: nat): Event
    requires p.node in ir
  {
    match p.phase
    case InStream => Work(i, true)
    case Signalled(_) => Pop(i)
    case Skipping => Pop(i)
    case Ready => ConsumeToken(i)
    case Consumed => Determine(i, ir[p.node].dependents)
    case Routing => if p.pos < |p.next| then Route(i) else EmitTokens(i)
    case _ => Check(i)
  }

  lemma UnsettledCanStep(ir: IR, hold: Hold, s: Run, i: nat)
    requires LoopFree(ir) && BranchFree(ir) && s.ir == ir && i < |s.procs| && Legal(ir, s.procs[i]) && !Settled(ir, hold, s.procs[i])
    requires s.procs[i].phase != Failed && s.procs[i].phase != Signalled(false)
    ensures Enabled(s, NextStep(ir, s.procs[i], i)) && Working(hold)(s, NextStep(ir, s.procs[i], i))
  {
  }

  lemma ExhaustedIsSettled(ir: IR, hold: Hold, s: Run, i: nat)
    requires LoopFree(ir) && BranchFree(ir) && s.ir == ir && i < |s.procs| && Legal(ir, s.procs[i])
    requires Fine(ir, hold, s) && Exhausted(Working(hold), s)
    ensures Settled(ir, hold, s.procs[i])
  {
    assert s.procs[i] in s.procs;
    if !Settled(ir, hold, s.procs[i]) {
      UnsettledCanStep(ir, hold, s, i);
    }
  }

  ghost predicate SettledRun(ir: IR, hold: Hold, entries: seq<NodeId>, ss: seq<Run>, es: seq<Event>) {
    && QuietRun(ir, entries, ss, es) && Fine(ir, hold, ss[|es|])
    && forall p :: p in ss[|es|].procs ==> Settled(ir, hold, p)
  }

  lemma WorkingIsQuiet(hold: Hold)
    ensures IsQuiet(Working(hold))
  {
  }

  lemma StartRun(ir: IR) returns (entries: seq<NodeId>)
    ensures QuietRun(ir, entries, [Start(ir, entries)], [])
  {
    entries := OrderExists(EntryNodes(ir));
  }

  lemma SettledRunExists(ir: IR, hold: Hold, limit: nat) returns (entries: seq<NodeId>, ss: seq<Run>, es: seq<Event>)
    requires LoopFree(ir) && BranchFree(ir) && Bounds(ir, limit)
    ensures SettledRun(ir, hold, entries, ss, es)
  {
    entries := StartRun(ir);
    WorkingIsQuiet(hold);
    ss, es := Exhaust(ir, entries, Working(hold), limit, [Start(ir, entries)], [], 0);
    WorkingRunIsFine(ir, entries, hold, ss, es, |es|);
    QuietRunTracks(ir, entries, ss, es, |es|);
    var s := ss[|es|];
    forall p | p in s.procs ensures Settled(ir, hold, p) {
      var i :| 0 <= i < |s.procs| && s.procs[i] == p;
      ExhaustedIsSettled(ir, hold, s, i);
    }
  }
}
