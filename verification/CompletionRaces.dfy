/** What goes wrong when handlers interleave: a handler publishes its successors after it consumed
    its token and counts them after it published them, so a terminal check in between can read a
    counter that is too low. */
module CompletionRaces {
  import opened Wrappers
  import opened WorkflowIR
  import opened Counter
  import opened Coordinator
  import opened Completion
  import ControlFlow

  lemma {:induction false} SumPositiveIff(ps: seq<Proc>, w: Proc -> int)
    requires forall p :: p in ps ==> w(p) >= 0
    ensures Sum(ps, w) >= 0
    ensures Sum(ps, w) > 0 <==> exists p :: p in ps && w(p) > 0
  {
    SumZero(ps, w);
    if forall p :: p in ps ==> w(p) == 0 {
      SumAllZero(ps, w);
    }
  }

  function Owed(p: Proc): int {
    Live(p) + Stuck(p) + Repeated(p) + Phantom(p)
  }

  ghost predicate OtherUnderWay(s: Run, i: nat) {
    exists j :: 0 <= j < |s.procs| && j != i && UnderWay(s.procs[j])
  }

  /** Some other handler has published tokens it has not counted yet. */
  ghost predicate OtherUncounted(s: Run, i: nat) {
    exists j :: 0 <= j < |s.procs| && j != i && s.procs[j].phase == Routing && Unemitted(s.procs[j]) > 0
  }

  lemma OwedMeansUncounted(ir: IR, entries: seq<NodeId>, ss: seq<Run>, es: seq<Event>, k: nat)
    requires IsRun(ir, entries, ss, es) && k < |es| && ss[k].redelivered == 0 && Records(ss[k], es[k])
    ensures (exists p :: p in ss[k].procs && Owed(p) > 0) <==> OtherUncounted(ss[k], es[k].i)
  {
    var s := ss[k];
    EveryRunConserves(ir, entries, ss, es, k);
    SumOfSum(s.procs, Debt, Unemitted, Owed);
    forall p | p in s.procs ensures Unemitted(p) >= 0 && Owed(p) >= 0 {
      PartsNonNegative(p);
    }
    SumPositiveIff(s.procs, Unemitted);
    SumPositiveIff(s.procs, Owed);
    if p :| p in s.procs && Unemitted(p) > 0 {
      var j :| 0 <= j < |s.procs| && s.procs[j] == p;
      assert j != es[k].i;
    }
    if OtherUncounted(s, es[k].i) {
      var j :| 0 <= j < |s.procs| && j != es[k].i && s.procs[j].phase == Routing && Unemitted(s.procs[j]) > 0;
      assert s.procs[j] in s.procs;
    }
  }

  /** The exact condition, over every interleaving: COMPLETED is recorded with other work left if and
      only if at that moment another handler or absorber is between taking up its node and counting
      its successors. If a token is outstanding or failed, or a completion was miscounted, then such a
      handler has even published tokens it has not counted. */
  lemma EarlyIffHandlerUnderWay(ir: IR, entries: seq<NodeId>, ss: seq<Run>, es: seq<Event>, k: nat)
    requires IsRun(ir, entries, ss, es) && k < |es| && ss[k].redelivered == 0 && Records(ss[k], es[k])
    ensures OtherWork(ss[k], es[k].i) <==> OtherUnderWay(ss[k], es[k].i)
    ensures (exists p :: p in ss[k].procs && !Clean(p)) <==> OtherUncounted(ss[k], es[k].i)
  {
    var s, i := ss[k], es[k].i;
    OwedMeansUncounted(ir, entries, ss, es, k);
    forall p | p in s.procs ensures Owed(p) > 0 <==> !Clean(p) {
      PartsNonNegative(p);
    }
    if OtherWork(s, i) {
      var j :| 0 <= j < |s.procs| && j != i && Unfinished(s.procs[j]);
      assert s.procs[j] in s.procs;
      assert UnderWay(s.procs[j]) || !Clean(s.procs[j]);
      if !UnderWay(s.procs[j]) {
        var q :| 0 <= q < |s.procs| && q != i && s.procs[q].phase == Routing;
        assert UnderWay(s.procs[q]);
      }
    }
    if OtherUnderWay(s, i) {
      var j :| 0 <= j < |s.procs| && j != i && UnderWay(s.procs[j]);
      assert Unfinished(s.procs[j]);
    }
  }

  // ---- Two entry nodes A and B, where A leads to C and B is terminal

  function A(): Node { Node("A", "http", [], ["C"], false, false, None, None) }
  function B(): Node { Node("B", "http", [], [], false, true, None, None) }
  function C(): Node { Node("C", "http", ["A"], [], false, true, None, None) }
  function Small(): IR { map["A" := A(), "B" := B(), "C" := C()] }

  function SmallProc(n: NodeId, phase: Phase, next: seq<NodeId>, pos: nat): Proc {
    Proc(n, false, phase, Small(), next, pos, false)
  }

  /** A run of this workflow whose activations are `a`, `b` and possibly `c`. */
  function SmallRun(counter: Counter, emits: nat, procs: seq<Proc>, completions: nat): Run {
    Run(Small(), counter, emits, procs, 0, completions)
  }

  lemma AConsumed() returns (ss: seq<Run>, es: seq<Event>)
    ensures IsRun(Small(), ["A", "B"], ss, es)
    ensures ss[|es|] == SmallRun(Counter(1, {Consume("A")}), 0, [SmallProc("A", Consumed, [], 0), SmallProc("B", InStream, [], 0)], 0)
  {
    var b := SmallProc("B", InStream, [], 0);
    var s0 := SmallRun(Counter(2, {}), 0, [SmallProc("A", InStream, [], 0), b], 0);
    assert s0.procs == Start(Small(), ["A", "B"]).procs;
    ss, es := [s0], [];
    var s1 := SmallRun(Counter(2, {}), 0, [SmallProc("A", Signalled(true), [], 0), b], 0);
    ExtendTrace(ss, es, Work(0, true), s1);
    ss, es := ss + [s1], es + [Work(0, true)];
    var s2 := SmallRun(Counter(2, {}), 0, [SmallProc("A", Ready, [], 0), b], 0);
    ExtendTrace(ss, es, Pop(0), s2);
    ss, es := ss + [s2], es + [Pop(0)];
    var s3 := SmallRun(Counter(1, {Consume("A")}), 0, [SmallProc("A", Consumed, [], 0), b], 0);
    ExtendTrace(ss, es, ConsumeToken(0), s3);
    ss, es := ss + [s3], es + [ConsumeToken(0)];
  }

  /** A's handler has published C's token and not counted it: the counter reads 1. */
  lemma PublishedNotCounted() returns (ss: seq<Run>, es: seq<Event>)
    ensures IsRun(Small(), ["A", "B"], ss, es)
    ensures ss[|es|] == SmallRun(Counter(1, {Consume("A")}), 0, [SmallProc("A", Routing, ["C"], 1), SmallProc("B", InStream, [], 0), SmallProc("C", InStream, [], 0)], 0)
  {
    ss, es := AConsumed();
    var b := SmallProc("B", InStream, [], 0);
    var s4 := SmallRun(Counter(1, {Consume("A")}), 0, [SmallProc("A", Routing, ["C"], 0), b], 0);
    ExtendTrace(ss, es, Determine(0, ["C"]), s4);
    ss, es := ss + [s4], es + [Determine(0, ["C"])];
    var s5 := SmallRun(Counter(1, {Consume("A")}), 0, [SmallProc("A", Routing, ["C"], 1), b, SmallProc("C", InStream, [], 0)], 0);
    ExtendTrace(ss, es, Route(0), s5);
    ss, es := ss + [s5], es + [Route(0)];
  }

  lemma BConsumed() returns (ss: seq<Run>, es: seq<Event>)
    ensures IsRun(Small(), ["A", "B"], ss, es)
    ensures ss[|es|] == SmallRun(Counter(0, {Consume("A"), Consume("B")}), 0, [SmallProc("A", Routing, ["C"], 1), SmallProc("B", Consumed, [], 0), SmallProc("C", InStream, [], 0)], 0)
  {
    ss, es := PublishedNotCounted();
    var a, c := SmallProc("A", Routing, ["C"], 1), SmallProc("C", InStream, [], 0);
    var s1 := SmallRun(Counter(1, {Consume("A")}), 0, [a, SmallProc("B", Signalled(true), [], 0), c], 0);
    ExtendTrace(ss, es, Work(1, true), s1);
    ss, es := ss + [s1], es + [Work(1, true)];
    var s2 := SmallRun(Counter(1, {Consume("A")}), 0, [a, SmallProc("B", Ready, [], 0), c], 0);
    ExtendTrace(ss, es, Pop(1), s2);
    ss, es := ss + [s2], es + [Pop(1)];
    var s3 := SmallRun(Counter(0, {Consume("A"), Consume("B")}), 0, [a, SmallProc("B", Consumed, [], 0), c], 0);
    ExtendTrace(ss, es, ConsumeToken(1), s3);
    ss, es := ss + [s3], es + [ConsumeToken(1)];
  }

  /** B completes in between, reads zero and records COMPLETED while C's token is live. */
  lemma EarlyCompletion() returns (ss: seq<Run>, es: seq<Event>)
    ensures IsRun(Small(), ["A", "B"], ss, es)
    ensures ss[|es|].completions == 1 && SmallProc("C", InStream, [], 0) in ss[|es|].procs
  {
    ss, es := BConsumed();
    var a, c, counter := SmallProc("A", Routing, ["C"], 1), SmallProc("C", InStream, [], 0), Counter(0, {Consume("A"), Consume("B")});
    var s4 := SmallRun(counter, 0, [a, SmallProc("B", Routing, [], 0), c], 0);
    ExtendTrace(ss, es, Determine(1, []), s4);
    ss, es := ss + [s4], es + [Determine(1, [])];
    var s5 := SmallRun(counter, 1, [a, SmallProc("B", Checking, [], 0), c], 0);
    ExtendTrace(ss, es, EmitTokens(1), s5);
    ss, es := ss + [s5], es + [EmitTokens(1)];
    var s6 := SmallRun(counter, 1, [a, SmallProc("B", Done, [], 0), c], 1);
    ExtendTrace(ss, es, Check(1), s6);
    ss, es := ss + [s6], es + [Check(1)];
  }

  /** A has consumed and not routed; B has consumed too, and the counter reads zero. */
  lemma BothConsumed() returns (ss: seq<Run>, es: seq<Event>)
    ensures IsRun(Small(), ["A", "B"], ss, es)
    ensures ss[|es|] == SmallRun(Counter(0, {Consume("A"), Consume("B")}), 0, [SmallProc("A", Consumed, [], 0), SmallProc("B", Consumed, [], 0)], 0)
  {
    ss, es := AConsumed();
    var a := SmallProc("A", Consumed, [], 0);
    var s1 := SmallRun(Counter(1, {Consume("A")}), 0, [a, SmallProc("B", Signalled(true), [], 0)], 0);
    ExtendTrace(ss, es, Work(1, true), s1);
    ss, es := ss + [s1], es + [Work(1, true)];
    var s2 := SmallRun(Counter(1, {Consume("A")}), 0, [a, SmallProc("B", Ready, [], 0)], 0);
    ExtendTrace(ss, es, Pop(1), s2);
    ss, es := ss + [s2], es + [Pop(1)];
    var s3 := SmallRun(Counter(0, {Consume("A"), Consume("B")}), 0, [a, SmallProc("B", Consumed, [], 0)], 0);
    ExtendTrace(ss, es, ConsumeToken(1), s3);
    ss, es := ss + [s3], es + [ConsumeToken(1)];
  }

  lemma RecordedBeforeRouting() returns (ss: seq<Run>, es: seq<Event>)
    ensures IsRun(Small(), ["A", "B"], ss, es)
    ensures ss[|es|] == SmallRun(Counter(0, {Consume("A"), Consume("B")}), 1, [SmallProc("A", Consumed, [], 0), SmallProc("B", Done, [], 0)], 1)
  {
    ss, es := BothConsumed();
    var a, counter := SmallProc("A", Consumed, [], 0), Counter(0, {Consume("A"), Consume("B")});
    var s1 := SmallRun(counter, 0, [a, SmallProc("B", Routing, [], 0)], 0);
    ExtendTrace(ss, es, Determine(1, []), s1);
    ss, es := ss + [s1], es + [Determine(1, [])];
    var s2 := SmallRun(counter, 1, [a, SmallProc("B", Checking, [], 0)], 0);
    ExtendTrace(ss, es, EmitTokens(1), s2);
    ss, es := ss + [s2], es + [EmitTokens(1)];
    var s3 := SmallRun(counter, 1, [a, SmallProc("B", Done, [], 0)], 1);
    ExtendTrace(ss, es, Check(1), s3);
    ss, es := ss + [s3], es + [Check(1)];
  }

  /** COMPLETED is recorded when nothing at all is published or uncounted, and C's token is published
      afterwards. */
  lemma EarlyCompletionBeforeRouting() returns (ss: seq<Run>, es: seq<Event>, k: nat)
    ensures IsRun(Small(), ["A", "B"], ss, es) && k < |es|
    ensures ss[k].completions == 1 && forall p :: p in ss[k].procs ==> Clean(p) && Unemitted(p) == 0
    ensures SmallProc("C", InStream, [], 0) in ss[|es|].procs
  {
    ss, es := RecordedBeforeRouting();
    k := |es|;
    var b, counter := SmallProc("B", Done, [], 0), Counter(0, {Consume("A"), Consume("B")});
    var s1 := SmallRun(counter, 1, [SmallProc("A", Routing, ["C"], 0), b], 1);
    ExtendTrace(ss, es, Determine(0, ["C"]), s1);
    ss, es := ss + [s1], es + [Determine(0, ["C"])];
    var s2 := SmallRun(counter, 1, [SmallProc("A", Routing, ["C"], 1), b, SmallProc("C", InStream, [], 0)], 1);
    ExtendTrace(ss, es, Route(0), s2);
    ss, es := ss + [s2], es + [Route(0)];
  }

  // ---- Serial handlers: A leads through the branch X to C, and B is terminal

  const PASS := BranchConfig(true, "conditional", [], ["C"])

  function Branching(): IR {
    map["A" := Node("A", "http", [], ["X"], false, false, None, None),
        "X" := Node("X", "task", ["A"], ["C"], false, false, None, Some(PASS)),
        "C" := Node("C", "http", ["X"], [], false, true, None, None),
        "B" := B()]
  }

  function BranchProc(n: NodeId, phase: Phase, next: seq<NodeId>, pos: nat): Proc {
    Proc(n, n == "X", phase, Branching(), next, pos, false)
  }

  function BranchRun(counter: Counter, emits: nat, procs: seq<Proc>, completions: nat): Run {
    Run(Branching(), counter, emits, procs, 0, completions)
  }

  ghost predicate SerialRun(ss: seq<Run>, es: seq<Event>) {
    IsRun(Branching(), ["A", "B"], ss, es) && Serial(ss, es)
  }

  lemma ExtendSerial(ss: seq<Run>, es: seq<Event>, e: Event, t: Run)
    requires SerialRun(ss, es) && !e.Patch? && Enabled(ss[|es|], e) && t == Step(ss[|es|], e)
    requires forall j :: 0 <= j < |ss[|es|].procs| && Mid(ss[|es|].procs[j]) ==> e.i == j
    ensures SerialRun(ss + [t], es + [e])
  {
    ExtendTrace(ss, es, e, t);
    var ss', es' := ss + [t], es + [e];
    forall k, j | 0 <= k < |es'| && 0 <= j < |ss'[k].procs| && !es'[k].Patch? && Mid(ss'[k].procs[j]) ensures es'[k].i == j {
      if k < |es| {
        assert es'[k] == es[k] && ss'[k] == ss[k];
      }
    }
  }

  lemma SerialAConsumed() returns (ss: seq<Run>, es: seq<Event>)
    ensures SerialRun(ss, es)
    ensures ss[|es|] == BranchRun(Counter(1, {Consume("A")}), 0, [BranchProc("A", Consumed, [], 0), BranchProc("B", InStream, [], 0)], 0)
  {
    var b := BranchProc("B", InStream, [], 0);
    var s0 := BranchRun(Counter(2, {}), 0, [BranchProc("A", InStream, [], 0), b], 0);
    assert s0.procs == Start(Branching(), ["A", "B"]).procs;
    ss, es := [s0], [];
    var s1 := BranchRun(Counter(2, {}), 0, [BranchProc("A", Signalled(true), [], 0), b], 0);
    ExtendSerial(ss, es, Work(0, true), s1);
    ss, es := ss + [s1], es + [Work(0, true)];
    var s2 := BranchRun(Counter(2, {}), 0, [BranchProc("A", Ready, [], 0), b], 0);
    ExtendSerial(ss, es, Pop(0), s2);
    ss, es := ss + [s2], es + [Pop(0)];
    var s3 := BranchRun(Counter(1, {Consume("A")}), 0, [BranchProc("A", Consumed, [], 0), b], 0);
    ExtendSerial(ss, es, ConsumeToken(0), s3);
    ss, es := ss + [s3], es + [ConsumeToken(0)];
  }

  lemma SerialADetermined() returns (ss: seq<Run>, es: seq<Event>)
    ensures SerialRun(ss, es)
    ensures ss[|es|] == BranchRun(Counter(1, {Consume("A")}), 0, [BranchProc("A", Routing, ["X"], 0), BranchProc("B", InStream, [], 0)], 0)
  {
    ss, es := SerialAConsumed();
    var s := BranchRun(Counter(1, {Consume("A")}), 0, [BranchProc("A", Routing, ["X"], 0), BranchProc("B", InStream, [], 0)], 0);
    ExtendSerial(ss, es, Determine(0, ["X"]), s);
    ss, es := ss + [s], es + [Determine(0, ["X"])];
  }

  lemma SerialARouted() returns (ss: seq<Run>, es: seq<Event>)
    ensures SerialRun(ss, es)
    ensures ss[|es|] == BranchRun(Counter(1, {Consume("A")}), 0, [BranchProc("A", Routing, ["X"], 1), BranchProc("B", InStream, [], 0), BranchProc("X", Absorbing, [], 0)], 0)
  {
    ss, es := SerialADetermined();
    var b, x := BranchProc("B", InStream, [], 0), BranchProc("X", Absorbing, [], 0);
    var s := BranchRun(Counter(1, {Consume("A")}), 0, [BranchProc("A", Routing, ["X"], 1), b, x], 0);
    ExtendSerial(ss, es, Route(0), s);
    ss, es := ss + [s], es + [Route(0)];
  }

  lemma SerialADone() returns (ss: seq<Run>, es: seq<Event>)
    ensures SerialRun(ss, es)
    ensures ss[|es|] == BranchRun(Counter(1, {Consume("A")}), 1, [BranchProc("A", Done, ["X"], 1), BranchProc("B", InStream, [], 0), BranchProc("X", Absorbing, [], 0)], 0)
  {
    ss, es := SerialARouted();
    var b, x, counter := BranchProc("B", InStream, [], 0), BranchProc("X", Absorbing, [], 0), Counter(1, {Consume("A")});
    assert ["X"][..0] == [] && Tokens(Branching(), ["X"]) == 0;
    var s1 := BranchRun(counter, 1, [BranchProc("A", Checking, ["X"], 1), b, x], 0);
    ExtendSerial(ss, es, EmitTokens(0), s1);
    ss, es := ss + [s1], es + [EmitTokens(0)];
    var s2 := BranchRun(counter, 1, [BranchProc("A", Done, ["X"], 1), b, x], 0);
    ExtendSerial(ss, es, Check(0), s2);
    ss, es := ss + [s2], es + [Check(0)];
  }

  lemma SerialBConsumed() returns (ss: seq<Run>, es: seq<Event>)
    ensures SerialRun(ss, es)
    ensures ss[|es|] == BranchRun(Counter(0, {Consume("A"), Consume("B")}), 1, [BranchProc("A", Done, ["X"], 1), BranchProc("B", Consumed, [], 0), BranchProc("X", Absorbing, [], 0)], 0)
  {
    ss, es := SerialADone();
    var a, x, counter := BranchProc("A", Done, ["X"], 1), BranchProc("X", Absorbing, [], 0), Counter(1, {Consume("A")});
    var s1 := BranchRun(counter, 1, [a, BranchProc("B", Signalled(true), [], 0), x], 0);
    ExtendSerial(ss, es, Work(1, true), s1);
    ss, es := ss + [s1], es + [Work(1, true)];
    var s2 := BranchRun(counter, 1, [a, BranchProc("B", Ready, [], 0), x], 0);
    ExtendSerial(ss, es, Pop(1), s2);
    ss, es := ss + [s2], es + [Pop(1)];
    var s3 := BranchRun(Counter(0, {Consume("A"), Consume("B")}), 1, [a, BranchProc("B", Consumed, [], 0), x], 0);
    ExtendSerial(ss, es, ConsumeToken(1), s3);
    ss, es := ss + [s3], es + [ConsumeToken(1)];
  }

  lemma SerialRecorded() returns (ss: seq<Run>, es: seq<Event>)
    ensures SerialRun(ss, es)
    ensures ss[|es|] == BranchRun(Counter(0, {Consume("A"), Consume("B")}), 2, [BranchProc("A", Done, ["X"], 1), BranchProc("B", Done, [], 0), BranchProc("X", Absorbing, [], 0)], 1)
  {
    ss, es := SerialBConsumed();
    var a, x, counter := BranchProc("A", Done, ["X"], 1), BranchProc("X", Absorbing, [], 0), Counter(0, {Consume("A"), Consume("B")});
    var s1 := BranchRun(counter, 1, [a, BranchProc("B", Routing, [], 0), x], 0);
    ExtendSerial(ss, es, Determine(1, []), s1);
    ss, es := ss + [s1], es + [Determine(1, [])];
    var s2 := BranchRun(counter, 2, [a, BranchProc("B", Checking, [], 0), x], 0);
    ExtendSerial(ss, es, EmitTokens(1), s2);
    ss, es := ss + [s2], es + [EmitTokens(1)];
    var s3 := BranchRun(counter, 2, [a, BranchProc("B", Done, [], 0), x], 1);
    ExtendSerial(ss, es, Check(1), s3);
    ss, es := ss + [s3], es + [Check(1)];
  }

  /** Even with serial handlers: B records COMPLETED while the branch X is pending, and C's token is
      published afterwards. */
  lemma SerialEarlyCompletion() returns (ss: seq<Run>, es: seq<Event>, k: nat)
    ensures SerialRun(ss, es) && k < |es| && ss[k].completions == 1
    ensures BranchProc("C", InStream, [], 0) !in ss[k].procs && BranchProc("C", InStream, [], 0) in ss[|es|].procs
  {
    ss, es := SerialRecorded();
    k := |es|;
    var a, b, counter := BranchProc("A", Done, ["X"], 1), BranchProc("B", Done, [], 0), Counter(0, {Consume("A"), Consume("B")});
    assert ControlFlow.BranchChoice(PASS, None) == ["C"];
    var s1 := BranchRun(counter, 2, [a, b, BranchProc("X", Routing, ["C"], 0)], 1);
    ExtendSerial(ss, es, Determine(2, ["C"]), s1);
    ss, es := ss + [s1], es + [Determine(2, ["C"])];
    var s2 := BranchRun(counter, 2, [a, b, BranchProc("X", Routing, ["C"], 1), BranchProc("C", InStream, [], 0)], 1);
    ExtendSerial(ss, es, Route(2), s2);
    ss, es := ss + [s2], es + [Route(2)];
  }
}
