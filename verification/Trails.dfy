/** The protocol as the order of its events: what an activation has been through when its token is
    consumed, when its successors are counted and when it checks for completion, and what a failed
    node can never do. Nothing here mentions phases. */
module Trails {
  import opened WorkflowIR
  import opened Coordinator
  import opened Activations
  import opened Completion

  // ---- The events of one activation

  /** The events of activation `i`, in order; a redelivery is none of its own steps. */
  ghost function Trail(es: seq<Event>, i: nat): seq<Event> {
    if es == [] then []
    else
      var last := es[|es| - 1];
      Trail(es[..|es| - 1], i) + if !last.Patch? && !last.Redeliver? && last.i == i then [last] else []
  }

  lemma TrailSnoc(es: seq<Event>, k: nat, i: nat)
    requires k < |es|
    ensures Trail(es[..k + 1], i) == Trail(es[..k], i) + if !es[k].Patch? && !es[k].Redeliver? && es[k].i == i then [es[k]] else []
  {
    assert es[..k + 1][..k] == es[..k];
  }

  /** The worker reported success, or no worker was involved. */
  ghost function Reported(i: nat, worked: bool): seq<Event> {
    if worked then [Work(i, true)] else []
  }

  /** A completion handler up to the last successor it has handled. */
  ghost function Handled(i: nat, worked: bool, next: seq<NodeId>, n: nat): seq<Event> {
    Reported(i, worked) + [Pop(i), ConsumeToken(i), Determine(i, next)] + Routes(i, n)
  }

  /** What the events of an activation say about where it stands. */
  ghost predicate Explained(p: Proc, i: nat, trail: seq<Event>) {
    match p.phase
    case InStream => trail == []
    case Skipping => trail == []
    case Absorbing => trail == []
    case Signalled(ok) => trail == [] || trail == [Work(i, ok)]
    case Ready => exists worked :: trail == Reported(i, worked) + [Pop(i)]
    case Consumed => exists worked :: trail == Reported(i, worked) + [Pop(i), ConsumeToken(i)]
    case Routing =>
      if p.absorber then trail == [Determine(i, p.next)] + Routes(i, p.pos)
      else exists worked :: trail == Handled(i, worked, p.next, p.pos)
    case Checking => exists worked :: trail == Handled(i, worked, p.next, |p.next|) + [EmitTokens(i)]
    case _ => true
  }


  ghost predicate AllExplained(s: Run, es: seq<Event>) {
    && (forall i :: 0 <= i < |s.procs| ==> Explained(s.procs[i], i, Trail(es, i)))
    && (forall i: nat :: i >= |s.procs| ==> Trail(es, i) == [])
  }

  lemma RoutesSnoc(prefix: seq<Event>, i: nat, n: nat)
    ensures prefix + Routes(i, n) + [Route(i)] == prefix + Routes(i, n + 1)
  {
  }

  lemma StartsExplained(s: Run, e: Event, trail: seq<Event>)
    requires Enabled(s, e) && (e.Work? || e.Pop? || e.ConsumeToken?) && Explained(s.procs[e.i], e.i, trail)
    ensures Explained(Advance(s, e), e.i, trail + [e])
  {
    var p, i := s.procs[e.i], e.i;
    if e.Work? {
      assert trail + [e] == [Work(i, e.ok)];
    } else if e.Pop? {
      if p.phase == Signalled(true) && trail != [] {
        assert trail + [e] == Reported(i, true) + [Pop(i)];
      } else if p.phase != Signalled(false) {
        assert trail + [e] == Reported(i, false) + [Pop(i)];
      }
    } else {
      var worked :| trail == Reported(i, worked) + [Pop(i)];
      assert trail + [e] == Reported(i, worked) + [Pop(i), ConsumeToken(i)];
    }
  }

  lemma DetermineExplained(s: Run, e: Event, trail: seq<Event>)
    requires Enabled(s, e) && e.Determine? && Explained(s.procs[e.i], e.i, trail) && WellFormed(s.procs[e.i])
    ensures Explained(Advance(s, e), e.i, trail + [e])
  {
    var p, i := s.procs[e.i], e.i;
    if p.absorber {
      assert trail + [e] == [Determine(i, e.next)] + Routes(i, 0);
    } else {
      var worked :| trail == Reported(i, worked) + [Pop(i), ConsumeToken(i)];
      assert trail + [e] == Handled(i, worked, e.next, 0);
    }
  }

  lemma EndsExplained(s: Run, e: Event, trail: seq<Event>)
    requires Enabled(s, e) && (e.Route? || e.EmitTokens?) && Explained(s.procs[e.i], e.i, trail)
    ensures Explained(Advance(s, e), e.i, trail + [e])
  {
    var p, i := s.procs[e.i], e.i;
    if p.absorber {
      RoutesSnoc([Determine(i, p.next)], i, p.pos);
    } else {
      var worked :| trail == Handled(i, worked, p.next, p.pos);
      RoutesSnoc(Reported(i, worked) + [Pop(i), ConsumeToken(i), Determine(i, p.next)], i, p.pos);
      assert e.Route? ==> trail + [e] == Handled(i, worked, p.next, p.pos + 1);
    }
  }

  lemma StepExplained(s: Run, e: Event, trail: seq<Event>)
    requires Enabled(s, e) && !e.Patch? && !e.Redeliver? && Explained(s.procs[e.i], e.i, trail) && WellFormed(s.procs[e.i])
    ensures Explained(Advance(s, e), e.i, trail + [e])
  {
    match e
    case Work(_, _) => StartsExplained(s, e, trail);
    case Pop(_) => StartsExplained(s, e, trail);
    case ConsumeToken(_) => StartsExplained(s, e, trail);
    case Determine(_, _) => DetermineExplained(s, e, trail);
    case Route(_) => EndsExplained(s, e, trail);
    case EmitTokens(_) => EndsExplained(s, e, trail);
    case Block(_) =>
    case Check(_) =>
  }

  /** A new activation has no events yet, and neither has a redelivered copy. */
  lemma AddedExplained(s: Run, e: Event, q: Proc, i: nat)
    requires Enabled(s, e) && !e.Patch? && q in Added(s, e)
    ensures Explained(q, i, [])
  {
  }

  lemma StepKeepsOne(s: Run, es: seq<Event>, k: nat, i: nat)
    requires k < |es| && Enabled(s, es[k]) && AllExplained(s, es[..k]) && forall p :: p in s.procs ==> WellFormed(p)
    ensures var t := Step(s, es[k]);
      if i < |t.procs| then Explained(t.procs[i], i, Trail(es[..k + 1], i)) else Trail(es[..k + 1], i) == []
  {
    var e, t := es[k], Step(s, es[k]);
    TrailSnoc(es, k, i);
    if !e.Patch? {
      if i < |s.procs| && i == e.i && !e.Redeliver? {
        assert s.procs[i] in s.procs;
        StepExplained(s, e, Trail(es[..k], i));
      } else if |s.procs| <= i < |t.procs| {
        assert t.procs[i] == Added(s, e)[i - |s.procs|];
        AddedExplained(s, e, t.procs[i], i);
      }
    }
  }

  lemma StepKeepsExplained(s: Run, es: seq<Event>, k: nat)
    requires k < |es| && Enabled(s, es[k]) && AllExplained(s, es[..k]) && forall p :: p in s.procs ==> WellFormed(p)
    ensures AllExplained(Step(s, es[k]), es[..k + 1])
  {
    var t, now := Step(s, es[k]), es[..k + 1];
    forall i | 0 <= i < |t.procs| ensures Explained(t.procs[i], i, Trail(now, i)) {
      StepKeepsOne(s, es, k, i);
    }
    forall i: nat | i >= |t.procs| ensures Trail(now, i) == [] {
      StepKeepsOne(s, es, k, i);
    }
  }

  /** In every run the events of each activation are those of its handler, in order. */
  lemma {:induction false} RunsAreExplained(ir: IR, entries: seq<NodeId>, ss: seq<Run>, es: seq<Event>, k: nat)
    requires IsRun(ir, entries, ss, es) && k <= |es|
    ensures AllExplained(ss[k], es[..k])
  {
    if k > 0 {
      RunsAreExplained(ir, entries, ss, es, k - 1);
      EveryRunConserves(ir, entries, ss, es, k - 1);
      StepKeepsExplained(ss[k - 1], es, k - 1);
    }
  }

  /** Whoever checks for completion has, in this order and each once: reported success if it had a
      worker, been taken up, consumed its token, chosen its successors, handled every one of them, and
      counted them. */
  lemma ChecksAreEarned(ir: IR, entries: seq<NodeId>, ss: seq<Run>, es: seq<Event>, k: nat) returns (worked: bool, next: seq<NodeId>)
    requires IsRun(ir, entries, ss, es) && k < |es| && es[k].Check?
    ensures var i := es[k].i;
      Trail(es[..k], i) == Reported(i, worked) + [Pop(i), ConsumeToken(i), Determine(i, next)] + Routes(i, |next|) + [EmitTokens(i)]
  {
    var i := es[k].i;
    RunsAreExplained(ir, entries, ss, es, k);
    assert Enabled(ss[k], es[k]);
    next := ss[k].procs[i].next;
    worked :| Trail(es[..k], i) == Handled(i, worked, next, |next|) + [EmitTokens(i)];
  }

  /** A token is consumed by an activation that was taken up after its worker, if any, had succeeded,
      and that has done nothing else. */
  lemma ConsumesAreEarned(ir: IR, entries: seq<NodeId>, ss: seq<Run>, es: seq<Event>, k: nat) returns (worked: bool)
    requires IsRun(ir, entries, ss, es) && k < |es| && es[k].ConsumeToken?
    ensures Trail(es[..k], es[k].i) == Reported(es[k].i, worked) + [Pop(es[k].i)]
  {
    RunsAreExplained(ir, entries, ss, es, k);
    assert Enabled(ss[k], es[k]);
    worked :| Trail(es[..k], es[k].i) == Reported(es[k].i, worked) + [Pop(es[k].i)];
  }

  // ---- Who has a worker

  /** Entry nodes are published to a worker stream, and so is every other node that has a worker. */
  ghost predicate Streamed(ir: IR, entries: seq<NodeId>, node: NodeId, i: nat) {
    i < |entries| || (node in ir && HasWorker(ir[node]))
  }

  ghost predicate Sorted(ir: IR, entries: seq<NodeId>, p: Proc, i: nat, trail: seq<Event>) {
    if p.absorber then true
    else if trail == [] then p.phase == (if Streamed(ir, entries, p.node, i) then InStream else Skipping)
    else trail[0].Work? <==> Streamed(ir, entries, p.node, i)
  }

  ghost predicate AllSorted(ir: IR, entries: seq<NodeId>, s: Run, es: seq<Event>) {
    && |s.procs| >= |entries|
    && forall i :: 0 <= i < |s.procs| ==> Sorted(ir, entries, s.procs[i], i, Trail(es, i))
  }

  lemma AdvanceSorted(ir: IR, entries: seq<NodeId>, s: Run, e: Event, trail: seq<Event>)
    requires Enabled(s, e) && !e.Patch? && !e.Redeliver? && WellFormed(s.procs[e.i]) && Sorted(ir, entries, s.procs[e.i], e.i, trail)
    ensures Sorted(ir, entries, Advance(s, e), e.i, trail + [e])
  {
    assert trail != [] ==> (trail + [e])[0] == trail[0];
  }

  lemma StepSortsOne(ir: IR, entries: seq<NodeId>, s: Run, es: seq<Event>, k: nat, i: nat)
    requires k < |es| && Enabled(s, es[k]) && !es[k].Patch? && !es[k].Redeliver? && i < |Step(s, es[k]).procs|
    requires AllSorted(ir, entries, s, es[..k]) && (forall p :: p in s.procs ==> WellFormed(p) && p.ir == ir)
    requires i >= |s.procs| ==> Trail(es[..k], i) == []
    ensures Sorted(ir, entries, Step(s, es[k]).procs[i], i, Trail(es[..k + 1], i))
  {
    var e, t := es[k], Step(s, es[k]);
    TrailSnoc(es, k, i);
    assert s.procs[e.i] in s.procs;
    if i == e.i {
      AdvanceSorted(ir, entries, s, e, Trail(es[..k], i));
    } else if i >= |s.procs| {
      assert t.procs[i] == Added(s, e)[i - |s.procs|];
    }
  }

  lemma {:induction false} QuietRunsAreSorted(ir: IR, entries: seq<NodeId>, ss: seq<Run>, es: seq<Event>, k: nat)
    requires IsRun(ir, entries, ss, es) && Quiet(es) && EntryOrder(ir, entries) && k <= |es|
    ensures AllSorted(ir, entries, ss[k], es[..k])
  {
    if k > 0 {
      var m, now := k - 1, es[..k];
      QuietRunsAreSorted(ir, entries, ss, es, m);
      assert forall p :: p in ss[m].procs ==> WellFormed(p) && p.ir == ir by {
        QuietRunTracks(ir, entries, ss, es, m);
      }
      RunsAreExplained(ir, entries, ss, es, m);
      assert es[m] in es && Enabled(ss[m], es[m]) && ss[m + 1] == Step(ss[m], es[m]);
      forall i | 0 <= i < |ss[k].procs| ensures Sorted(ir, entries, ss[k].procs[i], i, Trail(now, i)) {
        StepSortsOne(ir, entries, ss[m], es, m, i);
      }
    }
  }

  /** Without redelivery and patches, a token is consumed after its worker has reported success, if it
      was published to a worker, and after the synthetic completion otherwise. */
  lemma WorkersReportFirst(ir: IR, entries: seq<NodeId>, ss: seq<Run>, es: seq<Event>, k: nat)
    requires IsRun(ir, entries, ss, es) && Quiet(es) && EntryOrder(ir, entries) && k < |es| && es[k].ConsumeToken?
    ensures es[k].i < |ss[k].procs|
    ensures Trail(es[..k], es[k].i) == Reported(es[k].i, Streamed(ir, entries, ss[k].procs[es[k].i].node, es[k].i)) + [Pop(es[k].i)]
  {
    assert Enabled(ss[k], es[k]);
    var worked := ConsumesAreEarned(ir, entries, ss, es, k);
    QuietRunsAreSorted(ir, entries, ss, es, k);
    assert !ss[k].procs[es[k].i].absorber by {
      EveryRunConserves(ir, entries, ss, es, k);
      assert ss[k].procs[es[k].i] in ss[k].procs;
    }
  }

  // ---- Failed nodes

  predicate Doomed(p: Proc) {
    p.phase == Signalled(false) || p.phase == Failed || p.phase == Lost
  }

  lemma StepKeepsDoomed(s: Run, e: Event, i: nat)
    requires Enabled(s, e) && i < |s.procs| && Doomed(s.procs[i])
    ensures i < |Step(s, e).procs| && Doomed(Step(s, e).procs[i])
    ensures e.Patch? || e.i != i || e == Redeliver(i) || e == Pop(i)
  {
  }

  lemma FailureDooms(s: Run, i: nat)
    requires Enabled(s, Work(i, false))
    ensures i < |Step(s, Work(i, false)).procs| && Doomed(Step(s, Work(i, false)).procs[i])
  {
  }

  lemma {:induction false} FailedStaysDoomed(ss: seq<Run>, es: seq<Event>, i: nat, j: nat, k: nat)
    requires IsTrace(ss, es) && j < k <= |es| && es[j] == Work(i, false)
    ensures i < |ss[k].procs| && Doomed(ss[k].procs[i])
    decreases k
  {
    var m := k - 1;
    assert Enabled(ss[m], es[m]) && ss[m + 1] == Step(ss[m], es[m]);
    if j < m {
      FailedStaysDoomed(ss, es, i, j, m);
      StepKeepsDoomed(ss[m], es[m], i);
    } else {
      FailureDooms(ss[m], i);
    }
  }

  /** After a worker has reported a failure, its signal may be redelivered and taken up, and nothing
      else ever happens to that activation: its token is not consumed and nothing is routed. */
  lemma FailedNodesStop(ss: seq<Run>, es: seq<Event>, i: nat, j: nat, k: nat)
    requires IsTrace(ss, es) && j < k < |es| && es[j] == Work(i, false)
    ensures es[k].Patch? || es[k].i != i || es[k] == Redeliver(i) || es[k] == Pop(i)
  {
    FailedStaysDoomed(ss, es, i, j, k);
    assert Enabled(ss[k], es[k]);
    StepKeepsDoomed(ss[k], es[k], i);
  }

  /** With serial handlers and no redelivered signal, nothing records COMPLETED after a failure, on any
      graph. */
  lemma NoCompletionAfterFailure(ir: IR, entries: seq<NodeId>, ss: seq<Run>, es: seq<Event>, i: nat, j: nat, k: nat)
    requires IsRun(ir, entries, ss, es) && Serial(ss, es) && j < k < |es| && es[j] == Work(i, false) && ss[k].redelivered == 0
    ensures Enabled(ss[k], es[k]) && !Records(ss[k], es[k])
  {
    assert Enabled(ss[k], es[k]);
    FailedStaysDoomed(ss, es, i, j, k);
    assert ss[k].procs[i] in ss[k].procs;
    if Records(ss[k], es[k]) {
      CompletedWithoutTokens(ir, entries, ss, es, k);
    }
  }

  lemma RecordDrains(s: Run, e: Event)
    requires Enabled(s, e) && Records(s, e) && OthersDone(s, e.i)
    ensures Drained(Step(s, e))
  {
    var t := Step(s, e);
    forall p | p in t.procs ensures p.phase == Done {
      var j :| 0 <= j < |t.procs| && t.procs[j] == p;
      assert j != e.i ==> t.procs[j] == s.procs[j];
    }
  }

  lemma DrainedIsOver(s: Run, e: Event)
    requires Drained(s) && Enabled(s, e)
    ensures e.Patch?
  {
  }

  lemma RecordIsLast(ir: IR, entries: seq<NodeId>, ss: seq<Run>, es: seq<Event>, k: nat)
    requires IsRun(ir, entries, ss, es) && Quiet(es) && EntryOrder(ir, entries) && Serial(ss, es) && k < |es|
    requires Enabled(ss[k], es[k]) && Records(ss[k], es[k]) && forall n :: n in ir ==> !ir[n].IsAbsorber()
    ensures k + 1 == |es|
  {
    CompletedOnlyWhenIdle(ir, entries, ss, es, k);
    RecordDrains(ss[k], es[k]);
    if k + 1 < |es| {
      assert Enabled(ss[k + 1], es[k + 1]) && es[k + 1] in es && ss[k + 1] == Step(ss[k], es[k]);
      DrainedIsOver(ss[k + 1], es[k + 1]);
    }
  }

  lemma FailedRunRecordsNothing(ir: IR, entries: seq<NodeId>, ss: seq<Run>, es: seq<Event>, i: nat, j: nat, k: nat)
    requires IsRun(ir, entries, ss, es) && Quiet(es) && EntryOrder(ir, entries) && Serial(ss, es)
    requires (forall n :: n in ir ==> !ir[n].IsAbsorber()) && j < |es| && es[j] == Work(i, false) && k < |es|
    ensures Enabled(ss[k], es[k]) && !Records(ss[k], es[k])
  {
    assert Enabled(ss[k], es[k]);
    if j < k {
      assert ss[k].redelivered == 0 by {
        QuietRunTracks(ir, entries, ss, es, k);
      }
      NoCompletionAfterFailure(ir, entries, ss, es, i, j, k);
    } else if j > k && Records(ss[k], es[k]) {
      RecordIsLast(ir, entries, ss, es, k);
    }
  }

  /** On a workflow without absorbers, a run of serial handlers in which some worker fails never records
      COMPLETED, neither before the failure nor after it. */
  lemma {:induction false} FailedRunsNeverComplete(ir: IR, entries: seq<NodeId>, ss: seq<Run>, es: seq<Event>, i: nat, j: nat, k: nat)
    requires IsRun(ir, entries, ss, es) && Quiet(es) && EntryOrder(ir, entries) && Serial(ss, es)
    requires (forall n :: n in ir ==> !ir[n].IsAbsorber()) && j < |es| && es[j] == Work(i, false) && k <= |es|
    ensures ss[k].completions == 0
  {
    if k > 0 {
      FailedRunsNeverComplete(ir, entries, ss, es, i, j, k - 1);
      FailedRunRecordsNothing(ir, entries, ss, es, i, j, k - 1);
      assert ss[k - 1 + 1] == Step(ss[k - 1], es[k - 1]);
    }
  }
}
