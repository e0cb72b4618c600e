/** Any number of response goroutines (several approval workers on one Redis): exactly when a
    (run, node) can signal twice, and what a response with a foreign workflow tag does. */
module HitlRaces {
  import opened Hitl

  // ---- One signal per approval

  ghost predicate Holds(s: State, r: int, key: Key) {
    0 <= r < |s.responders| && s.responders[r].Working? && s.responders[r].key == key
  }

  /** At most one goroutine is between loading the approval and marking it. */
  ghost predicate Exclusive(s: State, key: Key) {
    forall r, r' :: Holds(s, r, key) && Holds(s, r', key) ==> r == r'
  }

  ghost predicate SignalPending(s: State, key: Key) {
    exists r :: Holds(s, r, key) && s.responders[r].phase == Signalled
  }

  ghost predicate Once(s: State, key: Key) {
    && (forall r :: Holds(s, r, key) ==> key in s.approvals && s.approvals[key].status == Pending)
    && SentFor(s.signals, key) <= 1
    && (SentFor(s.signals, key) == 1 ==> key in s.approvals && (s.approvals[key].status != Pending || SignalPending(s, key)))
  }

  lemma SignalKeepsOnce(s: State, r: nat, key: Key)
    requires Once(s, key) && Exclusive(s, key) && Enabled(s, Signal(r))
    ensures Once(OnSignal(s, r), key)
  {
    var t := OnSignal(s, r);
    SignalSends(s, r, key);
    assert forall q :: Holds(t, q, key) <==> Holds(s, q, key);
    if Holds(s, r, key) {
      assert !SignalPending(s, key);
      assert Holds(t, r, key) && t.responders[r].phase == Signalled;
    } else if SignalPending(s, key) {
      var q :| Holds(s, q, key) && s.responders[q].phase == Signalled;
      assert Holds(t, q, key) && t.responders[q] == s.responders[q];
    }
  }

  lemma ResponseKeepsOnce(s: State, r: nat, k: Key, approved: bool, tag: string, key: Key)
    requires Once(s, key) && Enabled(s, Response(r, k, approved, tag)) && Exclusive(OnResponse(s, r, k, approved, tag), key)
    ensures Once(OnResponse(s, r, k, approved, tag), key)
  {
    var t := OnResponse(s, r, k, approved, tag);
    assert forall q :: Holds(s, q, key) ==> Holds(t, q, key) && t.responders[q] == s.responders[q];
  }

  lemma MarkKeepsOnce(s: State, r: nat, key: Key)
    requires Once(s, key) && Exclusive(s, key) && Enabled(s, Mark(r))
    ensures Once(OnMark(s, r), key)
  {
    var t := OnMark(s, r);
    assert forall q :: Holds(t, q, key) <==> Holds(s, q, key) && q != r;
    if !Holds(s, r, key) && SignalPending(s, key) {
      var q :| Holds(s, q, key) && s.responders[q].phase == Signalled;
      assert Holds(t, q, key) && t.responders[q] == s.responders[q];
    }
  }

  lemma DecrementKeepsOnce(s: State, r: nat, key: Key)
    requires Once(s, key) && Enabled(s, Decrement(r))
    ensures Once(OnDecrement(s, r), key)
  {
    var t := OnDecrement(s, r);
    assert forall q :: Holds(t, q, key) <==> Holds(s, q, key);
    if SignalPending(s, key) {
      var q :| Holds(s, q, key) && s.responders[q].phase == Signalled;
      assert Holds(t, q, key) && t.responders[q] == s.responders[q];
    }
  }

  lemma RequesterKeepsOnce(s: State, e: Event, key: Key)
    requires Once(s, key) && Enabled(s, e) && (e.Request? || e.Undo?)
    ensures Once(Step(s, e), key)
  {
    var t := Step(s, e);
    assert t.responders == s.responders && t.signals == s.signals;
    assert forall q :: Holds(t, q, key) <==> Holds(s, q, key);
    if SignalPending(s, key) {
      var q :| Holds(s, q, key) && s.responders[q].phase == Signalled;
      assert Holds(t, q, key);
    }
  }

  lemma StepKeepsOnce(s: State, e: Event, key: Key)
    requires Once(s, key) && Enabled(s, e) && Exclusive(s, key) && Exclusive(Step(s, e), key)
    ensures Once(Step(s, e), key)
  {
    match e
    case Request(_, _, _, _) => RequesterKeepsOnce(s, e, key);
    case Undo => RequesterKeepsOnce(s, e, key);
    case Response(r, k, approved, tag) => ResponseKeepsOnce(s, r, k, approved, tag, key);
    case Decrement(r) => DecrementKeepsOnce(s, r, key);
    case Signal(r) => SignalKeepsOnce(s, r, key);
    case Mark(r) => MarkKeepsOnce(s, r, key);
  }

  /** As long as no two goroutines hold the approval at once, it signals at most once, with any
      number of workers and any duplication. */
  lemma {:induction false} ExclusiveRunsSignalOnce(workers: nat, ss: seq<State>, es: seq<Event>, k: nat, key: Key)
    requires IsTrace(ss, es) && ss[0] == Start(workers) && k < |ss|
    requires forall j :: 0 <= j <= k ==> Exclusive(ss[j], key)
    ensures Once(ss[k], key)
  {
    if k > 0 {
      ExclusiveRunsSignalOnce(workers, ss, es, k - 1, key);
      assert Exclusive(ss[k - 1], key) && ss[k - 1 + 1] == Step(ss[k - 1], es[k - 1]);
      StepKeepsOnce(ss[k - 1], es[k - 1], key);
    } else {
      assert forall r :: !Holds(ss[0], r, key);
    }
  }

  // ---- The converse

  /** A goroutine past its signal has signalled. */
  ghost predicate SignalsCounted(s: State, key: Key) {
    SignalPending(s, key) ==> SentFor(s.signals, key) >= 1
  }

  lemma StepCountsSignals(s: State, e: Event, key: Key)
    requires SignalsCounted(s, key) && Enabled(s, e)
    ensures SignalsCounted(Step(s, e), key)
  {
    var t := Step(s, e);
    if e.Signal? {
      SignalSends(s, e.r, key);
    }
    if SignalPending(t, key) {
      var q :| Holds(t, q, key) && t.responders[q].phase == Signalled;
      if !(e.Signal? && e.r == q) {
        assert t.responders[q] == s.responders[q];
        assert Holds(s, q, key);
      }
    }
  }

  lemma {:induction false} RunCountsSignals(workers: nat, ss: seq<State>, es: seq<Event>, k: nat, key: Key)
    requires IsTrace(ss, es) && ss[0] == Start(workers) && k < |ss|
    ensures SignalsCounted(ss[k], key)
  {
    if k > 0 {
      RunCountsSignals(workers, ss, es, k - 1, key);
      StepCountsSignals(ss[k - 1], es[k - 1], key);
    }
  }

  /** A goroutine that holds the approval can always go on to signal. */
  lemma SignalNow(ss: seq<State>, es: seq<Event>, r: nat, key: Key) returns (ss': seq<State>, es': seq<Event>)
    requires IsTrace(ss, es) && Holds(ss[|es|], r, key) && ss[|es|].responders[r].phase != Signalled
    ensures IsTrace(ss', es') && ss'[0] == ss[0]
    ensures SentFor(ss'[|es'|].signals, key) == SentFor(ss[|es|].signals, key) + 1
    ensures forall q :: q != r && Holds(ss[|es|], q, key) ==> Holds(ss'[|es'|], q, key) && ss'[|es'|].responders[q] == ss[|es|].responders[q]
  {
    ss', es' := ss, es;
    var s := ss[|es|];
    if s.responders[r].phase == Loaded {
      ExtendTrace(ss', es', Decrement(r), OnDecrement(s, r));
      s := OnDecrement(s, r);
      ss', es' := ss' + [s], es' + [Decrement(r)];
    }
    SignalSends(s, r, key);
    ExtendTrace(ss', es', Signal(r), OnSignal(s, r));
    ss', es' := ss' + [OnSignal(s, r)], es' + [Signal(r)];
  }

  /** Two goroutines holding one approval, one of them before its signal, can both signal. */
  lemma SharedApprovalSignalsTwice(workers: nat, ss: seq<State>, es: seq<Event>, r: nat, r': nat, key: Key)
    returns (ss': seq<State>, es': seq<Event>)
    requires IsTrace(ss, es) && ss[0] == Start(workers) && r != r'
    requires Holds(ss[|es|], r, key) && Holds(ss[|es|], r', key) && ss[|es|].responders[r'].phase != Signalled
    ensures IsTrace(ss', es') && ss'[0] == Start(workers) && SentFor(ss'[|es'|].signals, key) >= 2
  {
    ss', es' := ss, es;
    if ss[|es|].responders[r].phase != Signalled {
      ss', es' := SignalNow(ss, es, r, key);
    } else {
      RunCountsSignals(workers, ss, es, |es|, key);
      assert SignalPending(ss[|es|], key);
    }
    assert SentFor(ss'[|es'|].signals, key) >= 1;
    ss', es' := SignalNow(ss', es', r', key);
  }

  lemma StillHeld(s: State, e: Event, q: int, key: Key)
    requires Enabled(s, e) && Holds(Step(s, e), q, key) && !(e.Response? && e.r == q)
    ensures Holds(s, q, key)
  {
  }

  /** Only a response can make an approval shared, and it has then just loaded it. */
  lemma FirstSharing(s: State, e: Event, key: Key) returns (r: nat, r': nat)
    requires Enabled(s, e) && Exclusive(s, key) && !Exclusive(Step(s, e), key)
    ensures r != r' && Holds(Step(s, e), r, key) && Holds(Step(s, e), r', key) && Step(s, e).responders[r'].phase != Signalled
  {
    var t := Step(s, e);
    var a, b :| Holds(t, a, key) && Holds(t, b, key) && a != b;
    assert e.Response? && (e.r == a || e.r == b) by {
      if !(e.Response? && e.r == a) { StillHeld(s, e, a, key); }
      if !(e.Response? && e.r == b) { StillHeld(s, e, b, key); }
    }
    r, r' := if e.r == a then b else a, e.r;
  }

  lemma StartIsExclusive(workers: nat, key: Key)
    ensures Exclusive(Start(workers), key)
  {
    assert forall r :: !Holds(Start(workers), r, key);
  }

  ghost predicate RunTo(workers: nat, ss: seq<State>, es: seq<Event>) {
    IsTrace(ss, es) && ss[0] == Start(workers)
  }

  lemma PrefixIsRun(workers: nat, ss: seq<State>, es: seq<Event>, k: nat)
    requires RunTo(workers, ss, es) && k <= |es|
    ensures RunTo(workers, ss[..k + 1], es[..k])
  {
  }

  lemma {:induction false} FirstViolation(workers: nat, ss: seq<State>, es: seq<Event>, k: nat, key: Key) returns (j: nat)
    requires RunTo(workers, ss, es) && k < |ss| && !Exclusive(ss[k], key)
    ensures 0 < j <= k && Exclusive(ss[j - 1], key) && !Exclusive(ss[j], key)
  {
    StartIsExclusive(workers, key);
    assert k > 0;
    if Exclusive(ss[k - 1], key) {
      j := k;
    } else {
      j := FirstViolation(workers, ss, es, k - 1, key);
    }
  }

  lemma SharedRunExtends(workers: nat, ss: seq<State>, es: seq<Event>, key: Key) returns (ss': seq<State>, es': seq<Event>)
    requires RunTo(workers, ss, es) && !Exclusive(ss[|es|], key)
    ensures RunTo(workers, ss', es') && SentFor(ss'[|es'|].signals, key) >= 2
  {
    var j := FirstViolation(workers, ss, es, |es|, key);
    assert ss[j - 1 + 1] == Step(ss[j - 1], es[j - 1]);
    var r, r' := FirstSharing(ss[j - 1], es[j - 1], key);
    PrefixIsRun(workers, ss, es, j);
    assert ss[..j + 1][j] == ss[j];
    ss', es' := SharedApprovalSignalsTwice(workers, ss[..j + 1], es[..j], r, r', key);
  }

  /** The mechanism: no run signals a (run, node) twice if and only if no run lets two goroutines
      hold its approval at once. */
  lemma SignalsOnceIffExclusive(workers: nat, key: Key)
    ensures (forall ss: seq<State>, es: seq<Event> :: RunTo(workers, ss, es) ==> SentFor(ss[|es|].signals, key) <= 1)
       <==> (forall ss: seq<State>, es: seq<Event> :: RunTo(workers, ss, es) ==> Exclusive(ss[|es|], key))
  {
    if forall ss: seq<State>, es: seq<Event> :: RunTo(workers, ss, es) ==> Exclusive(ss[|es|], key) {
      forall ss: seq<State>, es: seq<Event> | RunTo(workers, ss, es) ensures SentFor(ss[|es|].signals, key) <= 1 {
        forall j | 0 <= j <= |es| ensures Exclusive(ss[j], key) {
          PrefixIsRun(workers, ss, es, j);
          assert ss[..j + 1][|es[..j]|] == ss[j];
        }
        ExclusiveRunsSignalOnce(workers, ss, es, |es|, key);
      }
    } else {
      var ss, es :| RunTo(workers, ss, es) && !Exclusive(ss[|es|], key);
      var ss', es' := SharedRunExtends(workers, ss, es, key);
    }
  }

  lemma {:induction false} WorkersStay(workers: nat, ss: seq<State>, es: seq<Event>, k: nat)
    requires RunTo(workers, ss, es) && k < |ss|
    ensures |ss[k].responders| == workers
  {
    if k > 0 {
      WorkersStay(workers, ss, es, k - 1);
      assert ss[k - 1 + 1] == Step(ss[k - 1], es[k - 1]);
    }
  }

  /** With two goroutines or more, two of them can load the same pending approval. */
  lemma TwoCanShare(workers: nat, key: Key) returns (ss: seq<State>, es: seq<Event>)
    requires workers >= 2
    ensures RunTo(workers, ss, es) && !Exclusive(ss[|es|], key)
  {
    var s0 := Start(workers);
    ss, es := [s0], [];
    var s1 := OnRequest(s0, key, FlowOf("u", "t"), "id");
    ExtendTrace(ss, es, Request(key, "u", "t", "id"), s1);
    ss, es := ss + [s1], es + [Request(key, "u", "t", "id")];
    var s2 := OnResponse(s1, 0, key, true, "");
    ExtendTrace(ss, es, Response(0, key, true, ""), s2);
    ss, es := ss + [s2], es + [Response(0, key, true, "")];
    var s3 := OnResponse(s2, 1, key, true, "");
    ExtendTrace(ss, es, Response(1, key, true, ""), s3);
    ss, es := ss + [s3], es + [Response(1, key, true, "")];
    assert Holds(s3, 0, key) && Holds(s3, 1, key);
  }

  /** A (run, node) signals at most once in every run if and only if there is at most one response
      goroutine. */
  lemma SignalsOnceIffOneWorker(workers: nat, key: Key)
    ensures (forall ss: seq<State>, es: seq<Event> :: RunTo(workers, ss, es) ==> SentFor(ss[|es|].signals, key) <= 1)
       <==> workers <= 1
  {
    SignalsOnceIffExclusive(workers, key);
    if workers <= 1 {
      forall ss: seq<State>, es: seq<Event> | RunTo(workers, ss, es) ensures Exclusive(ss[|es|], key) {
        WorkersStay(workers, ss, es, |es|);
      }
    } else {
      var ss, es := TwoCanShare(workers, key);
    }
  }

  // ---- Foreign tags

  /** A response that names another workflow tag takes that workflow's counter below zero. */
  lemma ForeignTagGoesNegative(key: Key) returns (ss: seq<State>, es: seq<Event>)
    ensures IsTrace(ss, es) && ss[0] == Start(1)
    ensures Get(ss[|es|].counters, OfFlow("u", "other")) == -1
  {
    var s0 := Start(1);
    ss, es := [s0], [];
    var s1 := OnRequest(s0, key, OfFlow("u", "t"), "id");
    assert FlowOf("u", "t") == OfFlow("u", "t");
    ExtendTrace(ss, es, Request(key, "u", "t", "id"), s1);
    ss, es := ss + [s1], es + [Request(key, "u", "t", "id")];
    var s2 := OnResponse(s1, 0, key, true, "other");
    ExtendTrace(ss, es, Response(0, key, true, "other"), s2);
    ss, es := ss + [s2], es + [Response(0, key, true, "other")];
    var s3 := OnDecrement(s2, 0);
    ExtendTrace(ss, es, Decrement(0), s3);
    ss, es := ss + [s3], es + [Decrement(0)];
  }

  // ---- Workflow counters balance exactly when marked responses name the stored tag

  ghost predicate Busy(s: State) {
    s.responders != [] && s.responders[0].Working?
  }

  /** The index of the response that the single responder is working on in state `k`. */
  ghost function Loader(ss: seq<State>, k: nat): (j: nat)
    requires k < |ss|
    ensures j <= k && (k > 0 ==> j < k)
  {
    if k == 0 then 0 else if Busy(ss[k - 1]) then Loader(ss, k - 1) else k - 1
  }

  /** The response carried no workflow tag, or the one stored with the approval. */
  ghost predicate NamesStoredTag(s: State, e: Event) {
    e.Response? && e.key in s.approvals && s.approvals[e.key].flow.OfFlow?
    && (e.tag == "" || e.tag == s.approvals[e.key].flow.tag)
  }

  lemma TagDecidesFlow(a: Approval, tag: string)
    requires Named(a.flow)
    ensures FlowFor(a, tag) == a.flow <==> tag == "" || tag == a.flow.tag
  {
  }

  /** The approval of a working responder keeps the workflow label it was counted in. */
  lemma StepKeepsFlows(s: State, e: Event, key: Key)
    requires Enabled(s, e) && key in s.approvals
    ensures key in Step(s, e).approvals && Step(s, e).approvals[key].flow == s.approvals[key].flow
  {
  }

  /** The responder of `t` works on the response `e` to `s`, with the label that response chose. */
  ghost predicate Explains(s: State, e: Event, t: State) {
    && |t.responders| == 1 && t.responders[0].Working?
    && var p := t.responders[0];
       && e.Response? && e.key == p.key && e.approved == p.approved && p.key in s.approvals && Named(s.approvals[p.key].flow)
       && p.flow == FlowFor(s.approvals[p.key], e.tag)
       && p.key in t.approvals && t.approvals[p.key].flow == s.approvals[p.key].flow
  }

  lemma ResponseExplains(s: State, e: Event)
    requires Shaped(s) && |s.responders| == 1 && Enabled(s, e) && s.responders[0].Idle?
    ensures Step(s, e).responders[0].Working? ==> Explains(s, e, Step(s, e))
  {
  }

  lemma StepKeepsExplained(s: State, e: Event, t: State, f: Event)
    requires Explains(s, e, t) && Enabled(t, f)
    ensures |Step(t, f).responders| == 1 && (Step(t, f).responders[0].Working? ==> Explains(s, e, Step(t, f)))
  {
    StepKeepsFlows(t, f, t.responders[0].key);
  }

  lemma {:induction false} LoaderExplains(ss: seq<State>, es: seq<Event>, k: nat)
    requires RunTo(1, ss, es) && k < |ss| && Busy(ss[k])
    ensures k > 0 && Explains(ss[Loader(ss, k)], es[Loader(ss, k)], ss[k])
  {
    var i := k - 1;
    assert Enabled(ss[i], es[i]) && ss[i + 1] == Step(ss[i], es[i]);
    if Busy(ss[i]) {
      LoaderExplains(ss, es, i);
      StepKeepsExplained(ss[Loader(ss, i)], es[Loader(ss, i)], ss[i], es[i]);
    } else {
      assert Shaped(ss[i]) && |ss[i].responders| == 1 by {
        RunKeepsShape(ss, es, i);
        WorkersStay(1, ss, es, i);
      }
      ResponseExplains(ss[i], es[i]);
    }
  }

  ghost predicate Honest(ss: seq<State>, es: seq<Event>)
    requires |es| < |ss|
  {
    forall k :: 0 <= k < |es| && es[k].Mark? ==> MarkIsHonest(ss, es, k)
  }

  ghost predicate MarkIsHonest(ss: seq<State>, es: seq<Event>, k: nat)
    requires k < |es| < |ss|
  {
    var j := Loader(ss, k);
    NamesStoredTag(ss[j], es[j])
  }

  lemma MarkBalancesAll(s: State, r: nat)
    requires |s.responders| <= 1 && Enabled(s, Mark(r)) && Holding(s) && s.responders[r].flow.OfFlow?
    requires forall l: Label :: l.OfFlow? ==> Balanced(s, l)
    ensures (forall l: Label :: l.OfFlow? ==> Balanced(OnMark(s, r), l)) <==> s.responders[r].flow == s.approvals[s.responders[r].key].flow
  {
    var p := s.responders[r];
    forall l: Label | l.OfFlow?
      ensures Balanced(OnMark(s, r), l) <==> (l == p.flow <==> l == s.approvals[p.key].flow)
    {
      MarkKeepsBalance(s, r, l);
    }
  }

  lemma HonestIffSameFlow(ss: seq<State>, es: seq<Event>, k: nat)
    requires RunTo(1, ss, es) && k < |es| && es[k].Mark?
    ensures |ss[k].responders| == 1 && es[k].r == 0 && ss[k].responders[0].Working? && ss[k].responders[0].key in ss[k].approvals
    ensures MarkIsHonest(ss, es, k) <==> ss[k].responders[0].flow == ss[k].approvals[ss[k].responders[0].key].flow
  {
    WorkersStay(1, ss, es, k);
    LoaderExplains(ss, es, k);
    var j := Loader(ss, k);
    TagDecidesFlow(ss[j].approvals[ss[k].responders[0].key], es[j].tag);
  }

  /** Only marking can unbalance a workflow counter, and it does exactly when the response named
      another tag. */
  lemma MarkBalancesIff(ss: seq<State>, es: seq<Event>, k: nat)
    requires RunTo(1, ss, es) && k < |es| && es[k].Mark? && forall l: Label :: l.OfFlow? ==> Balanced(ss[k], l)
    ensures (forall l: Label :: l.OfFlow? ==> Balanced(ss[k + 1], l)) <==> MarkIsHonest(ss, es, k)
  {
    HonestIffSameFlow(ss, es, k);
    RunKeepsShape(ss, es, k);
    MarkBalancesAll(ss[k], 0);
    assert ss[k + 1] == OnMark(ss[k], 0);
  }

  lemma OtherStepsBalance(s: State, e: Event, l: Label)
    requires Shaped(s) && Enabled(s, e) && !e.Mark? && l.OfFlow? && Balanced(s, l)
    ensures Balanced(Step(s, e), l)
  {
    match e
    case Request(key, user, tag, tokenId) => RequestKeepsBalance(s, key, FlowOf(user, tag), tokenId, l);
    case Undo => UndoKeepsBalance(s, l);
    case Response(r, key, approved, tag) => UnmarkedOne(s.responders, l); UnmarkedOne(OnResponse(s, r, key, approved, tag).responders, l);
    case Decrement(r) => DecrementKeepsBalance(s, r, l);
    case Signal(r) => UnmarkedOne(s.responders, l); UnmarkedOne(OnSignal(s, r).responders, l);
    case Mark(_) =>
  }

  lemma {:induction false} HonestRunsBalance(ss: seq<State>, es: seq<Event>, k: nat)
    requires RunTo(1, ss, es) && Honest(ss, es) && k < |ss|
    ensures forall l: Label :: l.OfFlow? ==> Balanced(ss[k], l)
  {
    if k == 0 {
      forall l: Label | l.OfFlow? ensures Balanced(ss[0], l) {
        assert PendingAt(ss[0].approvals, l) == {};
        UnmarkedOne(ss[0].responders, l);
      }
    } else {
      var i := k - 1;
      HonestRunsBalance(ss, es, i);
      if es[i].Mark? {
        assert MarkIsHonest(ss, es, i);
        MarkBalancesIff(ss, es, i);
      } else {
        RunKeepsShape(ss, es, i);
        assert ss[i + 1] == Step(ss[i], es[i]);
        forall l: Label | l.OfFlow? ensures Balanced(ss[k], l) {
          OtherStepsBalance(ss[i], es[i], l);
        }
      }
    }
  }

  /** In a run of one worker every workflow counter is balanced in every state if and only if every
      response that was carried through named no tag or the one stored with its approval. */
  lemma BalancedIffHonest(ss: seq<State>, es: seq<Event>)
    requires RunTo(1, ss, es)
    ensures (forall k, l: Label :: 0 <= k < |ss| && l.OfFlow? ==> Balanced(ss[k], l)) <==> Honest(ss, es)
  {
    if Honest(ss, es) {
      forall k, l: Label | 0 <= k < |ss| && l.OfFlow? ensures Balanced(ss[k], l) {
        HonestRunsBalance(ss, es, k);
      }
    } else {
      var k :| 0 <= k < |es| && es[k].Mark? && !MarkIsHonest(ss, es, k);
      if forall k, l: Label :: 0 <= k < |ss| && l.OfFlow? ==> Balanced(ss[k], l) {
        MarkBalancesIff(ss, es, k);
      }
    }
  }
}
