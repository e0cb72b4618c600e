/** What an approval is decided to: the status that is stored is the answer of the response whose
    handling was carried through, and with one response goroutine it is final. */
module HitlDecisions {
  import opened Hitl
  import opened HitlRaces

  /** Creating another approval, undoing, loading, decrementing and signalling decide nothing. */
  lemma OnlyMarksDecide(s: State, e: Event)
    requires Enabled(s, e) && !e.Mark?
    ensures forall key :: key in s.approvals ==> key in Step(s, e).approvals && Step(s, e).approvals[key] == s.approvals[key]
    ensures forall key :: key in Step(s, e).approvals && key !in s.approvals ==> Step(s, e).approvals[key].status == Pending
  {
  }

  /** A mark stores the answer of the response it belongs to, and no other record changes. */
  lemma MarkDecides(ss: seq<State>, es: seq<Event>, k: nat)
    requires RunTo(1, ss, es) && k < |es| && es[k].Mark?
    ensures var e := es[Loader(ss, k)];
      && e.Response? && e.key in ss[k].approvals && ss[k].approvals[e.key].status == Pending
      && ss[k + 1].approvals == ss[k].approvals[e.key := ss[k].approvals[e.key].(status := if e.approved then Approved else Rejected)]
  {
    assert Enabled(ss[k], es[k]) && ss[k + 1] == Step(ss[k], es[k]);
    RunKeepsShape(ss, es, k);
    WorkersStay(1, ss, es, k);
    LoaderExplains(ss, es, k);
  }

  /** Some response with this answer to this approval was carried through before state `k`. */
  ghost predicate Answered(ss: seq<State>, es: seq<Event>, k: nat, key: Key, approved: bool)
    requires k <= |es| < |ss|
  {
    exists m :: 0 <= m < k && AnsweredAt(ss, es, m, key, approved)
  }

  ghost predicate AnsweredAt(ss: seq<State>, es: seq<Event>, m: nat, key: Key, approved: bool)
    requires m < |es| < |ss|
  {
    es[m].Mark? && var e := es[Loader(ss, m)]; e.Response? && e.key == key && e.approved == approved
  }

  ghost predicate Stands(s: State, key: Key, status: Status) {
    key in s.approvals && s.approvals[key].status == status
  }

  lemma AnsweredSnoc(ss: seq<State>, es: seq<Event>, k: nat, key: Key, approved: bool)
    requires k < |es| < |ss|
    ensures Answered(ss, es, k + 1, key, approved) <==> Answered(ss, es, k, key, approved) || AnsweredAt(ss, es, k, key, approved)
  {
  }

  lemma StepDecides(ss: seq<State>, es: seq<Event>, k: nat, key: Key)
    requires RunTo(1, ss, es) && k < |es|
    ensures Stands(ss[k + 1], key, Approved) <==> Stands(ss[k], key, Approved) || AnsweredAt(ss, es, k, key, true)
    ensures Stands(ss[k + 1], key, Rejected) <==> Stands(ss[k], key, Rejected) || AnsweredAt(ss, es, k, key, false)
  {
    assert Enabled(ss[k], es[k]) && ss[k + 1] == Step(ss[k], es[k]);
    if es[k].Mark? {
      MarkDecides(ss, es, k);
    } else {
      OnlyMarksDecide(ss[k], es[k]);
    }
  }

  /** In every run of one worker an approval is approved if and only if a response that approved it
      was carried through, and rejected if and only if one that rejected it was. */
  lemma {:induction false} StatusIsAnswer(ss: seq<State>, es: seq<Event>, k: nat, key: Key)
    requires RunTo(1, ss, es) && k <= |es|
    ensures Stands(ss[k], key, Approved) <==> Answered(ss, es, k, key, true)
    ensures Stands(ss[k], key, Rejected) <==> Answered(ss, es, k, key, false)
  {
    if k > 0 {
      StatusIsAnswer(ss, es, k - 1, key);
      StepDecides(ss, es, k - 1, key);
      AnsweredSnoc(ss, es, k - 1, key, true);
      AnsweredSnoc(ss, es, k - 1, key, false);
    }
  }

  // ---- The signal tells the same answer as the record

  ghost predicate Deciding(s: State, key: Key, approved: bool) {
    && s.responders != [] && s.responders[0].Working? && s.responders[0].phase == Signalled
    && s.responders[0].key == key && s.responders[0].approved == approved
  }

  /** A signal was sent exactly for the answers that are recorded or about to be. */
  ghost predicate Told(s: State, key: Key, approved: bool) {
    Message(key, approved) in s.signals <==> Stands(s, key, if approved then Approved else Rejected) || Deciding(s, key, approved)
  }

  lemma StepTells(s: State, e: Event, key: Key, approved: bool)
    requires Shaped(s) && Enabled(s, e) && Told(s, key, approved)
    ensures Told(Step(s, e), key, approved)
  {
    if !e.Mark? {
      OnlyMarksDecide(s, e);
    }
  }

  lemma {:induction false} RunsTell(ss: seq<State>, es: seq<Event>, k: nat, key: Key, approved: bool)
    requires RunTo(1, ss, es) && k <= |es|
    ensures Told(ss[k], key, approved)
  {
    if k > 0 {
      RunsTell(ss, es, k - 1, key, approved);
      RunKeepsShape(ss, es, k - 1);
      assert Enabled(ss[k - 1], es[k - 1]) && ss[k - 1 + 1] == Step(ss[k - 1], es[k - 1]);
      StepTells(ss[k - 1], es[k - 1], key, approved);
    }
  }

  /** With one response goroutine, whenever it is idle, a completion signal with an answer was sent if and
      only if that answer is recorded. */
  lemma SignalsMatchRecords(ss: seq<State>, es: seq<Event>, k: nat, key: Key)
    requires RunTo(1, ss, es) && k <= |es| && forall p :: p in ss[k].responders ==> p.Idle?
    ensures Message(key, true) in ss[k].signals <==> Stands(ss[k], key, Approved)
    ensures Message(key, false) in ss[k].signals <==> Stands(ss[k], key, Rejected)
  {
    RunsTell(ss, es, k, key, true);
    RunsTell(ss, es, k, key, false);
    assert ss[k].responders != [] ==> ss[k].responders[0] in ss[k].responders;
  }

  // ---- Decisions are final with one response goroutine only

  ghost predicate Closed(s: State, key: Key) {
    key in s.approvals && s.approvals[key].status != Pending
  }

  lemma StepKeepsClosed(workers: nat, ss: seq<State>, es: seq<Event>, k: nat, key: Key)
    requires RunTo(workers, ss, es) && workers <= 1 && k < |es| && Closed(ss[k], key)
    ensures key in ss[k + 1].approvals && ss[k + 1].approvals[key] == ss[k].approvals[key]
  {
    assert Enabled(ss[k], es[k]) && ss[k + 1] == Step(ss[k], es[k]);
    WorkersStay(workers, ss, es, k);
    if es[k].Mark? {
      MarkDecides(ss, es, k);
    } else {
      OnlyMarksDecide(ss[k], es[k]);
    }
  }

  /** Once decided, a record never changes again. */
  lemma {:induction false} DecisionsStay(workers: nat, ss: seq<State>, es: seq<Event>, k: nat, m: nat, key: Key)
    requires RunTo(workers, ss, es) && workers <= 1 && k <= m <= |es| && Closed(ss[k], key)
    ensures key in ss[m].approvals && ss[m].approvals[key] == ss[k].approvals[key]
    decreases m
  {
    if k < m {
      DecisionsStay(workers, ss, es, k, m - 1, key);
      StepKeepsClosed(workers, ss, es, m - 1, key);
    }
  }

  /** Decrements, signals and marks one loaded response. */
  lemma Finish(ss: seq<State>, es: seq<Event>, r: nat, key: Key) returns (ss': seq<State>, es': seq<Event>)
    requires IsTrace(ss, es) && Holds(ss[|es|], r, key) && ss[|es|].responders[r].phase == Loaded && key in ss[|es|].approvals
    ensures IsTrace(ss', es') && ss'[0] == ss[0] && |es'| == |es| + 3 && ss <= ss'
    ensures Stands(ss'[|es'|], key, if ss[|es|].responders[r].approved then Approved else Rejected)
    ensures ss'[|es'|].responders == ss[|es|].responders[r := Idle]
  {
    var s0 := ss[|es|];
    var s1 := OnDecrement(s0, r);
    ExtendTrace(ss, es, Decrement(r), s1);
    ss', es' := ss + [s1], es + [Decrement(r)];
    var s2 := OnSignal(s1, r);
    ExtendTrace(ss', es', Signal(r), s2);
    ss', es' := ss' + [s2], es' + [Signal(r)];
    var s3 := OnMark(s2, r);
    ExtendTrace(ss', es', Mark(r), s3);
    ss', es' := ss' + [s3], es' + [Mark(r)];
  }

  lemma OppositeAnswersLoaded(workers: nat, key: Key) returns (ss: seq<State>, es: seq<Event>)
    requires workers >= 2
    ensures RunTo(workers, ss, es) && Holds(ss[|es|], 0, key) && Holds(ss[|es|], 1, key) && Stands(ss[|es|], key, Pending)
    ensures var ps := ss[|es|].responders; ps[0].phase == ps[1].phase == Loaded && ps[0].approved && !ps[1].approved
  {
    var s0 := Start(workers);
    ss, es := [s0], [];
    var s1 := OnRequest(s0, key, FlowOf("u", "t"), "id");
    ExtendTrace(ss, es, Request(key, "u", "t", "id"), s1);
    ss, es := ss + [s1], es + [Request(key, "u", "t", "id")];
    var s2 := OnResponse(s1, 0, key, true, "");
    ExtendTrace(ss, es, Response(0, key, true, ""), s2);
    ss, es := ss + [s2], es + [Response(0, key, true, "")];
    var s3 := OnResponse(s2, 1, key, false, "");
    ExtendTrace(ss, es, Response(1, key, false, ""), s3);
    ss, es := ss + [s3], es + [Response(1, key, false, "")];
  }

  /** With two response goroutines an approved record can turn into a rejected one. */
  lemma ApprovedThenRejected(workers: nat, key: Key) returns (ss: seq<State>, es: seq<Event>, k: nat)
    requires workers >= 2
    ensures RunTo(workers, ss, es) && k <= |es| && Stands(ss[k], key, Approved) && Stands(ss[|es|], key, Rejected)
  {
    ss, es := OppositeAnswersLoaded(workers, key);
    ss, es := Finish(ss, es, 0, key);
    k := |es|;
    ss, es := Finish(ss, es, 1, key);
  }

  /** No run ever changes a decided record if and only if there is at most one response goroutine. */
  lemma DecisionsFinalIffOneWorker(workers: nat, key: Key)
    ensures (forall ss: seq<State>, es: seq<Event>, k: nat, m: nat :: RunTo(workers, ss, es) && k <= m <= |es| && Closed(ss[k], key) ==>
              key in ss[m].approvals && ss[m].approvals[key] == ss[k].approvals[key])
       <==> workers <= 1
  {
    if workers <= 1 {
      forall ss: seq<State>, es: seq<Event>, k: nat, m: nat | RunTo(workers, ss, es) && k <= m <= |es| && Closed(ss[k], key)
        ensures key in ss[m].approvals && ss[m].approvals[key] == ss[k].approvals[key]
      {
        DecisionsStay(workers, ss, es, k, m, key);
      }
    } else {
      var ss, es, k := ApprovedThenRejected(workers, key);
      assert RunTo(workers, ss, es) && Closed(ss[k], key);
    }
  }
}
