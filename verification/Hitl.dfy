/** The human-approval worker (cmd/hitl-worker/worker/hitl_worker.go): a request goroutine and
    response goroutines share approval records and two pending counters in Redis. Every Redis
    command or transaction is one step. */
module Hitl {
  /** An approval is identified by run and node. */
  datatype Key = Key(run: string, node: string)

  /** The pending counters: one per run, one per user and workflow tag. */
  datatype Label = OfRun(run: string) | OfFlow(user: string, tag: string)

  datatype Status = Pending | Approved | Rejected

  /** `flow` is the workflow-level counter the approval was counted in. */
  datatype Approval = Approval(status: Status, flow: Label, tokenId: string)

  /** Where the request goroutine stands; only duplicates need further steps. */
  datatype Requester =
    | Waiting
    | UndoFlow(key: Key, flow: Label)   // both counters still to be decremented
    | UndoRun(key: Key)                 // run counter still to be decremented

  datatype Phase = Loaded | Decremented | Signalled

  /** Where a response goroutine stands. `flow` is the counter it decrements. */
  datatype Responder = Idle | Working(phase: Phase, key: Key, approved: bool, flow: Label)

  /** A completion signal with the answer it carries. */
  datatype Message = Message(key: Key, approved: bool)

  datatype State = State(
    approvals: map<Key, Approval>,
    counters: map<Label, int>,
    requester: Requester,
    responders: seq<Responder>,
    signals: seq<Message>)

  datatype Event =
    | Request(key: Key, user: string, tag: string, tokenId: string)
    | Undo
    | Response(r: nat, key: Key, approved: bool, tag: string)
    | Decrement(r: nat)
    | Signal(r: nat)
    | Mark(r: nat)

  function Get(m: map<Label, int>, l: Label): int {
    if l in m then m[l] else 0
  }

  function Add(m: map<Label, int>, l: Label, d: int): map<Label, int> {
    m[l := Get(m, l) + d]
  }

  function OrUnknown(s: string): string {
    if s == "" then "unknown" else s
  }

  function FlowOf(user: string, tag: string): Label {
    OfFlow(OrUnknown(user), OrUnknown(tag))
  }

  /** The counter a response decrements: the tag in the message wins over the stored one. */
  function FlowFor(a: Approval, tag: string): Label
    requires a.flow.OfFlow?
  {
    FlowOf(a.flow.user, if tag == "" then a.flow.tag else tag)
  }

  // ---- Steps

  ghost predicate Enabled(s: State, e: Event) {
    match e
    case Request(_, _, _, _) => s.requester.Waiting?
    case Undo => !s.requester.Waiting?
    case Response(r, _, _, _) => r < |s.responders| && s.responders[r].Idle?
    case Decrement(r) => r < |s.responders| && s.responders[r].Working? && s.responders[r].phase == Loaded
    case Signal(r) => r < |s.responders| && s.responders[r].Working? && s.responders[r].phase == Decremented
    case Mark(r) => r < |s.responders| && s.responders[r].Working? && s.responders[r].phase == Signalled
  }

  /** One transaction: create the approval unless it exists, and increment both counters anyway. */
  function OnRequest(s: State, key: Key, flow: Label, tokenId: string): State {
    var t := s.(counters := Add(Add(s.counters, flow, 1), OfRun(key.run), 1));
    if key in s.approvals then t.(requester := UndoFlow(key, flow))
    else t.(approvals := s.approvals[key := Approval(Pending, flow, tokenId)])
  }

  function OnUndo(s: State): State {
    match s.requester
    case Waiting => s
    case UndoFlow(key, flow) => s.(counters := Add(s.counters, flow, -1), requester := UndoRun(key))
    case UndoRun(key) => s.(counters := Add(s.counters, OfRun(key.run), -1), requester := Waiting)
  }

  /** Only a pending approval with a token id is taken up; anything else ends the handler. */
  function OnResponse(s: State, r: nat, key: Key, approved: bool, tag: string): State
    requires r < |s.responders|
  {
    if key in s.approvals && s.approvals[key].status == Pending && s.approvals[key].tokenId != "" && s.approvals[key].flow.OfFlow?
    then s.(responders := s.responders[r := Working(Loaded, key, approved, FlowFor(s.approvals[key], tag))])
    else s
  }

  function OnDecrement(s: State, r: nat): State
    requires r < |s.responders| && s.responders[r].Working?
  {
    var p := s.responders[r];
    s.(counters := Add(Add(s.counters, p.flow, -1), OfRun(p.key.run), -1), responders := s.responders[r := p.(phase := Decremented)])
  }

  function OnSignal(s: State, r: nat): State
    requires r < |s.responders| && s.responders[r].Working?
  {
    var p := s.responders[r];
    s.(signals := s.signals + [Message(p.key, p.approved)], responders := s.responders[r := p.(phase := Signalled)])
  }

  /** Writes back the loaded record with its new status. */
  function OnMark(s: State, r: nat): State
    requires r < |s.responders| && s.responders[r].Working?
  {
    var p := s.responders[r];
    var t := s.(responders := s.responders[r := Idle]);
    if p.key in s.approvals
    then t.(approvals := s.approvals[p.key := s.approvals[p.key].(status := if p.approved then Approved else Rejected)])
    else t
  }

  ghost function Step(s: State, e: Event): State
    requires Enabled(s, e)
  {
    match e
    case Request(key, user, tag, tokenId) => OnRequest(s, key, FlowOf(user, tag), tokenId)
    case Undo => OnUndo(s)
    case Response(r, key, approved, tag) => OnResponse(s, r, key, approved, tag)
    case Decrement(r) => OnDecrement(s, r)
    case Signal(r) => OnSignal(s, r)
    case Mark(r) => OnMark(s, r)
  }

  // ---- Accounting

  ghost predicate Counted(k: Key, a: Approval, l: Label) {
    a.status == Pending && (l == OfRun(k.run) || l == a.flow)
  }

  ghost function PendingAt(approvals: map<Key, Approval>, l: Label): set<Key> {
    set k | k in approvals && Counted(k, approvals[k], l)
  }

  /** Increments by a duplicate request that are still to be undone. */
  ghost function UndoAt(q: Requester, l: Label): int {
    match q
    case Waiting => 0
    case UndoFlow(key, flow) => if l == OfRun(key.run) || l == flow then 1 else 0
    case UndoRun(key) => if l == OfRun(key.run) then 1 else 0
  }

  /** Decrements whose approval is not marked yet. */
  ghost function UnmarkedAt(p: Responder, l: Label): int {
    if p.Working? && p.phase != Loaded && (l == OfRun(p.key.run) || l == p.flow) then 1 else 0
  }

  ghost function Unmarked(ps: seq<Responder>, l: Label): int {
    if ps == [] then 0 else Unmarked(ps[..|ps| - 1], l) + UnmarkedAt(ps[|ps| - 1], l)
  }

  /** pending approvals + duplicates not yet compensated - decrements not yet marked */
  ghost predicate Balanced(s: State, l: Label) {
    Get(s.counters, l) == |PendingAt(s.approvals, l)| + UndoAt(s.requester, l) - Unmarked(s.responders, l)
  }

  /** A working responder holds an approval that is still pending. */
  ghost predicate Holding(s: State) {
    forall r :: 0 <= r < |s.responders| && s.responders[r].Working? ==>
      s.responders[r].key in s.approvals && s.approvals[s.responders[r].key].status == Pending
  }

  ghost predicate Named(l: Label) {
    l.OfFlow? && l.user != "" && l.tag != ""
  }

  ghost predicate Shaped(s: State) {
    && |s.responders| <= 1
    && Holding(s)
    && (forall k :: k in s.approvals ==> Named(s.approvals[k].flow))
    && (s.requester.UndoFlow? ==> s.requester.flow.OfFlow?)
    && (forall r :: 0 <= r < |s.responders| && s.responders[r].Working? ==> s.responders[r].flow.OfFlow?)
  }

  /** The responder decrements the very counter its approval was counted in. */
  ghost predicate TagsAgree(s: State) {
    forall r :: 0 <= r < |s.responders| && s.responders[r].Working? && s.responders[r].key in s.approvals ==>
      s.responders[r].flow == s.approvals[s.responders[r].key].flow
  }

  lemma StepKeepsShape(s: State, e: Event)
    requires Shaped(s) && Enabled(s, e)
    ensures Shaped(Step(s, e))
  {
  }

  lemma PendingInserted(approvals: map<Key, Approval>, key: Key, a: Approval, l: Label)
    requires key !in approvals
    ensures |PendingAt(approvals[key := a], l)| == |PendingAt(approvals, l)| + if Counted(key, a, l) then 1 else 0
  {
    var before, after := PendingAt(approvals, l), PendingAt(approvals[key := a], l);
    forall k ensures k in after <==> k in before || (k == key && Counted(key, a, l)) {
    }
    assert key !in before;
    if Counted(key, a, l) {
      assert after == before + {key};
    } else {
      assert after == before;
    }
  }

  lemma RequestKeepsBalance(s: State, key: Key, flow: Label, tokenId: string, l: Label)
    requires s.requester.Waiting? && flow.OfFlow? && Balanced(s, l)
    ensures Balanced(OnRequest(s, key, flow, tokenId), l)
  {
    if key !in s.approvals {
      PendingInserted(s.approvals, key, Approval(Pending, flow, tokenId), l);
    }
  }

  lemma UndoKeepsBalance(s: State, l: Label)
    requires !s.requester.Waiting? && (s.requester.UndoFlow? ==> s.requester.flow.OfFlow?) && Balanced(s, l)
    ensures Balanced(OnUndo(s), l)
  {
  }

  lemma DecrementKeepsBalance(s: State, r: nat, l: Label)
    requires |s.responders| <= 1 && Enabled(s, Decrement(r)) && s.responders[r].flow.OfFlow? && Balanced(s, l)
    ensures Balanced(OnDecrement(s, r), l)
  {
  }

  lemma MarkKeepsBalance(s: State, r: nat, l: Label)
    requires |s.responders| <= 1 && Enabled(s, Mark(r)) && Holding(s) && Balanced(s, l)
    ensures Balanced(OnMark(s, r), l)
       <==> (l == OfRun(s.responders[r].key.run) || (l == s.responders[r].flow <==> l == s.approvals[s.responders[r].key].flow))
  {
    var p, t := s.responders[r], OnMark(s, r);
    if Counted(p.key, s.approvals[p.key], l) {
      assert PendingAt(t.approvals, l) == PendingAt(s.approvals, l) - {p.key};
    } else {
      assert PendingAt(t.approvals, l) == PendingAt(s.approvals, l);
    }
  }

  /** Every step keeps every counter balanced, provided a mark closes an approval whose counter
      was the one decremented. */
  lemma StepKeepsBalance(s: State, e: Event, l: Label)
    requires Shaped(s) && Enabled(s, e) && Balanced(s, l) && (l.OfRun? || TagsAgree(s))
    ensures Balanced(Step(s, e), l)
  {
    match e
    case Request(key, user, tag, tokenId) => RequestKeepsBalance(s, key, FlowOf(user, tag), tokenId, l);
    case Undo => UndoKeepsBalance(s, l);
    case Decrement(r) => DecrementKeepsBalance(s, r, l);
    case Mark(r) => MarkKeepsBalance(s, r, l);
    case _ =>
  }

  // ---- Runs of one worker

  ghost function Start(workers: nat): State {
    State(map[], map[], Waiting, seq(workers, _ => Idle), [])
  }

  ghost predicate IsTrace(ss: seq<State>, es: seq<Event>) {
    && |ss| == |es| + 1
    && forall k :: 0 <= k < |es| ==> Enabled(ss[k], es[k]) && ss[k + 1] == Step(ss[k], es[k])
  }

  /** Every decision names no workflow tag or the one stored with its approval. */
  ghost predicate HonestTags(ss: seq<State>, es: seq<Event>) {
    |es| < |ss| &&
    forall k :: 0 <= k < |es| && es[k].Response? && es[k].key in ss[k].approvals ==>
      es[k].tag == "" || (ss[k].approvals[es[k].key].flow.OfFlow? && es[k].tag == ss[k].approvals[es[k].key].flow.tag)
  }

  lemma StepKeepsTags(s: State, e: Event)
    requires Shaped(s) && TagsAgree(s) && Enabled(s, e)
    requires e.Response? && e.key in s.approvals ==> e.tag == "" || e.tag == s.approvals[e.key].flow.tag
    ensures TagsAgree(Step(s, e))
  {
    if e.Response? && e.key in s.approvals {
      assert FlowFor(s.approvals[e.key], e.tag) == s.approvals[e.key].flow;
    }
  }

  lemma {:induction false} RunKeepsShape(ss: seq<State>, es: seq<Event>, k: nat)
    requires IsTrace(ss, es) && ss[0] == Start(1) && k < |ss|
    ensures Shaped(ss[k])
  {
    if k > 0 {
      RunKeepsShape(ss, es, k - 1);
      StepKeepsShape(ss[k - 1], es[k - 1]);
    }
  }

  lemma {:induction false} RunKeepsTags(ss: seq<State>, es: seq<Event>, k: nat)
    requires IsTrace(ss, es) && ss[0] == Start(1) && HonestTags(ss, es) && k < |ss|
    ensures TagsAgree(ss[k])
  {
    if k > 0 {
      RunKeepsTags(ss, es, k - 1);
      RunKeepsShape(ss, es, k - 1);
      StepKeepsTags(ss[k - 1], es[k - 1]);
    }
  }

  /** Over every interleaving of one worker's two goroutines, each run counter equals the pending
      approvals plus the duplicates not yet compensated minus the decrements not yet marked; the
      workflow counters do too when decisions carry honest tags. */
  lemma {:induction false} CountersBalance(ss: seq<State>, es: seq<Event>, k: nat, l: Label)
    requires IsTrace(ss, es) && ss[0] == Start(1) && k < |ss|
    requires l.OfRun? || HonestTags(ss, es)
    ensures Balanced(ss[k], l)
  {
    if k == 0 {
      assert PendingAt(ss[0].approvals, l) == {};
    } else {
      CountersBalance(ss, es, k - 1, l);
      RunKeepsShape(ss, es, k - 1);
      if !l.OfRun? {
        RunKeepsTags(ss, es, k - 1);
      }
      StepKeepsBalance(ss[k - 1], es[k - 1], l);
    }
  }

  lemma UnmarkedOne(ps: seq<Responder>, l: Label)
    requires |ps| <= 1
    ensures Unmarked(ps, l) == if ps == [] then 0 else UnmarkedAt(ps[0], l)
  {
    if ps != [] {
      assert Unmarked(ps[..0], l) == 0;
    }
  }

  /** No counter is ever negative. */
  lemma CountersNeverNegative(ss: seq<State>, es: seq<Event>, k: nat, l: Label)
    requires IsTrace(ss, es) && ss[0] == Start(1) && k < |ss|
    requires l.OfRun? || HonestTags(ss, es)
    ensures Get(ss[k].counters, l) >= 0
  {
    var s := ss[k];
    CountersBalance(ss, es, k, l);
    RunKeepsShape(ss, es, k);
    UnmarkedOne(s.responders, l);
    if Unmarked(s.responders, l) == 1 {
      if !l.OfRun? {
        RunKeepsTags(ss, es, k);
      }
      assert s.responders[0].key in PendingAt(s.approvals, l);
    }
  }

  // ---- One completion signal per approval

  /** How many signals were sent for an approval. */
  ghost function SentFor(signals: seq<Message>, k: Key): nat {
    if signals == [] then 0
    else SentFor(signals[..|signals| - 1], k) + if signals[|signals| - 1].key == k then 1 else 0
  }

  lemma SentSnoc(signals: seq<Message>, m: Message, k: Key)
    ensures SentFor(signals + [m], k) == SentFor(signals, k) + if m.key == k then 1 else 0
  {
    assert (signals + [m])[..|signals|] == signals;
  }

  lemma SignalSends(s: State, r: nat, k: Key)
    requires r < |s.responders| && s.responders[r].Working?
    ensures SentFor(OnSignal(s, r).signals, k) == SentFor(s.signals, k) + if s.responders[r].key == k then 1 else 0
  {
    SentSnoc(s.signals, Message(s.responders[r].key, s.responders[r].approved), k);
  }

  ghost predicate SignalledBy(s: State, k: Key) {
    exists r :: 0 <= r < |s.responders| && s.responders[r].Working? && s.responders[r].phase == Signalled && s.responders[r].key == k
  }

  /** A signal was sent only for a closed approval or one about to be closed. */
  ghost predicate SignalledOnce(s: State, k: Key) {
    SentFor(s.signals, k) <= if k in s.approvals && (s.approvals[k].status != Pending || SignalledBy(s, k)) then 1 else 0
  }

  lemma StepKeepsSignals(s: State, e: Event, k: Key)
    requires Shaped(s) && SignalledOnce(s, k) && Enabled(s, e)
    ensures SignalledOnce(Step(s, e), k)
  {
    var t := Step(s, e);
    if e.Signal? {
      SignalSends(s, e.r, k);
      assert t.responders[e.r].phase == Signalled;
      if s.responders[e.r].key == k {
        assert !SignalledBy(s, k);
      } else if SignalledBy(s, k) {
        assert false;
      }
    } else if SignalledBy(s, k) && !e.Mark? {
      var r :| 0 <= r < |s.responders| && s.responders[r].Working? && s.responders[r].phase == Signalled && s.responders[r].key == k;
      assert t.responders[r] == s.responders[r];
    }
  }

  /** Whatever requests and decisions are delivered, and however often, a (run, node) produces at
      most one completion signal. */
  lemma {:induction false} AtMostOneSignal(ss: seq<State>, es: seq<Event>, k: nat, key: Key)
    requires IsTrace(ss, es) && ss[0] == Start(1) && k < |ss|
    ensures SignalledOnce(ss[k], key) && SentFor(ss[k].signals, key) <= 1
  {
    if k > 0 {
      AtMostOneSignal(ss, es, k - 1, key);
      RunKeepsShape(ss, es, k - 1);
      StepKeepsSignals(ss[k - 1], es[k - 1], key);
    }
  }

  // ---- Two workers

  lemma ExtendTrace(ss: seq<State>, es: seq<Event>, e: Event, t: State)
    requires IsTrace(ss, es) && Enabled(ss[|es|], e) && t == Step(ss[|es|], e)
    ensures IsTrace(ss + [t], es + [e])
  {
    var ss', es' := ss + [t], es + [e];
    forall k | 0 <= k < |es'| ensures Enabled(ss'[k], es'[k]) && ss'[k + 1] == Step(ss'[k], es'[k]) {
      if k < |es| {
        assert ss'[k] == ss[k] && ss'[k + 1] == ss[k + 1] && es'[k] == es[k];
      }
    }
  }

  /** Both workers have read the approval while it is pending. */
  lemma BothLoaded(key: Key, counters: map<Label, int>) returns (ss: seq<State>, es: seq<Event>)
    requires counters == Add(Add(map[], OfFlow("u", "t"), 1), OfRun(key.run), 1)
    ensures IsTrace(ss, es) && ss[0] == Start(2)
    ensures var p := Working(Loaded, key, true, OfFlow("u", "t"));
            ss[|es|] == State(map[key := Approval(Pending, OfFlow("u", "t"), "id")], counters, Waiting, [p, p], [])
  {
    var approvals := map[key := Approval(Pending, OfFlow("u", "t"), "id")];
    var p := Working(Loaded, key, true, OfFlow("u", "t"));
    ss, es := [Start(2)], [];
    var s1 := State(approvals, counters, Waiting, [Idle, Idle], []);
    ExtendTrace(ss, es, Request(key, "u", "t", "id"), s1);
    ss, es := ss + [s1], es + [Request(key, "u", "t", "id")];
    var s2 := s1.(responders := [p, Idle]);
    ExtendTrace(ss, es, Response(0, key, true, ""), s2);
    ss, es := ss + [s2], es + [Response(0, key, true, "")];
    var s3 := s1.(responders := [p, p]);
    ExtendTrace(ss, es, Response(1, key, true, ""), s3);
    ss, es := ss + [s3], es + [Response(1, key, true, "")];
  }

  /** With two workers both decisions on one approval pass the pending check: two completion
      signals are sent and the run counter drops below zero. */
  lemma TwoWorkersSignalTwice(key: Key) returns (ss: seq<State>, es: seq<Event>)
    ensures IsTrace(ss, es) && ss[0] == Start(2)
    ensures SentFor(ss[|es|].signals, key) == 2 && Get(ss[|es|].counters, OfRun(key.run)) == -1
  {
    ss, es := BothLoaded(key, Add(Add(map[], OfFlow("u", "t"), 1), OfRun(key.run), 1));
    var s1 := OnDecrement(ss[|es|], 0);
    ExtendTrace(ss, es, Decrement(0), s1);
    ss, es := ss + [s1], es + [Decrement(0)];
    var s2 := OnDecrement(s1, 1);
    ExtendTrace(ss, es, Decrement(1), s2);
    ss, es := ss + [s2], es + [Decrement(1)];
    assert Get(s2.counters, OfRun(key.run)) == -1;
    var s3 := OnSignal(s2, 0);
    ExtendTrace(ss, es, Signal(0), s3);
    ss, es := ss + [s3], es + [Signal(0)];
    var s4 := OnSignal(s3, 1);
    ExtendTrace(ss, es, Signal(1), s4);
    ss, es := ss + [s4], es + [Signal(1)];
    assert s4.signals == [Message(key, true), Message(key, true)];
    assert SentFor([Message(key, true)], key) == 1;
    SentSnoc([Message(key, true)], Message(key, true), key);
  }
}
