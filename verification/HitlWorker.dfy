/** The two handlers of the approval worker as imperative code, each run from start to end. Every
    statement that touches Redis is one step of the machine in Hitl, where the steps of the two
    goroutines interleave. */
module HitlWorker {
  import opened Hitl

  /** A request and, for a duplicate, the two compensating decrements. */
  ghost function Requested(s: State, key: Key, user: string, tag: string, tokenId: string): State
    requires s.requester.Waiting?
  {
    var t := Step(s, Request(key, user, tag, tokenId));
    if t.requester.Waiting? then t else Step(Step(t, Undo), Undo)
  }

  /** A response from load to mark; anything but a pending approval is left alone. */
  ghost function Responded(s: State, r: nat, key: Key, approved: bool, tag: string): State
    requires r < |s.responders| && s.responders[r].Idle?
  {
    var t := Step(s, Response(r, key, approved, tag));
    if t.responders[r].Idle? then t else Step(Step(Step(t, Decrement(r)), Signal(r)), Mark(r))
  }

  class Worker {
    var approvals: map<Key, Approval>
    var counters: map<Label, int>
    var requester: Requester
    var responders: seq<Responder>
    var signals: seq<Message>

    ghost function View(): State
      reads this
    {
      State(approvals, counters, requester, responders, signals)
    }

    method Incr(l: Label, d: int)
      modifies this`counters
      ensures counters == Add(old(counters), l, d)
    {
      counters := counters[l := (if l in counters then counters[l] else 0) + d];
    }

    /** A duplicate request leaves every counter as it was. */
    method HandleApprovalRequest(key: Key, user: string, tag: string, tokenId: string) returns (created: bool)
      requires requester.Waiting?
      modifies this
      ensures created <==> key !in old(approvals)
      ensures View() == Requested(old(View()), key, user, tag, tokenId)
      ensures !created ==> approvals == old(approvals) && forall l :: Get(counters, l) == Get(old(counters), l)
      ensures var flow := OfFlow(if user == "" then "unknown" else user, if tag == "" then "unknown" else tag);
        created ==>
          && approvals == old(approvals)[key := Approval(Pending, flow, tokenId)]
          && forall l :: Get(counters, l) == Get(old(counters), l) + if l == flow || l == OfRun(key.run) then 1 else 0
    {
      var flow := FlowOf(user, tag);
      created := key !in approvals;
      if created {
        approvals := approvals[key := Approval(Pending, flow, tokenId)];
      }
      Incr(flow, 1);
      Incr(OfRun(key.run), 1);
      if !created {
        Incr(flow, -1);
        Incr(OfRun(key.run), -1);
      }
    }

    method HandleApprovalResponse(r: nat, key: Key, approved: bool, tag: string) returns (signalled: bool)
      requires r < |responders| && responders[r].Idle? && forall k :: k in approvals ==> approvals[k].flow.OfFlow?
      modifies this
      ensures signalled <==> key in old(approvals) && old(approvals)[key].status == Pending && old(approvals)[key].tokenId != ""
      ensures View() == Responded(old(View()), r, key, approved, tag)
      ensures signals == if signalled then old(signals) + [Message(key, approved)] else old(signals)
      ensures signalled ==> approvals == old(approvals)[key := old(approvals)[key].(status := if approved then Approved else Rejected)]
      ensures signalled ==>
        var stored := old(approvals)[key].flow;
        var flow := FlowOf(stored.user, if tag == "" then stored.tag else tag);
        forall l :: Get(counters, l) == Get(old(counters), l) - if l == flow || l == OfRun(key.run) then 1 else 0
      ensures !signalled ==> View() == old(View())
    {
      if key !in approvals || approvals[key].status != Pending || approvals[key].tokenId == "" {
        return false;
      }
      var approval := approvals[key];
      var flow := FlowFor(approval, tag);
      Incr(flow, -1);
      Incr(OfRun(key.run), -1);
      signals := signals + [Message(key, approved)];
      approvals := approvals[key := approval.(status := if approved then Approved else Rejected)];
      assert responders == responders[r := Idle];
      return true;
    }
  }
}
