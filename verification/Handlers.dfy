/** The bodies of the coordinator's goroutines (run_request_consumer.go, completion_handler.go,
    node_router.go, completion.go) as imperative code over shared state. Each is proved to be a
    sequence of steps of the transition system of Coordinator, so that everything proved about its
    runs holds of them; there the steps of different handlers interleave freely. */
module Handlers {
  import opened Wrappers
  import opened WorkflowIR
  import opened Coordinator
  import Activations
  import Compiler
  import ControlFlow
  import Counter
  import Seqs

  ghost function Take(r: Option<Run>, e: Event): Option<Run> {
    if r.None? || !Enabled(r.value, e) then None else Some(Step(r.value, e))
  }

  /** The state after a list of events, if each is enabled in its turn. */
  ghost function After(s: Run, es: seq<Event>): Option<Run> {
    if es == [] then Some(s) else Take(After(s, es[..|es| - 1]), es[|es| - 1])
  }

  lemma AfterSnoc(s: Run, es: seq<Event>, e: Event)
    ensures After(s, es + [e]) == Take(After(s, es), e)
  {
    assert (es + [e])[..|es|] == es;
  }

  lemma AfterStep(s: Run, es: seq<Event>, t: Run, e: Event)
    requires After(s, es) == Some(t) && Enabled(t, e)
    ensures After(s, es + [e]) == Some(Step(t, e))
  {
    AfterSnoc(s, es, e);
  }

  lemma {:induction false} AfterTwice(s: Run, es: seq<Event>, t: Run, es': seq<Event>)
    requires After(s, es) == Some(t)
    ensures After(s, es + es') == After(t, es')
    decreases |es'|
  {
    if es' == [] {
      assert es + es' == es;
    } else {
      var init, e := es'[..|es'| - 1], es'[|es'| - 1];
      AfterTwice(s, es, t, init);
      assert es' == init + [e] && es + es' == (es + init) + [e];
      AfterSnoc(s, es + init, e);
      AfterSnoc(t, init, e);
    }
  }

  lemma {:induction false} AfterIsTrace(s: Run, es: seq<Event>) returns (ss: seq<Run>)
    requires After(s, es).Some?
    ensures IsTrace(ss, es) && ss[0] == s && ss[|es|] == After(s, es).value
  {
    if es == [] {
      ss := [s];
    } else {
      var n := |es| - 1;
      var init := AfterIsTrace(s, es[..n]);
      ss := init + [After(s, es).value];
      forall k | 0 <= k < |es| ensures Enabled(ss[k], es[k]) && ss[k + 1] == Step(ss[k], es[k]) {
        if k < n {
          assert es[..n][k] == es[k] && init[k + 1] == Step(init[k], es[..n][k]);
        }
      }
    }
  }

  /** No handler, however its steps mix with others, breaks token conservation. */
  lemma {:induction false} AfterConserves(s: Run, es: seq<Event>)
    requires Conserved(s) && After(s, es).Some?
    ensures Conserved(After(s, es).value)
  {
    if es != [] {
      AfterConserves(s, es[..|es| - 1]);
      StepConserves(After(s, es[..|es| - 1]).value, es[|es| - 1]);
    }
  }

  ghost predicate CanSpawn(s: Run, i: nat) {
    i < |s.procs| && s.procs[i].phase == Routing && s.procs[i].pos < |s.procs[i].next|
  }

  ghost predicate CanEmit(s: Run, i: nat) {
    i < |s.procs| && s.procs[i].phase == Routing && s.procs[i].pos == |s.procs[i].next|
  }

  lemma AfterEmit(s: Run, es: seq<Event>, i: nat, t: Run)
    requires After(s, es) == Some(t) && CanEmit(t, i)
    ensures Enabled(t, EmitTokens(i)) && After(s, es + [EmitTokens(i)]) == Some(Step(t, EmitTokens(i)))
  {
    AfterStep(s, es, t, EmitTokens(i));
  }

  lemma AfterRoute(s: Run, i: nat, k: nat, t: Run)
    requires After(s, Routes(i, k)) == Some(t) && CanSpawn(t, i)
    ensures Enabled(t, Route(i)) && After(s, Routes(i, k + 1)) == Some(Step(t, Route(i)))
  {
    AfterStep(s, Routes(i, k), t, Route(i));
  }

  /** What an absorber does, and what a completion handler does after consuming. */
  ghost function RoutingEvents(i: nat, next: seq<NodeId>): seq<Event> {
    [Determine(i, next)] + (Routes(i, |next|) + [EmitTokens(i)])
  }

  /** What the reload of an agent's completion does to the stored IR (patch_loader.go). */
  datatype Reload = Kept | Replaced(ir: IR) | Blocked

  ghost function IRAfter(s: Run, node: NodeId, reload: Reload): IR
    requires node in s.ir
  {
    if s.ir[node].kind == "agent" && reload.Replaced? then reload.ir else s.ir
  }

  /** After the reload: consume, and if the node is still in the IR, route, emit and check. */
  ghost function ConsumeEvents(ir: IR, node: NodeId, i: nat, next: seq<NodeId>): seq<Event> {
    [ConsumeToken(i)] + if node in ir then RoutingEvents(i, next) + [Check(i)] else [Determine(i, [])]
  }

  /** The steps of a completion handler for activation `i`. */
  ghost function CompletionEvents(s: Run, i: nat, reload: Reload, next: seq<NodeId>): seq<Event>
    requires i < |s.procs|
  {
    var p := s.procs[i];
    if p.node !in s.ir || p.phase == Signalled(false) then [Pop(i)]
    else if s.ir[p.node].kind == "agent" && reload.Blocked? then [Pop(i)] + [Block(i)]
    else if s.ir[p.node].kind == "agent" && reload.Replaced? then [Pop(i)] + ([Patch(reload.ir)] + ConsumeEvents(reload.ir, p.node, i, next))
    else [Pop(i)] + ConsumeEvents(s.ir, p.node, i, next)
  }

  lemma AfterOne(s: Run, e: Event)
    requires Enabled(s, e)
    ensures After(s, [e]) == Some(Step(s, e))
  {
    assert After(s, [e][..0]) == Some(s);
  }

  lemma TokensStep(ir: IR, ns: seq<NodeId>, k: nat)
    requires k < |ns|
    ensures Tokens(ir, ns[..k + 1]) == Tokens(ir, ns[..k]) + if ns[k] in ir && !ir[ns[k]].IsAbsorber() then 1 else 0
  {
    assert ns[..k + 1][..k] == ns[..k];
  }

  lemma HasEntry(ir: IR)
    requires Compiler.Accepted(ir)
    ensures exists n :: n in EntryNodes(ir)
  {
    var n :| n in ir && |ir[n].dependencies| == 0;
    assert n in EntryNodes(ir);
  }

  class Runner {
    const sdk: Counter.Sdk
    var started: bool
    var ir: IR
    var procs: seq<Proc>
    var emits: nat
    var completions: nat
    ghost var redelivered: nat

    constructor ()
      ensures !started && procs == [] && emits == 0 && completions == 0 && redelivered == 0
      ensures fresh(sdk) && sdk.counter == None && sdk.applied == {}
    {
      sdk := new Counter.Sdk();
      started, ir, procs, emits, completions, redelivered := false, map[], [], 0, 0, 0;
    }

    ghost function State(): Run
      reads this, sdk
    {
      Run(ir, sdk.State(), emits, procs, redelivered, completions)
    }

    // ---- Starting a run

    method FindEntryNodes(ir: IR) returns (entries: seq<NodeId>)
      ensures Activations.EntryOrder(ir, entries)
    {
      var order := AnyOrder(ir.Keys);
      entries := [];
      for i := 0 to |order|
        invariant forall n :: n in entries <==> n in order[..i] && ir[n].dependencies == []
        invariant forall a, b :: 0 <= a < b < |entries| ==> entries[a] != entries[b]
      {
        Seqs.Snoc(order, i);
        assert order[i] !in order[..i];
        if |ir[order[i]].dependencies| == 0 {
          entries := entries + [order[i]];
        }
      }
      Seqs.Whole(order);
    }

    /** The start-once guard comes first: a second request for the same run changes nothing, not even
        when the first failed to fetch or compile the workflow. */
    method HandleRunRequest(fetched: Option<Compiler.Schema>) returns (ok: bool, ghost entries: seq<NodeId>)
      requires !started ==> sdk.applied == {} && procs == [] && emits == 0 && completions == 0 && redelivered == 0
      modifies this, sdk
      ensures started
      ensures old(started) ==> ok && State() == old(State())
      ensures !old(started) && !ok ==> State() == old(State()) && (fetched.None? || Compiler.CanFail(fetched.value))
      ensures !old(started) && ok ==> fetched.Some? && Compiler.Compiled(fetched.value, ir) && Compiler.Accepted(ir)
      ensures !old(started) && ok ==> Activations.EntryOrder(ir, entries) && entries != [] && State() == Start(ir, entries)
    {
      entries := [];
      if started { return true, []; }
      started := true;
      if fetched.None? { return false, []; }
      var compiled := Compiler.CompileWorkflowSchema(fetched.value);
      if compiled.Err? { return false, []; }
      HasEntry(compiled.value);
      entries := PublishEntries(compiled.value);
      ok := true;
    }

    /** Sets the counter to the number of entry nodes, then publishes a token for each. */
    method PublishEntries(ir: IR) returns (ghost order: seq<NodeId>)
      requires sdk.applied == {} && procs == [] && emits == 0 && completions == 0 && redelivered == 0
      requires exists n :: n in EntryNodes(ir)
      modifies this, sdk
      ensures started == old(started) && this.ir == ir
      ensures Activations.EntryOrder(ir, order) && order != [] && State() == Start(ir, order)
    {
      this.ir := ir;
      var entries := FindEntryNodes(ir);
      order := entries;
      sdk.InitializeCounter(|entries|);
      for i := 0 to |entries|
        invariant procs == Start(ir, entries).procs[..i]
        invariant started == old(started) && this.ir == ir && emits == 0 && completions == 0 && redelivered == 0
        invariant sdk.State() == Counter.Counter(|entries|, {})
      {
        Seqs.Snoc(Start(ir, entries).procs, i);
        procs := procs + [Activate(entries[i], false, InStream, ir)];
      }
      Seqs.Whole(Start(ir, entries).procs);
    }

    // ---- Routing

    /** Handles the next node at the routing position: none, an absorber, or a worker node. */
    method SpawnOne(i: nat) returns (worker: bool)
      requires i < |procs| && procs[i].phase == Routing && procs[i].pos < |procs[i].next|
      modifies this`procs
      ensures State() == Step(old(State()), Route(i))
      ensures var p := old(procs)[i];
        && i < |procs| && procs[i] == p.(pos := p.pos + 1)
        && (worker <==> p.next[p.pos] in p.ir && !p.ir[p.next[p.pos]].IsAbsorber())
    {
      var p := procs[i];
      var m := p.next[p.pos];
      procs := procs[i := p.(pos := p.pos + 1)];
      if m !in p.ir {
        assert procs + [] == procs;
        return false;
      }
      procs := procs + [Spawn(p.ir, m)];
      return !p.ir[m].IsAbsorber();
    }

    /** Spawns one activation per existing next node and collects the worker nodes. */
    method SpawnNext(i: nat) returns (workers: seq<NodeId>)
      requires i < |procs| && procs[i].phase == Routing && procs[i].pos == 0
      modifies this`procs
      ensures After(old(State()), Routes(i, |old(procs)[i].next|)) == Some(State())
      ensures i < |procs| && procs[i] == old(procs)[i].(pos := |old(procs)[i].next|)
      ensures |workers| == Tokens(procs[i].ir, procs[i].next)
    {
      ghost var s := State();
      var p := procs[i];
      workers := [];
      for k := 0 to |p.next|
        invariant After(s, Routes(i, k)) == Some(State())
        invariant i < |procs| && procs[i] == p.(pos := k)
        invariant |workers| == Tokens(p.ir, p.next[..k])
      {
        AfterRoute(s, i, k, State());
        TokensStep(p.ir, p.next, k);
        var worker := SpawnOne(i);
        workers := if worker then workers + [p.next[k]] else workers;
      }
      Seqs.Whole(p.next);
    }

    /** Publishes to every next node, then raises the counter: by the workers for a completion
        handler, by all next nodes for an absorber. */
    method RouteToNextNodes(i: nat)
      requires i < |procs| && procs[i].phase == Routing && procs[i].pos == 0
      modifies this`procs, this`emits, sdk
      ensures After(old(State()), Routes(i, |old(procs)[i].next|) + [EmitTokens(i)]) == Some(State())
      ensures i < |procs| && procs[i] == old(procs)[i].(pos := |old(procs)[i].next|, phase := if old(procs)[i].absorber then Done else Checking)
    {
      ghost var s, n := State(), |procs[i].next|;
      var workers := SpawnNext(i);
      AfterEmit(s, Routes(i, n), i, State());
      RaiseCounter(i, workers);
    }

    method RaiseCounter(i: nat, workers: seq<NodeId>)
      requires CanEmit(State(), i) && |workers| == Tokens(procs[i].ir, procs[i].next)
      modifies this`procs, this`emits, sdk
      ensures State() == Step(old(State()), EmitTokens(i))
      ensures i < |procs| && procs[i] == old(procs)[i].(phase := if old(procs)[i].absorber then Done else Checking)
    {
      var p := procs[i];
      sdk.EmitTokens(p.node, if p.absorber then p.next else workers, emits);
      emits := emits + 1;
      procs := procs[i := p.(phase := if p.absorber then Done else Checking)];
    }

    method Determine(i: nat, next: seq<NodeId>)
      requires Enabled(State(), Coordinator.Determine(i, next)) && (procs[i].absorber || procs[i].node in ir)
      modifies this`procs
      ensures State() == Step(old(State()), Coordinator.Determine(i, next))
      ensures i < |procs| && procs[i].phase == Routing && procs[i].next == next && procs[i].pos == 0
      ensures procs[i].node == old(procs)[i].node && procs[i].absorber == old(procs)[i].absorber
      ensures !procs[i].absorber ==> procs[i].ir == ir
    {
      var p := procs[i];
      procs := procs[i := if p.absorber then p.(phase := Routing, next := next, pos := 0) else p.(phase := Routing, ir := ir, next := next, pos := 0)];
    }

    /** Determines the outcome of activation `i` and routes it. */
    method DetermineAndRoute(i: nat, next: seq<NodeId>)
      requires Enabled(State(), Coordinator.Determine(i, next)) && (procs[i].absorber || procs[i].node in ir)
      modifies this`procs, this`emits, sdk
      ensures After(old(State()), RoutingEvents(i, next)) == Some(State())
      ensures i < |procs| && procs[i].phase == (if old(procs)[i].absorber then Done else Checking)
      ensures procs[i].node == old(procs)[i].node && (!old(procs)[i].absorber ==> procs[i].ir == ir)
    {
      ghost var s := State();
      AfterOne(s, Coordinator.Determine(i, next));
      Determine(i, next);
      ghost var t := State();
      RouteToNextNodes(i);
      AfterTwice(s, [Coordinator.Determine(i, next)], t, Routes(i, |next|) + [EmitTokens(i)]);
    }

    /** An absorber's goroutine; `next` is the outcome of DetermineNextNodes. */
    method HandleAbsorberNode(i: nat, next: seq<NodeId>)
      requires i < |procs| && procs[i].absorber && procs[i].phase == Absorbing
      requires procs[i].node in procs[i].ir && ControlFlow.CanRoute(procs[i].ir[procs[i].node], next)
      modifies this`procs, this`emits, sdk
      ensures After(old(State()), RoutingEvents(i, next)) == Some(State())
    {
      DetermineAndRoute(i, next);
    }

    // ---- Completing a node

    method Consume(i: nat)
      requires i < |procs| && procs[i].phase == Ready
      modifies this`procs, sdk
      ensures State() == Step(old(State()), ConsumeToken(i))
    {
      var p := procs[i];
      var seen := Counter.Consume(p.node) in sdk.applied;
      sdk.ConsumeToken(p.node);
      procs := procs[i := p.(phase := Consumed, repeat := seen)];
    }

    method CheckCompletion(i: nat)
      requires i < |procs| && procs[i].phase == Checking && procs[i].node in procs[i].ir
      modifies this`procs, this`completions
      ensures State() == Step(old(State()), Check(i))
    {
      var p := procs[i];
      if p.ir[p.node].isTerminal {
        var counter := sdk.GetCounter();
        if counter == 0 {
          completions := completions + 1;
        }
      }
      procs := procs[i := p.(phase := Done)];
    }

    /** A completion signal, real or synthetic. An unknown node is dropped, a failed node keeps its
        token, and so does an agent whose reload is blocked. Every other completion takes over the
        reloaded IR, consumes, fetches its node again, and routes, emits and checks in this order. */
    method HandleCompletion(i: nat, reload: Reload, next: seq<NodeId>)
      requires i < |procs| && (procs[i].phase.Signalled? || procs[i].phase == Skipping) && !procs[i].absorber
      requires procs[i].node in ir ==>
        var after := IRAfter(State(), procs[i].node, reload);
        procs[i].node in after ==> ControlFlow.CanRoute(after[procs[i].node], next)
      modifies this, sdk
      ensures After(old(State()), CompletionEvents(old(State()), i, reload, next)) == Some(State())
      ensures old(procs)[i].phase == Signalled(false) || old(procs)[i].node !in old(ir) ==>
        State() == old(State()).(procs := old(procs)[i := old(procs)[i].(phase := if old(procs)[i].node in old(ir) then Failed else Lost)])
    {
      ghost var s := State();
      AfterOne(s, Pop(i));
      var proceed := Begin(i);
      if !proceed { return; }
      ghost var t := State();
      var node := procs[i].node;
      if ir[node].kind == "agent" && reload.Blocked? {
        AfterStep(s, [Pop(i)], t, Block(i));
        Fail(i);
      } else if ir[node].kind == "agent" && reload.Replaced? {
        AfterOne(t, Patch(reload.ir));
        ir := reload.ir;
        ghost var u := State();
        CompleteReady(i, next);
        AfterTwice(t, [Patch(reload.ir)], u, ConsumeEvents(reload.ir, node, i, next));
        AfterTwice(s, [Pop(i)], t, [Patch(reload.ir)] + ConsumeEvents(reload.ir, node, i, next));
      } else {
        CompleteReady(i, next);
        AfterTwice(s, [Pop(i)], t, ConsumeEvents(s.ir, node, i, next));
      }
    }

    method Fail(i: nat)
      requires i < |procs| && procs[i].phase == Ready
      modifies this`procs
      ensures State() == Step(old(State()), Block(i))
    {
      procs := procs[i := procs[i].(phase := Failed)];
    }

    /** Drops the signal of an unknown node and fails a failed one. */
    method Begin(i: nat) returns (proceed: bool)
      requires i < |procs| && (procs[i].phase.Signalled? || procs[i].phase == Skipping)
      modifies this`procs
      ensures State() == Step(old(State()), Pop(i))
      ensures proceed <==> old(procs)[i].node in ir && old(procs)[i].phase != Signalled(false)
      ensures proceed ==> i < |procs| && procs[i] == old(procs)[i].(phase := Ready)
    {
      var p := procs[i];
      proceed := p.node in ir && p.phase != Signalled(false);
      procs := procs[i := p.(phase := if p.node !in ir then Lost else if proceed then Ready else Failed)];
    }

    method CompleteReady(i: nat, next: seq<NodeId>)
      requires i < |procs| && procs[i].phase == Ready && !procs[i].absorber
      requires procs[i].node in ir ==> ControlFlow.CanRoute(ir[procs[i].node], next)
      modifies this`procs, this`emits, this`completions, sdk
      ensures After(old(State()), ConsumeEvents(ir, old(procs)[i].node, i, next)) == Some(State())
    {
      ghost var s := State();
      AfterOne(s, ConsumeToken(i));
      Consume(i);
      ghost var t := State();
      if procs[i].node !in ir {
        AfterOne(t, Coordinator.Determine(i, []));
        Drop(i);
        AfterTwice(s, [ConsumeToken(i)], t, [Coordinator.Determine(i, [])]);
        return;
      }
      DetermineAndRoute(i, next);
      ghost var u := State();
      AfterStep(t, RoutingEvents(i, next), u, Check(i));
      CheckCompletion(i);
      AfterTwice(s, [ConsumeToken(i)], t, RoutingEvents(i, next) + [Check(i)]);
    }

    /** The node is missing from the reloaded IR: the handler ends after consuming. */
    method Drop(i: nat)
      requires i < |procs| && procs[i].phase == Consumed && !procs[i].absorber && procs[i].node !in ir
      modifies this`procs
      ensures State() == Step(old(State()), Coordinator.Determine(i, []))
    {
      procs := procs[i := procs[i].(phase := Done)];
    }
  }
}
