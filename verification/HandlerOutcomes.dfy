/** What one completion handler, run from end to end, has done to the run. */
module HandlerOutcomes {
  import opened WorkflowIR
  import opened Wrappers
  import opened Coordinator
  import opened Handlers
  import ControlFlow
  import Counter

  /** One activation for every next node that exists, in order. */
  function Spawned(ir: IR, next: seq<NodeId>): seq<Proc> {
    if next == [] then []
    else
      var m := next[|next| - 1];
      Spawned(ir, next[..|next| - 1]) + if m in ir then [Spawn(ir, m)] else []
  }

  lemma SpawnedSnoc(ir: IR, next: seq<NodeId>, k: nat)
    requires k < |next|
    ensures Spawned(ir, next[..k + 1]) == Spawned(ir, next[..k]) + if next[k] in ir then [Spawn(ir, next[k])] else []
  {
    assert next[..k + 1][..k] == next[..k];
  }

  lemma RouteOnce(s: Run, i: nat, added: seq<Proc>, ps: seq<Proc>)
    requires i < |ps| && s.procs == ps + added && ps[i].phase == Routing && ps[i].pos < |ps[i].next|
    ensures var p := ps[i];
      var m := p.next[p.pos];
      Step(s, Route(i)) == s.(procs := ps[i := p.(pos := p.pos + 1)] + (added + if m in p.ir then [Spawn(p.ir, m)] else []))
  {
    assert s.procs[i] == ps[i];
    var t := Step(s, Route(i));
    assert t.procs == ps[i := ps[i].(pos := ps[i].pos + 1)] + (added + Added(s, Route(i)));
  }

  ghost predicate StartsRouting(s: Run, i: nat) {
    i < |s.procs| && s.procs[i].phase == Routing && s.procs[i].pos == 0
  }

  /** The run after `k` next nodes were handled. */
  ghost function RoutedTo(s: Run, i: nat, k: nat): Run
    requires StartsRouting(s, i) && k <= |s.procs[i].next|
  {
    var p := s.procs[i];
    s.(procs := s.procs[i := p.(pos := k)] + Spawned(p.ir, p.next[..k]))
  }

  lemma RoutesOneMore(s: Run, i: nat, k: nat)
    requires StartsRouting(s, i) && k < |s.procs[i].next|
    ensures CanSpawn(RoutedTo(s, i, k), i) && Step(RoutedTo(s, i, k), Route(i)) == RoutedTo(s, i, k + 1)
  {
    var p := s.procs[i];
    var before := s.procs[i := p.(pos := k)];
    SpawnedSnoc(p.ir, p.next, k);
    RouteOnce(RoutedTo(s, i, k), i, Spawned(p.ir, p.next[..k]), before);
    assert before[i := p.(pos := k + 1)] == s.procs[i := p.(pos := k + 1)];
  }

  lemma RoutedSnoc(s: Run, i: nat, k: nat, t: Run, u: Run)
    requires After(s, Routes(i, k)) == Some(t) && CanSpawn(t, i) && u == Step(t, Route(i))
    ensures After(s, Routes(i, k + 1)) == Some(u)
  {
    AfterRoute(s, i, k, t);
  }

  lemma NothingRouted(s: Run, i: nat)
    requires StartsRouting(s, i)
    ensures RoutedTo(s, i, 0) == s
  {
    var p := s.procs[i];
    assert p.next[..0] == [] && p.(pos := 0) == p && s.procs[i := p] + [] == s.procs;
  }

  lemma {:induction false} AllRouted(s: Run, i: nat, k: nat)
    requires StartsRouting(s, i) && k <= |s.procs[i].next|
    ensures After(s, Routes(i, k)) == Some(RoutedTo(s, i, k))
  {
    if k == 0 {
      NothingRouted(s, i);
    } else {
      var n := k - 1;
      AllRouted(s, i, n);
      RoutesOneMore(s, i, n);
      RoutedSnoc(s, i, n, RoutedTo(s, i, n), RoutedTo(s, i, k));
    }
  }

  /** What `t` keeps of `s`, and what it counts more. */
  ghost predicate CountsMore(s: Run, t: Run, n: nat) {
    && t.ir == s.ir && t.redelivered == s.redelivered && t.completions == s.completions
    && t.counter.value == s.counter.value + n && s.counter.applied <= t.counter.applied
  }

  lemma EmitCounts(s: Run, i: nat)
    requires CanEmit(s, i) && !s.procs[i].absorber && Counter.Emit(s.procs[i].node, s.emits) !in s.counter.applied
    ensures Step(s, EmitTokens(i)).procs == s.procs[i := s.procs[i].(phase := Checking)]
    ensures CountsMore(s, Step(s, EmitTokens(i)), Tokens(s.procs[i].ir, s.procs[i].next))
  {
  }

  lemma RoutesAndCounts(s: Run, i: nat) returns (t: Run)
    requires i < |s.procs| && s.procs[i].phase == Routing && s.procs[i].pos == 0 && !s.procs[i].absorber
    requires Counter.Emit(s.procs[i].node, s.emits) !in s.counter.applied
    ensures var p := s.procs[i];
      && After(s, Routes(i, |p.next|) + [EmitTokens(i)]) == Some(t)
      && t.procs == s.procs[i := p.(pos := |p.next|, phase := Checking)] + Spawned(p.ir, p.next)
      && CountsMore(s, t, Tokens(p.ir, p.next))
  {
    var p := s.procs[i];
    AllRouted(s, i, |p.next|);
    assert p.next[..|p.next|] == p.next;
    var u := s.(procs := s.procs[i := p.(pos := |p.next|)] + Spawned(p.ir, p.next));
    AfterEmit(s, Routes(i, |p.next|), i, u);
    EmitCounts(u, i);
    t := Step(u, EmitTokens(i));
    assert t.procs == s.procs[i := p.(pos := |p.next|, phase := Checking)] + Spawned(p.ir, p.next);
  }

  lemma DeterminesAndRoutes(s: Run, i: nat, next: seq<NodeId>) returns (t: Run)
    requires i < |s.procs| && s.procs[i].phase == Consumed && !s.procs[i].absorber && s.procs[i].node in s.ir
    requires ControlFlow.CanRoute(s.ir[s.procs[i].node], next) && Counter.Emit(s.procs[i].node, s.emits) !in s.counter.applied
    ensures var p := s.procs[i];
      && After(s, RoutingEvents(i, next)) == Some(t)
      && t.procs == s.procs[i := p.(ir := s.ir, next := next, pos := |next|, phase := Checking)] + Spawned(s.ir, next)
      && CountsMore(s, t, Tokens(s.ir, next))
  {
    var p, u := s.procs[i], Step(s, Determine(i, next));
    AfterOne(s, Determine(i, next));
    assert u == s.(procs := s.procs[i := p.(phase := Routing, ir := s.ir, next := next, pos := 0)]) by {
      assert s.procs[i := p.(phase := Routing, ir := s.ir, next := next, pos := 0)] + [] == s.procs[i := p.(phase := Routing, ir := s.ir, next := next, pos := 0)];
    }
    t := RoutesAndCounts(u, i);
    AfterTwice(s, [Determine(i, next)], u, Routes(i, |next|) + [EmitTokens(i)]);
    assert u.procs[i := p.(ir := s.ir, next := next, pos := |next|, phase := Checking)] == s.procs[i := p.(ir := s.ir, next := next, pos := |next|, phase := Checking)];
  }

  lemma ConsumeCounts(s: Run, i: nat)
    requires i < |s.procs| && s.procs[i].phase == Ready
    ensures var p, t := s.procs[i], Step(s, ConsumeToken(i));
      && t.procs == s.procs[i := p.(phase := Consumed, repeat := Counter.Consume(p.node) in s.counter.applied)]
      && t.ir == s.ir && t.redelivered == s.redelivered && t.completions == s.completions && t.emits == s.emits
      && t.counter.applied == s.counter.applied + {Counter.Consume(p.node)}
      && t.counter.value == s.counter.value - if Counter.Consume(p.node) in s.counter.applied then 0 else 1
  {
    var t := Step(s, ConsumeToken(i));
    assert t.procs == s.procs[i := t.procs[i]];
  }

  lemma CheckRecords(s: Run, i: nat)
    requires i < |s.procs| && s.procs[i].phase == Checking && s.procs[i].node in s.procs[i].ir
    ensures var p, t := s.procs[i], Step(s, Check(i));
      && t.procs == s.procs[i := p.(phase := Done)] && t.ir == s.ir && t.redelivered == s.redelivered && t.counter == s.counter
      && t.completions == s.completions + if p.ir[p.node].isTerminal && s.counter.value == 0 then 1 else 0
  {
    var t := Step(s, Check(i));
    assert t.procs == s.procs[i := t.procs[i]];
  }

  /** The run after a handler has consumed the token of activation `i`, routed to `next`, counted it and
      checked: only this activation has changed, one activation was added for each next node that exists,
      the counter has lost the token unless the node had consumed before and gained the worker nodes,
      and COMPLETED is recorded if the node is terminal and the counter then reads zero. */
  ghost predicate Completed(s: Run, i: nat, next: seq<NodeId>, t: Run)
    requires i < |s.procs|
  {
    var p := s.procs[i];
    && t.ir == s.ir && |t.procs| >= |s.procs| && t.redelivered == s.redelivered
    && t.procs[i].phase == Done && t.procs[i].node == p.node && t.procs[i].next == next
    && (forall j :: 0 <= j < |s.procs| && j != i ==> t.procs[j] == s.procs[j])
    && t.procs[|s.procs|..] == Spawned(s.ir, next)
    && Counter.Consume(p.node) in t.counter.applied
    && t.counter.value == s.counter.value - (if Counter.Consume(p.node) in s.counter.applied then 0 else 1) + Tokens(s.ir, next)
    && t.completions == s.completions + if p.node in s.ir && s.ir[p.node].isTerminal && t.counter.value == 0 then 1 else 0
  }

  lemma LastWriteStays(ps: seq<Proc>, i: nat, x: Proc, y: Proc, z: Proc, added: seq<Proc>)
    requires i < |ps|
    ensures (ps[i := x][i := y] + added)[i := z] == ps[i := z] + added
  {
  }

  lemma CompletesAs(s: Run, i: nat, next: seq<NodeId>, t: Run, q: Proc)
    requires i < |s.procs| && t.procs == s.procs[i := q] + Spawned(s.ir, next)
    requires q.phase == Done && q.node == s.procs[i].node && q.next == next && t.ir == s.ir && t.redelivered == s.redelivered
    requires var key := Counter.Consume(s.procs[i].node);
      key in t.counter.applied && t.counter.value == s.counter.value - (if key in s.counter.applied then 0 else 1) + Tokens(s.ir, next)
    requires q.node in s.ir && t.completions == s.completions + if s.ir[q.node].isTerminal && t.counter.value == 0 then 1 else 0
    ensures Completed(s, i, next, t)
  {
  }

  lemma ReadyCompletes(s: Run, i: nat, next: seq<NodeId>) returns (t: Run)
    requires i < |s.procs| && s.procs[i].phase == Ready && !s.procs[i].absorber && s.procs[i].node in s.ir
    requires ControlFlow.CanRoute(s.ir[s.procs[i].node], next) && Counter.Emit(s.procs[i].node, s.emits) !in s.counter.applied
    ensures After(s, ConsumeEvents(s.ir, s.procs[i].node, i, next)) == Some(t) && Completed(s, i, next, t)
  {
    var a := Step(s, ConsumeToken(i));
    AfterOne(s, ConsumeToken(i));
    ConsumeCounts(s, i);
    var b := DeterminesAndRoutes(a, i, next);
    AfterStep(a, RoutingEvents(i, next), b, Check(i));
    CheckRecords(b, i);
    t := Step(b, Check(i));
    AfterTwice(s, [ConsumeToken(i)], a, RoutingEvents(i, next) + [Check(i)]);
    LastWriteStays(s.procs, i, a.procs[i], b.procs[i], t.procs[i], Spawned(s.ir, next));
    CompletesAs(s, i, next, t, t.procs[i]);
  }

  /** The node is gone from the reloaded IR: its token is consumed and nothing else happens. */
  ghost predicate Dropped(s: Run, i: nat, t: Run)
    requires i < |s.procs|
  {
    var p := s.procs[i];
    && t.ir == s.ir && |t.procs| == |s.procs| && t.redelivered == s.redelivered && t.completions == s.completions
    && t.procs[i].phase == Done && t.procs[i].node == p.node
    && (forall j :: 0 <= j < |s.procs| && j != i ==> t.procs[j] == s.procs[j])
    && t.counter.value == s.counter.value - if Counter.Consume(p.node) in s.counter.applied then 0 else 1
  }

  lemma ReadyDrops(s: Run, i: nat, next: seq<NodeId>) returns (t: Run)
    requires i < |s.procs| && s.procs[i].phase == Ready && !s.procs[i].absorber && s.procs[i].node !in s.ir
    ensures After(s, ConsumeEvents(s.ir, s.procs[i].node, i, next)) == Some(t) && Dropped(s, i, t)
  {
    var a := Step(s, ConsumeToken(i));
    AfterOne(s, ConsumeToken(i));
    ConsumeCounts(s, i);
    t := Step(a, Determine(i, []));
    AfterOne(a, Determine(i, []));
    AfterTwice(s, [ConsumeToken(i)], a, [Determine(i, [])]);
  }

  lemma Taken(s: Run, i: nat)
    requires i < |s.procs| && (s.procs[i].phase.Signalled? || s.procs[i].phase == Skipping)
    ensures var p := s.procs[i];
      Step(s, Pop(i)) == s.(procs := s.procs[i := p.(phase :=
        if p.node !in s.ir then Lost else if p.phase == Signalled(false) then Failed else Ready)])
  {
    var t := Step(s, Pop(i));
    assert t.procs == s.procs[i := t.procs[i]];
  }

  lemma TakingUpIsInvisible(s: Run, i: nat, ir: IR, next: seq<NodeId>, t: Run)
    requires i < |s.procs|
    ensures var a := s.(ir := ir, procs := s.procs[i := s.procs[i].(phase := Ready)]);
      (Completed(a, i, next, t) ==> Completed(s.(ir := ir), i, next, t)) && (Dropped(a, i, t) ==> Dropped(s.(ir := ir), i, t))
  {
  }

  /** A handler that was taken up and whose reload did not block. */
  lemma TakenCompletes(s: Run, a: Run, i: nat, ir: IR, next: seq<NodeId>) returns (t: Run)
    requires i < |s.procs| && !s.procs[i].absorber && a == s.(procs := s.procs[i := s.procs[i].(phase := Ready)])
    requires Counter.Emit(s.procs[i].node, s.emits) !in s.counter.applied
    requires s.procs[i].node in ir ==> ControlFlow.CanRoute(ir[s.procs[i].node], next)
    ensures After(a.(ir := ir), ConsumeEvents(ir, s.procs[i].node, i, next)) == Some(t)
    ensures if s.procs[i].node in ir then Completed(s.(ir := ir), i, next, t) else Dropped(s.(ir := ir), i, t)
  {
    if s.procs[i].node in ir {
      t := ReadyCompletes(a.(ir := ir), i, next);
    } else {
      t := ReadyDrops(a.(ir := ir), i, next);
    }
    TakingUpIsInvisible(s, i, ir, next, t);
  }

  lemma Blocks(s: Run, i: nat)
    requires i < |s.procs| && s.procs[i].phase == Ready
    ensures After(s, [Block(i)]) == Some(s.(procs := s.procs[i := s.procs[i].(phase := Failed)]))
  {
    AfterOne(s, Block(i));
    var t := Step(s, Block(i));
    assert t.procs == s.procs[i := t.procs[i]];
  }

  /** What handling one completion signal comes to, in every case. */
  lemma CompletionOutcome(s: Run, i: nat, reload: Reload, next: seq<NodeId>) returns (t: Run)
    requires i < |s.procs| && (s.procs[i].phase.Signalled? || s.procs[i].phase == Skipping) && !s.procs[i].absorber
    requires Counter.Emit(s.procs[i].node, s.emits) !in s.counter.applied
    requires s.procs[i].node in s.ir ==>
      var after := IRAfter(s, s.procs[i].node, reload);
      s.procs[i].node in after ==> ControlFlow.CanRoute(after[s.procs[i].node], next)
    ensures After(s, CompletionEvents(s, i, reload, next)) == Some(t)
    ensures var p := s.procs[i];
      if p.node !in s.ir then t == s.(procs := s.procs[i := p.(phase := Lost)])
      else if p.phase == Signalled(false) || (s.ir[p.node].kind == "agent" && reload.Blocked?) then t == s.(procs := s.procs[i := p.(phase := Failed)])
      else
        var after := s.(ir := if s.ir[p.node].kind == "agent" && reload.Replaced? then reload.ir else s.ir);
        if p.node in after.ir then Completed(after, i, next, t) else Dropped(after, i, t)
  {
    var p, a := s.procs[i], Step(s, Pop(i));
    AfterOne(s, Pop(i));
    Taken(s, i);
    if p.node !in s.ir || p.phase == Signalled(false) {
      t := a;
    } else if s.ir[p.node].kind == "agent" && reload.Blocked? {
      Blocks(a, i);
      AfterTwice(s, [Pop(i)], a, [Block(i)]);
      t := s.(procs := s.procs[i := p.(phase := Failed)]);
      assert a.procs[i := p.(phase := Failed)] == s.procs[i := p.(phase := Failed)];
    } else if s.ir[p.node].kind == "agent" && reload.Replaced? {
      t := TakenCompletes(s, a, i, reload.ir, next);
      AfterOne(a, Patch(reload.ir));
      AfterTwice(a, [Patch(reload.ir)], a.(ir := reload.ir), ConsumeEvents(reload.ir, p.node, i, next));
      AfterTwice(s, [Pop(i)], a, [Patch(reload.ir)] + ConsumeEvents(reload.ir, p.node, i, next));
    } else {
      t := TakenCompletes(s, a, i, s.ir, next);
      assert a.(ir := s.ir) == a;
      AfterTwice(s, [Pop(i)], a, ConsumeEvents(s.ir, p.node, i, next));
    }
  }

  lemma AbsorberCounts(s: Run, i: nat)
    requires CanEmit(s, i) && s.procs[i].absorber && Counter.Emit(s.procs[i].node, s.emits) !in s.counter.applied
    ensures Step(s, EmitTokens(i)).procs == s.procs[i := s.procs[i].(phase := Done)]
    ensures CountsMore(s, Step(s, EmitTokens(i)), |s.procs[i].next|)
  {
    var t := Step(s, EmitTokens(i));
    assert t.procs == s.procs[i := t.procs[i]];
  }

  lemma AbsorberRoutes(s: Run, i: nat) returns (t: Run)
    requires StartsRouting(s, i) && s.procs[i].absorber && Counter.Emit(s.procs[i].node, s.emits) !in s.counter.applied
    ensures var p := s.procs[i];
      && After(s, Routes(i, |p.next|) + [EmitTokens(i)]) == Some(t)
      && t.procs == s.procs[i := p.(pos := |p.next|, phase := Done)] + Spawned(p.ir, p.next)
      && CountsMore(s, t, |p.next|)
  {
    var p := s.procs[i];
    AllRouted(s, i, |p.next|);
    assert p.next[..|p.next|] == p.next;
    var u := RoutedTo(s, i, |p.next|);
    AfterEmit(s, Routes(i, |p.next|), i, u);
    AbsorberCounts(u, i);
    t := Step(u, EmitTokens(i));
    assert t.procs == s.procs[i := p.(pos := |p.next|, phase := Done)] + Spawned(p.ir, p.next);
  }

  lemma AbsorberDetermines(s: Run, i: nat, next: seq<NodeId>)
    requires i < |s.procs| && s.procs[i].phase == Absorbing && s.procs[i].absorber && s.procs[i].node in s.procs[i].ir
    requires ControlFlow.CanRoute(s.procs[i].ir[s.procs[i].node], next)
    ensures After(s, [Determine(i, next)]) == Some(s.(procs := s.procs[i := s.procs[i].(phase := Routing, next := next, pos := 0)]))
  {
    AfterOne(s, Determine(i, next));
    var u := Step(s, Determine(i, next));
    assert u.procs == s.procs[i := u.procs[i]];
  }

  /** An absorber consumes nothing: it adds one activation for each next node that exists, counts all of
      its next nodes, existing or not, and never checks for completion. */
  lemma AbsorberOutcome(s: Run, i: nat, next: seq<NodeId>) returns (t: Run)
    requires i < |s.procs| && s.procs[i].phase == Absorbing && s.procs[i].absorber && s.procs[i].node in s.procs[i].ir
    requires ControlFlow.CanRoute(s.procs[i].ir[s.procs[i].node], next) && Counter.Emit(s.procs[i].node, s.emits) !in s.counter.applied
    ensures var p := s.procs[i];
      && After(s, RoutingEvents(i, next)) == Some(t)
      && t.procs == s.procs[i := p.(next := next, pos := |next|, phase := Done)] + Spawned(p.ir, next)
      && CountsMore(s, t, |next|)
  {
    var p := s.procs[i];
    var u := s.(procs := s.procs[i := p.(phase := Routing, next := next, pos := 0)]);
    AbsorberDetermines(s, i, next);
    t := AbsorberRoutes(u, i);
    AfterTwice(s, [Determine(i, next)], u, Routes(i, |next|) + [EmitTokens(i)]);
    assert u.procs[i := p.(next := next, pos := |next|, phase := Done)] == s.procs[i := p.(next := next, pos := |next|, phase := Done)];
  }
}
