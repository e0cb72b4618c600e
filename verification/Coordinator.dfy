/** The token protocol of one run as a small-step transition system
    (cmd/workflow-runner/coordinator). Completion handlers, skipped nodes and absorbers run in
    their own goroutines, so every phase of every activation may interleave with every other. */
module Coordinator {
  import opened WorkflowIR
  import opened Counter
  import ControlFlow

  /** Where one activation of a node stands. */
  datatype Phase =
    | InStream              // token published to a worker stream
    | Signalled(ok: bool)   // the worker pushed its completion signal
    | Skipping              // synthetic completion of a node without a worker
    | Ready                 // completion handler started, token not consumed yet
    | Consumed              // token consumed, next nodes not determined yet
    | Absorbing             // absorber started, next nodes not determined yet
    | Routing               // next nodes determined, `pos` of them handled
    | Checking              // counter increased, terminal check pending
    | Done
    | Failed                // failed node: its token is never consumed
    | Lost                  // the node was missing from the IR: handler gave up before consuming

  /** One activation. `ir` is the snapshot the handler routes with, `next` the nodes it chose, and
      `repeat` records that its consume key had been used before. */
  datatype Proc = Proc(node: NodeId, absorber: bool, phase: Phase, ir: IR, next: seq<NodeId>, pos: nat, repeat: bool)

  datatype Run = Run(
    ir: IR,
    counter: Counter,
    emits: nat,          // supplies fresh emit ids
    procs: seq<Proc>,
    redelivered: nat,    // completion signals delivered more than once
    completions: nat)    // how often COMPLETED was recorded

  datatype Event =
    | Work(i: nat, ok: bool)
    | Redeliver(i: nat)
    | Pop(i: nat)
    | Block(i: nat)
    | ConsumeToken(i: nat)
    | Determine(i: nat, next: seq<NodeId>)
    | Route(i: nat)
    | EmitTokens(i: nat)
    | Check(i: nat)
    | Patch(ir: IR)

  predicate HasWorker(n: Node) {
    n.kind in {"http", "agent", "hitl"}
  }

  function Activate(node: NodeId, absorber: bool, phase: Phase, ir: IR): Proc {
    Proc(node, absorber, phase, ir, [], 0, false)
  }

  /** The activation created for one next node that exists in the IR. */
  function Spawn(ir: IR, m: NodeId): Proc
    requires m in ir
  {
    if ir[m].IsAbsorber() then Activate(m, true, Absorbing, ir)
    else if HasWorker(ir[m]) then Activate(m, false, InStream, ir)
    else Activate(m, false, Skipping, ir)
  }

  /** Next nodes that the router counts as worker nodes. */
  function Tokens(ir: IR, ns: seq<NodeId>): nat {
    if ns == [] then 0
    else
      var m := ns[|ns| - 1];
      Tokens(ir, ns[..|ns| - 1]) + if m in ir && !ir[m].IsAbsorber() then 1 else 0
  }

  // ---- Steps

  ghost predicate Enabled(s: Run, e: Event) {
    if e.Patch? then true
    else
      e.i < |s.procs| &&
      var p := s.procs[e.i];
      match e
      case Work(_, _) => p.phase == InStream
      case Redeliver(_) => p.phase.Signalled?
      case Pop(_) => p.phase.Signalled? || p.phase == Skipping
      case Block(_) => p.phase == Ready
      case ConsumeToken(_) => p.phase == Ready
      case Determine(_, next) =>
        || (p.phase == Consumed && (p.node in s.ir ==> ControlFlow.CanRoute(s.ir[p.node], next)))
        || (p.phase == Absorbing && p.node in p.ir && ControlFlow.CanRoute(p.ir[p.node], next))
      case Route(_) => p.phase == Routing && p.pos < |p.next|
      case EmitTokens(_) => p.phase == Routing && p.pos == |p.next|
      case Check(_) => p.phase == Checking && p.node in p.ir
  }

  /** What one event does to the activation it steps. */
  ghost function Advance(s: Run, e: Event): Proc
    requires Enabled(s, e) && !e.Patch?
  {
    var p := s.procs[e.i];
    match e
    case Work(_, ok) => p.(phase := Signalled(ok))
    case Redeliver(_) => p
    case Pop(_) =>
      if p.node !in s.ir then p.(phase := Lost)
      else if p.phase == Signalled(false) then p.(phase := Failed)
      else p.(phase := Ready)
    case Block(_) => p.(phase := Failed)
    case ConsumeToken(_) => p.(phase := Consumed, repeat := Consume(p.node) in s.counter.applied)
    case Determine(_, next) =>
      if p.absorber then p.(phase := Routing, next := next, pos := 0)
      else if p.node !in s.ir then p.(phase := Done)
      else p.(phase := Routing, ir := s.ir, next := next, pos := 0)
    case Route(_) => p.(pos := p.pos + 1)
    case EmitTokens(_) => p.(phase := if p.absorber then Done else Checking)
    case Check(_) => p.(phase := Done)
  }

  /** The activations one event adds. */
  ghost function Added(s: Run, e: Event): seq<Proc>
    requires Enabled(s, e) && !e.Patch?
  {
    var p := s.procs[e.i];
    match e
    case Redeliver(_) => [p]
    case Route(_) => if p.next[p.pos] in p.ir then [Spawn(p.ir, p.next[p.pos])] else []
    case _ => []
  }

  /** The counter delta of an emission: workers only for a handler, every next node for an absorber. */
  function EmitSize(p: Proc): nat {
    if p.absorber then |p.next| else Tokens(p.ir, p.next)
  }

  ghost function NextCounter(s: Run, e: Event): Counter
    requires Enabled(s, e) && !e.Patch?
  {
    var p := s.procs[e.i];
    match e
    case ConsumeToken(_) => Apply(s.counter, Op(Consume(p.node), -1))
    case EmitTokens(_) =>
      if EmitSize(p) == 0 then s.counter else Apply(s.counter, Op(Emit(p.node, s.emits), EmitSize(p)))
    case _ => s.counter
  }

  /** A terminal node whose check reads zero records COMPLETED. */
  ghost predicate Records(s: Run, e: Event)
    requires Enabled(s, e)
  {
    e.Check? && s.procs[e.i].ir[s.procs[e.i].node].isTerminal && s.counter.value == 0
  }

  ghost function Step(s: Run, e: Event): Run
    requires Enabled(s, e)
  {
    if e.Patch? then s.(ir := e.ir)
    else
      s.(counter := NextCounter(s, e),
         emits := s.emits + (if e.EmitTokens? then 1 else 0),
         procs := s.procs[e.i := Advance(s, e)] + Added(s, e),
         redelivered := s.redelivered + (if e.Redeliver? then 1 else 0),
         completions := s.completions + (if Records(s, e) then 1 else 0))
  }

  // ---- Runs

  ghost function EntryNodes(ir: IR): set<NodeId> {
    set n | n in ir && ir[n].dependencies == []
  }

  /** The counter is set to the number of entry nodes before their tokens are published, in map
      order. A token still to be published behaves like one no worker has taken yet. */
  ghost function Start(ir: IR, entries: seq<NodeId>): Run {
    Run(ir, Counter(|entries|, {}), 0, seq(|entries|, i requires 0 <= i < |entries| => Activate(entries[i], false, InStream, ir)), 0, 0)
  }

  /** `ss` are the states of a run and `es` the events between them. */
  ghost predicate IsTrace(ss: seq<Run>, es: seq<Event>) {
    && |ss| == |es| + 1
    && forall k :: 0 <= k < |es| ==> Enabled(ss[k], es[k]) && ss[k + 1] == Step(ss[k], es[k])
  }

  ghost predicate IsRun(ir: IR, entries: seq<NodeId>, ss: seq<Run>, es: seq<Event>) {
    IsTrace(ss, es) && ss[0] == Start(ir, entries)
  }

  lemma ExtendTrace(ss: seq<Run>, es: seq<Event>, e: Event, t: Run)
    requires IsTrace(ss, es) && Enabled(ss[|es|], e) && t == Step(ss[|es|], e)
    ensures IsTrace(ss + [t], es + [e])
  {
    var ss', es' := ss + [t], es + [e];
    forall k | 0 <= k < |es'| ensures Enabled(ss'[k], es'[k]) && ss'[k + 1] == Step(ss'[k], es'[k]) {
      if k < |es| {
        assert ss'[k] == ss[k] && ss'[k + 1] == ss[k + 1] && es'[k] == es[k];
      }
    }
  }

  ghost function Routes(i: nat, n: nat): seq<Event> {
    if n == 0 then [] else Routes(i, n - 1) + [Route(i)]
  }

  // ---- Sums over activations

  ghost function Sum(ps: seq<Proc>, w: Proc -> int): int {
    if ps == [] then 0 else Sum(ps[..|ps| - 1], w) + w(ps[|ps| - 1])
  }

  lemma {:induction false} SumConcat(ps: seq<Proc>, qs: seq<Proc>, w: Proc -> int)
    ensures Sum(ps + qs, w) == Sum(ps, w) + Sum(qs, w)
  {
    if qs == [] {
      assert ps + qs == ps;
    } else {
      assert (ps + qs)[..|ps + qs| - 1] == ps + qs[..|qs| - 1];
      SumConcat(ps, qs[..|qs| - 1], w);
    }
  }

  lemma {:induction false} SumUpdate(ps: seq<Proc>, i: nat, p: Proc, w: Proc -> int)
    requires i < |ps|
    ensures Sum(ps[i := p], w) == Sum(ps, w) - w(ps[i]) + w(p)
  {
    var k := |ps| - 1;
    if i == k {
      assert ps[i := p][..k] == ps[..k];
    } else {
      assert ps[i := p][..k] == ps[..k][i := p];
      SumUpdate(ps[..k], i, p, w);
    }
  }

  /** Effect of one step on any sum. */
  lemma SumStep(s: Run, e: Event, w: Proc -> int)
    requires Enabled(s, e) && !e.Patch?
    ensures Sum(Step(s, e).procs, w) == Sum(s.procs, w) - w(s.procs[e.i]) + w(Advance(s, e)) + Sum(Added(s, e), w)
  {
    SumUpdate(s.procs, e.i, Advance(s, e), w);
    SumConcat(s.procs[e.i := Advance(s, e)], Added(s, e), w);
  }

  lemma {:induction false} SumOfSum(ps: seq<Proc>, u: Proc -> int, v: Proc -> int, w: Proc -> int)
    requires forall p :: p in ps ==> w(p) == u(p) + v(p)
    ensures Sum(ps, w) == Sum(ps, u) + Sum(ps, v)
  {
    if ps != [] {
      assert ps == ps[..|ps| - 1] + [ps[|ps| - 1]];
      SumOfSum(ps[..|ps| - 1], u, v, w);
    }
  }

  lemma {:induction false} SumMonotone(ps: seq<Proc>, v: Proc -> int, w: Proc -> int)
    requires forall p :: p in ps ==> v(p) <= w(p)
    ensures Sum(ps, v) <= Sum(ps, w)
  {
    if ps != [] {
      assert ps == ps[..|ps| - 1] + [ps[|ps| - 1]];
      SumMonotone(ps[..|ps| - 1], v, w);
    }
  }

  lemma {:induction false} SumZero(ps: seq<Proc>, w: Proc -> int)
    requires forall p :: p in ps ==> w(p) >= 0
    ensures Sum(ps, w) >= 0
    ensures Sum(ps, w) == 0 ==> forall p :: p in ps ==> w(p) == 0
  {
    if ps != [] {
      assert ps == ps[..|ps| - 1] + [ps[|ps| - 1]];
      SumZero(ps[..|ps| - 1], w);
    }
  }

  // ---- Token conservation

  /** A token that is published or being completed and not yet consumed. */
  function Live(p: Proc): int {
    if p.phase == InStream || p.phase.Signalled? || p.phase == Skipping || p.phase == Ready then 1 else 0
  }

  /** A token that will never be consumed. */
  function Stuck(p: Proc): int {
    if p.phase == Failed || p.phase == Lost then 1 else 0
  }

  /** Tokens created by a handler that has not increased the counter for them yet. */
  function Unemitted(p: Proc): int {
    if p.phase == Routing && p.pos <= |p.next| then Tokens(p.ir, p.next[..p.pos]) else 0
  }

  /** A completion whose consume key was already used leaves the counter one too high. */
  function Repeated(p: Proc): int {
    if p.repeat then 1 else 0
  }

  /** Next nodes an absorber counted without creating a token for them. */
  function Phantom(p: Proc): int {
    if p.absorber && p.phase == Done then |p.next| - Tokens(p.ir, p.next) else 0
  }

  /** What the counter should hold because of `p`. */
  function Debt(p: Proc): int {
    Live(p) + Stuck(p) + Repeated(p) + Phantom(p) - Unemitted(p)
  }

  /** An activation that will still route: its successors are not published yet, or not all. */
  predicate UnderWay(p: Proc) {
    p.phase == Consumed || p.phase == Routing || p.phase == Absorbing
  }

  /** An activation with work left: a token outstanding or failed, or successors to publish. */
  predicate Unfinished(p: Proc) {
    Live(p) > 0 || Stuck(p) > 0 || UnderWay(p)
  }

  ghost predicate WellFormed(p: Proc) {
    && p.pos <= |p.next|
    && (p.absorber ==> !p.repeat && (p.phase == Absorbing || p.phase == Routing || p.phase == Done))
    && (!p.absorber ==> p.phase != Absorbing)
    && (p.phase == Absorbing ==> p.next == [])
    && (p.absorber ==> p.node in p.ir)
    && (p.phase == Checking || (p.phase == Routing && !p.absorber) ==> p.node in p.ir)
    && (p.repeat ==> p.phase == Consumed || p.phase == Routing || p.phase == Checking || p.phase == Done)
    && (p.phase != Routing && p.phase != Checking && p.phase != Done ==> p.next == [])
  }

  ghost predicate Conserved(s: Run) {
    && (forall p :: p in s.procs ==> WellFormed(p))
    && (forall k :: k in s.counter.applied && k.Emit? ==> k.id < s.emits)
    && s.counter.value + s.redelivered == Sum(s.procs, Debt)
  }

  lemma {:induction false} TokensBound(ir: IR, ns: seq<NodeId>)
    ensures Tokens(ir, ns) <= |ns|
  {
    if ns != [] {
      TokensBound(ir, ns[..|ns| - 1]);
    }
  }

  lemma StepKeepsShape(s: Run, e: Event)
    requires Enabled(s, e) && !e.Patch? && WellFormed(s.procs[e.i])
    ensures WellFormed(Advance(s, e))
    ensures forall q :: q in Added(s, e) ==> WellFormed(q)
  {
  }

  lemma SumSingle(q: Proc, w: Proc -> int)
    ensures Sum([q], w) == w(q)
  {
    assert [q][..0] == [];
  }

  lemma SpawnDebt(ir: IR, m: NodeId)
    requires m in ir
    ensures Debt(Spawn(ir, m)) == if ir[m].IsAbsorber() then 0 else 1
  {
  }

  lemma RouteKeepsDebt(p: Proc)
    requires WellFormed(p) && p.phase == Routing && p.pos < |p.next|
    ensures Debt(p.(pos := p.pos + 1)) == Debt(p) - (if p.next[p.pos] in p.ir then Debt(Spawn(p.ir, p.next[p.pos])) else 0)
  {
    assert p.next[..p.pos + 1][..p.pos] == p.next[..p.pos];
    if p.next[p.pos] in p.ir {
      SpawnDebt(p.ir, p.next[p.pos]);
    }
  }

  lemma EmitKeepsDebt(p: Proc)
    requires WellFormed(p) && p.phase == Routing && p.pos == |p.next|
    ensures Debt(p.(phase := if p.absorber then Done else Checking)) == Debt(p) + EmitSize(p)
  {
    assert p.next[..p.pos] == p.next;
    TokensBound(p.ir, p.next);
  }

  lemma StepKeepsDebt(s: Run, e: Event)
    requires Enabled(s, e) && !e.Patch? && WellFormed(s.procs[e.i])
    requires Emit(s.procs[e.i].node, s.emits) !in s.counter.applied
    ensures NextCounter(s, e).value - s.counter.value + (if e.Redeliver? then 1 else 0)
         == Debt(Advance(s, e)) - Debt(s.procs[e.i]) + Sum(Added(s, e), Debt)
  {
    var p := s.procs[e.i];
    match e
    case Route(_) =>
      RouteKeepsDebt(p);
      if p.next[p.pos] in p.ir {
        SumSingle(Spawn(p.ir, p.next[p.pos]), Debt);
      }
    case EmitTokens(_) =>
      EmitKeepsDebt(p);
    case Redeliver(_) =>
      SumSingle(p, Debt);
    case Determine(_, next) =>
      assert next[..0] == [];
    case _ =>
  }

  lemma StepKeepsShapes(s: Run, e: Event)
    requires Enabled(s, e) && !e.Patch? && forall p :: p in s.procs ==> WellFormed(p)
    ensures forall p :: p in Step(s, e).procs ==> WellFormed(p)
  {
    StepKeepsShape(s, e);
    forall p | p in Step(s, e).procs ensures WellFormed(p) {
      assert p in s.procs[e.i := Advance(s, e)] || p in Added(s, e);
      assert p in s.procs || p == Advance(s, e) || p in Added(s, e);
    }
  }

  lemma StepConserves(s: Run, e: Event)
    requires Conserved(s) && Enabled(s, e)
    ensures Conserved(Step(s, e))
  {
    if !e.Patch? {
      StepKeepsShapes(s, e);
      StepKeepsDebt(s, e);
      SumStep(s, e, Debt);
    }
  }

  lemma {:induction false} StartSum(ir: IR, entries: seq<NodeId>)
    ensures Sum(Start(ir, entries).procs, Debt) == |entries|
  {
    if entries != [] {
      var init := entries[..|entries| - 1];
      StartSum(ir, init);
      assert Start(ir, entries).procs[..|init|] == Start(ir, init).procs;
    }
  }

  /** Conservation holds at every point of every run: any graph, any interleaving, any redelivery
      of signals, any failures and any change of the IR along the way. */
  lemma {:induction false} EveryRunConserves(ir: IR, entries: seq<NodeId>, ss: seq<Run>, es: seq<Event>, k: nat)
    requires IsRun(ir, entries, ss, es) && k < |ss|
    ensures Conserved(ss[k])
  {
    if k == 0 {
      StartSum(ir, entries);
    } else {
      EveryRunConserves(ir, entries, ss, es, k - 1);
      StepConserves(ss[k - 1], es[k - 1]);
    }
  }

  lemma {:induction false} DebtSplits(ps: seq<Proc>)
    ensures Sum(ps, Debt) == Sum(ps, Live) + Sum(ps, Stuck) + Sum(ps, Repeated) + Sum(ps, Phantom) - Sum(ps, Unemitted)
  {
    if ps != [] {
      DebtSplits(ps[..|ps| - 1]);
    }
  }

  /** The exact value of the counter in every reachable state. */
  lemma TokenConservation(ir: IR, entries: seq<NodeId>, ss: seq<Run>, es: seq<Event>, k: nat)
    requires IsRun(ir, entries, ss, es) && k < |ss|
    ensures var s := ss[k];
            s.counter.value + s.redelivered + Sum(s.procs, Unemitted)
            == Sum(s.procs, Live) + Sum(s.procs, Stuck) + Sum(s.procs, Repeated) + Sum(s.procs, Phantom)
  {
    EveryRunConserves(ir, entries, ss, es, k);
    DebtSplits(ss[k].procs);
  }

  lemma PartsNonNegative(p: Proc)
    ensures Live(p) >= 0 && Stuck(p) >= 0 && Repeated(p) >= 0 && Phantom(p) >= 0 && Unemitted(p) >= 0
  {
    TokensBound(p.ir, p.next);
  }

  /** Nothing is left of the run's work, and every activation left the counter exact. */
  ghost predicate Clean(p: Proc) {
    Live(p) == 0 && Stuck(p) == 0 && Repeated(p) == 0 && Phantom(p) == 0
  }

  /** When no handler stands between publishing and emitting and no signal was redelivered, the
      counter is zero exactly when no token is live or stuck and no completion was miscounted. */
  lemma ZeroIffClean(ir: IR, entries: seq<NodeId>, ss: seq<Run>, es: seq<Event>, k: nat)
    requires IsRun(ir, entries, ss, es) && k < |ss|
    requires ss[k].redelivered == 0 && forall p :: p in ss[k].procs ==> Unemitted(p) == 0
    ensures ss[k].counter.value == 0 <==> forall p :: p in ss[k].procs ==> Clean(p)
  {
    EveryRunConserves(ir, entries, ss, es, k);
    forall p | p in ss[k].procs ensures Debt(p) >= 0 && (Debt(p) == 0 <==> Clean(p)) {
      PartsNonNegative(p);
    }
    SumZero(ss[k].procs, Debt);
    if forall p :: p in ss[k].procs ==> Clean(p) {
      SumAllZero(ss[k].procs, Debt);
    }
  }

  lemma {:induction false} SumAllZero(ps: seq<Proc>, w: Proc -> int)
    requires forall p :: p in ps ==> w(p) == 0
    ensures Sum(ps, w) == 0
  {
    if ps != [] {
      assert ps == ps[..|ps| - 1] + [ps[|ps| - 1]];
      SumAllZero(ps[..|ps| - 1], w);
    }
  }
}
