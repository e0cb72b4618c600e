/** Choice of the next nodes after a completion (cmd/workflow-runner/operators/control_flow.go). */
module ControlFlow {
  import opened Wrappers
  import opened WorkflowIR
  import Compiler

  /** Outcome of one condition evaluation; the expression language itself is an oracle. */
  datatype Outcome = Met | NotMet | Failed

  type Oracle = Condition -> Outcome

  // ---- Branches

  function FirstMatch(rules: seq<BranchRule>, fallback: seq<NodeId>, eval: Oracle): seq<NodeId> {
    if rules == [] then fallback
    else if rules[0].condition.Some? && eval(rules[0].condition.value).Met? then rules[0].nextNodes
    else FirstMatch(rules[1..], fallback, eval)
  }

  /** `payload` is None when the output cannot be loaded. */
  function BranchChoice(b: BranchConfig, payload: Option<Oracle>): seq<NodeId> {
    if payload.None? then b.fallback else FirstMatch(b.rules, b.fallback, payload.value)
  }

  method HandleBranch(b: BranchConfig, payload: Option<Oracle>) returns (next: seq<NodeId>)
    ensures next == BranchChoice(b, payload)
    ensures payload.None? ==> next == b.fallback
  {
    if payload.None? { return b.fallback; }
    var eval := payload.value;
    for i := 0 to |b.rules|
      invariant FirstMatch(b.rules, b.fallback, eval) == FirstMatch(b.rules[i..], b.fallback, eval)
    {
      var rule := b.rules[i];
      assert b.rules[i..][0] == rule && b.rules[i..][1..] == b.rules[i + 1..];
      if rule.condition.None? { continue; }
      if eval(rule.condition.value).Met? { return rule.nextNodes; }
    }
    return b.fallback;
  }

  ghost predicate Holds(es: seq<Compiler.Edge>, eval: Oracle, c: string) {
    c in Compiler.Conditions(es) && eval(Condition("cel", c)).Met?
  }

  lemma {:induction false} FirstMatchIsARule(rules: seq<BranchRule>, fallback: seq<NodeId>, eval: Oracle) returns (i: nat)
    ensures i <= |rules|
    ensures forall k :: 0 <= k < i ==> !(rules[k].condition.Some? && eval(rules[k].condition.value).Met?)
    ensures i == |rules| ==> FirstMatch(rules, fallback, eval) == fallback
    ensures i < |rules| ==> rules[i].condition.Some? && eval(rules[i].condition.value).Met?
                            && FirstMatch(rules, fallback, eval) == rules[i].nextNodes
  {
    if rules == [] {
      i := 0;
    } else if rules[0].condition.Some? && eval(rules[0].condition.value).Met? {
      i := 0;
    } else {
      var j := FirstMatchIsARule(rules[1..], fallback, eval);
      i := j + 1;
    }
  }

  /** What the compiler's grouping and the run-time rule scan mean together, whatever order the
      rules were stored in: the whole group of one true condition, in edge order, or the
      unconditional targets when no condition is true. */
  lemma BranchMeaning(es: seq<Compiler.Edge>, b: BranchConfig, eval: Oracle)
    requires Compiler.BranchOf(es, b)
    ensures (exists c :: Holds(es, eval, c)) ==>
              exists c :: Holds(es, eval, c) && FirstMatch(b.rules, b.fallback, eval) == Compiler.Group(es, c)
    ensures (forall c :: !Holds(es, eval, c)) ==> FirstMatch(b.rules, b.fallback, eval) == Compiler.Group(es, "")
  {
    var i := FirstMatchIsARule(b.rules, b.fallback, eval);
    if i < |b.rules| {
      assert b.rules[i] in b.rules;
      assert Compiler.RuleFor(es, b.rules[i]);
      var c := b.rules[i].condition.value.expression;
      assert b.rules[i].condition.value == Condition("cel", c);
      assert Holds(es, eval, c);
    } else {
      forall c | c in Compiler.Conditions(es) ensures !Holds(es, eval, c) {
        var k :| 0 <= k < |b.rules| && b.rules[k].condition == Some(Condition("cel", c));
      }
    }
  }

  /** When exactly one condition holds, the result does not depend on the rule order at all. */
  lemma UniqueConditionDecides(es: seq<Compiler.Edge>, b: BranchConfig, eval: Oracle, c: string)
    requires Compiler.BranchOf(es, b)
    requires Holds(es, eval, c) && forall d :: Holds(es, eval, d) ==> d == c
    ensures FirstMatch(b.rules, b.fallback, eval) == Compiler.Group(es, c)
  {
    BranchMeaning(es, b, eval);
  }

  // ---- Loops

  /** Result of one loop evaluation: the next nodes and whether the iteration count was cleared. */
  datatype LoopStep = LoopStep(next: seq<NodeId>, exited: bool)

  /** `iteration` is the count after the increment. */
  function LoopChoice(l: LoopConfig, iteration: int, payload: Option<Oracle>): LoopStep {
    if iteration >= l.maxIterations then LoopStep(l.timeoutPath, true)
    else if l.condition.None? then LoopStep([l.loopBackTo], false)
    else if payload.None? then LoopStep(l.breakPath, true)
    else if payload.value(l.condition.value).Met? then LoopStep([l.loopBackTo], false)
    else LoopStep(l.breakPath, true)
  }

  /** The loop hash of one (run, node): absent means zero iterations so far. */
  class LoopOperator {
    var iterations: map<NodeId, int>

    constructor ()
      ensures iterations == map[]
    {
      iterations := map[];
    }

    ghost function Current(n: NodeId): int
      reads this
    {
      if n in iterations then iterations[n] else 0
    }

    method HandleLoop(n: NodeId, l: LoopConfig, payload: Option<Oracle>) returns (next: seq<NodeId>)
      modifies this
      ensures next == LoopChoice(l, old(Current(n)) + 1, payload).next
      ensures Current(n) == NextCount(l, old(Current(n)), payload)
      ensures forall m :: m != n ==> Current(m) == old(Current(m))
    {
      var iteration := (if n in iterations then iterations[n] else 0) + 1;
      iterations := iterations[n := iteration];
      if iteration >= l.maxIterations {
        iterations := iterations - {n};
        return l.timeoutPath;
      }
      if l.condition.Some? {
        if payload.None? {
          iterations := iterations - {n};
          return l.breakPath;
        }
        match payload.value(l.condition.value)
        case Failed =>
          iterations := iterations - {n};
          return l.breakPath;
        case Met =>
          return [l.loopBackTo];
        case NotMet =>
          iterations := iterations - {n};
          return l.breakPath;
      }
      return [l.loopBackTo];
    }
  }

  function NextCount(l: LoopConfig, count: int, payload: Option<Oracle>): int {
    if LoopChoice(l, count + 1, payload).exited then 0 else count + 1
  }

  /** The stored count after a sequence of calls on one loop node. */
  ghost function CountAfter(l: LoopConfig, start: int, calls: seq<Option<Oracle>>): int {
    if calls == [] then start
    else NextCount(l, CountAfter(l, start, calls[..|calls| - 1]), calls[|calls| - 1])
  }

  ghost predicate Exits(l: LoopConfig, calls: seq<Option<Oracle>>, k: nat)
    requires k < |calls|
  {
    LoopChoice(l, CountAfter(l, 0, calls[..k]) + 1, calls[k]).exited
  }

  /** The stored count always stays below the limit. */
  lemma {:induction false} CountBelowLimit(l: LoopConfig, calls: seq<Option<Oracle>>)
    requires l.maxIterations > 0
    ensures 0 <= CountAfter(l, 0, calls) < l.maxIterations
  {
    if calls != [] {
      CountBelowLimit(l, calls[..|calls| - 1]);
    }
  }

  lemma {:induction false} CountGrowsWithoutExit(l: LoopConfig, calls: seq<Option<Oracle>>, from: nat, k: nat)
    requires from <= k <= |calls|
    requires forall i :: from <= i < k ==> !Exits(l, calls, i)
    ensures CountAfter(l, 0, calls[..k]) == CountAfter(l, 0, calls[..from]) + (k - from)
  {
    if from < k {
      CountGrowsWithoutExit(l, calls, from, k - 1);
      assert calls[..k][..k - 1] == calls[..k - 1];
      assert !Exits(l, calls, k - 1);
    }
  }

  /** Among any `maxIterations` consecutive calls at least one leaves the loop, so a loop node
      never loops back `maxIterations` times in a row, however many calls are made in total. */
  lemma LoopsAreBounded(l: LoopConfig, calls: seq<Option<Oracle>>, from: nat)
    requires l.maxIterations > 0 && from + l.maxIterations <= |calls|
    ensures exists k :: from <= k < from + l.maxIterations && Exits(l, calls, k)
  {
    var to := from + l.maxIterations;
    if forall k :: from <= k < to ==> !Exits(l, calls, k) {
      CountGrowsWithoutExit(l, calls, from, to);
      CountBelowLimit(l, calls[..from]);
      CountBelowLimit(l, calls[..to]);
      assert false;
    }
  }

  /** The next nodes that call `k` of a sequence of calls on one loop node returns. */
  ghost function Answer(l: LoopConfig, calls: seq<Option<Oracle>>, k: nat): seq<NodeId>
    requires k < |calls|
  {
    LoopChoice(l, CountAfter(l, 0, calls[..k]) + 1, calls[k]).next
  }

  /** From a cleared count, calls whose condition holds, or that have none to check, loop back. */
  lemma {:induction false} LoopsBack(l: LoopConfig, calls: seq<Option<Oracle>>, from: nat, k: nat)
    requires from + k <= |calls| && k < l.maxIterations && CountAfter(l, 0, calls[..from]) == 0
    requires forall i :: from <= i < from + k && l.condition.Some? ==> calls[i].Some? && calls[i].value(l.condition.value) == Met
    ensures CountAfter(l, 0, calls[..from + k]) == k
    ensures forall i :: from <= i < from + k ==> Answer(l, calls, i) == [l.loopBackTo]
  {
    if k > 0 {
      LoopsBack(l, calls, from, k - 1);
      assert calls[..from + k][..from + k - 1] == calls[..from + k - 1];
    }
  }

  /** What a sequence of calls answers, from any moment at which the count is cleared: it loops back as
      long as the condition holds, breaks at the first call for which it does not, fails to evaluate or
      has no output to look at, and times out at call number max_iterations at the latest. */
  lemma LoopMeaning(l: LoopConfig, calls: seq<Option<Oracle>>, from: nat, k: nat)
    requires from + k < |calls| && k < l.maxIterations && CountAfter(l, 0, calls[..from]) == 0
    requires forall i :: from <= i < from + k && l.condition.Some? ==> calls[i].Some? && calls[i].value(l.condition.value) == Met
    ensures forall i :: from <= i < from + k ==> Answer(l, calls, i) == [l.loopBackTo]
    ensures k == l.maxIterations - 1 ==>
      Answer(l, calls, from + k) == l.timeoutPath && CountAfter(l, 0, calls[..from + k + 1]) == 0
    ensures k < l.maxIterations - 1 && l.condition.Some? && (calls[from + k].None? || calls[from + k].value(l.condition.value) != Met) ==>
      Answer(l, calls, from + k) == l.breakPath && CountAfter(l, 0, calls[..from + k + 1]) == 0
    ensures k < l.maxIterations - 1 && (l.condition.None? || (calls[from + k].Some? && calls[from + k].value(l.condition.value) == Met)) ==>
      Answer(l, calls, from + k) == [l.loopBackTo] && CountAfter(l, 0, calls[..from + k + 1]) == k + 1
  {
    LoopsBack(l, calls, from, k);
    assert calls[..from + k + 1][..from + k] == calls[..from + k];
  }

  // ---- All outcomes of a node

  /** `next` is a possible result of DetermineNextNodes for some evaluation outcome. */
  ghost predicate CanRoute(n: Node, next: seq<NodeId>) {
    if n.LoopEnabled() then
      exists iteration, payload :: iteration > 0 && LoopChoice(n.loop.value, iteration, payload).next == next
    else if n.BranchEnabled() then
      exists payload :: BranchChoice(n.branch.value, payload) == next
    else next == n.dependents
  }

  ghost predicate CanEmit(n: Node) {
    exists next :: CanRoute(n, next) && next != []
  }

  /** A loop node that can never emit: it times out at once into nothing. */
  predicate DeadLoop(n: Node) {
    n.LoopEnabled() && n.loop.value.maxIterations <= 1 && n.loop.value.timeoutPath == []
  }

  lemma LoopCanEmitIff(n: Node)
    requires n.LoopEnabled()
    ensures CanEmit(n) <==> !DeadLoop(n)
  {
    var l := n.loop.value;
    if l.maxIterations > 1 {
      var always: Oracle := _ => Met;
      assert LoopChoice(l, 1, Some(always)).next == [l.loopBackTo];
      assert CanRoute(n, [l.loopBackTo]);
    } else if l.timeoutPath != [] {
      assert LoopChoice(l, 1, None).next == l.timeoutPath;
      assert CanRoute(n, l.timeoutPath);
    }
  }

  lemma BranchEmits(es: seq<Compiler.Edge>, n: Node, v: NodeId)
    requires !n.LoopEnabled() && n.BranchEnabled() && Compiler.BranchOf(es, n.branch.value)
    requires v in Compiler.RuleTargets(n.branch.value.rules) + n.branch.value.fallback
    ensures CanEmit(n)
  {
    var b := n.branch.value;
    if b.fallback != [] {
      assert BranchChoice(b, None) == b.fallback;
      assert CanRoute(n, b.fallback);
    } else {
      Compiler.RuleTargetsEmptyIff(b.rules);
      var r :| r in b.rules && r.nextNodes != [];
      var eval := RuleCanBeChosen(es, b, r);
      assert CanRoute(n, r.nextNodes);
    }
  }

  lemma RuleCanBeChosen(es: seq<Compiler.Edge>, b: BranchConfig, r: BranchRule) returns (eval: Oracle)
    requires Compiler.BranchOf(es, b) && r in b.rules
    ensures BranchChoice(b, Some(eval)) == r.nextNodes
  {
    eval := c => if Some(c) == r.condition then Met else NotMet;
    assert Compiler.RuleFor(es, r);
    var i := FirstMatchIsARule(b.rules, b.fallback, eval);
    var k :| 0 <= k < |b.rules| && b.rules[k] == r;
    assert b.rules[i].condition == r.condition;
    assert b.rules[i] == r by {
      assert b.rules[i] in b.rules;
      assert Compiler.RuleFor(es, b.rules[i]);
    }
  }

  lemma BranchCanEmitIff(es: seq<Compiler.Edge>, n: Node)
    requires !n.LoopEnabled() && n.BranchEnabled() && Compiler.BranchOf(es, n.branch.value)
    requires n.dependents == Compiler.RuleTargets(n.branch.value.rules) + n.branch.value.fallback
    ensures CanEmit(n) <==> n.dependents != []
    ensures n.dependents == [] ==> Compiler.NoSuccessors(n)
  {
    var b := n.branch.value;
    if n.dependents != [] {
      BranchEmits(es, n, n.dependents[0]);
    } else {
      assert Compiler.RuleTargets(b.rules) == [] && b.fallback == [];
      Compiler.RuleTargetsEmptyIff(b.rules);
      forall payload ensures BranchChoice(b, payload) == [] {
        if payload.Some? {
          var i := FirstMatchIsARule(b.rules, b.fallback, payload.value);
        }
      }
    }
  }

  lemma TerminalFlagOf(es: seq<Compiler.Edge>, n: Node)
    requires Compiler.Routable(es, n)
    ensures n.isTerminal <==> !CanEmit(n) && !DeadLoop(n)
  {
    if n.LoopEnabled() {
      LoopCanEmitIff(n);
    } else if n.BranchEnabled() {
      BranchCanEmitIff(es, n);
    } else {
      assert CanRoute(n, n.dependents);
    }
  }

  /** On a compiled IR the terminal flag is set exactly on the nodes that can never emit, except
      for dead loop nodes, which never emit and are still not flagged. */
  lemma TerminalFlagExact(schema: Compiler.Schema, ir: IR, id: NodeId)
    requires Compiler.Compiled(schema, ir) && id in ir
    ensures ir[id].isTerminal <==> !CanEmit(ir[id]) && !DeadLoop(ir[id])
  {
    Compiler.CompiledRoutable(schema, ir, id);
    TerminalFlagOf(Compiler.EdgesFrom(schema.edges, id), ir[id]);
  }
}
