/** Every node of an accepted loop-free workflow lies on a path from an entry node to a terminal
    node (common/compiler/ir.go, validation and GetEntryNodes). */
module Reachability {
  import opened WorkflowIR
  import opened Compiler
  import CycleCheck

  /** A ranking that strictly decreases along every dependent edge. */
  ghost predicate Topological(ir: IR, f: seq<NodeId>) {
    && IsOrder(f, ir.Keys) && Closed(ir)
    && forall u, v :: u in ir && v in ir[u].dependents ==> CycleCheck.Rank(f, v) < CycleCheck.Rank(f, u)
  }

  lemma LoopFreeIsTopological(ir: IR) returns (f: seq<NodeId>)
    requires Accepted(ir) && LoopFree(ir)
    ensures Topological(ir, f)
  {
    var order :| IsOrder(order, ir.Keys) && CycleCheck.Accepts(ir, order);
    f := CycleCheck.AcceptanceRanks(ir, order);
  }

  lemma TerminalIffNoDependents(schema: Schema, ir: IR, n: NodeId)
    requires Compiled(schema, ir) && LoopFree(ir) && n in ir
    ensures ir[n].isTerminal <==> ir[n].dependents == []
  {
    CompiledRoutable(schema, ir, n);
    if ir[n].branch.Some? {
      RuleTargetsEmptyIff(ir[n].branch.value.rules);
    }
  }

  ghost predicate TerminalsFlagged(ir: IR) {
    forall n :: n in ir ==> (ir[n].isTerminal <==> ir[n].dependents == [])
  }

  lemma CompiledFlagsTerminals(schema: Schema, ir: IR)
    requires Compiled(schema, ir) && LoopFree(ir)
    ensures TerminalsFlagged(ir)
  {
    forall n | n in ir ensures ir[n].isTerminal <==> ir[n].dependents == [] {
      TerminalIffNoDependents(schema, ir, n);
    }
  }

  lemma {:induction false} ReachesTerminal(ir: IR, f: seq<NodeId>, n: NodeId) returns (p: seq<NodeId>)
    requires TerminalsFlagged(ir) && Topological(ir, f) && n in ir
    ensures p != [] && IsWalk(ir, p) && p[0] == n && ir[p[|p| - 1]].isTerminal
    decreases CycleCheck.Rank(f, n)
  {
    if ir[n].dependents == [] {
      p := [n];
    } else {
      var q := ReachesTerminal(ir, f, ir[n].dependents[0]);
      WalkPrepends(ir, n, q);
      p := [n] + q;
    }
  }

  lemma {:induction false} ReachedFromEntry(ir: IR, f: seq<NodeId>, n: NodeId) returns (p: seq<NodeId>)
    requires Wired(ir) && Topological(ir, f) && n in ir
    ensures p != [] && IsWalk(ir, p) && ir[p[0]].dependencies == [] && p[|p| - 1] == n
    decreases |f| - CycleCheck.Rank(f, n)
  {
    if ir[n].dependencies == [] {
      p := [n];
    } else {
      var u := ir[n].dependencies[0];
      var q := ReachedFromEntry(ir, f, u);
      WalkExtends(ir, q, n);
      p := q + [n];
    }
  }

  /** Every node lies on a walk that starts at an entry node and ends at a terminal node. */
  lemma OnEntryToTerminalWalk(schema: Schema, ir: IR, n: NodeId) returns (before: seq<NodeId>, after: seq<NodeId>)
    requires Compiled(schema, ir) && Accepted(ir) && LoopFree(ir) && n in ir
    ensures before != [] && IsWalk(ir, before) && ir[before[0]].dependencies == [] && before[|before| - 1] == n
    ensures after != [] && IsWalk(ir, after) && after[0] == n && ir[after[|after| - 1]].isTerminal
  {
    CompiledIsWired(schema, ir);
    CompiledFlagsTerminals(schema, ir);
    var f := LoopFreeIsTopological(ir);
    before := ReachedFromEntry(ir, f, n);
    after := ReachesTerminal(ir, f, n);
  }
}
