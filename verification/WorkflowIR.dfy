/** The intermediate representation executed by the workflow runner (common/sdk/types.go). */
module WorkflowIR {
  import opened Wrappers

  type NodeId = string

  datatype Condition = Condition(kind: string, expression: string)

  datatype LoopConfig = LoopConfig(
    enabled: bool,
    condition: Option<Condition>,
    maxIterations: int,
    loopBackTo: NodeId,
    breakPath: seq<NodeId>,
    timeoutPath: seq<NodeId>)

  datatype BranchRule = BranchRule(condition: Option<Condition>, nextNodes: seq<NodeId>)

  datatype BranchConfig = BranchConfig(
    enabled: bool,
    kind: string,
    rules: seq<BranchRule>,
    fallback: seq<NodeId>)

  datatype Node = Node(
    id: NodeId,
    kind: string,
    dependencies: seq<NodeId>,
    dependents: seq<NodeId>,
    waitForAll: bool,
    isTerminal: bool,
    loop: Option<LoopConfig>,
    branch: Option<BranchConfig>)
  {
    predicate LoopEnabled() {
      loop.Some? && loop.value.enabled
    }

    predicate BranchEnabled() {
      branch.Some? && branch.value.enabled
    }

    predicate IsExecutableType() {
      kind in {"hitl", "http", "agent", "function", "transform", "aggregate", "filter"}
    }

    /** Absorbers are evaluated inline by the coordinator and never reach a worker stream. */
    predicate IsAbsorber() {
      (BranchEnabled() || LoopEnabled()) && !IsExecutableType()
    }
  }

  type IR = map<NodeId, Node>

  /** Every static successor is a node of the graph. */
  ghost predicate Closed(ir: IR) {
    forall n, d :: n in ir && d in ir[n].dependents ==> d in ir
  }

  ghost predicate LoopFree(ir: IR) {
    forall n :: n in ir ==> !ir[n].LoopEnabled()
  }

  /** One of the orders in which a Go `range` over a map may visit its keys. */
  ghost predicate IsOrder(order: seq<NodeId>, keys: set<NodeId>) {
    && (forall n :: n in order <==> n in keys)
    && (forall i, j :: 0 <= i < j < |order| ==> order[i] != order[j])
  }

  method AnyOrder(keys: set<NodeId>) returns (order: seq<NodeId>)
    ensures IsOrder(order, keys)
  {
    order := [];
    var left := keys;
    while left != {}
      invariant left <= keys
      invariant IsOrder(order, keys - left)
      decreases left
    {
      var n :| n in left;
      order, left := order + [n], left - {n};
    }
  }

  lemma OrderExists(keys: set<NodeId>) returns (order: seq<NodeId>)
    ensures IsOrder(order, keys)
  {
    if keys == {} {
      order := [];
    } else {
      var n :| n in keys;
      var rest := OrderExists(keys - {n});
      order := rest + [n];
    }
  }

  // ---- Walks along dependents

  ghost predicate IsWalk(ir: IR, p: seq<NodeId>) {
    && (forall i :: 0 <= i < |p| ==> p[i] in ir)
    && (forall i :: 0 <= i < |p| - 1 ==> p[i + 1] in ir[p[i]].dependents)
  }

  /** A closed walk: the last node leads back to the first. */
  ghost predicate IsCycle(ir: IR, c: seq<NodeId>) {
    c != [] && IsWalk(ir, c) && c[0] in ir[c[|c| - 1]].dependents
  }

  lemma WalkExtends(ir: IR, p: seq<NodeId>, n: NodeId)
    requires IsWalk(ir, p) && n in ir
    requires p != [] ==> n in ir[p[|p| - 1]].dependents
    ensures IsWalk(ir, p + [n])
  {
    var q := p + [n];
    forall i | 0 <= i < |q| - 1 ensures q[i + 1] in ir[q[i]].dependents {
      if i < |p| - 1 {
        assert p[i + 1] in ir[p[i]].dependents;
      }
    }
  }

  lemma WalkPrepends(ir: IR, n: NodeId, p: seq<NodeId>)
    requires IsWalk(ir, p) && n in ir
    requires p != [] ==> p[0] in ir[n].dependents
    ensures IsWalk(ir, [n] + p)
  {
    var q := [n] + p;
    forall i | 0 <= i < |q| - 1 ensures q[i + 1] in ir[q[i]].dependents {
      if i > 0 {
        assert p[i - 1 + 1] in ir[p[i - 1]].dependents;
      }
    }
  }
}
