/** Inline expansion of branch nodes (handleAbsorberNode in
    cmd/workflow-runner/coordinator/node_router.go) on a compiled loop-free workflow. */
module Absorbers {
  import opened WorkflowIR
  import opened Coordinator
  import Activations
  import Compiler
  import ControlFlow
  import Counter
  import CycleCheck
  import Reachability
  import Seqs

  type Choices = Activations.Choices

  type Ranking = NodeId -> nat

  /** Every chosen node exists and has a smaller rank than the node that chose it. */
  ghost predicate Falling(ir: IR, rank: Ranking, choose: Choices) {
    forall u, v :: u in ir && v in choose(u) ==> v in ir && rank(v) < rank(u)
  }

  ghost function RankIn(f: seq<NodeId>): Ranking {
    n => if n in f then CycleCheck.Rank(f, n) else 0
  }

  ghost predicate RankedEdges(ir: IR, rank: Ranking) {
    forall u, v :: u in ir && v in ir[u].dependents ==> v in ir && rank(v) < rank(u)
  }

  lemma TopologicalRanks(ir: IR, f: seq<NodeId>)
    requires Reachability.Topological(ir, f)
    ensures RankedEdges(ir, RankIn(f))
  {
  }

  lemma {:induction false} WalkFalls(ir: IR, rank: Ranking, p: seq<NodeId>)
    requires RankedEdges(ir, rank) && IsWalk(ir, p) && p != []
    ensures if |p| == 1 then p[0] == p[|p| - 1] else rank(p[|p| - 1]) < rank(p[0])
  {
    if |p| > 1 {
      var q := p[..|p| - 1];
      assert IsWalk(ir, q) by {
        forall i | 0 <= i < |q| - 1 ensures q[i + 1] in ir[q[i]].dependents {
          assert p[i + 1] in ir[p[i]].dependents;
        }
      }
      WalkFalls(ir, rank, q);
      var i := |p| - 2;
      assert p[i + 1] in ir[p[i]].dependents;
    }
  }

  lemma ChoiceFalls(ir: IR, rank: Ranking, u: NodeId, v: NodeId, next: seq<NodeId>)
    requires RankedEdges(ir, rank) && u in ir && v in next && multiset(next) <= multiset(ir[u].dependents)
    ensures v in ir && rank(v) < rank(u)
  {
    assert v in multiset(next) && v in multiset(ir[u].dependents);
    assert v in ir[u].dependents;
  }

  lemma GraphFalls(ir: IR, rank: Ranking, choose: Choices)
    requires RankedEdges(ir, rank) && forall u :: u in ir ==> multiset(choose(u)) <= multiset(ir[u].dependents)
    ensures Falling(ir, rank, choose)
  {
    forall u, v | u in ir && v in choose(u) ensures v in ir && rank(v) < rank(u) {
      ChoiceFalls(ir, rank, u, v, choose(u));
    }
  }

  /** On an accepted loop-free workflow every oracle makes the expansion fall in rank. */
  lemma OutcomesFall(schema: Compiler.Schema, ir: IR, choose: Choices) returns (rank: Ranking)
    requires Compiler.Compiled(schema, ir) && Compiler.Accepted(ir) && LoopFree(ir) && Activations.RoutesBy(ir, choose)
    ensures Falling(ir, rank, choose)
  {
    var f := Activations.CompiledGraph(schema, ir);
    rank := RankIn(f);
    TopologicalRanks(ir, f);
    forall u | u in ir ensures multiset(choose(u)) <= multiset(ir[u].dependents) {
      assert ControlFlow.CanRoute(ir[u], choose(u));
    }
    GraphFalls(ir, rank, choose);
  }

  ghost predicate Below(ir: IR, rank: Ranking, ns: seq<NodeId>, bound: nat) {
    forall m :: m in ns ==> m in ir && rank(m) < bound
  }

  lemma ChoicesBelow(ir: IR, rank: Ranking, choose: Choices, n: NodeId)
    requires Falling(ir, rank, choose) && n in ir
    ensures Below(ir, rank, choose(n), rank(n))
  {
  }

  lemma BelowInit(ir: IR, rank: Ranking, ns: seq<NodeId>, bound: nat)
    requires Below(ir, rank, ns, bound) && ns != []
    ensures Below(ir, rank, ns[..|ns| - 1], bound) && ns[|ns| - 1] in ir && rank(ns[|ns| - 1]) < bound
  {
    assert forall m :: m in ns[..|ns| - 1] ==> m in ns;
    assert ns[|ns| - 1] in ns;
  }

  // ---- What an absorber stands for

  /** The first non-absorber nodes reached from `n` under the chosen outcomes. */
  ghost function Expand(ir: IR, rank: Ranking, choose: Choices, n: NodeId): multiset<NodeId>
    requires Falling(ir, rank, choose) && n in ir
    decreases rank(n) + 1, 0
  {
    if !ir[n].IsAbsorber() then multiset{n}
    else
      ChoicesBelow(ir, rank, choose, n);
      ExpandAll(ir, rank, choose, choose(n), rank(n))
  }

  ghost function ExpandAll(ir: IR, rank: Ranking, choose: Choices, ns: seq<NodeId>, bound: nat): multiset<NodeId>
    requires Falling(ir, rank, choose) && Below(ir, rank, ns, bound)
    decreases bound, |ns| + 1
  {
    if ns == [] then multiset{}
    else
      BelowInit(ir, rank, ns, bound);
      ExpandAll(ir, rank, choose, ns[..|ns| - 1], bound) + Expand(ir, rank, choose, ns[|ns| - 1])
  }

  /** A walk that follows the outcomes through absorbers to a node that is none. */
  ghost predicate AbsorberWalk(ir: IR, choose: Choices, p: seq<NodeId>) {
    && p != [] && p[|p| - 1] in ir && !ir[p[|p| - 1]].IsAbsorber()
    && forall i :: 0 <= i < |p| - 1 ==> p[i] in ir && ir[p[i]].IsAbsorber() && p[i + 1] in choose(p[i])
  }

  lemma {:induction false} WalkIsExpanded(ir: IR, rank: Ranking, choose: Choices, p: seq<NodeId>)
    requires Falling(ir, rank, choose) && AbsorberWalk(ir, choose, p)
    ensures p[0] in ir && p[|p| - 1] in Expand(ir, rank, choose, p[0])
    decreases |p|
  {
    if |p| > 1 {
      var q := p[1..];
      assert p[0] in ir && p[0 + 1] in choose(p[0]);
      forall i | 0 <= i < |q| - 1 ensures q[i] in ir && ir[q[i]].IsAbsorber() && q[i + 1] in choose(q[i]) {
        assert p[i + 1 + 1] in choose(p[i + 1]);
      }
      WalkIsExpanded(ir, rank, choose, q);
      ChoicesBelow(ir, rank, choose, p[0]);
      MemberIsExpanded(ir, rank, choose, choose(p[0]), rank(p[0]), p[1], p[|p| - 1]);
    }
  }

  lemma {:induction false} MemberIsExpanded(ir: IR, rank: Ranking, choose: Choices, ns: seq<NodeId>, bound: nat, u: NodeId, m: NodeId)
    requires Falling(ir, rank, choose) && Below(ir, rank, ns, bound) && u in ns
    requires m in Expand(ir, rank, choose, u)
    ensures m in ExpandAll(ir, rank, choose, ns, bound)
    decreases |ns|
  {
    BelowInit(ir, rank, ns, bound);
    if u != ns[|ns| - 1] {
      assert u in ns[..|ns| - 1];
      MemberIsExpanded(ir, rank, choose, ns[..|ns| - 1], bound, u, m);
    }
  }

  lemma {:induction false} ExpandedIsWalk(ir: IR, rank: Ranking, choose: Choices, n: NodeId, m: NodeId) returns (p: seq<NodeId>)
    requires Falling(ir, rank, choose) && n in ir && m in Expand(ir, rank, choose, n)
    ensures AbsorberWalk(ir, choose, p) && p[0] == n && p[|p| - 1] == m
    decreases rank(n) + 1, 0
  {
    if !ir[n].IsAbsorber() {
      p := [n];
    } else {
      ChoicesBelow(ir, rank, choose, n);
      var u, q := SomeMember(ir, rank, choose, choose(n), rank(n), m);
      p := [n] + q;
      forall i | 0 <= i < |p| - 1 ensures p[i] in ir && ir[p[i]].IsAbsorber() && p[i + 1] in choose(p[i]) {
        if i > 0 {
          assert q[i - 1] in ir && q[i - 1 + 1] in choose(q[i - 1]);
        }
      }
    }
  }

  lemma {:induction false} SomeMember(ir: IR, rank: Ranking, choose: Choices, ns: seq<NodeId>, bound: nat, m: NodeId) returns (u: NodeId, q: seq<NodeId>)
    requires Falling(ir, rank, choose) && Below(ir, rank, ns, bound) && m in ExpandAll(ir, rank, choose, ns, bound)
    ensures u in ns && AbsorberWalk(ir, choose, q) && q[0] == u && q[|q| - 1] == m
    decreases bound, |ns| + 1
  {
    BelowInit(ir, rank, ns, bound);
    u := ns[|ns| - 1];
    if m in Expand(ir, rank, choose, u) {
      q := ExpandedIsWalk(ir, rank, choose, u, m);
    } else {
      u, q := SomeMember(ir, rank, choose, ns[..|ns| - 1], bound, m);
    }
  }

  /** A node is expanded to exactly when a walk through absorbers leads to it. */
  lemma ExpansionIff(ir: IR, rank: Ranking, choose: Choices, n: NodeId, m: NodeId)
    requires Falling(ir, rank, choose) && n in ir
    ensures m in Expand(ir, rank, choose, n) <==> exists p :: AbsorberWalk(ir, choose, p) && p[0] == n && p[|p| - 1] == m
  {
    if m in Expand(ir, rank, choose, n) {
      var p := ExpandedIsWalk(ir, rank, choose, n, m);
    } else {
      forall p | AbsorberWalk(ir, choose, p) && p[0] == n && p[|p| - 1] == m ensures false {
        WalkIsExpanded(ir, rank, choose, p);
      }
    }
  }

  // ---- How often: one token per walk

  /** Where the positions `q` lead from `n`: each picks one of the next nodes of an absorber. */
  ghost predicate Leads(ir: IR, choose: Choices, n: NodeId, q: seq<nat>, m: NodeId)
    decreases |q|
  {
    if q == [] then n == m && n in ir && !ir[n].IsAbsorber()
    else n in ir && ir[n].IsAbsorber() && q[0] < |choose(n)| && Leads(ir, choose, choose(n)[q[0]], q[1..], m)
  }

  /** The walks from `n` to `m`, one for each position they take. */
  ghost function Walks(ir: IR, rank: Ranking, choose: Choices, n: NodeId, m: NodeId): set<seq<nat>>
    requires Falling(ir, rank, choose) && n in ir
    decreases rank(n) + 1, 0
  {
    if !ir[n].IsAbsorber() then if n == m then {[]} else {}
    else
      ChoicesBelow(ir, rank, choose, n);
      WalksVia(ir, rank, choose, choose(n), rank(n), m)
  }

  ghost function WalksVia(ir: IR, rank: Ranking, choose: Choices, ns: seq<NodeId>, bound: nat, m: NodeId): set<seq<nat>>
    requires Falling(ir, rank, choose) && Below(ir, rank, ns, bound)
    decreases bound, |ns| + 1
  {
    if ns == [] then {}
    else
      BelowInit(ir, rank, ns, bound);
      WalksVia(ir, rank, choose, ns[..|ns| - 1], bound, m) + Prefixed(|ns| - 1, Walks(ir, rank, choose, ns[|ns| - 1], m))
  }

  ghost function Prefixed(i: nat, qs: set<seq<nat>>): set<seq<nat>> {
    set q | q in qs :: [i] + q
  }

  lemma {:induction false} PrefixedSize(i: nat, qs: set<seq<nat>>)
    ensures |Prefixed(i, qs)| == |qs|
  {
    if qs != {} {
      var q :| q in qs;
      PrefixedSize(i, qs - {q});
      assert forall x, y: seq<nat> :: [i] + x == [i] + y ==> x == y by {
        forall x, y: seq<nat> | [i] + x == [i] + y ensures x == y {
          assert ([i] + x)[1..] == x && ([i] + y)[1..] == y;
        }
      }
      assert Prefixed(i, qs) == Prefixed(i, qs - {q}) + {[i] + q};
      assert [i] + q !in Prefixed(i, qs - {q});
    }
  }

  /** The set holds exactly the walks. */
  lemma {:induction false} WalksAreWalks(ir: IR, rank: Ranking, choose: Choices, n: NodeId, m: NodeId, q: seq<nat>)
    requires Falling(ir, rank, choose) && n in ir
    ensures q in Walks(ir, rank, choose, n, m) <==> Leads(ir, choose, n, q, m)
    decreases rank(n) + 1, 0
  {
    if ir[n].IsAbsorber() {
      ChoicesBelow(ir, rank, choose, n);
      WalksViaAreWalks(ir, rank, choose, choose(n), rank(n), m, q);
    }
  }

  lemma {:induction false} WalksViaAreWalks(ir: IR, rank: Ranking, choose: Choices, ns: seq<NodeId>, bound: nat, m: NodeId, q: seq<nat>)
    requires Falling(ir, rank, choose) && Below(ir, rank, ns, bound)
    ensures q in WalksVia(ir, rank, choose, ns, bound, m) <==> q != [] && q[0] < |ns| && Leads(ir, choose, ns[q[0]], q[1..], m)
    decreases bound, |ns| + 1
  {
    if ns != [] {
      BelowInit(ir, rank, ns, bound);
      var i := |ns| - 1;
      WalksViaAreWalks(ir, rank, choose, ns[..i], bound, m, q);
      if q != [] && q[0] == i {
        WalksAreWalks(ir, rank, choose, ns[i], m, q[1..]);
        assert q == [i] + q[1..];
      }
      assert q in Prefixed(i, Walks(ir, rank, choose, ns[i], m)) ==> q != [] && q[0] == i && q[1..] in Walks(ir, rank, choose, ns[i], m) by {
        if q in Prefixed(i, Walks(ir, rank, choose, ns[i], m)) {
          var x :| x in Walks(ir, rank, choose, ns[i], m) && q == [i] + x;
          assert q[1..] == x;
        }
      }
    }
  }

  /** A node gets exactly one token for every walk through absorbers that leads to it. */
  lemma {:induction false} OneTokenPerWalk(ir: IR, rank: Ranking, choose: Choices, n: NodeId, m: NodeId)
    requires Falling(ir, rank, choose) && n in ir
    ensures Expand(ir, rank, choose, n)[m] == |Walks(ir, rank, choose, n, m)|
    decreases rank(n) + 1, 0
  {
    if ir[n].IsAbsorber() {
      ChoicesBelow(ir, rank, choose, n);
      OneTokenPerWalkVia(ir, rank, choose, choose(n), rank(n), m);
    }
  }

  lemma {:induction false} OneTokenPerWalkVia(ir: IR, rank: Ranking, choose: Choices, ns: seq<NodeId>, bound: nat, m: NodeId)
    requires Falling(ir, rank, choose) && Below(ir, rank, ns, bound)
    ensures ExpandAll(ir, rank, choose, ns, bound)[m] == |WalksVia(ir, rank, choose, ns, bound, m)|
    decreases bound, |ns| + 1
  {
    if ns != [] {
      BelowInit(ir, rank, ns, bound);
      var i := |ns| - 1;
      OneTokenPerWalkVia(ir, rank, choose, ns[..i], bound, m);
      OneTokenPerWalk(ir, rank, choose, ns[i], m);
      var before, last := WalksVia(ir, rank, choose, ns[..i], bound, m), Prefixed(i, Walks(ir, rank, choose, ns[i], m));
      PrefixedSize(i, Walks(ir, rank, choose, ns[i], m));
      assert before !! last by {
        forall q | q in before ensures q !in last {
          WalksViaAreWalks(ir, rank, choose, ns[..i], bound, m, q);
        }
      }
    }
  }

  // ---- What an absorber adds to the counter

  /** Each absorber adds the number of its next nodes, absorbers included. */
  ghost function Emitted(ir: IR, rank: Ranking, choose: Choices, n: NodeId): nat
    requires Falling(ir, rank, choose) && n in ir
    decreases rank(n) + 1, 0
  {
    if !ir[n].IsAbsorber() then 0
    else
      ChoicesBelow(ir, rank, choose, n);
      |choose(n)| + EmittedAll(ir, rank, choose, choose(n), rank(n))
  }

  ghost function EmittedAll(ir: IR, rank: Ranking, choose: Choices, ns: seq<NodeId>, bound: nat): nat
    requires Falling(ir, rank, choose) && Below(ir, rank, ns, bound)
    decreases bound, |ns| + 1
  {
    if ns == [] then 0
    else
      BelowInit(ir, rank, ns, bound);
      EmittedAll(ir, rank, choose, ns[..|ns| - 1], bound) + Emitted(ir, rank, choose, ns[|ns| - 1])
  }

  function Absorbing(ir: IR, ns: seq<NodeId>): nat {
    if ns == [] then 0
    else Absorbing(ir, ns[..|ns| - 1]) + if ns[|ns| - 1] in ir && ir[ns[|ns| - 1]].IsAbsorber() then 1 else 0
  }

  lemma {:induction false} NoneAbsorbing(ir: IR, ns: seq<NodeId>)
    ensures Absorbing(ir, ns) == 0 <==> forall m :: m in ns ==> !(m in ir && ir[m].IsAbsorber())
  {
    if ns != [] {
      NoneAbsorbing(ir, ns[..|ns| - 1]);
      assert ns == ns[..|ns| - 1] + [ns[|ns| - 1]];
    }
  }

  /** Absorber activations strictly below `n`. */
  ghost function Nested(ir: IR, rank: Ranking, choose: Choices, n: NodeId): nat
    requires Falling(ir, rank, choose) && n in ir
    decreases rank(n) + 1, 0
  {
    if !ir[n].IsAbsorber() then 0
    else
      ChoicesBelow(ir, rank, choose, n);
      Absorbing(ir, choose(n)) + NestedAll(ir, rank, choose, choose(n), rank(n))
  }

  ghost function NestedAll(ir: IR, rank: Ranking, choose: Choices, ns: seq<NodeId>, bound: nat): nat
    requires Falling(ir, rank, choose) && Below(ir, rank, ns, bound)
    decreases bound, |ns| + 1
  {
    if ns == [] then 0
    else
      BelowInit(ir, rank, ns, bound);
      NestedAll(ir, rank, choose, ns[..|ns| - 1], bound) + Nested(ir, rank, choose, ns[|ns| - 1])
  }

  /** The counter rises by the number of tokens plus one for every nested absorber. */
  lemma {:induction false} EmittedExceedsTokens(ir: IR, rank: Ranking, choose: Choices, n: NodeId)
    requires Falling(ir, rank, choose) && n in ir && ir[n].IsAbsorber()
    ensures Emitted(ir, rank, choose, n) == |Expand(ir, rank, choose, n)| + Nested(ir, rank, choose, n)
    decreases rank(n) + 1, 0
  {
    ChoicesBelow(ir, rank, choose, n);
    EmittedAllExceeds(ir, rank, choose, choose(n), rank(n));
  }

  lemma {:induction false} EmittedAllExceeds(ir: IR, rank: Ranking, choose: Choices, ns: seq<NodeId>, bound: nat)
    requires Falling(ir, rank, choose) && Below(ir, rank, ns, bound)
    ensures |ns| + EmittedAll(ir, rank, choose, ns, bound)
      == |ExpandAll(ir, rank, choose, ns, bound)| + Absorbing(ir, ns) + NestedAll(ir, rank, choose, ns, bound)
    decreases bound, |ns| + 1
  {
    if ns != [] {
      BelowInit(ir, rank, ns, bound);
      EmittedAllExceeds(ir, rank, choose, ns[..|ns| - 1], bound);
      var last := ns[|ns| - 1];
      if ir[last].IsAbsorber() {
        EmittedExceedsTokens(ir, rank, choose, last);
      }
    }
  }

  lemma {:induction false} NoneNested(ir: IR, rank: Ranking, choose: Choices, ns: seq<NodeId>, bound: nat)
    requires Falling(ir, rank, choose) && Below(ir, rank, ns, bound) && forall m :: m in ns ==> !ir[m].IsAbsorber()
    ensures NestedAll(ir, rank, choose, ns, bound) == 0
    decreases |ns|
  {
    if ns != [] {
      BelowInit(ir, rank, ns, bound);
      assert ns[|ns| - 1] in ns;
      NoneNested(ir, rank, choose, ns[..|ns| - 1], bound);
    }
  }

  /** The emissions of an absorber match its tokens exactly when it chose no other absorber. */
  lemma EmittedExactIff(ir: IR, rank: Ranking, choose: Choices, n: NodeId)
    requires Falling(ir, rank, choose) && n in ir && ir[n].IsAbsorber()
    ensures Emitted(ir, rank, choose, n) == |Expand(ir, rank, choose, n)| <==> forall m :: m in choose(n) ==> !ir[m].IsAbsorber()
  {
    EmittedExceedsTokens(ir, rank, choose, n);
    ChoicesBelow(ir, rank, choose, n);
    NoneAbsorbing(ir, choose(n));
    if forall m :: m in choose(n) ==> !ir[m].IsAbsorber() {
      NoneNested(ir, rank, choose, choose(n), rank(n));
    }
  }

  // ---- The handler

  /** The worker streams, the nodes completed at once for lack of a worker, and the counter. */
  class Streams {
    const sdk: Counter.Sdk
    var published: seq<NodeId>
    var skipped: seq<NodeId>
    var emits: nat

    constructor (sdk: Counter.Sdk)
      ensures this.sdk == sdk && published == [] && skipped == [] && emits == 0
    {
      this.sdk, published, skipped, emits := sdk, [], [], 0;
    }

    ghost predicate FreshKeys()
      reads this, sdk
    {
      forall k :: k in sdk.applied && k.Emit? ==> k.id < emits
    }

    ghost function Reached(): multiset<NodeId>
      reads this
    {
      multiset(published) + multiset(skipped)
    }

    /** Exactly the nodes with a worker were published. */
    ghost predicate Sorted(ir: IR)
      reads this
    {
      && (forall m :: m in published ==> m in ir && HasWorker(ir[m]))
      && (forall m :: m in skipped ==> m in ir && !HasWorker(ir[m]))
    }

    /** One absorber with the goroutines it starts, run to completion. It terminates because the
        rank falls, reaches exactly the expansion, and adds exactly its emissions. */
    method HandleAbsorberNode(ir: IR, ghost rank: Ranking, choose: Choices, n: NodeId)
      requires Falling(ir, rank, choose) && n in ir && ir[n].IsAbsorber() && FreshKeys()
      modifies this, sdk
      ensures FreshKeys()
      ensures Reached() == old(Reached()) + Expand(ir, rank, choose, n)
      ensures old(Sorted(ir)) ==> Sorted(ir)
      ensures sdk.State().value == old(sdk.State().value) + Emitted(ir, rank, choose, n)
      decreases rank(n) + 1, 0
    {
      var next := choose(n);
      ChoicesBelow(ir, rank, choose, n);
      HandleNextNodes(ir, rank, choose, next, rank(n));
      sdk.EmitTokens(n, next, emits);
      emits := emits + 1;
    }

    method HandleNextNodes(ir: IR, ghost rank: Ranking, choose: Choices, next: seq<NodeId>, ghost bound: nat)
      requires Falling(ir, rank, choose) && Below(ir, rank, next, bound) && FreshKeys()
      modifies this, sdk
      ensures FreshKeys()
      ensures Reached() == old(Reached()) + ExpandAll(ir, rank, choose, next, bound)
      ensures old(Sorted(ir)) ==> Sorted(ir)
      ensures sdk.State().value == old(sdk.State().value) + EmittedAll(ir, rank, choose, next, bound)
      decreases bound, |next| + 2
    {
      for i := 0 to |next|
        invariant FreshKeys() && Below(ir, rank, next[..i], bound) && (old(Sorted(ir)) ==> Sorted(ir))
        invariant Reached() == old(Reached()) + ExpandAll(ir, rank, choose, next[..i], bound)
        invariant sdk.State().value == old(sdk.State().value) + EmittedAll(ir, rank, choose, next[..i], bound)
      {
        AllSnoc(ir, rank, choose, next, bound, i);
        HandleNextNode(ir, rank, choose, next[i]);
      }
      Seqs.Whole(next);
    }

    /** Absorbers recurse, nodes with a worker get a token, the others complete at once. */
    method HandleNextNode(ir: IR, ghost rank: Ranking, choose: Choices, m: NodeId)
      requires Falling(ir, rank, choose) && m in ir && FreshKeys()
      modifies this, sdk
      ensures FreshKeys()
      ensures Reached() == old(Reached()) + Expand(ir, rank, choose, m)
      ensures old(Sorted(ir)) ==> Sorted(ir)
      ensures sdk.State().value == old(sdk.State().value) + Emitted(ir, rank, choose, m)
      decreases rank(m) + 1, 1
    {
      if ir[m].IsAbsorber() {
        HandleAbsorberNode(ir, rank, choose, m);
      } else if HasWorker(ir[m]) {
        published := published + [m];
      } else {
        skipped := skipped + [m];
      }
    }
  }

  lemma AllSnoc(ir: IR, rank: Ranking, choose: Choices, ns: seq<NodeId>, bound: nat, i: nat)
    requires Falling(ir, rank, choose) && Below(ir, rank, ns, bound) && i < |ns|
    ensures Below(ir, rank, ns[..i], bound) && Below(ir, rank, ns[..i + 1], bound) && ns[i] in ir && rank(ns[i]) < bound
    ensures ExpandAll(ir, rank, choose, ns[..i + 1], bound)
      == ExpandAll(ir, rank, choose, ns[..i], bound) + Expand(ir, rank, choose, ns[i])
    ensures EmittedAll(ir, rank, choose, ns[..i + 1], bound)
      == EmittedAll(ir, rank, choose, ns[..i], bound) + Emitted(ir, rank, choose, ns[i])
  {
    assert ns[..i + 1][..i] == ns[..i] && ns[i] in ns;
  }
}
