/** When a token can still be published after COMPLETED was recorded. On branch-free, loop-free forests
    it depends on the graph alone: it happens exactly when some non-terminal node does not lead to
    some terminal node. */
module LateTokens {
  import opened WorkflowIR
  import opened Coordinator
  import opened Activations
  import opened Completion
  import opened Schedules
  import opened CompletionExact
  import Compiler
  import Absorbers
  import Reachability
  import Seqs

  ghost predicate Reaches(ir: IR, a: NodeId, b: NodeId) {
    exists p :: IsWalk(ir, p) && p != [] && p[0] == a && p[|p| - 1] == b
  }

  /** Some non-terminal node does not lead to some terminal node. */
  ghost predicate Apart(ir: IR) {
    exists u, t :: u in ir && t in ir && !ir[u].isTerminal && ir[t].isTerminal && !Reaches(ir, u, t)
  }

  // ---- Forests

  lemma UniqueParent(ir: IR, f: seq<NodeId>, x: NodeId, y: NodeId, v: NodeId)
    requires Graph(ir, f) && Forest(ir) && x in ir && y in ir && v in ir[x].dependents && v in ir[y].dependents
    ensures x == y && multiset(ir[x].dependents)[v] == 1
  {
    assert v in multiset(ir[x].dependents) && v in multiset(ir[y].dependents);
    assert v in ir;
    var deps := ir[v].dependencies;
    assert x in multiset(deps) && y in multiset(deps);
    assert x in deps && y in deps;
    assert deps == [deps[0]];
  }

  ghost predicate OneParent(ir: IR) {
    forall x, y, v :: x in ir && y in ir && v in ir[x].dependents && v in ir[y].dependents ==> x == y
  }

  lemma ForestHasOneParent(ir: IR, f: seq<NodeId>)
    requires Graph(ir, f) && Forest(ir)
    ensures OneParent(ir)
  {
    forall x, y, v | x in ir && y in ir && v in ir[x].dependents && v in ir[y].dependents ensures x == y {
      UniqueParent(ir, f, x, y, v);
    }
  }

  lemma WalkInit(ir: IR, p: seq<NodeId>)
    requires IsWalk(ir, p) && |p| >= 2
    ensures IsWalk(ir, p[..|p| - 1]) && p[|p| - 1] in ir[p[|p| - 2]].dependents && p[|p| - 2] in ir
  {
    var q, i := p[..|p| - 1], |p| - 2;
    assert p[i + 1] in ir[p[i]].dependents;
    forall i | 0 <= i < |q| - 1 ensures q[i + 1] in ir[q[i]].dependents {
      assert p[i + 1] in ir[p[i]].dependents;
    }
  }

  /** The nodes that lead to one node lead to each other. */
  lemma {:induction false} ChainOfAncestors(ir: IR, p: seq<NodeId>, q: seq<NodeId>)
    requires OneParent(ir) && IsWalk(ir, p) && IsWalk(ir, q) && p != [] && q != [] && p[|p| - 1] == q[|q| - 1]
    ensures Reaches(ir, p[0], q[0]) || Reaches(ir, q[0], p[0])
    decreases |p|
  {
    if |p| == 1 {
      assert Reaches(ir, q[0], p[0]);
    } else if |q| == 1 {
      assert Reaches(ir, p[0], q[0]);
    } else {
      WalkInit(ir, p);
      WalkInit(ir, q);
      assert p[|p| - 2] == q[|q| - 2];
      ChainOfAncestors(ir, p[..|p| - 1], q[..|q| - 1]);
    }
  }

  lemma WalkEndsThroughParent(ir: IR, rank: Absorbers.Ranking, u: NodeId, p: seq<NodeId>)
    requires Absorbers.RankedEdges(ir, rank) && OneParent(ir) && IsWalk(ir, p) && |p| >= 2 && u in ir && p[|p| - 1] in ir[u].dependents
    ensures rank(u) <= rank(p[0])
  {
    WalkInit(ir, p);
    assert p[|p| - 2] == u;
    Absorbers.WalkFalls(ir, rank, p[..|p| - 1]);
  }

  lemma SiblingsApart(ir: IR, f: seq<NodeId>, u: NodeId, c: NodeId, d: NodeId)
    requires Graph(ir, f) && Forest(ir) && u in ir && c in ir[u].dependents && d in ir[u].dependents && c != d
    ensures !Reaches(ir, c, d)
  {
    ForestHasOneParent(ir, f);
    Absorbers.TopologicalRanks(ir, f);
    forall p | IsWalk(ir, p) && |p| >= 2 && p[|p| - 1] == d ensures p[0] != c {
      WalkEndsThroughParent(ir, Absorbers.RankIn(f), u, p);
    }
  }

  lemma ReachesItself(ir: IR, m: NodeId)
    requires m in ir
    ensures Reaches(ir, m, m)
  {
    var p := [m];
    assert IsWalk(ir, p) && p[0] == m;
  }

  lemma ReachesOn(ir: IR, a: NodeId, b: NodeId, c: NodeId)
    requires Reaches(ir, a, b) && c in ir && c in ir[b].dependents
    ensures Reaches(ir, a, c)
  {
    var p :| IsWalk(ir, p) && p != [] && p[0] == a && p[|p| - 1] == b;
    WalkExtends(ir, p, c);
    var q := p + [c];
    assert q[0] == a && q[|q| - 1] == c;
  }

  // ---- If some pair is apart, a token can be late

  ghost predicate Below(ir: IR, u: NodeId, m: NodeId)
    requires u in ir
  {
    exists d :: d in ir[u].dependents && Reaches(ir, d, m)
  }

  ghost function NotBelow(ir: IR, u: NodeId): set<NodeId>
    requires u in ir
  {
    set m | m in ir && !Below(ir, u, m)
  }

  lemma BelowMeansReached(ir: IR, u: NodeId, m: NodeId)
    requires u in ir && Below(ir, u, m)
    ensures Reaches(ir, u, m)
  {
    var d :| d in ir[u].dependents && Reaches(ir, d, m);
    var p :| IsWalk(ir, p) && p != [] && p[0] == d && p[|p| - 1] == m;
    WalkPrepends(ir, u, p);
    var q := [u] + p;
    assert q[0] == u && q[|q| - 1] == m;
  }

  lemma NotBelowItself(ir: IR, f: seq<NodeId>, u: NodeId)
    requires Reachability.Topological(ir, f) && u in ir
    ensures u in NotBelow(ir, u)
  {
    Absorbers.TopologicalRanks(ir, f);
    if Below(ir, u, u) {
      var d :| d in ir[u].dependents && Reaches(ir, d, u);
      var p :| IsWalk(ir, p) && p != [] && p[0] == d && p[|p| - 1] == u;
      Absorbers.WalkFalls(ir, Absorbers.RankIn(f), p);
    }
  }

  lemma NotBelowClosed(ir: IR, u: NodeId, m: NodeId, d: NodeId)
    requires u in ir && m in NotBelow(ir, u) && d in ir && m in ir[d].dependents
    ensures d in NotBelow(ir, u) && d != u
  {
    ReachesItself(ir, m);
    if Below(ir, u, d) {
      var c :| c in ir[u].dependents && Reaches(ir, c, d);
      ReachesOn(ir, c, d, m);
    }
  }

  lemma NotBelowIsUpward(ir: IR, u: NodeId, s: Run)
    requires Compiler.Wired(ir) && u in ir && forall p :: p in s.procs ==> Legal(ir, p) && Settled(ir, HoldRoute(u), p)
    ensures Upward(ir, s, NotBelow(ir, u))
  {
    forall m, d | m in NotBelow(ir, u) && d in ir[m].dependencies
      ensures d in NotBelow(ir, u) && d != u
    {
      NotBelowClosed(ir, u, m, d);
    }
  }

  /** A step that publishes a token. */
  ghost predicate Publishes(s: Run, e: Event) {
    && e.Route? && e.i < |s.procs| && s.procs[e.i].pos < |s.procs[e.i].next|
    && s.procs[e.i].next[s.procs[e.i].pos] in s.procs[e.i].ir
  }

  ghost predicate LateToken(ss: seq<Run>, es: seq<Event>, k: nat, j: nat) {
    && k < j < |es| < |ss|
    && Enabled(ss[k], es[k]) && Records(ss[k], es[k]) && Publishes(ss[j], es[j])
  }

  lemma HeldRouteCounter(ir: IR, f: seq<NodeId>, u: NodeId, entries: seq<NodeId>, ss: seq<Run>, es: seq<Event>)
    requires Graph(ir, f) && BranchFree(ir) && Forest(ir) && SettledRun(ir, HoldRoute(u), entries, ss, es)
    ensures ss[|es|].counter.value == 0
  {
    var s := ss[|es|];
    SettledFacts(ir, f, HoldRoute(u), entries, ss, es);
    forall p | p in s.procs ensures Debt(p) == 0 {
      SettledDebt(ir, HoldRoute(u), p);
    }
    SumAllZero(s.procs, Debt);
  }

  /** The state in which `i` is about to check a terminal node and `j` about to route. */
  ghost predicate Poised(ir: IR, s: Run, i: nat, j: nat) {
    && i < |s.procs| && j < |s.procs| && s.counter.value == 0 && s.ir == ir
    && CanRecord(ir, s.procs[i]) && s.procs[j].phase == Consumed && !s.procs[j].absorber && s.procs[j].node in ir
    && !ir[s.procs[j].node].LoopEnabled() && !ir[s.procs[j].node].BranchEnabled()
    && ir[s.procs[j].node].dependents != [] && ir[s.procs[j].node].dependents[0] in ir
  }

  lemma PoisedSteps(ir: IR, s: Run, i: nat, j: nat, next: seq<NodeId>)
    requires Poised(ir, s, i, j) && next == ir[s.procs[j].node].dependents
    ensures Enabled(s, Check(i)) && Records(s, Check(i))
    ensures var t := Step(s, Check(i));
      && Enabled(t, Determine(j, next))
      && var v := Step(t, Determine(j, next)); Enabled(v, Route(j)) && Publishes(v, Route(j))
  {
  }

  lemma AddStep(ir: IR, entries: seq<NodeId>, ss: seq<Run>, es: seq<Event>, e: Event, t: Run)
    requires QuietRun(ir, entries, ss, es) && !e.Patch? && !e.Redeliver? && Enabled(ss[|es|], e) && t == Step(ss[|es|], e)
    ensures QuietRun(ir, entries, ss + [t], es + [e])
  {
    ExtendRun(ir, entries, Anything(), ss, es, |es|, e);
  }

  lemma PoisedIsLate(ir: IR, entries: seq<NodeId>, ss: seq<Run>, es: seq<Event>, i: nat, j: nat)
    returns (ss': seq<Run>, es': seq<Event>)
    requires QuietRun(ir, entries, ss, es) && Poised(ir, ss[|es|], i, j)
    ensures QuietRun(ir, entries, ss', es') && LateToken(ss', es', |es|, |es| + 2)
  {
    var s, next := ss[|es|], ir[ss[|es|].procs[j].node].dependents;
    var a, b, c := Check(i), Determine(j, next), Route(j);
    PoisedSteps(ir, s, i, j, next);
    var t := Step(s, a);
    var v := Step(t, b);
    var w := Step(v, c);
    AddStep(ir, entries, ss, es, a, t);
    AddStep(ir, entries, ss + [t], es + [a], b, v);
    AddStep(ir, entries, ss + [t] + [v], es + [a] + [b], c, w);
    ss', es' := ss + [t] + [v] + [w], es + [a] + [b] + [c];
  }

  lemma ApartIsPoised(ir: IR, f: seq<NodeId>, u: NodeId, t: NodeId, entries: seq<NodeId>, ss: seq<Run>, es: seq<Event>)
    returns (i: nat, j: nat)
    requires Graph(ir, f) && BranchFree(ir) && Forest(ir) && SettledRun(ir, HoldRoute(u), entries, ss, es)
    requires u in ir && t in ir && ir[u].dependents != [] && ir[t].isTerminal && !ir[u].isTerminal && !Reaches(ir, u, t)
    ensures Poised(ir, ss[|es|], i, j)
  {
    var s := ss[|es|];
    HeldRouteCounter(ir, f, u, entries, ss, es);
    SettledFacts(ir, f, HoldRoute(u), entries, ss, es);
    NotBelowIsUpward(ir, u, s);
    NotBelowItself(ir, f, u);
    if Below(ir, u, t) {
      BelowMeansReached(ir, u, t);
    }
    i := ActivationOf(ir, f, entries, s, NotBelow(ir, u), t);
    j := ActivationOf(ir, f, entries, s, NotBelow(ir, u), u);
    assert s.procs[i] in s.procs && s.procs[j] in s.procs;
    assert ir[u].dependents[0] in ir[u].dependents;
  }

  lemma LateRunExists(schema: Compiler.Schema, ir: IR) returns (entries: seq<NodeId>, ss: seq<Run>, es: seq<Event>, k: nat, j: nat)
    requires Plain(schema, ir) && Apart(ir)
    ensures QuietRun(ir, entries, ss, es) && LateToken(ss, es, k, j)
  {
    var f := CompiledGraph(schema, ir);
    Reachability.CompiledFlagsTerminals(schema, ir);
    var limit := LoopFreeRunsEnd(schema, ir);
    var u, t :| u in ir && t in ir && !ir[u].isTerminal && ir[t].isTerminal && !Reaches(ir, u, t);
    entries, ss, es := SettledRunExists(ir, HoldRoute(u), limit);
    var a, b := ApartIsPoised(ir, f, u, t, entries, ss, es);
    k, j := |es|, |es| + 2;
    ss, es := PoisedIsLate(ir, entries, ss, es, a, b);
  }

  // ---- If none is, no token is late

  /** The terminal nodes are the dependents of `u`, and of no other node. */
  ghost predicate SoleParent(ir: IR, u: NodeId) {
    && u in ir && !ir[u].isTerminal
    && (forall v :: v in ir && ir[v].isTerminal ==> v in ir[u].dependents)
    && (forall v :: v in ir[u].dependents ==> v in ir && ir[v].isTerminal)
    && (forall w, v :: w in ir && w != u && v in ir[w].dependents ==> v in ir && !ir[v].isTerminal)
  }

  lemma SiblingIsTerminal(ir: IR, f: seq<NodeId>, u: NodeId, c: NodeId, d: NodeId)
    requires Graph(ir, f) && Forest(ir) && Reachability.TerminalsFlagged(ir) && !Apart(ir)
    requires u in ir && c in ir[u].dependents && d in ir[u].dependents && c != d
    ensures ir[c].isTerminal
  {
    if !ir[c].isTerminal {
      var q := Reachability.ReachesTerminal(ir, f, d);
      var t := q[|q| - 1];
      assert Reaches(ir, c, t);
      var p :| IsWalk(ir, p) && p != [] && p[0] == c && p[|p| - 1] == t;
      SiblingsApart(ir, f, u, c, d);
      SiblingsApart(ir, f, u, d, c);
      ForestHasOneParent(ir, f);
      ChainOfAncestors(ir, p, q);
    }
  }

  lemma TerminalIsChild(ir: IR, u: NodeId, v: NodeId)
    requires Reachability.TerminalsFlagged(ir) && Closed(ir) && u in ir && v in ir && u != v && Reaches(ir, u, v)
    requires forall c :: c in ir[u].dependents ==> ir[c].isTerminal
    ensures v in ir[u].dependents
  {
    var p :| IsWalk(ir, p) && p != [] && p[0] == u && p[|p| - 1] == v;
    assert |p| >= 2;
    assert p[0 + 1] in ir[p[0]].dependents;
    WalkGoesOn(ir, p);
  }

  lemma WalkGoesOn(ir: IR, p: seq<NodeId>)
    requires IsWalk(ir, p) && |p| >= 2
    ensures |p| == 2 || ir[p[1]].dependents != []
  {
    if |p| > 2 {
      assert p[1 + 1] in ir[p[1]].dependents;
    }
  }

  /** If every non-terminal node leads to every terminal node, a node with two dependents is the only
      one that leads to terminal nodes directly. */
  lemma TwoDependentsSoleParent(ir: IR, f: seq<NodeId>, u: NodeId, c: NodeId, d: NodeId)
    requires Graph(ir, f) && Forest(ir) && Reachability.TerminalsFlagged(ir) && !Apart(ir)
    requires u in ir && c in ir[u].dependents && d in ir[u].dependents && c != d
    ensures SoleParent(ir, u)
  {
    forall v | v in ir[u].dependents ensures v in ir && ir[v].isTerminal {
      SiblingIsTerminal(ir, f, u, v, if v == c then d else c);
    }
    forall v | v in ir && ir[v].isTerminal ensures v in ir[u].dependents {
      assert Reaches(ir, u, v);
      TerminalIsChild(ir, u, v);
    }
    forall w, v | w in ir && w != u && v in ir[w].dependents ensures v in ir && !ir[v].isTerminal {
      if ir[v].isTerminal {
        UniqueParent(ir, f, w, u, v);
      }
    }
  }

  // ---- Counting the activations of terminal nodes

  ghost function Terminal(ir: IR): Proc -> int {
    (p: Proc) => if p.node in ir && ir[p.node].isTerminal then 1 else 0
  }

  ghost function RoutedBy(u: NodeId): Proc -> int {
    (p: Proc) => if p.node == u then p.pos else 0
  }

  lemma StepCountsTerminals(ir: IR, u: NodeId, s: Run, e: Event)
    requires SoleParent(ir, u) && LoopFree(ir) && BranchFree(ir) && Enabled(s, e) && !e.Patch? && !e.Redeliver?
    requires s.ir == ir && Legal(ir, s.procs[e.i])
    ensures Terminal(ir)(Advance(s, e)) == Terminal(ir)(s.procs[e.i])
    ensures Sum(Added(s, e), Terminal(ir)) == RoutedBy(u)(Advance(s, e)) - RoutedBy(u)(s.procs[e.i])
    ensures Sum(Added(s, e), RoutedBy(u)) == 0
  {
    if e.Route? {
      var p := s.procs[e.i];
      var m := p.next[p.pos];
      assert p.next == ir[p.node].dependents && m in ir[p.node].dependents;
      SumSingle(Spawn(ir, m), Terminal(ir));
      SumSingle(Spawn(ir, m), RoutedBy(u));
    }
  }

  ghost predicate TerminalsAreRouted(ir: IR, u: NodeId, s: Run) {
    Sum(s.procs, Terminal(ir)) == Sum(s.procs, RoutedBy(u))
  }

  lemma StepKeepsTerminalCount(ir: IR, u: NodeId, s: Run, e: Event)
    requires SoleParent(ir, u) && LoopFree(ir) && BranchFree(ir) && Enabled(s, e) && !e.Patch? && !e.Redeliver?
    requires s.ir == ir && Legal(ir, s.procs[e.i]) && TerminalsAreRouted(ir, u, s)
    ensures TerminalsAreRouted(ir, u, Step(s, e))
  {
    StepCountsTerminals(ir, u, s, e);
    SumStep(s, e, Terminal(ir));
    SumStep(s, e, RoutedBy(u));
  }

  lemma TerminalCountStep(ir: IR, f: seq<NodeId>, u: NodeId, entries: seq<NodeId>, ss: seq<Run>, es: seq<Event>, k: nat)
    requires Graph(ir, f) && BranchFree(ir) && SoleParent(ir, u) && QuietRun(ir, entries, ss, es) && k < |es|
    ensures TerminalsAreRouted(ir, u, ss[k]) ==> TerminalsAreRouted(ir, u, ss[k + 1])
  {
    if TerminalsAreRouted(ir, u, ss[k]) {
      assert Enabled(ss[k], es[k]) && ss[k + 1] == Step(ss[k], es[k]) && !es[k].Patch? && !es[k].Redeliver? && ss[k].ir == ir && Legal(ir, ss[k].procs[es[k].i]) by {
        QuietStep(ir, entries, ss, es, k);
      }
      StepKeepsTerminalCount(ir, u, ss[k], es[k]);
    }
  }

  lemma {:induction false} CountsStayEqual(ir: IR, u: NodeId, ss: seq<Run>, k: nat)
    requires k < |ss| && TerminalsAreRouted(ir, u, ss[0])
    requires forall j :: 0 <= j < k ==> TerminalsAreRouted(ir, u, ss[j]) ==> TerminalsAreRouted(ir, u, ss[j + 1])
    ensures TerminalsAreRouted(ir, u, ss[k])
  {
    if k > 0 {
      CountsStayEqual(ir, u, ss, k - 1);
      assert TerminalsAreRouted(ir, u, ss[k - 1]) ==> TerminalsAreRouted(ir, u, ss[k - 1 + 1]);
    }
  }

  lemma TerminalsCounted(ir: IR, f: seq<NodeId>, u: NodeId, entries: seq<NodeId>, ss: seq<Run>, es: seq<Event>, k: nat)
    requires Graph(ir, f) && BranchFree(ir) && SoleParent(ir, u) && QuietRun(ir, entries, ss, es) && k < |ss|
    ensures TerminalsAreRouted(ir, u, ss[k])
  {
    assert TerminalsAreRouted(ir, u, ss[0]) by {
      StartCountsTerminals(ir, f, u, entries);
    }
    forall j | 0 <= j < k ensures TerminalsAreRouted(ir, u, ss[j]) ==> TerminalsAreRouted(ir, u, ss[j + 1]) {
      TerminalCountStep(ir, f, u, entries, ss, es, j);
    }
    CountsStayEqual(ir, u, ss, k);
  }

  lemma TerminalHasParent(ir: IR, f: seq<NodeId>, u: NodeId, v: NodeId)
    requires Graph(ir, f) && SoleParent(ir, u)
    ensures v in ir && ir[v].isTerminal ==> ir[v].dependencies != []
  {
    if v in ir && ir[v].isTerminal {
      assert v in multiset(ir[u].dependents);
      assert u in multiset(ir[v].dependencies);
    }
  }

  lemma StartCountsTerminals(ir: IR, f: seq<NodeId>, u: NodeId, entries: seq<NodeId>)
    requires Graph(ir, f) && SoleParent(ir, u) && EntryOrder(ir, entries)
    ensures Sum(Start(ir, entries).procs, Terminal(ir)) == 0 == Sum(Start(ir, entries).procs, RoutedBy(u))
  {
    var ps := Start(ir, entries).procs;
    forall p | p in ps ensures Terminal(ir)(p) == 0 && RoutedBy(u)(p) == 0 {
      var i :| 0 <= i < |ps| && ps[i] == p;
      assert entries[i] in EntryNodes(ir);
      TerminalHasParent(ir, f, u, p.node);
    }
    SumAllZero(ps, Terminal(ir));
    SumAllZero(ps, RoutedBy(u));
  }

  // ---- The ancestors of an activated node have routed

  lemma ParentHasRouted(ir: IR, f: seq<NodeId>, entries: seq<NodeId>, s: Run, w: NodeId, m: NodeId) returns (i: nat)
    requires Graph(ir, f) && BranchFree(ir) && Forest(ir) && EntryOrder(ir, entries) && Tracked(ir, entries, s)
    requires w in ir && m in ir[w].dependents && Count(s, m) >= 1
    ensures i < |s.procs| && s.procs[i].node == w && s.procs[i].pos >= 1
  {
    assert m in multiset(ir[w].dependents) && w in multiset(ir[m].dependencies);
    Seqs.DistinctCount(entries, m);
    assert m !in entries;
    i := SumPositive(s.procs, Passed(m));
    var p := s.procs[i];
    assert p in s.procs;
    assert m in multiset(p.next[..p.pos]);
    assert m in p.next[..p.pos] && m in p.next;
    assert p.next == ir[p.node].dependents;
    UniqueParent(ir, f, p.node, w, m);
  }

  lemma CountFrom(s: Run, i: nat)
    requires i < |s.procs|
    ensures Count(s, s.procs[i].node) >= 1
  {
    var n := s.procs[i].node;
    forall p | p in s.procs ensures At(n)(p) >= 0 {
    }
    SumOne(s.procs, At(n), i);
  }

  lemma {:induction false} AncestorHasRouted(ir: IR, f: seq<NodeId>, entries: seq<NodeId>, s: Run, p: seq<NodeId>) returns (i: nat)
    requires Graph(ir, f) && BranchFree(ir) && Forest(ir) && EntryOrder(ir, entries) && Tracked(ir, entries, s)
    requires IsWalk(ir, p) && |p| >= 2 && Count(s, p[|p| - 1]) >= 1
    ensures i < |s.procs| && s.procs[i].node == p[0] && s.procs[i].pos >= 1
    decreases |p|
  {
    WalkInit(ir, p);
    i := ParentHasRouted(ir, f, entries, s, p[|p| - 2], p[|p| - 1]);
    if |p| > 2 {
      CountFrom(s, i);
      i := AncestorHasRouted(ir, f, entries, s, p[..|p| - 1]);
    }
  }

  // ---- Back from the late token to the record

  /** `q` is `p` some steps later: an activation that has routed does not start again. */
  ghost predicate Later(p: Proc, q: Proc) {
    q.node == p.node && q.next == p.next && p.pos <= q.pos && (q.phase == Routing ==> p.phase == Routing)
  }

  lemma StepKeepsRouting(s: Run, e: Event, r: nat)
    requires Enabled(s, e) && !e.Patch? && r < |s.procs| && WellFormed(s.procs[r]) && s.procs[r].pos >= 1
    ensures r < |Step(s, e).procs| && Later(s.procs[r], Step(s, e).procs[r])
  {
  }

  lemma RunIsWellFormed(ir: IR, entries: seq<NodeId>, ss: seq<Run>, es: seq<Event>, k: nat, r: nat)
    requires QuietRun(ir, entries, ss, es) && k < |ss| && r < |ss[k].procs|
    ensures WellFormed(ss[k].procs[r])
  {
    EveryRunConserves(ir, entries, ss, es, k);
    assert ss[k].procs[r] in ss[k].procs;
  }

  lemma {:induction false} RoutingEarlier(ir: IR, entries: seq<NodeId>, ss: seq<Run>, es: seq<Event>, r: nat, k: nat, j: nat)
    requires QuietRun(ir, entries, ss, es) && k <= j < |ss| && r < |ss[k].procs| && ss[k].procs[r].pos >= 1
    ensures r < |ss[j].procs| && Later(ss[k].procs[r], ss[j].procs[r])
    decreases j
  {
    if k < j {
      var i := j - 1;
      RoutingEarlier(ir, entries, ss, es, r, k, i);
      RunIsWellFormed(ir, entries, ss, es, i, r);
      assert Enabled(ss[i], es[i]) && ss[j] == Step(ss[i], es[i]) && !es[i].Patch? by {
        QuietStep(ir, entries, ss, es, i);
      }
      StepKeepsRouting(ss[i], es[i], r);
    }
  }

  // ---- The counter is negative while the sole parent routes

  ghost function Excess(ir: IR): Proc -> int {
    (p: Proc) => Terminal(ir)(p) - Live(p) - Stuck(p)
  }

  /** What holds when a terminal activation `i` checks while the sole parent `u` is routing. */
  ghost predicate RacingCheck(ir: IR, u: NodeId, s: Run, i: nat) {
    && i < |s.procs| && s.procs[i].phase == Checking && s.procs[i].node in ir && ir[s.procs[i].node].isTerminal
    && (forall p :: p in s.procs ==> Legal(ir, p))
    && (forall p :: p in s.procs && p.node == u ==> p.phase == Routing)
    && (forall p :: p in s.procs && !ir[p.node].isTerminal ==> Live(p) == 0 && Stuck(p) == 0)
  }

  lemma {:induction false} SumDifference(ps: seq<Proc>, ir: IR)
    ensures Sum(ps, Excess(ir)) == Sum(ps, Terminal(ir)) - Sum(ps, Live) - Sum(ps, Stuck)
  {
    if ps != [] {
      SumDifference(ps[..|ps| - 1], ir);
    }
  }

  lemma PositionsAreUncounted(ir: IR, u: NodeId, s: Run)
    requires LoopFree(ir) && BranchFree(ir) && Closed(ir) && forall p :: p in s.procs ==> Legal(ir, p)
    requires forall p :: p in s.procs && p.node == u ==> p.phase == Routing
    ensures Sum(s.procs, RoutedBy(u)) <= Sum(s.procs, Unemitted)
  {
    forall p | p in s.procs ensures RoutedBy(u)(p) <= Unemitted(p) {
      if p.node == u {
        assert p.next == ir[p.node].dependents;
        assert forall m :: m in p.next[..p.pos] ==> m in p.next;
        AllTokens(ir, p.next[..p.pos]);
      } else {
        PartsNonNegative(p);
      }
    }
    SumMonotone(s.procs, RoutedBy(u), Unemitted);
  }

  lemma RacingCheckReadsNegative(ir: IR, u: NodeId, s: Run, i: nat)
    requires RacingCheck(ir, u, s, i) && LoopFree(ir) && BranchFree(ir) && Closed(ir)
    requires Sum(s.procs, Terminal(ir)) == Sum(s.procs, RoutedBy(u))
    ensures Sum(s.procs, Live) + Sum(s.procs, Stuck) < Sum(s.procs, Unemitted)
  {
    PositionsAreUncounted(ir, u, s);
    forall p | p in s.procs ensures Excess(ir)(p) >= 0 {
    }
    SumOne(s.procs, Excess(ir), i);
    SumDifference(s.procs, ir);
  }

  lemma NoAbsorberEdgesAtAll(ir: IR)
    requires LoopFree(ir) && BranchFree(ir)
    ensures NoAbsorberEdges(ir)
  {
  }

  /** Every activated non-terminal node has routed when a terminal node is activated. */
  lemma NonTerminalsHaveRouted(ir: IR, f: seq<NodeId>, entries: seq<NodeId>, s: Run, t: NodeId, p: Proc)
    requires Graph(ir, f) && BranchFree(ir) && Forest(ir) && EntryOrder(ir, entries) && Tracked(ir, entries, s) && !Apart(ir)
    requires t in ir && ir[t].isTerminal && Count(s, t) >= 1 && p in s.procs && !ir[p.node].isTerminal
    ensures p.pos >= 1
  {
    var w := p.node;
    assert Reaches(ir, w, t);
    var q :| IsWalk(ir, q) && q != [] && q[0] == w && q[|q| - 1] == t;
    var i := AncestorHasRouted(ir, f, entries, s, q);
    var j :| 0 <= j < |s.procs| && s.procs[j] == p;
    OnlyActivation(ir, f, entries, s, i, j);
  }

  lemma RunTracks(ir: IR, entries: seq<NodeId>, ss: seq<Run>, es: seq<Event>, k: nat)
    requires QuietRun(ir, entries, ss, es) && k < |ss|
    ensures Tracked(ir, entries, ss[k])
  {
    QuietRunTracks(ir, entries, ss, es, k);
  }

  /** The node that publishes late had started to route when COMPLETED was recorded. */
  lemma AncestorOfRecord(ir: IR, f: seq<NodeId>, entries: seq<NodeId>, s: Run, e: Event, u: NodeId) returns (r: nat)
    requires Graph(ir, f) && BranchFree(ir) && Forest(ir) && EntryOrder(ir, entries) && Tracked(ir, entries, s) && !Apart(ir)
    requires Enabled(s, e) && Records(s, e) && u in ir && !ir[u].isTerminal
    ensures r < |s.procs| && s.procs[r].node == u && s.procs[r].pos >= 1
  {
    var t := s.procs[e.i].node;
    assert s.procs[e.i] in s.procs;
    CountFrom(s, e.i);
    assert Reaches(ir, u, t);
    var p :| IsWalk(ir, p) && p != [] && p[0] == u && p[|p| - 1] == t;
    r := AncestorHasRouted(ir, f, entries, s, p);
  }

  lemma PublisherIsNotTerminal(ir: IR, p: Proc)
    requires Reachability.TerminalsFlagged(ir) && LoopFree(ir) && BranchFree(ir) && Legal(ir, p) && p.next != []
    ensures !ir[p.node].isTerminal && p.next == ir[p.node].dependents
  {
  }

  lemma LateNodeWasRouting(ir: IR, f: seq<NodeId>, entries: seq<NodeId>, ss: seq<Run>, es: seq<Event>, k: nat, j: nat)
    returns (r: nat)
    requires Graph(ir, f) && BranchFree(ir) && Forest(ir) && Reachability.TerminalsFlagged(ir) && !Apart(ir)
    requires QuietRun(ir, entries, ss, es) && LateToken(ss, es, k, j)
    ensures r < |ss[k].procs| && ss[k].procs[r].phase == Routing && 1 <= ss[k].procs[r].pos < |ss[k].procs[r].next|
  {
    var q := es[j].i;
    var u := ss[j].procs[q].node;
    QuietStep(ir, entries, ss, es, j);
    PublisherIsNotTerminal(ir, ss[j].procs[q]);
    RunTracks(ir, entries, ss, es, k);
    r := AncestorOfRecord(ir, f, entries, ss[k], es[k], u);
    RoutingEarlier(ir, entries, ss, es, r, k, j);
    RunTracks(ir, entries, ss, es, j);
    OnlyActivation(ir, f, entries, ss[j], r, q);
  }

  lemma FirstAndLastDiffer(ir: IR, f: seq<NodeId>, u: NodeId)
    requires Graph(ir, f) && Forest(ir) && u in ir && |ir[u].dependents| >= 2
    ensures ir[u].dependents[0] != ir[u].dependents[1]
  {
    var ds := ir[u].dependents;
    assert ds[0] in ds;
    UniqueParent(ir, f, u, u, ds[0]);
    FirstTwo(ds);
  }

  /** While the sole parent of the terminal nodes routes, no check can read zero. */
  lemma NoRecordWhileRouting(schema: Compiler.Schema, ir: IR, f: seq<NodeId>, entries: seq<NodeId>, ss: seq<Run>, es: seq<Event>, k: nat, r: nat)
    requires Plain(schema, ir) && Graph(ir, f) && !Apart(ir) && QuietRun(ir, entries, ss, es) && k < |es| && Enabled(ss[k], es[k]) && es[k].Check?
    requires ss[k].procs[es[k].i].ir[ss[k].procs[es[k].i].node].isTerminal
    requires r < |ss[k].procs| && ss[k].procs[r].phase == Routing && SoleParent(ir, ss[k].procs[r].node)
    ensures ss[k].counter.value != 0
  {
    var s, i, u := ss[k], es[k].i, ss[k].procs[r].node;
    RunTracks(ir, entries, ss, es, k);
    assert s.procs[i] in s.procs;
    RacingFacts(ir, f, entries, s, i, r);
    TerminalsCounted(ir, f, u, entries, ss, es, k);
    RacingCheckReadsNegative(ir, u, s, i);
    NoAbsorberEdgesAtAll(ir);
    ForestConservation(schema, ir, entries, ss, es, k);
  }

  lemma SameNodeSamePhase(ir: IR, f: seq<NodeId>, entries: seq<NodeId>, s: Run, r: nat)
    requires Graph(ir, f) && Forest(ir) && EntryOrder(ir, entries) && Tracked(ir, entries, s) && r < |s.procs|
    ensures forall p :: p in s.procs && p.node == s.procs[r].node ==> p.phase == s.procs[r].phase
  {
    forall p | p in s.procs && p.node == s.procs[r].node ensures p.phase == s.procs[r].phase {
      var j :| 0 <= j < |s.procs| && s.procs[j] == p;
      OnlyActivation(ir, f, entries, s, j, r);
    }
  }

  lemma RoutedIsSpent(ir: IR, p: Proc)
    requires Legal(ir, p) && p.pos >= 1
    ensures Live(p) == 0 && Stuck(p) == 0
  {
  }

  lemma NonTerminalsAreSpent(ir: IR, f: seq<NodeId>, entries: seq<NodeId>, s: Run, t: NodeId)
    requires Graph(ir, f) && BranchFree(ir) && Forest(ir) && EntryOrder(ir, entries) && Tracked(ir, entries, s) && !Apart(ir)
    requires t in ir && ir[t].isTerminal && Count(s, t) >= 1
    ensures forall p :: p in s.procs && !ir[p.node].isTerminal ==> Live(p) == 0 && Stuck(p) == 0
  {
    forall p | p in s.procs && !ir[p.node].isTerminal ensures Live(p) == 0 && Stuck(p) == 0 {
      assert p.pos >= 1 by {
        NonTerminalsHaveRouted(ir, f, entries, s, t, p);
      }
      RoutedIsSpent(ir, p);
    }
  }

  lemma RacingFacts(ir: IR, f: seq<NodeId>, entries: seq<NodeId>, s: Run, i: nat, r: nat)
    requires Graph(ir, f) && BranchFree(ir) && Forest(ir) && EntryOrder(ir, entries) && Tracked(ir, entries, s) && !Apart(ir)
    requires i < |s.procs| && s.procs[i].phase == Checking && s.procs[i].node in ir && ir[s.procs[i].node].isTerminal
    requires r < |s.procs| && s.procs[r].phase == Routing
    ensures RacingCheck(ir, s.procs[r].node, s, i)
  {
    CountFrom(s, i);
    SameNodeSamePhase(ir, f, entries, s, r);
    NonTerminalsAreSpent(ir, f, entries, s, s.procs[i].node);
  }

  lemma NoLateToken(schema: Compiler.Schema, ir: IR, entries: seq<NodeId>, ss: seq<Run>, es: seq<Event>, k: nat, j: nat)
    requires Plain(schema, ir) && !Apart(ir) && QuietRun(ir, entries, ss, es)
    ensures !LateToken(ss, es, k, j)
  {
    if LateToken(ss, es, k, j) {
      var f := CompiledGraph(schema, ir);
      Reachability.CompiledFlagsTerminals(schema, ir);
      var r := LateNodeWasRouting(ir, f, entries, ss, es, k, j);
      var u := ss[k].procs[r].node;
      assert u in ir && ss[k].procs[r].next == ir[u].dependents by {
        RunTracks(ir, entries, ss, es, k);
        assert ss[k].procs[r] in ss[k].procs;
        PublisherIsNotTerminal(ir, ss[k].procs[r]);
      }
      FirstAndLastDiffer(ir, f, u);
      TwoDependentsSoleParent(ir, f, u, ir[u].dependents[0], ir[u].dependents[1]);
      NoRecordWhileRouting(schema, ir, f, entries, ss, es, k, r);
    }
  }

  /** A token can be published after COMPLETED was recorded if and only if some non-terminal node does
      not lead to some terminal node. */
  lemma LateTokenIff(schema: Compiler.Schema, ir: IR)
    requires Plain(schema, ir)
    ensures (exists entries: seq<NodeId>, ss: seq<Run>, es: seq<Event>, k: nat, j: nat ::
              QuietRun(ir, entries, ss, es) && LateToken(ss, es, k, j)) <==> Apart(ir)
  {
    if Apart(ir) {
      var entries, ss, es, k, j := LateRunExists(schema, ir);
    } else {
      forall entries: seq<NodeId>, ss: seq<Run>, es: seq<Event>, k: nat, j: nat | QuietRun(ir, entries, ss, es)
        ensures !LateToken(ss, es, k, j)
      {
        NoLateToken(schema, ir, entries, ss, es, k, j);
      }
    }
  }
}
