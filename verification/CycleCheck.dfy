/** The depth-first cycle check of the compiler (common/compiler/ir.go, validate step 5).

    A back edge is an error unless it enters a loop-enabled node. The roots are visited in Go map
    order, so every statement here is about an arbitrary order. */
module CycleCheck {
  import opened WorkflowIR

  /** `Clean` carries the visited nodes and the finished ones, in the order they finished. */
  datatype Verdict = Cyclic | Clean(visited: set<NodeId>, finished: seq<NodeId>)

  ghost predicate AllIn(ns: seq<NodeId>, ir: IR) {
    forall n :: n in ns ==> n in ir
  }

  ghost function Visit(ir: IR, n: NodeId, stack: seq<NodeId>, visited: set<NodeId>, finished: seq<NodeId>): (r: Verdict)
    requires Closed(ir) && n in ir && n !in visited && visited <= ir.Keys
    ensures r.Clean? ==> visited + {n} <= r.visited <= ir.Keys
    decreases ir.Keys - visited, 0
  {
    match VisitAll(ir, ir[n].dependents, stack + [n], visited + {n}, finished)
    case Cyclic => Cyclic
    case Clean(v, f) => Clean(v, f + [n])
  }

  ghost function VisitAll(ir: IR, deps: seq<NodeId>, stack: seq<NodeId>, visited: set<NodeId>, finished: seq<NodeId>): (r: Verdict)
    requires Closed(ir) && AllIn(deps, ir) && visited <= ir.Keys
    ensures r.Clean? ==> visited <= r.visited <= ir.Keys
    decreases ir.Keys - visited, 1, |deps|
  {
    if deps == [] then Clean(visited, finished)
    else if deps[0] !in visited then
      match Visit(ir, deps[0], stack, visited, finished)
      case Cyclic => Cyclic
      case Clean(v, f) => VisitAll(ir, deps[1..], stack, v, f)
    else if deps[0] in stack && !ir[deps[0]].LoopEnabled() then Cyclic
    else VisitAll(ir, deps[1..], stack, visited, finished)
  }

  /** The verdict for one map iteration order. */
  ghost predicate Accepts(ir: IR, order: seq<NodeId>)
    requires Closed(ir) && IsOrder(order, ir.Keys)
  {
    VisitAll(ir, order, [], {}, []).Clean?
  }

  // ---- What acceptance gives

  /** In `f`, every dependent of a node stands before that node or is a loop node. */
  ghost predicate Ranked(ir: IR, f: seq<NodeId>) {
    && AllIn(f, ir)
    && forall i, d :: 0 <= i < |f| && d in ir[f[i]].dependents ==> d in f[..i] || (d in ir && ir[d].LoopEnabled())
  }

  ghost predicate Consistent(ir: IR, stack: seq<NodeId>, visited: set<NodeId>, finished: seq<NodeId>) {
    && Closed(ir) && visited <= ir.Keys
    && (forall n :: n in visited <==> n in stack || n in finished)
    && (forall n :: n in stack ==> n !in finished)
    && (forall i, j :: 0 <= i < j < |finished| ==> finished[i] != finished[j])
    && Ranked(ir, finished)
  }

  /** No dependent in `ds` is unvisited, and none closes a forbidden cycle with `stack`. */
  ghost predicate Explored(ir: IR, ds: seq<NodeId>, stack: seq<NodeId>, visited: set<NodeId>) {
    forall d :: d in ds ==> d in visited && d in ir && (d in stack ==> ir[d].LoopEnabled())
  }

  ghost predicate CleanRun(ir: IR, stack: seq<NodeId>, visited: set<NodeId>, finished: seq<NodeId>, v: set<NodeId>, f: seq<NodeId>) {
    && Consistent(ir, stack, v, f)
    && visited <= v
    && finished <= f
    && forall y :: y in v && y !in visited ==> Explored(ir, ir[y].dependents, stack, v)
  }

  lemma {:induction false} VisitClean(ir: IR, n: NodeId, stack: seq<NodeId>, visited: set<NodeId>, finished: seq<NodeId>)
    requires Consistent(ir, stack, visited, finished) && n in ir && n !in visited
    requires Visit(ir, n, stack, visited, finished).Clean?
    ensures var r := Visit(ir, n, stack, visited, finished);
            CleanRun(ir, stack, visited, finished, r.visited, r.finished) && n in r.finished
            && Explored(ir, ir[n].dependents, stack + [n], r.visited)
    decreases ir.Keys - visited, 0
  {
    VisitAllClean(ir, ir[n].dependents, stack + [n], visited + {n}, finished);
    var inner := VisitAll(ir, ir[n].dependents, stack + [n], visited + {n}, finished);
    var f := inner.finished;
    assert CleanRun(ir, stack + [n], visited + {n}, finished, inner.visited, f);
    assert n in stack + [n];
    assert n !in f;
    forall i, d | 0 <= i < |f + [n]| && d in ir[(f + [n])[i]].dependents
      ensures d in (f + [n])[..i] || (d in ir && ir[d].LoopEnabled())
    {
      assert (f + [n])[..i] == f[..i];
      if i == |f| {
        assert f[..i] == f;
      }
    }
    forall y | y in inner.visited && y !in visited
      ensures Explored(ir, ir[y].dependents, stack, inner.visited)
    {
      if y == n {
        assert Explored(ir, ir[n].dependents, stack + [n], inner.visited);
      } else {
        assert Explored(ir, ir[y].dependents, stack + [n], inner.visited);
      }
    }
  }

  lemma {:induction false} VisitAllClean(ir: IR, deps: seq<NodeId>, stack: seq<NodeId>, visited: set<NodeId>, finished: seq<NodeId>)
    requires Consistent(ir, stack, visited, finished) && AllIn(deps, ir)
    requires VisitAll(ir, deps, stack, visited, finished).Clean?
    ensures var r := VisitAll(ir, deps, stack, visited, finished);
            CleanRun(ir, stack, visited, finished, r.visited, r.finished)
            && Explored(ir, deps, stack, r.visited)
    decreases ir.Keys - visited, 1, |deps|
  {
    if deps != [] {
      var r := VisitAll(ir, deps, stack, visited, finished);
      if deps[0] !in visited {
        var h := Visit(ir, deps[0], stack, visited, finished);
        VisitClean(ir, deps[0], stack, visited, finished);
        VisitAllClean(ir, deps[1..], stack, h.visited, h.finished);
        assert deps[0] !in stack;
        forall y | y in r.visited && y !in visited
          ensures Explored(ir, ir[y].dependents, stack, r.visited)
        {
          if y in h.visited {
            assert Explored(ir, ir[y].dependents, stack, h.visited);
          }
        }
      } else {
        VisitAllClean(ir, deps[1..], stack, visited, finished);
      }
      assert deps == [deps[0]] + deps[1..];
    }
  }

  /** Position of a node in the finishing order. */
  ghost function Rank(f: seq<NodeId>, n: NodeId): (r: nat)
    requires n in f
    ensures r < |f| && f[r] == n
  {
    if f[0] == n then 0 else 1 + Rank(f[1..], n)
  }

  lemma {:induction false} RankOfPrefix(f: seq<NodeId>, i: nat, n: NodeId)
    requires i <= |f| && n in f[..i]
    ensures Rank(f, n) < i
  {
    if f[0] != n {
      assert f[..i][1..] == f[1..][..i - 1];
      RankOfPrefix(f[1..], i - 1, n);
    }
  }

  /** The order in which the search finishes nodes ranks the graph: the rank strictly decreases
      along every dependent edge that does not enter a loop-enabled node. */
  lemma AcceptanceRanks(ir: IR, order: seq<NodeId>) returns (f: seq<NodeId>)
    requires Closed(ir) && IsOrder(order, ir.Keys) && Accepts(ir, order)
    ensures IsOrder(f, ir.Keys)
    ensures forall u, v :: u in ir && v in ir[u].dependents && !ir[v].LoopEnabled() ==> Rank(f, v) < Rank(f, u)
  {
    VisitAllClean(ir, order, [], {}, []);
    f := VisitAll(ir, order, [], {}, []).finished;
    forall u, v | u in ir && v in ir[u].dependents && !ir[v].LoopEnabled()
      ensures Rank(f, v) < Rank(f, u)
    {
      RankOfPrefix(f, Rank(f, u), v);
    }
  }

  /** An accepted graph has no cycle that avoids loop-enabled nodes. */
  lemma AcceptedCyclesHaveLoops(ir: IR, order: seq<NodeId>, c: seq<NodeId>)
    requires Closed(ir) && IsOrder(order, ir.Keys) && Accepts(ir, order)
    requires IsCycle(ir, c)
    ensures exists k :: 0 <= k < |c| && ir[c[k]].LoopEnabled()
  {
    if forall k :: 0 <= k < |c| ==> !ir[c[k]].LoopEnabled() {
      var f := AcceptanceRanks(ir, order);
      assert Rank(f, c[0]) < Rank(f, c[|c| - 1]);
      RankFalls(ir, f, c, |c| - 1);
      assert false;
    }
  }

  lemma {:induction false} RankFalls(ir: IR, f: seq<NodeId>, p: seq<NodeId>, k: nat)
    requires Closed(ir) && IsOrder(f, ir.Keys) && IsWalk(ir, p) && k < |p|
    requires forall i :: 0 <= i < |p| ==> !ir[p[i]].LoopEnabled()
    requires forall u, v :: u in ir && v in ir[u].dependents && !ir[v].LoopEnabled() ==> Rank(f, v) < Rank(f, u)
    ensures Rank(f, p[k]) <= Rank(f, p[0])
  {
    if k > 0 {
      RankFalls(ir, f, p, k - 1);
      assert p[k - 1 + 1] in ir[p[k - 1]].dependents;
    }
  }

  // ---- What rejection gives

  ghost predicate NonLoopOnCycle(ir: IR, n: NodeId, c: seq<NodeId>) {
    IsCycle(ir, c) && c[0] == n && !ir[n].LoopEnabled()
  }

  lemma {:induction false} VisitCyclic(ir: IR, n: NodeId, stack: seq<NodeId>, visited: set<NodeId>, finished: seq<NodeId>) returns (c: seq<NodeId>)
    requires Closed(ir) && n in ir && n !in visited && visited <= ir.Keys
    requires IsWalk(ir, stack + [n])
    requires Visit(ir, n, stack, visited, finished).Cyclic?
    ensures IsCycle(ir, c) && !ir[c[0]].LoopEnabled()
    decreases ir.Keys - visited, 0
  {
    c := VisitAllCyclic(ir, ir[n].dependents, stack + [n], visited + {n}, finished);
  }

  lemma {:induction false} VisitAllCyclic(ir: IR, deps: seq<NodeId>, stack: seq<NodeId>, visited: set<NodeId>, finished: seq<NodeId>) returns (c: seq<NodeId>)
    requires Closed(ir) && AllIn(deps, ir) && visited <= ir.Keys
    requires IsWalk(ir, stack) && (stack != [] ==> forall d :: d in deps ==> d in ir[stack[|stack| - 1]].dependents)
    requires VisitAll(ir, deps, stack, visited, finished).Cyclic?
    ensures IsCycle(ir, c) && !ir[c[0]].LoopEnabled()
    decreases ir.Keys - visited, 1, |deps|
  {
    assert deps[0] in deps && forall d :: d in deps[1..] ==> d in deps;
    if deps[0] !in visited {
      var h := Visit(ir, deps[0], stack, visited, finished);
      if h.Cyclic? {
        assert IsWalk(ir, stack + [deps[0]]) by { WalkExtends(ir, stack, deps[0]); }
        c := VisitCyclic(ir, deps[0], stack, visited, finished);
      } else {
        c := VisitAllCyclic(ir, deps[1..], stack, h.visited, h.finished);
      }
    } else if deps[0] in stack && !ir[deps[0]].LoopEnabled() {
      var k :| 0 <= k < |stack| && stack[k] == deps[0];
      c := stack[k..];
      assert c[|c| - 1] == stack[|stack| - 1];
      assert IsWalk(ir, c);
    } else {
      c := VisitAllCyclic(ir, deps[1..], stack, visited, finished);
    }
  }

  /** Rejection is never spurious: it exhibits a cycle through a node that is not a loop node. */
  lemma RejectionExhibitsCycle(ir: IR, order: seq<NodeId>) returns (c: seq<NodeId>)
    requires Closed(ir) && IsOrder(order, ir.Keys) && !Accepts(ir, order)
    ensures IsCycle(ir, c) && !ir[c[0]].LoopEnabled()
  {
    c := VisitAllCyclic(ir, order, [], {}, []);
  }

  /** Without loop nodes the verdict is exactly acyclicity, whatever the order. */
  lemma LoopFreeVerdict(ir: IR, order: seq<NodeId>)
    requires Closed(ir) && IsOrder(order, ir.Keys) && LoopFree(ir)
    ensures Accepts(ir, order) <==> !exists c :: IsCycle(ir, c)
  {
    if Accepts(ir, order) {
      forall c | IsCycle(ir, c) ensures false {
        AcceptedCyclesHaveLoops(ir, order, c);
      }
    } else {
      var c := RejectionExhibitsCycle(ir, order);
    }
  }

  // ---- When the verdict depends on the map order

  lemma {:induction false} CycleStaysVisited(ir: IR, c: seq<NodeId>, v: set<NodeId>, k: nat)
    requires IsCycle(ir, c) && k < |c| && c[0] in v
    requires forall y, d :: y in v && y in ir && d in ir[y].dependents ==> d in v
    ensures c[k] in v
  {
    if k > 0 {
      CycleStaysVisited(ir, c, v, k - 1);
      assert c[k - 1 + 1] in ir[c[k - 1]].dependents;
    }
  }

  /** A search that starts at a non-loop node lying on a cycle always rejects. */
  lemma StartOnCycleRejects(ir: IR, order: seq<NodeId>, c: seq<NodeId>)
    requires Closed(ir) && IsOrder(order, ir.Keys) && order != []
    requires NonLoopOnCycle(ir, order[0], c)
    ensures !Accepts(ir, order)
  {
    if Accepts(ir, order) {
      var x := order[0];
      VisitClean(ir, x, [], {}, []);
      var inner := VisitAll(ir, ir[x].dependents, [] + [x], {} + {x}, []);
      assert {} + {x} == {x} && [] + [x] == [x];
      VisitAllClean(ir, ir[x].dependents, [x], {x}, []);
      forall y, d | y in inner.visited && y in ir && d in ir[y].dependents
        ensures d in inner.visited && d != x
      {
        if y != x {
          assert Explored(ir, ir[y].dependents, [x], inner.visited);
        }
      }
      CycleStaysVisited(ir, c, inner.visited, |c| - 1);
      assert false;
    }
  }

  /** The exact class of graphs the check accepts for every map order: no cycle contains a node
      without an enabled loop. Outside that class some order rejects. */
  lemma AcceptedInEveryOrderIff(ir: IR)
    requires Closed(ir)
    ensures (forall order :: IsOrder(order, ir.Keys) ==> Accepts(ir, order))
       <==> !exists n, c :: NonLoopOnCycle(ir, n, c)
  {
    if n, c :| NonLoopOnCycle(ir, n, c) {
      var rest := OrderExists(ir.Keys - {n});
      var order := [n] + rest;
      StartOnCycleRejects(ir, order, c);
      assert IsOrder(order, ir.Keys) && !Accepts(ir, order);
    } else {
      forall order | IsOrder(order, ir.Keys) ensures Accepts(ir, order) {
        if !Accepts(ir, order) {
          var c := RejectionExhibitsCycle(ir, order);
          assert NonLoopOnCycle(ir, c[0], c);
        }
      }
    }
  }

  lemma VisitOne(ir: IR, d: NodeId, stack: seq<NodeId>, visited: set<NodeId>, finished: seq<NodeId>)
    requires Closed(ir) && d in ir && visited <= ir.Keys
    ensures VisitAll(ir, [d], stack, visited, finished)
      == if d !in visited then Visit(ir, d, stack, visited, finished)
         else if d in stack && !ir[d].LoopEnabled() then Cyclic
         else Clean(visited, finished)
  {
    assert [d][1..] == [];
  }

  // ---- The imperative search

  /** `visited` and `recStack` are the two maps the search mutates; the ghost fields name the
      recursion path and the finishing order. */
  class Search {
    const ir: IR
    var visited: set<NodeId>
    var recStack: set<NodeId>
    ghost var stack: seq<NodeId>
    ghost var finished: seq<NodeId>

    constructor (ir: IR)
      ensures this.ir == ir && visited == {} && recStack == {} && stack == [] && finished == []
    {
      this.ir := ir;
      visited, recStack, stack, finished := {}, {}, [], [];
    }

    ghost predicate Valid()
      reads this
    {
      && Closed(ir) && visited <= ir.Keys
      && (forall n :: n in recStack <==> n in stack)
      && (forall n :: n in stack ==> n in visited)
      && (forall i, j :: 0 <= i < j < |stack| ==> stack[i] != stack[j])
    }

    method HasCycle(n: NodeId) returns (cyclic: bool)
      requires Valid() && n in ir && n !in visited
      modifies this
      ensures cyclic <==> Visit(ir, n, old(stack), old(visited), old(finished)).Cyclic?
      ensures !cyclic ==> Valid() && stack == old(stack)
      ensures !cyclic ==> Visit(ir, n, old(stack), old(visited), old(finished)) == Clean(visited, finished)
      ensures old(visited) + {n} <= visited <= ir.Keys
      decreases ir.Keys - visited
    {
      visited := visited + {n};
      recStack := recStack + {n};
      stack := stack + [n];
      ghost var path, seen, done := stack, visited, finished;
      var deps := ir[n].dependents;
      var i := 0;
      while i < |deps|
        invariant 0 <= i <= |deps|
        invariant Valid() && stack == path && seen <= visited
        invariant VisitAll(ir, deps, path, seen, done) == VisitAll(ir, deps[i..], path, visited, finished)
      {
        var dep := deps[i];
        assert deps[i..][0] == dep && deps[i..][1..] == deps[i + 1..];
        if dep !in visited {
          var found := HasCycle(dep);
          if found { return true; }
        } else if dep in recStack {
          if !ir[dep].LoopEnabled() { return true; }
        }
        i := i + 1;
      }
      recStack := recStack - {n};
      stack := stack[..|stack| - 1];
      finished := finished + [n];
      assert path == old(stack) + [n];
      return false;
    }

    /** The outer loop over the map keys, for one iteration order. */
    method FindCycle(order: seq<NodeId>) returns (cyclic: bool)
      requires Valid() && visited == {} && stack == [] && finished == []
      requires IsOrder(order, ir.Keys)
      modifies this
      ensures cyclic <==> !Accepts(ir, order)
    {
      var i := 0;
      while i < |order|
        invariant 0 <= i <= |order|
        invariant Valid() && stack == []
        invariant VisitAll(ir, order, [], {}, []) == VisitAll(ir, order[i..], [], visited, finished)
      {
        assert order[i..][0] == order[i] && order[i..][1..] == order[i + 1..];
        if order[i] !in visited {
          var found := HasCycle(order[i]);
          if found { return true; }
        }
        i := i + 1;
      }
      return false;
    }
  }
}
