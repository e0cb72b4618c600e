/** Sequence facts used by loop invariants over prefixes. */
module Seqs {
  lemma Snoc<T>(s: seq<T>, i: nat)
    requires i < |s|
    ensures s[..i + 1] == s[..i] + [s[i]]
  {
  }

  lemma Whole<T>(s: seq<T>)
    ensures s[..|s|] == s
  {
  }

  lemma Shift<T>(front: seq<T>, back: seq<T>)
    requires front != []
    ensures var init, last := front[..|front| - 1], front[|front| - 1];
      front == init + [last] && front + back == init + ([last] + back)
  {
  }

  /** Without repetitions every member counts once. */
  lemma {:induction false} DistinctCount<T>(s: seq<T>, x: T)
    requires forall i, j :: 0 <= i < j < |s| ==> s[i] != s[j]
    ensures multiset(s)[x] == if x in s then 1 else 0
  {
    if s != [] {
      var init, last := s[..|s| - 1], s[|s| - 1];
      assert s == init + [last];
      DistinctCount(init, x);
    }
  }

  lemma Assoc<T>(a: seq<T>, b: seq<T>, c: seq<T>)
    ensures (a + b) + c == a + (b + c)
  {
  }

  /** What `f` gives for the elements that pass `keep`, in their order. */
  function Filtered<T, U>(src: seq<T>, keep: T -> bool, f: T -> U): seq<U> {
    if src == [] then []
    else
      var init, last := Filtered(src[..|src| - 1], keep, f), src[|src| - 1];
      if keep(last) then init + [f(last)] else init
  }

  /** `out` holds what `f` gives for exactly the elements of `src` that pass `keep`, in their order: `at`
      are their positions. */
  ghost predicate Selects<T, U>(src: seq<T>, keep: T -> bool, f: T -> U, out: seq<U>, at: seq<int>) {
    && |at| == |out|
    && (forall i, j :: 0 <= i < j < |at| ==> at[i] < at[j])
    && (forall k :: 0 <= k < |at| ==> 0 <= at[k] < |src| && keep(src[at[k]]) && out[k] == f(src[at[k]]))
    && (forall i :: 0 <= i < |src| && keep(src[i]) ==> i in at)
  }

  lemma SelectsLast<T, U>(src: seq<T>, x: T, keep: T -> bool, f: T -> U, out: seq<U>, at: seq<int>)
    requires Selects(src, keep, f, out, at) && keep(x)
    ensures Selects(src + [x], keep, f, out + [f(x)], at + [|src|])
  {
    var all, out', at' := src + [x], out + [f(x)], at + [|src|];
    forall k | 0 <= k < |at'| ensures 0 <= at'[k] < |all| && keep(all[at'[k]]) && out'[k] == f(all[at'[k]]) {
      assert k < |at| ==> at'[k] == at[k] && all[at[k]] == src[at[k]];
    }
    forall i | 0 <= i < |all| && keep(all[i]) ensures i in at' {
      if i < |src| {
        assert src[i] == all[i];
      } else {
        assert at'[|at|] == i;
      }
    }
  }

  lemma SelectsNotLast<T, U>(src: seq<T>, x: T, keep: T -> bool, f: T -> U, out: seq<U>, at: seq<int>)
    requires Selects(src, keep, f, out, at) && !keep(x)
    ensures Selects(src + [x], keep, f, out, at)
  {
    var all := src + [x];
    forall k | 0 <= k < |at| ensures 0 <= at[k] < |all| && keep(all[at[k]]) && out[k] == f(all[at[k]]) {
      assert all[at[k]] == src[at[k]];
    }
    forall i | 0 <= i < |all| && keep(all[i]) ensures i in at {
      assert i < |src| && src[i] == all[i];
    }
  }

  lemma {:induction false} FilteredSelects<T, U>(src: seq<T>, keep: T -> bool, f: T -> U) returns (at: seq<int>)
    ensures Selects(src, keep, f, Filtered(src, keep, f), at)
  {
    if src == [] {
      at := [];
    } else {
      var init, last := src[..|src| - 1], src[|src| - 1];
      at := FilteredSelects(init, keep, f);
      assert src == init + [last];
      if keep(last) {
        SelectsLast(init, last, keep, f, Filtered(init, keep, f), at);
        at := at + [|init|];
      } else {
        SelectsNotLast(init, last, keep, f, Filtered(init, keep, f), at);
      }
    }
  }
}
