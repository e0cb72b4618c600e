/** Placeholder interpolation in node configs. The Go resolver
    (cmd/workflow-runner/resolver/resolver.go) replaces the matches of \$\{([^}]+)\} one after the
    other, each at its first occurrence in the text so far; the Python resolver
    (cmd/agent-runner-py/resolver.py) substitutes them all in one pass. */
module Resolver {
  import opened Wrappers
  import opened Json
  import Seqs

  // ---- Matching

  /** A template read left to right: plain characters and placeholder expressions. */
  datatype Piece = Char(c: char) | Hole(expr: string)

  function IndexOf(s: string, c: char): (i: nat)
    ensures i <= |s| && (forall k :: 0 <= k < i ==> s[k] != c) && (i < |s| ==> s[i] == c)
  {
    if s == "" || s[0] == c then 0 else 1 + IndexOf(s[1..], c)
  }

  /** The expression of a match of the pattern at the start of the text. */
  function MatchAt(s: string): (m: Option<string>)
    ensures m.Some? ==> m.value != "" && '}' !in m.value && |m.value| + 3 <= |s|
  {
    if |s| < 2 || s[0] != '$' || s[1] != '{' then None
    else
      var j := IndexOf(s[2..], '}');
      if 0 < j < |s| - 2 then Some(s[2..2 + j]) else None
  }

  function Placeholder(expr: string): string {
    "${" + expr + "}"
  }

  function RawPiece(p: Piece): string {
    if p.Char? then [p.c] else Placeholder(p.expr)
  }

  /** The next piece of a text and what follows it. */
  function First(s: string): (r: (Piece, string))
    requires s != ""
    ensures RawPiece(r.0) + r.1 == s && |r.1| < |s|
    ensures if r.0.Char? then MatchAt(s).None? else r.0.expr != "" && '}' !in r.0.expr && |r.0.expr| < |s|
  {
    var m := MatchAt(s);
    if m.Some? then
      assert s[2..][..|m.value|] == m.value && s[2..][|m.value|] == '}';
      (Hole(m.value), s[|m.value| + 3..])
    else (Char(s[0]), s[1..])
  }

  /** FindAll: leftmost, non-overlapping matches. */
  function Scan(s: string): seq<Piece>
    decreases |s|
  {
    if s == "" then [] else [First(s).0] + Scan(First(s).1)
  }

  function Raw(ps: seq<Piece>): string {
    if ps == [] then "" else RawPiece(ps[0]) + Raw(ps[1..])
  }

  function Holes(ps: seq<Piece>): seq<string> {
    if ps == [] then []
    else
      var init, last := Holes(ps[..|ps| - 1]), ps[|ps| - 1];
      if last.Hole? then init + [last.expr] else init
  }

  /** Every plain character is one at which the pattern does not match. */
  predicate IsScan(ps: seq<Piece>) {
    ps == [] || (IsScan(ps[1..]) &&
      match ps[0]
      case Char(c) => MatchAt([c] + Raw(ps[1..])).None?
      case Hole(e) => e != "" && '}' !in e)
  }

  // ---- The two substitutions

  function RenderPiece(vals: string -> string, p: Piece): string {
    if p.Char? then [p.c] else vals(p.expr)
  }

  function Render(vals: string -> string, ps: seq<Piece>): string {
    if ps == [] then "" else RenderPiece(vals, ps[0]) + Render(vals, ps[1..])
  }

  function OnePass(vals: string -> string, s: string): string {
    Render(vals, Scan(s))
  }

  predicate OccursAt(s: string, p: string, i: nat) {
    i + |p| <= |s| && s[i..i + |p|] == p
  }

  function Index(s: string, p: string): (i: Option<nat>)
    ensures i.Some? ==> OccursAt(s, p, i.value) && forall k :: 0 <= k < i.value ==> !OccursAt(s, p, k)
    ensures i.None? ==> forall k :: 0 <= k <= |s| ==> !OccursAt(s, p, k)
  {
    if OccursAt(s, p, 0) then Some(0)
    else if s == "" then None
    else
      var rest := Index(s[1..], p);
      assert forall k :: 1 <= k <= |s| ==> (OccursAt(s, p, k) <==> OccursAt(s[1..], p, k - 1));
      if rest.None? then None else Some(rest.value + 1)
  }

  function ReplaceFirst(s: string, p: string, v: string): string {
    var i := Index(s, p);
    if i.None? then s else s[..i.value] + v + s[i.value + |p|..]
  }

  function Fill(vals: string -> string, holes: seq<string>, s: string): string {
    if holes == [] then s
    else
      var last := holes[|holes| - 1];
      ReplaceFirst(Fill(vals, holes[..|holes| - 1], s), Placeholder(last), vals(last))
  }

  function Sequential(vals: string -> string, s: string): string {
    Fill(vals, Holes(Scan(s)), s)
  }

  // ---- When they agree

  /** Text that, right after a dollar sign, is or may still become this placeholder. */
  predicate Fits(w: string, expr: string) {
    var p := "{" + expr + "}";
    p <= w || w <= p
  }

  /** Putting `v` anywhere into a text cannot make up the placeholder of `expr`. */
  predicate Keeps(v: string, expr: string) {
    !Fits(v, expr) && forall p :: 0 <= p < |v| && v[p] == '$' ==> !Fits(v[p + 1..], expr)
  }

  lemma RawCons(p: Piece, rest: seq<Piece>)
    ensures Raw([p] + rest) == RawPiece(p) + Raw(rest)
  {
    assert ([p] + rest)[1..] == rest;
  }

  lemma {:induction false} RawAppend(ps: seq<Piece>, qs: seq<Piece>)
    ensures Raw(ps + qs) == Raw(ps) + Raw(qs)
  {
    if ps == [] {
      assert ps + qs == qs;
    } else {
      var head, tail := ps[0], ps[1..];
      RawAppend(tail, qs);
      assert ps == [head] + tail;
      Seqs.Assoc([head], tail, qs);
      RawCons(head, tail);
      RawCons(head, tail + qs);
      Seqs.Assoc(RawPiece(head), Raw(tail), Raw(qs));
    }
  }

  lemma {:induction false} RenderAppend(vals: string -> string, ps: seq<Piece>, qs: seq<Piece>)
    ensures Render(vals, ps + qs) == Render(vals, ps) + Render(vals, qs)
  {
    if ps == [] {
      assert ps + qs == qs;
    } else {
      RenderAppend(vals, ps[1..], qs);
      var all := ps + qs;
      assert all[1..] == ps[1..] + qs && all[0] == ps[0];
      Seqs.Assoc(RenderPiece(vals, ps[0]), Render(vals, ps[1..]), Render(vals, qs));
    }
  }

  /** Scanning loses nothing. */
  lemma {:induction false} ScanRoundTrip(s: string)
    ensures Raw(Scan(s)) == s && IsScan(Scan(s))
    decreases |s|
  {
    if s != "" {
      var (p, rest) := First(s);
      ScanRoundTrip(rest);
      ScanCons(p, Scan(rest));
    }
  }

  lemma ScanCons(p: Piece, rest: seq<Piece>)
    requires IsScan(rest)
    requires if p.Char? then MatchAt([p.c] + Raw(rest)).None? else p.expr != "" && '}' !in p.expr
    ensures Raw([p] + rest) == RawPiece(p) + Raw(rest) && IsScan([p] + rest)
  {
    assert ([p] + rest)[1..] == rest;
  }

  lemma {:induction false} IsScanSuffix(ps: seq<Piece>, qs: seq<Piece>)
    requires IsScan(ps + qs)
    ensures IsScan(qs)
  {
    if ps == [] {
      assert ps + qs == qs;
    } else {
      assert (ps + qs)[1..] == ps[1..] + qs;
      IsScanSuffix(ps[1..], qs);
    }
  }

  ghost predicate AllKeep(vals: string -> string, ps: seq<Piece>, expr: string) {
    forall k :: 0 <= k < |ps| && ps[k].Hole? ==> Keeps(vals(ps[k].expr), expr)
  }

  /** No value makes up any placeholder of the template. */
  ghost predicate Quiet(vals: string -> string, ps: seq<Piece>) {
    forall j :: 0 <= j < |ps| && ps[j].Hole? ==> AllKeep(vals, ps, ps[j].expr)
  }

  lemma OccursShift(s: string, t: string, p: string, i: nat)
    requires |s| <= i
    ensures OccursAt(s + t, p, i) <==> OccursAt(t, p, i - |s|)
  {
    if i + |p| <= |s + t| {
      assert (s + t)[i..i + |p|] == t[i - |s|..i - |s| + |p|];
    }
  }

  lemma OccurrenceFits(t: string, expr: string, i: nat)
    ensures OccursAt(t, Placeholder(expr), i) ==> t[i] == '$' && "{" + expr + "}" <= t[i + 1..]
  {
    var p := Placeholder(expr);
    if OccursAt(t, p, i) {
      assert p == "$" + ("{" + expr + "}");
      assert t[i..i + |p|][0] == '$';
      assert t[i..i + |p|][1..] == t[i + 1..][..|p| - 1];
    }
  }

  lemma FitsLocal(v: string, t: string, expr: string)
    ensures "{" + expr + "}" <= v + t ==> Fits(v, expr)
  {
    var p := "{" + expr + "}";
    if p <= v + t {
      assert p == (v + t)[..|p|];
      assert |p| <= |v| ==> p == v[..|p|];
      assert |v| < |p| ==> v == p[..|v|];
    }
  }

  lemma ValueOpensNothing(v: string, t: string, expr: string)
    requires Keeps(v, expr)
    ensures forall i :: 0 <= i < |v| ==> !OccursAt(v + t, Placeholder(expr), i)
  {
    forall i | 0 <= i < |v| ensures !OccursAt(v + t, Placeholder(expr), i) {
      OccurrenceFits(v + t, expr, i);
      if v[i] == '$' {
        FitsLocal(v[i + 1..], t, expr);
        assert (v + t)[i + 1..] == v[i + 1..] + t;
      }
    }
  }

  /** In scanned text followed by a placeholder, a plain dollar sign does not start it earlier. */
  lemma DollarOpensNothing(vals: string -> string, done: seq<Piece>, expr: string, rest: seq<Piece>)
    requires expr != "" && '}' !in expr && AllKeep(vals, done, expr)
    requires MatchAt("$" + Raw(done + ([Hole(expr)] + rest))).None?
    ensures !("{" + expr + "}" <= Render(vals, done) + Raw([Hole(expr)] + rest))
  {
    var p, tail := "{" + expr + "}", [Hole(expr)] + rest;
    RawCons(Hole(expr), rest);
    if done == [] {
      NotPrefix(p, Render(vals, done) + Raw(tail), 0);
    } else {
      var after := Render(vals, done[1..]) + Raw(tail);
      Seqs.Assoc(RenderPiece(vals, done[0]), Render(vals, done[1..]), Raw(tail));
      if done[0].Hole? {
        FitsLocal(vals(done[0].expr), after, expr);
      } else if done[0].c == '{' {
        ClosedAtOnce(done, expr, rest);
        assert Render(vals, done[1..])[0] == '}';
        assert expr[0] in expr;
        NotPrefix(p, [done[0].c] + after, 1);
      } else {
        NotPrefix(p, [done[0].c] + after, 0);
      }
    }
  }

  lemma NotPrefix(p: string, t: string, i: nat)
    requires i < |p| && i < |t| && p[i] != t[i]
    ensures !(p <= t)
  {
  }

  /** An opening brace that starts no match although a closing brace follows is closed at once. */
  lemma ClosedAtOnce(done: seq<Piece>, expr: string, rest: seq<Piece>)
    requires done != [] && done[0] == Char('{')
    requires MatchAt("$" + Raw(done + ([Hole(expr)] + rest))).None?
    ensures |done| >= 2 && done[1] == Char('}')
  {
    var tail := [Hole(expr)] + rest;
    var after := done[1..] + tail;
    assert (done + tail)[1..] == after && (done + tail)[0] == done[0];
    var s := "$" + Raw(done + tail);
    assert s[2..] == Raw(after);
    RawAppend(done[1..], tail);
    RawCons(Hole(expr), rest);
    var n := |Raw(done[1..])| + |expr| + 2;
    assert Raw(after)[n] == '}';
    assert IndexOf(Raw(after), '}') == 0;
    assert Raw(after)[0] == '}';
    assert Raw(after) == RawPiece(after[0]) + Raw(after[1..]);
  }

  /** Nothing before the next placeholder looks like it. */
  lemma {:induction false} NoEarlier(vals: string -> string, done: seq<Piece>, expr: string, rest: seq<Piece>)
    requires IsScan(done + ([Hole(expr)] + rest)) && AllKeep(vals, done, expr) && expr != "" && '}' !in expr
    ensures forall i :: 0 <= i < |Render(vals, done)| ==> !OccursAt(Render(vals, done) + Raw([Hole(expr)] + rest), Placeholder(expr), i)
  {
    if done != [] {
      var tail := [Hole(expr)] + rest;
      assert (done + tail)[1..] == done[1..] + tail && (done + tail)[0] == done[0];
      NoEarlier(vals, done[1..], expr, rest);
      var head, after := RenderPiece(vals, done[0]), Render(vals, done[1..]) + Raw(tail);
      var p := Placeholder(expr);
      Seqs.Assoc(head, Render(vals, done[1..]), Raw(tail));
      forall i | 0 <= i < |head| ensures !OccursAt(head + after, p, i) {
        HeadOpensNothing(vals, done, expr, rest, i);
      }
      forall i | |head| <= i < |Render(vals, done)| ensures !OccursAt(head + after, p, i) {
        OccursShift(head, after, p, i);
      }
    }
  }

  lemma HeadOpensNothing(vals: string -> string, done: seq<Piece>, expr: string, rest: seq<Piece>, i: nat)
    requires done != [] && AllKeep(vals, done, expr) && expr != "" && '}' !in expr
    requires done[0].Char? ==> MatchAt([done[0].c] + Raw(done[1..] + ([Hole(expr)] + rest))).None?
    requires i < |RenderPiece(vals, done[0])|
    ensures !OccursAt(RenderPiece(vals, done[0]) + (Render(vals, done[1..]) + Raw([Hole(expr)] + rest)), Placeholder(expr), i)
  {
    var after := Render(vals, done[1..]) + Raw([Hole(expr)] + rest);
    if done[0].Hole? {
      ValueOpensNothing(vals(done[0].expr), after, expr);
    } else {
      if done[0].c == '$' {
        DollarOpensNothing(vals, done[1..], expr, rest);
      }
      assert ([done[0].c] + after)[1..] == after;
      OccurrenceFits([done[0].c] + after, expr, 0);
    }
  }

  lemma ReplaceAt(a: string, p: string, b: string, v: string)
    requires forall i :: 0 <= i < |a| ==> !OccursAt(a + (p + b), p, i)
    ensures ReplaceFirst(a + (p + b), p, v) == a + (v + b)
  {
    var s := a + (p + b);
    assert OccursAt(s, p, |a|);
    var i := Index(s, p).value;
    assert i == |a|;
    assert s[..i] == a && s[i + |p|..] == b;
  }

  /** After filling the first holes, the text is the rendered front and the untouched rest. */
  lemma {:induction false} FillPrefix(vals: string -> string, s: string, done: seq<Piece>, rest: seq<Piece>)
    requires IsScan(done + rest) && Raw(done + rest) == s && Quiet(vals, done)
    ensures Fill(vals, Holes(done), s) == Render(vals, done) + Raw(rest)
    decreases |done|
  {
    if done == [] {
      assert done + rest == rest;
    } else {
      var init, last := done[..|done| - 1], done[|done| - 1];
      Seqs.Shift(done, rest);
      var tail := [last] + rest;
      FillPrefix(vals, s, init, tail);
      IsScanSuffix(init, tail);
      assert last.Hole? ==> AllKeep(vals, done, last.expr);
      FillLast(vals, s, init, last, rest);
    }
  }

  lemma FillLast(vals: string -> string, s: string, init: seq<Piece>, last: Piece, rest: seq<Piece>)
    requires IsScan(init + ([last] + rest)) && IsScan([last] + rest) && (last.Hole? ==> AllKeep(vals, init, last.expr))
    requires Fill(vals, Holes(init), s) == Render(vals, init) + Raw([last] + rest)
    ensures Fill(vals, Holes(init + [last]), s) == Render(vals, init + [last]) + Raw(rest)
  {
    RenderSnoc(vals, init, last);
    assert (init + [last])[..|init|] == init;
    if last.Hole? {
      FillStep(vals, init, last.expr, rest);
      assert (Holes(init) + [last.expr])[..|Holes(init)|] == Holes(init);
    } else {
      RawCons(last, rest);
      Seqs.Assoc(Render(vals, init), [last.c], Raw(rest));
    }
  }

  lemma RenderSnoc(vals: string -> string, init: seq<Piece>, last: Piece)
    ensures Render(vals, init + [last]) == Render(vals, init) + RenderPiece(vals, last)
  {
    RenderAppend(vals, init, [last]);
    assert Render(vals, [last][1..]) == "";
  }

  lemma FillStep(vals: string -> string, init: seq<Piece>, expr: string, rest: seq<Piece>)
    requires IsScan(init + ([Hole(expr)] + rest)) && AllKeep(vals, init, expr) && expr != "" && '}' !in expr
    ensures ReplaceFirst(Render(vals, init) + Raw([Hole(expr)] + rest), Placeholder(expr), vals(expr))
      == (Render(vals, init) + vals(expr)) + Raw(rest)
  {
    NoEarlier(vals, init, expr, rest);
    RawCons(Hole(expr), rest);
    ReplaceAt(Render(vals, init), Placeholder(expr), Raw(rest), vals(expr));
    Seqs.Assoc(Render(vals, init), vals(expr), Raw(rest));
  }

  /** If no value makes up a placeholder of the template, replacing first occurrences in turn is the
      one-pass substitution. */
  lemma SequentialIsOnePass(vals: string -> string, s: string)
    requires Quiet(vals, Scan(s))
    ensures Sequential(vals, s) == OnePass(vals, s)
  {
    ScanRoundTrip(s);
    assert Scan(s) + [] == Scan(s);
    FillPrefix(vals, s, Scan(s), []);
  }

  // ---- When they do not

  lemma ScanHole(expr: string, rest: string)
    requires expr != "" && '}' !in expr
    ensures Scan(Placeholder(expr) + rest) == [Hole(expr)] + Scan(rest)
  {
    var s := Placeholder(expr) + rest;
    assert s[2..] == expr + ("}" + rest);
    FirstClose(expr, rest);
    assert s[2..2 + |expr|] == expr && s[|expr| + 3..] == rest;
  }

  lemma FirstClose(expr: string, rest: string)
    requires '}' !in expr
    ensures IndexOf(expr + ("}" + rest), '}') == |expr|
  {
    var t := expr + ("}" + rest);
    assert t[|expr|] == '}';
    forall k | 0 <= k < |expr| ensures t[k] != '}' {
      assert expr[k] in expr;
    }
  }

  lemma ScanChar(c: char, rest: string)
    requires c != '$' || rest == "" || rest[0] != '{'
    ensures Scan([c] + rest) == [Char(c)] + Scan(rest)
  {
    assert ([c] + rest)[1..] == rest;
  }

  function Plain(t: string): seq<Piece> {
    if t == "" then [] else [Char(t[0])] + Plain(t[1..])
  }

  lemma {:induction false} ScanPlain(t: string, rest: string)
    requires '$' !in t
    ensures Scan(t + rest) == Plain(t) + Scan(rest)
  {
    if t == "" {
      assert t + rest == rest;
    } else {
      assert t + rest == [t[0]] + (t[1..] + rest);
      ScanPlain(t[1..], rest);
      assert t[0] in t;
      ScanChar(t[0], t[1..] + rest);
    }
  }

  lemma {:induction false} PlainRendersAsIs(vals: string -> string, t: string)
    ensures Render(vals, Plain(t)) == t
  {
    if t != "" {
      PlainRendersAsIs(vals, t[1..]);
      assert ([Char(t[0])] + Plain(t[1..]))[1..] == Plain(t[1..]);
    }
  }

  lemma {:induction false} HolesAppend(ps: seq<Piece>, qs: seq<Piece>)
    ensures Holes(ps + qs) == Holes(ps) + Holes(qs)
    decreases |qs|
  {
    if qs == [] {
      assert ps + qs == ps;
    } else {
      var all, init := ps + qs, qs[..|qs| - 1];
      assert all[..|all| - 1] == ps + init && all[|all| - 1] == qs[|qs| - 1];
      HolesAppend(ps, init);
    }
  }

  lemma {:induction false} PlainHasNoHoles(t: string)
    ensures Holes(Plain(t)) == []
  {
    if t != "" {
      PlainHasNoHoles(t[1..]);
      HolesAppend([Char(t[0])], Plain(t[1..]));
      assert [Char(t[0])][..0] == [];
    }
  }

  /** Two placeholders with some plain text before and between. */
  function Trap(pre: string, x: string, c: string, h: string): string {
    pre + (Placeholder(x) + (c + Placeholder(h)))
  }

  function TrapPieces(pre: string, x: string, c: string, h: string): seq<Piece> {
    Plain(pre) + ([Hole(x)] + (Plain(c) + [Hole(h)]))
  }

  lemma TrapScan(pre: string, x: string, c: string, h: string)
    requires pre == "" || pre == "$"
    requires x != "" && h != "" && '}' !in x && '}' !in h && '$' !in c
    ensures Scan(Trap(pre, x, c, h)) == TrapPieces(pre, x, c, h)
  {
    ScanHole(h, "");
    assert Placeholder(h) + "" == Placeholder(h);
    assert Scan(Placeholder(h)) == [Hole(h)];
    ScanPlain(c, Placeholder(h));
    var rest := Placeholder(x) + (c + Placeholder(h));
    ScanHole(x, c + Placeholder(h));
    if pre == "$" {
      assert rest[0] == '$';
      ScanChar('$', rest);
      assert Plain(pre) == [Char('$')];
    } else {
      assert pre + rest == rest;
    }
  }

  lemma TrapRenders(vals: string -> string, pre: string, x: string, c: string, h: string)
    ensures Render(vals, TrapPieces(pre, x, c, h)) == pre + (vals(x) + (c + vals(h)))
  {
    RenderAppend(vals, Plain(pre), [Hole(x)] + (Plain(c) + [Hole(h)]));
    RenderAppend(vals, [Hole(x)], Plain(c) + [Hole(h)]);
    RenderAppend(vals, Plain(c), [Hole(h)]);
    PlainRendersAsIs(vals, pre);
    PlainRendersAsIs(vals, c);
    RenderSnoc(vals, [], Hole(x));
    RenderSnoc(vals, [], Hole(h));
    assert [] + [Hole(x)] == [Hole(x)] && [] + [Hole(h)] == [Hole(h)];
  }

  lemma TrapHoles(pre: string, x: string, c: string, h: string)
    ensures Holes(TrapPieces(pre, x, c, h)) == [x, h]
  {
    HolesAppend(Plain(pre), [Hole(x)] + (Plain(c) + [Hole(h)]));
    HolesAppend([Hole(x)], Plain(c) + [Hole(h)]);
    HolesAppend(Plain(c), [Hole(h)]);
    PlainHasNoHoles(pre);
    PlainHasNoHoles(c);
    assert [Hole(x)][..0] == [] && [Hole(h)][..0] == [];
  }

  lemma FillTwo(vals: string -> string, x: string, h: string, s: string)
    ensures Fill(vals, [x, h], s) == ReplaceFirst(ReplaceFirst(s, Placeholder(x), vals(x)), Placeholder(h), vals(h))
  {
    assert [x, h][..1] == [x];
    assert Fill(vals, [x][..0], s) == s;
  }

  lemma TrapFirst(pre: string, x: string, rest: string, v: string)
    requires pre == "" || pre == "$"
    requires x != "" && '}' !in x
    ensures ReplaceFirst(pre + (Placeholder(x) + rest), Placeholder(x), v) == pre + (v + rest)
  {
    var s := pre + (Placeholder(x) + rest);
    if pre == "$" {
      assert s[1..][0] == '$';
      OccurrenceFits(s, x, 0);
    }
    ReplaceAt(pre, Placeholder(x), rest, v);
  }

  lemma TrapSequential(vals: string -> string, pre: string, x: string, c: string, h: string)
    requires pre == "" || pre == "$"
    requires x != "" && h != "" && '}' !in x && '}' !in h && '$' !in c
    ensures Sequential(vals, Trap(pre, x, c, h)) == ReplaceFirst(pre + (vals(x) + (c + Placeholder(h))), Placeholder(h), vals(h))
  {
    TrapScan(pre, x, c, h);
    TrapHoles(pre, x, c, h);
    FillTwo(vals, x, h, Trap(pre, x, c, h));
    TrapFirst(pre, x, c + Placeholder(h), vals(x));
  }

  lemma EarlyReplacementKeepsEnd(t: string, p: string, i: nat, v: string)
    requires OccursAt(t, p, i) && i + |p| < |t|
    ensures var r := ReplaceFirst(t, p, v); r != "" && r[|r| - 1] == t[|t| - 1]
  {
    var k := Index(t, p).value;
    assert k <= i;
    var back := t[k + |p|..];
    assert back[|back| - 1] == t[|t| - 1];
  }

  lemma EndsDiffer(front: string, h: string, q: nat, v: string)
    requires OccursAt(front, Placeholder(h), q) && v != "" && '}' !in v
    ensures ReplaceFirst(front + Placeholder(h), Placeholder(h), v) != front + v
  {
    var p := Placeholder(h);
    var t, r := front + p, front + v;
    assert t[q..q + |p|] == front[q..q + |p|];
    EarlyReplacementKeepsEnd(t, p, q, v);
    assert v[|v| - 1] in v;
    assert t[|t| - 1] == '}' && r[|r| - 1] == v[|v| - 1];
  }

  lemma TrapSprings(vals: string -> string, pre: string, x: string, c: string, h: string, q: nat)
    requires pre == "" || pre == "$"
    requires x != "" && h != "" && '}' !in x && '}' !in h && '$' !in c && vals(h) != "" && '}' !in vals(h)
    requires OccursAt((pre + vals(x)) + c, Placeholder(h), q)
    ensures Sequential(vals, Trap(pre, x, c, h)) != OnePass(vals, Trap(pre, x, c, h))
  {
    assert OnePass(vals, Trap(pre, x, c, h)) == pre + (vals(x) + (c + vals(h))) by {
      TrapScan(pre, x, c, h);
      TrapRenders(vals, pre, x, c, h);
    }
    TrapSequential(vals, pre, x, c, h);
    EndsDiffer((pre + vals(x)) + c, h, q, vals(h));
    Seqs.Assoc(pre + vals(x), c, Placeholder(h));
    Seqs.Assoc(pre, vals(x), c + Placeholder(h));
    Seqs.Assoc(pre + vals(x), c, vals(h));
    Seqs.Assoc(pre, vals(x), c + vals(h));
  }

  // ---- The resolver

  /** Node outputs by reference, and the text of a value that is not a string. */
  datatype Env = Env(lookup: string -> Option<Json>, show: Json -> string)

  function Text(env: Env, value: Json): string {
    if value.Str? then value.s else env.show(value)
  }

  /** The text an expression inside a placeholder stands for. */
  function Reference(env: Env, expr: string): Option<string> {
    if "$nodes." <= expr then
      var value := env.lookup(expr);
      if value.None? then None else Some(Text(env, value.value))
    else Some(expr)
  }

  function Values(env: Env): string -> string {
    expr => var r := Reference(env, expr); if r.None? then "" else r.value
  }

  ghost predicate Defined(env: Env, exprs: seq<string>) {
    forall i :: 0 <= i < |exprs| ==> Reference(env, exprs[i]).Some?
  }

  ghost function Interpolated(env: Env, s: string): Option<string> {
    if Defined(env, Holes(Scan(s))) then Some(Sequential(Values(env), s)) else None
  }

  ghost function StringValue(env: Env, s: string): Option<Json> {
    if "$nodes." <= s then env.lookup(s)
    else
      var r := Interpolated(env, s);
      if r.None? then None else Some(Str(r.value))
  }

  lemma {:induction false} HolesAreExprs(ps: seq<Piece>, i: nat)
    requires i < |Holes(ps)|
    ensures Hole(Holes(ps)[i]) in ps
  {
    var init := ps[..|ps| - 1];
    if i < |Holes(init)| {
      HolesAreExprs(init, i);
    }
  }

  lemma {:induction false} ExprsAreShorter(s: string, k: nat)
    requires k < |Scan(s)| && Scan(s)[k].Hole?
    ensures |Scan(s)[k].expr| < |s| && '}' !in Scan(s)[k].expr
    decreases |s|
  {
    var (p, rest) := First(s);
    if k > 0 {
      assert Scan(s)[k] == Scan(rest)[k - 1];
      ExprsAreShorter(rest, k - 1);
    }
  }

  lemma MatchesAreShorter(s: string, i: nat)
    requires i < |Holes(Scan(s))|
    ensures |Holes(Scan(s))[i]| < |s| && '}' !in Holes(Scan(s))[i]
  {
    HolesAreExprs(Scan(s), i);
    var k :| 0 <= k < |Scan(s)| && Scan(s)[k] == Hole(Holes(Scan(s))[i]);
    ExprsAreShorter(s, k);
  }

  lemma MatchHasBraces(s: string)
    ensures MatchAt(s).Some? ==> '}' in s && OccursAt(s, "${", 0)
  {
    if MatchAt(s).Some? {
      assert s[2..][|MatchAt(s).value|] == '}';
      assert s[..2] == "${";
    }
  }

  lemma {:induction false} NoMatches(s: string)
    requires '}' !in s || forall k :: 0 <= k <= |s| ==> !OccursAt(s, "${", k)
    ensures Holes(Scan(s)) == []
    decreases |s|
  {
    if s != "" {
      MatchHasBraces(s);
      var rest := s[1..];
      forall k | 0 <= k <= |rest| ensures OccursAt(rest, "${", k) ==> OccursAt(s, "${", k + 1) {
        assert k + 2 <= |rest| ==> rest[k..k + 2] == s[k + 1..k + 3];
      }
      NoMatches(s[1..]);
      HolesAppend([Char(s[0])], Scan(s[1..]));
      assert [Char(s[0])][..0] == [];
    }
  }

  /** The expression of a match holds no closing brace, so resolving it never interpolates: the
      mutual recursion is at most one level deep. */
  lemma InnerIsPlain(env: Env, expr: string)
    requires '}' !in expr
    ensures var value := StringValue(env, expr);
      Reference(env, expr) == if value.None? then None else Some(Text(env, value.value))
  {
    NoMatches(expr);
  }

  lemma UndefinedAt(env: Env, exprs: seq<string>, i: nat)
    requires i < |exprs| && Reference(env, exprs[i]).None?
    ensures !Defined(env, exprs)
  {
  }

  method ResolveString(env: Env, s: string) returns (r: Option<Json>)
    ensures r == StringValue(env, s)
    ensures "$nodes." <= s ==> r == env.lookup(s)
    ensures !("$nodes." <= s) && Index(s, "${").None? ==> r == Some(Str(s))
    decreases |s|, 1
  {
    if "$nodes." <= s {
      return env.lookup(s);
    }
    if Index(s, "${").Some? {
      var text := ResolveInterpolation(env, s);
      return if text.None? then None else Some(Str(text.value));
    }
    NoMatches(s);
    return Some(Str(s));
  }

  /** One more match resolved. */
  lemma FillNext(env: Env, matches: seq<string>, i: nat, s: string)
    requires i < |matches| && Defined(env, matches[..i]) && Reference(env, matches[i]).Some?
    ensures Defined(env, matches[..i + 1])
    ensures Fill(Values(env), matches[..i + 1], s)
         == ReplaceFirst(Fill(Values(env), matches[..i], s), Placeholder(matches[i]), Reference(env, matches[i]).value)
  {
    var done := matches[..i + 1];
    assert done[..i] == matches[..i] && done[i] == matches[i];
    forall k | 0 <= k < |done| ensures Reference(env, done[k]).Some? {
      assert k < i ==> done[k] == matches[..i][k];
    }
  }

  method ResolveInterpolation(env: Env, s: string) returns (r: Option<string>)
    ensures r == Interpolated(env, s)
    decreases |s|, 0
  {
    var result := s;
    var matches := Holes(Scan(s));
    for i := 0 to |matches|
      invariant Defined(env, matches[..i])
      invariant result == Fill(Values(env), matches[..i], s)
    {
      var expr := matches[i];
      MatchesAreShorter(s, i);
      var value := ResolveString(env, expr);
      InnerIsPlain(env, expr);
      if value.None? {
        UndefinedAt(env, matches, i);
        return None;
      }
      FillNext(env, matches, i, s);
      result := ReplaceFirst(result, Placeholder(expr), Text(env, value.value));
    }
    Seqs.Whole(matches);
    return Some(result);
  }

  /** The result of the one-pass substitution. */
  ghost function Substituted(env: Env, s: string): Option<string> {
    if Defined(env, Holes(Scan(s))) then Some(OnePass(Values(env), s)) else None
  }

  // ---- Which values make a difference

  /** Text that, right after a dollar sign, starts or may still become the start of a placeholder. */
  predicate Opens(t: string) {
    t == "" || (t[0] == '{' && (|t| == 1 || t[1] != '}'))
  }

  predicate Safe(v: string) {
    !Opens(v) && forall p :: 0 <= p < |v| && v[p] == '$' ==> !Opens(v[p + 1..])
  }

  ghost predicate HolesSafe(env: Env, ps: seq<Piece>) {
    forall k :: 0 <= k < |ps| && ps[k].Hole? ==> Safe(Values(env)(ps[k].expr))
  }

  predicate IsReference(expr: string) {
    "$nodes." <= expr
  }

  /** An expression that may stand in a template beside an unsafe value: a reference, whose value is
      free, or literal text, whose value is itself and must be safe. */
  predicate Admissible(expr: string) {
    IsReference(expr) || Safe(expr)
  }

  /** An unclosed expression that can be continued to an admissible one. */
  predicate Extensible(t: string) {
    || IsReference(t)
    || ((t == "" || t[0] != '{') && forall p :: 0 <= p < |t| - 1 && t[p] == '$' ==> t[p + 1] != '{')
  }

  predicate LiveInside(t: string) {
    var j := IndexOf(t, '}');
    if j < |t| then j > 0 && Admissible(t[..j]) else Extensible(t)
  }

  /** Text that, right after a dollar sign, makes up an admissible placeholder, or would with some
      text after it. */
  predicate Live(w: string) {
    w == "" || (w[0] == '{' && LiveInside(w[1..]))
  }

  /** Neither `v` after a dollar sign nor any dollar sign in `v` is live. */
  predicate Inert(v: string) {
    !Live(v) && forall p :: 0 <= p < |v| && v[p] == '$' ==> !Live(v[p + 1..])
  }

  lemma FitsOpens(w: string, expr: string)
    requires expr != "" && '}' !in expr && Fits(w, expr)
    ensures Opens(w)
  {
    var p := "{" + expr + "}";
    assert p[1] == expr[0] && expr[0] in expr;
  }

  lemma SafeKeeps(v: string, expr: string)
    requires Safe(v) && expr != "" && '}' !in expr
    ensures Keeps(v, expr)
  {
    if Fits(v, expr) {
      FitsOpens(v, expr);
    }
    forall p | 0 <= p < |v| && v[p] == '$' ensures !Fits(v[p + 1..], expr) {
      if Fits(v[p + 1..], expr) {
        FitsOpens(v[p + 1..], expr);
      }
    }
  }

  /** What can be continued to an admissible expression is extensible. */
  lemma AdmissibleExtends(t: string, expr: string)
    requires t <= expr && '}' !in expr && Admissible(expr)
    ensures Extensible(t)
  {
    if IsReference(expr) {
      if |t| < 7 {
        assert forall p :: 0 <= p < |t| ==> t[p] == "$nodes."[p];
      } else {
        assert t[..7] == expr[..7];
      }
    } else {
      forall p | 0 <= p < |t| - 1 && t[p] == '$' ensures t[p + 1] != '{' {
        var after := expr[p + 1..];
        assert !Opens(after) && after[0] == t[p + 1];
        assert |after| > 1 ==> after[1] == expr[p + 2] && expr[p + 2] in expr;
      }
      if t != "" {
        assert |expr| > 1 ==> expr[1] in expr;
      }
    }
  }

  lemma FitsIsLive(w: string, expr: string)
    requires expr != "" && '}' !in expr && Admissible(expr) && Fits(w, expr)
    ensures Live(w)
  {
    var p := "{" + expr + "}";
    if w != "" {
      assert w[0] == p[0];
      var t := w[1..];
      var j := IndexOf(t, '}');
      if p <= w {
        assert t == expr + ("}" + w[|p|..]);
        FirstClose(expr, w[|p|..]);
        assert t[..j] == expr;
      } else {
        assert w == p[..|w|] && |w| < |p|;
        assert t == expr[..|t|];
        NoClose(t, expr);
        AdmissibleExtends(t, expr);
      }
    }
  }

  lemma NoClose(t: string, expr: string)
    requires t <= expr && '}' !in expr
    ensures IndexOf(t, '}') == |t|
  {
    forall k | 0 <= k < |t| ensures t[k] != '}' {
      assert expr[k] in expr;
    }
  }

  lemma InertKeeps(v: string, expr: string)
    requires Inert(v) && expr != "" && '}' !in expr && Admissible(expr)
    ensures Keeps(v, expr)
  {
    if Fits(v, expr) {
      FitsIsLive(v, expr);
    }
    forall p | 0 <= p < |v| && v[p] == '$' ensures !Fits(v[p + 1..], expr) {
      if Fits(v[p + 1..], expr) {
        FitsIsLive(v[p + 1..], expr);
      }
    }
  }

  /** The Go loop computes what the one-pass substitution computes, on every template whose
      placeholders stand for safe text. */
  lemma InterpolationIsOnePass(env: Env, s: string)
    requires HolesSafe(env, Scan(s))
    ensures Interpolated(env, s) == Substituted(env, s)
  {
    var ps := Scan(s);
    forall j | 0 <= j < |ps| && ps[j].Hole? ensures AllKeep(Values(env), ps, ps[j].expr) {
      ExprsAreNames(s, j);
      forall k | 0 <= k < |ps| && ps[k].Hole? ensures Keeps(Values(env)(ps[k].expr), ps[j].expr) {
        SafeKeeps(Values(env)(ps[k].expr), ps[j].expr);
      }
    }
    SequentialIsOnePass(Values(env), s);
  }

  lemma {:induction false} ExprsAreNames(s: string, k: nat)
    requires k < |Scan(s)| && Scan(s)[k].Hole?
    ensures Scan(s)[k].expr != "" && '}' !in Scan(s)[k].expr
    decreases |s|
  {
    var (p, rest) := First(s);
    if k > 0 {
      assert Scan(s)[k] == Scan(rest)[k - 1];
      ExprsAreNames(rest, k - 1);
    }
  }

  /** Every placeholder other than that of `x` stands for safe text. */
  ghost predicate OthersSafe(env: Env, x: string, ps: seq<Piece>) {
    forall k :: 0 <= k < |ps| && ps[k].Hole? && ps[k].expr != x ==> Safe(Values(env)(ps[k].expr))
  }

  lemma InertIsHarmless(env: Env, x: string, s: string)
    requires IsReference(x) && Inert(Values(env)(x)) && OthersSafe(env, x, Scan(s))
    ensures Interpolated(env, s) == Substituted(env, s)
  {
    var ps, vals := Scan(s), Values(env);
    forall j | 0 <= j < |ps| && ps[j].Hole? ensures AllKeep(vals, ps, ps[j].expr) {
      var h := ps[j].expr;
      ExprsAreNames(s, j);
      assert Admissible(h);
      forall k | 0 <= k < |ps| && ps[k].Hole? ensures Keeps(vals(ps[k].expr), h) {
        if ps[k].expr == x {
          InertKeeps(vals(x), h);
        } else {
          SafeKeeps(vals(ps[k].expr), h);
        }
      }
    }
    SequentialIsOnePass(vals, s);
  }

  // ---- Every other value does

  lemma ReferenceEarly(t: string)
    ensures IsReference(t + "y") ==> IsReference(t)
  {
    var h := t + "y";
    if IsReference(h) {
      assert h[..7] == "$nodes." && h[6] == '.';
      assert t[..7] == h[..7];
    }
  }

  lemma SafeExtension(t: string)
    requires !IsReference(t) && Extensible(t) && '}' !in t
    ensures Safe(t + "y") && !IsReference(t + "y")
  {
    var h := t + "y";
    ReferenceEarly(t);
    forall p | 0 <= p < |h| && h[p] == '$' ensures !Opens(h[p + 1..]) {
      assert h[p + 1..][0] == h[p + 1];
    }
  }

  /** Live text can be completed to an admissible placeholder. */
  lemma Completion(w: string) returns (c: string, h: string)
    requires Live(w)
    ensures h != "" && '}' !in h && '$' !in c && Admissible(h) && "{" + h + "}" <= w + c
  {
    if w == "" {
      c, h := "{y}", "y";
    } else {
      var t := w[1..];
      var j := IndexOf(t, '}');
      assert w == "{" + t;
      if j < |t| {
        c, h := "", t[..j];
        assert t == t[..j] + ("}" + t[j + 1..]);
      } else {
        c, h := "y}", t + "y";
        assert '}' !in t;
        if IsReference(t) {
          assert h[..7] == t[..7];
        } else {
          SafeExtension(t);
        }
      }
    }
  }

  ghost predicate Spot(front: string, q: nat, w: string) {
    q < |front| && front[q..] == "$" + w
  }

  lemma SpotInside(v: string, p: nat)
    requires p < |v| && v[p] == '$'
    ensures Spot("" + v, p, v[p + 1..])
  {
    assert "" + v == v;
    assert v[p..] == "$" + v[p + 1..];
  }

  /** Where a value, after an empty or a dollar prefix, has a live dollar sign. */
  lemma LiveSpot(v: string) returns (pre: string, q: nat, w: string)
    requires !Inert(v)
    ensures (pre == "" || pre == "$") && Spot(pre + v, q, w) && Live(w)
  {
    if Live(v) {
      pre, q, w := "$", 0, v;
    } else {
      var p :| 0 <= p < |v| && v[p] == '$' && Live(v[p + 1..]);
      SpotInside(v, p);
      pre, q, w := "", p, v[p + 1..];
    }
  }

  lemma TrapIsSet(front: string, c: string, h: string, q: nat, w: string)
    requires Spot(front, q, w) && "{" + h + "}" <= w + c
    ensures OccursAt(front + c, Placeholder(h), q)
  {
    var t, p := front + c, Placeholder(h);
    assert t[q..] == "$" + (w + c);
    assert p == "$" + ("{" + h + "}");
    assert p <= t[q..];
    assert t[q..q + |p|] == t[q..][..|p|];
  }

  /** One node output is `v`, every other is "1". */
  function TrapEnv(x: string, v: string): Env {
    Env(e => Some(Str(if e == x then v else "1")), _ => "")
  }

  lemma TrapEnvValues(x: string, v: string, h: string)
    requires IsReference(x) && h != x && h != "" && '}' !in h && Admissible(h)
    ensures var vals := Values(TrapEnv(x, v));
      vals(x) == v && vals(h) != "" && '}' !in vals(h) && Safe(vals(h))
  {
    assert Safe("1");
  }

  lemma TrapOthersSafe(env: Env, pre: string, x: string, c: string, h: string)
    requires Safe(Values(env)(h))
    ensures OthersSafe(env, x, TrapPieces(pre, x, c, h))
  {
    PlainIsPlain(pre);
    PlainIsPlain(c);
  }

  lemma {:induction false} PlainIsPlain(t: string)
    ensures forall k :: 0 <= k < |Plain(t)| ==> Plain(t)[k].Char?
  {
    if t != "" {
      PlainIsPlain(t[1..]);
    }
  }

  lemma LongReference(h: string) returns (x: string)
    requires '}' !in h
    ensures IsReference(x) && x != h && x != "" && '}' !in x
  {
    x := "$nodes." + h;
    assert |x| == 7 + |h|;
  }

  lemma TrapBreaks(v: string, pre: string, q: nat, w: string, c: string, h: string, x: string)
    requires (pre == "" || pre == "$") && Spot(pre + v, q, w) && "{" + h + "}" <= w + c
    requires h != "" && '}' !in h && '$' !in c && Admissible(h) && IsReference(x) && x != h && x != "" && '}' !in x
    ensures var env, s := TrapEnv(x, v), Trap(pre, x, c, h);
      && Reference(env, x) == Some(v) && OthersSafe(env, x, Scan(s))
      && !IsReference(s) && Interpolated(env, s) != Substituted(env, s)
  {
    TrapEnvValues(x, v, h);
    TrapIsSet(pre + v, c, h, q, w);
    TrapDiffers(TrapEnv(x, v), pre, x, c, h, q);
  }

  /** Every value that is not inert is some node's output in an environment where the two
      substitutions differ, although all other placeholders of the template are safe. */
  lemma LiveValueBreaks(v: string) returns (env: Env, x: string, s: string)
    requires !Inert(v)
    ensures IsReference(x) && Reference(env, x) == Some(v) && OthersSafe(env, x, Scan(s))
    ensures !IsReference(s) && Interpolated(env, s) != Substituted(env, s)
  {
    var pre, q, w := LiveSpot(v);
    var c, h := Completion(w);
    x := LongReference(h);
    TrapBreaks(v, pre, q, w, c, h, x);
    env, s := TrapEnv(x, v), Trap(pre, x, c, h);
  }

  lemma TrapDiffers(env: Env, pre: string, x: string, c: string, h: string, q: nat)
    requires pre == "" || pre == "$"
    requires x != "" && h != "" && '}' !in x && '}' !in h && '$' !in c
    requires Reference(env, x).Some? && Reference(env, h).Some?
    requires Values(env)(h) != "" && '}' !in Values(env)(h) && Safe(Values(env)(h))
    requires OccursAt((pre + Values(env)(x)) + c, Placeholder(h), q)
    ensures var s := Trap(pre, x, c, h);
      !IsReference(s) && OthersSafe(env, x, Scan(s)) && Interpolated(env, s) != Substituted(env, s)
  {
    var s := Trap(pre, x, c, h);
    assert Sequential(Values(env), s) != OnePass(Values(env), s) by {
      TrapSprings(Values(env), pre, x, c, h, q);
    }
    TrapShape(env, pre, x, c, h);
    TrapIsNoReference(pre, x, c, h);
  }

  lemma TrapShape(env: Env, pre: string, x: string, c: string, h: string)
    requires pre == "" || pre == "$"
    requires x != "" && h != "" && '}' !in x && '}' !in h && '$' !in c && Safe(Values(env)(h))
    requires Reference(env, x).Some? && Reference(env, h).Some?
    ensures var s := Trap(pre, x, c, h); OthersSafe(env, x, Scan(s)) && Defined(env, Holes(Scan(s)))
  {
    TrapScan(pre, x, c, h);
    TrapHoles(pre, x, c, h);
    TrapOthersSafe(env, pre, x, c, h);
  }

  lemma TrapIsNoReference(pre: string, x: string, c: string, h: string)
    requires pre == "" || pre == "$"
    ensures !IsReference(Trap(pre, x, c, h))
  {
    NotPrefix("$nodes.", Trap(pre, x, c, h), 1);
  }

  /** Inert values are exactly the node outputs that no template with otherwise safe placeholders can
      tell apart from a one-pass substitution. */
  lemma InertExactly(v: string)
    ensures Inert(v) <==> forall env: Env, x: string, s: string ::
      IsReference(x) && Reference(env, x) == Some(v) && OthersSafe(env, x, Scan(s)) ==> Interpolated(env, s) == Substituted(env, s)
  {
    if Inert(v) {
      forall env: Env, x: string, s: string
        ensures IsReference(x) && Reference(env, x) == Some(v) && OthersSafe(env, x, Scan(s)) ==> Interpolated(env, s) == Substituted(env, s)
      {
        if IsReference(x) && Reference(env, x) == Some(v) && OthersSafe(env, x, Scan(s)) {
          InertIsHarmless(env, x, s);
        }
      }
    } else {
      var env, x, s := LiveValueBreaks(v);
    }
  }

  /** The only open dollar sign closes around a literal expression that is itself unsafe. */
  function Nested(): string {
    Placeholder("{a")
  }

  /** Safe values are inert, and some unsafe ones are too. */
  lemma SafeIsInert(v: string)
    ensures Safe(v) ==> Inert(v)
    ensures !Safe(Nested()) && Inert(Nested())
  {
    var u := Nested();
    assert u == "${{a}";
    assert u[0 + 1..] == "{{a}" && Opens(u[0 + 1..]);
    var t := "{{a}"[1..];
    assert t == "{a" + ("}" + "") && t[..2] == "{a";
    FirstClose("{a", "");
    assert Opens("{a") && !Admissible("{a");
  }
}
