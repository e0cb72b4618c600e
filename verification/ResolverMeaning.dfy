/** What interpolation means without the code's own vocabulary: which texts match the pattern, why there
    is only one way to read a template, and what a template with one placeholder resolves to. */
module ResolverMeaning {
  import opened Wrappers
  import opened Json
  import opened Resolver

  /** The pattern matches at the start of a text exactly when the text starts with a dollar sign, an
      opening brace, the expression and a closing brace, and the expression is non-empty without one. */
  lemma MatchIff(s: string, e: string)
    ensures MatchAt(s) == Some(e) <==> e != "" && '}' !in e && "${" + e + "}" <= s
  {
    var p := "${" + e + "}";
    if MatchAt(s) == Some(e) {
      var j := IndexOf(s[2..], '}');
      assert s[2..][j] == s[2 + j] == '}';
      assert s[..|p|] == p;
    }
    if e != "" && '}' !in e && p <= s {
      var rest := s[|p|..];
      assert s == p + rest;
      assert s[2..] == e + ("}" + rest);
      FirstClose(e, rest);
      assert s[2..2 + |e|] == e;
    }
  }

  lemma FirstOfRaw(p: Piece, rest: seq<Piece>)
    requires IsScan([p] + rest)
    ensures First(RawPiece(p) + Raw(rest)) == (p, Raw(rest))
  {
    var s := RawPiece(p) + Raw(rest);
    assert ([p] + rest)[1..] == rest;
    if p.Hole? {
      assert "${" + p.expr + "}" <= s;
      MatchIff(s, p.expr);
      assert s[|p.expr| + 3..] == Raw(rest);
    } else {
      assert s[1..] == Raw(rest);
    }
  }

  /** There is exactly one way to read a template. */
  lemma {:induction false} ScanIsUnique(ps: seq<Piece>)
    requires IsScan(ps)
    ensures Scan(Raw(ps)) == ps
  {
    if ps != [] {
      var rest := ps[1..];
      assert ps == [ps[0]] + rest;
      FirstOfRaw(ps[0], rest);
      ScanIsUnique(rest);
    }
  }

  lemma OneHole(a: string, x: string, b: string)
    requires '$' !in a && '$' !in b && x != "" && '}' !in x
    ensures Holes(Scan(a + (Placeholder(x) + b))) == [x]
  {
    ScanPlain(b, "");
    assert b + "" == b && Scan("") == [];
    assert Plain(b) + [] == Plain(b);
    ScanHole(x, b);
    ScanPlain(a, Placeholder(x) + b);
    HolesAppend(Plain(a), [Hole(x)] + Plain(b));
    HolesAppend([Hole(x)], Plain(b));
    PlainHasNoHoles(a);
    PlainHasNoHoles(b);
    assert [Hole(x)][..0] == [];
  }

  lemma OccurrenceStarts(s: string, p: string, i: nat)
    requires p != ""
    ensures OccursAt(s, p, i) ==> s[i] == p[0]
  {
    if OccursAt(s, p, i) {
      assert s[i..i + |p|][0] == p[0];
    }
  }

  lemma OneFill(vals: string -> string, a: string, x: string, b: string)
    requires '$' !in a
    ensures Fill(vals, [x], a + (Placeholder(x) + b)) == a + (vals(x) + b)
  {
    var s := a + (Placeholder(x) + b);
    assert [x][..0] == [] && Fill(vals, [], s) == s;
    forall i | 0 <= i < |a| ensures !OccursAt(s, Placeholder(x), i) {
      assert a[i] in a;
      OccurrenceStarts(s, Placeholder(x), i);
    }
    ReplaceAt(a, Placeholder(x), b, vals(x));
  }

  /** A template with one placeholder: a reference is replaced by the node's output as text, anything
      else by itself, and an unknown reference is an error; the text around it stays. */
  lemma OnePlaceholder(env: Env, a: string, x: string, b: string)
    requires '$' !in a && '$' !in b && x != "" && '}' !in x
    ensures var r := Interpolated(env, a + ("${" + x + "}" + b));
      if !("$nodes." <= x) then r == Some(a + (x + b))
      else match env.lookup(x)
        case None => r == None
        case Some(Str(v)) => r == Some(a + (v + b))
        case Some(v) => r == Some(a + (env.show(v) + b))
  {
    OneHole(a, x, b);
    OneFill(Values(env), a, x, b);
  }
}
