/** What the patcher's operations mean, in terms of operation names, paths and the elements of the
    collections, and what the strings in a patch stand for. */
module PatchMeaning {
  import opened Wrappers
  import opened Json
  import opened WorkflowPatch

  // ---- Splitting and joining

  function Join(parts: seq<string>, c: char): string
    requires parts != []
  {
    if |parts| == 1 then parts[0] else parts[0] + [c] + Join(parts[1..], c)
  }

  lemma {:induction false} SplitJoins(s: string, c: char)
    ensures Join(Split(s, c), c) == s
    ensures forall p :: p in Split(s, c) ==> c !in p
  {
    if s != "" {
      var rest := Split(s[1..], c);
      SplitJoins(s[1..], c);
      assert rest == [rest[0]] + rest[1..];
      if s[0] == c {
        assert ([""] + rest)[1..] == rest;
        assert "" + [c] + s[1..] == s;
      } else {
        var head := [s[0]] + rest[0];
        assert ([head] + rest[1..])[1..] == rest[1..];
        assert [s[0]] + s[1..] == s;
        if |rest| > 1 {
          assert [s[0]] + (rest[0] + [c] + Join(rest[1..], c)) == head + [c] + Join(rest[1..], c);
        }
      }
    }
  }

  lemma {:induction false} JoinSplits(parts: seq<string>, c: char)
    requires parts != [] && forall p :: p in parts ==> c !in p
    ensures Split(Join(parts, c), c) == parts
  {
    if |parts| == 1 {
      SplitPlain(parts[0], c);
    } else {
      JoinSplits(parts[1..], c);
      SplitFirst(parts[0], Join(parts[1..], c), c);
      assert parts == [parts[0]] + parts[1..];
    }
  }

  // ---- Pointers

  function Escape(t: string): string {
    if t == "" then "" else (if t[0] == '~' then "~0" else if t[0] == '/' then "~1" else [t[0]]) + Escape(t[1..])
  }

  lemma {:induction false} EscapeRoundTrip(t: string)
    ensures Unescape(Escape(t)) == Some(t) && '/' !in Escape(t)
  {
    if t != "" {
      EscapeRoundTrip(t[1..]);
      var rest, all := Escape(t[1..]), Escape(t);
      assert t == [t[0]] + t[1..];
      if t[0] == '~' || t[0] == '/' {
        assert all[0] == '~' && all[2..] == rest;
      } else {
        assert all[1..] == rest;
      }
    }
  }

  function EscapeAll(ts: seq<string>): (es: seq<string>)
    ensures |es| == |ts|
  {
    if ts == [] then [] else [Escape(ts[0])] + EscapeAll(ts[1..])
  }

  lemma {:induction false} EscapeAllRoundTrip(ts: seq<string>)
    ensures UnescapeAll(EscapeAll(ts)) == Some(ts) && forall e :: e in EscapeAll(ts) ==> '/' !in e
  {
    if ts != [] {
      EscapeRoundTrip(ts[0]);
      EscapeAllRoundTrip(ts[1..]);
      assert EscapeAll(ts)[1..] == EscapeAll(ts[1..]);
      assert ts == [ts[0]] + ts[1..];
    }
  }

  /** The pointer of section 3 of RFC 6901 that addresses these reference tokens. */
  function PointerText(ts: seq<string>): string {
    if ts == [] then "" else "/" + Join(EscapeAll(ts), '/')
  }

  lemma PointerRoundTrip(ts: seq<string>)
    ensures Pointer(PointerText(ts)) == Some(ts)
  {
    if ts != [] {
      var path := PointerText(ts);
      EscapeAllRoundTrip(ts);
      JoinSplits(EscapeAll(ts), '/');
      assert path[0] == '/' && path[1..] == Join(EscapeAll(ts), '/');
    }
  }

  // ---- Decimal numbers

  /** The decimal spelling of a number. */
  function Digits(n: nat): (s: string)
    ensures s != "" && AllDigits(s)
  {
    if n < 10 then [DigitChar(n)] else Digits(n / 10) + [DigitChar(n % 10)]
  }

  function DigitChar(d: nat): (c: char)
    requires d < 10
    ensures Digit(c)
  {
    "0123456789"[d]
  }

  lemma DigitValue(d: nat)
    requires d < 10
    ensures (DigitChar(d) - '0') as nat == d
  {
  }

  lemma DecimalSnoc(s: string, c: char)
    requires AllDigits(s) && Digit(c)
    ensures AllDigits(s + [c]) && Decimal(s + [c]) == 10 * Decimal(s) + (c - '0') as nat
  {
    var t := s + [c];
    assert AllDigits(t);
    assert t[..|t| - 1] == s && t[|t| - 1] == c;
  }

  lemma {:induction false} DigitsRoundTrip(n: nat)
    ensures Decimal(Digits(n)) == n && CanonicalIndex(Digits(n)) && (n > 0 ==> Digits(n)[0] != '0')
  {
    if n < 10 {
      DigitValue(n);
      DecimalSnoc("", DigitChar(n));
      assert "" + [DigitChar(n)] == Digits(n) && Decimal("") == 0;
    } else {
      DigitsRoundTrip(n / 10);
      DigitValue(n % 10);
      DecimalSnoc(Digits(n / 10), DigitChar(n % 10));
    }
  }

  lemma CharOfDigit(c: char)
    requires Digit(c)
    ensures (c - '0') as nat < 10 && DigitChar((c - '0') as nat) == c
  {
  }

  lemma {:induction false} PositiveDecimal(t: string)
    requires t != "" && AllDigits(t) && t[0] != '0'
    ensures Decimal(t) > 0
  {
    var init := t[..|t| - 1];
    assert t == init + [t[|t| - 1]] && t[|t| - 1] in t;
    assert AllDigits(init);
    if init != "" {
      PositiveDecimal(init);
    } else {
      CharOfDigit(t[0]);
    }
  }

  lemma DigitsSnoc(n: nat, d: nat, m: nat)
    requires n > 0 && d < 10 && m == 10 * n + d
    ensures Digits(m) == Digits(n) + [DigitChar(d)]
  {
    assert m / 10 == n && m % 10 == d;
  }

  lemma OneDigit(c: char)
    requires Digit(c)
    ensures AllDigits([c]) && Digits(Decimal([c])) == [c]
  {
    CharOfDigit(c);
    DecimalSnoc("", c);
    assert "" + [c] == [c] && Decimal("") == 0;
  }

  lemma MoreDigits(s: string, c: char)
    requires AllDigits(s) && Digit(c) && Decimal(s) > 0 && Digits(Decimal(s)) == s
    ensures AllDigits(s + [c]) && Digits(Decimal(s + [c])) == s + [c]
  {
    var n, d := Decimal(s), (c - '0') as nat;
    assert DigitChar(d) == c by {
      CharOfDigit(c);
    }
    DecimalSnoc(s, c);
    DigitsSnoc(n, d, Decimal(s + [c]));
  }

  /** Canonical indexes are exactly the decimal spellings. */
  lemma {:induction false} CanonicalIsDigits(t: string)
    requires CanonicalIndex(t)
    ensures Digits(Decimal(t)) == t
  {
    var init, c := t[..|t| - 1], t[|t| - 1];
    assert t == init + [c];
    assert c in t && forall d :: d in init ==> d in t;
    if init == "" {
      assert t == [c];
      OneDigit(c);
    } else {
      assert init[0] == t[0] && CanonicalIndex(init);
      PositiveDecimal(init);
      CanonicalIsDigits(init);
      MoreDigits(init, c);
    }
  }

  lemma AtoiPlain(t: string)
    requires t != "" && AllDigits(t)
    ensures Atoi(t) == if Decimal(t) <= MAX_INT then Some(Decimal(t)) else None
  {
    assert t[0] in t;
  }

  lemma AtoiSigned(t: string)
    requires t != "" && AllDigits(t)
    ensures Atoi("+" + t) == if Decimal(t) <= MAX_INT then Some(Decimal(t)) else None
    ensures var n: int := Decimal(t); Atoi("-" + t) == if n <= MAX_INT + 1 then Some(-n) else None
  {
    assert ("+" + t)[1..] == t && ("-" + t)[1..] == t;
  }

  lemma AtoiReadsDigits(n: nat)
    ensures Atoi(Digits(n)) == if n <= MAX_INT then Some(n) else None
    ensures Atoi("+" + Digits(n)) == if n <= MAX_INT then Some(n) else None
    ensures var m: int := n; Atoi("-" + Digits(n)) == if m <= MAX_INT + 1 then Some(-m) else None
  {
    var t := Digits(n);
    assert Decimal(t) == n by {
      DigitsRoundTrip(n);
    }
    AtoiPlain(t);
    AtoiSigned(t);
  }

  // ---- Operations

  ghost predicate Addresses(path: string, key: string, index: string) {
    && (key == "nodes" || key == "edges") && '/' !in index
    && (path == "/" + key + "/" + index || path == key + "/" + index)
  }

  lemma AddressSplits(path: string, key: string, index: string)
    requires Addresses(path, key, index)
    ensures Split(TrimSlash(path), '/') == [key, index]
  {
    assert ("/" + key + "/" + index)[1..] == key + ['/'] + index;
    assert key + "/" + index == key + ['/'] + index;
    SplitFirst(key, index, '/');
    SplitPlain(index, '/');
    assert (key + "/" + index)[0] == key[0];
  }

  /** The document with only one collection changed. */
  ghost predicate ChangesOnly(d: Doc, d': Doc, key: string) {
    d'.Keys == d.Keys + {key} && forall k :: k in d && k != key ==> d'[k] == d[k]
  }

  /** A replace writes the value member at the index, keeps every other element in its place and
      leaves the rest of the document alone. */
  lemma ReplaceMeaning(d: Doc, op: RawOp, path: string, key: string, index: string, i: nat)
    requires Text(op, "op") == Some("replace") && Text(op, "path") == Some(path) && Addresses(path, key, index)
    requires Atoi(index) == Some(i) && ArrayAt(d, key) && i < |d[key].items|
    ensures PatchStep(d, op).Some? && ChangesOnly(d, PatchStep(d, op).value, key)
    ensures var old', new' := d[key], PatchStep(d, op).value[key];
      && new'.Arr? && |new'.items| == |old'.items|
      && new'.items[i] == (if "value" in op then op["value"] else Null)
      && forall j :: 0 <= j < |old'.items| && j != i ==> new'.items[j] == old'.items[j]
  {
    AddressSplits(path, key, index);
  }

  /** A remove takes out the element at the index and moves the later ones down by one. */
  lemma RemoveMeaning(d: Doc, op: RawOp, path: string, key: string, index: string, i: nat)
    requires Text(op, "op") == Some("remove") && Text(op, "path") == Some(path) && Addresses(path, key, index)
    requires Atoi(index) == Some(i) && ArrayAt(d, key) && i < |d[key].items|
    ensures PatchStep(d, op).Some? && ChangesOnly(d, PatchStep(d, op).value, key)
    ensures var old', new' := d[key], PatchStep(d, op).value[key];
      && new'.Arr? && |new'.items| == |old'.items| - 1
      && (forall j :: 0 <= j < i ==> new'.items[j] == old'.items[j])
      && (forall j :: i <= j < |new'.items| ==> new'.items[j] == old'.items[j + 1])
  {
    AddressSplits(path, key, index);
  }

  /** An add keeps every element of an array and puts the value member behind them; what is no array
      is replaced. */
  lemma AddMeaning(d: Doc, op: RawOp, key: string)
    requires Text(op, "op") == Some("add") && Text(op, "path") == Some("/" + key + "/-") && (key == "nodes" || key == "edges")
    ensures PatchStep(d, op).Some? && ChangesOnly(d, PatchStep(d, op).value, key)
    ensures var n, new' := if ArrayAt(d, key) then |d[key].items| else 0, PatchStep(d, op).value[key];
      && new'.Arr? && |new'.items| == n + 1
      && new'.items[n] == (if "value" in op then op["value"] else Null)
      && forall j :: 0 <= j < n ==> new'.items[j] == d[key].items[j]
  {
    AddAgrees(d, op, key);
  }

  lemma AddressesSplit(path: string)
    requires Address(path).Some? && (Address(path).value.0 == "nodes" || Address(path).value.0 == "edges")
    ensures var parts := Split(TrimSlash(path), '/'); |parts| == 2 && Addresses(path, parts[0], parts[1])
  {
    var parts := Split(TrimSlash(path), '/');
    SplitJoins(TrimSlash(path), '/');
    assert parts == [parts[0], parts[1]] && parts[1..] == [parts[1]];
    assert TrimSlash(path) == parts[0] + "/" + parts[1];
    assert parts[1] in parts;
    if path[0] == '/' {
      assert path == "/" + TrimSlash(path);
    }
  }

  /** Exactly these operations are accepted: an add at the end of a collection, and a remove or replace
      of an existing element. */
  lemma AcceptedIff(d: Doc, op: RawOp)
    ensures PatchStep(d, op).Some? <==>
      || (Text(op, "op") == Some("add") && (Text(op, "path") == Some("/nodes/-") || Text(op, "path") == Some("/edges/-")))
      || ((Text(op, "op") == Some("remove") || Text(op, "op") == Some("replace")) && Text(op, "path").Some?
          && exists key, index :: Addresses(Text(op, "path").value, key, index) && ArrayAt(d, key)
               && Atoi(index).Some? && 0 <= Atoi(index).value < |d[key].items|)
  {
    if (Text(op, "op") == Some("remove") || Text(op, "op") == Some("replace")) && Text(op, "path").Some? {
      var path := Text(op, "path").value;
      if PatchStep(d, op).Some? {
        AddressesSplit(path);
      }
      forall key, index | Addresses(path, key, index) ensures Split(TrimSlash(path), '/') == [key, index] {
        AddressSplits(path, key, index);
      }
    }
  }
}
