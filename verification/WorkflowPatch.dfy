/** The handler-side patcher (cmd/orchestrator/handlers/workflow_patch.go) and the standard it
    follows: JSON Patch add, remove and replace (sections 4.1 to 4.3 of RFC 6902) with JSON
    Pointers (RFC 6901). */
module WorkflowPatch {
  import opened Wrappers
  import opened Json
  import Seqs

  type Doc = map<string, Json>

  // ---- Strings

  function Digit(c: char): bool {
    '0' <= c <= '9'
  }

  predicate AllDigits(s: string) {
    forall c :: c in s ==> Digit(c)
  }

  function Decimal(s: string): nat
    requires AllDigits(s)
  {
    if s == "" then 0
    else
      assert s[|s| - 1] in s;
      10 * Decimal(s[..|s| - 1]) + (s[|s| - 1] - '0') as nat
  }

  /** strings.Split with a one-character separator. */
  function Split(s: string, c: char): (parts: seq<string>)
    ensures |parts| >= 1
  {
    if s == "" then [""]
    else
      var rest := Split(s[1..], c);
      if s[0] == c then [""] + rest else [[s[0]] + rest[0]] + rest[1..]
  }

  // ---- RFC 6901: pointers

  /** "~1" stands for "/" and "~0" for "~"; any other use of "~" is malformed. */
  function Unescape(t: string): Option<string> {
    if t == "" then Some("")
    else if t[0] != '~' then
      var rest := Unescape(t[1..]);
      if rest.None? then None else Some([t[0]] + rest.value)
    else if |t| >= 2 && (t[1] == '0' || t[1] == '1') then
      var rest := Unescape(t[2..]);
      if rest.None? then None else Some([if t[1] == '1' then '/' else '~'] + rest.value)
    else None
  }

  function UnescapeAll(ts: seq<string>): Option<seq<string>> {
    if ts == [] then Some([])
    else
      var head, rest := Unescape(ts[0]), UnescapeAll(ts[1..]);
      if head.None? || rest.None? then None else Some([head.value] + rest.value)
  }

  /** The reference tokens of a pointer: empty, or a sequence of "/"-prefixed tokens. */
  function Pointer(path: string): Option<seq<string>> {
    if path == "" then Some([])
    else if path[0] != '/' then None
    else UnescapeAll(Split(path[1..], '/'))
  }

  /** An array index is "0" or digits without a leading zero. */
  predicate CanonicalIndex(t: string) {
    t != "" && AllDigits(t) && (t == "0" || t[0] != '0')
  }

  // ---- RFC 6902: operations on a JSON value

  function Insert(items: seq<Json>, i: nat, v: Json): seq<Json>
    requires i <= |items|
  {
    items[..i] + [v] + items[i..]
  }

  function Remove(items: seq<Json>, i: nat): seq<Json>
    requires i < |items|
  {
    items[..i] + items[i + 1..]
  }

  datatype Operation = AddOp(value: Json) | RemoveOp | ReplaceOp(value: Json)

  /** The operation at the last token, inside its parent. */
  function RfcAtParent(j: Json, t: string, op: Operation): Option<Json> {
    match j
    case Obj(fields) => (
      match op
      case AddOp(v) => Some(Obj(fields[t := v]))
      case RemoveOp => if t in fields then Some(Obj(fields - {t})) else None
      case ReplaceOp(v) => if t in fields then Some(Obj(fields[t := v])) else None
    )
    case Arr(items) =>
      if op.AddOp? && t == "-" then Some(Arr(items + [op.value]))
      else if !CanonicalIndex(t) then None
      else (
        var i := Decimal(t);
        match op
        case AddOp(v) => if i <= |items| then Some(Arr(Insert(items, i, v))) else None
        case RemoveOp => if i < |items| then Some(Arr(Remove(items, i))) else None
        case ReplaceOp(v) => if i < |items| then Some(Arr(items[i := v])) else None
      )
    case _ => None
  }

  function RfcApply(j: Json, ts: seq<string>, op: Operation): Option<Json>
    decreases |ts|
  {
    if ts == [] then (if op.RemoveOp? then None else Some(op.value))
    else if |ts| == 1 then RfcAtParent(j, ts[0], op)
    else
      match j
      case Obj(fields) =>
        if ts[0] !in fields then None
        else
          var r := RfcApply(fields[ts[0]], ts[1..], op);
          if r.None? then None else Some(Obj(fields[ts[0] := r.value]))
      case Arr(items) =>
        if !CanonicalIndex(ts[0]) || Decimal(ts[0]) >= |items| then None
        else
          var r := RfcApply(items[Decimal(ts[0])], ts[1..], op);
          if r.None? then None else Some(Arr(items[Decimal(ts[0]) := r.value]))
      case _ => None
  }

  /** The raw operation object of a patch. */
  type RawOp = map<string, Json>

  function Text(op: RawOp, key: string): Option<string> {
    if key in op && op[key].Str? then Some(op[key].s) else None
  }

  /** The patcher reads a missing value as nil. */
  function Value(op: RawOp): Json {
    if "value" in op then op["value"] else Null
  }

  function Kind(op: RawOp): Option<Operation> {
    match Text(op, "op")
    case None => None
    case Some(name) =>
      if name == "add" then Some(AddOp(Value(op)))
      else if name == "remove" then Some(RemoveOp)
      else if name == "replace" then Some(ReplaceOp(Value(op)))
      else None
  }

  /** The operation as the standard reads it: add and replace must have a value member. */
  function RfcOperation(op: RawOp): Option<Operation> {
    if "op" !in op then None
    else if op["op"] == Str("remove") then Some(RemoveOp)
    else if "value" !in op then None
    else if op["op"] == Str("add") then Some(AddOp(op["value"]))
    else if op["op"] == Str("replace") then Some(ReplaceOp(op["value"]))
    else None
  }

  /** One operation of the standard on the whole document. */
  function RfcStep(d: Doc, op: RawOp): Option<Json> {
    if RfcOperation(op).None? || "path" !in op || !op["path"].Str? || Pointer(op["path"].s).None? then None
    else RfcApply(Obj(d), Pointer(op["path"].s).value, RfcOperation(op).value)
  }

  // ---- What the handler's patcher computes

  const MAX_INT := 0x7fff_ffff_ffff_ffff

  /** strconv.Atoi: an optional sign and decimal digits, within the 64-bit range. */
  function Atoi(s: string): Option<int> {
    var digits := if s != "" && (s[0] == '+' || s[0] == '-') then s[1..] else s;
    if digits == "" || !AllDigits(digits) then None
    else
      var n: int := Decimal(digits);
      if s[0] == '-' then (if n <= MAX_INT + 1 then Some(-n) else None)
      else (if n <= MAX_INT then Some(n) else None)
  }

  function TrimSlash(path: string): string {
    if path != "" && path[0] == '/' then path[1..] else path
  }

  function Items(d: Doc, key: string): seq<Json> {
    if key in d && d[key].Arr? then d[key].items else []
  }

  /** Collection and index addressed by a remove or replace path. */
  function Address(path: string): Option<(string, int)> {
    var parts := Split(TrimSlash(path), '/');
    if |parts| != 2 || Atoi(parts[1]).None? then None else Some((parts[0], Atoi(parts[1]).value))
  }

  predicate InRange(d: Doc, key: string, i: int) {
    (key == "nodes" || key == "edges") && key in d && d[key].Arr? && 0 <= i < |d[key].items|
  }

  function PatchStep(d: Doc, op: RawOp): Option<Doc> {
    if Text(op, "path").None? || Kind(op).None? then None
    else
      var path := Text(op, "path").value;
      match Kind(op).value
      case AddOp(v) =>
        if path == "/nodes/-" then Some(d["nodes" := Arr(Items(d, "nodes") + [v])])
        else if path == "/edges/-" then Some(d["edges" := Arr(Items(d, "edges") + [v])])
        else None
      case RemoveOp =>
        if Address(path).None? then None
        else
          var (key, i) := Address(path).value;
          if InRange(d, key, i) then Some(d[key := Arr(Remove(d[key].items, i))]) else None
      case ReplaceOp(v) =>
        if Address(path).None? then None
        else
          var (key, i) := Address(path).value;
          if InRange(d, key, i) then Some(d[key := Arr(d[key].items[i := v])]) else None
  }

  function PatchAll(d: Doc, ops: seq<RawOp>): Option<Doc> {
    if ops == [] then Some(d)
    else
      var r := PatchAll(d, ops[..|ops| - 1]);
      if r.None? then None else PatchStep(r.value, ops[|ops| - 1])
  }

  ghost function RfcAll(d: Doc, ops: seq<RawOp>): Option<Json> {
    if ops == [] then Some(Obj(d))
    else
      var r := RfcAll(d, ops[..|ops| - 1]);
      if r.None? || !r.value.Obj? then None else RfcStep(r.value.fields, ops[|ops| - 1])
  }

  // ---- The patcher against the standard

  ghost predicate ArrayAt(d: Doc, key: string) {
    key in d && d[key].Arr?
  }

  /** Add at the end, or remove and replace at a canonical index, of nodes or edges, with the value
      member the standard requires. */
  ghost predicate Canonical(op: RawOp) {
    && RfcOperation(op).Some? && Text(op, "path").Some?
    && var path := Text(op, "path").value;
       if RfcOperation(op).value.AddOp? then path == "/nodes/-" || path == "/edges/-"
       else
         && path != "" && path[0] == '/'
         && var parts := Split(path[1..], '/');
            |parts| == 2 && (parts[0] == "nodes" || parts[0] == "edges") && CanonicalIndex(parts[1])
  }

  /** The collection a canonical operation addresses. */
  ghost function Collection(op: RawOp): string
    requires Text(op, "path").Some?
  {
    Split(TrimSlash(Text(op, "path").value), '/')[0]
  }

  lemma {:induction false} PlainTokenUnescapes(t: string)
    requires '~' !in t
    ensures Unescape(t) == Some(t)
  {
    if t != "" {
      PlainTokenUnescapes(t[1..]);
      assert t == [t[0]] + t[1..];
    }
  }

  lemma PlainTokensUnescape(a: string, b: string)
    requires '~' !in a && '~' !in b
    ensures UnescapeAll([a, b]) == Some([a, b])
  {
    PlainTokenUnescapes(a);
    PlainTokenUnescapes(b);
    assert [a, b][1..] == [b] && [b][1..] == [] && [b] + [] == [b];
    assert UnescapeAll([]) == Some([]);
    assert UnescapeAll([b]) == Some([b] + []);
    assert [a] + [b] == [a, b];
  }

  lemma {:induction false} SplitPlain(s: string, c: char)
    requires c !in s
    ensures Split(s, c) == [s]
  {
    if s != "" {
      SplitPlain(s[1..], c);
      assert [s[0]] + s[1..] == s;
    }
  }

  lemma {:induction false} SplitFirst(a: string, b: string, c: char)
    requires c !in a
    ensures Split(a + [c] + b, c) == [a] + Split(b, c)
  {
    var s := a + [c] + b;
    if a == "" {
      assert s[1..] == b;
    } else {
      assert s[1..] == a[1..] + [c] + b;
      SplitFirst(a[1..], b, c);
      assert a == [a[0]] + a[1..];
    }
  }

  lemma AppendPath(key: string)
    requires '/' !in key
    ensures Split(key + "/-", '/') == [key, "-"]
  {
    SplitFirst(key, "-", '/');
    SplitPlain("-", '/');
    assert key + ['/'] + "-" == key + "/-";
  }

  lemma CanonicalIndexValue(t: string)
    requires CanonicalIndex(t)
    ensures Atoi(t) == if Decimal(t) <= MAX_INT then Some(Decimal(t)) else None
    ensures '~' !in t
  {
    assert t[0] in t;
  }

  /** How the standard handles a two-token pointer into a collection. */
  lemma RfcTwoTokens(d: Doc, key: string, t: string, op: Operation)
    ensures RfcApply(Obj(d), [key, t], op)
         == if key !in d then None
            else var r := RfcAtParent(d[key], t, op);
                 if r.None? then None else Some(Obj(d[key := r.value]))
  {
    assert [key, t][1..] == [t];
  }

  lemma AddPointer(key: string)
    requires key == "nodes" || key == "edges"
    ensures Pointer("/" + key + "/-") == Some([key, "-"])
  {
    var path := "/" + key + "/-";
    assert path[1..] == key + "/-";
    AppendPath(key);
    PlainTokensUnescape(key, "-");
  }

  /** The patcher and the standard read an operation alike, except that the patcher reads a missing
      value as nil. */
  lemma ReadAlike(op: RawOp)
    ensures RfcOperation(op).Some? ==> Kind(op) == RfcOperation(op)
    ensures Kind(op).Some? && RfcOperation(op).None? ==> "value" !in op && !Kind(op).value.RemoveOp?
  {
  }

  /** An add that the patcher accepts does what the standard says exactly when the collection is
      an array and the operation has a value. Otherwise the patcher replaces whatever was there by a
      one-element array, or appends null. */
  lemma AddAgrees(d: Doc, op: RawOp, key: string)
    requires Kind(op).Some? && Kind(op).value.AddOp? && Text(op, "path") == Some("/" + key + "/-")
    requires key == "nodes" || key == "edges"
    ensures PatchStep(d, op) == Some(d[key := Arr(Items(d, key) + [Kind(op).value.value])])
    ensures RfcStep(d, op) == Some(Obj(PatchStep(d, op).value)) <==> ArrayAt(d, key) && "value" in op
  {
    var path := "/" + key + "/-";
    ReadAlike(op);
    AddPointer(key);
    assert path == if key == "nodes" then "/nodes/-" else "/edges/-";
    RfcTwoTokens(d, key, "-", Kind(op).value);
    var out := PatchStep(d, op).value;
    assert out[key].Arr?;
    if key in d && !d[key].Arr? {
      var r := RfcAtParent(d[key], "-", Kind(op).value);
      assert r.Some? ==> !r.value.Arr? && d[key := r.value][key] != out[key];
    }
  }

  /** For remove and replace, whether the operation is canonical decides whether an accepted one
      does what the standard says; of canonical operations both accept the same. */
  lemma EditAgrees(d: Doc, op: RawOp)
    requires Kind(op).Some? && !Kind(op).value.AddOp? && Text(op, "path").Some?
    requires forall key :: key in d && d[key].Arr? ==> |d[key].items| <= MAX_INT
    ensures PatchStep(d, op).Some? ==> (RfcStep(d, op) == Some(Obj(PatchStep(d, op).value)) <==> Canonical(op))
    ensures Canonical(op) && ArrayAt(d, Collection(op)) && PatchStep(d, op).None? ==> RfcStep(d, op).None?
  {
    var path := Text(op, "path").value;
    var parts := Split(TrimSlash(path), '/');
    ReadAlike(op);
    if path != "" && path[0] == '/' && |parts| == 2 && (parts[0] == "nodes" || parts[0] == "edges") && CanonicalIndex(parts[1]) {
      CanonicalIndexValue(parts[1]);
      PlainTokensUnescape(parts[0], parts[1]);
      assert parts == [parts[0], parts[1]];
      RfcTwoTokens(d, parts[0], parts[1], Kind(op).value);
    } else if PatchStep(d, op).Some? && path != "" && path[0] == '/' {
      NonCanonicalRejected(d, op, parts);
    }
  }

  lemma NonCanonicalRejected(d: Doc, op: RawOp, parts: seq<string>)
    requires Kind(op).Some? && !Kind(op).value.AddOp? && Text(op, "path").Some?
    requires var path := Text(op, "path").value; path != "" && path[0] == '/' && parts == Split(path[1..], '/')
    requires |parts| == 2 && (parts[0] == "nodes" || parts[0] == "edges") && !CanonicalIndex(parts[1])
    requires Atoi(parts[1]).Some? && ArrayAt(d, parts[0])
    ensures RfcStep(d, op).None?
  {
    AtoiHasNoTilde(parts[1]);
    ReadAlike(op);
    PlainTokensUnescape(parts[0], parts[1]);
    assert parts == [parts[0], parts[1]];
    RfcTwoTokens(d, parts[0], parts[1], Kind(op).value);
  }

  lemma AtoiHasNoTilde(s: string)
    requires Atoi(s).Some?
    ensures '~' !in s
  {
    if s[0] == '+' || s[0] == '-' {
      assert s == [s[0]] + s[1..];
    }
  }

  // ---- Accepted by the patcher, not by the standard

  function RemoveAt(key: string, index: string): RawOp {
    map["op" := Str("remove"), "path" := Str("/" + key + "/" + index)]
  }

  lemma IndexPath(key: string, index: string)
    requires '/' !in key && '/' !in index
    ensures Split(("/" + key + "/" + index)[1..], '/') == [key, index]
  {
    assert ("/" + key + "/" + index)[1..] == key + ['/'] + index;
    SplitFirst(key, index, '/');
    SplitPlain(index, '/');
  }

  /** Any spelling of an index in range is accepted, although the standard refuses all but one. */
  lemma LooseIndexAccepted(items: seq<Json>, key: string, index: string)
    requires (key == "nodes" || key == "edges") && '/' !in index
    requires Atoi(index).Some? && 0 <= Atoi(index).value < |items| && !CanonicalIndex(index)
    ensures PatchStep(map[key := Arr(items)], RemoveAt(key, index)) == Some(map[key := Arr(Remove(items, Atoi(index).value))])
    ensures RfcStep(map[key := Arr(items)], RemoveAt(key, index)) == None
  {
    var op, d, path := RemoveAt(key, index), map[key := Arr(items)], "/" + key + "/" + index;
    assert Kind(op) == Some(RemoveOp) && Text(op, "path") == Some(path);
    IndexPath(key, index);
    assert path[0] == '/';
    NonCanonicalRejected(d, op, [key, index]);
    assert Address(path) == Some((key, Atoi(index).value));
    assert d[key := Arr(Remove(items, Atoi(index).value))] == map[key := Arr(Remove(items, Atoi(index).value))];
  }

  lemma LooseSpellings()
    ensures Atoi("+0") == Some(0) && !CanonicalIndex("+0") && Atoi("01") == Some(1) && !CanonicalIndex("01")
  {
    assert "+0"[1..] == "0" && "0"[..0] == "" && "01"[..1] == "0";
    assert Decimal("0") == 0;
    assert "+0"[0] in "+0" && !Digit("+0"[0]);
  }

  /** "/nodes/+0" and "/nodes/01" remove a node, and the standard refuses both. */
  lemma LooseIndexExamples(a: Json, b: Json)
    ensures PatchStep(map["nodes" := Arr([a, b])], RemoveAt("nodes", "+0")) == Some(map["nodes" := Arr([b])])
    ensures PatchStep(map["nodes" := Arr([a, b])], RemoveAt("nodes", "01")) == Some(map["nodes" := Arr([a])])
    ensures RfcStep(map["nodes" := Arr([a, b])], RemoveAt("nodes", "+0")) == None
    ensures RfcStep(map["nodes" := Arr([a, b])], RemoveAt("nodes", "01")) == None
  {
    LooseSpellings();
    LooseIndexAccepted([a, b], "nodes", "+0");
    LooseIndexAccepted([a, b], "nodes", "01");
    assert Remove([a, b], 0) == [b] && Remove([a, b], 1) == [a];
  }

  function AddAt(key: string, value: Option<Json>): RawOp {
    var op := map["op" := Str("add"), "path" := Str("/" + key + "/-")];
    if value.None? then op else op["value" := value.value]
  }

  /** An add to a collection that is no array throws the old value away, and an add without a value
      appends null; the standard does neither. */
  lemma LooseAddExamples(was: Json, v: Json, items: seq<Json>)
    requires !was.Arr?
    ensures PatchStep(map["nodes" := was], AddAt("nodes", Some(v))) == Some(map["nodes" := Arr([v])])
    ensures RfcStep(map["nodes" := was], AddAt("nodes", Some(v))) != Some(Obj(map["nodes" := Arr([v])]))
    ensures PatchStep(map["nodes" := Arr(items)], AddAt("nodes", None)) == Some(map["nodes" := Arr(items + [Null])])
    ensures RfcStep(map["nodes" := Arr(items)], AddAt("nodes", None)) == None
  {
    assert Kind(AddAt("nodes", Some(v))) == Some(AddOp(v)) && Kind(AddAt("nodes", None)) == Some(AddOp(Null));
    AddAgrees(map["nodes" := was], AddAt("nodes", Some(v)), "nodes");
    AddAgrees(map["nodes" := Arr(items)], AddAt("nodes", None), "nodes");
    assert [] + [v] == [v];
    assert map["nodes" := was]["nodes" := Arr([v])] == map["nodes" := Arr([v])];
    assert map["nodes" := Arr(items)]["nodes" := Arr(items + [Null])] == map["nodes" := Arr(items + [Null])];
  }

  /** A list of canonical operations that keeps meeting array-valued collections. */
  ghost predicate CanonicalRun(d: Doc, ops: seq<RawOp>) {
    forall k :: 0 <= k < |ops| && PatchAll(d, ops[..k]).Some? ==>
      Canonical(ops[k]) && ArrayAt(PatchAll(d, ops[..k]).value, Collection(ops[k]))
  }

  lemma CollectionOfAdd(op: RawOp, key: string)
    requires Text(op, "path") == Some("/" + key + "/-") && (key == "nodes" || key == "edges")
    ensures Collection(op) == key
  {
    assert ("/" + key + "/-")[1..] == key + "/-";
    AppendPath(key);
  }

  lemma StepAgrees(d: Doc, op: RawOp)
    requires Canonical(op) && ArrayAt(d, Collection(op)) && PatchStep(d, op).Some?
    requires forall key :: key in d && d[key].Arr? ==> |d[key].items| <= MAX_INT
    ensures RfcStep(d, op) == Some(Obj(PatchStep(d, op).value))
  {
    ReadAlike(op);
    if Kind(op).value.AddOp? {
      var key := if Text(op, "path").value == "/nodes/-" then "nodes" else "edges";
      assert "/" + key + "/-" == Text(op, "path").value;
      CollectionOfAdd(op, key);
      AddAgrees(d, op, key);
    } else {
      EditAgrees(d, op);
    }
  }

  ghost predicate Representable(d: Doc) {
    forall key :: key in d && d[key].Arr? ==> |d[key].items| <= MAX_INT
  }

  /** Every accepted list of canonical operations on array-valued collections gives exactly the
      document that the standard gives when it applies the operations one after the other. */
  lemma {:induction false} PatcherRefinesStandard(d: Doc, ops: seq<RawOp>)
    requires CanonicalRun(d, ops) && PatchAll(d, ops).Some?
    requires forall k :: 0 <= k < |ops| && PatchAll(d, ops[..k]).Some? ==> Representable(PatchAll(d, ops[..k]).value)
    ensures RfcAll(d, ops) == Some(Obj(PatchAll(d, ops).value))
  {
    if ops != [] {
      var k := |ops| - 1;
      var init := ops[..k];
      assert forall i :: 0 <= i < k ==> init[..i] == ops[..i];
      PatcherRefinesStandard(d, init);
      StepAgrees(PatchAll(d, init).value, ops[k]);
    }
  }

  // ---- The in-place implementation

  /** A Go slice that starts at the front of its backing array; the rest of the array is spare
      capacity that an append may overwrite. */
  class Slice {
    var arr: array<Json>
    var len: nat

    ghost predicate Valid()
      reads this
    {
      len <= arr.Length
    }

    ghost function Elements(): seq<Json>
      requires Valid()
      reads this, arr
    {
      arr[..len]
    }

    constructor Single(value: Json)
      ensures Valid() && fresh(arr) && Elements() == [value]
    {
      arr := new Json[] [value];
      len := 1;
    }

    constructor Copy(source: Slice)
      requires source.Valid()
      ensures Valid() && fresh(arr) && Elements() == source.Elements()
    {
      var copy := new Json[source.len](_ => Null);
      for i := 0 to source.len
        invariant forall j :: 0 <= j < i ==> copy[j] == source.arr[j]
      {
        copy[i] := source.arr[i];
      }
      arr := copy;
      len := source.len;
    }

    /** append(s, value): in place when there is spare capacity, else into a larger array. */
    method Append(value: Json)
      requires Valid()
      modifies this, arr
      ensures Valid() && (arr == old(arr) || fresh(arr))
      ensures Elements() == old(Elements()) + [value]
    {
      if len == arr.Length {
        var grown := new Json[2 * len + 1](_ => Null);
        for i := 0 to len
          invariant len == old(len) && arr == old(arr)
          invariant forall j :: 0 <= j < i ==> grown[j] == arr[j]
          invariant forall j :: 0 <= j < len ==> arr[j] == old(arr[j])
        {
          grown[i] := arr[i];
        }
        arr := grown;
      }
      arr[len] := value;
      len := len + 1;
    }

    /** append(s[:i], s[i+1:]...): shifts the tail down inside the same backing array. */
    method RemoveAt(index: nat)
      requires Valid() && index < len
      modifies this, arr
      ensures Valid() && arr == old(arr)
      ensures Elements() == Remove(old(Elements()), index)
    {
      ShiftDown(arr, index, len);
      len := len - 1;
    }

    method ReplaceAt(index: nat, value: Json)
      requires Valid() && index < len
      modifies arr
      ensures Elements() == old(Elements())[index := value]
    {
      arr[index] := value;
    }
  }

  method ShiftDown(arr: array<Json>, index: nat, len: nat)
    requires index < len <= arr.Length
    modifies arr
    ensures arr[..len - 1] == Remove(old(arr[..len]), index)
  {
    for i := index to len - 1
      invariant forall j :: 0 <= j < index ==> arr[j] == old(arr[j])
      invariant forall j :: index <= j < i ==> arr[j] == old(arr[j + 1])
      invariant forall j :: i <= j < len ==> arr[j] == old(arr[j])
    {
      arr[i] := arr[i + 1];
    }
  }

  /** The workflow map: the array-valued nodes and edges, and every other entry, which is shared
      and never written through. */
  class Workflow {
    var nodes: Slice?
    var edges: Slice?
    var rest: Doc

    constructor (nodes: Slice?, edges: Slice?, rest: Doc)
      ensures this.nodes == nodes && this.edges == edges && this.rest == rest
    {
      this.nodes, this.edges, this.rest := nodes, edges, rest;
    }

    ghost function Repr(): set<object?>
      reads this, nodes, edges
    {
      (if nodes == null then {} else {nodes, nodes.arr}) + (if edges == null then {} else {edges, edges.arr})
    }

    ghost predicate Valid()
      reads this, nodes, edges
    {
      && (nodes != null ==> nodes.Valid())
      && (edges != null ==> edges.Valid())
      && ("nodes" in rest ==> nodes == null && !rest["nodes"].Arr?)
      && ("edges" in rest ==> edges == null && !rest["edges"].Arr?)
    }

    /** The two slices share no storage. */
    ghost predicate Separate()
      reads this, nodes, edges
    {
      nodes != null && edges != null ==> nodes != edges && nodes.arr != edges.arr
    }

    ghost function View(): Doc
      requires Valid()
      reads this, nodes, edges, Repr()
    {
      Entries(if nodes == null then None else Some(nodes.Elements()), if edges == null then None else Some(edges.Elements()), rest)
    }

    method Append(key: string, value: Json)
      requires Valid() && Separate() && (key == "nodes" || key == "edges")
      modifies this, Repr()
      ensures Valid() && Separate() && fresh(Repr() - old(Repr()))
      ensures View() == old(View())[key := Arr(Items(old(View()), key) + [value])]
    {
      if key == "nodes" {
        if nodes != null {
          nodes.Append(value);
        } else {
          nodes := new Slice.Single(value);
          rest := rest - {"nodes"};
          assert [value] == [] + [value];
        }
      } else {
        if edges != null {
          edges.Append(value);
        } else {
          edges := new Slice.Single(value);
          rest := rest - {"edges"};
          assert [value] == [] + [value];
        }
      }
    }

    /** Removes or replaces one element; refuses an index outside the collection. */
    method Edit(key: string, index: int, edit: Operation) returns (ok: bool)
      requires Valid() && Separate() && !edit.AddOp?
      modifies Repr()
      ensures Valid() && Separate() && Repr() == old(Repr())
      ensures ok <==> InRange(old(View()), key, index)
      ensures ok ==> View() == old(View())[key := Arr(Edited(old(View())[key].items, index, edit))]
      ensures !ok ==> View() == old(View())
    {
      var slice := if key == "nodes" then nodes else if key == "edges" then edges else null;
      if slice == null || index < 0 || index >= slice.len { return false; }
      if edit.RemoveOp? {
        slice.RemoveAt(index);
      } else {
        slice.ReplaceAt(index, edit.value);
      }
      return true;
    }
  }

  ghost function Edited(items: seq<Json>, i: int, edit: Operation): seq<Json>
    requires 0 <= i < |items| && !edit.AddOp?
  {
    if edit.RemoveOp? then Remove(items, i) else items[i := edit.value]
  }

  ghost function Entries(nodes: Option<seq<Json>>, edges: Option<seq<Json>>, rest: Doc): Doc {
    var d := if nodes.None? then rest else rest["nodes" := Arr(nodes.value)];
    if edges.None? then d else d["edges" := Arr(edges.value)]
  }

  /** Copies the map and the two arrays; everything else is shared. */
  method CopyWorkflow(workflow: Workflow) returns (w: Workflow)
    requires workflow.Valid()
    ensures fresh(w) && fresh(w.Repr()) && w.Valid() && w.Separate()
    ensures w.View() == workflow.View()
  {
    var nodes, edges: Slice? := null, null;
    if workflow.nodes != null {
      nodes := new Slice.Copy(workflow.nodes);
    }
    if workflow.edges != null {
      edges := new Slice.Copy(workflow.edges);
    }
    w := new Workflow(nodes, edges, workflow.rest);
  }

  method ApplyOperation(w: Workflow, op: RawOp) returns (ok: bool)
    requires w.Valid() && w.Separate()
    modifies w, w.Repr()
    ensures w.Valid() && w.Separate() && fresh(w.Repr() - old(w.Repr()))
    ensures ok <==> PatchStep(old(w.View()), op).Some?
    ensures ok ==> w.View() == PatchStep(old(w.View()), op).value
  {
    var name, path := Text(op, "op"), Text(op, "path");
    if name.None? || path.None? { return false; }
    if name.value == "add" {
      if path.value == "/nodes/-" {
        w.Append("nodes", Value(op));
        return true;
      }
      if path.value == "/edges/-" {
        w.Append("edges", Value(op));
        return true;
      }
      return false;
    }
    if name.value != "remove" && name.value != "replace" { return false; }
    var address := Address(path.value);
    if address.None? { return false; }
    ok := w.Edit(address.value.0, address.value.1, if name.value == "remove" then RemoveOp else ReplaceOp(Value(op)));
  }

  /** The patch loop, on the working copy. */
  method ApplyOperations(w: Workflow, ops: seq<RawOp>) returns (ok: bool)
    requires w.Valid() && w.Separate()
    modifies w, w.Repr()
    ensures w.Valid() && fresh(w.Repr() - old(w.Repr()))
    ensures ok <==> PatchAll(old(w.View()), ops).Some?
    ensures ok ==> w.View() == PatchAll(old(w.View()), ops).value
  {
    ghost var d := w.View();
    for i := 0 to |ops|
      invariant w.Valid() && w.Separate() && fresh(w.Repr() - old(w.Repr()))
      invariant PatchAll(d, ops[..i]) == Some(w.View())
    {
      ok := ApplyOperation(w, ops[i]);
      PatchAllSnoc(d, ops, i);
      if !ok {
        FailureSticks(d, ops, i + 1);
        return false;
      }
    }
    Seqs.Whole(ops);
    return true;
  }

  /** The result is the specified document in fresh storage. Nothing the caller can reach is
      modified, on success or on error, although arrays are shifted and overwritten in place. */
  method ApplyJSONPatchToWorkflow(workflow: Workflow, ops: seq<RawOp>) returns (r: Option<Workflow>)
    requires workflow.Valid()
    ensures workflow.Valid() && workflow.View() == old(workflow.View())
    ensures r.Some? <==> PatchAll(workflow.View(), ops).Some?
    ensures r.Some? ==> fresh(r.value) && fresh(r.value.Repr()) && r.value.Valid()
    ensures r.Some? ==> r.value.View() == PatchAll(workflow.View(), ops).value
  {
    var w := CopyWorkflow(workflow);
    var ok := ApplyOperations(w, ops);
    return if ok then Some(w) else None;
  }

  lemma PatchAllSnoc(d: Doc, ops: seq<RawOp>, i: nat)
    requires i < |ops| && PatchAll(d, ops[..i]).Some?
    ensures PatchAll(d, ops[..i + 1]) == PatchStep(PatchAll(d, ops[..i]).value, ops[i])
  {
    assert ops[..i + 1][..i] == ops[..i];
  }

  lemma {:induction false} FailureSticks(d: Doc, ops: seq<RawOp>, k: nat)
    requires k <= |ops| && PatchAll(d, ops[..k]).None?
    ensures PatchAll(d, ops).None?
    decreases |ops|
  {
    if k < |ops| {
      assert ops[..|ops| - 1][..k] == ops[..k];
      FailureSticks(d, ops[..|ops| - 1], k);
    } else {
      assert ops[..k] == ops;
    }
  }
}
