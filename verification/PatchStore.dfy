/** The versioned workflow store: content-addressed blobs, artifacts, the pre-materialised chain
    table and tags (cmd/orchestrator/service, common/repository/artifact.go), as a state machine
    over its tables. SHA-256 is injective, and the JSON Patch library is any deterministic
    partial function on documents. */
module PatchStore {
  import opened Wrappers
  import opened Json
  import Seqs
  import WorkflowPatch

  type Id = nat
  type Bytes = string
  type Tag = (string, string)
  type Patcher = (Bytes, Bytes) -> Option<Bytes>
  type Parser = Bytes -> bool

  datatype CasId = Sha256(content: Bytes)

  /** The database constraint artifact_patch_depth_check gives every patch set a base and a depth. */
  datatype Artifact =
    | DagVersion(cas: CasId, versionHash: CasId, compactedFrom: Option<Id>)
    | PatchSet(cas: CasId, baseVersion: Id, depth: nat)

  /** `prev` is not stored by the source: it records which artifact a patch was made on, the
      reference against which the chain table is judged. */
  datatype Store = Store(
    blobs: map<CasId, Bytes>,
    artifacts: map<Id, Artifact>,
    members: map<(Id, nat), Id>,
    tags: map<Tag, Id>,
    prev: map<Id, Id>)

  // ---- Predecessor chains

  ghost predicate IsPatch(s: Store, id: Id) {
    id in s.artifacts && s.artifacts[id].PatchSet?
  }

  ghost function Level(s: Store, id: Id): nat
    requires id in s.artifacts
  {
    if s.artifacts[id].DagVersion? then 0 else s.artifacts[id].depth
  }

  ghost function Base(s: Store, id: Id): Id
    requires id in s.artifacts
  {
    if s.artifacts[id].DagVersion? then id else s.artifacts[id].baseVersion
  }

  ghost predicate LinkedPatch(s: Store, p: Id)
    requires IsPatch(s, p)
  {
    && p in s.prev && s.prev[p] in s.artifacts
    && Base(s, p) == Base(s, s.prev[p])
    && Level(s, p) == Level(s, s.prev[p]) + 1
  }

  ghost predicate Linked(s: Store) {
    && (forall p :: IsPatch(s, p) ==> LinkedPatch(s, p))
    && (forall id :: id in s.artifacts ==> Base(s, id) in s.artifacts && s.artifacts[Base(s, id)].DagVersion?)
  }

  /** The patches leading to an artifact, oldest first, found by following predecessors. */
  ghost function Path(s: Store, id: Id): (path: seq<Id>)
    requires Linked(s) && id in s.artifacts
    ensures |path| == Level(s, id)
    ensures forall k :: 0 <= k < |path| ==> IsPatch(s, path[k])
    decreases Level(s, id)
  {
    if s.artifacts[id].DagVersion? then []
    else
      assert IsPatch(s, id);
      Path(s, s.prev[id]) + [id]
  }

  // ---- The invariant

  ghost predicate Stored(s: Store) {
    && (forall c :: c in s.blobs ==> s.blobs[c] == c.content)
    && (forall id :: id in s.artifacts ==> s.artifacts[id].cas in s.blobs)
    && (forall id :: id in s.artifacts && s.artifacts[id].DagVersion? ==> s.artifacts[id].versionHash == s.artifacts[id].cas)
    && (forall t :: t in s.tags ==> s.tags[t] in s.artifacts)
  }

  ghost predicate RowAgrees(members: map<(Id, nat), Id>, head: Id, path: seq<Id>, k: nat) {
    && ((head, k) in members <==> 1 <= k <= |path|)
    && (1 <= k <= |path| ==> members[(head, k)] == path[k - 1])
  }

  /** The rows stored for one head are exactly its path, numbered from 1. */
  ghost predicate RowsAgree(s: Store, head: Id)
    requires Linked(s) && head in s.artifacts
  {
    forall k: nat :: RowAgrees(s.members, head, Path(s, head), k)
  }

  ghost predicate TableAgrees(s: Store)
    requires Linked(s)
  {
    && (forall head :: head in s.artifacts ==> RowsAgree(s, head))
    && (forall row :: row in s.members ==> row.0 in s.artifacts)
  }

  ghost predicate Valid(s: Store) {
    Stored(s) && Linked(s) && TableAgrees(s)
  }

  // ---- Documents

  ghost function Content(s: Store, id: Id): Bytes
    requires Stored(s) && id in s.artifacts
  {
    s.blobs[s.artifacts[id].cas]
  }

  ghost function Contents(s: Store, ids: seq<Id>): (r: seq<Bytes>)
    requires Stored(s) && forall k :: 0 <= k < |ids| ==> ids[k] in s.artifacts
    ensures |r| == |ids| && forall k :: 0 <= k < |ids| ==> r[k] == Content(s, ids[k])
  {
    seq(|ids|, k requires 0 <= k < |ids| => Content(s, ids[k]))
  }

  ghost function Replay(apply: Patcher, doc: Bytes, patches: seq<Bytes>): Option<Bytes> {
    if patches == [] then Some(doc)
    else
      var before := Replay(apply, doc, patches[..|patches| - 1]);
      if before.None? then None else apply(before.value, patches[|patches| - 1])
  }

  /** What an artifact stands for: its own content, or its patch applied to its predecessor. */
  ghost function Document(s: Store, apply: Patcher, id: Id): Option<Bytes>
    requires Stored(s) && Linked(s) && id in s.artifacts
    decreases Level(s, id)
  {
    if s.artifacts[id].DagVersion? then Some(Content(s, id))
    else
      assert IsPatch(s, id);
      var before := Document(s, apply, s.prev[id]);
      if before.None? then None else apply(before.value, Content(s, id))
  }

  /** Replaying the whole stored chain over the shared base is the predecessor recursion. */
  lemma {:induction false} DocumentIsReplay(s: Store, apply: Patcher, id: Id)
    requires Stored(s) && Linked(s) && id in s.artifacts
    ensures Document(s, apply, id) == Replay(apply, Content(s, Base(s, id)), Contents(s, Path(s, id)))
    decreases Level(s, id)
  {
    if s.artifacts[id].DagVersion? {
      assert Contents(s, Path(s, id)) == [];
    } else {
      assert IsPatch(s, id);
      var before := Path(s, s.prev[id]);
      DocumentIsReplay(s, apply, s.prev[id]);
      var all := Contents(s, Path(s, id));
      assert all[..|all| - 1] == Contents(s, before);
    }
  }

  /** Every prefix of a path is the path of its last member, over the same base. */
  lemma {:induction false} PathPrefix(s: Store, id: Id, k: nat)
    requires Linked(s) && id in s.artifacts && k < Level(s, id)
    ensures var m := Path(s, id)[k];
      Path(s, m) == Path(s, id)[..k + 1] && Level(s, m) == k + 1 && Base(s, m) == Base(s, id) && Path(s, m)[k] == m
    decreases Level(s, id)
  {
    assert IsPatch(s, id);
    var path, before := Path(s, id), Path(s, s.prev[id]);
    if k == |before| {
      Seqs.Whole(path);
    } else {
      PathPrefix(s, s.prev[id], k);
      assert path[..k + 1] == before[..k + 1];
    }
  }

  /** What the chain table promises, for every head: the rows are numbered 1 to depth and end in
      the head; the i-th row is a patch of depth i over the same dag_version base; and the rows
      stored for that patch are the first i rows of the head. */
  lemma ChainsAreConsistent(s: Store, head: Id, i: nat, k: nat)
    requires Valid(s) && IsPatch(s, head) && 1 <= i <= s.artifacts[head].depth
    ensures (head, k) in s.members <==> 1 <= k <= s.artifacts[head].depth
    ensures k == s.artifacts[head].depth ==> s.members[(head, k)] == head
    ensures (head, i) in s.members && IsPatch(s, s.members[(head, i)])
    ensures var m := s.members[(head, i)]; s.artifacts[m].depth == i && Base(s, m) == Base(s, head)
    ensures Base(s, head) in s.artifacts && s.artifacts[Base(s, head)].DagVersion?
    ensures var m := s.members[(head, i)]; (m, k) in s.members <==> 1 <= k <= i
    ensures 1 <= k <= i ==> s.members[(s.members[(head, i)], k)] == s.members[(head, k)]
  {
    var path := Path(s, head);
    assert RowsAgree(s, head);
    assert RowAgrees(s.members, head, path, i);
    assert RowAgrees(s.members, head, path, k);
    MemberRows(s, head, i, k);
    if k == |path| {
      assert path == Path(s, s.prev[head]) + [head];
    }
  }

  lemma MemberRows(s: Store, head: Id, i: nat, k: nat)
    requires Valid(s) && IsPatch(s, head) && 1 <= i <= s.artifacts[head].depth
    ensures var m := Path(s, head)[i - 1];
      && IsPatch(s, m) && s.artifacts[m].depth == i && Base(s, m) == Base(s, head)
      && RowAgrees(s.members, m, Path(s, head)[..i], k)
  {
    PathPrefix(s, head, i - 1);
    assert RowsAgree(s, Path(s, head)[i - 1]);
  }

  lemma MembersAreDistinct(s: Store, head: Id, i: nat, j: nat)
    requires Valid(s) && IsPatch(s, head) && 1 <= i < j <= s.artifacts[head].depth
    ensures (head, i) in s.members && (head, j) in s.members && s.members[(head, i)] != s.members[(head, j)]
  {
    ChainsAreConsistent(s, head, i, i);
    ChainsAreConsistent(s, head, j, j);
  }

  // ---- Commands

  /** `id` is the artifact the call ends with: a fresh UUID, or for Create possibly a reused one. */
  datatype Command =
    | Create(tag: Tag, content: Bytes, id: Id)
    | Patch(tag: Tag, patch: Bytes, id: Id)
    | Compact(head: Id, id: Id)
    | Migrate(tag: Tag, base: Id)

  /** Patch sets carry no version hash. */
  function VersionHash(a: Artifact): Option<CasId> {
    if a.DagVersion? then Some(a.versionHash) else None
  }

  ghost predicate HasVersion(s: Store, id: Id, c: CasId) {
    id in s.artifacts && VersionHash(s.artifacts[id]) == Some(c)
  }

  ghost predicate DistinctPatches(s: Store, path: seq<Id>)
    requires forall k :: 0 <= k < |path| ==> path[k] in s.artifacts
  {
    forall i, j :: 0 <= i < j < |path| ==> s.artifacts[path[i]].cas != s.artifacts[path[j]].cas
  }

  ghost predicate CanCompact(s: Store, apply: Patcher, parses: Parser, head: Id)
    requires Valid(s)
  {
    && IsPatch(s, head)
    && Document(s, apply, head).Some? && parses(Document(s, apply, head).value)
    && DistinctPatches(s, Path(s, head))
  }

  ghost predicate Enabled(s: Store, apply: Patcher, parses: Parser, c: Command)
    requires Valid(s)
  {
    match c
    case Create(_, content, id) =>
      HasVersion(s, id, Sha256(content)) || (id !in s.artifacts && forall a :: a in s.artifacts ==> !HasVersion(s, a, Sha256(content)))
    case Patch(tag, _, id) => tag in s.tags && id !in s.artifacts
    case Compact(head, id) => CanCompact(s, apply, parses, head) && id !in s.artifacts
    case Migrate(tag, base) => tag in s.tags && base in s.artifacts && s.artifacts[base].DagVersion?
  }

  ghost function WithRows(members: map<(Id, nat), Id>, head: Id, ids: seq<Id>): map<(Id, nat), Id> {
    if ids == [] then members
    else WithRows(members, head, ids[..|ids| - 1])[(head, |ids|) := ids[|ids| - 1]]
  }

  ghost function WithDag(s: Store, doc: Bytes, id: Id, from: Option<Id>): Store {
    s.(blobs := s.blobs[Sha256(doc) := doc], artifacts := s.artifacts[id := DagVersion(Sha256(doc), Sha256(doc), from)])
  }

  ghost function WithPatch(s: Store, tag: Tag, patch: Bytes, id: Id): Store
    requires Linked(s) && tag in s.tags && s.tags[tag] in s.artifacts
  {
    var current := s.tags[tag];
    Store(
      s.blobs[Sha256(patch) := patch],
      s.artifacts[id := PatchSet(Sha256(patch), Base(s, current), Level(s, current) + 1)],
      WithRows(s.members, id, Path(s, current) + [id]),
      s.tags[tag := id],
      s.prev[id := current])
  }

  ghost function Exec(s: Store, apply: Patcher, parses: Parser, c: Command): Store
    requires Valid(s) && Enabled(s, apply, parses, c)
  {
    match c
    case Create(tag, content, id) =>
      if id in s.artifacts then s.(blobs := s.blobs[Sha256(content) := content], tags := s.tags[tag := id])
      else var s' := WithDag(s, content, id, None); s'.(tags := s.tags[tag := id])
    case Patch(tag, patch, id) => WithPatch(s, tag, patch, id)
    case Compact(head, id) => WithDag(s, Document(s, apply, head).value, id, Some(head))
    case Migrate(tag, base) => s.(tags := s.tags[tag := base])
  }

  // ---- Every command keeps the invariant and every existing document

  lemma {:induction false} RowsAt(members: map<(Id, nat), Id>, head: Id, ids: seq<Id>, row: (Id, nat))
    ensures var r := WithRows(members, head, ids);
      if row.0 == head && 1 <= row.1 <= |ids| then row in r && r[row] == ids[row.1 - 1]
      else (row in r <==> row in members) && (row in members ==> r[row] == members[row])
  {
    if ids != [] {
      RowsAt(members, head, ids[..|ids| - 1], row);
    }
  }

  lemma NewRows(members: map<(Id, nat), Id>, head: Id, ids: seq<Id>)
    requires forall row :: row in members ==> row.0 != head
    ensures forall k: nat :: RowAgrees(WithRows(members, head, ids), head, ids, k)
    ensures forall row :: row in WithRows(members, head, ids) ==> row in members || row.0 == head
  {
    forall k: nat ensures RowAgrees(WithRows(members, head, ids), head, ids, k) {
      RowsAt(members, head, ids, (head, k));
    }
    forall row | row in WithRows(members, head, ids) ensures row in members || row.0 == head {
      RowsAt(members, head, ids, row);
    }
  }

  /** The later store keeps every artifact, predecessor and row of the earlier one. */
  ghost predicate Extends(s: Store, s': Store) {
    && (forall id :: id in s.artifacts ==> id in s'.artifacts && s'.artifacts[id] == s.artifacts[id])
    && (forall id :: IsPatch(s, id) && id in s.prev ==> id in s'.prev && s'.prev[id] == s.prev[id])
    && (forall row: (Id, nat) :: row.0 in s.artifacts ==> (row in s.members <==> row in s'.members) && (row in s.members ==> s'.members[row] == s.members[row]))
  }

  lemma {:induction false} PathKept(s: Store, s': Store, id: Id)
    requires Linked(s) && Linked(s') && Extends(s, s') && id in s.artifacts
    ensures Path(s', id) == Path(s, id)
    decreases Level(s, id)
  {
    if s.artifacts[id].PatchSet? {
      assert IsPatch(s, id);
      PathKept(s, s', s.prev[id]);
    }
  }

  lemma {:induction false} DocumentKept(s: Store, s': Store, apply: Patcher, id: Id)
    requires Stored(s) && Stored(s') && Linked(s) && Linked(s') && Extends(s, s') && id in s.artifacts
    ensures Document(s', apply, id) == Document(s, apply, id)
    decreases Level(s, id)
  {
    if s.artifacts[id].PatchSet? {
      assert IsPatch(s, id);
      DocumentKept(s, s', apply, s.prev[id]);
    }
  }

  lemma OldRowsAgree(s: Store, s': Store)
    requires Linked(s) && TableAgrees(s) && Linked(s') && Extends(s, s')
    ensures forall head :: head in s.artifacts ==> RowsAgree(s', head)
  {
    forall head | head in s.artifacts ensures RowsAgree(s', head) {
      PathKept(s, s', head);
      assert RowsAgree(s, head);
      forall k: nat ensures RowAgrees(s'.members, head, Path(s', head), k) {
        assert RowAgrees(s.members, head, Path(s, head), k);
        assert (head, k).0 in s.artifacts;
      }
    }
  }

  lemma DagLinks(s: Store, doc: Bytes, id: Id, from: Option<Id>)
    requires Linked(s) && id !in s.artifacts
    ensures Linked(WithDag(s, doc, id, from)) && Extends(s, WithDag(s, doc, id, from))
  {
    var s' := WithDag(s, doc, id, from);
    forall p | IsPatch(s', p) ensures LinkedPatch(s', p) {
      assert IsPatch(s, p);
    }
  }

  lemma DagKeepsValid(s: Store, doc: Bytes, id: Id, from: Option<Id>)
    requires Valid(s) && id !in s.artifacts
    ensures Valid(WithDag(s, doc, id, from)) && Extends(s, WithDag(s, doc, id, from))
  {
    var s' := WithDag(s, doc, id, from);
    assert Linked(s') && Extends(s, s') by {
      DagLinks(s, doc, id, from);
    }
    assert TableAgrees(s') by {
      OldRowsAgree(s, s');
      forall k: nat ensures RowAgrees(s'.members, id, [], k) {
        assert (id, k).0 !in s.artifacts;
      }
    }
    assert Stored(s');
  }

  lemma PatchLinked(s: Store, tag: Tag, patch: Bytes, id: Id)
    requires Linked(s) && tag in s.tags && s.tags[tag] in s.artifacts && id !in s.artifacts
    ensures Linked(WithPatch(s, tag, patch, id))
  {
    var s' := WithPatch(s, tag, patch, id);
    forall p | IsPatch(s', p) ensures LinkedPatch(s', p) {
      if p != id {
        assert IsPatch(s, p);
      }
    }
  }

  lemma PatchExtends(s: Store, tag: Tag, patch: Bytes, id: Id)
    requires Linked(s) && tag in s.tags && s.tags[tag] in s.artifacts && id !in s.artifacts
    ensures Extends(s, WithPatch(s, tag, patch, id))
  {
    var s' := WithPatch(s, tag, patch, id);
    var ids := Path(s, s.tags[tag]) + [id];
    forall row: (Id, nat) | row.0 in s.artifacts
      ensures (row in s.members <==> row in s'.members) && (row in s.members ==> s'.members[row] == s.members[row])
    {
      RowsAt(s.members, id, ids, row);
    }
  }

  lemma PatchLinks(s: Store, tag: Tag, patch: Bytes, id: Id)
    requires Linked(s) && tag in s.tags && s.tags[tag] in s.artifacts && id !in s.artifacts
    ensures var s' := WithPatch(s, tag, patch, id);
      Linked(s') && Extends(s, s') && Path(s', id) == Path(s, s.tags[tag]) + [id]
  {
    PatchLinked(s, tag, patch, id);
    PatchExtends(s, tag, patch, id);
    PathKept(s, WithPatch(s, tag, patch, id), s.tags[tag]);
  }

  lemma PatchRows(s: Store, tag: Tag, patch: Bytes, id: Id)
    requires Valid(s) && tag in s.tags && id !in s.artifacts && Linked(WithPatch(s, tag, patch, id))
    requires Extends(s, WithPatch(s, tag, patch, id))
    requires Path(WithPatch(s, tag, patch, id), id) == Path(s, s.tags[tag]) + [id]
    ensures TableAgrees(WithPatch(s, tag, patch, id))
  {
    var s', ids := WithPatch(s, tag, patch, id), Path(s, s.tags[tag]) + [id];
    OldRowsAgree(s, s');
    NewRows(s.members, id, ids);
    assert RowsAgree(s', id);
  }

  lemma PatchKeepsValid(s: Store, tag: Tag, patch: Bytes, id: Id)
    requires Valid(s) && tag in s.tags && id !in s.artifacts
    ensures Valid(WithPatch(s, tag, patch, id)) && Extends(s, WithPatch(s, tag, patch, id))
  {
    PatchLinks(s, tag, patch, id);
    PatchRows(s, tag, patch, id);
    assert Stored(WithPatch(s, tag, patch, id));
  }

  lemma RetagKeepsValid(s: Store, s': Store)
    requires Valid(s) && Stored(s') && s' == s.(tags := s'.tags, blobs := s'.blobs)
    ensures Valid(s') && Extends(s, s')
  {
    forall p | IsPatch(s', p) ensures LinkedPatch(s', p) {
      assert IsPatch(s, p);
    }
    OldRowsAgree(s, s');
  }

  lemma CreateKeepsValid(s: Store, apply: Patcher, parses: Parser, tag: Tag, content: Bytes, id: Id)
    requires Valid(s) && Enabled(s, apply, parses, Create(tag, content, id))
    ensures var s' := Exec(s, apply, parses, Create(tag, content, id)); Valid(s') && Extends(s, s')
  {
    if id in s.artifacts {
      RetagKeepsValid(s, s.(blobs := s.blobs[Sha256(content) := content], tags := s.tags[tag := id]));
    } else {
      var s' := WithDag(s, content, id, None);
      DagKeepsValid(s, content, id, None);
      RetagKeepsValid(s', s'.(tags := s.tags[tag := id]));
    }
  }

  lemma MigrateKeepsValid(s: Store, apply: Patcher, parses: Parser, tag: Tag, base: Id)
    requires Valid(s) && Enabled(s, apply, parses, Migrate(tag, base))
    ensures var s' := Exec(s, apply, parses, Migrate(tag, base)); Valid(s') && Extends(s, s')
  {
    RetagKeepsValid(s, s.(tags := s.tags[tag := base]));
  }

  lemma StepKeepsValid(s: Store, apply: Patcher, parses: Parser, c: Command)
    requires Valid(s) && Enabled(s, apply, parses, c)
    ensures Valid(Exec(s, apply, parses, c)) && Extends(s, Exec(s, apply, parses, c))
  {
    match c
    case Create(tag, content, id) => CreateKeepsValid(s, apply, parses, tag, content, id);
    case Patch(tag, patch, id) => PatchKeepsValid(s, tag, patch, id);
    case Compact(head, id) => DagKeepsValid(s, Document(s, apply, head).value, id, Some(head));
    case Migrate(tag, base) => MigrateKeepsValid(s, apply, parses, tag, base);
  }

  const EMPTY := Store(map[], map[], map[], map[], map[])

  ghost predicate CanRun(s: Store, apply: Patcher, parses: Parser, run: seq<Command>)
    requires Valid(s)
    decreases |run|
  {
    run == [] || (Enabled(s, apply, parses, run[0]) && (StepKeepsValid(s, apply, parses, run[0]); CanRun(Exec(s, apply, parses, run[0]), apply, parses, run[1..])))
  }

  ghost function Final(s: Store, apply: Patcher, parses: Parser, run: seq<Command>): Store
    requires Valid(s) && CanRun(s, apply, parses, run)
    decreases |run|
  {
    if run == [] then s
    else
      StepKeepsValid(s, apply, parses, run[0]);
      Final(Exec(s, apply, parses, run[0]), apply, parses, run[1..])
  }

  lemma ExtendsTransitive(a: Store, b: Store, c: Store)
    requires Extends(a, b) && Extends(b, c) && Linked(a)
    ensures Extends(a, c)
  {
    forall id | IsPatch(a, id) && id in a.prev ensures id in c.prev && c.prev[id] == a.prev[id] {
      assert IsPatch(b, id) && id in b.prev;
    }
  }

  lemma {:induction false} RunsExtend(s: Store, apply: Patcher, parses: Parser, run: seq<Command>)
    requires Valid(s) && CanRun(s, apply, parses, run)
    ensures Valid(Final(s, apply, parses, run)) && Extends(s, Final(s, apply, parses, run))
    decreases |run|
  {
    if run != [] {
      var next := Exec(s, apply, parses, run[0]);
      StepKeepsValid(s, apply, parses, run[0]);
      RunsExtend(next, apply, parses, run[1..]);
      ExtendsTransitive(s, next, Final(s, apply, parses, run));
    }
  }

  /** No run of creates, patches, compactions and migrations breaks the chain table or changes
      what an existing artifact materialises to. */
  lemma RunsKeepDocuments(s: Store, apply: Patcher, parses: Parser, run: seq<Command>)
    requires Valid(s) && CanRun(s, apply, parses, run)
    ensures var s' := Final(s, apply, parses, run);
      Valid(s') && Extends(s, s') && forall id :: id in s.artifacts ==> Document(s', apply, id) == Document(s, apply, id)
  {
    RunsExtend(s, apply, parses, run);
    var s' := Final(s, apply, parses, run);
    forall id | id in s.artifacts ensures Document(s', apply, id) == Document(s, apply, id) {
      DocumentKept(s, s', apply, id);
    }
  }

  // ---- Tags

  /** The artifact a command points its tag at. */
  function Target(c: Command): Id
    requires !c.Compact?
  {
    match c
    case Create(_, _, id) => id
    case Patch(_, _, id) => id
    case Migrate(_, base) => base
  }

  lemma StepMovesOneTag(s: Store, apply: Patcher, parses: Parser, c: Command, tag: Tag)
    requires Valid(s) && Enabled(s, apply, parses, c)
    ensures var s' := Exec(s, apply, parses, c);
      if !c.Compact? && c.tag == tag then tag in s'.tags && s'.tags[tag] == Target(c)
      else (tag in s'.tags <==> tag in s.tags) && (tag in s.tags ==> s'.tags[tag] == s.tags[tag])
  {
  }

  /** A tag that no create, patch or migration of a run names keeps its artifact and its document. */
  lemma {:induction false} UnnamedTagsStay(s: Store, apply: Patcher, parses: Parser, run: seq<Command>, tag: Tag)
    requires Valid(s) && CanRun(s, apply, parses, run) && forall c :: c in run ==> c.Compact? || c.tag != tag
    ensures var s' := Final(s, apply, parses, run);
      && Valid(s') && (tag in s'.tags <==> tag in s.tags)
      && (tag in s.tags ==> s'.tags[tag] == s.tags[tag] && Document(s', apply, s'.tags[tag]) == Document(s, apply, s.tags[tag]))
    decreases |run|
  {
    if run != [] {
      var next := Exec(s, apply, parses, run[0]);
      StepKeepsValid(s, apply, parses, run[0]);
      assert run[0] in run;
      StepMovesOneTag(s, apply, parses, run[0], tag);
      UnnamedTagsStay(next, apply, parses, run[1..], tag);
      if tag in s.tags {
        DocumentKept(s, next, apply, s.tags[tag]);
      }
    }
  }

  lemma NamedThenUnnamed(s: Store, apply: Patcher, parses: Parser, run: seq<Command>)
    requires Valid(s) && CanRun(s, apply, parses, run) && run != [] && !run[0].Compact?
    requires forall j :: 0 < j < |run| ==> run[j].Compact? || run[j].tag != run[0].tag
    ensures var s' := Final(s, apply, parses, run); run[0].tag in s'.tags && s'.tags[run[0].tag] == Target(run[0])
  {
    var rest := run[1..];
    StepKeepsValid(s, apply, parses, run[0]);
    StepMovesOneTag(s, apply, parses, run[0], run[0].tag);
    forall c | c in rest ensures c.Compact? || c.tag != run[0].tag {
      var j :| 0 <= j < |rest| && rest[j] == c;
      assert run[j + 1] == c;
    }
    UnnamedTagsStay(Exec(s, apply, parses, run[0]), apply, parses, rest, run[0].tag);
  }

  /** The last command of a run that names a tag decides what it points at. */
  lemma {:induction false} LastWriterDecides(s: Store, apply: Patcher, parses: Parser, run: seq<Command>, k: nat)
    requires Valid(s) && CanRun(s, apply, parses, run) && k < |run| && !run[k].Compact?
    requires forall j :: k < j < |run| ==> run[j].Compact? || run[j].tag != run[k].tag
    ensures var s' := Final(s, apply, parses, run); run[k].tag in s'.tags && s'.tags[run[k].tag] == Target(run[k])
    decreases |run|
  {
    if k == 0 {
      NamedThenUnnamed(s, apply, parses, run);
    } else {
      assert Valid(Exec(s, apply, parses, run[0])) by {
        StepKeepsValid(s, apply, parses, run[0]);
      }
      LastWriterDecides(Exec(s, apply, parses, run[0]), apply, parses, run[1..], k - 1);
    }
  }

  // ---- Time travel

  /** Replaying the first k patches of a chain gives the document of its k-th member as a head. */
  lemma TimeTravel(s: Store, apply: Patcher, head: Id, k: nat)
    requires Valid(s) && head in s.artifacts && 1 <= k <= Level(s, head)
    ensures (head, k) in s.members && s.members[(head, k)] in s.artifacts
    ensures Document(s, apply, s.members[(head, k)])
      == Replay(apply, Content(s, Base(s, head)), Contents(s, Path(s, head)[..k]))
  {
    var m := Path(s, head)[k - 1];
    assert (head, k) in s.members && s.members[(head, k)] == m by {
      TableRow(s, head, k);
    }
    PrefixReplays(s, apply, head, k);
  }

  lemma PrefixReplays(s: Store, apply: Patcher, head: Id, k: nat)
    requires Stored(s) && Linked(s) && head in s.artifacts && 1 <= k <= Level(s, head)
    ensures Document(s, apply, Path(s, head)[k - 1]) == Replay(apply, Content(s, Base(s, head)), Contents(s, Path(s, head)[..k]))
  {
    var m, prefix := Path(s, head)[k - 1], Path(s, head)[..k];
    assert Path(s, m) == prefix && Base(s, m) == Base(s, head) by {
      PathPrefix(s, head, k - 1);
    }
    DocumentIsReplay(s, apply, m);
  }

  lemma TableRow(s: Store, head: Id, k: nat)
    requires Valid(s) && head in s.artifacts && 1 <= k <= Level(s, head)
    ensures (head, k) in s.members && s.members[(head, k)] == Path(s, head)[k - 1]
  {
    assert RowsAgree(s, head);
    assert RowAgrees(s.members, head, Path(s, head), k);
  }

  // ---- Compaction

  lemma CompactionPreservesMeaning(s: Store, apply: Patcher, parses: Parser, head: Id, id: Id)
    requires Valid(s) && Enabled(s, apply, parses, Compact(head, id))
    ensures var s' := Exec(s, apply, parses, Compact(head, id));
      && Valid(s') && s'.tags == s.tags
      && Document(s', apply, id) == Document(s, apply, head)
      && forall a :: a in s.artifacts ==> Document(s', apply, a) == Document(s, apply, a)
  {
    var c := Compact(head, id);
    StepKeepsValid(s, apply, parses, c);
    forall a | a in s.artifacts
      ensures Document(Exec(s, apply, parses, c), apply, a) == Document(s, apply, a)
    {
      DocumentKept(s, Exec(s, apply, parses, c), apply, a);
    }
  }

  ghost function Edits(tag: Tag, patches: seq<Bytes>, ids: seq<Id>): (run: seq<Command>)
    requires |ids| == |patches|
    ensures |run| == |patches|
  {
    if patches == [] then [] else [Patch(tag, patches[0], ids[0])] + Edits(tag, patches[1..], ids[1..])
  }

  ghost function ReplayFrom(apply: Patcher, doc: Option<Bytes>, patches: seq<Bytes>): Option<Bytes> {
    if doc.None? then None else Replay(apply, doc.value, patches)
  }

  lemma {:induction false} ReplayFirst(apply: Patcher, doc: Bytes, patches: seq<Bytes>)
    requires patches != []
    ensures Replay(apply, doc, patches) == ReplayFrom(apply, apply(doc, patches[0]), patches[1..])
    decreases |patches|
  {
    var n := |patches| - 1;
    if n > 0 {
      ReplayFirst(apply, doc, patches[..n]);
      assert patches[..n][1..] == patches[1..][..n - 1];
    } else {
      assert patches[..0] == [];
    }
  }

  lemma PatchExtendsDocument(s: Store, apply: Patcher, parses: Parser, tag: Tag, patch: Bytes, id: Id)
    requires Valid(s) && Enabled(s, apply, parses, Patch(tag, patch, id))
    ensures var s', d := Exec(s, apply, parses, Patch(tag, patch, id)), Document(s, apply, s.tags[tag]);
      && Valid(s') && tag in s'.tags && s'.tags[tag] in s'.artifacts
      && Document(s', apply, s'.tags[tag]) == if d.None? then None else apply(d.value, patch)
  {
    var s' := Exec(s, apply, parses, Patch(tag, patch, id));
    StepKeepsValid(s, apply, parses, Patch(tag, patch, id));
    DocumentKept(s, s', apply, s.tags[tag]);
  }

  /** Successive patches of a tag replay over the document the tag stood for. */
  lemma {:induction false} EditsReplay(s: Store, apply: Patcher, parses: Parser, tag: Tag, patches: seq<Bytes>, ids: seq<Id>)
    requires Valid(s) && tag in s.tags && |ids| == |patches| && CanRun(s, apply, parses, Edits(tag, patches, ids))
    ensures var s' := Final(s, apply, parses, Edits(tag, patches, ids));
      && Valid(s') && tag in s'.tags
      && Document(s', apply, s'.tags[tag]) == ReplayFrom(apply, Document(s, apply, s.tags[tag]), patches)
    decreases |patches|
  {
    var run := Edits(tag, patches, ids);
    if patches != [] {
      var next, d := Exec(s, apply, parses, run[0]), Document(s, apply, s.tags[tag]);
      PatchExtendsDocument(s, apply, parses, tag, patches[0], ids[0]);
      assert run[1..] == Edits(tag, patches[1..], ids[1..]);
      EditsReplay(next, apply, parses, tag, patches[1..], ids[1..]);
      if d.Some? {
        ReplayFirst(apply, d.value, patches);
      }
    }
  }

  lemma MigratedTagKeepsDocument(s: Store, apply: Patcher, parses: Parser, tag: Tag, base: Id)
    requires Valid(s) && tag in s.tags && Enabled(s, apply, parses, Compact(s.tags[tag], base))
    ensures var s1 := Exec(s, apply, parses, Compact(s.tags[tag], base));
      && Valid(s1) && Enabled(s1, apply, parses, Migrate(tag, base))
      && var s2 := Exec(s1, apply, parses, Migrate(tag, base));
        Valid(s2) && tag in s2.tags && Document(s2, apply, s2.tags[tag]) == Document(s, apply, s.tags[tag])
  {
    CompactionPreservesMeaning(s, apply, parses, s.tags[tag], base);
    var s1 := Exec(s, apply, parses, Compact(s.tags[tag], base));
    StepKeepsValid(s1, apply, parses, Migrate(tag, base));
    DocumentKept(s1, Exec(s1, apply, parses, Migrate(tag, base)), apply, base);
  }

  ghost function CompactThenEdit(head: Id, tag: Tag, base: Id, patches: seq<Bytes>, ids: seq<Id>): seq<Command>
    requires |ids| == |patches|
  {
    [Compact(head, base)] + ([Migrate(tag, base)] + Edits(tag, patches, ids))
  }

  /** Compacting the head of a tag and migrating the tag is invisible to every later patch
      sequence: the document is the one the uncompacted chain would have given. */
  lemma CompactionIsInvisible(
    s: Store, apply: Patcher, parses: Parser, tag: Tag, base: Id, patches: seq<Bytes>, ids: seq<Id>, ids': seq<Id>)
    requires Valid(s) && tag in s.tags && |ids| == |ids'| == |patches|
    requires CanRun(s, apply, parses, Edits(tag, patches, ids))
    requires CanRun(s, apply, parses, CompactThenEdit(s.tags[tag], tag, base, patches, ids'))
    ensures var plain, compacted := Final(s, apply, parses, Edits(tag, patches, ids)),
        Final(s, apply, parses, CompactThenEdit(s.tags[tag], tag, base, patches, ids'));
      && Valid(plain) && Valid(compacted) && tag in plain.tags && tag in compacted.tags
      && Document(compacted, apply, compacted.tags[tag]) == Document(plain, apply, plain.tags[tag])
  {
    EditsReplay(s, apply, parses, tag, patches, ids);
    var rest := [Migrate(tag, base)] + Edits(tag, patches, ids');
    var run := [Compact(s.tags[tag], base)] + rest;
    MigratedTagKeepsDocument(s, apply, parses, tag, base);
    var s1 := Exec(s, apply, parses, run[0]);
    assert run[1..] == rest && rest[1..] == Edits(tag, patches, ids');
    EditsReplay(Exec(s1, apply, parses, rest[0]), apply, parses, tag, patches, ids');
  }

  ghost function Bind(apply: Patcher, doc: Option<Bytes>, patch: Bytes): Option<Bytes> {
    if doc.None? then None else apply(doc.value, patch)
  }

  /** Applying the same patch twice is a legal history whose head may well materialise, but two
      entries of its chain share a content id, and compaction refuses it. */
  lemma RepeatedPatchNotCompacted(s: Store, apply: Patcher, parses: Parser, tag: Tag, patch: Bytes, id: Id, id': Id)
    requires Valid(s) && tag in s.tags && id !in s.artifacts && id' !in s.artifacts && id != id'
    ensures var s1 := Exec(s, apply, parses, Patch(tag, patch, id));
      && Valid(s1) && Enabled(s1, apply, parses, Patch(tag, patch, id'))
      && var s2 := Exec(s1, apply, parses, Patch(tag, patch, id'));
        && Valid(s2) && IsPatch(s2, id') && !CanCompact(s2, apply, parses, id')
        && Document(s2, apply, id') == Bind(apply, Bind(apply, Document(s, apply, s.tags[tag]), patch), patch)
  {
    PatchExtendsDocument(s, apply, parses, tag, patch, id);
    var s1 := Exec(s, apply, parses, Patch(tag, patch, id));
    PatchExtendsDocument(s1, apply, parses, tag, patch, id');
    SameContentTwice(s1, tag, patch, id, id');
  }

  lemma SameContentTwice(s: Store, tag: Tag, patch: Bytes, id: Id, id': Id)
    requires Valid(s) && tag in s.tags && s.tags[tag] == id && id' !in s.artifacts
    requires IsPatch(s, id) && s.artifacts[id].cas == Sha256(patch)
    ensures var s' := WithPatch(s, tag, patch, id'); Linked(s') && !DistinctPatches(s', Path(s', id'))
  {
    PatchLinks(s, tag, patch, id');
    var s', before := WithPatch(s, tag, patch, id'), Path(s, id);
    var path := Path(s', id');
    assert path == before + [id'];
    var n := |before|;
    assert before[n - 1] == id;
    assert path[n - 1] == id && path[n] == id';
    assert s'.artifacts[path[n - 1]].cas == s'.artifacts[path[n]].cas;
  }

  /** A first version under a tag: the tag then stands for exactly the submitted document. */
  lemma CreateStoresDocument(s: Store, apply: Patcher, parses: Parser, tag: Tag, content: Bytes, id: Id)
    requires Valid(s) && Enabled(s, apply, parses, Create(tag, content, id))
    ensures var s' := Exec(s, apply, parses, Create(tag, content, id));
      && Valid(s') && tag in s'.tags && s'.tags[tag] == id && Document(s', apply, id) == Some(content)
  {
    StepKeepsValid(s, apply, parses, Create(tag, content, id));
  }

  // ---- A real document

  /** An encoding of documents and operation lists as bytes. */
  datatype Codec = Codec(
    encode: WorkflowPatch.Doc -> Bytes,
    decode: Bytes -> Option<WorkflowPatch.Doc>,
    encodeOps: seq<WorkflowPatch.RawOp> -> Bytes,
    decodeOps: Bytes -> Option<seq<WorkflowPatch.RawOp>>)

  /** JSON Patch on encoded documents. */
  function JsonPatcher(codec: Codec): Patcher {
    (doc, patch) =>
      var d, ops := codec.decode(doc), codec.decodeOps(patch);
      if d.None? || ops.None? then None
      else
        var r := WorkflowPatch.PatchAll(d.value, ops.value);
        if r.None? then None else Some(codec.encode(r.value))
  }

  function AddNode(node: Json): seq<WorkflowPatch.RawOp> {
    [map["op" := Str("add"), "path" := Str("/nodes/-"), "value" := node]]
  }

  function WithNode(d: WorkflowPatch.Doc, node: Json): WorkflowPatch.Doc {
    d["nodes" := Arr(WorkflowPatch.Items(d, "nodes") + [node])]
  }

  /** The documents and operations at hand can be read back. */
  ghost predicate RoundTrips(codec: Codec, d: WorkflowPatch.Doc, node: Json) {
    && codec.decode(codec.encode(d)) == Some(d)
    && codec.decode(codec.encode(WithNode(d, node))) == Some(WithNode(d, node))
    && codec.decodeOps(codec.encodeOps(AddNode(node))) == Some(AddNode(node))
  }

  lemma NodeIsAdded(d: WorkflowPatch.Doc, node: Json)
    ensures WorkflowPatch.PatchAll(d, AddNode(node)) == Some(WithNode(d, node))
  {
    var ops := AddNode(node);
    assert WorkflowPatch.PatchAll(d, ops[..0]) == Some(d);
    assert WorkflowPatch.PatchStep(d, ops[0]) == Some(WithNode(d, node));
  }

  lemma TwiceAdded(codec: Codec, d: WorkflowPatch.Doc, node: Json)
    requires RoundTrips(codec, d, node)
    ensures var apply, patch := JsonPatcher(codec), codec.encodeOps(AddNode(node));
      Bind(apply, Bind(apply, Some(codec.encode(d)), patch), patch) == Some(codec.encode(WithNode(WithNode(d, node), node)))
  {
    NodeIsAdded(d, node);
    NodeIsAdded(WithNode(d, node), node);
  }

  /** Adding the same node to a workflow twice: the head materialises to the document with both
      nodes, which parses, and compaction refuses it. */
  lemma MaterialisesButNotCompacted(
    s: Store, codec: Codec, parses: Parser, tag: Tag, d: WorkflowPatch.Doc, node: Json, id: Id, id': Id)
    requires Valid(s) && tag in s.tags && id !in s.artifacts && id' !in s.artifacts && id != id' && RoundTrips(codec, d, node)
    requires Document(s, JsonPatcher(codec), s.tags[tag]) == Some(codec.encode(d))
    requires parses(codec.encode(WithNode(WithNode(d, node), node)))
    ensures var apply, patch := JsonPatcher(codec), codec.encodeOps(AddNode(node));
      var s1 := Exec(s, apply, parses, Patch(tag, patch, id));
      && Valid(s1) && Enabled(s1, apply, parses, Patch(tag, patch, id'))
      && var s2 := Exec(s1, apply, parses, Patch(tag, patch, id'));
        && Valid(s2) && IsPatch(s2, id') && Document(s2, apply, id') == Some(codec.encode(WithNode(WithNode(d, node), node)))
        && parses(Document(s2, apply, id').value) && !CanCompact(s2, apply, parses, id')
  {
    TwiceAdded(codec, d, node);
    RepeatedPatchNotCompacted(s, JsonPatcher(codec), parses, tag, codec.encodeOps(AddNode(node)), id, id');
  }

  /** The hypotheses can be met: for every document and node there is a codec, a store whose tag stands
      for the document, and a parser that accepts everything. */
  lemma RefusalHappens(d: WorkflowPatch.Doc, node: Json, tag: Tag) returns (s: Store, codec: Codec)
    ensures Valid(s) && tag in s.tags && s.artifacts.Keys == {0} && RoundTrips(codec, d, node)
    ensures Document(s, JsonPatcher(codec), s.tags[tag]) == Some(codec.encode(d))
  {
    var d', ops := WithNode(d, node), AddNode(node);
    codec := Codec(
      x => if x == d then "old" else if x == d' then "one" else "two",
      b => if b == "old" then Some(d) else if b == "one" then Some(d') else None,
      _ => "add",
      _ => Some(ops));
    StartsFrom(JsonPatcher(codec), tag, codec.encode(d));
    s := Exec(EMPTY, JsonPatcher(codec), _ => true, Create(tag, codec.encode(d), 0));
  }

  lemma StartsFrom(apply: Patcher, tag: Tag, content: Bytes)
    ensures Valid(EMPTY) && Enabled(EMPTY, apply, _ => true, Create(tag, content, 0))
    ensures var s := Exec(EMPTY, apply, _ => true, Create(tag, content, 0));
      Valid(s) && tag in s.tags && s.tags[tag] == 0 && s.artifacts.Keys == {0} && Document(s, apply, 0) == Some(content)
  {
    CreateStoresDocument(EMPTY, apply, _ => true, tag, content, 0);
  }
}
