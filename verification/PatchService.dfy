/** The services over the versioned store (cmd/orchestrator/service/workflow.go, artifact.go,
    compaction.go, materializer.go, cas.go), as methods on mutable tables proved against the
    state machine of PatchStore. Fresh UUIDs are parameters; database writes succeed. */
module PatchService {
  import opened Wrappers
  import opened PatchStore
  import Seqs

  datatype Components = Components(base: Bytes, patches: seq<Bytes>)

  ghost function Parsed(parses: Parser, doc: Option<Bytes>): Option<Bytes> {
    if doc.Some? && parses(doc.value) then doc else None
  }

  lemma {:induction false} DistinctIffSameSize<T>(s: seq<T>)
    ensures |set x | x in s| <= |s|
    ensures |set x | x in s| == |s| <==> forall i, j :: 0 <= i < j < |s| ==> s[i] != s[j]
  {
    if s != [] {
      var n := |s| - 1;
      var front := s[..n];
      DistinctIffSameSize(front);
      var all, some := set x | x in s, set x | x in front;
      assert s == front + [s[n]];
      if s[n] in front {
        var k :| 0 <= k < n && front[k] == s[n];
        assert all == some;
      } else {
        assert all == some + {s[n]};
      }
    }
  }

  lemma ReplayStep(apply: Patcher, doc: Bytes, patches: seq<Bytes>, i: nat)
    requires i < |patches|
    ensures Replay(apply, doc, patches[..i + 1]) == Bind(apply, Replay(apply, doc, patches[..i]), patches[i])
  {
    assert patches[..i + 1][..i] == patches[..i];
  }

  lemma {:induction false} ReplayFails(apply: Patcher, doc: Bytes, patches: seq<Bytes>, k: nat)
    requires k <= |patches| && Replay(apply, doc, patches[..k]).None?
    ensures Replay(apply, doc, patches).None?
    decreases |patches|
  {
    if k < |patches| {
      assert patches[..|patches| - 1][..k] == patches[..k];
      ReplayFails(apply, doc, patches[..|patches| - 1], k);
    } else {
      Seqs.Whole(patches);
    }
  }

  class Service {
    const apply: Patcher
    const parses: Parser
    var blobs: map<CasId, Bytes>
    var artifacts: map<Id, Artifact>
    var members: map<(Id, nat), Id>
    var tags: map<Tag, Id>
    ghost var prev: map<Id, Id>

    ghost function Tables(): Store
      reads this
    {
      Store(blobs, artifacts, members, tags, prev)
    }

    constructor (apply: Patcher, parses: Parser)
      ensures Tables() == EMPTY && Valid(Tables()) && this.apply == apply && this.parses == parses
    {
      this.apply, this.parses := apply, parses;
      blobs, artifacts, members, tags, prev := map[], map[], map[], map[], map[];
    }

    // ---- Content-addressed blobs

    method StoreContent(content: Bytes) returns (c: CasId)
      requires forall b :: b in blobs ==> blobs[b] == b.content
      modifies this`blobs
      ensures c == Sha256(content) && blobs == old(blobs)[c := content]
    {
      c := Sha256(content);
      if c in blobs { return; }
      blobs := blobs[c := content];
    }

    /** One row per distinct id: repeated ids collapse. */
    method GetContentBulk(ids: seq<CasId>) returns (found: map<CasId, Bytes>)
      ensures found == map c | c in ids && c in blobs :: blobs[c]
    {
      found := map c | c in ids && c in blobs :: blobs[c];
    }

    method CasIds(chain: seq<Id>) returns (ids: seq<CasId>)
      requires forall k :: 0 <= k < |chain| ==> chain[k] in artifacts
      ensures |ids| == |chain| && forall k :: 0 <= k < |chain| ==> ids[k] == artifacts[chain[k]].cas
    {
      ids := [];
      for i := 0 to |chain|
        invariant |ids| == i && forall k :: 0 <= k < i ==> ids[k] == artifacts[chain[k]].cas
      {
        ids := ids + [artifacts[chain[i]].cas];
      }
    }

    // ---- The chain table

    /** All rows of a head in ascending seq order. */
    method GetPatchChain(head: Id, ghost path: seq<Id>) returns (chain: seq<Id>)
      requires forall k: nat :: RowAgrees(members, head, path, k)
      ensures chain == path
    {
      var pending := set row | row in members && row.0 == head :: row.1;
      chain := [];
      forall k: nat ensures k in pending <==> 1 <= k <= |path| {
        assert RowAgrees(members, head, path, k);
        assert (head, k) in members ==> (head, k).1 in pending;
      }
      while pending != {}
        invariant |chain| <= |path| && chain == path[..|chain|]
        invariant forall k: nat :: k in pending <==> |chain| < k <= |path|
        decreases |path| - |chain|
      {
        var any :| any in pending;
        assert |chain| + 1 in pending;
        var k :| k in pending && forall j :: j in pending ==> k <= j;
        assert RowAgrees(members, head, path, k);
        Seqs.Snoc(path, |chain|);
        chain := chain + [members[(head, k)]];
        pending := pending - {k};
      }
      assert |chain| + 1 !in pending;
      Seqs.Whole(path);
    }

    method InsertPatchChain(head: Id, ids: seq<Id>)
      modifies this`members
      ensures members == WithRows(old(members), head, ids)
    {
      for i := 0 to |ids|
        invariant members == WithRows(old(members), head, ids[..i])
      {
        assert ids[..i + 1][..i] == ids[..i];
        members := members[(head, i + 1) := ids[i]];
      }
      Seqs.Whole(ids);
    }

    // ---- Artifacts

    /** Inserts the artifact, then the previous head's chain extended by the new patch. */
    method CreatePatchArtifact(c: CasId, base: Id, previous: Option<Id>, depth: nat, id: Id, ghost path: seq<Id>)
      requires if previous.Some? then forall k: nat :: RowAgrees(members, previous.value, path, k) else path == []
      modifies this`artifacts, this`members
      ensures artifacts == old(artifacts)[id := PatchSet(c, base, depth)]
      ensures members == WithRows(old(members), id, path + [id])
    {
      artifacts := artifacts[id := PatchSet(c, base, depth)];
      var chain: seq<Id> := [];
      if previous.Some? {
        chain := GetPatchChain(previous.value, path);
      }
      InsertPatchChain(id, chain + [id]);
    }

    method WriteDag(doc: Bytes, id: Id, from: Option<Id>)
      requires forall b :: b in blobs ==> blobs[b] == b.content
      modifies this`blobs, this`artifacts
      ensures blobs == old(blobs)[Sha256(doc) := doc]
      ensures artifacts == old(artifacts)[id := DagVersion(Sha256(doc), Sha256(doc), from)]
    {
      var c := StoreContent(doc);
      artifacts := artifacts[id := DagVersion(c, c, from)];
    }

    /** Reuses an artifact with this version hash, whichever the query returns first. */
    method WriteVersion(content: Bytes, fresh': Id) returns (id: Id)
      requires (forall b :: b in blobs ==> blobs[b] == b.content) && fresh' !in artifacts
      modifies this`blobs, this`artifacts
      ensures blobs == old(blobs)[Sha256(content) := content]
      ensures id in old(artifacts) ==> HasVersion(old(Tables()), id, Sha256(content)) && artifacts == old(artifacts)
      ensures id !in old(artifacts) ==> id == fresh' && forall a :: a in old(artifacts) ==> !HasVersion(old(Tables()), a, Sha256(content))
      ensures id !in old(artifacts) ==> artifacts == old(artifacts)[id := DagVersion(Sha256(content), Sha256(content), None)]
    {
      var c := StoreContent(content);
      if a :| a in artifacts && VersionHash(artifacts[a]) == Some(c) {
        id := a;
      } else {
        id := fresh';
        artifacts := artifacts[id := DagVersion(c, c, None)];
      }
    }

    method CreateWorkflow(tag: Tag, content: Bytes, fresh': Id) returns (id: Id)
      requires Valid(Tables()) && fresh' !in artifacts
      modifies this
      ensures id == fresh' || id in old(artifacts)
      ensures Enabled(old(Tables()), apply, parses, Create(tag, content, id))
      ensures Tables() == Exec(old(Tables()), apply, parses, Create(tag, content, id))
      ensures tags == old(tags)[tag := id] && id in artifacts && VersionHash(artifacts[id]) == Some(Sha256(content))
      ensures artifacts == if id in old(artifacts) then old(artifacts) else old(artifacts)[id := DagVersion(Sha256(content), Sha256(content), None)]
      ensures blobs == old(blobs)[Sha256(content) := content]
      ensures members == old(members)
      ensures id == fresh' <==> forall a :: a in old(artifacts) ==> VersionHash(old(artifacts)[a]) != Some(Sha256(content))
      ensures Valid(Tables())
    {
      ghost var s := Tables();
      id := WriteVersion(content, fresh');
      tags := tags[tag := id];
      ghost var c := Create(tag, content, id);
      assert Enabled(s, apply, parses, c);
      assert Tables() == Exec(s, apply, parses, c);
      assert Valid(Tables()) by {
        StepKeepsValid(s, apply, parses, c);
      }
    }

    /** The writes of a patch on the artifact `current`, whose stored chain is `path`. */
    method WritePatch(tag: Tag, patch: Bytes, id: Id, current: Id, ghost path: seq<Id>)
      requires forall b :: b in blobs ==> blobs[b] == b.content
      requires current in artifacts && forall k: nat :: RowAgrees(members, current, path, k)
      requires artifacts[current].DagVersion? ==> path == []
      modifies this
      ensures blobs == old(blobs)[Sha256(patch) := patch] && tags == old(tags)[tag := id]
      ensures artifacts == old(artifacts[id := PatchSet(Sha256(patch), Base(Tables(), current), Level(Tables(), current) + 1)])
      ensures members == WithRows(old(members), id, path + [id]) && prev == old(prev)[id := current]
    {
      var artifact := artifacts[current];
      var base, previous, depth := current, None, 1;
      if artifact.PatchSet? {
        base, previous, depth := artifact.baseVersion, Some(current), artifact.depth + 1;
      }
      var c := StoreContent(patch);
      CreatePatchArtifact(c, base, previous, depth, id, path);
      tags := tags[tag := id];
      prev := prev[id := current];
    }

    method CreatePatch(tag: Tag, patch: Bytes, id: Id) returns (ok: bool)
      requires Valid(Tables()) && id !in artifacts
      modifies this
      ensures ok <==> tag in old(tags)
      ensures ok ==> Tables() == Exec(old(Tables()), apply, parses, Patch(tag, patch, id))
      ensures ok ==> tags == old(tags)[tag := id] && blobs == old(blobs)[Sha256(patch) := patch]
      ensures ok ==>
        var on := old(artifacts)[old(tags)[tag]];
        artifacts == old(artifacts)[id :=
          if on.DagVersion? then PatchSet(Sha256(patch), old(tags)[tag], 1) else PatchSet(Sha256(patch), on.baseVersion, on.depth + 1)]
      ensures !ok ==> Tables() == old(Tables())
      ensures Valid(Tables())
    {
      if tag !in tags { return false; }
      ghost var after := Exec(Tables(), apply, parses, Patch(tag, patch, id));
      var current := tags[tag];
      StepKeepsValid(Tables(), apply, parses, Patch(tag, patch, id));
      assert RowsAgree(Tables(), current);
      WritePatch(tag, patch, id, current, Path(Tables(), current));
      assert Tables() == after;
      return true;
    }

    // ---- Reading a version

    /** Fails only if some blob is missing. */
    method LoadPatchChain(chain: seq<Id>) returns (r: Option<seq<Bytes>>)
      requires forall k :: 0 <= k < |chain| ==> chain[k] in artifacts
      ensures r.Some? <==> forall k :: 0 <= k < |chain| ==> artifacts[chain[k]].cas in blobs
      ensures r.Some? ==> |r.value| == |chain|
      ensures r.Some? ==> forall k :: 0 <= k < |chain| ==> r.value[k] == blobs[artifacts[chain[k]].cas]
    {
      var ids := CasIds(chain);
      var found := GetContentBulk(ids);
      var patches: seq<Bytes> := [];
      for i := 0 to |chain|
        invariant |patches| == i
        invariant forall k :: 0 <= k < i ==> artifacts[chain[k]].cas in blobs && patches[k] == blobs[artifacts[chain[k]].cas]
      {
        var c := artifacts[chain[i]].cas;
        assert ids[i] in ids;
        if c !in found { return None; }
        patches := patches + [found[c]];
      }
      return Some(patches);
    }

    /** The first `seq'` patches of a head over its base. */
    method GetWorkflowComponentsAtVersion(tag: Tag, seq': int) returns (r: Option<Components>)
      requires Valid(Tables())
      ensures r.Some? <==> tag in tags && 0 <= seq' <= (if artifacts[tags[tag]].DagVersion? then 1 else artifacts[tags[tag]].depth)
      ensures r.Some? ==> r.value.base == Content(Tables(), Base(Tables(), tags[tag]))
      ensures r.Some? ==> var path := Path(Tables(), tags[tag]);
        r.value.patches == Contents(Tables(), if seq' <= |path| then path[..seq'] else path)
    {
      if seq' < 0 || tag !in tags { return None; }
      var head := tags[tag];
      var artifact := artifacts[head];
      ghost var path := Path(Tables(), head);
      if artifact.DagVersion? {
        if seq' > 1 { return None; }
        return Some(Components(blobs[artifact.cas], []));
      }
      var base := blobs[artifacts[artifact.baseVersion].cas];
      if seq' == 0 {
        return Some(Components(base, []));
      }
      assert RowsAgree(Tables(), head);
      var chain := GetPatchChain(head, path);
      if seq' > |chain| { return None; }
      var patches := LoadPatchChain(chain[..seq']);
      return Some(Components(base, patches.value));
    }

    method GetWorkflowComponents(tag: Tag) returns (r: Option<Components>)
      requires Valid(Tables())
      ensures r.Some? <==> tag in tags
      ensures r.Some? ==> r.value.base == Content(Tables(), Base(Tables(), tags[tag]))
      ensures r.Some? ==> r.value.patches == Contents(Tables(), Path(Tables(), tags[tag]))
    {
      if tag !in tags { return None; }
      var head := tags[tag];
      var artifact := artifacts[head];
      ghost var path := Path(Tables(), head);
      if artifact.DagVersion? {
        return Some(Components(blobs[artifact.cas], []));
      }
      assert RowsAgree(Tables(), head);
      var chain := GetPatchChain(head, path);
      var base := blobs[artifacts[artifact.baseVersion].cas];
      var patches := LoadPatchChain(chain);
      return Some(Components(base, patches.value));
    }

    method Materialize(components: Components) returns (r: Option<Bytes>)
      ensures r == Parsed(parses, Replay(apply, components.base, components.patches))
    {
      var current := components.base;
      var patches := components.patches;
      for i := 0 to |patches|
        invariant Replay(apply, components.base, patches[..i]) == Some(current)
      {
        ReplayStep(apply, components.base, patches, i);
        var next := apply(current, patches[i]);
        if next.None? {
          ReplayFails(apply, components.base, patches, i + 1);
          return None;
        }
        current := next.value;
      }
      Seqs.Whole(patches);
      return if parses(current) then Some(current) else None;
    }

    /** A tag reads back as the document its predecessors define. */
    method MaterializeTag(tag: Tag) returns (r: Option<Bytes>)
      requires Valid(Tables())
      ensures r == if tag in tags then Parsed(parses, Document(Tables(), apply, tags[tag])) else None
      ensures r.Some? ==> parses(r.value)
      ensures tag in tags && Document(Tables(), apply, tags[tag]).Some? && parses(Document(Tables(), apply, tags[tag]).value) ==> r.Some?
    {
      var components := GetWorkflowComponents(tag);
      if components.None? { return None; }
      DocumentIsReplay(Tables(), apply, tags[tag]);
      r := Materialize(components.value);
    }

    /** Version k of a patched tag is its k-th chain member read as a head; version 0 is the base. */
    method MaterializeTagAtVersion(tag: Tag, k: int) returns (r: Option<Bytes>)
      requires Valid(Tables()) && tag in tags && artifacts[tags[tag]].PatchSet?
      ensures !(0 <= k <= artifacts[tags[tag]].depth) ==> r.None?
      ensures k == 0 ==> r == Parsed(parses, Document(Tables(), apply, artifacts[tags[tag]].baseVersion))
      ensures 1 <= k <= artifacts[tags[tag]].depth ==>
        && (tags[tag], k) in members && members[(tags[tag], k)] in artifacts
        && r == Parsed(parses, Document(Tables(), apply, members[(tags[tag], k)]))
    {
      var components := GetWorkflowComponentsAtVersion(tag, k);
      if components.None? { return None; }
      if k > 0 {
        TimeTravel(Tables(), apply, tags[tag], k);
      }
      r := Materialize(components.value);
    }

    // ---- Compaction

    /** Steps 4 and 5 of the compaction: the bulk read must return as many blobs as the chain
        has entries, and every patch must apply. */
    method ReplayChain(base: Bytes, chain: seq<Id>) returns (r: Option<Bytes>)
      requires Stored(Tables()) && forall k :: 0 <= k < |chain| ==> chain[k] in artifacts
      ensures r == if DistinctPatches(Tables(), chain) then Replay(apply, base, Contents(Tables(), chain)) else None
    {
      var ids := CasIds(chain);
      var found := GetContentBulk(ids);
      ghost var contents := Contents(Tables(), chain);
      DistinctIffSameSize(ids);
      assert found.Keys == set c | c in ids;
      if |found| != |chain| { return None; }
      r := Some(base);
      for i := 0 to |chain|
        invariant r.Some? && r == Replay(apply, base, contents[..i])
      {
        ReplayStep(apply, base, contents, i);
        assert ids[i] in ids;
        r := apply(r.value, found[artifacts[chain[i]].cas]);
        if r.None? {
          ReplayFails(apply, base, contents, i + 1);
          return;
        }
      }
      Seqs.Whole(contents);
    }

    /** Steps 1 to 6: the materialised document, or a refusal. */
    method CompactedDocument(head: Id) returns (doc: Option<Bytes>)
      requires Valid(Tables())
      ensures doc.Some? <==> CanCompact(Tables(), apply, parses, head)
      ensures doc.Some? ==> doc == Document(Tables(), apply, head)
    {
      if head !in artifacts || !artifacts[head].PatchSet? || artifacts[head].depth == 0 { return None; }
      ghost var path := Path(Tables(), head);
      assert RowsAgree(Tables(), head);
      DocumentIsReplay(Tables(), apply, head);
      var chain := GetPatchChain(head, path);
      var base := blobs[artifacts[artifacts[head].baseVersion].cas];
      doc := ReplayChain(base, chain);
      if doc.Some? && !parses(doc.value) { return None; }
    }

    method CompactWorkflow(head: Id, id: Id) returns (ok: bool)
      requires Valid(Tables()) && id !in artifacts
      modifies this
      ensures ok <==> CanCompact(old(Tables()), apply, parses, head)
      ensures ok ==> parses(Document(old(Tables()), apply, head).value)
      ensures ok ==> Tables() == Exec(old(Tables()), apply, parses, Compact(head, id))
      ensures tags == old(tags) && members == old(members)
      ensures ok ==>
        var doc := Document(old(Tables()), apply, head).value;
        && blobs == old(blobs)[Sha256(doc) := doc]
        && artifacts == old(artifacts)[id := DagVersion(Sha256(doc), Sha256(doc), Some(head))]
      ensures !ok ==> Tables() == old(Tables())
      ensures Valid(Tables())
    {
      var doc := CompactedDocument(head);
      if doc.None? { return false; }
      ghost var after := Exec(Tables(), apply, parses, Compact(head, id));
      StepKeepsValid(Tables(), apply, parses, Compact(head, id));
      WriteDag(doc.value, id, Some(head));
      assert Tables() == after;
      return true;
    }

    method MigrateTagToCompactedBase(tag: Tag, base: Id) returns (ok: bool)
      requires Valid(Tables())
      modifies this`tags
      ensures ok <==> tag in old(tags) && base in artifacts && artifacts[base].DagVersion?
      ensures ok <==> Enabled(old(Tables()), apply, parses, Migrate(tag, base))
      ensures tags == if ok then old(tags)[tag := base] else old(tags)
      ensures ok ==> Tables() == Exec(old(Tables()), apply, parses, Migrate(tag, base))
      ensures !ok ==> Tables() == old(Tables())
      ensures Valid(Tables())
    {
      if tag !in tags || base !in artifacts || !artifacts[base].DagVersion? { return false; }
      tags := tags[tag := base];
      assert Valid(Tables()) by {
        StepKeepsValid(old(Tables()), apply, parses, Migrate(tag, base));
      }
      return true;
    }
  }
}
