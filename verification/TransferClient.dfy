/** The push and download loops, and the promise that every published manifest can be fetched in full. */
module TransferClient {
  import opened Options
  import opened Data
  import opened Paths
  import opened Manifests
  import opened Transfer
  import Rsob

  // ---------------------------------------------------------------- chunk lists

  function Joined(chunks: seq<Bytes>): Bytes {
    if chunks == [] then [] else Joined(chunks[..|chunks| - 1]) + chunks[|chunks| - 1]
  }

  lemma {:induction false} JoinedFirst(x: Bytes, chunks: seq<Bytes>)
    ensures Joined([x] + chunks) == x + Joined(chunks)
  {
    var all := [x] + chunks;
    if chunks == [] {
      assert all[..0] == [] && Joined(all[..0]) == [];
    } else {
      var front := chunks[..|chunks| - 1];
      assert all[..|all| - 1] == [x] + front;
      JoinedFirst(x, front);
      assert x + (Joined(front) + chunks[|chunks| - 1]) == (x + Joined(front)) + chunks[|chunks| - 1];
    }
  }

  /** Chunking loses nothing, never yields nothing, and respects the size. */
  lemma {:induction false} ChunksJoin(bytes: Bytes, size: nat)
    requires size > 0
    ensures Joined(Chunks(bytes, size)) == bytes
    ensures |Chunks(bytes, size)| > 0
    ensures forall i | 0 <= i < |Chunks(bytes, size)| - 1 :: |Chunks(bytes, size)[i]| == size
    ensures bytes != [] ==> forall i | 0 <= i < |Chunks(bytes, size)| :: Chunks(bytes, size)[i] != []
    ensures forall i | 0 <= i < |Chunks(bytes, size)| :: |Chunks(bytes, size)[i]| <= size
    decreases |bytes|
  {
    if |bytes| <= size {
      assert [bytes][..0] == [];
    } else {
      ChunksJoin(bytes[size..], size);
      JoinedFirst(bytes[..size], Chunks(bytes[size..], size));
      assert bytes == bytes[..size] + bytes[size..];
    }
  }

  // ---------------------------------------------------------------- one manifest

  /** The staged contents of every file are cached and have the recorded size. */
  ghost predicate Staged(d: Digest, m: Entries, cache: map<string, Bytes>) {
    forall p | IsFileEntry(m, p) && m[p].file.contentHash in cache ::
      d.hash(cache[m[p].file.contentHash]) == m[p].file.contentHash ==>
        |cache[m[p].file.contentHash]| == m[p].file.size
  }

  predicate AllCached(d: Digest, m: Entries, cache: map<string, Bytes>) {
    forall p | p in m && m[p].File? ::
      m[p].file.contentHash in cache && d.hash(cache[m[p].file.contentHash]) == m[p].file.contentHash
  }

  datatype StagedBlob = StagedBlob(contentHash: string, bytes: Bytes)

  ghost predicate Verified(d: Digest, staged: seq<StagedBlob>) {
    forall i | 0 <= i < |staged| :: d.hash(staged[i].bytes) == staged[i].contentHash
  }

  ghost predicate Covers(m: Entries, staged: seq<StagedBlob>) {
    forall p | IsFileEntry(m, p) :: Stages(staged, m[p].file.contentHash)
  }

  /** Reads the contents of every file entry from the cache, in path order, verifying each. */
  method StagedBlobs(d: Digest, m: Entries, cache: map<string, Bytes>) returns (ok: bool, staged: seq<StagedBlob>)
    ensures ok <==> forall p | IsFileEntry(m, p) ::
      m[p].file.contentHash in cache && d.hash(cache[m[p].file.contentHash]) == m[p].file.contentHash
    ensures ok <==> AllCached(d, m, cache)
    ensures ok ==> Verified(d, staged) && Covers(m, staged)
    ensures ok ==> forall b | b in staged :: exists p :: IsFileEntry(m, p) && m[p].file.contentHash == b.contentHash
  {
    staged := [];
    var keys := InOrder(m.Keys);
    for i := 0 to |keys|
      invariant Verified(d, staged)
      invariant forall b | b in staged :: exists p :: IsFileEntry(m, p) && m[p].file.contentHash == b.contentHash
      invariant forall j | 0 <= j < i && m[keys[j]].File? ::
        m[keys[j]].file.contentHash in cache &&
        d.hash(cache[m[keys[j]].file.contentHash]) == m[keys[j]].file.contentHash
      invariant forall j | 0 <= j < i && m[keys[j]].File? :: Stages(staged, m[keys[j]].file.contentHash)
    {
      if m[keys[i]].File? {
        var h := m[keys[i]].file.contentHash;
        if h !in cache || d.hash(cache[h]) != h {
          assert keys[i] in m;
          return false, staged;
        }
        assert IsFileEntry(m, keys[i]);
        StagesMore(staged, StagedBlob(h, cache[h]));
        staged := staged + [StagedBlob(h, cache[h])];
      }
    }
    forall p | IsFileEntry(m, p)
      ensures Stages(staged, m[p].file.contentHash)
      ensures m[p].file.contentHash in cache && d.hash(cache[m[p].file.contentHash]) == m[p].file.contentHash
    {
      assert p in keys;
    }
    ok := true;
  }

  ghost predicate Stages(staged: seq<StagedBlob>, h: string) {
    exists i :: 0 <= i < |staged| && staged[i].contentHash == h
  }

  lemma StagesMore(staged: seq<StagedBlob>, b: StagedBlob)
    ensures Stages(staged + [b], b.contentHash)
    ensures forall h | Stages(staged, h) :: Stages(staged + [b], h)
  {
    assert (staged + [b])[|staged|] == b;
    forall h | Stages(staged, h) ensures Stages(staged + [b], h) {
      var i :| 0 <= i < |staged| && staged[i].contentHash == h;
      assert (staged + [b])[i].contentHash == h;
    }
  }

  /** The references stand for contents with this hash. */
  ghost predicate RefersTo(c: Crypto, blobs: Blobs, h: string, ids: seq<string>) {
    ids != [] && FileAt(c, blobs, ids).Some? && c.digest.hash(FileAt(c, blobs, ids).value) == h
  }

  ghost function Refers(c: Crypto, blobs: Blobs): (string, seq<string>) -> bool {
    (h, ids) => RefersTo(c, blobs, h, ids)
  }

  ghost predicate AllRefer(refers: (string, seq<string>) -> bool, refs: map<string, seq<string>>) {
    forall h | h in refs :: refers(h, refs[h])
  }

  lemma AllReferStays(c: Crypto, blobs: Blobs, blobs': Blobs, refs: map<string, seq<string>>)
    requires AllRefer(Refers(c, blobs), refs) && Grows(blobs, blobs')
    ensures AllRefer(Refers(c, blobs'), refs)
  {
    forall h | h in refs ensures Refers(c, blobs')(h, refs[h]) {
      assert Refers(c, blobs)(h, refs[h]);
      FileAtPersists(c, blobs, blobs', refs[h]);
    }
  }

  /** The references of the previous manifest can be reused. */
  lemma PreviousRefs(c: Crypto, blobs: Blobs, m: Entries, files: map<string, RemoteFile>)
    requires Downloadable(c, blobs, m) && Indexes(m, files)
    ensures AllRefer(Refers(c, blobs), map h | h in files :: files[h].ids)
  {
  }

  function WithRefs(f: FileEntry, ids: seq<string>): FileEntry {
    if |ids| == 1 then f.(remoteBlobId := Some(ids[0]), remoteChunkIds := [])
    else f.(remoteBlobId := None, remoteChunkIds := ids)
  }

  /** The same paths, directories, sizes, hashes and timestamps; one reference is stored as the blob of the
      file, several as its chunks. */
  ghost predicate OnlyReferencesDiffer(m: Entries, remote: Entries) {
    && remote.Keys == m.Keys
    && (forall p | p in m && m[p].Directory? :: remote[p].Directory?)
    && (forall p | p in m && m[p].File? ::
          && remote[p].File?
          && remote[p].file.size == m[p].file.size && remote[p].file.contentHash == m[p].file.contentHash
          && remote[p].file.modifiedAt == m[p].file.modifiedAt
          && (remote[p].file.remoteBlobId.Some? <==> remote[p].file.remoteChunkIds == [])
          && |remote[p].file.remoteChunkIds| != 1)
  }

  ghost predicate HasRefs(m: Entries, refs: map<string, seq<string>>) {
    forall p | IsFileEntry(m, p) :: m[p].file.contentHash in refs
  }

  function Rewritten(m: Entries, refs: map<string, seq<string>>): Entries
    requires HasRefs(m, refs)
  {
    map p | p in m ::
      if m[p].File? then (assert IsFileEntry(m, p); File(WithRefs(m[p].file, refs[m[p].file.contentHash])))
      else m[p]
  }

  lemma RewrittenFile(m: Entries, refs: map<string, seq<string>>, p: Path)
    requires HasRefs(m, refs)
    ensures IsFileEntry(m, p) <==> IsFileEntry(Rewritten(m, refs), p)
    ensures At(Rewritten(m, refs), p) == At(m, p)
    ensures IsFileEntry(m, p) && refs[m[p].file.contentHash] != [] ==>
      RefsOf(Rewritten(m, refs)[p].file) == Some(refs[m[p].file.contentHash])
  {
    if IsFileEntry(m, p) {
      var ids := refs[m[p].file.contentHash];
      assert |ids| == 1 ==> [ids[0]] == ids;
    }
  }

  /** References of a staged file stand for its cached contents. */
  lemma RefsAreContents(
    c: Crypto, blobs: Blobs, m: Entries, cache: map<string, Bytes>, refs: map<string, seq<string>>, p: Path)
    requires HasRefs(m, refs) && AllRefer(Refers(c, blobs), refs) && IsFileEntry(m, p)
    requires CollisionFree(c.digest) && AllCached(c.digest, m, cache) && Staged(c.digest, m, cache)
    ensures FileAt(c, blobs, refs[m[p].file.contentHash]) == Some(cache[m[p].file.contentHash])
    ensures refs[m[p].file.contentHash] != [] && |cache[m[p].file.contentHash]| == m[p].file.size
  {
  }

  /** Rewriting touches nothing but the references, and the result can be downloaded. */
  lemma RewrittenIsDownloadable(
    c: Crypto, blobs: Blobs, m: Entries, cache: map<string, Bytes>, refs: map<string, seq<string>>)
    requires HasRefs(m, refs) && AllRefer(Refers(c, blobs), refs)
    requires CollisionFree(c.digest) && AllCached(c.digest, m, cache) && Staged(c.digest, m, cache)
    ensures OnlyReferencesDiffer(m, Rewritten(m, refs)) && Downloadable(c, blobs, Rewritten(m, refs))
  {
    var m' := Rewritten(m, refs);
    forall p | IsFileEntry(m, p) ensures refs[m[p].file.contentHash] != [] {
      RefsAreContents(c, blobs, m, cache, refs, p);
    }
    forall p ensures At(m', p) == At(m, p) { RewrittenFile(m, refs, p); }
    forall p | IsFileEntry(m', p)
      ensures IsFileEntry(m, p) && RefsOf(m'[p].file) == Some(refs[m[p].file.contentHash])
      ensures FileFetches(c, blobs, m'[p].file)
    {
      RewrittenFile(m, refs, p);
      RefsAreContents(c, blobs, m, cache, refs, p);
      assert At(m', p) == At(m, p);
    }
    forall p, q | IsFileEntry(m', p) && IsFileEntry(m', q) && m'[p].file.contentHash == m'[q].file.contentHash
      ensures m'[p].file.size == m'[q].file.size && RefsOf(m'[p].file) == RefsOf(m'[q].file)
    {
      assert At(m', p) == At(m, p) && At(m', q) == At(m, q);
      RefsAreContents(c, blobs, m, cache, refs, p);
      RefsAreContents(c, blobs, m, cache, refs, q);
    }
  }

  lemma NextChunk(
    c: Crypto, blobs: Blobs, blobs': Blobs, ids: seq<string>, id: string, chunks: seq<Bytes>, i: nat)
    requires Grows(blobs, blobs') && i < |chunks|
    requires FileAt(c, blobs, ids) == Some(Joined(chunks[..i])) && ChunkAt(c, blobs', id) == Some(chunks[i])
    ensures FileAt(c, blobs', ids + [id]) == Some(Joined(chunks[..i + 1]))
  {
    FileAtPersists(c, blobs, blobs', ids);
    OneMoreChunk(c, blobs', ids, id);
    assert chunks[..i + 1][..i] == chunks[..i];
  }

  // ---------------------------------------------------------------- published manifests

  /** Serialization of manifests, and its inverse. */
  datatype Json = Json(write: Entries -> Bytes, read: Bytes -> Option<Entries>)

  ghost predicate Lossless(j: Json) {
    forall m :: j.read(j.write(m)) == Some(m)
  }

  function ManifestId(d: Digest, bytes: Bytes): string {
    "manifest_" + d.hash(bytes)
  }

  /** The manifest a manifest id stands for: downloaded, checked, decrypted and parsed. */
  ghost function Loaded(c: Crypto, j: Json, manifests: Blobs, id: string): Option<Entries> {
    if id in manifests && ManifestId(c.digest, manifests[id]) == id && c.read(manifests[id]).Some?
    then j.read(c.read(manifests[id]).value)
    else None
  }

  ghost predicate Published(c: Crypto, j: Json, blobs: Blobs, manifests: Blobs, id: string) {
    Loaded(c, j, manifests, id).Some? && Downloadable(c, blobs, Loaded(c, j, manifests, id).value)
  }

  datatype PushResult =
    | Pushed(manifestId: string)
    | InconsistentReferences
    | MissingStagedBlob
    | ManifestTooLarge
    | HeadConflict

  /** The client together with what the server stores: blobs and manifests by id, and the heads so far. */
  class SyncClient {
    const c: Crypto
    const json: Json
    var drawn: nat
    var blobs: Blobs
    var manifests: Blobs
    var history: seq<string>

    constructor (c: Crypto, json: Json)
      requires Sound(c) && Lossless(json)
      ensures Valid() && history == []
    {
      this.c, this.json := c, json;
      drawn, blobs, manifests, history := 0, map[], map[], [];
    }

    /** Stored bytes have their ids, and every published manifest can be fetched in full. */
    ghost predicate Valid()
      reads this
    {
      && Sound(c) && Lossless(json) && StoreOk(c.digest, blobs)
      && (forall id | id in manifests :: ManifestId(c.digest, manifests[id]) == id)
      && (forall i | 0 <= i < |history| :: Published(c, json, blobs, manifests, history[i]))
    }

    /** Encrypts one chunk under a fresh nonce and uploads the frame, which always fits. */
    method UploadChunk(chunk: Bytes) returns (id: string)
      requires Sound(c) && StoreOk(c.digest, blobs) && |chunk| <= ChunkSize(c)
      modifies this`drawn, this`blobs
      ensures StoreOk(c.digest, blobs) && Grows(old(blobs), blobs)
      ensures ChunkAt(c, blobs, id) == Some(chunk)
      ensures id in blobs && |blobs[id]| <= Rsob.MAX_ENCRYPTED_OBJECT_BYTES
    {
      var o := Sealed(c, drawn, chunk);
      drawn := drawn + 1;
      ChunkFits(c, drawn - 1, chunk);
      Rsob.FrameParts(o);
      var frame := Rsob.Encode(o);
      id := BlobId(c.digest, frame.value);
      if id !in blobs {
        blobs := blobs[id := frame.value];
      } else {
        SameBlob(c.digest, blobs[id], frame.value);
      }
    }

    /** A file becomes at least one chunk; an empty file is one empty chunk. */
    method UploadFile(bytes: Bytes) returns (ids: seq<string>)
      requires Sound(c) && StoreOk(c.digest, blobs)
      modifies this`drawn, this`blobs
      ensures StoreOk(c.digest, blobs) && Grows(old(blobs), blobs)
      ensures ids != [] && FileAt(c, blobs, ids) == Some(bytes)
    {
      ids := [];
      var size := ChunkSize(c);
      var chunks := Chunks(bytes, size);
      ChunksJoin(bytes, size);
      for i := 0 to |chunks|
        invariant StoreOk(c.digest, blobs) && Grows(old(blobs), blobs)
        invariant |ids| == i && FileAt(c, blobs, ids) == Some(Joined(chunks[..i]))
      {
        ghost var before := blobs;
        var id := UploadChunk(chunks[i]);
        NextChunk(c, before, blobs, ids, id, chunks, i);
        ids := ids + [id];
      }
      assert chunks[..|chunks|] == chunks;
    }

    method UploadMissing(h: string, bytes: Bytes, refs: map<string, seq<string>>)
      returns (refs': map<string, seq<string>>)
      requires Sound(c) && StoreOk(c.digest, blobs) && AllRefer(Refers(c, blobs), refs)
      requires c.digest.hash(bytes) == h && h !in refs
      modifies this`drawn, this`blobs
      ensures StoreOk(c.digest, blobs) && Grows(old(blobs), blobs) && AllRefer(Refers(c, blobs), refs')
      ensures h in refs' && forall g | g in refs :: g in refs' && refs'[g] == refs[g]
    {
      ghost var before := blobs;
      var ids := UploadFile(bytes);
      AllReferStays(c, before, blobs, refs);
      refs' := refs[h := ids];
    }

    /** Uploads every staged file once per content hash, except those the previous manifest refers to. */
    method UploadFiles(staged: seq<StagedBlob>, previous: map<string, seq<string>>)
      returns (refs: map<string, seq<string>>)
      requires Sound(c) && StoreOk(c.digest, blobs) && AllRefer(Refers(c, blobs), previous)
      requires Verified(c.digest, staged)
      modifies this`drawn, this`blobs
      ensures StoreOk(c.digest, blobs) && Grows(old(blobs), blobs) && AllRefer(Refers(c, blobs), refs)
      ensures forall i | 0 <= i < |staged| :: staged[i].contentHash in refs
      ensures forall h | h in previous :: h in refs && refs[h] == previous[h]
    {
      refs := previous;
      var seen: set<string> := {};
      for i := 0 to |staged|
        invariant StoreOk(c.digest, blobs) && Grows(old(blobs), blobs) && AllRefer(Refers(c, blobs), refs)
        invariant forall h | h in seen :: h in refs
        invariant forall j | 0 <= j < i :: staged[j].contentHash in seen
        invariant forall h | h in previous :: h in refs && refs[h] == previous[h]
      {
        var h := staged[i].contentHash;
        if h !in seen && h !in refs {
          refs := UploadMissing(h, staged[i].bytes, refs);
        }
        seen := seen + {h};
      }
    }

    /** Encrypts the manifest as one object, which may be refused as too large. */
    method UploadManifest(m: Entries) returns (id: Option<string>)
      requires Sound(c) && Lossless(json) && ManifestsOk()
      modifies this`drawn, this`manifests
      ensures ManifestsOk() && Grows(old(manifests), manifests)
      ensures id.Some? <==> |json.write(m)| <= ChunkSize(c)
      ensures id.Some? ==> Loaded(c, json, manifests, id.value) == Some(m)
    {
      var o := Sealed(c, drawn, json.write(m));
      drawn := drawn + 1;
      ChunkFits(c, drawn - 1, json.write(m));
      var frame := Rsob.Encode(o);
      if frame.Err? {
        return None;
      }
      var name := ManifestId(c.digest, frame.value);
      if name !in manifests {
        manifests := manifests[name := frame.value];
      } else {
        SameManifest(c.digest, manifests[name], frame.value);
      }
      id := Some(name);
    }

    ghost predicate ManifestsOk()
      reads this
    {
      forall id | id in manifests :: ManifestId(c.digest, manifests[id]) == id
    }

    /** Uploads the contents and rewrites the references; fails only for lack of a cached file. */
    method UploadContents(m: Entries, cache: map<string, Bytes>, previous: map<string, seq<string>>)
      returns (ok: bool, remote: Entries)
      requires Sound(c) && StoreOk(c.digest, blobs) && AllRefer(Refers(c, blobs), previous)
      requires Staged(c.digest, m, cache)
      modifies this`drawn, this`blobs
      ensures StoreOk(c.digest, blobs) && Grows(old(blobs), blobs)
      ensures ok <==> AllCached(c.digest, m, cache)
      ensures ok ==> OnlyReferencesDiffer(m, remote) && Downloadable(c, blobs, remote)
    {
      var staged;
      ok, staged := StagedBlobs(c.digest, m, cache);
      if !ok {
        return false, m;
      }
      var refs := UploadFiles(staged, previous);
      CoveredHasRefs(m, staged, refs);
      RewrittenIsDownloadable(c, blobs, m, cache, refs);
      remote := Rewritten(m, refs);
    }

    /** One push against the manifest the client last read. Whatever happens, what was published stays
        fetchable; on success so is the new manifest, which keeps the staged contents. */
    method Push(m: Entries, cache: map<string, Bytes>, previous: Entries, headIsCurrent: bool)
      returns (r: PushResult, ghost remote: Entries)
      requires Valid() && Staged(c.digest, m, cache)
      requires previous == map[] || exists id :: id in history && Loaded(c, json, manifests, id) == Some(previous)
      modifies this
      ensures Valid() && Grows(old(blobs), blobs) && Grows(old(manifests), manifests)
      ensures r != InconsistentReferences
      ensures r == MissingStagedBlob <==> !AllCached(c.digest, m, cache)
      ensures r == ManifestTooLarge <==> AllCached(c.digest, m, cache) && |json.write(remote)| > ChunkSize(c)
      ensures r == HeadConflict <==>
        AllCached(c.digest, m, cache) && |json.write(remote)| <= ChunkSize(c) && !headIsCurrent
      ensures r.Pushed? <==>
        AllCached(c.digest, m, cache) && |json.write(remote)| <= ChunkSize(c) && headIsCurrent
      ensures r != MissingStagedBlob ==> OnlyReferencesDiffer(m, remote) && Downloadable(c, blobs, remote)
      ensures r.Pushed? ==>
        && history == old(history) + [r.manifestId]
        && Loaded(c, json, manifests, r.manifestId) == Some(remote)
      ensures !r.Pushed? ==> history == old(history)
    {
      PreviousIsDownloadable(c, json, blobs, manifests, history, previous);
      var consistent, files := UniqueFileRemoteBlobIds(previous);
      PreviousRefs(c, blobs, previous, files);
      ghost var before, manifestsBefore := blobs, manifests;
      var cached, rewritten := UploadContents(m, cache, map h | h in files :: files[h].ids);
      remote := rewritten;
      var id := None;
      if cached {
        id := UploadManifest(rewritten);
      }
      HistoryStays(c, json, before, blobs, manifestsBefore, manifests, history);
      if !cached {
        return MissingStagedBlob, remote;
      }
      if id == None {
        return ManifestTooLarge, remote;
      }
      if !headIsCurrent {
        return HeadConflict, remote;
      }
      history := history + [id.value];
      r := if consistent then Pushed(id.value) else InconsistentReferences;
    }

    /** Downloads, checks and decrypts one chunk. */
    method DownloadChunk(id: string) returns (chunk: Option<Bytes>)
      requires ReadsFrames(c) && ReadsOnlyFrames(c)
      ensures chunk == ChunkAt(c, blobs, id)
      ensures chunk.Some? ==> id in blobs && id == "blob_" + c.digest.hash(blobs[id]) && !Rsob.NoFrame(blobs[id])
    {
      if id !in blobs || BlobId(c.digest, blobs[id]) != id {
        return None;
      }
      var decoded := Rsob.Decode(blobs[id]);
      if decoded.Err? {
        return None;
      }
      chunk := c.open(decoded.value.keyId, decoded.value.nonce, decoded.value.ciphertext);
    }

    /** Fetches the chunks of one file, refusing to read past the recorded size. It succeeds exactly if
        the references stand for contents of this size and hash. */
    method DownloadFile(h: string, size: nat, ids: seq<string>) returns (contents: Option<Bytes>)
      requires ReadsFrames(c) && ReadsOnlyFrames(c)
      ensures contents.Some? <==> StandsFor(c, blobs, h, size, ids)
      ensures contents.Some? ==> contents == FileAt(c, blobs, ids)
    {
      var bytes: Bytes := [];
      for i := 0 to |ids|
        invariant FileAt(c, blobs, ids[..i]) == Some(bytes) && |bytes| <= size
      {
        var chunk := DownloadChunk(ids[i]);
        OneMoreChunk(c, blobs, ids[..i], ids[i]);
        assert ids[..i + 1] == ids[..i] + [ids[i]];
        if FileAt(c, blobs, ids).Some? { PrefixIsShorter(c, blobs, ids, i + 1); }
        if chunk == None || |chunk.value| > size - |bytes| {
          return None;
        }
        bytes := bytes + chunk.value;
      }
      assert ids[..|ids|] == ids;
      if |bytes| != size || c.digest.hash(bytes) != h {
        return None;
      }
      contents := Some(bytes);
    }

    /** Downloads every file whose contents are not at hand. It succeeds exactly if all of them can be
        fetched, and then returns precisely their contents. */
    method DownloadManifestBlobs(m: Entries, available: set<string>) returns (ok: bool, contents: map<string, Bytes>)
      requires ReadsFrames(c) && ReadsOnlyFrames(c)
      ensures ok <==> Referenced(m) && forall p | Needed(m, available, p) :: FileFetches(c, blobs, m[p].file)
      ensures ok ==> forall p | Needed(m, available, p) ::
        && m[p].file.contentHash in contents
        && Some(contents[m[p].file.contentHash]) == FileAt(c, blobs, RefsOf(m[p].file).value)
      ensures ok ==> forall h | h in contents ::
        c.digest.hash(contents[h]) == h && exists p :: Needed(m, available, p) && m[p].file.contentHash == h
    {
      contents := map[];
      var files;
      ok, files := UniqueFileRemoteBlobIds(m);
      if !ok {
        return;
      }
      var todo := files.Keys - available;
      while todo != {}
        invariant todo <= files.Keys - available
        invariant forall h :: h in contents <==> h in files.Keys - available - todo
        invariant forall h | h in contents ::
          && StandsFor(c, blobs, h, files[h].size, files[h].ids)
          && FileAt(c, blobs, files[h].ids) == Some(contents[h])
      {
        var h :| h in todo;
        var bytes := DownloadFile(h, files[h].size, files[h].ids);
        if bytes == None {
          NotFetchable(c, blobs, m, available, files, h);
          return false, contents;
        }
        contents := contents[h := bytes.value];
        todo := todo - {h};
      }
    }
  }

  /** A file the device cannot take from its own blobs. */
  ghost predicate Needed(m: Entries, available: set<string>, p: Path) {
    IsFileEntry(m, p) && m[p].file.contentHash !in available
  }

  ghost predicate StandsFor(c: Crypto, blobs: Blobs, h: string, size: nat, ids: seq<string>) {
    var bytes := FileAt(c, blobs, ids);
    bytes.Some? && |bytes.value| == size && c.digest.hash(bytes.value) == h
  }

  lemma {:induction false} PrefixIsShorter(c: Crypto, blobs: Blobs, ids: seq<string>, i: nat)
    requires i <= |ids| && FileAt(c, blobs, ids).Some?
    ensures FileAt(c, blobs, ids[..i]).Some? && |FileAt(c, blobs, ids[..i]).value| <= |FileAt(c, blobs, ids).value|
  {
    if i < |ids| {
      var front := ids[..|ids| - 1];
      PrefixIsShorter(c, blobs, front, i);
      assert front[..i] == ids[..i];
    } else {
      assert ids[..i] == ids;
    }
  }

  lemma NotFetchable(
    c: Crypto, blobs: Blobs, m: Entries, available: set<string>, files: map<string, RemoteFile>, h: string)
    requires Indexes(m, files) && h in files && h !in available
    requires !StandsFor(c, blobs, h, files[h].size, files[h].ids)
    ensures exists p :: Needed(m, available, p) && !FileFetches(c, blobs, m[p].file)
  {
  }

  lemma CoveredHasRefs(m: Entries, staged: seq<StagedBlob>, refs: map<string, seq<string>>)
    requires Covers(m, staged) && forall i | 0 <= i < |staged| :: staged[i].contentHash in refs
    ensures HasRefs(m, refs)
  {
  }

  lemma PreviousIsDownloadable(
    c: Crypto, j: Json, blobs: Blobs, manifests: Blobs, history: seq<string>, m: Entries)
    requires forall i | 0 <= i < |history| :: Published(c, j, blobs, manifests, history[i])
    requires m == map[] || exists id :: id in history && Loaded(c, j, manifests, id) == Some(m)
    ensures Downloadable(c, blobs, m)
  {
  }

  lemma HistoryStays(
    c: Crypto, j: Json, blobs: Blobs, blobs': Blobs, manifests: Blobs, manifests': Blobs, history: seq<string>)
    requires Grows(blobs, blobs') && Grows(manifests, manifests')
    requires forall i | 0 <= i < |history| :: Published(c, j, blobs, manifests, history[i])
    ensures forall i | 0 <= i < |history| :: Published(c, j, blobs', manifests', history[i])
  {
    forall i | 0 <= i < |history| ensures Published(c, j, blobs', manifests', history[i]) {
      assert Published(c, j, blobs, manifests, history[i]);
      assert Loaded(c, j, manifests', history[i]) == Loaded(c, j, manifests, history[i]);
      DownloadableStays(c, blobs, blobs', Loaded(c, j, manifests, history[i]).value);
    }
  }

  lemma SameManifest(d: Digest, a: Bytes, b: Bytes)
    requires CollisionFree(d) && ManifestId(d, a) == ManifestId(d, b)
    ensures a == b
  {
    assert ManifestId(d, a)[9..] == d.hash(a) && ManifestId(d, b)[9..] == d.hash(b);
  }

  lemma SameBlob(d: Digest, a: Bytes, b: Bytes)
    requires CollisionFree(d) && BlobId(d, a) == BlobId(d, b)
    ensures a == b
  {
    assert BlobId(d, a)[5..] == d.hash(a) && BlobId(d, b)[5..] == d.hash(b);
  }
}
