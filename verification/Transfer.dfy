/** Moving file contents to and from the server as encrypted, content-addressed chunks. */
module Transfer {
  import opened Options
  import opened Data
  import opened Paths
  import opened Manifests
  import Rsob

  // ---------------------------------------------------------------- encryption

  /** The authenticated cipher, as functions of key id, nonce and text; `read` names what decoding a frame
      and opening the object gives, and `nonce(i)` is the `i`-th nonce drawn. */
  datatype Crypto = Crypto(
    keyId: Rsob.KeyId,
    seal: (string, Bytes, Bytes) -> Bytes,
    open: (string, Bytes, Bytes) -> Option<Bytes>,
    read: Bytes -> Option<Bytes>,
    nonce: nat -> Bytes,
    digest: Digest)

  /** Decryption undoes encryption, and a ciphertext is 16 bytes longer than its text. */
  ghost predicate Sound(c: Crypto) {
    && (forall i :: |c.nonce(i)| == Rsob.NONCE_SIZE)
    && (forall n, p :: |c.seal(c.keyId, n, p)| == |p| + Rsob.TAG_SIZE)
    && (forall n, p :: c.open(c.keyId, n, c.seal(c.keyId, n, p)) == Some(p))
    && CollisionFree(c.digest)
    && ReadsFrames(c)
  }

  /** Frames are read as the objects they hold. */
  ghost predicate ReadsFrames(c: Crypto) {
    forall o: Rsob.EncryptedObject | Rsob.Encodable(o) ::
      c.read(Rsob.Frame(o)) == c.open(o.keyId, o.nonce, o.ciphertext)
  }

  /** Nothing else can be read. */
  ghost predicate ReadsOnlyFrames(c: Crypto) {
    forall bytes | Rsob.NoFrame(bytes) :: c.read(bytes) == None
  }

  /** Such a reading exists, because a frame determines its object. */
  lemma ReadingExists(c: Crypto) returns (read: Bytes -> Option<Bytes>)
    ensures ReadsFrames(c.(read := read)) && ReadsOnlyFrames(c.(read := read))
  {
    read := (bytes: Bytes) => Reading(c, bytes);
    forall o: Rsob.EncryptedObject | Rsob.Encodable(o)
      ensures Reading(c, Rsob.Frame(o)) == c.open(o.keyId, o.nonce, o.ciphertext)
    {
      var bytes := Rsob.Frame(o);
      var o' := Object(bytes);
      Rsob.FrameIsInjective(o, o');
    }
  }

  ghost function Object(bytes: Bytes): (o: Rsob.EncryptedObject)
    requires !Rsob.NoFrame(bytes)
    ensures Rsob.Encodable(o) && Rsob.Frame(o) == bytes
  {
    var o: Rsob.EncryptedObject :| Rsob.Encodable(o) && Rsob.Frame(o) == bytes;
    o
  }

  ghost function Reading(c: Crypto, bytes: Bytes): Option<Bytes> {
    if Rsob.NoFrame(bytes) then None else c.open(Object(bytes).keyId, Object(bytes).nonce, Object(bytes).ciphertext)
  }

  function Sealed(c: Crypto, i: nat, p: Bytes): Rsob.EncryptedObject {
    Rsob.EncryptedObject(c.keyId, Rsob.XChaCha20Poly1305, c.nonce(i), c.seal(c.keyId, c.nonce(i), p))
  }

  /** The frame around an empty text. */
  function Overhead(c: Crypto): nat {
    Rsob.FIXED_HEADER_LEN + |c.keyId| + Rsob.NONCE_SIZE + Rsob.TAG_SIZE
  }

  function ChunkSize(c: Crypto): (n: nat)
    ensures 0 < n < Rsob.MAX_ENCRYPTED_OBJECT_BYTES
  {
    Rsob.MAX_ENCRYPTED_OBJECT_BYTES - Overhead(c)
  }

  /** The chunk size is exact: a frame fits into one mebibyte if and only if its chunk does. */
  lemma ChunkFits(c: Crypto, i: nat, p: Bytes)
    requires Sound(c)
    ensures Rsob.Encodable(Sealed(c, i, p)) <==> |p| <= ChunkSize(c)
    ensures Rsob.FrameLength(Sealed(c, i, p)) == |p| + Overhead(c)
  {
  }

  // ---------------------------------------------------------------- chunks

  function Chunks(bytes: Bytes, size: nat): seq<Bytes>
    requires size > 0
  {
    if |bytes| <= size then [bytes] else [bytes[..size]] + Chunks(bytes[size..], size)
  }

  // ---------------------------------------------------------------- the blob store

  function BlobId(d: Digest, bytes: Bytes): string {
    "blob_" + d.hash(bytes)
  }

  type Blobs = map<string, Bytes>

  ghost predicate StoreOk(d: Digest, blobs: Blobs) {
    forall id | id in blobs :: BlobId(d, blobs[id]) == id
  }

  /** One downloaded, checked and decrypted chunk. */
  ghost function ChunkAt(c: Crypto, blobs: Blobs, id: string): Option<Bytes> {
    if id in blobs && BlobId(c.digest, blobs[id]) == id then c.read(blobs[id]) else None
  }

  /** The contents a list of references stands for. */
  ghost function FileAt(c: Crypto, blobs: Blobs, ids: seq<string>): Option<Bytes> {
    if ids == [] then Some([])
    else
      var before, chunk := FileAt(c, blobs, ids[..|ids| - 1]), ChunkAt(c, blobs, ids[|ids| - 1]);
      if before.Some? && chunk.Some? then Some(before.value + chunk.value) else None
  }

  ghost predicate Grows(blobs: Blobs, blobs': Blobs) {
    forall id | id in blobs :: id in blobs' && blobs'[id] == blobs[id]
  }

  lemma {:induction false} FileAtPersists(c: Crypto, blobs: Blobs, blobs': Blobs, ids: seq<string>)
    requires Grows(blobs, blobs') && FileAt(c, blobs, ids).Some?
    ensures FileAt(c, blobs', ids) == FileAt(c, blobs, ids)
  {
    if ids == [] {
    } else {
      FileAtPersists(c, blobs, blobs', ids[..|ids| - 1]);
    }
  }

  lemma OneMoreChunk(c: Crypto, blobs: Blobs, ids: seq<string>, id: string)
    ensures FileAt(c, blobs, ids + [id]) ==
      (var before, chunk := FileAt(c, blobs, ids), ChunkAt(c, blobs, id);
       if before.Some? && chunk.Some? then Some(before.value + chunk.value) else None)
  {
  }

  // ---------------------------------------------------------------- references

  /** The references of a file entry: one blob, or a list of chunks, but not both. */
  function RefsOf(f: FileEntry): Option<seq<string>> {
    match f.remoteBlobId
    case Some(id) => if f.remoteChunkIds == [] then Some([id]) else None
    case None => if f.remoteChunkIds != [] then Some(f.remoteChunkIds) else None
  }

  predicate IsFileEntry(m: Entries, p: Path) {
    p in m && m[p].File?
  }

  /** Every file has references, and equal hashes have equal sizes and references. */
  ghost predicate Referenced(m: Entries) {
    && (forall p | IsFileEntry(m, p) :: RefsOf(m[p].file).Some?)
    && (forall p, q | IsFileEntry(m, p) && IsFileEntry(m, q) && m[p].file.contentHash == m[q].file.contentHash ::
          m[p].file.size == m[q].file.size && RefsOf(m[p].file) == RefsOf(m[q].file))
  }

  datatype RemoteFile = RemoteFile(size: nat, ids: seq<string>)

  /** Exactly the referenced files, keyed by content hash. */
  ghost predicate Indexes(m: Entries, files: map<string, RemoteFile>) {
    && (forall p | IsFileEntry(m, p) ::
          && m[p].file.contentHash in files && files[m[p].file.contentHash].size == m[p].file.size
          && RefsOf(m[p].file) == Some(files[m[p].file.contentHash].ids))
    && (forall h | h in files :: exists p :: IsFileEntry(m, p) && m[p].file.contentHash == h)
  }

  ghost predicate IndexedBy(m: Entries, p: Path, h: string, f: RemoteFile) {
    IsFileEntry(m, p) && m[p].file.contentHash == h && m[p].file.size == f.size && RefsOf(m[p].file) == Some(f.ids)
  }

  /** Either one blob or a list of chunks, not both and not neither; equal contents have the same ones. */
  lemma ReferencedExactly(m: Entries)
    ensures Referenced(m) <==> forall p, q | IsFileEntry(m, p) && IsFileEntry(m, q) ::
      var f, g := m[p].file, m[q].file;
      && (f.remoteBlobId.Some? <==> f.remoteChunkIds == [])
      && (f.contentHash == g.contentHash ==>
            && f.size == g.size
            && (if f.remoteBlobId.Some? then [f.remoteBlobId.value] else f.remoteChunkIds)
               == if g.remoteBlobId.Some? then [g.remoteBlobId.value] else g.remoteChunkIds)
  {
  }

  method UniqueFileRemoteBlobIds(m: Entries) returns (ok: bool, files: map<string, RemoteFile>)
    ensures ok <==> Referenced(m)
    ensures ok ==> Indexes(m, files)
  {
    files := map[];
    var keys := InOrder(m.Keys);
    for i := 0 to |keys|
      invariant forall j | 0 <= j < i && m[keys[j]].File? ::
        && m[keys[j]].file.contentHash in files && files[m[keys[j]].file.contentHash].size == m[keys[j]].file.size
        && RefsOf(m[keys[j]].file) == Some(files[m[keys[j]].file.contentHash].ids)
      invariant forall h | h in files :: exists p :: IndexedBy(m, p, h, files[h])
    {
      var p := keys[i];
      if m[p].File? {
        var f := m[p].file;
        assert IsFileEntry(m, p);
        var ids := RefsOf(f);
        if ids == None {
          return false, files;
        }
        var value := RemoteFile(f.size, ids.value);
        if f.contentHash in files && files[f.contentHash] != value {
          return false, files;
        }
        ghost var before := files;
        files := files[f.contentHash := value];
        assert IndexedBy(m, p, f.contentHash, value);
        assert forall h | h in files && h != f.contentHash :: h in before && files[h] == before[h];
      }
    }
    forall p | IsFileEntry(m, p)
      ensures m[p].file.contentHash in files && files[m[p].file.contentHash].size == m[p].file.size
      ensures RefsOf(m[p].file) == Some(files[m[p].file.contentHash].ids)
    {
      assert p in keys;
    }
    ok := true;
  }

  /** Everything the manifest refers to can be fetched, decrypted and verified. */
  ghost predicate Downloadable(c: Crypto, blobs: Blobs, m: Entries) {
    Referenced(m) && forall p | IsFileEntry(m, p) :: FileFetches(c, blobs, m[p].file)
  }

  ghost predicate FileFetches(c: Crypto, blobs: Blobs, f: FileEntry) {
    && RefsOf(f).Some?
    && var bytes := FileAt(c, blobs, RefsOf(f).value);
    && bytes.Some? && |bytes.value| == f.size && c.digest.hash(bytes.value) == f.contentHash
  }

  lemma DownloadableStays(c: Crypto, blobs: Blobs, blobs': Blobs, m: Entries)
    requires Grows(blobs, blobs') && Downloadable(c, blobs, m)
    ensures Downloadable(c, blobs', m)
  {
    forall p | IsFileEntry(m, p) ensures FileFetches(c, blobs', m[p].file) {
      FileAtPersists(c, blobs, blobs', RefsOf(m[p].file).value);
    }
  }
}
