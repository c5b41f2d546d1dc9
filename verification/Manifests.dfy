/** Manifests: path-keyed snapshots of a workspace, and the content equality all comparisons use. */
module Manifests {
  import opened Options
  import opened Paths

  datatype FileEntry = FileEntry(
    size: nat,
    contentHash: string,
    modifiedAt: nat,
    remoteBlobId: Option<string>,
    remoteChunkIds: seq<string>)

  datatype Entry = File(file: FileEntry) | Directory

  type Entries = map<Path, Entry>

  datatype Manifest = Manifest(workspaceId: string, entries: Entries)

  /** A freshly scanned or merged file carries no remote references. */
  function NewFile(size: nat, contentHash: string, modifiedAt: nat): Entry {
    File(FileEntry(size, contentHash, modifiedAt, None, []))
  }

  /** What a path holds once timestamps and remote references are forgotten. */
  datatype Content = Absent | Dir | Data(size: nat, hash: string)

  function ContentOf(e: Option<Entry>): Content {
    match e
    case None => Absent
    case Some(Directory) => Dir
    case Some(File(f)) => Data(f.size, f.contentHash)
  }

  function At(m: Entries, p: Path): Content {
    ContentOf(Get(m, p))
  }

  /** The planner's comparison. It is exactly equality of contents, hence an equivalence. */
  predicate EntriesEqual(left: Option<Entry>, right: Option<Entry>)
    ensures EntriesEqual(left, right) <==> ContentOf(left) == ContentOf(right)
  {
    match (left, right)
    case (None, None) => true
    case (Some(Directory), Some(Directory)) => true
    case (Some(File(l)), Some(File(r))) => l.size == r.size && l.contentHash == r.contentHash
    case _ => false
  }

  /** The entry without what no comparison looks at. */
  function Stripped(e: Option<Entry>): Option<Entry> {
    if e.Some? && e.value.File?
    then Some(File(e.value.file.(modifiedAt := 0, remoteBlobId := None, remoteChunkIds := [])))
    else e
  }

  /** Nothing else is ignored: equal content means equal up to the timestamp and the remote references. */
  lemma EqualUpToReferences(left: Option<Entry>, right: Option<Entry>)
    ensures EntriesEqual(left, right) <==> Stripped(left) == Stripped(right)
    ensures ContentOf(left) == ContentOf(right) <==> Stripped(left) == Stripped(right)
  {
    if EntriesEqual(left, right) && left.Some? && left.value.File? {
      assert Stripped(left).value.file == FileEntry(left.value.file.size, left.value.file.contentHash, 0, None, []);
      assert Stripped(right).value.file == FileEntry(right.value.file.size, right.value.file.contentHash, 0, None, []);
    }
  }

  ghost predicate SameContent(a: Entries, b: Entries) {
    forall p :: At(a, p) == At(b, p)
  }

  /** Every proper ancestor of an entry is present as a directory. Scanning produces such manifests. */
  ghost predicate Closed(m: Entries) {
    forall p, a | p in m && Under(a, p) :: a in m && m[a].Directory?
  }

  /** Every path satisfies the check made on insertion. */
  ghost predicate ValidPaths(m: Entries) {
    forall p | p in m :: Valid(p)
  }

  lemma ClosedByContent(m: Entries, m': Entries)
    requires Closed(m) && SameContent(m, m')
    ensures Closed(m')
  {
    forall p, a | p in m' && Under(a, p) ensures a in m' && m'[a].Directory? {
      assert At(m, p) == At(m', p) && At(m, a) == At(m', a);
    }
  }

  lemma ValidByContent(m: Entries, m': Entries)
    requires ValidPaths(m) && SameContent(m', m)
    ensures ValidPaths(m')
  {
    forall p | p in m' ensures Valid(p) { assert At(m', p) == At(m, p); }
  }

  datatype InsertResult = Inserted(entries: Entries) | InvalidPath(path: Path)

  /** Insertion rejects a malformed path and otherwise replaces the entry at the path. */
  function Insert(m: Entries, p: Path, e: Entry): InsertResult {
    if Valid(p) then Inserted(m[p := e]) else InvalidPath(p)
  }

  // ---------------------------------------------------------------- diff

  datatype Change = Added(path: Path) | Modified(path: Path) | Deleted(path: Path)

  predicate EntryChanged(previous: Entry, current: Entry) {
    match (previous, current)
    case (File(o), File(n)) => o.size != n.size || o.contentHash != n.contentHash
    case (Directory, Directory) => false
    case _ => true
  }

  ghost predicate IsChange(o: Entries, n: Entries, c: Change) {
    match c
    case Added(p) => At(o, p) == Absent && At(n, p) != Absent
    case Modified(p) => At(o, p) != Absent && At(n, p) != Absent && At(o, p) != At(n, p)
    case Deleted(p) => At(o, p) != Absent && At(n, p) == Absent
  }

  /** The change list is exact, so it is empty precisely when the planner sees equal contents. */
  method DiffManifests(o: Entries, n: Entries) returns (changes: seq<Change>)
    ensures forall p :: Added(p) in changes <==> p !in o && p in n
    ensures forall p :: Deleted(p) in changes <==> p in o && p !in n
    ensures forall p :: Modified(p) in changes <==> p in o && p in n && At(o, p) != At(n, p)
    ensures forall c :: c in changes <==> IsChange(o, n, c)
    ensures changes == [] <==> SameContent(o, n)
  {
    changes := [];
    var paths := InOrder(n.Keys);
    for i := 0 to |paths|
      invariant forall c :: c in changes <==> IsChange(o, n, c) && !c.Deleted? && c.path in paths[..i]
    {
      var path := paths[i];
      if path !in o {
        changes := changes + [Added(path)];
      } else if EntryChanged(o[path], n[path]) {
        changes := changes + [Modified(path)];
      }
    }
    var previous := InOrder(o.Keys);
    for i := 0 to |previous|
      invariant forall c :: c in changes <==> IsChange(o, n, c) && (c.Deleted? ==> c.path in previous[..i])
    {
      if previous[i] !in n {
        changes := changes + [Deleted(previous[i])];
      }
    }
    EmptyDiff(o, n, changes);
    DiffByKind(o, n, changes);
  }

  lemma DiffByKind(o: Entries, n: Entries, changes: seq<Change>)
    requires forall c :: c in changes <==> IsChange(o, n, c)
    ensures forall p :: Added(p) in changes <==> p !in o && p in n
    ensures forall p :: Deleted(p) in changes <==> p in o && p !in n
    ensures forall p :: Modified(p) in changes <==> p in o && p in n && At(o, p) != At(n, p)
  {
  }

  lemma EmptyDiff(o: Entries, n: Entries, changes: seq<Change>)
    requires forall c :: c in changes <==> IsChange(o, n, c)
    ensures changes == [] <==> SameContent(o, n)
  {
    if changes != [] {
      assert changes[0] in changes;
      assert IsChange(o, n, changes[0]);
      assert At(o, changes[0].path) != At(n, changes[0].path);
    }
    if changes == [] {
      forall p ensures At(o, p) == At(n, p) {
        assert !IsChange(o, n, Added(p)) && !IsChange(o, n, Modified(p)) && !IsChange(o, n, Deleted(p));
      }
    }
  }
}
