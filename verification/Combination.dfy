/** Building the combined manifest: the loop over the plan, with line merges and conflict copies. */
module Combination {
  import opened Options
  import opened Data
  import opened Paths
  import opened Manifests
  import opened Reconciliation
  import opened ConflictNames
  import TextMerge

  datatype ConflictRecord = ConflictRecord(localCopyPath: Path, remoteCopyPath: Path, remoteDeleted: bool)

  /** Everything one synchronization reads: the three manifests, the remote revision, and the file
      contents at hand, keyed by content hash. */
  datatype Sync = Sync(
    base: Entries,
    local: Entries,
    remote: Entries,
    revision: nat,
    baseBlobs: map<string, Bytes>,
    localBlobs: map<string, Bytes>,
    remoteBlobs: map<string, Bytes>,
    digest: Digest)

  ghost predicate ClosedInputs(s: Sync) {
    Closed(s.base) && Closed(s.local) && Closed(s.remote)
  }

  function Act(s: Sync, p: Path): Action {
    ActionAt(s.base, s.local, s.remote, p)
  }

  function AllKeys(s: Sync): set<Path> {
    Keys(s.base, s.local, s.remote)
  }

  ghost predicate PlannedIn(s: Sync, p: Path) {
    Planned(s.base, s.local, s.remote, p)
  }

  /** Remote contents may already be present as a local or base blob. */
  function RemoteBytes(s: Sync, hash: string): Option<Bytes> {
    if hash in s.remoteBlobs then Some(s.remoteBlobs[hash])
    else if hash in s.localBlobs then Some(s.localBlobs[hash])
    else Get(s.baseBlobs, hash)
  }

  predicate IsFile(m: Entries, p: Path) {
    p in m && m[p].File?
  }

  /** The merged text of a path that is a file on all three sides, when there is one. */
  function MergeOf(s: Sync, p: Path): Option<Bytes> {
    if IsFile(s.base, p) && IsFile(s.local, p) && IsFile(s.remote, p) then
      var b := Get(s.baseBlobs, s.base[p].file.contentHash);
      var l := Get(s.localBlobs, s.local[p].file.contentHash);
      var r := RemoteBytes(s, s.remote[p].file.contentHash);
      if b.Some? && l.Some? && r.Some? then TextMerge.Merged(s.digest.utf8, b.value, l.value, r.value) else None
    else None
  }

  /** The path is recorded as a conflict: so planned, or meant to be merged but not mergeable. */
  predicate InConflict(s: Sync, p: Path) {
    Act(s, p) == Conflict || (Act(s, p) == Merge && MergeOf(s, p) == None)
  }

  /** The entry a path without conflict receives. */
  function Taken(s: Sync, p: Path): Option<Entry>
    requires !InConflict(s, p)
  {
    match Act(s, p)
    case Unchanged => Get(s.local, p)
    case Upload => Get(s.local, p)
    case Download => Get(s.remote, p)
    case Merge =>
      var bytes := MergeOf(s, p).value;
      Some(NewFile(|bytes|, s.digest.hash(bytes), s.local[p].file.modifiedAt))
    case Conflict => None
  }

  // ---------------------------------------------------------------- specification

  /** The combined manifest `c`, where `names` gives the copy root of every conflict:
      - a path without conflict holds what the plan chose for it;
      - at and below a conflict, exactly the local subtree remains;
      - at and below its copy root, exactly the remote subtree is kept;
      - and there is nothing else. */
  ghost predicate IsCombination(s: Sync, recorded: set<Path>, c: Entries, names: map<Path, Path>) {
    && (forall p :: p in names <==> PlannedIn(s, p) && InConflict(s, p))
    && FreshNames(s, recorded, names)
    && (forall p | PlannedIn(s, p) && !InConflict(s, p) :: Get(c, p) == Taken(s, p))
    && (forall p, q | p in names && AtOrUnder(p, q) :: Get(c, q) == Get(s.local, q))
    && (forall p, q | p in names && AtOrUnder(names[p], q) :: Get(c, q) == Get(s.remote, Rebase(names[p], p, q)))
    && (forall q | q in c :: (PlannedIn(s, q) && !InConflict(s, q)) || InRegion(names, q))
  }

  ghost predicate FreshNames(s: Sync, recorded: set<Path>, names: map<Path, Path>) {
    && (forall p | p in names :: FirstFree(p, s.revision, AllKeys(s) + recorded, names[p]))
    && (forall p, q | p in names && q in names && names[p] == names[q] :: p == q)
  }

  /** `q` belongs to a conflict, on the local side or in the copy. */
  ghost predicate InRegion(names: map<Path, Path>, q: Path) {
    exists p :: p in names && (AtOrUnder(p, q) || AtOrUnder(names[p], q))
  }

  /** The records kept for later resolution. */
  ghost predicate RecordsConflicts(
    s: Sync, before: map<Path, ConflictRecord>, after: map<Path, ConflictRecord>, names: map<Path, Path>)
  {
    forall p :: Get(after, p) ==
      if p in names then Some(ConflictRecord(p, names[p], p !in s.remote)) else Get(before, p)
  }

  function RecordedCopies(conflicts: map<Path, ConflictRecord>): set<Path> {
    set p | p in conflicts :: conflicts[p].remoteCopyPath
  }

  // ---------------------------------------------------------------- one conflict

  /** The manifest after a conflict: the remote subtree under the copy root, the local one in place. */
  function Placed(c: Entries, local: Entries, remote: Entries, path: Path, copy: Path, q: Path): Option<Entry> {
    if AtOrUnder(copy, q) && Rebase(copy, path, q) in remote then Some(remote[Rebase(copy, path, q)])
    else if AtOrUnder(path, q) && q in local then Some(local[q])
    else Get(c, q)
  }

  ghost predicate AllValid(local: Entries, remote: Entries, path: Path, copy: Path) {
    && (forall q | q in local && AtOrUnder(path, q) :: Valid(q))
    && (forall q | q in remote && AtOrUnder(path, q) :: Valid(Rebase(path, copy, q)))
  }

  /** Keeps the local entries at and below the path. */
  method KeepLocal(c: Entries, path: Path, local: Entries) returns (ok: bool, c': Entries)
    ensures ok <==> forall q | q in local && AtOrUnder(path, q) :: Valid(q)
    ensures ok ==> forall q :: Get(c', q) == (if AtOrUnder(path, q) && q in local then Some(local[q]) else Get(c, q))
  {
    c' := c;
    var keys := InOrder(local.Keys);
    for i := 0 to |keys|
      invariant forall q :: Get(c', q) == (if AtOrUnder(path, q) && q in keys[..i] then Some(local[q]) else Get(c, q))
      invariant forall j | 0 <= j < i && AtOrUnder(path, keys[j]) :: Valid(keys[j])
    {
      var q := keys[i];
      if AtOrUnder(path, q) {
        var inserted := Insert(c', q, local[q]);
        if inserted.InvalidPath? {
          assert !Valid(q) && q in local;
          return false, c';
        }
        c' := inserted.entries;
      }
    }
    forall q | q in local && AtOrUnder(path, q) ensures Valid(q) { assert q in keys; }
    ok := true;
  }

  /** `q` is the place of a remote entry below the copy root. */
  predicate IsCopyOf(remote: set<Path>, path: Path, copy: Path, q: Path) {
    AtOrUnder(copy, q) && Rebase(copy, path, q) in remote
  }

  lemma IsCopyOfOne(path: Path, copy: Path, q: Path, x: Path)
    ensures IsCopyOf({q}, path, copy, x) <==> AtOrUnder(path, q) && x == Rebase(path, copy, q)
  {
    if AtOrUnder(path, q) { RebaseRoundTrip(path, copy, q); }
    if AtOrUnder(copy, x) { RebaseRoundTrip(copy, path, x); }
  }

  /** Inserts the remote entries at and below the path under the copy root, reserving each target. */
  method CopyRemote(c: Entries, reserved: set<Path>, path: Path, copy: Path, remote: Entries)
    returns (ok: bool, c': Entries, reserved': set<Path>)
    ensures ok <==> forall q | q in remote && AtOrUnder(path, q) :: Valid(Rebase(path, copy, q))
    ensures ok ==> forall q ::
      Get(c', q) == (if IsCopyOf(remote.Keys, path, copy, q) then Some(remote[Rebase(copy, path, q)]) else Get(c, q))
    ensures ok ==> forall q :: q in reserved' <==> q in reserved || IsCopyOf(remote.Keys, path, copy, q)
  {
    c', reserved' := c, reserved;
    var keys := InOrder(remote.Keys);
    ghost var done: set<Path> := {};
    for i := 0 to |keys|
      invariant done <= remote.Keys && forall q :: q in done <==> q in keys[..i]
      invariant forall q ::
        Get(c', q) == (if IsCopyOf(done, path, copy, q) then Some(remote[Rebase(copy, path, q)]) else Get(c, q))
      invariant forall q :: q in reserved' <==> q in reserved || IsCopyOf(done, path, copy, q)
      invariant forall q | q in done && AtOrUnder(path, q) :: Valid(Rebase(path, copy, q))
    {
      var q := keys[i];
      forall x ensures IsCopyOf({q}, path, copy, x) <==> AtOrUnder(path, q) && x == Rebase(path, copy, q) {
        IsCopyOfOne(path, copy, q, x);
      }
      ghost var done' := done + {q};
      assert forall x :: IsCopyOf(done', path, copy, x) <==>
        IsCopyOf(done, path, copy, x) || IsCopyOf({q}, path, copy, x);
      if AtOrUnder(path, q) {
        var target := Rebase(path, copy, q);
        assert IsCopyOf({q}, path, copy, target);
        reserved' := reserved' + {target};
        var inserted := Insert(c', target, remote[q]);
        if inserted.InvalidPath? {
          assert !Valid(target) && q in remote;
          return false, c', reserved';
        }
        c' := inserted.entries;
      }
      done := done';
    }
    assert done == remote.Keys;
    ok := true;
  }

  method AddConflict(
    c: Entries, conflicts: map<Path, ConflictRecord>, reserved: set<Path>,
    path: Path, local: Entries, remote: Entries, revision: nat)
    returns (ok: bool, c': Entries, conflicts': map<Path, ConflictRecord>, reserved': set<Path>,
      copy: Path, ghost k: nat)
    ensures copy == Candidate(path, revision, k) && copy !in reserved
    ensures AllReserved(path, revision, reserved, k)
    ensures ok <==> AllValid(local, remote, path, copy)
    ensures ok ==> forall q :: Get(c', q) == Placed(c, local, remote, path, copy, q)
    ensures ok ==> forall q :: q in reserved' <==> q in reserved || q == copy || IsCopyOf(remote.Keys, path, copy, q)
    ensures ok ==> conflicts' == conflicts[path := ConflictRecord(path, copy, path !in remote)]
  {
    conflicts', reserved' := conflicts, reserved;
    ok, c' := KeepLocal(c, path, local);
    copy, k := FreshCopyPath(path, revision, reserved);
    if !ok {
      return;
    }
    ok, c', reserved' := CopyRemote(c', reserved + {copy}, path, copy, remote);
    if !ok {
      return;
    }
    conflicts' := conflicts'[path := ConflictRecord(path, copy, path !in remote)];
  }
}
