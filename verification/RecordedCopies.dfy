/** Copies recorded by earlier synchronizations, and when a new combination keeps clear of them. */
module RecordedCopies {
  import opened Options
  import opened Data
  import opened Paths
  import opened Manifests
  import opened Reconciliation
  import opened ConflictNames
  import opened Combination
  import opened Protocol
  import CombinationTheorems
  import CombineMethod
  import ProtocolSafety

  /** Neither copy lies in the other's subtree. */
  predicate Clear(kept: Path, copy: Path) {
    !AtOrUnder(copy, kept) && !Under(kept, copy)
  }

  ghost predicate ConflictAt(s: Sync, r: Path) {
    PlannedIn(s, r) && InConflict(s, r)
  }

  /** A path in conflict lies below the recorded copy. */
  ghost predicate ConflictBelow(s: Sync, kept: Path) {
    exists r :: ConflictAt(s, r) && Under(kept, r)
  }

  /** The directory `a` is unreserved, and the `k`-th candidate of `r` after reserved ones only. */
  ghost predicate NextCandidate(s: Sync, recorded: set<Path>, a: Path, r: Path, k: nat) {
    && a == Candidate(r, s.revision, k) && a !in AllKeys(s) + recorded
    && forall j: nat | j < k :: Candidate(r, s.revision, j) in AllKeys(s) + recorded
  }

  /** A directory above the recorded copy has left all manifests and is the next candidate of a path
      in conflict. */
  ghost predicate Shadowed(s: Sync, recorded: set<Path>, kept: Path) {
    exists a, r, k: nat :: Under(a, kept) && ConflictAt(s, r) && NextCandidate(s, recorded, a, r, k)
  }

  lemma CopyBelowKept(s: Sync, recorded: set<Path>, c: Entries, names: map<Path, Path>, kept: Path, r: Path)
    requires IsCombination(s, recorded, c, names) && r in names
    ensures Under(kept, names[r]) <==> Under(kept, r)
  {
    FirstFreeIsCandidate(r, s.revision, AllKeys(s) + recorded, names[r]);
    var k: nat :| names[r] == Candidate(r, s.revision, k);
    SuffixIsOneComponent(s.revision, k);
    SiblingAncestors(kept, r, Suffix(s.revision, k));
  }

  lemma CopyAboveKept(
    s: Sync, recorded: set<Path>, c: Entries, names: map<Path, Path>, kept: Path, r: Path, k: nat)
    requires IsCombination(s, recorded, c, names) && r in names && kept in recorded
    requires names[r] == Candidate(r, s.revision, k) && AllReserved(r, s.revision, AllKeys(s) + recorded, k)
    ensures AtOrUnder(names[r], kept) ==> Under(names[r], kept) && NextCandidate(s, recorded, names[r], r, k)
  {
  }

  lemma NextCandidateIsTheName(
    s: Sync, recorded: set<Path>, c: Entries, names: map<Path, Path>, a: Path, r: Path, k: nat)
    requires IsCombination(s, recorded, c, names) && ConflictAt(s, r) && NextCandidate(s, recorded, a, r, k)
    ensures r in names && names[r] == a
  {
    assert AllReserved(r, s.revision, AllKeys(s) + recorded, k);
    assert FirstFree(r, s.revision, AllKeys(s) + recorded, a);
    FirstFreeIsUnique(r, s.revision, AllKeys(s) + recorded, a, names[r]);
  }

  /** The new copies keep clear of a recorded one exactly when no path in conflict lies below it and no
      vanished directory above it is the next candidate of a path in conflict. */
  lemma RecordedCopyStaysClear(s: Sync, recorded: set<Path>, c: Entries, names: map<Path, Path>, kept: Path)
    requires IsCombination(s, recorded, c, names) && kept in recorded
    ensures (forall r | r in names :: Clear(kept, names[r]))
      <==> !ConflictBelow(s, kept) && !Shadowed(s, recorded, kept)
  {
    if ConflictBelow(s, kept) {
      var r :| ConflictAt(s, r) && Under(kept, r);
      CopyBelowKept(s, recorded, c, names, kept, r);
      assert r in names && !Clear(kept, names[r]);
    }
    if Shadowed(s, recorded, kept) {
      var a, r, k: nat :| Under(a, kept) && ConflictAt(s, r) && NextCandidate(s, recorded, a, r, k);
      NextCandidateIsTheName(s, recorded, c, names, a, r, k);
      assert r in names && !Clear(kept, names[r]);
    }
    forall r | r in names && !Clear(kept, names[r]) ensures ConflictBelow(s, kept) || Shadowed(s, recorded, kept) {
      UnclearHasACause(s, recorded, c, names, kept, r);
    }
  }

  lemma UnclearHasACause(s: Sync, recorded: set<Path>, c: Entries, names: map<Path, Path>, kept: Path, r: Path)
    requires IsCombination(s, recorded, c, names) && kept in recorded && r in names && !Clear(kept, names[r])
    ensures ConflictBelow(s, kept) || Shadowed(s, recorded, kept)
  {
    assert ConflictAt(s, r);
    CopyBelowKept(s, recorded, c, names, kept, r);
    if AtOrUnder(names[r], kept) {
      assert FirstFree(r, s.revision, AllKeys(s) + recorded, names[r]);
      var k: nat :| names[r] == Candidate(r, s.revision, k) && AllReserved(r, s.revision, AllKeys(s) + recorded, k);
      CopyAboveKept(s, recorded, c, names, kept, r, k);
    }
  }

  /** In particular they do when the copy has left all manifests but its parent directories have not. */
  lemma ClearWhileParentsExist(s: Sync, recorded: set<Path>, c: Entries, names: map<Path, Path>, kept: Path)
    requires IsCombination(s, recorded, c, names) && ClosedInputs(s) && kept in recorded
    requires kept !in AllKeys(s) && forall a | Under(a, kept) :: a in AllKeys(s)
    ensures forall r | r in names :: Clear(kept, names[r])
  {
    assert forall r | ConflictAt(s, r) :: Under(kept, r) ==> kept in AllKeys(s);
    RecordedCopyStaysClear(s, recorded, c, names, kept);
  }

  // ---------------------------------------------------------------- one conflict

  /** Both sides create the same file below a shared tree, differently. */
  function TwoFiles(
    shared: Entries, p: Path, revision: nat, left: Entry, right: Entry, blobs: map<string, Bytes>, digest: Digest): Sync
  {
    Sync(shared, shared[p := left], shared[p := right], revision, blobs, blobs, blobs, digest)
  }

  ghost predicate Differ(left: Entry, right: Entry) {
    left.File? && right.File? && ContentOf(Some(left)) != ContentOf(Some(right))
  }

  /** The path is new and its directories are there. */
  ghost predicate Room(shared: Entries, p: Path) {
    && Closed(shared) && p !in shared && (forall a | Under(a, p) :: a in shared && shared[a].Directory?)
    && (forall q | q in shared :: !Under(p, q))
  }

  lemma TwoFilesActions(
    shared: Entries, p: Path, revision: nat, left: Entry, right: Entry, blobs: map<string, Bytes>, digest: Digest,
    q: Path)
    requires Room(shared, p) && Differ(left, right)
    ensures var s := TwoFiles(shared, p, revision, left, right, blobs, digest);
      && (q == p ==> InConflict(s, q)) && (q != p ==> Act(s, q) == Unchanged)
      && !Clash(s.base, s.local, s.remote, q)
  {
  }

  lemma TwoFilesPlan(
    shared: Entries, p: Path, revision: nat, left: Entry, right: Entry, blobs: map<string, Bytes>, digest: Digest)
    requires Room(shared, p) && Differ(left, right)
    ensures var s := TwoFiles(shared, p, revision, left, right, blobs, digest);
      && ClosedInputs(s) && AllKeys(s) == shared.Keys + {p}
      && (forall q :: PlannedIn(s, q) <==> q in shared.Keys + {p})
      && (forall q :: InConflict(s, q) <==> q == p)
  {
    var s := TwoFiles(shared, p, revision, left, right, blobs, digest);
    forall q
      ensures (q == p ==> InConflict(s, q)) && (q != p ==> Act(s, q) == Unchanged)
      ensures !Clash(s.base, s.local, s.remote, q)
    {
      TwoFilesActions(shared, p, revision, left, right, blobs, digest, q);
    }
  }

  lemma TwoFilesTaken(
    shared: Entries, p: Path, revision: nat, left: Entry, right: Entry, blobs: map<string, Bytes>, digest: Digest,
    x: Path, q: Path)
    requires Room(shared, p) && Differ(left, right) && q in shared && x !in shared
    ensures var s := TwoFiles(shared, p, revision, left, right, blobs, digest);
      !InConflict(s, q) && Get(s.local[x := right], q) == Taken(s, q)
  {
    TwoFilesActions(shared, p, revision, left, right, blobs, digest, q);
  }

  lemma TwoFilesCopy(shared: Entries, p: Path, left: Entry, right: Entry, x: Path, q: Path)
    requires Room(shared, p) && x !in shared && x != p && !Under(x, p) && AtOrUnder(x, q)
    ensures Get(shared[p := left][x := right], q) == Get(shared[p := right], Rebase(x, p, q))
  {
    RebaseRoundTrip(x, p, q);
  }

  /** Then the file is the one path in conflict, and this is the combination. */
  lemma TwoFilesCombine(
    shared: Entries, p: Path, revision: nat, left: Entry, right: Entry, blobs: map<string, Bytes>, digest: Digest,
    recorded: set<Path>, x: Path)
    requires Room(shared, p) && Differ(left, right)
    requires FirstFree(p, revision, shared.Keys + {p} + recorded, x)
    ensures var s := TwoFiles(shared, p, revision, left, right, blobs, digest);
      ClosedInputs(s) && IsCombination(s, recorded, s.local[x := right], map[p := x])
  {
    var s, names := TwoFiles(shared, p, revision, left, right, blobs, digest), map[p := x];
    TwoFilesPlan(shared, p, revision, left, right, blobs, digest);
    FirstFreeIsCandidate(p, revision, shared.Keys + {p} + recorded, x);
    var k: nat :| x == Candidate(p, revision, k);
    CombineMethod.CandidateIsSibling(p, revision, k);
    assert x[..|p|] == p;
    forall q | q in shared ensures !InConflict(s, q) && Get(s.local[x := right], q) == Taken(s, q) {
      TwoFilesTaken(shared, p, revision, left, right, blobs, digest, x, q);
    }
    forall q | AtOrUnder(x, q) ensures Get(s.local[x := right], q) == Get(s.remote, Rebase(x, p, q)) {
      TwoFilesCopy(shared, p, left, right, x, q);
    }
    TwoFilesIsCombination(s, recorded, shared, p, x, left, right);
  }

  lemma TwoFilesIsCombination(
    s: Sync, recorded: set<Path>, shared: Entries, p: Path, x: Path, left: Entry, right: Entry)
    requires s.local == shared[p := left] && Room(shared, p) && AllKeys(s) == shared.Keys + {p}
    requires forall q :: PlannedIn(s, q) <==> q in shared.Keys + {p}
    requires forall q :: InConflict(s, q) <==> q == p
    requires FirstFree(p, s.revision, AllKeys(s) + recorded, x) && x !in shared && !AtOrUnder(p, x)
    requires forall q | q in shared :: !InConflict(s, q) && Get(s.local[x := right], q) == Taken(s, q)
    requires forall q | AtOrUnder(x, q) :: Get(s.local[x := right], q) == Get(s.remote, Rebase(x, p, q))
    ensures IsCombination(s, recorded, s.local[x := right], map[p := x])
  {
    var c := s.local[x := right];
    forall q | q in c ensures q == p || q == x || (PlannedIn(s, q) && !InConflict(s, q)) {
      assert q in shared || q == p || q == x;
    }
    OneConflict(s, recorded, c, p, x);
  }

  /** A combination with one path in conflict. */
  lemma OneConflict(s: Sync, recorded: set<Path>, c: Entries, p: Path, x: Path)
    requires forall q :: PlannedIn(s, q) && InConflict(s, q) <==> q == p
    requires FirstFree(p, s.revision, AllKeys(s) + recorded, x)
    requires forall q | PlannedIn(s, q) && !InConflict(s, q) :: Get(c, q) == Taken(s, q)
    requires forall q | AtOrUnder(p, q) :: Get(c, q) == Get(s.local, q)
    requires forall q | AtOrUnder(x, q) :: Get(c, q) == Get(s.remote, Rebase(x, p, q))
    requires forall q | q in c :: q == p || q == x || (PlannedIn(s, q) && !InConflict(s, q))
    ensures IsCombination(s, recorded, c, map[p := x])
  {
    var names := map[p := x];
    assert p in names && names[p] == x;
    assert InRegion(names, x) && InRegion(names, p);
  }

  // ---------------------------------------------------------------- the two failures

  /** One side creates a file, the other an empty directory, in an empty workspace. */
  function FileAgainstDirectory(p: Path, revision: nat, left: Entry, blobs: map<string, Bytes>, digest: Digest): Sync {
    Sync(map[], map[p := left], map[p := Directory], revision, blobs, blobs, blobs, digest)
  }

  lemma FileAgainstDirectoryPlan(p: Path, revision: nat, left: Entry, blobs: map<string, Bytes>, digest: Digest)
    requires '/' !in p && left.File?
    ensures var s := FileAgainstDirectory(p, revision, left, blobs, digest);
      && ClosedInputs(s) && AllKeys(s) == {p} && Room(map[], p)
      && (forall q :: PlannedIn(s, q) <==> q == p) && (forall q :: InConflict(s, q) <==> q == p)
  {
    assert forall a :: !Under(a, p);
    assert AtOrUnder(p, p);
  }

  lemma FileAgainstDirectoryCombines(
    p: Path, revision: nat, left: Entry, blobs: map<string, Bytes>, digest: Digest, x: Path)
    requires '/' !in p && left.File? && FirstFree(p, revision, {p}, x)
    ensures var s := FileAgainstDirectory(p, revision, left, blobs, digest);
      ClosedInputs(s) && IsCombination(s, {}, map[p := left, x := Directory], map[p := x])
  {
    var s := FileAgainstDirectory(p, revision, left, blobs, digest);
    FileAgainstDirectoryPlan(p, revision, left, blobs, digest);
    assert AllKeys(s) + {} == {p};
    FirstFreeIsCandidate(p, revision, {p}, x);
    var k: nat :| x == Candidate(p, revision, k);
    CombineMethod.CandidateIsSibling(p, revision, k);
    assert x[..|p|] == p;
    forall q | AtOrUnder(x, q) ensures Get(s.local[x := Directory], q) == Get(s.remote, Rebase(x, p, q)) {
      RebaseRoundTrip(x, p, q);
    }
    TwoFilesIsCombination(s, {}, map[], p, x, left, Directory);
    assert s.local[x := Directory] == map[p := left, x := Directory];
  }

  lemma BareCandidateIsFree(p: Path, revision: nat, reserved: set<Path>)
    requires Candidate(p, revision, 0) !in reserved
    ensures FirstFree(p, revision, reserved, Candidate(p, revision, 0))
  {
    assert AllReserved(p, revision, reserved, 0);
  }

  lemma OnlyAbove(dir: Path, name: string)
    requires '/' !in dir && '/' !in name
    ensures forall a :: Under(a, dir + "/" + name) <==> a == dir
    ensures forall a :: !Under(a, dir)
  {
    var p := dir + "/" + name;
    assert p[|dir|] == '/' && p[..|dir|] == dir;
    forall a | Under(a, p) ensures a == dir {
      assert p[|a|] == '/';
    }
  }

  lemma RoomInCopy(p: Path, kept: Path, left: Entry)
    requires '/' !in p && '/' !in kept && p != kept
    ensures Room(map[p := left, kept := Directory], kept + "/f")
    ensures map[p := left, kept := Directory].Keys == {p, kept} && Under(kept, kept + "/f")
  {
    OnlyAbove(kept, "f");
    assert (kept + "/f")[..|kept|] == kept;
  }

  // ---------------------------------------------------------------- histories

  /** A device that had synchronized the last head published `m` as it is. */
  function UploadRun(heads: seq<Head>, m: Entries, digest: Digest): Run
    requires |heads| > 0
  {
    var last := heads[|heads| - 1].manifest;
    Run(Sync(last, m, last, |heads| - 1, map[], map[], map[], digest), |heads| - 1, {}, map[], m)
  }

  function Uploaded(heads: seq<Head>, m: Entries, digest: Digest): seq<Head>
    requires |heads| > 0
  {
    heads + [Head(m, Some(UploadRun(heads, m, digest)))]
  }

  lemma UploadedIsOk(heads: seq<Head>, m: Entries, digest: Digest)
    requires HeadsOk(heads) && Closed(m) && ValidPaths(m)
    ensures HeadsOk(Uploaded(heads, m, digest))
  {
    var run := UploadRun(heads, m, digest);
    assert Reads(heads, run.sync, |heads| - 1);
    CombinationTheorems.LocalIsCombination(run.sync, {});
    ProtocolSafety.HeadsOkGrows(heads, Head(m, Some(run)), run);
  }

  function PublishedRun(heads: seq<Head>, run: Run): seq<Head> {
    heads + [Head(run.combined, Some(run))]
  }

  lemma EmptyIsOk()
    ensures HeadsOk([Head(map[], None)])
  {
  }

  /** The synchronization could be run by a device that had synchronized the head `baseRevision`, and what it
      read still reads the same later. */
  lemma StillReads(heads: seq<Head>, h: Head, s: Sync, baseRevision: nat)
    requires Reads(heads, s, baseRevision)
    ensures Reads(heads + [h], s, baseRevision)
  {
  }

  // ---------------------------------------------------------------- the first failure

  /** A conflict at revision 2 inside a directory that is called like the fifth copy of `d`. */
  function ShadowedSync(left: Entry, right: Entry, blobs: map<string, Bytes>, digest: Digest): Sync {
    var dir := Candidate("d", 5, 0);
    TwoFiles(map[dir := Directory], dir + "/f", 2, left, right, blobs, digest)
  }

  function ShadowedRun(left: Entry, right: Entry, blobs: map<string, Bytes>, digest: Digest): Run {
    var s, file := ShadowedSync(left, right, blobs, digest), Candidate("d", 5, 0) + "/f";
    var kept := Candidate(file, 2, 0);
    Run(s, 1, {}, map[file := kept], s.local[kept := right])
  }

  /** The directory, the other device's file, the conflict with its copy, nothing, and a file `d`. */
  function ShadowingHistory(left: Entry, right: Entry, blobs: map<string, Bytes>, digest: Digest): seq<Head> {
    var dir := Candidate("d", 5, 0);
    var h1 := Uploaded([Head(map[], None)], map[dir := Directory], digest);
    var h2 := Uploaded(h1, map[dir := Directory][dir + "/f" := right], digest);
    var h3 := PublishedRun(h2, ShadowedRun(left, right, blobs, digest));
    Uploaded(Uploaded(h3, map[], digest), map["d" := right], digest)
  }

  lemma ShadowedRunCombines(left: Entry, right: Entry, blobs: map<string, Bytes>, digest: Digest)
    requires Differ(left, right)
    ensures
      var run := ShadowedRun(left, right, blobs, digest);
      ClosedInputs(run.sync) && IsCombination(run.sync, {}, run.combined, run.names)
  {
    var dir := Candidate("d", 5, 0);
    var file := dir + "/f";
    SuffixIsOneComponent(5, 0);
    SuffixIsOneComponent(2, 0);
    OnlyAbove(dir, "f");
    assert dir + "/" + "f" == file && |Candidate(file, 2, 0)| > |file| > |dir|;
    BareCandidateIsFree(file, 2, {dir} + {file} + {});
    assert map[dir := Directory].Keys == {dir};
    TwoFilesCombine(map[dir := Directory], file, 2, left, right, blobs, digest, {}, Candidate(file, 2, 0));
  }

  /** The manifests of a directory with at most one file in it. */
  lemma FileInDirectory(dir: Path, e: Entry)
    requires Valid(dir) && '/' !in dir
    ensures Closed(map[dir := Directory]) && ValidPaths(map[dir := Directory])
    ensures Closed(map[dir := Directory][dir + "/f" := e]) && ValidPaths(map[dir := Directory][dir + "/f" := e])
  {
    OnlyAbove(dir, "f");
    ChildIsValid(dir, "f");
    assert dir + "/" + "f" == dir + "/f";
  }

  lemma CandidateOfName(name: string, revision: nat)
    requires ValidName(name)
    ensures Valid(Candidate(name, revision, 0)) && '/' !in Candidate(name, revision, 0)
  {
    NameIsValid(name);
    SuffixIsOneComponent(revision, 0);
    CandidateKeepsValid(name, revision, 0, name);
    assert Rebase(name, Candidate(name, revision, 0), name) == Candidate(name, revision, 0);
  }

  lemma ShadowingStarts(left: Entry, right: Entry, blobs: map<string, Bytes>, digest: Digest)
    requires Differ(left, right)
    ensures
      var dir, run := Candidate("d", 5, 0), ShadowedRun(left, right, blobs, digest);
      var h1 := Uploaded([Head(map[], None)], map[dir := Directory], digest);
      var h2 := Uploaded(h1, map[dir := Directory][dir + "/f" := right], digest);
      HeadsOk(PublishedRun(h2, run)) && RunOk(PublishedRun(h2, run), run)
  {
    var dir, run := Candidate("d", 5, 0), ShadowedRun(left, right, blobs, digest);
    var h1 := Uploaded([Head(map[], None)], map[dir := Directory], digest);
    var h2 := Uploaded(h1, map[dir := Directory][dir + "/f" := right], digest);
    CandidateOfName("d", 5);
    FileInDirectory(dir, right);
    FileInDirectory(dir, left);
    EmptyIsOk();
    UploadedIsOk([Head(map[], None)], map[dir := Directory], digest);
    UploadedIsOk(h1, map[dir := Directory][dir + "/f" := right], digest);
    ShadowedRunCombines(left, right, blobs, digest);
    assert Reads(h2, run.sync, 1);
    ProtocolSafety.HeadsOkGrows(h2, Head(run.combined, Some(run)), run);
    StillReads(h2, Head(run.combined, Some(run)), run.sync, 1);
  }

  /** The first failure. A device publishes a conflict at revision 2, with the copy in a directory that is
      later deleted everywhere; its conflict at `d`, at revision 5, takes the name of that directory, which
      then lies above the recorded copy. Both synchronizations read heads of one history. */
  lemma ShadowingHappens(left: Entry, right: Entry, blobs: map<string, Bytes>, digest: Digest)
    requires Differ(left, right)
    ensures
      var dir := Candidate("d", 5, 0);
      var kept := Candidate(dir + "/f", 2, 0);
      var heads, first := ShadowingHistory(left, right, blobs, digest), ShadowedRun(left, right, blobs, digest);
      var second := TwoFiles(map[], "d", 5, left, right, blobs, digest);
      && HeadsOk(heads) && RunOk(heads, first) && heads[3].from == Some(first) && kept in first.names.Values
      && Reads(heads, second, 4) && IsCombination(second, {kept}, second.local[dir := right], map["d" := dir])
      && Under(dir, kept) && !Clear(kept, dir)
  {
    var dir := Candidate("d", 5, 0);
    var file := dir + "/f";
    var kept := Candidate(file, 2, 0);
    SuffixIsOneComponent(5, 0);
    SuffixIsOneComponent(2, 0);
    assert '/' !in dir && |kept| > |file| > |dir|;
    assert kept[..|dir|] == dir && kept[|dir|] == '/';
    ShadowingEnds(left, right, blobs, digest);
    BareCandidateIsFree("d", 5, {} + {"d"} + {kept});
    assert forall a :: !Under(a, "d");
    TwoFilesCombine(map[], "d", 5, left, right, blobs, digest, {kept}, dir);
    assert ShadowedRun(left, right, blobs, digest).names[file] == kept;
  }

  lemma ShadowingEnds(left: Entry, right: Entry, blobs: map<string, Bytes>, digest: Digest)
    requires Differ(left, right)
    ensures
      var heads, first := ShadowingHistory(left, right, blobs, digest), ShadowedRun(left, right, blobs, digest);
      && HeadsOk(heads) && RunOk(heads, first) && heads[3].from == Some(first)
      && Reads(heads, TwoFiles(map[], "d", 5, left, right, blobs, digest), 4)
  {
    var dir, first := Candidate("d", 5, 0), ShadowedRun(left, right, blobs, digest);
    var h1 := Uploaded([Head(map[], None)], map[dir := Directory], digest);
    var h2 := Uploaded(h1, map[dir := Directory][dir + "/f" := right], digest);
    var h3 := PublishedRun(h2, first);
    var h4 := Uploaded(h3, map[], digest);
    ShadowingStarts(left, right, blobs, digest);
    NameIsValid("d");
    assert forall a :: !Under(a, "d");
    UploadedIsOk(h3, map[], digest);
    UploadedIsOk(h4, map["d" := right], digest);
    StillReads(h3, h4[4], first.sync, 1);
    StillReads(h4, Uploaded(h4, map["d" := right], digest)[5], first.sync, 1);
  }

  // ---------------------------------------------------------------- the second failure

  /** A conflict at revision 1 between a file and a directory at `d`: the copy is a directory. */
  function NestedRun(left: Entry, blobs: map<string, Bytes>, digest: Digest): Run {
    var kept := Candidate("d", 1, 0);
    Run(FileAgainstDirectory("d", 1, left, blobs, digest), 0, {}, map["d" := kept], map["d" := left, kept := Directory])
  }

  /** The directory, the conflict with its copy, and a file in the copy. */
  function NestingHistory(left: Entry, right: Entry, blobs: map<string, Bytes>, digest: Digest): seq<Head> {
    var run, kept := NestedRun(left, blobs, digest), Candidate("d", 1, 0);
    var h1 := Uploaded([Head(map[], None)], map["d" := Directory], digest);
    Uploaded(PublishedRun(h1, run), run.combined[kept + "/f" := right], digest)
  }

  lemma NestingStarts(left: Entry, blobs: map<string, Bytes>, digest: Digest)
    requires left.File?
    ensures
      var run := NestedRun(left, blobs, digest);
      var h1 := Uploaded([Head(map[], None)], map["d" := Directory], digest);
      && IsCombination(run.sync, {}, run.combined, run.names)
      && HeadsOk(PublishedRun(h1, run)) && RunOk(PublishedRun(h1, run), run)
  {
    var run := NestedRun(left, blobs, digest);
    var h1 := Uploaded([Head(map[], None)], map["d" := Directory], digest);
    NameIsValid("d");
    assert forall a :: !Under(a, "d");
    EmptyIsOk();
    UploadedIsOk([Head(map[], None)], map["d" := Directory], digest);
    BareCandidateIsFree("d", 1, {"d"});
    SuffixIsOneComponent(1, 0);
    FileAgainstDirectoryCombines("d", 1, left, blobs, digest, Candidate("d", 1, 0));
    assert Reads(h1, run.sync, 0);
    ProtocolSafety.HeadsOkGrows(h1, Head(run.combined, Some(run)), run);
    StillReads(h1, Head(run.combined, Some(run)), run.sync, 0);
  }

  lemma NestingEnds(left: Entry, right: Entry, blobs: map<string, Bytes>, digest: Digest)
    requires Differ(left, right)
    ensures
      var heads, first := NestingHistory(left, right, blobs, digest), NestedRun(left, blobs, digest);
      && HeadsOk(heads) && RunOk(heads, first) && heads[2].from == Some(first)
      && Reads(heads, TwoFiles(first.combined, Candidate("d", 1, 0) + "/f", 3, left, right, blobs, digest), 2)
  {
    var run, kept := NestedRun(left, blobs, digest), Candidate("d", 1, 0);
    var h2 := PublishedRun(Uploaded([Head(map[], None)], map["d" := Directory], digest), run);
    NestingStarts(left, blobs, digest);
    CandidateOfName("d", 1);
    ChildIsValid(kept, "f");
    NameIsValid("d");
    RoomInCopy("d", kept, left);
    ClosedInCopy("d", kept, left, right);
    ClosedInCopy("d", kept, left, left);
    UploadedIsOk(h2, run.combined[kept + "/f" := right], digest);
    StillReads(h2, Uploaded(h2, run.combined[kept + "/f" := right], digest)[3], run.sync, 0);
  }

  lemma ClosedInCopy(p: Path, kept: Path, left: Entry, e: Entry)
    requires Valid(p) && Valid(kept) && '/' !in p && '/' !in kept && p != kept
    ensures
      var m := map[p := left, kept := Directory][kept + "/f" := e];
      Closed(m) && ValidPaths(m)
  {
    OnlyAbove(kept, "f");
    OnlyAbove(p, "f");
    ChildIsValid(kept, "f");
    assert kept + "/" + "f" == kept + "/f";
  }

  /** The second failure. At revision 1 a conflict between a file and a directory at `d` leaves a copy that is
      a directory; at revision 3 both sides have created the same file in it, and the new copy lies inside the
      recorded one. Both synchronizations read heads of one history. */
  lemma NestingHappens(left: Entry, right: Entry, blobs: map<string, Bytes>, digest: Digest)
    requires Differ(left, right)
    ensures
      var kept := Candidate("d", 1, 0);
      var file := kept + "/f";
      var copy := Candidate(file, 3, 0);
      var heads, first := NestingHistory(left, right, blobs, digest), NestedRun(left, blobs, digest);
      var second := TwoFiles(first.combined, file, 3, left, right, blobs, digest);
      && HeadsOk(heads) && RunOk(heads, first) && heads[2].from == Some(first) && first.names["d"] == kept
      && Reads(heads, second, 2) && IsCombination(second, {kept}, second.local[copy := right], map[file := copy])
      && Under(kept, file) && Under(kept, copy) && !Clear(kept, copy)
  {
    NestingEnds(left, right, blobs, digest);
    NestedNames();
    NestedCombines(left, right, blobs, digest);
  }

  lemma NestedNames()
    ensures
      var kept := Candidate("d", 1, 0);
      var file := kept + "/f";
      var copy := Candidate(file, 3, 0);
      && '/' !in kept && |kept| > 1 && |copy| > |file| > |kept|
      && Under(kept, file) && Under(kept, copy) && !Clear(kept, copy)
  {
    var kept := Candidate("d", 1, 0);
    var file := kept + "/f";
    var copy := Candidate(file, 3, 0);
    SuffixIsOneComponent(1, 0);
    SuffixIsOneComponent(3, 0);
    assert file[..|kept|] == kept && copy[..|kept|] == kept && copy[|kept|] == '/';
  }

  lemma NestedCombines(left: Entry, right: Entry, blobs: map<string, Bytes>, digest: Digest)
    requires Differ(left, right)
    ensures
      var kept := Candidate("d", 1, 0);
      var file := kept + "/f";
      var copy := Candidate(file, 3, 0);
      var s := TwoFiles(map["d" := left, kept := Directory], file, 3, left, right, blobs, digest);
      IsCombination(s, {kept}, s.local[copy := right], map[file := copy])
  {
    var kept := Candidate("d", 1, 0);
    var file := kept + "/f";
    NestedNames();
    RoomInCopy("d", kept, left);
    BareCandidateIsFree(file, 3, {"d", kept} + {file} + {kept});
    TwoFilesCombine(
      map["d" := left, kept := Directory], file, 3, left, right, blobs, digest, {kept}, Candidate(file, 3, 0));
  }
}
