/** The combine loop itself, proved against the specification of a combination. */
module CombineMethod {
  import opened Options
  import opened Data
  import opened Paths
  import opened Manifests
  import opened Reconciliation
  import opened ConflictNames
  import opened Combination
  import opened CombineLoop
  import TextMerge

  ghost function JobOf(s: Sync, p: Path): Job {
    if InConflict(s, p) then Copy(p) else Take(p, Taken(s, p))
  }

  ghost function JobsOf(s: Sync, plan: seq<PlannedPath>): (jobs: seq<Job>)
    ensures |jobs| == |plan| && forall i | 0 <= i < |plan| :: jobs[i] == JobOf(s, plan[i].path)
  {
    seq(|plan|, i requires 0 <= i < |plan| => JobOf(s, plan[i].path))
  }

  ghost predicate IsPlanOf(s: Sync, plan: seq<PlannedPath>) {
    IsPlan(s.base, s.local, s.remote, plan)
  }

  /** A conflict that is no directory/file clash has nothing below it on either side. */
  lemma NothingBelowLeafConflict(s: Sync, p: Path, q: Path)
    requires ClosedInputs(s) && InConflict(s, p) && !Clash(s.base, s.local, s.remote, p) && Under(p, q)
    ensures q !in s.local && q !in s.remote && !InConflict(s, q) && Taken(s, q) == None
  {
  }

  lemma PlanIsSeparated(s: Sync, plan: seq<PlannedPath>)
    requires ClosedInputs(s) && IsPlanOf(s, plan)
    ensures Separated(s.local, s.remote, AllKeys(s), JobsOf(s, plan))
  {
    var jobs := JobsOf(s, plan);
    assert Upward(AllKeys(s));
    forall i, j | 0 <= i < j < |jobs| ensures jobs[i].path != jobs[j].path {
      LessIsIrreflexive(plan[i].path);
      assert Less(plan[i].path, plan[j].path);
    }
    forall i, j | 0 <= i < |jobs| && 0 <= j < |jobs| && jobs[j].Copy? && Under(jobs[j].path, jobs[i].path)
      ensures jobs[i].Take? && jobs[i].entry == None && jobs[i].path !in s.local && jobs[i].path !in s.remote
    {
      var p, q := plan[j].path, plan[i].path;
      assert !Covered(s.base, s.local, s.remote, q);
      NothingBelowLeafConflict(s, p, q);
    }
  }

  lemma CopiesAreConflicts(s: Sync, plan: seq<PlannedPath>, p: Path)
    requires IsPlanOf(s, plan)
    ensures CopiedBefore(JobsOf(s, plan), |plan|, p) <==> PlannedIn(s, p) && InConflict(s, p)
  {
  }

  lemma TakesAreTheRest(s: Sync, plan: seq<PlannedPath>, q: Path)
    requires IsPlanOf(s, plan)
    ensures TakenBefore(JobsOf(s, plan), |plan|, q) ==> PlannedIn(s, q) && !InConflict(s, q)
    ensures PlannedIn(s, q) && !InConflict(s, q) ==>
      exists i :: 0 <= i < |plan| && JobsOf(s, plan)[i] == Take(q, Taken(s, q))
  {
  }

  lemma LoopGivesCombination(
    s: Sync, recorded: set<Path>, reserved: set<Path>, plan: seq<PlannedPath>, c: Entries, names: map<Path, Path>)
    requires IsPlanOf(s, plan)
    requires After(s.local, s.remote, AllKeys(s), JobsOf(s, plan), |plan|, c, names)
    requires Named(AllKeys(s) + recorded, Free(AllKeys(s) + recorded, s.revision), reserved, names)
    ensures IsCombination(s, recorded, c, names)
  {
    var jobs := JobsOf(s, plan);
    forall p ensures p in names <==> PlannedIn(s, p) && InConflict(s, p) { CopiesAreConflicts(s, plan, p); }
    forall p | PlannedIn(s, p) && !InConflict(s, p) ensures Get(c, p) == Taken(s, p) {
      TakesAreTheRest(s, plan, p);
      var i :| 0 <= i < |plan| && jobs[i] == Take(p, Taken(s, p));
    }
    forall q | q in c ensures (PlannedIn(s, q) && !InConflict(s, q)) || InRegion(names, q) {
      TakesAreTheRest(s, plan, q);
    }
  }

  lemma CandidateIsSibling(p: Path, revision: nat, k: nat)
    ensures Sibling(p, Candidate(p, revision, k))
  {
  }

  /** Merged contents at hand for every path merged among the first `i`. */
  ghost predicate MergedAtHand(s: Sync, plan: seq<PlannedPath>, i: nat, merged: map<string, Bytes>)
    requires i <= |plan|
  {
    && (forall h | h in merged :: s.digest.hash(merged[h]) == h)
    && (forall j | 0 <= j < i && Act(s, plan[j].path) == Merge && MergeOf(s, plan[j].path) != None ::
          s.digest.hash(MergeOf(s, plan[j].path).value) in merged)
  }

  ghost predicate InCopies(names: map<Path, Path>, q: Path) {
    exists p :: p in names && AtOrUnder(names[p], q)
  }

  /** The names given so far, each free in the sense of `free`; what is reserved by now was reserved
      from the start or lies in a copy. */
  ghost predicate Named(start: set<Path>, free: (Path, Path) -> bool, reserved: set<Path>, names: map<Path, Path>) {
    && start <= reserved
    && (forall p | p in names :: names[p] in reserved && free(p, names[p]))
    && (forall p, q | p in names && q in names && names[p] == names[q] :: p == q)
    && (forall q | q in reserved :: q in start || InCopies(names, q))
  }

  ghost function Free(start: set<Path>, revision: nat): (Path, Path) -> bool {
    (p, name) => FirstFree(p, revision, start, name)
  }

  /** A candidate of one path never lies in the copy of another. */
  lemma CandidatesStayApart(keys: set<Path>, path: Path, x: Path, p: Path, name: Path, revision: nat)
    requires Upward(keys) && path in keys && p in keys && x !in keys && name !in keys && p != path
    requires IsCandidate(path, revision, x) && IsCandidate(p, revision, name)
    ensures !AtOrUnder(name, x)
  {
    var j: nat :| x == Candidate(path, revision, j);
    var k: nat :| name == Candidate(p, revision, k);
    CandidateIsSibling(path, revision, j);
    CandidateIsSibling(p, revision, k);
    if AtOrUnder(name, x) {
      CopiesMeet(keys, path, x, p, name, x);
      CandidatesOfDifferentPaths(path, j, p, k, revision);
    }
  }

  /** A candidate reserved by now was reserved from the start: copies of other conflicts never take it. */
  lemma ReservedFromTheStart(
    keys: set<Path>, start: set<Path>, revision: nat, reserved: set<Path>, names: map<Path, Path>, path: Path, x: Path)
    requires keys <= start && Upward(keys) && NamesOk(keys, names)
    requires Named(start, Free(start, revision), reserved, names)
    requires path in keys && path !in names && IsCandidate(path, revision, x) && x in reserved
    ensures x in start
  {
    if x !in keys {
      forall p | p in names ensures !AtOrUnder(names[p], x) {
        FirstFreeIsCandidate(p, revision, start, names[p]);
        CandidatesStayApart(keys, path, x, p, names[p], revision);
      }
      assert !InCopies(names, x);
    }
  }

  lemma StillFirstFree(
    keys: set<Path>, start: set<Path>, revision: nat, reserved: set<Path>, names: map<Path, Path>,
    path: Path, copy: Path, k: nat)
    requires keys <= start && Upward(keys) && NamesOk(keys, names)
    requires Named(start, Free(start, revision), reserved, names)
    requires copy == Candidate(path, revision, k) && copy !in reserved && AllReserved(path, revision, reserved, k)
    requires path in keys && path !in names
    ensures FirstFree(path, revision, start, copy)
  {
    forall j: nat | j < k ensures Candidate(path, revision, j) in start {
      var x := Candidate(path, revision, j);
      assert IsCandidate(path, revision, x);
      ReservedFromTheStart(keys, start, revision, reserved, names, path, x);
    }
    assert AllReserved(path, revision, start, k);
  }

  lemma NamedStep(
    start: set<Path>, free: (Path, Path) -> bool, reserved: set<Path>, reserved': set<Path>,
    names: map<Path, Path>, path: Path, copy: Path)
    requires Named(start, free, reserved, names) && path !in names && copy !in reserved && free(path, copy)
    requires reserved <= reserved' && copy in reserved'
    requires forall q | q in reserved' :: q in reserved || AtOrUnder(copy, q)
    ensures Named(start, free, reserved', names[path := copy])
  {
    var names' := names[path := copy];
    assert forall p | p in names :: names'[p] == names[p];
    assert names'[path] == copy;
    forall q | q in reserved' ensures q in start || InCopies(names', q) {
      if InCopies(names, q) {
        var p :| p in names && AtOrUnder(names[p], q);
        assert p in names' && AtOrUnder(names'[p], q);
      }
      if AtOrUnder(copy, q) { assert path in names' && AtOrUnder(names'[path], q); }
    }
  }

  ghost function Start(s: Sync, conflicts: map<Path, ConflictRecord>): set<Path> {
    AllKeys(s) + RecordedCopies(conflicts)
  }

  /** The bookkeeping of the loop: names given, records kept. */
  ghost predicate Kept(
    s: Sync, conflicts: map<Path, ConflictRecord>, conflicts': map<Path, ConflictRecord>,
    reserved: set<Path>, names: map<Path, Path>)
  {
    && Named(Start(s, conflicts), Free(Start(s, conflicts), s.revision), reserved, names)
    && RecordsConflicts(s, conflicts, conflicts', names)
  }

  lemma KeptStep(
    s: Sync, conflicts: map<Path, ConflictRecord>, conflicts': map<Path, ConflictRecord>,
    reserved: set<Path>, reserved': set<Path>, names: map<Path, Path>, path: Path, copy: Path, k: nat)
    requires Kept(s, conflicts, conflicts', reserved, names) && Upward(AllKeys(s)) && NamesOk(AllKeys(s), names)
    requires reserved <= reserved' && copy in reserved'
    requires forall q | q in reserved' :: q in reserved || AtOrUnder(copy, q)
    requires copy == Candidate(path, s.revision, k) && copy !in reserved && AllReserved(path, s.revision, reserved, k)
    requires path in AllKeys(s) && path !in names
    ensures Kept(s, conflicts, conflicts'[path := ConflictRecord(path, copy, path !in s.remote)], reserved',
      names[path := copy])
  {
    var start := Start(s, conflicts);
    StillFirstFree(AllKeys(s), start, s.revision, reserved, names, path, copy, k);
    NamedStep(start, Free(start, s.revision), reserved, reserved', names, path, copy);
  }

  ghost predicate LoopState(
    s: Sync, plan: seq<PlannedPath>, conflicts: map<Path, ConflictRecord>, i: nat, c: Entries,
    conflicts': map<Path, ConflictRecord>, reserved: set<Path>, names: map<Path, Path>)
  {
    && i <= |plan|
    && After(s.local, s.remote, AllKeys(s), JobsOf(s, plan), i, c, names)
    && Kept(s, conflicts, conflicts', reserved, names)
  }

  ghost predicate Ready(s: Sync, plan: seq<PlannedPath>) {
    Separated(s.local, s.remote, AllKeys(s), JobsOf(s, plan)) && Closed(s.local) && Closed(s.remote)
  }

  /** The step for a path in conflict. */
  method ConflictStep(
    s: Sync, ghost plan: seq<PlannedPath>, ghost conflicts: map<Path, ConflictRecord>, ghost i: nat, path: Path,
    c: Entries, before: map<Path, ConflictRecord>, reserved: set<Path>, ghost names: map<Path, Path>)
    returns (ok: bool, c': Entries, after: map<Path, ConflictRecord>, reserved': set<Path>,
      ghost names': map<Path, Path>)
    requires Ready(s, plan) && i < |plan| && JobsOf(s, plan)[i] == Copy(path)
    requires LoopState(s, plan, conflicts, i, c, before, reserved, names)
    ensures ValidPaths(s.local) && ValidPaths(s.remote) ==> ok
    ensures ok ==> LoopState(s, plan, conflicts, i + 1, c', after, reserved', names')
  {
    var copy;
    ghost var k;
    names' := names;
    ok, c', after, reserved', copy, k := AddConflict(c, before, reserved, path, s.local, s.remote, s.revision);
    if ok {
      PathIsNew(s, JobsOf(s, plan), i, c, names);
      CandidateIsSibling(path, s.revision, k);
      CopyStep(s.local, s.remote, AllKeys(s), JobsOf(s, plan), i, c, names, copy, c');
      KeptStep(s, conflicts, before, reserved, reserved', names, path, copy, k);
      names' := names[path := copy];
    } else {
      RejectedOnlyIfInvalid(s, path, copy, k);
    }
  }

  /** The step for a path whose entry is decided. */
  method EntryStep(
    s: Sync, ghost plan: seq<PlannedPath>, ghost conflicts: map<Path, ConflictRecord>, ghost i: nat, path: Path,
    entry: Option<Entry>, c: Entries, ghost before: map<Path, ConflictRecord>, ghost reserved: set<Path>,
    ghost names: map<Path, Path>)
    returns (ok: bool, c': Entries)
    requires Ready(s, plan) && i < |plan| && JobsOf(s, plan)[i] == Take(path, entry)
    requires LoopState(s, plan, conflicts, i, c, before, reserved, names)
    ensures Valid(path) || entry == None ==> ok
    ensures ok ==> LoopState(s, plan, conflicts, i + 1, c', before, reserved, names)
  {
    TakeStep(s.local, s.remote, AllKeys(s), JobsOf(s, plan), i, c, names);
    if entry == None {
      return true, c;
    }
    var inserted := Insert(c, path, entry.value);
    if inserted.InvalidPath? {
      return false, c;
    }
    return true, inserted.entries;
  }

  lemma ItemAction(s: Sync, plan: seq<PlannedPath>, i: nat)
    requires IsPlanOf(s, plan) && i < |plan|
    ensures plan[i].action == Act(s, plan[i].path)
    ensures InConflict(s, plan[i].path) <==>
      plan[i].action == Conflict || (plan[i].action == Merge && MergeOf(s, plan[i].path) == None)
    ensures InConflict(s, plan[i].path) ==> JobsOf(s, plan)[i] == Copy(plan[i].path)
    ensures !InConflict(s, plan[i].path) ==> JobsOf(s, plan)[i] == Take(plan[i].path, Taken(s, plan[i].path))
  {
  }

  lemma TakenFromASide(s: Sync, p: Path)
    requires !InConflict(s, p) && Taken(s, p).Some?
    ensures p in s.local || p in s.remote
  {
  }

  lemma InitialState(s: Sync, plan: seq<PlannedPath>, conflicts: map<Path, ConflictRecord>)
    ensures LoopState(s, plan, conflicts, 0, map[], conflicts, AllKeys(s) + RecordedCopies(conflicts), map[])
    ensures MergedAtHand(s, plan, 0, map[])
  {
  }

  lemma MergedStep(s: Sync, plan: seq<PlannedPath>, i: nat, merged: map<string, Bytes>)
    requires i < |plan| && MergedAtHand(s, plan, i, merged) && plan[i].action == Act(s, plan[i].path)
    ensures var m := MergeOf(s, plan[i].path);
      MergedAtHand(s, plan, i + 1,
        if plan[i].action == Merge && m != None then merged[s.digest.hash(m.value) := m.value] else merged)
  {
  }

  /** What becomes of one planned path: a side is taken as planned, or the texts at hand are merged, or both
      sides are kept. Remote contents come from the download, else from the local or the base blobs. */
  ghost predicate Follows(s: Sync, item: PlannedPath, c: Entries, names: map<Path, Path>) {
    var p := item.path;
    match item.action
    case Unchanged => p !in names && Get(c, p) == Get(s.local, p)
    case Upload => p !in names && Get(c, p) == Get(s.local, p)
    case Download => p !in names && Get(c, p) == Get(s.remote, p)
    case Conflict => p in names
    case Merge =>
      && IsFile(s.local, p) && IsFile(s.remote, p)
      && var remote := s.remoteBlobs.Keys + s.localBlobs.Keys + s.baseBlobs.Keys;
      if IsFile(s.base, p) && s.base[p].file.contentHash in s.baseBlobs
         && s.local[p].file.contentHash in s.localBlobs && s.remote[p].file.contentHash in remote
      then
        var b, l, h := s.baseBlobs[s.base[p].file.contentHash], s.localBlobs[s.local[p].file.contentHash],
          s.remote[p].file.contentHash;
        var r := if h in s.remoteBlobs then s.remoteBlobs[h]
                 else if h in s.localBlobs then s.localBlobs[h] else s.baseBlobs[h];
        if TextMerge.Mergeable(s.digest.utf8, b, l, r)
        then
          var m := TextMerge.Merged(s.digest.utf8, b, l, r).value;
          p !in names && p in c
          && c[p] == File(FileEntry(|m|, s.digest.hash(m), s.local[p].file.modifiedAt, None, []))
        else p in names
      else p in names
  }

  ghost predicate FollowsPlan(s: Sync, plan: seq<PlannedPath>, c: Entries, names: map<Path, Path>) {
    forall i | 0 <= i < |plan| :: Follows(s, plan[i], c, names)
  }

  lemma CombinationFollows(
    s: Sync, recorded: set<Path>, plan: seq<PlannedPath>, c: Entries, names: map<Path, Path>)
    requires IsPlanOf(s, plan) && IsCombination(s, recorded, c, names)
    ensures FollowsPlan(s, plan, c, names)
  {
    forall i | 0 <= i < |plan| ensures Follows(s, plan[i], c, names) {
      ItemFollows(s, recorded, plan, i, c, names);
    }
  }

  lemma ItemFollows(
    s: Sync, recorded: set<Path>, plan: seq<PlannedPath>, i: nat, c: Entries, names: map<Path, Path>)
    requires IsPlanOf(s, plan) && i < |plan| && IsCombination(s, recorded, c, names)
    ensures Follows(s, plan[i], c, names)
  {
    ItemAction(s, plan, i);
    MergeIsOfFiles(s, plan[i].path);
    assert PlannedIn(s, plan[i].path);
  }

  lemma MergeIsOfFiles(s: Sync, p: Path)
    ensures Act(s, p) == Merge ==> IsFile(s.local, p) && IsFile(s.remote, p)
  {
  }

  /** Builds the combined manifest. It is a combination in the sense of the specification, and no
      insertion is refused when the paths of both sides are valid. */
  method Combine(s: Sync, plan: seq<PlannedPath>, conflicts: map<Path, ConflictRecord>)
    returns (ok: bool, c: Entries, conflicts': map<Path, ConflictRecord>, merged: map<string, Bytes>,
      ghost names: map<Path, Path>)
    requires ClosedInputs(s) && IsPlanOf(s, plan)
    ensures ValidPaths(s.local) && ValidPaths(s.remote) ==> ok
    ensures ok ==> IsCombination(s, RecordedCopies(conflicts), c, names)
    ensures ok ==> FollowsPlan(s, plan, c, names)
    ensures ok ==> RecordsConflicts(s, conflicts, conflicts', names)
    ensures ok ==> MergedAtHand(s, plan, |plan|, merged)
  {
    c, conflicts', merged, names := map[], conflicts, map[], map[];
    var reserved := AllKeys(s) + RecordedCopies(conflicts);
    PlanIsSeparated(s, plan);
    InitialState(s, plan, conflicts);
    for i := 0 to |plan|
      invariant LoopState(s, plan, conflicts, i, c, conflicts', reserved, names)
      invariant MergedAtHand(s, plan, i, merged)
    {
      var path := plan[i].path;
      ItemAction(s, plan, i);
      if InConflict(s, path) {
        ok, c, conflicts', reserved, names :=
          ConflictStep(s, plan, conflicts, i, path, c, conflicts', reserved, names);
      } else {
        var entry := Taken(s, path);
        if entry.Some? { TakenFromASide(s, path); }
        ok, c := EntryStep(s, plan, conflicts, i, path, entry, c, conflicts', reserved, names);
      }
      if !ok {
        return;
      }
      MergedStep(s, plan, i, merged);
      if plan[i].action == Merge && MergeOf(s, path) != None {
        var bytes := MergeOf(s, path).value;
        merged := merged[s.digest.hash(bytes) := bytes];
      }
    }
    LoopGivesCombination(s, RecordedCopies(conflicts), reserved, plan, c, names);
    CombinationFollows(s, RecordedCopies(conflicts), plan, c, names);
    ok := true;
  }

  lemma PathIsNew(s: Sync, jobs: seq<Job>, i: nat, c: Entries, names: map<Path, Path>)
    requires i < |jobs| && Separated(s.local, s.remote, AllKeys(s), jobs)
    requires After(s.local, s.remote, AllKeys(s), jobs, i, c, names)
    ensures jobs[i].path !in names
  {
  }

  lemma RejectedOnlyIfInvalid(s: Sync, path: Path, copy: Path, k: nat)
    requires copy == Candidate(path, s.revision, k) && !AllValid(s.local, s.remote, path, copy)
    requires Closed(s.local) && Closed(s.remote)
    ensures !(ValidPaths(s.local) && ValidPaths(s.remote))
  {
    if forall q | q in s.local && AtOrUnder(path, q) :: Valid(q) {
      var q :| q in s.remote && AtOrUnder(path, q) && !Valid(Rebase(path, copy, q));
      if Valid(q) && Valid(path) { CandidateKeepsValid(path, s.revision, k, q); }
      assert path in s.remote;
    }
  }
}
