/** A conflict and its resolution together: exactly one side's subtree is left, whatever else was
    resolved before. */
module ResolutionTheorems {
  import opened Options
  import opened Data
  import opened Paths
  import opened Manifests
  import opened FileTree
  import opened ConflictNames
  import opened Combination
  import opened CombinationTheorems
  import opened ConflictResolution
  import ApplyTree
  import CombinationApplies
  import CombineLoop
  import CombineMethod
  import Scanning

  ghost predicate InRegionOf(names: map<Path, Path>, p: Path, q: Path)
    requires p in names
  {
    AtOrUnder(p, q) || AtOrUnder(names[p], q)
  }

  /** The tree still holds both sides of the conflict at `p` as the combination left them. */
  ghost predicate Intact(s: Sync, c: Entries, names: map<Path, Path>, t: Tree, p: Path)
    requires p in names
  {
    && Rooted(t)
    && (forall a | Under(a, p) :: Get(t, a) == Some(DirNode))
    && (forall q | InRegionOf(names, p, q) :: NodeContent(s.digest, t, q) == At(c, q))
  }

  ghost predicate Combined(s: Sync, recorded: set<Path>, c: Entries, names: map<Path, Path>) {
    IsCombination(s, recorded, c, names) && ClosedInputs(s)
  }

  function RecordFor(s: Sync, names: map<Path, Path>, p: Path): ConflictRecord
    requires p in names
  {
    ConflictRecord(p, names[p], p !in s.remote)
  }

  lemma CopyIsSibling(s: Sync, recorded: set<Path>, c: Entries, names: map<Path, Path>, p: Path)
    requires Combined(s, recorded, c, names) && p in names
    ensures CombineLoop.Sibling(p, names[p]) && p in AllKeys(s) && names[p] !in AllKeys(s)
    ensures !Under(p, names[p]) && !Under(names[p], p) && p != names[p]
    ensures forall a :: Under(a, names[p]) <==> Under(a, p)
  {
    NamesAreSeparate(s, recorded, c, names);
    var x := names[p];
    assert x == p + x[|p|..];
    forall a ensures Under(a, x) <==> Under(a, p) { SiblingAncestors(a, p, x[|p|..]); }
  }

  lemma ParentsInCombination(s: Sync, recorded: set<Path>, c: Entries, names: map<Path, Path>, p: Path)
    requires Combined(s, recorded, c, names) && p in names
    ensures forall a | Under(a, p) :: At(c, a) == Dir
  {
    InConflictIsPresent(s, p);
    forall a | Under(a, p) ensures At(c, a) == Dir { ParentDirectory(s, recorded, c, names, a, p); }
  }

  /** No ignored path lies at or below either side of the conflict. */
  ghost predicate NothingHidden(t: Tree, rules: Rules, names: map<Path, Path>, p: Path)
    requires p in names
  {
    forall q | q in t && InRegionOf(names, p, q) :: q in VisiblePaths(t, rules)
  }

  lemma ListedNode(digest: Digest, t: Tree, rules: Rules, scanned: Entries, c: Entries, q: Path)
    requires Scanning.ScansVisible(digest, t, rules, scanned) && SameContent(scanned, c)
    ensures At(c, q) == if Scanning.Listed(t, rules, q) then NodeContent(digest, t, q) else Absent
    ensures At(c, q) == Dir ==> Get(t, q) == Some(DirNode)
  {
    assert At(scanned, q) == At(c, q);
  }

  lemma RegionIsListed(t: Tree, rules: Rules, names: map<Path, Path>, p: Path, q: Path)
    requires p in names && NothingHidden(t, rules, names, p) && InRegionOf(names, p, q) && q in t
    ensures Scanning.Listed(t, rules, q)
  {
    var root := if AtOrUnder(p, q) then p else names[p];
    forall k | k in t && AtOrUnder(q, k) ensures k in VisiblePaths(t, rules) { AtOrUnderTransitive(root, q, k); }
    Scanning.VisibleIsListed(t, rules, q);
  }

  /** Once the restaged manifest is the combination, a conflict is intact exactly if nothing ignored lies at
      or below its two sides. */
  lemma IntactAfterApply(
    s: Sync, recorded: set<Path>, c: Entries, names: map<Path, Path>, t: Tree, rules: Rules, scanned: Entries, p: Path)
    requires Combined(s, recorded, c, names) && p in names
    requires Rooted(t) && Scanning.ScansVisible(s.digest, t, rules, scanned) && SameContent(scanned, c)
    ensures Intact(s, c, names, t, p) <==> NothingHidden(t, rules, names, p)
  {
    forall q ensures At(c, q) == (if Scanning.Listed(t, rules, q) then NodeContent(s.digest, t, q) else Absent)
      && (At(c, q) == Dir ==> Get(t, q) == Some(DirNode))
    {
      ListedNode(s.digest, t, rules, scanned, c, q);
    }
    ParentsInCombination(s, recorded, c, names, p);
    if NothingHidden(t, rules, names, p) {
      forall q | InRegionOf(names, p, q) ensures NodeContent(s.digest, t, q) == At(c, q) {
        if q in t { RegionIsListed(t, rules, names, p, q); }
      }
    }
    if Intact(s, c, names, t, p) {
      forall q | q in t && InRegionOf(names, p, q) ensures q in VisiblePaths(t, rules) {
        assert NodeContent(s.digest, t, q) == At(c, q);
      }
    }
  }

  // ---------------------------------------------------------------- other conflicts

  predicate Meets(a: Path, b: Path) {
    AtOrUnder(a, b) || AtOrUnder(b, a)
  }

  /** The places of two conflicts, each a path and its copy, share no subtree. */
  predicate Apart(p: Path, x: Path, p': Path, x': Path) {
    !Meets(p, p') && !Meets(p, x') && !Meets(x, p') && !Meets(x, x')
  }

  lemma ApartRegions(p: Path, x: Path, p': Path, x': Path, q: Path)
    requires Apart(p, x, p', x') && (AtOrUnder(p', q) || AtOrUnder(x', q))
    ensures !AtOrUnder(p, q) && !AtOrUnder(x, q)
  {
    var other := if AtOrUnder(p', q) then p' else x';
    if AtOrUnder(p, q) { AncestorsAreLinear(p, other, q); }
    if AtOrUnder(x, q) { AncestorsAreLinear(x, other, q); }
  }

  /** Resolving a recorded conflict leaves every conflict of any run intact that is apart from it. */
  lemma OthersStayIntact(
    s: Sync, c: Entries, names: map<Path, Path>, p: Path, t: Tree, path: Path, record: ConflictRecord,
    keepRemote: bool, t': Tree)
    requires p in names && Intact(s, c, names, t, p)
    requires Settles(t, path, record, keepRemote, t') && Rooted(t')
    requires Apart(path, record.remoteCopyPath, p, names[p])
    ensures Intact(s, c, names, t', p)
  {
    forall q | InRegionOf(names, p, q) ensures Get(t', q) == Get(t, q) {
      ApartRegions(path, record.remoteCopyPath, p, names[p], q);
    }
    forall a | Under(a, p) ensures Get(t', a) == Get(t, a) {
      if AtOrUnder(path, a) { AtOrUnderTransitive(path, a, p); }
      if AtOrUnder(record.remoteCopyPath, a) { AtOrUnderTransitive(record.remoteCopyPath, a, p); }
    }
  }

  /** Conflicts of one synchronization are always apart, so they can be resolved in any order. */
  lemma OneRunIsApart(s: Sync, recorded: set<Path>, c: Entries, names: map<Path, Path>, p: Path, p': Path)
    requires Combined(s, recorded, c, names) && p in names && p' in names && p' != p
    ensures Apart(p, names[p], p', names[p'])
  {
    RegionsAreDisjoint(s, recorded, c, names, p, p', p');
    RegionsAreDisjoint(s, recorded, c, names, p, p', names[p']);
    RegionsAreDisjoint(s, recorded, c, names, p', p, p);
    RegionsAreDisjoint(s, recorded, c, names, p', p, names[p]);
  }

  /** The two places of a conflict are as before. */
  ghost predicate Spared(t: Tree, t': Tree, p: Path, x: Path) {
    forall q | AtOrUnder(p, q) || AtOrUnder(x, q) :: Get(t', q) == Get(t, q)
  }

  lemma RemovalSpares(t: Tree, root: Path, t': Tree, p: Path, x: Path)
    requires Removes(t, root, t') && root in t && CombineLoop.Sibling(p, x) && (p in t || x in t)
    ensures Spared(t, t', p, x) <==> !Meets(root, p) && !Meets(root, x)
  {
    assert x == p + x[|p|..];
    SiblingAncestors(root, p, x[|p|..]);
    if Meets(root, p) || Meets(root, x) {
      var q := if AtOrUnder(p, root) || AtOrUnder(x, root) then root else if p in t then p else x;
      assert Get(t', q) == None && Get(t, q).Some?;
    } else {
      forall q | AtOrUnder(p, q) || AtOrUnder(x, q) ensures Get(t', q) == Get(t, q) {
        var other := if AtOrUnder(p, q) then p else x;
        if AtOrUnder(root, q) { AncestorsAreLinear(root, other, q); }
      }
    }
  }

  /** Removing a recorded copy spares another conflict exactly when its subtree meets neither place of
      that conflict. */
  lemma KeepingLocalSpares(t: Tree, path: Path, record: ConflictRecord, t': Tree, p: Path, x: Path)
    requires Settles(t, path, record, false, t') && !record.remoteDeleted && record.remoteCopyPath in t
    requires CombineLoop.Sibling(p, x) && (p in t || x in t)
    ensures Spared(t, t', p, x) <==> !Meets(record.remoteCopyPath, p) && !Meets(record.remoteCopyPath, x)
  {
    RemovalSpares(t, record.remoteCopyPath, t', p, x);
  }

  /** The part of another conflict that lies at or below `path` is the same in the copy. */
  ghost predicate SameInCopy(t: Tree, path: Path, copy: Path, p: Path, x: Path) {
    forall q | (AtOrUnder(p, q) || AtOrUnder(x, q)) && AtOrUnder(path, q) :: Get(t, Rebase(path, copy, q)) == Get(t, q)
  }

  /** Moving a recorded copy into place spares another conflict exactly when the copy meets neither of its
      places, and holds the same wherever one of them meets the path. Removing the path, when the remote
      side had deleted it, spares exactly the conflicts that do not meet the path. */
  lemma KeepingRemoteSpares(t: Tree, path: Path, record: ConflictRecord, t': Tree, p: Path, x: Path)
    requires Settles(t, path, record, true, t') && RecordOk(path, record)
    requires (if record.remoteDeleted then path else record.remoteCopyPath) in t
    requires CombineLoop.Sibling(p, x) && (p in t || x in t)
    ensures
      var copy := record.remoteCopyPath;
      Spared(t, t', p, x) <==>
        if record.remoteDeleted then !Meets(path, p) && !Meets(path, x)
        else !Meets(copy, p) && !Meets(copy, x) && SameInCopy(t, path, copy, p, x)
  {
    if record.remoteDeleted {
      RemovalSpares(t, path, t', p, x);
    } else {
      MoveSpares(t, path, record.remoteCopyPath, t', p, x);
    }
  }

  lemma MoveSpares(t: Tree, path: Path, copy: Path, t': Tree, p: Path, x: Path)
    requires Renames(t, copy, path, t') && copy in t && copy != path && !Under(path, copy) && !Under(copy, path)
    requires CombineLoop.Sibling(p, x) && (p in t || x in t)
    ensures Spared(t, t', p, x) <==> !Meets(copy, p) && !Meets(copy, x) && SameInCopy(t, path, copy, p, x)
  {
    assert x == p + x[|p|..];
    SiblingAncestors(copy, p, x[|p|..]);
    if Meets(copy, p) || Meets(copy, x) {
      var q := if AtOrUnder(p, copy) || AtOrUnder(x, copy) then copy else if p in t then p else x;
      if AtOrUnder(path, q) { AncestorsAreLinear(path, copy, q); }
      assert Get(t', q) == None && Get(t, q).Some?;
    } else {
      forall q | AtOrUnder(p, q) || AtOrUnder(x, q) ensures !AtOrUnder(copy, q) {
        if AtOrUnder(copy, q) { AncestorsAreLinear(copy, if AtOrUnder(p, q) then p else x, q); }
      }
      if Spared(t, t', p, x) {
        forall q | (AtOrUnder(p, q) || AtOrUnder(x, q)) && AtOrUnder(path, q)
          ensures Get(t, Rebase(path, copy, q)) == Get(t, q)
        {
          assert Get(t', q) == Get(t, q);
        }
      }
    }
  }

  /** A conflict below a recorded copy loses both its sides when the recorded one is resolved, either way. */
  lemma BelowCopyIsLost(
    t: Tree, path: Path, record: ConflictRecord, keepRemote: bool, t': Tree, p: Path, x: Path, q: Path)
    requires Settles(t, path, record, keepRemote, t') && RecordOk(path, record) && !record.remoteDeleted
    requires Under(record.remoteCopyPath, p) && CombineLoop.Sibling(p, x) && (AtOrUnder(p, q) || AtOrUnder(x, q))
    ensures Get(t', q) == None
  {
    var copy := record.remoteCopyPath;
    assert x == p + x[|p|..];
    SiblingAncestors(copy, p, x[|p|..]);
    AtOrUnderTransitive(copy, if AtOrUnder(p, q) then p else x, q);
    if AtOrUnder(path, q) { AncestorsAreLinear(path, copy, q); }
  }

  /** A conflict below the path itself loses both its sides when the remote side is kept and is no
      directory. */
  lemma BelowPathIsLost(t: Tree, path: Path, record: ConflictRecord, t': Tree, p: Path, x: Path, q: Path)
    requires Settles(t, path, record, true, t') && Rooted(t)
    requires record.remoteDeleted || (record.remoteCopyPath in t && t[record.remoteCopyPath].FileNode?)
    requires Under(path, p) && CombineLoop.Sibling(p, x) && (AtOrUnder(p, q) || AtOrUnder(x, q))
    ensures Get(t', q) == None
  {
    assert x == p + x[|p|..];
    SiblingAncestors(path, p, x[|p|..]);
    AtOrUnderTransitive(path, if AtOrUnder(p, q) then p else x, q);
    assert Under(path, q);
    RebaseRoundTrip(path, record.remoteCopyPath, q);
  }

  /** The recorded conflict takes the places of a conflict with it: that lies below its copy, or, when a
      remote side that is no directory is kept, below its path. */
  ghost predicate TakesAlong(t: Tree, path: Path, record: ConflictRecord, keepRemote: bool, p: Path) {
    || (!record.remoteDeleted && Under(record.remoteCopyPath, p))
    || (keepRemote && Under(path, p) && Rooted(t)
        && (record.remoteDeleted || (record.remoteCopyPath in t && t[record.remoteCopyPath].FileNode?)))
  }

  lemma BothPlacesAreLost(
    t: Tree, path: Path, record: ConflictRecord, keepRemote: bool, t': Tree, p: Path, x: Path)
    requires Settles(t, path, record, keepRemote, t') && RecordOk(path, record)
    requires TakesAlong(t, path, record, keepRemote, p) && CombineLoop.Sibling(p, x)
    ensures Get(t', p) == None && Get(t', x) == None
  {
    if !record.remoteDeleted && Under(record.remoteCopyPath, p) {
      BelowCopyIsLost(t, path, record, keepRemote, t', p, x, p);
      BelowCopyIsLost(t, path, record, keepRemote, t', p, x, x);
    } else {
      BelowPathIsLost(t, path, record, t', p, x, p);
      BelowPathIsLost(t, path, record, t', p, x, x);
    }
  }

  lemma LostIsNotIntact(s: Sync, recorded: set<Path>, c: Entries, names: map<Path, Path>, p: Path, t: Tree)
    requires Combined(s, recorded, c, names) && p in names && Get(t, p) == None && Get(t, names[p]) == None
    ensures !Intact(s, c, names, t, p)
  {
    InConflictIsPresent(s, p);
    BothSidesInCombination(s, recorded, c, names, p, p);
    assert Rebase(p, names[p], p) == names[p];
    assert InRegionOf(names, p, p) && InRegionOf(names, p, names[p]);
  }

  lemma NestedConflictIsBroken(
    s: Sync, recorded: set<Path>, c: Entries, names: map<Path, Path>, p: Path, t: Tree, path: Path,
    record: ConflictRecord, keepRemote: bool, t': Tree)
    requires Combined(s, recorded, c, names) && p in names
    requires Settles(t, path, record, keepRemote, t') && RecordOk(path, record)
    requires TakesAlong(t, path, record, keepRemote, p)
    ensures !Intact(s, c, names, t', p)
  {
    CopyIsSibling(s, recorded, c, names, p);
    BothPlacesAreLost(t, path, record, keepRemote, t', p, names[p]);
    LostIsNotIntact(s, recorded, c, names, p, t');
  }

  /** On the two synchronizations of `RecordedCopies.NestingHappens`: whichever side of the first conflict is
      kept, both files of the second are gone from their places, and its record stays. */
  lemma NestedFilesAreLost(t: Tree, keepRemote: bool, t': Tree)
    requires
      var kept := Candidate("d", 1, 0);
      Settles(t, "d", ConflictRecord("d", kept, false), keepRemote, t')
    ensures
      var file := Candidate("d", 1, 0) + "/f";
      Get(t', file) == None && Get(t', Candidate(file, 3, 0)) == None
  {
    var kept := Candidate("d", 1, 0);
    var file := kept + "/f";
    SuffixIsOneComponent(1, 0);
    assert '/' !in kept && kept[..1] == "d" && |kept| > 1 && file[..|kept|] == kept;
    CombineMethod.CandidateIsSibling(file, 3, 0);
    BelowCopyIsLost(t, "d", ConflictRecord("d", kept, false), keepRemote, t', file, Candidate(file, 3, 0), file);
    BelowCopyIsLost(
      t, "d", ConflictRecord("d", kept, false), keepRemote, t', file, Candidate(file, 3, 0), Candidate(file, 3, 0));
  }

  lemma RegionsAreDisjoint(
    s: Sync, recorded: set<Path>, c: Entries, names: map<Path, Path>, p: Path, p': Path, q: Path)
    requires Combined(s, recorded, c, names) && p in names && p' in names && p' != p
    requires InRegionOf(names, p', q)
    ensures !InRegionOf(names, p, q)
  {
    if AtOrUnder(names[p'], q) {
      CopiesCollideWithNothing(s, recorded, c, names, p', q);
    } else {
      if AtOrUnder(names[p], q) { CopiesCollideWithNothing(s, recorded, c, names, p, q); }
      if AtOrUnder(p, q) {
        AncestorsAreLinear(p, p', q);
        ConflictsDoNotNest(s, p, p');
        ConflictsDoNotNest(s, p', p);
      }
    }
  }

  // ---------------------------------------------------------------- the theorem

  lemma RecordIsWellFormed(s: Sync, recorded: set<Path>, c: Entries, names: map<Path, Path>, p: Path)
    requires Combined(s, recorded, c, names) && p in names
    requires CombinationApplies.SafePaths(s.local) && CombinationApplies.SafePaths(s.remote)
    ensures RecordOk(p, RecordFor(s, names, p)) && Safe(p) && Safe(names[p])
  {
    CopyIsSibling(s, recorded, c, names, p);
    InConflictIsPresent(s, p);
    FirstFreeIsCandidate(p, s.revision, AllKeys(s) + recorded, names[p]);
    var k: nat :| names[p] == Candidate(p, s.revision, k);
    CombinationApplies.CopyIsSafe(p, s.revision, k, p);
    assert Rebase(p, names[p], p) == names[p];
  }

  lemma PlaceIsReachable(t: Tree, p: Path, x: Path)
    requires forall a | Under(a, p) :: Get(t, a) == Some(DirNode)
    requires forall a :: Under(a, x) <==> Under(a, p)
    ensures !FileAbove(t, p) && !FileAbove(t, x) && ParentExists(t, p)
  {
    forall a | a in t && (Under(a, p) || Under(a, x)) ensures t[a].DirNode? { assert Get(t, a) == Some(DirNode); }
    ApplyTree.ParentIsNearest(p);
    var parent := ApplyTree.Parent(p);
    if parent.Some? { assert Get(t, parent.value) == Some(DirNode); }
  }

  lemma CopyIsPresent(s: Sync, recorded: set<Path>, c: Entries, names: map<Path, Path>, t: Tree, p: Path)
    requires Combined(s, recorded, c, names) && p in names && Intact(s, c, names, t, p) && p in s.remote
    ensures names[p] in t
  {
    BothSidesInCombination(s, recorded, c, names, p, p);
    var x := names[p];
    assert Rebase(p, x, p) == x && AtOrUnder(x, x);
    assert NodeContent(s.digest, t, x) == At(c, x);
  }

  /** `resolve` never rejects a record made by a synchronization, and never meets a file-system error
      on an intact conflict. */
  lemma RecordIsAccepted(
    s: Sync, recorded: set<Path>, c: Entries, names: map<Path, Path>, t: Tree, p: Path, keepRemote: bool)
    requires Combined(s, recorded, c, names) && p in names && Intact(s, c, names, t, p)
    requires CombinationApplies.SafePaths(s.local) && CombinationApplies.SafePaths(s.remote)
    ensures RecordOk(p, RecordFor(s, names, p)) && Safe(p) && Safe(names[p])
    ensures Possible(t, p, RecordFor(s, names, p), keepRemote)
  {
    RecordIsWellFormed(s, recorded, c, names, p);
    CopyIsSibling(s, recorded, c, names, p);
    PlaceIsReachable(t, p, names[p]);
    if p in s.remote { CopyIsPresent(s, recorded, c, names, t, p); }
  }

  /** What the combination holds at and below a conflict, and in its copy. */
  lemma BothSidesInCombination(
    s: Sync, recorded: set<Path>, c: Entries, names: map<Path, Path>, p: Path, q: Path)
    requires Combined(s, recorded, c, names) && p in names && AtOrUnder(p, q)
    ensures At(c, q) == At(s.local, q)
    ensures At(c, Rebase(p, names[p], q)) == At(s.remote, q)
    ensures p !in s.remote ==> At(s.remote, q) == Absent
  {
    RebaseRoundTrip(p, names[p], q);
    var y := Rebase(p, names[p], q);
    assert Get(c, q) == Get(s.local, q) && Get(c, y) == Get(s.remote, Rebase(names[p], p, y));
  }

  ghost predicate SplitPaths(p: Path, x: Path) {
    p != x && !Under(p, x) && !Under(x, p)
  }

  lemma NotBoth(p: Path, x: Path, q: Path)
    requires SplitPaths(p, x) && AtOrUnder(p, q)
    ensures !AtOrUnder(x, q)
  {
  }

  /** After keeping the remote side the path holds exactly the remote subtree (nothing if the remote
      had deleted it), after keeping the local side exactly the local one; the copy is gone, and
      nothing else has changed. */
  lemma ExactlyOneSideRemains(
    s: Sync, recorded: set<Path>, c: Entries, names: map<Path, Path>, t: Tree, p: Path, keepRemote: bool, t': Tree,
    q: Path)
    requires Combined(s, recorded, c, names) && p in names && Intact(s, c, names, t, p)
    requires Settles(t, p, RecordFor(s, names, p), keepRemote, t')
    ensures AtOrUnder(p, q) ==> NodeContent(s.digest, t', q) == At(if keepRemote then s.remote else s.local, q)
    ensures AtOrUnder(names[p], q) ==> NodeContent(s.digest, t', q) == Absent
    ensures !InRegionOf(names, p, q) ==> Get(t', q) == Get(t, q)
  {
    CopyIsSibling(s, recorded, c, names, p);
    var x := names[p];
    if AtOrUnder(p, q) {
      NotBoth(p, x, q);
      RebaseRoundTrip(p, x, q);
      BothSidesInCombination(s, recorded, c, names, p, q);
      AtThePath(s, c, names, t, p, keepRemote, t', q);
    } else if AtOrUnder(x, q) {
      RebaseRoundTrip(x, p, q);
      BothSidesInCombination(s, recorded, c, names, p, Rebase(x, p, q));
      InTheCopy(s, c, names, t, p, keepRemote, t', q);
    } else {
      assert keepRemote || p in s.remote ==> Get(t', q) == Get(t, q);
    }
  }

  lemma AtThePath(
    s: Sync, c: Entries, names: map<Path, Path>, t: Tree, p: Path, keepRemote: bool, t': Tree, q: Path)
    requires p in names && Intact(s, c, names, t, p) && Settles(t, p, RecordFor(s, names, p), keepRemote, t')
    requires AtOrUnder(p, q) && !AtOrUnder(names[p], q) && AtOrUnder(names[p], Rebase(p, names[p], q))
    requires At(c, q) == At(s.local, q) && At(c, Rebase(p, names[p], q)) == At(s.remote, q)
    requires p !in s.remote ==> At(s.remote, q) == Absent
    ensures NodeContent(s.digest, t', q) == At(if keepRemote then s.remote else s.local, q)
  {
  }

  lemma InTheCopy(
    s: Sync, c: Entries, names: map<Path, Path>, t: Tree, p: Path, keepRemote: bool, t': Tree, q: Path)
    requires p in names && Intact(s, c, names, t, p) && Settles(t, p, RecordFor(s, names, p), keepRemote, t')
    requires AtOrUnder(names[p], q) && !AtOrUnder(p, q)
    requires p !in s.remote ==> At(c, q) == Absent
    ensures NodeContent(s.digest, t', q) == Absent
  {
  }
}
