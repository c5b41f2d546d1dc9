/** What a combination guarantees: no edit is lost, nothing collides, and repeating it is stable. */
module CombinationTheorems {
  import opened Options
  import opened Paths
  import opened Manifests
  import opened Reconciliation
  import opened ConflictNames
  import opened Combination
  import opened CombineLoop
  import CombineMethod

  // ---------------------------------------------------------------- fates

  /** The path holds the line merge of its three versions. */
  ghost predicate MergedHere(s: Sync, c: Entries, p: Path) {
    && Act(s, p) == Merge && MergeOf(s, p).Some?
    && At(c, p) == Data(|MergeOf(s, p).value|, s.digest.hash(MergeOf(s, p).value))
  }

  /** The remote entry of the path lives on in a conflict copy. */
  ghost predicate CopiedAside(s: Sync, c: Entries, names: map<Path, Path>, p: Path) {
    exists r :: r in names && AtOrUnder(r, p) && Get(c, Rebase(r, names[r], p)) == Get(s.remote, p)
  }

  /** The version is kept under a conflict copy. */
  ghost predicate StillCopied(names: map<Path, Path>, c: Entries, p: Path, version: Content) {
    exists r :: r in names && AtOrUnder(r, p) && At(c, Rebase(r, names[r], p)) == version
  }

  /** At and below a conflict the local side stays and the remote side is copied. */
  lemma ConflictKeepsBoth(s: Sync, recorded: set<Path>, c: Entries, names: map<Path, Path>, r: Path, p: Path)
    requires IsCombination(s, recorded, c, names) && r in names && AtOrUnder(r, p)
    ensures Get(c, p) == Get(s.local, p) && CopiedAside(s, c, names, p)
  {
    RebaseRoundTrip(r, names[r], p);
    var q := Rebase(r, names[r], p);
    assert Get(c, q) == Get(s.remote, Rebase(names[r], r, q));
  }

  /** Every path is decided on its own, or travels with a conflict. */
  lemma Decided(s: Sync, recorded: set<Path>, c: Entries, names: map<Path, Path>, p: Path)
    requires IsCombination(s, recorded, c, names) && p in AllKeys(s)
    ensures
      || (PlannedIn(s, p) && !InConflict(s, p) && Get(c, p) == Taken(s, p))
      || (Get(c, p) == Get(s.local, p) && CopiedAside(s, c, names, p))
  {
    if Covered(s.base, s.local, s.remote, p) {
      var r := RootAbove(s.base, s.local, s.remote, p);
      assert PlannedIn(s, r) && InConflict(s, r);
      ConflictKeepsBoth(s, recorded, c, names, r, p);
    } else if InConflict(s, p) {
      ConflictKeepsBoth(s, recorded, c, names, p, p);
    }
  }

  lemma ActByContent(s: Sync, p: Path)
    ensures Act(s, p) == Decide(SubtreesEqual(s.base, s.local, p), SubtreesEqual(s.base, s.remote, p),
      At(s.base, p), At(s.local, p), At(s.remote, p))
    ensures SubtreesEqual(s.base, s.local, p) ==> At(s.base, p) == At(s.local, p)
    ensures SubtreesEqual(s.base, s.remote, p) ==> At(s.base, p) == At(s.remote, p)
    ensures Clash(s.base, s.local, s.remote, p) <==>
      At(s.local, p).Dir? != At(s.remote, p).Dir? && Act(s, p) == Conflict
  {
  }

  /** What a path without conflict receives, in terms of the three versions. */
  lemma TakenContent(s: Sync, p: Path)
    requires !InConflict(s, p)
    ensures Act(s, p) == Unchanged ==> ContentOf(Taken(s, p)) == At(s.local, p) == At(s.remote, p)
    ensures Act(s, p) == Upload ==> ContentOf(Taken(s, p)) == At(s.local, p) && At(s.base, p) == At(s.remote, p)
    ensures Act(s, p) == Download ==> ContentOf(Taken(s, p)) == At(s.remote, p) && At(s.base, p) == At(s.local, p)
    ensures Act(s, p) == Merge ==> MergeOf(s, p).Some?
    ensures Act(s, p) == Merge ==>
      ContentOf(Taken(s, p)) == Data(|MergeOf(s, p).value|, s.digest.hash(MergeOf(s, p).value))
    ensures Act(s, p) != Conflict
  {
  }

  /** No local edit is lost, deletions and directories included: what differs from the base is in place,
      or merged with the remote side. */
  lemma LocalEditSurvives(s: Sync, recorded: set<Path>, c: Entries, names: map<Path, Path>, p: Path)
    requires IsCombination(s, recorded, c, names)
    requires At(s.local, p) != At(s.base, p)
    ensures At(c, p) == At(s.local, p) || MergedHere(s, c, p)
  {
    assert p in AllKeys(s);
    Decided(s, recorded, c, names, p);
    if PlannedIn(s, p) && !InConflict(s, p) && Get(c, p) == Taken(s, p) { TakenContent(s, p); }
  }

  /** No remote version is lost, deletions and directories included: it is in place, merged, or kept
      aside, unless the base already held it and the local side had replaced it. */
  lemma RemoteVersionSurvives(s: Sync, recorded: set<Path>, c: Entries, names: map<Path, Path>, p: Path)
    requires IsCombination(s, recorded, c, names)
    requires p in AllKeys(s)
    ensures
      || At(c, p) == At(s.remote, p)
      || MergedHere(s, c, p)
      || CopiedAside(s, c, names, p)
      || (At(s.base, p) == At(s.remote, p) && At(s.local, p) != At(s.remote, p))
  {
    Decided(s, recorded, c, names, p);
    if PlannedIn(s, p) && !InConflict(s, p) && Get(c, p) == Taken(s, p) { TakenContent(s, p); }
  }

  /** Conversely nothing is invented: every file of the combination is a version of one of the sides,
      in place or copied, or a merge. */
  lemma NothingInvented(s: Sync, recorded: set<Path>, c: Entries, names: map<Path, Path>, q: Path)
    requires IsCombination(s, recorded, c, names) && q in c
    ensures
      || At(c, q) == At(s.local, q)
      || At(c, q) == At(s.remote, q)
      || MergedHere(s, c, q)
      || exists r :: r in names && AtOrUnder(names[r], q) && Get(c, q) == Get(s.remote, Rebase(names[r], r, q))
  {
  }

  // ---------------------------------------------------------------- separation

  lemma NamesAreSeparate(s: Sync, recorded: set<Path>, c: Entries, names: map<Path, Path>)
    requires IsCombination(s, recorded, c, names) && ClosedInputs(s)
    ensures Upward(AllKeys(s)) && NamesOk(AllKeys(s), names)
  {
    forall p | p in names ensures Sibling(p, names[p]) {
      var k: nat :| names[p] == Candidate(p, s.revision, k);
      CombineMethod.CandidateIsSibling(p, s.revision, k);
    }
  }

  /** A copy root and everything below it is outside all three manifests, and distinct copies share
      no path, so no insertion overwrites another. */
  lemma CopiesCollideWithNothing(
    s: Sync, recorded: set<Path>, c: Entries, names: map<Path, Path>, r: Path, q: Path)
    requires IsCombination(s, recorded, c, names) && ClosedInputs(s)
    requires r in names && AtOrUnder(names[r], q)
    ensures q !in AllKeys(s)
    ensures forall r' | r' in names && r' != r :: !AtOrUnder(names[r'], q)
    ensures forall r' | r' in names :: !AtOrUnder(r', q)
  {
    NamesAreSeparate(s, recorded, c, names);
    forall r' | r' in names && r' != r ensures !AtOrUnder(names[r'], q) {
      if AtOrUnder(names[r'], q) { CopiesMeet(AllKeys(s), r, names[r], r', names[r'], q); }
    }
    forall r' | r' in names ensures !AtOrUnder(r', q) {
      if AtOrUnder(r', q) {
        CopyMeetsKey(AllKeys(s), r, names[r], r', q);
        ConflictsDoNotNest(s, r', r);
      }
    }
  }

  lemma ConflictsDoNotNest(s: Sync, r': Path, r: Path)
    requires ClosedInputs(s) && PlannedIn(s, r) && InConflict(s, r) && InConflict(s, r')
    ensures !Under(r', r)
  {
  }

  lemma NamesAreDetermined(
    s: Sync, recorded: set<Path>, c: Entries, names: map<Path, Path>, c': Entries, names': map<Path, Path>)
    requires IsCombination(s, recorded, c, names) && IsCombination(s, recorded, c', names')
    ensures names' == names
  {
    forall p | p in names ensures p in names' && names[p] == names'[p] {
      FirstFreeIsUnique(p, s.revision, AllKeys(s) + recorded, names[p], names'[p]);
    }
  }

  /** The combination is determined by its inputs, names included. */
  lemma CombinationIsDetermined(
    s: Sync, recorded: set<Path>, c: Entries, names: map<Path, Path>, c': Entries, names': map<Path, Path>)
    requires IsCombination(s, recorded, c, names) && IsCombination(s, recorded, c', names')
    ensures names' == names && c' == c
  {
    NamesAreDetermined(s, recorded, c, names, c', names');
    forall q | q in c ensures q in c' && c'[q] == c[q] { SameEntry(s, recorded, c, names, c', q); }
    forall q | q in c' ensures q in c { SameEntry(s, recorded, c', names, c, q); }
  }

  lemma SameEntry(s: Sync, recorded: set<Path>, c: Entries, names: map<Path, Path>, c': Entries, q: Path)
    requires IsCombination(s, recorded, c, names) && IsCombination(s, recorded, c', names) && q in c
    ensures q in c' && c'[q] == c[q]
  {
    assert Get(c, q) == Get(c', q) by {
      if !(PlannedIn(s, q) && !InConflict(s, q)) {
        var p :| p in names && (AtOrUnder(p, q) || AtOrUnder(names[p], q));
      }
    }
  }

  // ---------------------------------------------------------------- closedness

  /** Below a directory that only one side has and that does not clash, the unchanged side never wins
      and nothing is in conflict. */
  lemma BelowOneSided(s: Sync, a: Path, p: Path)
    requires Under(a, p) && At(s.local, a).Dir? != At(s.remote, a).Dir? && !Clash(s.base, s.local, s.remote, a)
    ensures Act(s, a) == Download ==> Act(s, p) == Unchanged || Act(s, p) == Download
    ensures Act(s, a) == Upload ==> Act(s, p) == Unchanged || Act(s, p) == Upload
    ensures Act(s, a) == Download || Act(s, a) == Upload
  {
    ActByContent(s, a);
    ActByContent(s, p);
    SubtreeShrinks(s.base, s.local, a, p);
    SubtreeShrinks(s.base, s.remote, a, p);
  }

  lemma SubtreeShrinks(left: Entries, right: Entries, a: Path, p: Path)
    requires Under(a, p)
    ensures SubtreesEqual(left, right, a) ==> SubtreesEqual(left, right, p)
  {
  }

  /** The directory above a planned path: planned itself, and no clash. */
  lemma ParentIsPlanned(s: Sync, a: Path, p: Path)
    requires ClosedInputs(s) && PlannedIn(s, p) && Under(a, p) && (p in s.local || p in s.remote)
    ensures PlannedIn(s, a) && !Clash(s.base, s.local, s.remote, a)
    ensures p in s.local ==> At(s.local, a) == Dir
    ensures p in s.remote ==> At(s.remote, a) == Dir
    ensures !InConflict(s, a)
  {
  }

  lemma ParentDirectory(s: Sync, recorded: set<Path>, c: Entries, names: map<Path, Path>, a: Path, p: Path)
    requires IsCombination(s, recorded, c, names) && ClosedInputs(s)
    requires PlannedIn(s, p) && Under(a, p) && (InConflict(s, p) || Taken(s, p).Some?)
    requires p in s.local || p in s.remote
    ensures At(c, a) == Dir
  {
    ParentIsPlanned(s, a, p);
    assert Get(c, a) == Taken(s, a);
    TakenContent(s, a);
    ActByContent(s, a);
    if At(s.local, a).Dir? != At(s.remote, a).Dir? {
      BelowOneSided(s, a, p);
      ActByContent(s, p);
      if !InConflict(s, p) { TakenContent(s, p); }
    }
  }

  lemma InConflictIsPresent(s: Sync, p: Path)
    requires InConflict(s, p)
    ensures p in s.local || p in s.remote
  {
  }

  lemma BelowConflictHasParent(
    s: Sync, recorded: set<Path>, c: Entries, names: map<Path, Path>, r: Path, a: Path, p: Path)
    requires IsCombination(s, recorded, c, names) && ClosedInputs(s)
    requires p in c && Under(a, p) && r in names && AtOrUnder(r, p)
    ensures At(c, a) == Dir
  {
    assert Get(c, p) == Get(s.local, p);
    if AtOrUnder(r, a) {
      assert Get(c, a) == Get(s.local, a);
    } else {
      AncestorsAreLinear(r, a, p);
      InConflictIsPresent(s, r);
      ParentDirectory(s, recorded, c, names, a, r);
    }
  }

  lemma InCopyHasParent(
    s: Sync, recorded: set<Path>, c: Entries, names: map<Path, Path>, r: Path, a: Path, p: Path)
    requires IsCombination(s, recorded, c, names) && ClosedInputs(s)
    requires p in c && Under(a, p) && r in names && AtOrUnder(names[r], p)
    ensures At(c, a) == Dir
  {
    var x := names[r];
    assert Get(c, p) == Get(s.remote, Rebase(x, r, p));
    if AtOrUnder(x, a) {
      RebaseUnder(x, r, a, p);
      assert Get(c, a) == Get(s.remote, Rebase(x, r, a));
    } else {
      NamesAreSeparate(s, recorded, c, names);
      AncestorsAreLinear(x, a, p);
      assert x == r + x[|r|..];
      SiblingAncestors(a, r, x[|r|..]);
      InConflictIsPresent(s, r);
      ParentDirectory(s, recorded, c, names, a, r);
    }
  }

  /** Combining closed manifests gives a closed manifest: every parent is a directory, no file has
      anything below it. */
  lemma CombinationIsClosed(s: Sync, recorded: set<Path>, c: Entries, names: map<Path, Path>)
    requires IsCombination(s, recorded, c, names) && ClosedInputs(s)
    ensures Closed(c)
  {
    forall p, a | p in c && Under(a, p) ensures a in c && c[a].Directory? {
      assert At(c, a) == Dir by {
        if PlannedIn(s, p) && !InConflict(s, p) {
          CombineMethod.TakenFromASide(s, p);
          ParentDirectory(s, recorded, c, names, a, p);
        } else {
          var r :| r in names && (AtOrUnder(r, p) || AtOrUnder(names[r], p));
          if AtOrUnder(r, p) {
            BelowConflictHasParent(s, recorded, c, names, r, a, p);
          } else {
            InCopyHasParent(s, recorded, c, names, r, a, p);
          }
        }
      }
    }
  }

  lemma CombinationIsValid(s: Sync, recorded: set<Path>, c: Entries, names: map<Path, Path>)
    requires IsCombination(s, recorded, c, names) && ClosedInputs(s)
    requires ValidPaths(s.local) && ValidPaths(s.remote)
    ensures ValidPaths(c)
  {
    forall q | q in c ensures Valid(q) {
      if PlannedIn(s, q) && !InConflict(s, q) {
        CombineMethod.TakenFromASide(s, q);
      } else {
        var r :| r in names && (AtOrUnder(r, q) || AtOrUnder(names[r], q));
        if AtOrUnder(r, q) {
          assert Get(c, q) == Get(s.local, q);
        } else {
          CopyIsValid(s, recorded, c, names, r, q);
        }
      }
    }
  }

  lemma CopyIsValid(s: Sync, recorded: set<Path>, c: Entries, names: map<Path, Path>, r: Path, q: Path)
    requires IsCombination(s, recorded, c, names) && Closed(s.remote) && ValidPaths(s.remote)
    requires r in names && AtOrUnder(names[r], q) && q in c
    ensures Valid(q)
  {
    var k: nat :| names[r] == Candidate(r, s.revision, k);
    RebaseRoundTrip(names[r], r, q);
    var q' := Rebase(names[r], r, q);
    assert Get(c, q) == Get(s.remote, q');
    assert q' in s.remote && (q' != r ==> r in s.remote);
    CandidateKeepsValid(r, s.revision, k, q');
  }

  // ---------------------------------------------------------------- stability

  /** When every action is Unchanged or Download, the combination is the remote manifest. */
  lemma OnlyDownloadsGiveRemote(s: Sync, recorded: set<Path>, c: Entries, names: map<Path, Path>)
    requires IsCombination(s, recorded, c, names)
    requires forall p | PlannedIn(s, p) :: Act(s, p) == Unchanged || Act(s, p) == Download
    ensures names == map[] && SameContent(c, s.remote)
  {
    NoConflictNoNames(s, recorded, c, names);
    forall p ensures At(c, p) == At(s.remote, p) {
      if p in AllKeys(s) {
        assert PlannedIn(s, p);
        TakenContent(s, p);
      } else {
        assert !InRegion(names, p);
      }
    }
  }

  /** When every action is Unchanged or Upload, the combination is the local manifest. */
  lemma OnlyUploadsGiveLocal(s: Sync, recorded: set<Path>, c: Entries, names: map<Path, Path>)
    requires IsCombination(s, recorded, c, names)
    requires forall p | PlannedIn(s, p) :: Act(s, p) == Unchanged || Act(s, p) == Upload
    ensures names == map[] && SameContent(c, s.local)
  {
    NoConflictNoNames(s, recorded, c, names);
    forall p ensures At(c, p) == At(s.local, p) {
      if p in AllKeys(s) {
        assert PlannedIn(s, p);
        TakenContent(s, p);
      } else {
        assert !InRegion(names, p);
      }
    }
  }

  /** Conversely, when the remote side is the base, the local manifest is a combination without copies. */
  lemma LocalIsCombination(s: Sync, recorded: set<Path>)
    requires SameContent(s.base, s.remote)
    ensures IsCombination(s, recorded, s.local, map[])
  {
    forall p ensures !InConflict(s, p) && !Covered(s.base, s.local, s.remote, p) && Taken(s, p) == Get(s.local, p) {
      LocalAhead(s.base, s.local, s.remote, p);
    }
  }

  lemma NoConflictNoNames(s: Sync, recorded: set<Path>, c: Entries, names: map<Path, Path>)
    requires IsCombination(s, recorded, c, names)
    requires forall p | PlannedIn(s, p) :: Act(s, p) != Conflict && Act(s, p) != Merge
    ensures names == map[]
    ensures forall p | p in AllKeys(s) :: PlannedIn(s, p)
  {
    assert forall p :: p !in names;
    forall p | p in AllKeys(s) ensures PlannedIn(s, p) {
      if Covered(s.base, s.local, s.remote, p) {
        var r := RootAbove(s.base, s.local, s.remote, p);
        assert PlannedIn(s, r);
      }
    }
  }

  /** Fast-forward: a device without local changes ends up with the remote manifest. */
  lemma FastForwardTakesRemote(s: Sync, recorded: set<Path>, c: Entries, names: map<Path, Path>)
    requires IsCombination(s, recorded, c, names) && SameContent(s.base, s.local)
    ensures names == map[] && SameContent(c, s.remote)
    ensures forall p | PlannedIn(s, p) :: Act(s, p) == Unchanged || Act(s, p) == Download
  {
    forall p ensures Act(s, p) == Unchanged || Act(s, p) == Download { FastForward(s.base, s.local, s.remote, p); }
    OnlyDownloadsGiveRemote(s, recorded, c, names);
  }

  /** Resuming after the combination was applied and the base moved to the remote manifest: the plan
      against the same head only uploads, and the new combination is the old one, with no new copy. */
  lemma ResumingIsStable(
    s: Sync, recorded: set<Path>, c: Entries, names: map<Path, Path>,
    again: Sync, recorded': set<Path>, c': Entries, names': map<Path, Path>)
    requires IsCombination(s, recorded, c, names) && IsCombination(again, recorded', c', names')
    requires SameContent(again.base, s.remote) && SameContent(again.remote, s.remote) && SameContent(again.local, c)
    ensures forall p | PlannedIn(again, p) :: Act(again, p) == Unchanged || Act(again, p) == Upload
    ensures names' == map[] && SameContent(c', c)
  {
    assert SameContent(again.base, again.remote) by {
      forall p ensures At(again.base, p) == At(again.remote, p) { assert At(again.base, p) == At(s.remote, p); }
    }
    forall p ensures Act(again, p) == Unchanged || Act(again, p) == Upload {
      LocalAhead(again.base, again.local, again.remote, p);
    }
    OnlyUploadsGiveLocal(again, recorded', c', names');
    forall p ensures At(c', p) == At(c, p) { assert At(c', p) == At(again.local, p); }
  }
}
