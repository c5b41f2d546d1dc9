/** A combination exists for all closed inputs, so that the relation never stands in the way of a step. */
module CombinationExistence {
  import opened Options
  import opened Paths
  import opened Manifests
  import opened ConflictNames
  import opened Combination
  import opened CombineLoop
  import CombinationTheorems
  import CombineMethod

  // ---------------------------------------------------------------- names

  lemma {:induction false} FreeFrom(path: Path, revision: nat, reserved: set<Path>, k: nat, tried: set<Path>)
    returns (name: Path)
    requires AllReserved(path, revision, reserved, k) && tried <= reserved && |tried| == k
    requires forall x | x in tried :: exists j: nat | j < k :: x == Candidate(path, revision, j)
    ensures FirstFree(path, revision, reserved, name)
    decreases |reserved| - k
  {
    name := Candidate(path, revision, k);
    if name !in reserved {
    } else {
      if name in tried {
        var j: nat :| j < k && name == Candidate(path, revision, j);
        CandidatesAreDistinct(path, revision, j, k);
        assert false;
      }
      Subset(tried + {name}, reserved);
      name := FreeFrom(path, revision, reserved, k + 1, tried + {name});
    }
  }

  lemma FirstFreeExists(path: Path, revision: nat, reserved: set<Path>)
    ensures exists name :: FirstFree(path, revision, reserved, name)
  {
    var name := FreeFrom(path, revision, reserved, 0, {});
  }

  ghost function NameFor(path: Path, revision: nat, reserved: set<Path>): (name: Path)
    ensures FirstFree(path, revision, reserved, name)
  {
    FirstFreeExists(path, revision, reserved);
    var name :| FirstFree(path, revision, reserved, name);
    name
  }

  ghost function Conflicts(s: Sync): set<Path> {
    set p | p in AllKeys(s) && PlannedIn(s, p) && InConflict(s, p)
  }

  lemma NamesExist(s: Sync, recorded: set<Path>) returns (names: map<Path, Path>)
    ensures names.Keys == Conflicts(s) && FreshNames(s, recorded, names)
  {
    var reserved := AllKeys(s) + recorded;
    names := map p | p in Conflicts(s) :: NameFor(p, s.revision, reserved);
    forall p, q | p in names && q in names && names[p] == names[q] ensures p == q {
      SameNameSamePath(p, q, s.revision, reserved, names[p]);
    }
  }

  lemma SameNameSamePath(p: Path, q: Path, revision: nat, reserved: set<Path>, name: Path)
    requires FirstFree(p, revision, reserved, name) && FirstFree(q, revision, reserved, name)
    ensures p == q
  {
    var j: nat :| name == Candidate(p, revision, j);
    var k: nat :| name == Candidate(q, revision, k);
    CandidatesOfDifferentPaths(p, j, q, k, revision);
  }

  // ---------------------------------------------------------------- contents

  ghost predicate InCopy(names: map<Path, Path>, q: Path) {
    exists p :: p in names && AtOrUnder(names[p], q)
  }

  ghost predicate InConflictTree(names: map<Path, Path>, q: Path) {
    exists p :: p in names && AtOrUnder(p, q)
  }

  ghost function Wanted(s: Sync, names: map<Path, Path>, q: Path): Option<Entry> {
    if InCopy(names, q) then
      var p :| p in names && AtOrUnder(names[p], q);
      Get(s.remote, Rebase(names[p], p, q))
    else if InConflictTree(names, q) then Get(s.local, q)
    else if PlannedIn(s, q) && !InConflict(s, q) then Taken(s, q)
    else None
  }

  ghost predicate Named(s: Sync, recorded: set<Path>, names: map<Path, Path>) {
    ClosedInputs(s) && names.Keys == Conflicts(s) && FreshNames(s, recorded, names)
  }

  lemma NamesAreOk(s: Sync, recorded: set<Path>, names: map<Path, Path>)
    requires Named(s, recorded, names)
    ensures Upward(AllKeys(s)) && NamesOk(AllKeys(s), names)
  {
    forall p | p in names ensures Sibling(p, names[p]) {
      var k: nat :| names[p] == Candidate(p, s.revision, k);
      CombineMethod.CandidateIsSibling(p, s.revision, k);
    }
  }

  lemma WantedInCopy(s: Sync, recorded: set<Path>, names: map<Path, Path>, p: Path, q: Path)
    requires Named(s, recorded, names) && p in names && AtOrUnder(names[p], q)
    ensures Wanted(s, names, q) == Get(s.remote, Rebase(names[p], p, q))
  {
    NamesAreOk(s, recorded, names);
    forall p' | p' in names && AtOrUnder(names[p'], q) ensures p' == p {
      CopiesMeet(AllKeys(s), p, names[p], p', names[p'], q);
    }
  }

  lemma WantedInConflict(s: Sync, recorded: set<Path>, names: map<Path, Path>, p: Path, q: Path)
    requires Named(s, recorded, names) && p in names && AtOrUnder(p, q)
    ensures Wanted(s, names, q) == Get(s.local, q)
  {
    NamesAreOk(s, recorded, names);
    forall p' | p' in names ensures !AtOrUnder(names[p'], q) {
      if AtOrUnder(names[p'], q) {
        CopyMeetsKey(AllKeys(s), p', names[p'], p, q);
        CombinationTheorems.ConflictsDoNotNest(s, p, p');
      }
    }
  }

  lemma WantedElsewhere(s: Sync, recorded: set<Path>, names: map<Path, Path>, q: Path)
    requires Named(s, recorded, names) && PlannedIn(s, q) && !InConflict(s, q)
    ensures Wanted(s, names, q) == Taken(s, q)
  {
    NamesAreOk(s, recorded, names);
    assert forall a | AtOrUnder(a, q) :: a in AllKeys(s);
    if p :| p in names && AtOrUnder(p, q) {
      CombineMethod.NothingBelowLeafConflict(s, p, q);
    }
  }

  function CopyPaths(names: map<Path, Path>, keys: set<Path>): set<Path> {
    set p, k | p in names && k in keys && AtOrUnder(p, k) :: Rebase(p, names[p], k)
  }

  lemma WantedIsFinite(s: Sync, names: map<Path, Path>, q: Path)
    requires Wanted(s, names, q).Some?
    ensures q in AllKeys(s) + CopyPaths(names, s.remote.Keys)
  {
    if InCopy(names, q) {
      var p :| p in names && AtOrUnder(names[p], q) && Rebase(names[p], p, q) in s.remote;
      RebaseRoundTrip(names[p], p, q);
      assert Rebase(p, names[p], Rebase(names[p], p, q)) == q;
    }
  }

  /** The inputs always determine a combination. */
  lemma CombinationExists(s: Sync, recorded: set<Path>) returns (c: Entries, names: map<Path, Path>)
    requires ClosedInputs(s)
    ensures IsCombination(s, recorded, c, names)
  {
    names := NamesExist(s, recorded);
    c := map q | q in AllKeys(s) + CopyPaths(names, s.remote.Keys) && Wanted(s, names, q).Some? ::
      Wanted(s, names, q).value;
    forall q ensures Get(c, q) == Wanted(s, names, q) {
      if Wanted(s, names, q).Some? { WantedIsFinite(s, names, q); }
    }
    WantedIsCombination(s, recorded, c, names);
  }

  lemma WantedIsCombination(s: Sync, recorded: set<Path>, c: Entries, names: map<Path, Path>)
    requires Named(s, recorded, names) && forall q :: Get(c, q) == Wanted(s, names, q)
    ensures IsCombination(s, recorded, c, names)
  {
    forall q | PlannedIn(s, q) && !InConflict(s, q) ensures Get(c, q) == Taken(s, q) {
      WantedElsewhere(s, recorded, names, q);
    }
    forall p, q | p in names && AtOrUnder(p, q) ensures Get(c, q) == Get(s.local, q) {
      WantedInConflict(s, recorded, names, p, q);
    }
    forall p, q | p in names && AtOrUnder(names[p], q) ensures Get(c, q) == Get(s.remote, Rebase(names[p], p, q)) {
      WantedInCopy(s, recorded, names, p, q);
    }
    forall q | q in c ensures (PlannedIn(s, q) && !InConflict(s, q)) || InRegion(names, q) {
      assert Get(c, q).Some?;
    }
  }
}
