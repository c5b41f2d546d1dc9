/** Why the combine loop never overwrites itself: the regions its steps write are disjoint. */
module CombineLoop {
  import opened Options
  import opened Paths
  import opened Manifests
  import Combination

  /** One step of the loop: put an entry (or nothing) at a path, or keep both sides of a conflict. */
  datatype Job = Take(path: Path, entry: Option<Entry>) | Copy(path: Path)

  /** Every ancestor of a key is a key. */
  ghost predicate Upward(keys: set<Path>) {
    forall q, a | q in keys && Under(a, q) :: a in keys
  }

  /** `x` is `p` with something appended to its last component. */
  predicate Sibling(p: Path, x: Path) {
    |p| < |x| && x[..|p|] == p && '/' !in x[|p|..]
  }

  lemma CopyMeetsKey(keys: set<Path>, p: Path, x: Path, a: Path, q: Path)
    requires Upward(keys) && p in keys && a in keys && x !in keys && Sibling(p, x)
    requires AtOrUnder(x, q) && AtOrUnder(a, q)
    ensures Under(a, p)
  {
  }

  lemma CopiesMeet(keys: set<Path>, p: Path, x: Path, p': Path, x': Path, q: Path)
    requires Upward(keys) && p in keys && p' in keys && x !in keys && x' !in keys
    requires Sibling(p, x) && Sibling(p', x')
    requires AtOrUnder(x, q) && AtOrUnder(x', q)
    ensures x == x'
  {
  }

  /** Distinct steps, and below a conflict only steps that write nothing and copy nothing. */
  ghost predicate Separated(local: Entries, remote: Entries, keys: set<Path>, jobs: seq<Job>) {
    && Upward(keys) && local.Keys <= keys && remote.Keys <= keys
    && (forall i | 0 <= i < |jobs| :: jobs[i].path in keys)
    && (forall i, j | 0 <= i < j < |jobs| :: jobs[i].path != jobs[j].path)
    && (forall i, j | 0 <= i < |jobs| && 0 <= j < |jobs| && jobs[j].Copy? && Under(jobs[j].path, jobs[i].path) ::
          jobs[i].Take? && jobs[i].entry == None && jobs[i].path !in local && jobs[i].path !in remote)
  }

  ghost predicate NamesOk(keys: set<Path>, names: map<Path, Path>) {
    && (forall p | p in names :: p in keys && Sibling(p, names[p]) && names[p] !in keys)
    && (forall p, q | p in names && q in names && names[p] == names[q] :: p == q)
  }

  ghost predicate CopiedBefore(jobs: seq<Job>, i: nat, p: Path) {
    exists j :: 0 <= j < i && j < |jobs| && jobs[j] == Copy(p)
  }

  ghost predicate NamesCopies(names: map<Path, Path>, jobs: seq<Job>, i: nat) {
    forall p :: p in names <==> CopiedBefore(jobs, i, p)
  }

  ghost predicate TakenBefore(jobs: seq<Job>, i: nat, q: Path) {
    exists j :: 0 <= j < i && j < |jobs| && jobs[j].Take? && jobs[j].path == q
  }

  ghost predicate LocalKept(local: Entries, c: Entries, names: map<Path, Path>) {
    forall p, q | p in names && AtOrUnder(p, q) :: Get(c, q) == Get(local, q)
  }

  ghost predicate RemoteKept(remote: Entries, c: Entries, names: map<Path, Path>) {
    forall p, q | p in names && AtOrUnder(names[p], q) :: Get(c, q) == Get(remote, Rebase(names[p], p, q))
  }

  /** The state of the loop after `i` steps. */
  ghost predicate After(
    local: Entries, remote: Entries, keys: set<Path>, jobs: seq<Job>, i: nat, c: Entries, names: map<Path, Path>)
  {
    && i <= |jobs|
    && NamesCopies(names, jobs, i)
    && NamesOk(keys, names)
    && (forall j | 0 <= j < i && jobs[j].Take? :: Get(c, jobs[j].path) == jobs[j].entry)
    && LocalKept(local, c, names)
    && RemoteKept(remote, c, names)
    && (forall q | q in c :: TakenBefore(jobs, i, q) || Combination.InRegion(names, q))
  }

  /** Before its step, a path is outside every region written so far. */
  lemma StepIsOutside(
    local: Entries, remote: Entries, keys: set<Path>, jobs: seq<Job>, i: nat, c: Entries, names: map<Path, Path>,
    p: Path)
    requires Separated(local, remote, keys, jobs) && i < |jobs| && After(local, remote, keys, jobs, i, c, names)
    requires p in names && !(jobs[i].Take? && jobs[i].entry == None)
    ensures !AtOrUnder(p, jobs[i].path) && !AtOrUnder(names[p], jobs[i].path)
    ensures jobs[i].Copy? ==> !Under(jobs[i].path, p)
  {
  }

  lemma TakeStep(
    local: Entries, remote: Entries, keys: set<Path>, jobs: seq<Job>, i: nat, c: Entries, names: map<Path, Path>)
    requires Separated(local, remote, keys, jobs) && i < |jobs| && After(local, remote, keys, jobs, i, c, names)
    requires jobs[i].Take?
    ensures After(local, remote, keys, jobs, i + 1,
      if jobs[i].entry.Some? then c[jobs[i].path := jobs[i].entry.value] else c, names)
  {
    var path := jobs[i].path;
    var c' := if jobs[i].entry.Some? then c[path := jobs[i].entry.value] else c;
    assert TakenBefore(jobs, i + 1, path);
    forall q | TakenBefore(jobs, i, q) ensures TakenBefore(jobs, i + 1, q) { TakenMonotone(jobs, i, q); }
    forall p ensures CopiedBefore(jobs, i, p) <==> CopiedBefore(jobs, i + 1, p) { NoCopy(jobs, i, p); }
    if jobs[i].entry.Some? {
      assert forall j | 0 <= j < i && jobs[j].Take? :: Get(c', jobs[j].path) == jobs[j].entry;
      forall p | p in names ensures !AtOrUnder(p, path) && !AtOrUnder(names[p], path) {
        StepIsOutside(local, remote, keys, jobs, i, c, names, p);
      }
      WriteElsewhere(local, remote, c, names, path, jobs[i].entry.value);
    } else {
      NothingThere(local, remote, keys, jobs, i, c, names);
    }
  }

  lemma TakenMonotone(jobs: seq<Job>, i: nat, q: Path)
    requires TakenBefore(jobs, i, q)
    ensures TakenBefore(jobs, i + 1, q)
  {
  }

  lemma NoCopy(jobs: seq<Job>, i: nat, p: Path)
    requires i < |jobs| && jobs[i].Take?
    ensures CopiedBefore(jobs, i, p) <==> CopiedBefore(jobs, i + 1, p)
  {
  }

  lemma WriteElsewhere(local: Entries, remote: Entries, c: Entries, names: map<Path, Path>, path: Path, e: Entry)
    requires LocalKept(local, c, names) && RemoteKept(remote, c, names)
    requires forall p | p in names :: !AtOrUnder(p, path) && !AtOrUnder(names[p], path)
    ensures LocalKept(local, c[path := e], names) && RemoteKept(remote, c[path := e], names)
  {
    forall p, q | p in names && AtOrUnder(p, q) ensures Get(c[path := e], q) == Get(local, q) {
      assert q != path && Get(c, q) == Get(local, q);
    }
    forall p, q | p in names && AtOrUnder(names[p], q)
      ensures Get(c[path := e], q) == Get(remote, Rebase(names[p], p, q))
    {
      assert q != path && Get(c, q) == Get(remote, Rebase(names[p], p, q));
    }
  }

  lemma NothingThere(
    local: Entries, remote: Entries, keys: set<Path>, jobs: seq<Job>, i: nat, c: Entries, names: map<Path, Path>)
    requires Separated(local, remote, keys, jobs) && i < |jobs| && After(local, remote, keys, jobs, i, c, names)
    requires jobs[i].Take? && jobs[i].entry == None
    ensures jobs[i].path !in c
  {
  }

  /** Neither the conflict's own place nor its copy root has been touched before. */
  lemma RegionIsFree(
    local: Entries, remote: Entries, keys: set<Path>, jobs: seq<Job>, i: nat, c: Entries, names: map<Path, Path>,
    x: Path, q: Path)
    requires Separated(local, remote, keys, jobs) && i < |jobs| && After(local, remote, keys, jobs, i, c, names)
    requires jobs[i].Copy? && Sibling(jobs[i].path, x) && x !in keys && forall p | p in names :: names[p] != x
    requires AtOrUnder(jobs[i].path, q) || AtOrUnder(x, q)
    ensures forall p | p in names :: !AtOrUnder(p, q) && !AtOrUnder(names[p], q)
    ensures q !in c
  {
    var path := jobs[i].path;
    forall p | p in names ensures !AtOrUnder(p, q) && !AtOrUnder(names[p], q) {
      StepIsOutside(local, remote, keys, jobs, i, c, names, p);
      if AtOrUnder(path, q) {
        if AtOrUnder(p, q) { AncestorsAreLinear(p, path, q); }
        if AtOrUnder(names[p], q) { CopyMeetsKey(keys, p, names[p], path, q); }
      } else {
        if AtOrUnder(p, q) { CopyMeetsKey(keys, path, x, p, q); }
        if AtOrUnder(names[p], q) { CopiesMeet(keys, path, x, p, names[p], q); }
      }
    }
    forall j | 0 <= j < i && jobs[j].Take? && jobs[j].path == q ensures q !in c {
      assert !AtOrUnder(x, q);
    }
  }

  lemma OneMoreCopy(jobs: seq<Job>, i: nat, names: map<Path, Path>, names': map<Path, Path>, path: Path)
    requires i < |jobs| && jobs[i] == Copy(path) && forall p :: p in names <==> CopiedBefore(jobs, i, p)
    requires names'.Keys == names.Keys + {path}
    ensures forall p :: p in names' <==> CopiedBefore(jobs, i + 1, p)
  {
    forall p ensures p in names' <==> CopiedBefore(jobs, i + 1, p) {
      if CopiedBefore(jobs, i + 1, p) {
        var j :| 0 <= j < i + 1 && jobs[j] == Copy(p);
        if j < i { assert CopiedBefore(jobs, i, p); }
      }
      if CopiedBefore(jobs, i, p) { var j :| 0 <= j < i && jobs[j] == Copy(p); assert j < i + 1; }
    }
  }

  /** Every entry after the copy was taken earlier or lies in a region. */
  lemma CopyIsAccounted(
    local: Entries, remote: Entries, jobs: seq<Job>, i: nat, c: Entries, names: map<Path, Path>, path: Path, x: Path,
    c': Entries, q: Path)
    requires i < |jobs| && path !in names && q in c'
    requires q in c ==> TakenBefore(jobs, i, q) || Combination.InRegion(names, q)
    requires Get(c', q) == Combination.Placed(c, local, remote, path, x, q)
    ensures TakenBefore(jobs, i + 1, q) || Combination.InRegion(names[path := x], q)
  {
    var names' := names[path := x];
    if q in c && TakenBefore(jobs, i, q) {
      TakenMonotone(jobs, i, q);
    } else if q in c {
      var p :| p in names && (AtOrUnder(p, q) || AtOrUnder(names[p], q));
      assert p in names' && names'[p] == names[p];
    } else {
      assert path in names' && names'[path] == x;
    }
  }

  lemma CopyKeepsTakes(
    local: Entries, remote: Entries, keys: set<Path>, jobs: seq<Job>, i: nat, c: Entries, names: map<Path, Path>,
    x: Path, c': Entries, j: nat)
    requires Separated(local, remote, keys, jobs) && i < |jobs| && After(local, remote, keys, jobs, i, c, names)
    requires jobs[i].Copy? && Sibling(jobs[i].path, x) && x !in keys && j < i && jobs[j].Take?
    requires Get(c', jobs[j].path) == Combination.Placed(c, local, remote, jobs[i].path, x, jobs[j].path)
    ensures Get(c', jobs[j].path) == jobs[j].entry
  {
    if AtOrUnder(jobs[i].path, jobs[j].path) { assert Under(jobs[i].path, jobs[j].path); }
    if AtOrUnder(x, jobs[j].path) { CopyMeetsKey(keys, jobs[i].path, x, jobs[j].path, jobs[j].path); }
  }

  lemma CopyNames(
    local: Entries, remote: Entries, keys: set<Path>, jobs: seq<Job>, i: nat, c: Entries, names: map<Path, Path>,
    x: Path)
    requires Separated(local, remote, keys, jobs) && i < |jobs| && After(local, remote, keys, jobs, i, c, names)
    requires jobs[i].Copy? && Sibling(jobs[i].path, x) && x !in keys && forall p | p in names :: names[p] != x
    ensures NamesCopies(names[jobs[i].path := x], jobs, i + 1)
    ensures NamesOk(keys, names[jobs[i].path := x]) && jobs[i].path !in names
  {
    OneMoreCopy(jobs, i, names, names[jobs[i].path := x], jobs[i].path);
    PathNotYetCopied(jobs, i, jobs[i].path, keys, local, remote);
  }

  lemma CopyContents(
    local: Entries, remote: Entries, keys: set<Path>, jobs: seq<Job>, i: nat, c: Entries, names: map<Path, Path>,
    x: Path, c': Entries)
    requires Separated(local, remote, keys, jobs) && i < |jobs| && After(local, remote, keys, jobs, i, c, names)
    requires jobs[i].Copy? && Sibling(jobs[i].path, x) && x !in keys && forall p | p in names :: names[p] != x
    requires forall q :: Get(c', q) == Combination.Placed(c, local, remote, jobs[i].path, x, q)
    ensures forall j | 0 <= j < i + 1 && jobs[j].Take? :: Get(c', jobs[j].path) == jobs[j].entry
    ensures forall q | q in c' :: TakenBefore(jobs, i + 1, q) || Combination.InRegion(names[jobs[i].path := x], q)
  {
    forall j | 0 <= j < i + 1 && jobs[j].Take? ensures Get(c', jobs[j].path) == jobs[j].entry {
      CopyKeepsTakes(local, remote, keys, jobs, i, c, names, x, c', j);
    }
    PathNotYetCopied(jobs, i, jobs[i].path, keys, local, remote);
    forall q | q in c' ensures TakenBefore(jobs, i + 1, q) || Combination.InRegion(names[jobs[i].path := x], q) {
      CopyIsAccounted(local, remote, jobs, i, c, names, jobs[i].path, x, c', q);
    }
  }

  lemma CopyStep(
    local: Entries, remote: Entries, keys: set<Path>, jobs: seq<Job>, i: nat, c: Entries, names: map<Path, Path>,
    x: Path, c': Entries)
    requires Separated(local, remote, keys, jobs) && i < |jobs| && After(local, remote, keys, jobs, i, c, names)
    requires jobs[i].Copy? && Sibling(jobs[i].path, x) && x !in keys && forall p | p in names :: names[p] != x
    requires forall q :: Get(c', q) == Combination.Placed(c, local, remote, jobs[i].path, x, q)
    ensures After(local, remote, keys, jobs, i + 1, c', names[jobs[i].path := x])
  {
    CopyNames(local, remote, keys, jobs, i, c, names, x);
    CopyContents(local, remote, keys, jobs, i, c, names, x, c');
    CopyRegions(local, remote, keys, jobs, i, c, names, x, c');
  }

  lemma PathNotYetCopied(jobs: seq<Job>, i: nat, path: Path, keys: set<Path>, local: Entries, remote: Entries)
    requires Separated(local, remote, keys, jobs) && i < |jobs| && jobs[i].path == path
    ensures !CopiedBefore(jobs, i, path)
  {
  }

  lemma CopyRegions(
    local: Entries, remote: Entries, keys: set<Path>, jobs: seq<Job>, i: nat, c: Entries, names: map<Path, Path>,
    x: Path, c': Entries)
    requires Separated(local, remote, keys, jobs) && i < |jobs| && After(local, remote, keys, jobs, i, c, names)
    requires jobs[i].Copy? && Sibling(jobs[i].path, x) && x !in keys && forall p | p in names :: names[p] != x
    requires forall q :: Get(c', q) == Combination.Placed(c, local, remote, jobs[i].path, x, q)
    ensures LocalKept(local, c', names[jobs[i].path := x]) && RemoteKept(remote, c', names[jobs[i].path := x])
  {
    var path := jobs[i].path;
    var names' := names[path := x];
    forall p, q | p in names' && AtOrUnder(p, q) ensures Get(c', q) == Get(local, q) {
      assert Get(c', q) == Combination.Placed(c, local, remote, path, x, q);
      if p == path {
        if AtOrUnder(x, q) { CopyMeetsKey(keys, path, x, path, q); }
        RegionIsFree(local, remote, keys, jobs, i, c, names, x, q);
      } else {
        KeptRegionIsUntouched(local, remote, keys, jobs, i, c, names, x, p, q);
      }
    }
    forall p, q | p in names' && AtOrUnder(names'[p], q) ensures Get(c', q) == Get(remote, Rebase(names'[p], p, q)) {
      assert Get(c', q) == Combination.Placed(c, local, remote, path, x, q);
      if p == path {
        if AtOrUnder(path, q) { CopyMeetsKey(keys, path, x, path, q); }
        RegionIsFree(local, remote, keys, jobs, i, c, names, x, q);
      } else {
        KeptRegionIsUntouched(local, remote, keys, jobs, i, c, names, x, p, q);
      }
    }
  }

  /** The new conflict writes nothing into an older region. */
  lemma KeptRegionIsUntouched(
    local: Entries, remote: Entries, keys: set<Path>, jobs: seq<Job>, i: nat, c: Entries, names: map<Path, Path>,
    x: Path, p: Path, q: Path)
    requires Separated(local, remote, keys, jobs) && i < |jobs| && After(local, remote, keys, jobs, i, c, names)
    requires jobs[i].Copy? && Sibling(jobs[i].path, x) && x !in keys && forall p | p in names :: names[p] != x
    requires p in names && (AtOrUnder(p, q) || AtOrUnder(names[p], q))
    ensures !AtOrUnder(jobs[i].path, q) && !AtOrUnder(x, q)
  {
    if AtOrUnder(jobs[i].path, q) || AtOrUnder(x, q) {
      RegionIsFree(local, remote, keys, jobs, i, c, names, x, q);
    }
  }
}
