/** Between combining and applying nothing can go missing: the combined manifest passes every check of
    the application, with the contents the synchronization has at hand. */
module CombinationApplies {
  import opened Options
  import opened Data
  import opened Paths
  import opened Manifests
  import opened Reconciliation
  import opened ConflictNames
  import opened Combination
  import opened CombinationTheorems
  import opened ApplyTree
  import ApplyTheorems
  import CombineMethod
  import FileTree
  import LocalEngine
  import Protocol
  import Scanning

  /** Where the application looks for contents: merged, local, remote, base. */
  function PlannedSource(s: Sync, merged: map<string, Bytes>): LocalEngine.Source {
    h =>
      if h in merged then Some(merged[h])
      else if h in s.localBlobs then Some(s.localBlobs[h])
      else if h in s.remoteBlobs then Some(s.remoteBlobs[h])
      else Get(s.baseBlobs, h)
  }

  /** What the synchronization has gathered before it combines. */
  ghost predicate Gathered(s: Sync) {
    && Protocol.Hashed(s.digest, s.baseBlobs) && Protocol.Hashed(s.digest, s.localBlobs)
    && Protocol.Hashed(s.digest, s.remoteBlobs)
    && Protocol.Holds(s.baseBlobs, s.base) && Protocol.Holds(s.localBlobs, s.local)
    && Protocol.Holds(s.baseBlobs + s.localBlobs + s.remoteBlobs, s.remote)
  }

  ghost predicate SafePaths(m: Entries) {
    forall p | p in m :: Safe(p)
  }

  predicate IsMerge(s: Sync, e: Entry, q: Path) {
    && Act(s, q) == Merge && MergeOf(s, q).Some? && q in s.local && s.local[q].File?
    && e == NewFile(|MergeOf(s, q).value|, s.digest.hash(MergeOf(s, q).value), s.local[q].file.modifiedAt)
  }

  /** Every entry of the combination is a local or a remote entry, in place or copied, or a merge. */
  lemma EntryOrigin(s: Sync, recorded: set<Path>, c: Entries, names: map<Path, Path>, q: Path)
    requires IsCombination(s, recorded, c, names) && q in c
    ensures
      || c[q] in s.local.Values
      || c[q] in s.remote.Values
      || (IsMerge(s, c[q], q) && PlannedIn(s, q))
  {
    if PlannedIn(s, q) && !InConflict(s, q) {
      assert Get(c, q) == Taken(s, q);
    } else {
      var r :| r in names && (AtOrUnder(r, q) || AtOrUnder(names[r], q));
      if AtOrUnder(r, q) {
        assert Get(c, q) == Get(s.local, q);
      } else {
        assert Get(c, q) == Get(s.remote, Rebase(names[r], r, q));
      }
    }
  }

  /** No planned contents are ever missing. */
  lemma PlannedContentsAreAtHand(
    digest: Digest, t: FileTree.Tree, s: Sync, plan: seq<PlannedPath>, recorded: set<Path>, c: Entries,
    names: map<Path, Path>, merged: map<string, Bytes>)
    requires IsCombination(s, recorded, c, names) && CombineMethod.IsPlanOf(s, plan) && s.digest == digest
    requires CombineMethod.MergedAtHand(s, plan, |plan|, merged) && Gathered(s)
    ensures LocalEngine.AllFetchable(digest, t, c, PlannedSource(s, merged))
  {
    forall q | q in c && c[q].File?
      ensures LocalEngine.Fetchable(digest, t, c, PlannedSource(s, merged), c[q].file.contentHash)
    {
      var h := c[q].file.contentHash;
      EntryOrigin(s, recorded, c, names, q);
      if IsMerge(s, c[q], q) && PlannedIn(s, q) {
        assert InPlan(plan, q);
        var i :| 0 <= i < |plan| && plan[i].path == q;
        assert h in merged;
      } else if c[q] in s.local.Values {
        var p :| p in s.local && s.local[p] == c[q];
        assert h in s.localBlobs;
      } else {
        var p :| p in s.remote && s.remote[p] == c[q];
        assert h in s.baseBlobs + s.localBlobs + s.remoteBlobs;
      }
    }
  }

  lemma SizesCarryOver(s: Sync, recorded: set<Path>, c: Entries, names: map<Path, Path>)
    requires IsCombination(s, recorded, c, names) && CollisionFree(s.digest)
    requires LocalEngine.SizesAgree(s.digest, s.local) && LocalEngine.SizesAgree(s.digest, s.remote)
    ensures LocalEngine.SizesAgree(s.digest, c)
  {
    forall q, b: Bytes | q in c && c[q].File? && s.digest.hash(b) == c[q].file.contentHash
      ensures |b| == c[q].file.size
    {
      EntryOrigin(s, recorded, c, names, q);
      if c[q] in s.local.Values {
        var p :| p in s.local && s.local[p] == c[q];
      } else if c[q] in s.remote.Values {
        var p :| p in s.remote && s.remote[p] == c[q];
      }
    }
  }

  // ---------------------------------------------------------------- paths

  /** Nothing copied ends up in the private directory. */
  lemma NotPrivate(path: Path, suffix: string, tail: string)
    requires path != "" && suffix != "" && suffix[0] == '.' && AtOrUnder(".rustsync", path + suffix + tail)
    ensures AtOrUnder(".rustsync", path)
  {
    var x, private := path + suffix + tail, ".rustsync";
    assert forall i | 0 <= i < |path| :: x[i] == path[i];
    assert x[|path|] == '.';
    assert forall i | 0 <= i < |private| :: x[i] == x[..|private|][i] == private[i];
    assert |private| <= |path|;
    assert path[..|private|] == private;
  }

  lemma CopyIsSafe(path: Path, revision: nat, k: nat, q: Path)
    requires Safe(path) && Safe(q) && AtOrUnder(path, q)
    ensures Safe(Rebase(path, Candidate(path, revision, k), q))
  {
    CandidateKeepsValid(path, revision, k, q);
    SuffixIsOneComponent(revision, k);
    OneDot(revision, k);
    var suffix, tail := Suffix(revision, k), q[|path|..];
    assert AtOrUnder(".rustsync", path + suffix + tail) ==> AtOrUnder(".rustsync", path) by {
      if AtOrUnder(".rustsync", path + suffix + tail) { NotPrivate(path, suffix, tail); }
    }
  }

  lemma CombinationIsSafe(s: Sync, recorded: set<Path>, c: Entries, names: map<Path, Path>)
    requires IsCombination(s, recorded, c, names) && ClosedInputs(s) && SafePaths(s.local) && SafePaths(s.remote)
    ensures PathsOk(c)
  {
    forall q | q in c ensures Safe(q) {
      if PlannedIn(s, q) && !InConflict(s, q) {
        CombineMethod.TakenFromASide(s, q);
      } else {
        var r :| r in names && (AtOrUnder(r, q) || AtOrUnder(names[r], q));
        if AtOrUnder(r, q) {
          assert Get(c, q) == Get(s.local, q);
        } else {
          RebaseRoundTrip(names[r], r, q);
          var q' := Rebase(names[r], r, q);
          assert Get(c, q) == Get(s.remote, q') && q' in s.remote && (q' != r ==> r in s.remote);
          FirstFreeIsCandidate(r, s.revision, AllKeys(s) + recorded, names[r]);
          var k: nat :| names[r] == Candidate(r, s.revision, k);
          CopyIsSafe(r, s.revision, k, q');
        }
      }
    }
    CombinationIsClosed(s, recorded, c, names);
  }

  /** So the application of a combination is refused only for the sake of ignored paths. */
  lemma CombinationIsAdmitted(
    t: FileTree.Tree, rules: FileTree.Rules, s: Sync, plan: seq<PlannedPath>, recorded: set<Path>, c: Entries,
    names: map<Path, Path>, merged: map<string, Bytes>)
    requires IsCombination(s, recorded, c, names) && ClosedInputs(s) && CombineMethod.IsPlanOf(s, plan)
    requires CombineMethod.MergedAtHand(s, plan, |plan|, merged) && Gathered(s)
    requires SafePaths(s.local) && SafePaths(s.remote)
    requires CollisionFree(s.digest)
    requires LocalEngine.SizesAgree(s.digest, s.local) && LocalEngine.SizesAgree(s.digest, s.remote)
    ensures LocalEngine.SizesAgree(s.digest, c)
    ensures LocalEngine.Admitted(s.digest, t, c, rules, PlannedSource(s, merged))
      <==> NoClash(c, FileTree.ProtectedPaths(t, rules))
  {
    CombinationIsSafe(s, recorded, c, names);
    PlannedContentsAreAtHand(s.digest, t, s, plan, recorded, c, names, merged);
    SizesCarryOver(s, recorded, c, names);
  }

  // ---------------------------------------------------------------- the whole middle of a synchronization

  /** The protocol's device `v` has the tree a scan of the working copy `w` lists, and its blob cache. */
  ghost predicate Mirrors(digest: Digest, parse: FileTree.Parser, v: Protocol.Device, w: LocalEngine.Workspace)
    reads w
  {
    && w.InForce(parse).Some? && Scanning.ScansVisible(digest, w.tree, w.InForce(parse).value, v.tree)
    && v.cache == w.cache
  }

  /** The ignored paths at which the application stops, if the rules can be read. */
  function Protected(parse: FileTree.Parser, w: LocalEngine.Workspace): set<Path>
    reads w
  {
    var rules := w.InForce(parse);
    if rules.Some? then FileTree.ProtectedPaths(w.tree, rules.value) else {}
  }

  lemma CachingGrows(digest: Digest, m: Entries, before: map<string, Bytes>, after: map<string, Bytes>)
    requires LocalEngine.CacheAfter(digest, m, m.Keys, before, after) && Protocol.Hashed(digest, before)
    ensures before.Keys <= after.Keys <= before.Keys + Protocol.FileHashes(m) && Protocol.Hashed(digest, after)
  {
    forall h | h in before ensures h in after { assert Get(before, h).Some?; }
    forall h | h in after ensures digest.hash(after[h]) == h && (h in before || h in Protocol.FileHashes(m)) {
      assert Get(after, h).Some?;
      if LocalEngine.Provides(m, m.Keys, h) {
        var p :| p in m && m[p].File? && m[p].file.contentHash == h;
      }
    }
  }

  /** What applying and staging again amount to: the staged manifest is the combination exactly if no
      directory of it is left with ignored contents only, and the rules it brings reveal nothing. */
  ghost predicate StagesExactly(
    t: FileTree.Tree, before: FileTree.Rules, c: Entries, after: FileTree.Rules, m: Entries)
  {
    SameContent(m, c) <==>
      && ApplyTheorems.NoneEmptied(c, FileTree.ProtectedPaths(t, before))
      && ApplyTheorems.NothingRevealed(t, before, FileTree.Effective(after, c.Keys))
  }

  /** Applying a combination and staging the tree again. Both fail if the ignore file cannot be read: the
      application before anything is touched, the staging when the tree already holds the combination. */
  method ApplyAndRestage(
    w: LocalEngine.Workspace, parse: FileTree.Parser, s: Sync, ghost plan: seq<PlannedPath>, ghost recorded: set<Path>,
    c: Entries, ghost names: map<Path, Path>, merged: map<string, Bytes>, modified: Path -> nat)
    returns (r: ApplyResult, m: Option<Manifest>)
    requires w.Valid() && Protocol.Hashed(s.digest, w.cache)
    requires IsCombination(s, recorded, c, names) && ClosedInputs(s) && CombineMethod.IsPlanOf(s, plan)
    requires CombineMethod.MergedAtHand(s, plan, |plan|, merged) && Gathered(s)
    requires SafePaths(s.local) && SafePaths(s.remote) && CollisionFree(s.digest)
    requires LocalEngine.SizesAgree(s.digest, s.local) && LocalEngine.SizesAgree(s.digest, s.remote)
    modifies w
    ensures w.Valid()
    ensures r == Applied <==> old(w.InForce(parse)).Some? && NoClash(c, old(Protected(parse, w)))
    ensures r != Applied ==> unchanged(w) && m == None
    ensures r == Applied ==> (m.Some? <==> w.InForce(parse).Some?)
    ensures m.Some? ==>
      && Scanning.ScansVisible(s.digest, w.tree, w.InForce(parse).value, m.value.entries)
      && StagesExactly(
           old(w.tree), old(w.InForce(parse)).value, c, FileTree.LoadRules(parse, w.tree).value, m.value.entries)
      && (SameContent(m.value.entries, c) ==>
            Protocol.Caches(s.digest, old(w.cache), w.cache, m.value.entries))
  {
    ghost var t, rules, before := w.tree, w.InForce(parse), w.cache;
    if rules.Some? { CombinationIsAdmitted(t, rules.value, s, plan, recorded, c, names, merged); }
    ghost var contents;
    r, contents := w.ApplyPulledManifest(s.digest, Manifest(w.workspaceId, c), parse, PlannedSource(s, merged));
    m := None;
    if r == Applied {
      ghost var between := w.cache;
      m := w.StageAll(s.digest, parse, modified);
      if m.Some? {
        ghost var entries := m.value.entries;
        CombinationIsClosed(s, recorded, c, names);
        ApplyTheorems.RescanYieldsManifest(
          s.digest, t, c, rules.value, contents, w.tree, FileTree.LoadRules(parse, w.tree).value, entries);
        CachedTwice(s.digest, c, entries, before, between, w.cache);
      }
    }
  }

  lemma CachedTwice(
    digest: Digest, c: Entries, m: Entries, before: map<string, Bytes>, between: map<string, Bytes>,
    after: map<string, Bytes>)
    requires Protocol.Hashed(digest, before) && LocalEngine.CacheAfter(digest, c, c.Keys, before, between)
    requires LocalEngine.CacheAfter(digest, m, m.Keys, between, after) && LocalEngine.HoldsFilesOf(digest, m, after)
    ensures SameContent(m, c) ==> Protocol.Caches(digest, before, after, m)
  {
    CachingGrows(digest, c, before, between);
    CachingGrows(digest, m, between, after);
    if SameContent(m, c) { Protocol.SameFileHashes(m, c); }
  }

  lemma ApplyAsSpecified(
    digest: Digest, v: Protocol.Device, saved: Protocol.Device, v': Protocol.Device, staged: Entries)
    requires Protocol.RecordConflicts(v, saved) && v'.phase == Protocol.Applied(saved.phase.run, staged)
    requires v' == saved.(tree := staged, cache := v'.cache, phase := v'.phase)
    requires SameContent(staged, saved.phase.run.combined) ==> Protocol.Caches(digest, saved.cache, v'.cache, staged)
    ensures Protocol.Apply(digest, saved, v') <==> SameContent(staged, saved.phase.run.combined)
  {
  }

  /** From the staged state to the restaged tree: combine, apply, stage again. The application is refused
      only for the sake of ignored paths, when nothing but the records has changed. Otherwise, if the new
      ignore file can be read, what the calls do together is what the protocol calls recording the conflicts
      and applying the combination, exactly if no directory is left with ignored contents only and the new
      rules reveal nothing. */
  method CombineAndApply(
    w: LocalEngine.Workspace, parse: FileTree.Parser, s: Sync, plan: seq<PlannedPath>,
    conflicts: map<Path, ConflictRecord>, modified: Path -> nat, ghost v: Protocol.Device)
    returns (r: ApplyResult, m: Option<Manifest>, conflicts': map<Path, ConflictRecord>, ghost saved: Protocol.Device,
      ghost v': Protocol.Device)
    requires w.Valid() && Mirrors(s.digest, parse, v, w)
    requires v.phase.Staged? && v.phase.sync == s && v.conflicts == conflicts
    requires SameContent(s.local, v.tree) && Protocol.Hashed(s.digest, v.cache)
    requires ClosedInputs(s) && SafePaths(s.local) && SafePaths(s.remote)
    requires CombineMethod.IsPlanOf(s, plan) && Gathered(s) && CollisionFree(s.digest)
    requires LocalEngine.SizesAgree(s.digest, s.local) && LocalEngine.SizesAgree(s.digest, s.remote)
    modifies w
    ensures w.Valid() && Protocol.RecordConflicts(v, saved) && saved.conflicts == conflicts'
    ensures r == Applied <==> NoClash(saved.phase.run.combined, old(Protected(parse, w)))
    ensures r != Applied ==> unchanged(w) && v' == saved
    ensures r == Applied ==> (m.Some? <==> w.InForce(parse).Some?)
    ensures m.Some? ==> r == Applied && Mirrors(s.digest, parse, v', w)
    ensures m.Some? ==>
      StagesExactly(
        old(w.tree), old(w.InForce(parse)).value, saved.phase.run.combined,
        FileTree.LoadRules(parse, w.tree).value, v'.tree)
    ensures m.Some? ==> (Protocol.Apply(s.digest, saved, v') <==> SameContent(v'.tree, saved.phase.run.combined))
  {
    var ok, c, merged;
    ghost var names;
    ok, c, conflicts', merged, names := CombineMethod.Combine(s, plan, conflicts);
    assert ok;
    ghost var run := Protocol.Run(s, v.phase.baseRevision, RecordedCopies(conflicts), names, c);
    saved := v.(conflicts := conflicts', phase := Protocol.Recorded(run));
    v' := saved;
    r, m := ApplyAndRestage(w, parse, s, plan, run.recorded, c, names, merged, modified);
    if m.Some? {
      v' := saved.(tree := m.value.entries, cache := w.cache, phase := Protocol.Applied(run, m.value.entries));
      ApplyAsSpecified(s.digest, v, saved, v', m.value.entries);
    }
  }
}
