/** Safety of the protocol over every interleaving: bases are heads, and no version is dropped unseen. */
module ProtocolSafety {
  import opened Options
  import opened Data
  import opened Paths
  import opened Manifests
  import opened Reconciliation
  import opened Combination
  import opened Protocol
  import CombinationTheorems
  import Runs

  // ---------------------------------------------------------------- one step

  /** A plan without changes means equal contents. */
  lemma NothingToDoMeansEqual(base: Entries, local: Entries, remote: Entries)
    requires NothingToDo(base, local, remote)
    ensures SameContent(local, remote)
  {
    forall p ensures At(local, p) == At(remote, p) {
      if p in Keys(base, local, remote) {
        if Covered(base, local, remote, p) {
          var r := RootAbove(base, local, remote, p);
          assert false;
        }
        ActionIsDecided(base, local, remote, p);
      }
    }
  }

  lemma RunResultIsClosed(heads: seq<Head>, run: Run)
    requires RunOk(heads, run)
    ensures Closed(run.combined)
    ensures ValidPaths(heads[run.sync.revision].manifest) ==> ValidPaths(run.combined)
  {
    if ValidPaths(heads[run.sync.revision].manifest) {
      CombinationTheorems.CombinationIsValid(run.sync, run.recorded, run.combined, run.names);
    }
    CombinationTheorems.CombinationIsClosed(run.sync, run.recorded, run.combined, run.names);
  }

  lemma DownloadOnlyRunGivesHead(heads: seq<Head>, run: Run)
    requires RunOk(heads, run) && !RequiresPublication(run.sync)
    ensures SameContent(run.combined, heads[run.sync.revision].manifest)
  {
    forall p | PlannedIn(run.sync, p) ensures Act(run.sync, p) == Unchanged || Act(run.sync, p) == Download {
      assert !(Act(run.sync, p) == Upload || Act(run.sync, p) == Merge || Act(run.sync, p) == Conflict);
    }
    CombinationTheorems.OnlyDownloadsGiveRemote(run.sync, run.recorded, run.combined, run.names);
  }

  lemma FinishUnchangedKeeps(digest: Digest, heads: seq<Head>, v: Device, v': Device)
    requires HeadsOk(heads) && DeviceOk(digest, heads, v) && FinishUnchanged(digest, heads, v, v')
    ensures DeviceOk(digest, heads, v')
  {
    var remote := heads[v.phase.revision].manifest;
    NothingToDoMeansEqual(v.base, v.phase.local, remote);
    SameSymmetric(v.phase.local, v'.base);
    SameTransitive(v'.base, v.phase.local, remote);
  }

  lemma StageKeeps(digest: Digest, heads: seq<Head>, v: Device, v': Device)
    requires HeadsOk(heads) && DeviceOk(digest, heads, v) && Stage(digest, heads, v, v')
    ensures DeviceOk(digest, heads, v')
  {
    var s := v'.phase.sync;
    ClosedByContent(v.phase.local, s.local);
    ValidByContent(v.tree, s.local);
    SameSymmetric(v.base, heads[v.revision].manifest);
    ClosedByContent(heads[v.revision].manifest, v.base);
    if !v.unfinished { HoldsGrows(v.cache, v'.cache, v.base); }
  }

  lemma HoldsGrows(before: map<string, Bytes>, after: map<string, Bytes>, m: Entries)
    requires before.Keys <= after.Keys && Holds(before, m)
    ensures Holds(after, m)
  {
  }

  lemma RecordConflictsKeeps(digest: Digest, heads: seq<Head>, v: Device, v': Device)
    requires DeviceOk(digest, heads, v) && RecordConflicts(v, v')
    ensures DeviceOk(digest, heads, v')
  {
  }

  lemma ApplyKeeps(digest: Digest, heads: seq<Head>, v: Device, v': Device)
    requires HeadsOk(heads) && DeviceOk(digest, heads, v) && Apply(digest, v, v')
    ensures DeviceOk(digest, heads, v')
  {
    var run := v'.phase.run;
    assert RunOk(heads, run);
    RunResultIsClosed(heads, run);
    SameSymmetric(v'.tree, run.combined);
    ClosedByContent(run.combined, v'.tree);
    ValidByContent(run.combined, v'.tree);
    if !v.unfinished { HoldsGrows(v.cache, v'.cache, v.base); }
  }

  lemma SaveBaseKeeps(digest: Digest, heads: seq<Head>, v: Device, v': Device)
    requires HeadsOk(heads) && DeviceOk(digest, heads, v) && SaveBase(v, v')
    ensures DeviceOk(digest, heads, v')
  {
  }

  lemma FinishDownloadKeeps(digest: Digest, heads: seq<Head>, v: Device, v': Device)
    requires DeviceOk(digest, heads, v) && v.phase.Saved?
    requires SameContent(v.phase.run.combined, heads[v.revision].manifest)
    requires v' == v.(base := v.phase.manifest, unfinished := false, phase := Idle)
    ensures DeviceOk(digest, heads, v')
  {
  }

  lemma PullApplyKeeps(digest: Digest, heads: seq<Head>, v: Device, v': Device)
    requires HeadsOk(heads) && DeviceOk(digest, heads, v) && PullApply(digest, heads, v, v')
    ensures DeviceOk(digest, heads, v')
  {
    SameSymmetric(v'.tree, v'.base);
    ClosedByContent(v'.base, v'.tree);
    ValidByContent(v'.base, v'.tree);
  }

  lemma ScanKeeps(digest: Digest, heads: seq<Head>, v: Device, v': Device)
    requires HeadsOk(heads) && DeviceOk(digest, heads, v) && Scan(v, v')
    ensures DeviceOk(digest, heads, v')
  {
    SameSymmetric(v'.phase.local, v.tree);
    ClosedByContent(v.tree, v'.phase.local);
  }

  lemma ConfirmKeeps(digest: Digest, heads: seq<Head>, v: Device, v': Device)
    requires HeadsOk(heads) && DeviceOk(digest, heads, v) && Confirm(v, v')
    ensures DeviceOk(digest, heads, v')
  {
  }

  lemma EasyStepKeeps(digest: Digest, heads: seq<Head>, v: Device, v': Device)
    requires HeadsOk(heads) && DeviceOk(digest, heads, v)
    requires Fetch(heads, v, v') || Edit(v, v') || Abort(v, v') || PullFetch(heads, v, v') || Resolve(v, v')
    ensures DeviceOk(digest, heads, v')
  {
  }

  lemma LocalStepKeeps(digest: Digest, heads: seq<Head>, v: Device, v': Device)
    requires HeadsOk(heads) && DeviceOk(digest, heads, v) && LocalStep(digest, heads, v, v')
    ensures DeviceOk(digest, heads, v')
  {
    if RecordConflicts(v, v') { RecordConflictsKeeps(digest, heads, v, v'); }
    else if Scan(v, v') { ScanKeeps(digest, heads, v, v'); }
    else if FinishUnchanged(digest, heads, v, v') { FinishUnchangedKeeps(digest, heads, v, v'); }
    else if Stage(digest, heads, v, v') { StageKeeps(digest, heads, v, v'); }
    else if Apply(digest, v, v') { ApplyKeeps(digest, heads, v, v'); }
    else if SaveBase(v, v') { SaveBaseKeeps(digest, heads, v, v'); }
    else if FinishDownload(v, v') {
      DownloadOnlyRunGivesHead(heads, v.phase.run);
      FinishDownloadKeeps(digest, heads, v, v');
    }
    else if Confirm(v, v') { ConfirmKeeps(digest, heads, v, v'); }
    else if PullApply(digest, heads, v, v') { PullApplyKeeps(digest, heads, v, v'); }
    else { EasyStepKeeps(digest, heads, v, v'); }
  }

  // ---------------------------------------------------------------- the history grows

  lemma ReadsGrows(heads: seq<Head>, h: Head, s: Sync, baseRevision: nat)
    requires Reads(heads, s, baseRevision)
    ensures Reads(heads + [h], s, baseRevision)
  {
  }

  lemma DeviceOkGrows(digest: Digest, heads: seq<Head>, h: Head, v: Device)
    requires DeviceOk(digest, heads, v)
    ensures DeviceOk(digest, heads + [h], v)
  {
  }

  lemma HeadsOkGrows(heads: seq<Head>, h: Head, run: Run)
    requires HeadsOk(heads) && RunOk(heads, run) && h.from == Some(run)
    requires |heads| == run.sync.revision + 1 && SameContent(h.manifest, run.combined)
    ensures HeadsOk(heads + [h])
  {
    var heads' := heads + [h];
    RunResultIsClosed(heads, run);
    SameSymmetric(h.manifest, run.combined);
    ClosedByContent(run.combined, h.manifest);
    ValidByContent(run.combined, h.manifest);
    forall n | 0 < n < |heads'|
      ensures heads'[n].from.Some? && heads'[n].from.value.sync.revision == n - 1
        && RunOk(heads', heads'[n].from.value) && SameContent(heads'[n].manifest, heads'[n].from.value.combined)
    {
      var r := heads'[n].from.value;
      ReadsGrows(heads, h, r.sync, r.baseRevision);
    }
  }

  lemma PublishKeeps(digest: Digest, v: Device, heads: seq<Head>, v': Device, heads': seq<Head>)
    requires HeadsOk(heads) && DeviceOk(digest, heads, v) && Publish(v, heads, v', heads')
    ensures HeadsOk(heads') && DeviceOk(digest, heads', v')
  {
    var run, h := v.phase.run, heads'[|heads|];
    SameTransitive(h.manifest, v.phase.manifest, run.combined);
    HeadsOkGrows(heads, h, run);
    DeviceOkGrows(digest, heads, h, v);
    SameSymmetric(h.manifest, v.phase.manifest);
  }

  lemma LocalMoveKeepsInv(w: World, w': World, d: nat)
    requires Inv(w) && Moves(w, w', d) && w'.heads == w.heads
    requires LocalStep(w.digest, w.heads, w.devices[d], w'.devices[d])
    ensures Inv(w')
  {
    LocalStepKeeps(w.digest, w.heads, w.devices[d], w'.devices[d]);
  }

  lemma PublishMoveKeepsInv(w: World, w': World, d: nat)
    requires Inv(w) && Moves(w, w', d)
    requires Publish(w.devices[d], w.heads, w'.devices[d], w'.heads)
    ensures Inv(w') && w'.heads[..|w.heads|] == w.heads
  {
    PublishKeeps(w.digest, w.devices[d], w.heads, w'.devices[d], w'.heads);
    forall e | e in w'.devices && e != d ensures DeviceOk(w'.digest, w'.heads, w'.devices[e]) {
      DeviceOkGrows(w.digest, w.heads, w'.heads[|w.heads|], w.devices[e]);
    }
  }

  ghost predicate MovesOn(w: World, w': World, d: nat) {
    && Moves(w, w', d)
    && ((LocalStep(w.digest, w.heads, w.devices[d], w'.devices[d]) && w'.heads == w.heads)
        || Publish(w.devices[d], w.heads, w'.devices[d], w'.heads))
  }

  lemma NextMoves(w: World, w': World) returns (d: nat)
    requires Next(w, w')
    ensures MovesOn(w, w', d)
  {
    d :| Moves(w, w', d)
      && ((LocalStep(w.digest, w.heads, w.devices[d], w'.devices[d]) && w'.heads == w.heads)
          || Publish(w.devices[d], w.heads, w'.devices[d], w'.heads));
  }

  lemma MoveKeepsInv(w: World, w': World, d: nat)
    requires Inv(w) && MovesOn(w, w', d)
    ensures Inv(w') && w.heads <= w'.heads
  {
    if Publish(w.devices[d], w.heads, w'.devices[d], w'.heads) {
      PublishMoveKeepsInv(w, w', d);
    } else {
      LocalMoveKeepsInv(w, w', d);
    }
  }

  lemma NextKeepsInv(w: World, w': World)
    requires Inv(w) && Next(w, w')
    ensures Inv(w') && w'.digest == w.digest && w.heads <= w'.heads
  {
    var d := NextMoves(w, w');
    MoveKeepsInv(w, w', d);
  }

  // ---------------------------------------------------------------- whole executions

  lemma InvariantHolds(ws: seq<World>, i: nat)
    requires Execution(ws) && i < |ws|
    ensures Inv(ws[i])
  {
    forall a, b | Inv(a) && Next(a, b) ensures Inv(b) { NextKeepsInv(a, b); }
    Runs.Preserved(ws, 0, i, (a, b) => Next(a, b), w => Inv(w));
  }

  ghost predicate Extends(w: World, heads: seq<Head>) {
    Inv(w) && heads <= w.heads
  }

  /** Heads are only ever appended. */
  lemma HistoryOnlyGrows(ws: seq<World>, i: nat, j: nat)
    requires Execution(ws) && i <= j < |ws|
    ensures ws[i].heads <= ws[j].heads
  {
    var heads := ws[i].heads;
    InvariantHolds(ws, i);
    forall a, b | Extends(a, heads) && Next(a, b) ensures Extends(b, heads) { NextKeepsInv(a, b); }
    Runs.Preserved(ws, i, j, (a, b) => Next(a, b), w => Extends(w, heads));
  }

  /** In every state of every execution, the saved base of a device is the head of the revision it
      names, and after a finished synchronization all files of the base are cached. */
  lemma SavedBaseIsAHead(ws: seq<World>, i: nat, d: nat)
    requires Execution(ws) && i < |ws| && d in ws[i].devices
    ensures
      var v, heads := ws[i].devices[d], ws[i].heads;
      && v.revision < |heads| && SameContent(v.base, heads[v.revision].manifest)
      && (!v.unfinished ==> Holds(v.cache, v.base))
  {
    InvariantHolds(ws, i);
  }

  /** What happened to the entry `p` of head `n` when head `n + 1` was published by `run`. */
  ghost predicate Accounted(heads: seq<Head>, n: nat, p: Path)
    requires n + 1 < |heads| && heads[n + 1].from.Some?
  {
    var run, version, now := heads[n + 1].from.value, At(heads[n].manifest, p), heads[n + 1].manifest;
    // still there
    || At(now, p) == version
    // the publisher had synchronized an earlier head with this version, and then replaced it itself, or
    // kept it elsewhere in an attempt that lost the race: see `LostRaces`
    || (run.baseRevision <= n && At(heads[run.baseRevision].manifest, p) == version && At(run.sync.local, p) != version)
    // merged line by line with the publisher's version
    || CombinationTheorems.MergedHere(run.sync, now, p)
    // kept under a conflict copy that is part of the new head
    || CombinationTheorems.StillCopied(run.names, now, p, version)
  }

  lemma HeadVersionAccounted(heads: seq<Head>, n: nat, p: Path)
    requires HeadsOk(heads) && n + 1 < |heads| && p in heads[n].manifest
    ensures Accounted(heads, n, p)
  {
    var run, now := heads[n + 1].from.value, heads[n + 1].manifest;
    assert RunOk(heads, run);
    CombinationTheorems.RemoteVersionSurvives(run.sync, run.recorded, run.combined, run.names, p);
    assert At(now, p) == At(run.combined, p);
    assert At(run.sync.base, p) == At(heads[run.baseRevision].manifest, p);
    if CombinationTheorems.CopiedAside(run.sync, run.combined, run.names, p) {
      var r :| r in run.names && AtOrUnder(r, p) &&
        Get(run.combined, Rebase(r, run.names[r], p)) == Get(run.sync.remote, p);
      var q := Rebase(r, run.names[r], p);
      assert At(now, q) == At(run.combined, q);
    }
  }

  /** No head of any execution drops a version its publisher had not already synchronized: it is still
      in place, merged, or kept as a conflict copy. */
  lemma NoVersionIsDroppedUnseen(ws: seq<World>, i: nat, n: nat, p: Path)
    requires Execution(ws) && i < |ws| && n + 1 < |ws[i].heads|
    requires p in ws[i].heads[n].manifest
    ensures ws[i].heads[n + 1].from.Some? && Accounted(ws[i].heads, n, p)
  {
    InvariantHolds(ws, i);
    HeadVersionAccounted(ws[i].heads, n, p);
  }

  /** So whenever a version has left its path between two heads, some publication in between
      accounts for it. */
  lemma {:induction false} DisappearanceHasACause(ws: seq<World>, i: nat, n: nat, m: nat, p: Path) returns (k: nat)
    requires Execution(ws) && i < |ws| && n < m < |ws[i].heads|
    requires p in ws[i].heads[n].manifest
    requires At(ws[i].heads[m].manifest, p) != At(ws[i].heads[n].manifest, p)
    ensures n <= k < m && ws[i].heads[k + 1].from.Some? && Accounted(ws[i].heads, k, p)
    ensures At(ws[i].heads[k].manifest, p) == At(ws[i].heads[n].manifest, p) != At(ws[i].heads[k + 1].manifest, p)
    decreases m - n
  {
    if At(ws[i].heads[n + 1].manifest, p) == At(ws[i].heads[n].manifest, p) {
      k := DisappearanceHasACause(ws, i, n + 1, m, p);
    } else {
      NoVersionIsDroppedUnseen(ws, i, n, p);
      k := n;
    }
  }

  /** Everything the publisher had changed since its base, deletions and directories included, is in the
      head it published, in place or merged. */
  lemma PublishedEditsAreKept(ws: seq<World>, i: nat, n: nat, p: Path)
    requires Execution(ws) && i < |ws| && n + 1 < |ws[i].heads|
    ensures ws[i].heads[n + 1].from.Some? && ws[i].heads[n + 1].from.value.baseRevision <= n
    ensures
      var heads := ws[i].heads;
      var run := heads[n + 1].from.value;
      At(run.sync.local, p) != At(heads[run.baseRevision].manifest, p) ==>
        At(heads[n + 1].manifest, p) == At(run.sync.local, p)
        || CombinationTheorems.MergedHere(run.sync, heads[n + 1].manifest, p)
  {
    InvariantHolds(ws, i);
    var heads := ws[i].heads;
    var run := heads[n + 1].from.value;
    assert RunOk(heads, run);
    assert At(run.sync.base, p) == At(heads[run.baseRevision].manifest, p);
    assert At(heads[n + 1].manifest, p) == At(run.combined, p);
    if At(run.sync.local, p) != At(run.sync.base, p) {
      CombinationTheorems.LocalEditSurvives(run.sync, run.recorded, run.combined, run.names, p);
    }
  }
}
