/** An attempt that nothing disturbs completes, and leaves the device's tree as the head. */
module Progress {
  import opened Options
  import opened Data
  import opened Paths
  import opened Manifests
  import opened Reconciliation
  import opened Combination
  import opened Protocol
  import opened Convergence
  import CombinationApplies
  import CombinationExistence
  import CombinationTheorems
  import ProtocolSafety
  import Runs

  // ---------------------------------------------------------------- blobs

  ghost predicate HasBytes(digest: Digest, h: string) {
    exists b: Bytes :: digest.hash(b) == h
  }

  /** Every file of the manifest has contents somewhere. */
  ghost predicate Real(digest: Digest, m: Entries) {
    forall h | h in FileHashes(m) :: HasBytes(digest, h)
  }

  lemma RealByContent(digest: Digest, m: Entries, m': Entries)
    requires Real(digest, m) && SameContent(m', m)
    ensures Real(digest, m')
  {
    SameFileHashes(m', m);
  }

  ghost function BytesOf(digest: Digest, h: string): (b: Bytes)
    requires HasBytes(digest, h)
    ensures digest.hash(b) == h
  {
    var b: Bytes :| digest.hash(b) == h;
    b
  }

  ghost function Filled(digest: Digest, cache: map<string, Bytes>, m: Entries): map<string, Bytes>
    requires Real(digest, m)
  {
    map h | h in cache.Keys + FileHashes(m) :: if h in cache then cache[h] else BytesOf(digest, h)
  }

  lemma FilledCaches(digest: Digest, cache: map<string, Bytes>, m: Entries)
    requires Real(digest, m) && Hashed(digest, cache)
    ensures Caches(digest, cache, Filled(digest, cache, m), m)
  {
    forall p | p in m && m[p].File? ensures m[p].file.contentHash in Filled(digest, cache, m) {
      assert m[p].file.contentHash in FileHashes(m);
    }
  }

  lemma HoldsHashes(blobs: map<string, Bytes>, m: Entries)
    ensures Holds(blobs, m) <==> FileHashes(m) <= blobs.Keys
  {
    if FileHashes(m) <= blobs.Keys {
      forall p | p in m && m[p].File? ensures m[p].file.contentHash in blobs {
        assert m[p].file.contentHash in FileHashes(m);
      }
    }
  }

  // ---------------------------------------------------------------- staging

  /** Every file of the base is cached, or part of the tree and so about to be. */
  ghost predicate BaseAtHand(v: Device) {
    FileHashes(v.base) <= v.cache.Keys + FileHashes(v.tree)
  }

  /** The plan has changes, and the tree is as it was scanned. */
  ghost predicate ReadyToStage(heads: seq<Head>, v: Device) {
    && v.phase.Fetched? && v.phase.revision < |heads|
    && !NothingToDo(v.base, v.phase.local, heads[v.phase.revision].manifest)
    && SameContent(v.phase.local, v.tree)
  }

  ghost function StagedDevice(digest: Digest, heads: seq<Head>, v: Device): Device
    requires ReadyToStage(heads, v) && Real(digest, v.tree) && Real(digest, heads[v.phase.revision].manifest)
  {
    var cache, remote := Filled(digest, v.cache, v.tree), heads[v.phase.revision].manifest;
    var s := Sync(v.base, v.tree, remote, v.phase.revision, cache, cache, Filled(digest, map[], remote), digest);
    v.(cache := cache, phase := Staged(s, v.revision))
  }

  lemma StagingSucceeds(digest: Digest, heads: seq<Head>, v: Device)
    requires ReadyToStage(heads, v) && BaseAtHand(v) && Hashed(digest, v.cache)
    requires Real(digest, v.tree) && Real(digest, heads[v.phase.revision].manifest)
    ensures Stage(digest, heads, v, StagedDevice(digest, heads, v))
  {
    var remote := heads[v.phase.revision].manifest;
    var s := StagedDevice(digest, heads, v).phase.sync;
    FilledCaches(digest, v.cache, v.tree);
    FilledCaches(digest, map[], remote);
    HoldsHashes(s.baseBlobs, s.base);
    HoldsHashes(s.remoteBlobs, remote);
    HoldsHashes(s.baseBlobs + s.localBlobs + s.remoteBlobs, remote);
  }

  /** An attempt gets past staging exactly if the files of its base are at hand. */
  lemma StagesExactlyIfBaseAtHand(digest: Digest, heads: seq<Head>, v: Device)
    requires ReadyToStage(heads, v) && Hashed(digest, v.cache)
    requires Real(digest, v.tree) && Real(digest, heads[v.phase.revision].manifest)
    ensures (exists v' :: Stage(digest, heads, v, v')) <==> BaseAtHand(v)
  {
    if BaseAtHand(v) { StagingSucceeds(digest, heads, v); }
    if v' :| Stage(digest, heads, v, v') { StagedBaseIsAtHand(digest, heads, v, v'); }
  }

  lemma StagedBaseIsAtHand(digest: Digest, heads: seq<Head>, v: Device, v': Device)
    requires Stage(digest, heads, v, v')
    ensures BaseAtHand(v) && v'.cache.Keys <= v.cache.Keys + FileHashes(v.tree)
  {
    SameFileHashes(v'.phase.sync.local, v.tree);
    HoldsHashes(v'.cache, v.base);
  }

  // ---------------------------------------------------------------- recording and applying

  ghost function RecordedAll(s: Sync, before: map<Path, ConflictRecord>, names: map<Path, Path>)
    : map<Path, ConflictRecord>
  {
    map p | p in before.Keys + names.Keys ::
      if p in names then ConflictRecord(p, names[p], p !in s.remote) else before[p]
  }

  lemma RecordingSucceeds(v: Device) returns (v': Device)
    requires v.phase.Staged? && ClosedInputs(v.phase.sync) && SameContent(v.phase.sync.local, v.tree)
    ensures RecordConflicts(v, v')
  {
    var s, recorded := v.phase.sync, RecordedCopies(v.conflicts);
    var c, names := CombinationExistence.CombinationExists(s, recorded);
    v' := v.(conflicts := RecordedAll(s, v.conflicts, names),
             phase := Recorded(Run(s, v.phase.baseRevision, recorded, names, c)));
  }

  lemma CombinationIsReal(s: Sync, recorded: set<Path>, c: Entries, names: map<Path, Path>)
    requires IsCombination(s, recorded, c, names) && Real(s.digest, s.local) && Real(s.digest, s.remote)
    ensures Real(s.digest, c)
  {
    forall h | h in FileHashes(c) ensures HasBytes(s.digest, h) {
      var q :| q in c && c[q].File? && c[q].file.contentHash == h;
      CombinationApplies.EntryOrigin(s, recorded, c, names, q);
      if c[q] in s.local.Values {
        var p :| p in s.local && s.local[p] == c[q];
        assert h in FileHashes(s.local);
      } else if c[q] in s.remote.Values {
        var p :| p in s.remote && s.remote[p] == c[q];
        assert h in FileHashes(s.remote);
      } else {
        assert s.digest.hash(MergeOf(s, q).value) == h;
      }
    }
  }

  lemma ApplyingSucceeds(digest: Digest, v: Device) returns (v': Device)
    requires v.phase.Recorded? && SameContent(v.phase.run.sync.local, v.tree) && Hashed(digest, v.cache)
    requires Real(digest, v.phase.run.combined)
    ensures Apply(digest, v, v') && v'.tree == v.phase.run.combined == v'.phase.manifest
  {
    var c := v.phase.run.combined;
    FilledCaches(digest, v.cache, c);
    v' := v.(tree := c, cache := Filled(digest, v.cache, c), phase := Applied(v.phase.run, c));
  }

  // ---------------------------------------------------------------- one device, up to the application

  /** The device is at rest, and everything it needs has contents. */
  ghost predicate AtRest(digest: Digest, heads: seq<Head>, v: Device) {
    && HeadsOk(heads) && DeviceOk(digest, heads, v) && v.phase == Idle && BaseAtHand(v)
    && Real(digest, v.tree) && Real(digest, heads[|heads| - 1].manifest)
  }

  ghost function FetchedDevice(heads: seq<Head>, v: Device): Device
    requires |heads| > 0
  {
    v.(phase := Fetched(v.tree, |heads| - 1))
  }

  ghost predicate Needed(heads: seq<Head>, v: Device) {
    |heads| > 0 && !NothingToDo(v.base, v.tree, heads[|heads| - 1].manifest)
  }

  /** The states of an undisturbed attempt up to the application. */
  ghost predicate AttemptApplies(digest: Digest, heads: seq<Head>, v: Device, vs: seq<Device>) {
    && |vs| == 6 && vs[0] == v && Scan(v, vs[1]) && Fetch(heads, vs[1], vs[2]) && Stage(digest, heads, vs[2], vs[3])
    && RecordConflicts(vs[3], vs[4]) && Apply(digest, vs[4], vs[5])
  }

  lemma FetchingSucceeds(digest: Digest, heads: seq<Head>, v: Device) returns (v1: Device, v2: Device)
    requires AtRest(digest, heads, v)
    ensures Scan(v, v1) && Fetch(heads, v1, v2) && DeviceOk(digest, heads, v2) && v2 == FetchedDevice(heads, v)
  {
    v1, v2 := v.(phase := Scanned(v.tree)), FetchedDevice(heads, v);
    ProtocolSafety.ScanKeeps(digest, heads, v, v1);
    ProtocolSafety.EasyStepKeeps(digest, heads, v1, v2);
  }

  lemma StagingClosed(digest: Digest, heads: seq<Head>, v: Device, v': Device)
    requires HeadsOk(heads) && DeviceOk(digest, heads, v) && Stage(digest, heads, v, v')
    ensures ClosedInputs(v'.phase.sync) && Hashed(digest, v'.cache)
  {
    ProtocolSafety.StageKeeps(digest, heads, v, v');
  }

  /** Staged, with everything at hand that combining and applying need. */
  ghost predicate ReadyToApply(digest: Digest, v: Device) {
    && v.phase.Staged? && v.phase.sync.digest == digest && ClosedInputs(v.phase.sync) && Hashed(digest, v.cache)
    && v.phase.sync.local == v.tree && Real(digest, v.tree) && Real(digest, v.phase.sync.remote)
  }

  lemma AttemptReachesStage(digest: Digest, heads: seq<Head>, v: Device) returns (v1: Device, v2: Device, v3: Device)
    requires AtRest(digest, heads, v) && Needed(heads, v)
    ensures Scan(v, v1) && Fetch(heads, v1, v2) && Stage(digest, heads, v2, v3) && ReadyToApply(digest, v3)
  {
    v1, v2 := FetchingSucceeds(digest, heads, v);
    StagingSucceeds(digest, heads, v2);
    v3 := StagedDevice(digest, heads, v2);
    StagingClosed(digest, heads, v2, v3);
  }

  lemma CompletesStaged(digest: Digest, v: Device) returns (v': Device, v'': Device)
    requires ReadyToApply(digest, v)
    ensures RecordConflicts(v, v') && Apply(digest, v', v'')
  {
    v' := RecordingSucceeds(v);
    var run := v'.phase.run;
    CombinationIsReal(run.sync, run.recorded, run.combined, run.names);
    v'' := ApplyingSucceeds(digest, v');
  }

  lemma AttemptReachesApply(digest: Digest, heads: seq<Head>, v: Device) returns (vs: seq<Device>)
    requires AtRest(digest, heads, v) && Needed(heads, v)
    ensures AttemptApplies(digest, heads, v, vs)
  {
    var v1, v2, v3 := AttemptReachesStage(digest, heads, v);
    var v4, v5 := CompletesStaged(digest, v3);
    vs := Assembled(digest, heads, v, v1, v2, v3, v4, v5);
  }

  lemma Assembled(
    digest: Digest, heads: seq<Head>, v: Device, v1: Device, v2: Device, v3: Device, v4: Device, v5: Device)
    returns (vs: seq<Device>)
    requires Scan(v, v1) && Fetch(heads, v1, v2) && Stage(digest, heads, v2, v3)
    requires RecordConflicts(v3, v4) && Apply(digest, v4, v5)
    ensures AttemptApplies(digest, heads, v, vs)
  {
    vs := [v, v1, v2, v3, v4, v5];
  }

  /** What an applied attempt of a device remembers: what it started from, and what it cached. */
  ghost predicate Remembers(digest: Digest, v: Device, v': Device) {
    && v'.phase.Applied? && v'.base == v.base && v'.revision == v.revision && v'.unfinished == v.unfinished
    && v'.phase.run.sync.base == v.base && SameContent(v'.phase.run.sync.local, v.tree)
    && v'.phase.run.sync.digest == digest && CombinationApplies.Gathered(v'.phase.run.sync)
    && v'.cache.Keys <= v.cache.Keys + FileHashes(v.tree) + FileHashes(v'.tree)
  }

  /** What such an attempt read, and what it cached. */
  lemma AttemptRead(digest: Digest, heads: seq<Head>, v: Device, vs: seq<Device>)
    requires |heads| > 0 && AttemptApplies(digest, heads, v, vs)
    ensures Remembers(digest, v, vs[5]) && ReadsLast(heads, vs[5].phase.run.sync)
    ensures SameContent(vs[5].tree, vs[5].phase.run.combined)
  {
    StagedBaseIsAtHand(digest, heads, vs[2], vs[3]);
    SameSymmetric(vs[5].tree, vs[5].phase.run.combined);
    SameTransitive(vs[5].phase.manifest, vs[5].phase.run.combined, vs[5].tree);
    SameFileHashes(vs[5].phase.manifest, vs[5].tree);
  }

  // ---------------------------------------------------------------- the files of the next base

  /** The remote version of every merged path is cached. */
  ghost predicate MergedRemotesCached(s: Sync, cache: map<string, Bytes>) {
    forall p | Act(s, p) == Merge && MergeOf(s, p).Some? :: s.remote[p].file.contentHash in cache
  }

  lemma RemoteFileIsCached(
    s: Sync, recorded: set<Path>, c: Entries, names: map<Path, Path>, cache: map<string, Bytes>, p: Path)
    requires IsCombination(s, recorded, c, names) && Holds(cache, c) && Holds(cache, s.base)
    requires IsFile(s.remote, p)
    ensures s.remote[p].file.contentHash in cache || (Act(s, p) == Merge && MergeOf(s, p).Some?)
  {
    CombinationTheorems.RemoteVersionSurvives(s, recorded, c, names, p);
    if At(c, p) == At(s.remote, p) {
      assert c[p].file.contentHash == s.remote[p].file.contentHash;
    } else if CombinationTheorems.CopiedAside(s, c, names, p) {
      var r :| r in names && AtOrUnder(r, p) && Get(c, Rebase(r, names[r], p)) == Get(s.remote, p);
      assert c[Rebase(r, names[r], p)].file.contentHash == s.remote[p].file.contentHash;
    } else if At(s.base, p) == At(s.remote, p) {
      assert s.base[p].file.contentHash == s.remote[p].file.contentHash;
    }
  }

  /** The manifest an attempt saves as base after applying has all its files cached exactly if the remote
      versions of the merged paths are: applying caches the merge, not what it was made from. */
  lemma RemoteIsCachedExactly(digest: Digest, heads: seq<Head>, v: Device, v1: Device, v2: Device, v3: Device)
    requires Stage(digest, heads, v, v1) && RecordConflicts(v1, v2) && Apply(digest, v2, v3)
    ensures Holds(v3.cache, v3.phase.run.sync.remote) <==> MergedRemotesCached(v3.phase.run.sync, v3.cache)
  {
    var run := v3.phase.run;
    var s := run.sync;
    SameFileHashes(v3.phase.manifest, run.combined);
    HoldsHashes(v3.cache, v3.phase.manifest);
    HoldsHashes(v3.cache, run.combined);
    if MergedRemotesCached(s, v3.cache) {
      forall p | p in s.remote && s.remote[p].File? ensures s.remote[p].file.contentHash in v3.cache {
        RemoteFileIsCached(s, run.recorded, run.combined, run.names, v3.cache, p);
      }
    }
  }

  /** Between attempts, with a file of the base neither cached nor in the tree. */
  ghost predicate Stuck(v: Device) {
    (v.phase.Idle? || v.phase.Scanned? || v.phase.Fetched?) && !BaseAtHand(v)
  }

  /** Such a device never gets past staging again, as long as it is not edited and the head is not by chance
      its own tree. */
  lemma StuckStaysStuck(digest: Digest, heads: seq<Head>, v: Device, v': Device)
    requires Stuck(v) && (SyncStep(digest, heads, v, v') || Abort(v, v'))
    ensures Stuck(v') || FinishUnchanged(digest, heads, v, v')
  {
    if Stage(digest, heads, v, v') { StagedBaseIsAtHand(digest, heads, v, v'); }
  }

  // ---------------------------------------------------------------- worlds

  /** The world in which only this device has changed. */
  function MoveTo(w: World, d: nat, v: Device): World {
    w.(devices := w.devices[d := v])
  }

  lemma StepIsMove(w: World, d: nat, v: Device, v': Device)
    requires d in w.devices && SyncStep(w.digest, w.heads, v, v')
    ensures UneditedMove(MoveTo(w, d, v), MoveTo(w, d, v'), d)
  {
  }

  ghost predicate SyncSteps(digest: Digest, heads: seq<Head>, vs: seq<Device>) {
    forall i, j | 0 <= i < |vs| - 1 && j == i + 1 :: SyncStep(digest, heads, vs[i], vs[j])
  }

  function Lifted(w: World, d: nat, vs: seq<Device>): seq<World> {
    seq(|vs|, i requires 0 <= i < |vs| => MoveTo(w, d, vs[i]))
  }

  lemma LiftedIsChain(w: World, d: nat, vs: seq<Device>)
    requires d in w.devices && |vs| > 0 && vs[0] == w.devices[d] && SyncSteps(w.digest, w.heads, vs)
    ensures Runs.Chain(Lifted(w, d, vs), (a, b) => Unedited(a, b)) && Lifted(w, d, vs)[0] == w
  {
    var ws := Lifted(w, d, vs);
    assert w.devices[d := vs[0]] == w.devices;
    forall i, j | 0 <= i < |ws| - 1 && j == i + 1 ensures Unedited(ws[i], ws[j]) {
      StepIsMove(w, d, vs[i], vs[j]);
    }
  }

  lemma AttemptIsSteps(digest: Digest, heads: seq<Head>, v: Device, vs: seq<Device>)
    requires AttemptApplies(digest, heads, v, vs)
    ensures SyncSteps(digest, heads, vs) && |vs| == 6 && vs[0] == v && Fetch(heads, vs[1], vs[2])
  {
  }

  /** What a completed attempt leaves: the tree, the base and the head agree, and a new head exists exactly if
      the device had something to say. */
  ghost predicate Completed(w: World, w': World, d: nat) {
    && Kept(w, w', d) && w.heads <= w'.heads && |w.heads| > 0 && Finished(w'.heads, w'.devices[d])
    && var v, v', last := w.devices[d], w'.devices[d], w.heads[|w.heads| - 1].manifest;
    && (Passive(v.base, v.tree, last) ==> w'.heads == w.heads)
    && (!Passive(v.base, v.tree, last) ==> Published(w, w', d))
    && v'.cache.Keys <= v.cache.Keys + FileHashes(v.tree) + FileHashes(v'.tree)
  }

  /** Nothing but one device and the heads has changed. */
  ghost predicate Kept(w: World, w': World, d: nat) {
    && d in w.devices && w'.digest == w.digest && w'.devices.Keys == w.devices.Keys
    && forall e | e in w.devices && e != d :: w'.devices[e] == w.devices[e]
  }

  ghost predicate Finished(heads: seq<Head>, v: Device) {
    && |heads| > 0 && v.phase == Idle && !v.unfinished && v.revision == |heads| - 1
    && SameContent(v.base, v.tree) && SameContent(v.tree, heads[|heads| - 1].manifest)
  }

  /** One head was added, and its run read the device's base and tree and the head before. */
  ghost predicate Published(w: World, w': World, d: nat)
    requires d in w.devices && |w.heads| > 0
  {
    && |w'.heads| == |w.heads| + 1 && w'.heads[|w.heads|].from.Some?
    && var run := w'.heads[|w.heads|].from.value;
    && run.sync.base == w.devices[d].base && SameContent(run.sync.local, w.devices[d].tree)
    && run.sync.remote == w.heads[|w.heads| - 1].manifest
    && IsCombination(run.sync, run.recorded, run.combined, run.names)
    && SameContent(w'.heads[|w.heads|].manifest, run.combined)
  }

  // ---------------------------------------------------------------- the rest of an attempt

  /** Applied on the last head. */
  ghost predicate AppliedOnLast(heads: seq<Head>, v: Device) {
    && HeadsOk(heads) && v.phase.Applied? && RunOk(heads, v.phase.run) && ReadsLast(heads, v.phase.run.sync)
    && SameContent(v.tree, v.phase.run.combined) && SameContent(v.phase.manifest, v.phase.run.combined)
  }

  lemma DownloadFinishes(w: World, d: nat) returns (ws: seq<World>)
    requires d in w.devices && AppliedOnLast(w.heads, w.devices[d])
    requires !RequiresPublication(w.devices[d].phase.run.sync)
    ensures |ws| == 3 && ws[0] == w && Runs.Chain(ws, (a, b) => Unedited(a, b)) && Finishes(ws[1], ws[2], d)
    ensures Kept(w, ws[2], d) && ws[2].heads == w.heads && Finished(w.heads, ws[2].devices[d])
    ensures ws[2].devices[d].cache == w.devices[d].cache && ws[2].devices[d].tree == w.devices[d].tree
  {
    var v := w.devices[d];
    var run := v.phase.run;
    ProtocolSafety.DownloadOnlyRunGivesHead(w.heads, run);
    SameTransitive(v.tree, run.combined, run.sync.remote);
    SameSymmetric(v.tree, run.combined);
    SameTransitive(v.phase.manifest, run.combined, v.tree);
    var v1 := v.(base := run.sync.remote, revision := run.sync.revision, unfinished := true,
                 phase := Saved(run, v.phase.manifest));
    var v2 := v1.(base := v.phase.manifest, unfinished := false, phase := Idle);
    assert SaveBase(v, v1) && FinishDownload(v1, v2);
    LiftedIsChain(w, d, [v, v1, v2]);
    ws := Lifted(w, d, [v, v1, v2]);
  }

  lemma PublicationSteps(heads: seq<Head>, v: Device) returns (v1: Device, v2: Device, v3: Device, heads': seq<Head>)
    requires AppliedOnLast(heads, v) && RequiresPublication(v.phase.run.sync)
    ensures heads' == heads + [Head(v.phase.manifest, Some(v.phase.run))]
    ensures SaveBase(v, v1) && Publish(v1, heads, v2, heads') && Confirm(v2, v3)
    ensures Finished(heads', v3) && v3.cache == v.cache && v3.tree == v.tree
  {
    var run := v.phase.run;
    SameSymmetric(v.tree, run.combined);
    SameTransitive(v.phase.manifest, run.combined, v.tree);
    SameSymmetric(v.phase.manifest, v.tree);
    v1 := v.(base := run.sync.remote, revision := run.sync.revision, unfinished := true,
             phase := Saved(run, v.phase.manifest));
    v2 := v1.(phase := Phase.Published(v.phase.manifest, |heads|));
    v3 := v2.(base := v.phase.manifest, revision := |heads|, unfinished := false, phase := Idle);
    heads' := heads + [Head(v.phase.manifest, Some(run))];
  }

  lemma PublicationFinishes(w: World, d: nat) returns (ws: seq<World>)
    requires d in w.devices && AppliedOnLast(w.heads, w.devices[d])
    requires RequiresPublication(w.devices[d].phase.run.sync)
    ensures |ws| == 4 && ws[0] == w && Runs.Chain(ws, (a, b) => Unedited(a, b)) && Finishes(ws[2], ws[3], d)
    ensures Kept(w, ws[3], d)
    ensures
      var v := w.devices[d];
      ws[3].heads == w.heads + [Head(v.phase.manifest, Some(v.phase.run))]
    ensures Finished(ws[3].heads, ws[3].devices[d])
    ensures ws[3].devices[d].cache == w.devices[d].cache && ws[3].devices[d].tree == w.devices[d].tree
  {
    var v1, v2, v3, heads' := PublicationSteps(w.heads, w.devices[d]);
    ws := ThreeMoves(w, d, v1, v2, v3, heads');
  }

  lemma PublishIsMove(w: World, d: nat, v: Device, v': Device, heads': seq<Head>)
    requires d in w.devices && Publish(v, w.heads, v', heads')
    ensures UneditedMove(MoveTo(w, d, v), MoveTo(w, d, v').(heads := heads'), d)
  {
  }

  lemma ThreeMoves(w: World, d: nat, v1: Device, v2: Device, v3: Device, heads': seq<Head>) returns (ws: seq<World>)
    requires d in w.devices && SaveBase(w.devices[d], v1) && Publish(v1, w.heads, v2, heads') && Confirm(v2, v3)
    ensures |ws| == 4 && ws[0] == w && Runs.Chain(ws, (a, b) => Unedited(a, b)) && Finishes(ws[2], ws[3], d)
    ensures Kept(w, ws[3], d) && ws[3].heads == heads' && ws[3].devices[d] == v3
  {
    var w1, w2 := MoveTo(w, d, v1), MoveTo(w, d, v2).(heads := heads');
    var w3 := MoveTo(w2, d, v3);
    assert w.devices[d := w.devices[d]] == w.devices && MoveTo(w2, d, v2) == w2;
    StepIsMove(w, d, w.devices[d], v1);
    PublishIsMove(w, d, v1, v2, heads');
    StepIsMove(w2, d, v2, v3);
    Runs.ThreeSteps(w, w1, w2, w3, (a, b) => Unedited(a, b));
    ws := [w, w1, w2, w3];
  }

  lemma UnchangedFinishes(w: World, d: nat) returns (ws: seq<World>)
    requires d in w.devices && AtRest(w.digest, w.heads, w.devices[d]) && !Needed(w.heads, w.devices[d])
    ensures |ws| == 4 && ws[0] == w && Runs.Chain(ws, (a, b) => Unedited(a, b))
    ensures Fetches(ws[1], ws[2], d) && Finishes(ws[2], ws[3], d)
    ensures Kept(w, ws[3], d) && ws[3].heads == w.heads && Finished(w.heads, ws[3].devices[d])
    ensures ws[3].devices[d].tree == w.devices[d].tree
    ensures ws[3].devices[d].cache.Keys <= w.devices[d].cache.Keys + FileHashes(w.devices[d].tree)
    ensures SameContent(w.devices[d].tree, w.heads[|w.heads| - 1].manifest)
  {
    var v := w.devices[d];
    ProtocolSafety.NothingToDoMeansEqual(v.base, v.tree, w.heads[|w.heads| - 1].manifest);
    var v1, v2 := FetchingSucceeds(w.digest, w.heads, v);
    FilledCaches(w.digest, v.cache, v.tree);
    var v3 := v2.(base := v.tree, revision := |w.heads| - 1, cache := Filled(w.digest, v.cache, v.tree),
                  unfinished := false, phase := Idle);
    assert FinishUnchanged(w.digest, w.heads, v2, v3);
    var vs := [v, v1, v2, v3];
    LiftedIsChain(w, d, vs);
    ws := Lifted(w, d, vs);
  }

  lemma StepsKeepDeviceOk(digest: Digest, heads: seq<Head>, vs: seq<Device>)
    requires HeadsOk(heads) && |vs| == 6 && DeviceOk(digest, heads, vs[0]) && SyncSteps(digest, heads, vs)
    ensures DeviceOk(digest, heads, vs[5])
  {
    forall a, b | DeviceOk(digest, heads, a) && SyncStep(digest, heads, a, b) ensures DeviceOk(digest, heads, b) {
      ProtocolSafety.LocalStepKeeps(digest, heads, a, b);
    }
    Runs.Preserved(vs, 0, 5, (a, b) => SyncStep(digest, heads, a, b), v => DeviceOk(digest, heads, v));
  }

  lemma AppliedIsOnLast(digest: Digest, heads: seq<Head>, v: Device)
    requires HeadsOk(heads) && DeviceOk(digest, heads, v) && v.phase.Applied?
    requires ReadsLast(heads, v.phase.run.sync) && SameContent(v.tree, v.phase.run.combined)
    ensures AppliedOnLast(heads, v)
  {
  }

  /** A whole attempt of a device up to the application: what it applied is a combination on the last head. */
  lemma AttemptOfDevice(digest: Digest, heads: seq<Head>, v: Device) returns (vs: seq<Device>)
    requires AtRest(digest, heads, v) && Needed(heads, v)
    ensures |vs| == 6 && vs[0] == v && SyncSteps(digest, heads, vs) && Fetch(heads, vs[1], vs[2])
    ensures AppliedOnLast(heads, vs[5]) && Remembers(digest, v, vs[5])
  {
    vs := AttemptReachesApply(digest, heads, v);
    AttemptRead(digest, heads, v, vs);
    AttemptIsSteps(digest, heads, v, vs);
    StepsKeepDeviceOk(digest, heads, vs);
    AppliedIsOnLast(digest, heads, vs[5]);
  }

  lemma AttemptReachesApplied(w: World, d: nat) returns (ws: seq<World>)
    requires d in w.devices && AtRest(w.digest, w.heads, w.devices[d]) && Needed(w.heads, w.devices[d])
    ensures |ws| == 6 && ws[0] == w && Runs.Chain(ws, (a, b) => Unedited(a, b)) && Fetches(ws[1], ws[2], d)
    ensures Kept(w, ws[5], d) && ws[5].heads == w.heads && AppliedOnLast(w.heads, ws[5].devices[d])
    ensures Remembers(w.digest, w.devices[d], ws[5].devices[d])
  {
    var vs := AttemptOfDevice(w.digest, w.heads, w.devices[d]);
    LiftedIsChain(w, d, vs);
    ws := Lifted(w, d, vs);
    LiftedEnds(w, d, vs);
  }

  lemma LiftedEnds(w: World, d: nat, vs: seq<Device>)
    requires d in w.devices && |vs| == 6 && Fetch(w.heads, vs[1], vs[2])
    ensures
      var ws := Lifted(w, d, vs);
      && Fetches(ws[1], ws[2], d) && Kept(w, ws[5], d) && ws[5].heads == w.heads && ws[5].devices[d] == vs[5]
  {
  }

  // ---------------------------------------------------------------- the theorem

  lemma AppliedFinishes(w: World, d: nat) returns (ws: seq<World>)
    requires d in w.devices && AppliedOnLast(w.heads, w.devices[d])
    ensures |ws| > 1 && ws[0] == w && Runs.Chain(ws, (a, b) => Unedited(a, b))
    ensures
      var w', v := ws[|ws| - 1], w.devices[d];
      && Finishes(ws[|ws| - 2], w', d) && Kept(w, w', d) && Finished(w'.heads, w'.devices[d])
      && w'.heads == (if RequiresPublication(v.phase.run.sync)
                      then w.heads + [Head(v.phase.manifest, Some(v.phase.run))] else w.heads)
      && w'.devices[d].cache == v.cache && w'.devices[d].tree == v.tree
  {
    if RequiresPublication(w.devices[d].phase.run.sync) {
      ws := PublicationFinishes(w, d);
    } else {
      ws := DownloadFinishes(w, d);
    }
  }

  /** A device at rest whose base is at hand can always complete an attempt: it ends with its tree and its
      base equal to the last head, and one head was added exactly if it had something to say. */
  lemma AttemptCompletes(w: World, d: nat) returns (ws: seq<World>)
    requires d in w.devices && AtRest(w.digest, w.heads, w.devices[d])
    ensures |ws| > 3 && ws[0] == w && Runs.Chain(ws, (a, b) => Unedited(a, b))
    ensures FetchesAt(ws, 1, d) && FinishesAt(ws, |ws| - 2, d)
    ensures Completed(w, ws[|ws| - 1], d)
  {
    var v, last := w.devices[d], w.heads[|w.heads| - 1].manifest;
    if !Needed(w.heads, v) {
      ws := UnchangedFinishes(w, d);
      EqualIsPassive(v.base, v.tree, last);
    } else {
      var first := AttemptReachesApplied(w, d);
      var rest := AppliedFinishes(first[5], d);
      Runs.Append(first, rest, (a, b) => Unedited(a, b));
      ws := first + rest[1..];
      assert ws[|ws| - 1] == rest[|rest| - 1] && ws[|ws| - 2] == rest[|rest| - 2];
      CompletedFromApplied(w, first[5], rest[|rest| - 1], d);
    }
  }

  lemma CompletedFromApplied(w: World, w': World, w'': World, d: nat)
    requires Kept(w, w', d) && w'.heads == w.heads && AppliedOnLast(w.heads, w'.devices[d])
    requires Remembers(w.digest, w.devices[d], w'.devices[d])
    requires
      var v := w'.devices[d];
      && Kept(w', w'', d) && Finished(w''.heads, w''.devices[d])
      && w''.heads == (if RequiresPublication(v.phase.run.sync)
                       then w.heads + [Head(v.phase.manifest, Some(v.phase.run))] else w.heads)
      && w''.devices[d].cache == v.cache && w''.devices[d].tree == v.tree
    ensures Completed(w, w'', d)
  {
    var v, s := w.devices[d], w'.devices[d].phase.run.sync;
    PassiveExactly(s);
    SameSymmetric(s.local, v.tree);
    if Passive(v.base, v.tree, s.remote) { PassiveByContent(v.base, v.tree, s.remote, s.base, s.local, s.remote); }
    if Passive(s.base, s.local, s.remote) { PassiveByContent(s.base, s.local, s.remote, v.base, v.tree, s.remote); }
  }

  // ---------------------------------------------------------------- the environment

  /** The world with the device changed. */
  function WithDevice(w: World, d: nat, v: Device): World {
    w.(devices := w.devices[d := v])
  }

  lemma LocalStepHappens(w: World, d: nat, v: Device)
    requires d in w.devices && LocalStep(w.digest, w.heads, w.devices[d], v)
    ensures Next(w, WithDevice(w, d, v))
  {
    assert Moves(w, WithDevice(w, d, v), d);
  }

  /** Files can be edited whatever the device is doing. */
  lemma EditsHappenAnytime(w: World, d: nat, tree: Entries)
    requires d in w.devices && Closed(tree) && ValidPaths(tree)
    ensures Next(w, WithDevice(w, d, w.devices[d].(tree := tree)))
  {
    assert Edit(w.devices[d], w.devices[d].(tree := tree));
    LocalStepHappens(w, d, w.devices[d].(tree := tree));
  }

  /** A device can crash whatever it is doing. */
  lemma CrashesHappenAnytime(w: World, d: nat)
    requires d in w.devices
    ensures Next(w, WithDevice(w, d, w.devices[d].(phase := Idle)))
  {
    LocalStepHappens(w, d, w.devices[d].(phase := Idle));
  }

  /** At rest any record can be resolved, with any outcome for the files. */
  lemma ResolutionsHappen(w: World, d: nat, p: Path, tree: Entries)
    requires d in w.devices && w.devices[d].phase.Idle? && p in w.devices[d].conflicts
    requires Closed(tree) && ValidPaths(tree)
    ensures Next(w, WithDevice(w, d, w.devices[d].(tree := tree, conflicts := w.devices[d].conflicts - {p})))
  {
    var v' := w.devices[d].(tree := tree, conflicts := w.devices[d].conflicts - {p});
    assert Resolve(w.devices[d], v');
    LocalStepHappens(w, d, v');
  }

  /** Every compare-and-set that succeeds can lose its reply. */
  lemma RepliesGetLost(w: World, d: nat, stored: Entries)
    requires d in w.devices && w.devices[d].phase.Saved? && RequiresPublication(w.devices[d].phase.run.sync)
    requires |w.heads| == w.devices[d].phase.run.sync.revision + 1
    requires SameContent(stored, w.devices[d].phase.manifest)
    ensures
      var v := w.devices[d];
      Next(w, WithDevice(w, d, v.(phase := Idle)).(heads := w.heads + [Head(stored, Some(v.phase.run))]))
  {
    var v := w.devices[d];
    var w' := WithDevice(w, d, v.(phase := Idle)).(heads := w.heads + [Head(stored, Some(v.phase.run))]);
    assert Publish(v, w.heads, w'.devices[d], w'.heads);
    assert Moves(w, w', d);
  }
}
