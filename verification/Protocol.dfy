/** Many devices synchronizing through one head that is published by compare-and-set. */
module Protocol {
  import opened Options
  import opened Data
  import opened Paths
  import opened Manifests
  import opened Reconciliation
  import opened Combination
  import Runs

  // ---------------------------------------------------------------- state

  /** One reconciliation as it was computed: what it read, the revision its base was synchronized at,
      and the combination it produced. */
  datatype Run = Run(
    sync: Sync,
    baseRevision: nat,
    recorded: set<Path>,
    names: map<Path, Path>,
    combined: Entries)

  /** A published head. `from` is history, kept only to state where the manifest came from. */
  datatype Head = Head(manifest: Entries, from: Option<Run>)

  /** Where a device is inside `sync`: everything here is lost in a crash. */
  datatype Phase =
    | Idle
    | Scanned(local: Entries)
    | Fetched(local: Entries, revision: nat)
    | Staged(sync: Sync, baseRevision: nat)
    | Recorded(run: Run)
    | Applied(run: Run, manifest: Entries)
    | Saved(run: Run, manifest: Entries)
    | Published(manifest: Entries, revision: nat)
    | Pulling(local: Entries, revision: nat)

  /** A device: its working tree, the saved sync state and the blob cache. An absent saved base reads
      as the empty manifest of revision 0. `unfinished` is history: the base was saved before the
      merged result was published. */
  datatype Device = Device(
    tree: Entries,
    base: Entries,
    revision: nat,
    conflicts: map<Path, ConflictRecord>,
    cache: map<string, Bytes>,
    unfinished: bool,
    phase: Phase)

  /** `heads[n]` is the manifest published at revision `n`; revision 0 is the empty workspace. */
  datatype World = World(digest: Digest, devices: map<nat, Device>, heads: seq<Head>)

  // ---------------------------------------------------------------- steps

  /** The user changes files at any time. */
  ghost predicate Edit(v: Device, v': Device) {
    v' == v.(tree := v'.tree) && Closed(v'.tree) && ValidPaths(v'.tree)
  }

  ghost predicate Scan(v: Device, v': Device) {
    v.phase.Idle? && v'.phase.Scanned? && SameContent(v'.phase.local, v.tree)
    && v' == v.(phase := v'.phase)
  }

  ghost predicate Fetch(heads: seq<Head>, v: Device, v': Device) {
    v.phase.Scanned? && |heads| > 0 && v' == v.(phase := Fetched(v.phase.local, |heads| - 1))
  }

  ghost predicate NothingToDo(base: Entries, local: Entries, remote: Entries) {
    forall p | Planned(base, local, remote, p) :: ActionAt(base, local, remote, p) == Unchanged
  }

  ghost predicate Hashed(digest: Digest, blobs: map<string, Bytes>) {
    forall h | h in blobs :: digest.hash(blobs[h]) == h
  }

  ghost predicate Holds(blobs: map<string, Bytes>, m: Entries) {
    forall p | p in m && m[p].File? :: m[p].file.contentHash in blobs
  }

  function FileHashes(m: Entries): set<string> {
    set p | p in m && m[p].File? :: m[p].file.contentHash
  }

  /** Staging adds the missing blobs of a manifest to the cache, and no others, and drops none. */
  ghost predicate Caches(digest: Digest, before: map<string, Bytes>, after: map<string, Bytes>, m: Entries) {
    before.Keys <= after.Keys <= before.Keys + FileHashes(m) && Holds(after, m) && Hashed(digest, after)
  }

  /** The plan has no changes: the base moves to the staged manifest at once. */
  ghost predicate FinishUnchanged(digest: Digest, heads: seq<Head>, v: Device, v': Device) {
    && v.phase.Fetched? && v.phase.revision < |heads|
    && NothingToDo(v.base, v.phase.local, heads[v.phase.revision].manifest)
    && SameContent(v'.base, v.tree) && SameContent(v.phase.local, v'.base)
    && Caches(digest, v.cache, v'.cache, v'.base)
    && v' == v.(base := v'.base, revision := v.phase.revision, cache := v'.cache, unfinished := false, phase := Idle)
  }

  /** Otherwise the tree is staged, the cached base is loaded and the remote files are downloaded.
      A missing cached base file makes this step impossible: the attempt aborts instead. */
  ghost predicate Stage(digest: Digest, heads: seq<Head>, v: Device, v': Device) {
    && v.phase.Fetched? && v.phase.revision < |heads| && v'.phase.Staged?
    && !NothingToDo(v.base, v.phase.local, heads[v.phase.revision].manifest)
    && var s := v'.phase.sync;
    && s.base == v.base && s.remote == heads[v.phase.revision].manifest && s.revision == v.phase.revision
    && SameContent(s.local, v.tree) && SameContent(v.phase.local, s.local)
    && s.digest == digest && Hashed(digest, s.baseBlobs) && Hashed(digest, s.localBlobs)
    && Hashed(digest, s.remoteBlobs)
    && Holds(s.baseBlobs, s.base) && Holds(s.localBlobs, s.local)
    && Holds(s.baseBlobs + s.localBlobs + s.remoteBlobs, s.remote)
    && Caches(digest, v.cache, v'.cache, s.local) && Holds(v'.cache, s.base)
    && v' == v.(cache := v'.cache, phase := Staged(s, v.revision))
  }

  /** The tree is checked and the conflicts are saved, before anything is applied: an attempt that ends
      here leaves records without an applied combination. */
  ghost predicate RecordConflicts(v: Device, v': Device) {
    && v.phase.Staged? && v'.phase.Recorded?
    && var run := v'.phase.run;
    && run.sync == v.phase.sync && run.baseRevision == v.phase.baseRevision
    && run.recorded == RecordedCopies(v.conflicts)
    && SameContent(run.sync.local, v.tree)
    && IsCombination(run.sync, run.recorded, run.combined, run.names)
    && RecordsConflicts(run.sync, v.conflicts, v'.conflicts, run.names)
    && v' == v.(conflicts := v'.conflicts, phase := v'.phase)
  }

  /** The combination is applied and the tree restaged. */
  ghost predicate Apply(digest: Digest, v: Device, v': Device) {
    && v.phase.Recorded? && v'.phase.Applied?
    && var run := v'.phase.run;
    && run == v.phase.run && SameContent(run.sync.local, v.tree)
    && SameContent(v'.tree, run.combined) && SameContent(v'.phase.manifest, run.combined)
    && Caches(digest, v.cache, v'.cache, v'.phase.manifest)
    && v' == v.(tree := v'.tree, cache := v'.cache, phase := v'.phase)
  }

  /** The base moves to the remote manifest that the tree now contains. */
  ghost predicate SaveBase(v: Device, v': Device) {
    && v.phase.Applied?
    && v' == v.(base := v.phase.run.sync.remote, revision := v.phase.run.sync.revision, unfinished := true,
                phase := Saved(v.phase.run, v.phase.manifest))
  }

  ghost predicate RequiresPublication(s: Sync) {
    exists p :: PlannedIn(s, p) && (Act(s, p) == Upload || Act(s, p) == Merge || Act(s, p) == Conflict)
  }

  ghost predicate FinishDownload(v: Device, v': Device) {
    && v.phase.Saved? && !RequiresPublication(v.phase.run.sync)
    && v' == v.(base := v.phase.manifest, unfinished := false, phase := Idle)
  }

  /** The compare-and-set succeeds. The reply arrives, or is lost and the attempt fails. */
  ghost predicate Publish(v: Device, heads: seq<Head>, v': Device, heads': seq<Head>) {
    && v.phase.Saved? && RequiresPublication(v.phase.run.sync)
    && |heads| == v.phase.run.sync.revision + 1
    && |heads'| == |heads| + 1 && heads' == heads + [heads'[|heads|]]
    && SameContent(heads'[|heads|].manifest, v.phase.manifest) && heads'[|heads|].from == Some(v.phase.run)
    && (v' == v.(phase := Published(v.phase.manifest, |heads|)) || v' == v.(phase := Idle))
  }

  ghost predicate Confirm(v: Device, v': Device) {
    && v.phase.Published?
    && v' == v.(base := v.phase.manifest, revision := v.phase.revision, unfinished := false, phase := Idle)
  }

  /** A lost race, an error or a crash: memory is gone, the disk stays. A retry is a new attempt. */
  ghost predicate Abort(v: Device, v': Device) {
    v' == v.(phase := Idle)
  }

  ghost predicate PullFetch(heads: seq<Head>, v: Device, v': Device) {
    && v.phase.Idle? && |heads| > 0 && v'.phase.Pulling? && v'.phase.revision == |heads| - 1
    && SameContent(v'.phase.local, v.tree) && v' == v.(phase := v'.phase)
  }

  /** `--discard-local`: the head replaces the tree and the recorded conflicts. */
  ghost predicate PullApply(digest: Digest, heads: seq<Head>, v: Device, v': Device) {
    && v.phase.Pulling? && v.phase.revision < |heads|
    && (v.phase.revision == 0 || SameContent(v.phase.local, v.tree))
    && v'.base == heads[v.phase.revision].manifest && SameContent(v'.tree, v'.base)
    && Caches(digest, v.cache, v'.cache, v'.base)
    && v' == v.(tree := v'.tree, base := v'.base, revision := v.phase.revision, conflicts := map[],
                cache := v'.cache, unfinished := false, phase := Idle)
  }

  /** `resolve` changes files and forgets one record. */
  ghost predicate Resolve(v: Device, v': Device) {
    && v.phase.Idle? && Closed(v'.tree) && ValidPaths(v'.tree)
    && (exists p :: p in v.conflicts && v'.conflicts == v.conflicts - {p})
    && v' == v.(tree := v'.tree, conflicts := v'.conflicts)
  }

  /** The steps of `sync` that leave the server alone. */
  ghost predicate SyncStep(digest: Digest, heads: seq<Head>, v: Device, v': Device) {
    || Scan(v, v') || Fetch(heads, v, v') || FinishUnchanged(digest, heads, v, v') || Stage(digest, heads, v, v')
    || RecordConflicts(v, v') || Apply(digest, v, v') || SaveBase(v, v') || FinishDownload(v, v') || Confirm(v, v')
  }

  ghost predicate LocalStep(digest: Digest, heads: seq<Head>, v: Device, v': Device) {
    || SyncStep(digest, heads, v, v') || Edit(v, v') || Abort(v, v')
    || PullFetch(heads, v, v') || PullApply(digest, heads, v, v') || Resolve(v, v')
  }

  ghost predicate Moves(w: World, w': World, d: nat) {
    && d in w.devices && w'.devices.Keys == w.devices.Keys && w'.digest == w.digest
    && (forall e | e in w.devices && e != d :: w'.devices[e] == w.devices[e])
  }

  ghost predicate Next(w: World, w': World) {
    exists d ::
      && Moves(w, w', d)
      && ((LocalStep(w.digest, w.heads, w.devices[d], w'.devices[d]) && w'.heads == w.heads)
          || Publish(w.devices[d], w.heads, w'.devices[d], w'.heads))
  }

  ghost predicate Fresh(v: Device) {
    && Closed(v.tree) && ValidPaths(v.tree) && v.base == map[] && v.revision == 0 && v.conflicts == map[]
    && v.cache == map[] && !v.unfinished && v.phase == Idle
  }

  ghost predicate Init(w: World) {
    w.heads == [Head(map[], None)] && forall d | d in w.devices :: Fresh(w.devices[d])
  }

  ghost predicate Execution(ws: seq<World>) {
    |ws| > 0 && Init(ws[0]) && Runs.Chain(ws, (a, b) => Next(a, b))
  }

  // ---------------------------------------------------------------- invariant

  /** A run that read the head `sync.revision` and the base `baseRevision` of this history. */
  ghost predicate Reads(heads: seq<Head>, s: Sync, baseRevision: nat) {
    && ClosedInputs(s) && ValidPaths(s.local)
    && baseRevision <= s.revision < |heads|
    && s.remote == heads[s.revision].manifest
    && SameContent(s.base, heads[baseRevision].manifest)
  }

  ghost predicate RunOk(heads: seq<Head>, run: Run) {
    Reads(heads, run.sync, run.baseRevision) && IsCombination(run.sync, run.recorded, run.combined, run.names)
  }

  ghost predicate HeadsOk(heads: seq<Head>) {
    && |heads| > 0 && heads[0].manifest == map[]
    && (forall n | 0 <= n < |heads| :: Closed(heads[n].manifest) && ValidPaths(heads[n].manifest))
    && (forall n | 0 < n < |heads| ::
          && heads[n].from.Some?
          && heads[n].from.value.sync.revision == n - 1
          && RunOk(heads, heads[n].from.value)
          && SameContent(heads[n].manifest, heads[n].from.value.combined))
  }

  ghost predicate PhaseOk(heads: seq<Head>, v: Device) {
    match v.phase
    case Idle => true
    case Scanned(local) => Closed(local)
    case Fetched(local, revision) => Closed(local) && v.revision <= revision < |heads|
    case Staged(s, baseRevision) => Reads(heads, s, baseRevision)
    case Recorded(run) => RunOk(heads, run)
    case Applied(run, manifest) => RunOk(heads, run) && SameContent(manifest, run.combined) && Holds(v.cache, manifest)
    case Saved(run, manifest) => RunOk(heads, run) && SameContent(manifest, run.combined) && Holds(v.cache, manifest)
                                 && v.revision == run.sync.revision
    case Published(manifest, revision) => revision < |heads| && SameContent(manifest, heads[revision].manifest)
                                          && Holds(v.cache, manifest)
    case Pulling(local, revision) => revision < |heads|
  }

  ghost predicate DeviceOk(digest: Digest, heads: seq<Head>, v: Device) {
    && Closed(v.tree) && ValidPaths(v.tree)
    && v.revision < |heads| && SameContent(v.base, heads[v.revision].manifest)
    && Hashed(digest, v.cache)
    && (!v.unfinished ==> Holds(v.cache, v.base))
    && PhaseOk(heads, v)
  }

  ghost predicate Inv(w: World) {
    HeadsOk(w.heads) && forall d | d in w.devices :: DeviceOk(w.digest, w.heads, w.devices[d])
  }

  lemma SameFileHashes(a: Entries, b: Entries)
    requires SameContent(a, b)
    ensures FileHashes(a) == FileHashes(b)
  {
    forall p ensures p in a && a[p].File? <==> p in b && b[p].File? { assert At(a, p) == At(b, p); }
    forall p | p in a && a[p].File? ensures a[p].file.contentHash == b[p].file.contentHash {
      assert At(a, p) == At(b, p);
    }
  }

  lemma SameTransitive(a: Entries, b: Entries, c: Entries)
    requires SameContent(a, b) && SameContent(b, c)
    ensures SameContent(a, c)
  {
  }

  lemma SameSymmetric(a: Entries, b: Entries)
    requires SameContent(a, b)
    ensures SameContent(b, a)
  {
  }
}
