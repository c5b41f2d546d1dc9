/** Convergence: once editing stops, every device completing one sync and then another suffices. */
module Convergence {
  import opened Data
  import opened Paths
  import opened Manifests
  import opened Reconciliation
  import opened Combination
  import opened Protocol
  import CombinationTheorems
  import ProtocolSafety
  import Runs

  // ---------------------------------------------------------------- attempts that publish nothing

  /** At this path the local side has nothing to say: it agrees with the remote side, or is as in the base,
      in its whole subtree where a directory meets a file. */
  ghost predicate PassiveAt(base: Entries, local: Entries, remote: Entries, p: Path) {
    || At(local, p) == At(remote, p)
    || (At(local, p) == At(base, p) && (Structural(local, remote, p) ==> SubtreesEqual(base, local, p)))
  }

  ghost predicate Passive(base: Entries, local: Entries, remote: Entries) {
    forall p :: PassiveAt(base, local, remote, p)
  }

  lemma PassiveAction(base: Entries, local: Entries, remote: Entries, p: Path)
    ensures PassiveAt(base, local, remote, p)
      <==> ActionAt(base, local, remote, p) == Unchanged || ActionAt(base, local, remote, p) == Download
  {
    ActionIsDecided(base, local, remote, p);
    SubtreeContent(base, local, p);
    assert AtOrUnder(p, p);
  }

  lemma ConflictIsPublished(s: Sync, r: Path)
    requires PlannedIn(s, r) && Clash(s.base, s.local, s.remote, r)
    ensures RequiresPublication(s)
  {
  }

  /** An attempt publishes nothing exactly when its local side is passive at every path. */
  lemma PassiveExactly(s: Sync)
    ensures !RequiresPublication(s) <==> Passive(s.base, s.local, s.remote)
  {
    forall p ensures PassiveAt(s.base, s.local, s.remote, p) <==> Act(s, p) == Unchanged || Act(s, p) == Download {
      PassiveAction(s.base, s.local, s.remote, p);
    }
    if !RequiresPublication(s) {
      forall p ensures PassiveAt(s.base, s.local, s.remote, p) {
        if p in AllKeys(s) && Covered(s.base, s.local, s.remote, p) {
          var r := RootAbove(s.base, s.local, s.remote, p);
          ConflictIsPublished(s, r);
        } else if p in AllKeys(s) {
          assert PlannedIn(s, p);
        }
      }
    }
  }

  lemma PassiveByContent(
    base: Entries, local: Entries, remote: Entries, base': Entries, local': Entries, remote': Entries)
    requires Passive(base, local, remote)
    requires SameContent(base, base') && SameContent(local, local') && SameContent(remote, remote')
    ensures Passive(base', local', remote')
  {
    forall p ensures PassiveAt(base', local', remote', p) {
      assert PassiveAt(base, local, remote, p);
      PassiveAction(base, local, remote, p);
      PassiveAction(base', local', remote', p);
      ActionByContent(base, local, remote, base', local', remote', p);
    }
  }

  lemma EqualIsPassive(base: Entries, local: Entries, remote: Entries)
    requires SameContent(local, remote)
    ensures Passive(base, local, remote)
  {
  }

  // ---------------------------------------------------------------- runs without edits

  /** Any step of one device except an edit, including a crash at any point. */
  ghost predicate UneditedMove(w: World, w': World, d: nat) {
    && Moves(w, w', d)
    && (((SyncStep(w.digest, w.heads, w.devices[d], w'.devices[d]) || Abort(w.devices[d], w'.devices[d]))
           && w'.heads == w.heads)
        || Publish(w.devices[d], w.heads, w'.devices[d], w'.heads))
  }

  ghost predicate Unedited(w: World, w': World) {
    exists d :: UneditedMove(w, w', d)
  }

  /** Synchronizations of all devices, interleaved in any way, with races, lost replies and crashes at any
      point, but no edits. */
  ghost predicate QuietRun(ws: seq<World>) {
    && |ws| > 0 && Inv(ws[0])
    && (forall d | d in ws[0].devices :: ws[0].devices[d].phase == Idle)
    && Runs.Chain(ws, (a, b) => Unedited(a, b))
  }

  /** A crash after the combination was applied and before the base was saved. */
  ghost predicate Interrupts(w: World, w': World, d: nat) {
    && d in w.devices && d in w'.devices && w'.heads == w.heads
    && w.devices[d].phase.Applied? && Abort(w.devices[d], w'.devices[d])
  }

  ghost predicate InterruptsAt(ws: seq<World>, k: nat, d: nat) {
    k + 1 < |ws| && Interrupts(ws[k], ws[k + 1], d)
  }

  /** Such a crash does no harm if the device is left passive towards the last head. */
  ghost predicate Harmless(heads: seq<Head>, v: Device) {
    |heads| > 0 && Passive(v.base, v.tree, heads[|heads| - 1].manifest)
  }

  ghost predicate OnlyHarmlessFrom(ws: seq<World>, i: nat) {
    forall k: nat, d | i <= k && InterruptsAt(ws, k, d) :: Harmless(ws[k].heads, ws[k].devices[d])
  }

  ghost predicate FinishesAt(ws: seq<World>, c: nat, d: nat) {
    c + 1 < |ws| && Finishes(ws[c], ws[c + 1], d)
  }

  ghost predicate FetchesAt(ws: seq<World>, f: nat, d: nat) {
    f + 1 < |ws| && Fetches(ws[f], ws[f + 1], d)
  }

  /** The device completed a synchronization in world `c`, and up to world `i` no later attempt was
      interrupted between applying and saving. */
  ghost predicate FinishedSince(ws: seq<World>, c: nat, i: nat, d: nat) {
    c < i && FinishesAt(ws, c, d) && forall k | c < k < i :: !InterruptsAt(ws, k, d)
  }

  ghost predicate AllFinished(ws: seq<World>, i: nat) {
    |ws| > 0 && forall d | d in ws[0].devices :: exists c: nat :: FinishedSince(ws, c, i, d)
  }

  /** The device completes a synchronization. */
  ghost predicate Finishes(w: World, w': World, d: nat) {
    && Moves(w, w', d) && w'.heads == w.heads
    && var v, v' := w.devices[d], w'.devices[d];
    FinishUnchanged(w.digest, w.heads, v, v') || FinishDownload(v, v') || Confirm(v, v')
  }

  ghost predicate Fetches(w: World, w': World, d: nat) {
    Moves(w, w', d) && w'.heads == w.heads && Fetch(w.heads, w.devices[d], w'.devices[d])
  }

  // ---------------------------------------------------------------- tracking the tree

  /** Without edits, what an attempt remembers of the tree stays true. */
  ghost predicate Tracks(v: Device) {
    match v.phase
    case Idle => true
    case Scanned(local) => SameContent(local, v.tree)
    case Fetched(local, _) => SameContent(local, v.tree)
    case Staged(s, _) => SameContent(s.local, v.tree)
    case Recorded(run) => SameContent(run.sync.local, v.tree)
    case Applied(_, manifest) => SameContent(manifest, v.tree)
    case Saved(_, manifest) => SameContent(manifest, v.tree)
    case Published(manifest, _) => SameContent(manifest, v.tree)
    case Pulling(_, _) => false
  }

  lemma SyncStepTracks(digest: Digest, heads: seq<Head>, v: Device, v': Device)
    requires Tracks(v) && SyncStep(digest, heads, v, v')
    ensures Tracks(v')
  {
    if Apply(digest, v, v') {
      SameSymmetric(v'.tree, v'.phase.run.combined);
      SameTransitive(v'.phase.manifest, v'.phase.run.combined, v'.tree);
    }
  }

  // ---------------------------------------------------------------- settled devices

  /** The device has nothing to publish: its tree is its base, or a fast-forward of it is under way. */
  ghost predicate Settled(heads: seq<Head>, v: Device) {
    match v.phase
    case Idle => SameContent(v.tree, v.base)
    case Scanned(_) => SameContent(v.tree, v.base)
    case Fetched(_, _) => SameContent(v.tree, v.base)
    case Staged(s, _) => SameContent(v.tree, v.base) && SameContent(s.base, s.local)
    case Recorded(run) => SameContent(v.tree, v.base) && SameContent(run.sync.base, run.sync.local)
    case Applied(run, _) => FastForwarded(heads, v, run)
    case Saved(run, _) => FastForwarded(heads, v, run) && v.base == run.sync.remote
    case Published(_, _) => false
    case Pulling(_, _) => false
  }

  ghost predicate FastForwarded(heads: seq<Head>, v: Device, run: Run) {
    && run.sync.revision < |heads| && run.sync.remote == heads[run.sync.revision].manifest
    && SameContent(v.tree, run.sync.remote) && !RequiresPublication(run.sync)
  }

  /** Completing a synchronization settles the device. */
  lemma FinishingSettles(digest: Digest, heads: seq<Head>, v: Device, v': Device)
    requires Tracks(v)
    requires FinishUnchanged(digest, heads, v, v') || FinishDownload(v, v') || Confirm(v, v')
    ensures Settled(heads, v')
  {
  }

  /** A combination over an unchanged local side is the remote manifest, and needs no publication. */
  lemma SettledApply(digest: Digest, heads: seq<Head>, v: Device, v': Device)
    requires Settled(heads, v) && DeviceOk(digest, heads, v) && Apply(digest, v, v')
    ensures FastForwarded(heads, v', v'.phase.run)
  {
    var run := v'.phase.run;
    CombinationTheorems.FastForwardTakesRemote(run.sync, run.recorded, run.combined, run.names);
    SameTransitive(v'.tree, run.combined, run.sync.remote);
    if RequiresPublication(run.sync) {
      var p :| PlannedIn(run.sync, p)
        && (Act(run.sync, p) == Upload || Act(run.sync, p) == Merge || Act(run.sync, p) == Conflict);
      assert false;
    }
  }

  lemma SettledStage(digest: Digest, heads: seq<Head>, v: Device, v': Device)
    requires Settled(heads, v) && Stage(digest, heads, v, v')
    ensures Settled(heads, v')
  {
  }

  lemma SettledStaysSettled(digest: Digest, heads: seq<Head>, v: Device, v': Device)
    requires Tracks(v) && Settled(heads, v) && DeviceOk(digest, heads, v)
    requires SyncStep(digest, heads, v, v') || (Abort(v, v') && !v.phase.Applied?)
    ensures Settled(heads, v')
  {
    if FinishUnchanged(digest, heads, v, v') || FinishDownload(v, v') || Confirm(v, v') {
      FinishingSettles(digest, heads, v, v');
    } else if Stage(digest, heads, v, v') {
      SettledStage(digest, heads, v, v');
    } else if Apply(digest, v, v') {
      SettledApply(digest, heads, v, v');
    } else {
      OtherStepsStaySettled(digest, heads, v, v');
    }
  }

  lemma OtherStepsStaySettled(digest: Digest, heads: seq<Head>, v: Device, v': Device)
    requires Settled(heads, v)
    requires || Scan(v, v') || Fetch(heads, v, v') || RecordConflicts(v, v') || SaveBase(v, v')
             || (Abort(v, v') && !v.phase.Applied?)
    ensures Settled(heads, v')
  {
  }

  // ---------------------------------------------------------------- at the head

  /** An attempt under way, if any, has fetched the last head. */
  ghost predicate Current(heads: seq<Head>, v: Device) {
    match v.phase
    case Fetched(_, revision) => revision == |heads| - 1
    case Staged(s, _) => s.revision == |heads| - 1
    case Recorded(run) => run.sync.revision == |heads| - 1
    case Applied(run, _) => run.sync.revision == |heads| - 1
    case Saved(run, _) => run.sync.revision == |heads| - 1
    case _ => true
  }

  ghost predicate TreeIsHead(heads: seq<Head>, v: Device) {
    |heads| > 0 && SameContent(v.tree, heads[|heads| - 1].manifest)
  }

  lemma CurrentStaysCurrent(digest: Digest, heads: seq<Head>, v: Device, v': Device)
    requires Current(heads, v) && (SyncStep(digest, heads, v, v') || Abort(v, v'))
    ensures Current(heads, v')
  {
  }

  lemma FinishUnchangedReachesHead(digest: Digest, heads: seq<Head>, v: Device, v': Device)
    requires Tracks(v) && Current(heads, v) && FinishUnchanged(digest, heads, v, v')
    ensures TreeIsHead(heads, v')
  {
    var head := heads[v.phase.revision].manifest;
    ProtocolSafety.NothingToDoMeansEqual(v.base, v.phase.local, head);
    SameSymmetric(v.phase.local, v.tree);
    SameTransitive(v.tree, v.phase.local, head);
  }

  lemma FinishDownloadReachesHead(heads: seq<Head>, v: Device, v': Device)
    requires Settled(heads, v) && Current(heads, v) && (FinishDownload(v, v') || Confirm(v, v'))
    ensures TreeIsHead(heads, v')
  {
  }

  lemma FinishingCurrentReachesHead(digest: Digest, heads: seq<Head>, v: Device, v': Device)
    requires Tracks(v) && Calm(heads, v) && Current(heads, v)
    requires FinishUnchanged(digest, heads, v, v') || FinishDownload(v, v') || Confirm(v, v')
    ensures TreeIsHead(heads, v')
  {
    if FinishUnchanged(digest, heads, v, v') {
      FinishUnchangedReachesHead(digest, heads, v, v');
    } else {
      FinishDownloadReachesHead(heads, v, v');
    }
  }

  lemma ApplyReachesHead(digest: Digest, heads: seq<Head>, v: Device, v': Device)
    requires Settled(heads, v) && Current(heads, v) && DeviceOk(digest, heads, v) && Apply(digest, v, v')
    ensures TreeIsHead(heads, v')
  {
    SettledApply(digest, heads, v, v');
  }

  lemma SameTreeStaysAtHead(heads: seq<Head>, v: Device, v': Device)
    requires TreeIsHead(heads, v) && v'.tree == v.tree
    ensures TreeIsHead(heads, v')
  {
  }

  lemma TreeStaysAtHead(digest: Digest, heads: seq<Head>, v: Device, v': Device)
    requires Tracks(v) && TreeIsHead(heads, v) && Calm(heads, v) && Current(heads, v) && DeviceOk(digest, heads, v)
    requires SyncStep(digest, heads, v, v') || Abort(v, v')
    ensures TreeIsHead(heads, v')
  {
    if Apply(digest, v, v') {
      if Settled(heads, v) { ApplyReachesHead(digest, heads, v, v'); } else { BehindApplies(digest, heads, v, v'); }
    } else {
      OnlyApplyWritesTheTree(digest, heads, v, v');
      SameTreeStaysAtHead(heads, v, v');
    }
  }

  lemma OnlyApplyWritesTheTree(digest: Digest, heads: seq<Head>, v: Device, v': Device)
    requires (SyncStep(digest, heads, v, v') && !Apply(digest, v, v')) || Abort(v, v')
    ensures v'.tree == v.tree
  {
  }

  // ---------------------------------------------------------------- calm devices

  /** The device has nothing to say although its tree is not its base: an attempt was interrupted between
      applying and saving. Any attempt under way has fetched the last head. */
  ghost predicate Behind(heads: seq<Head>, v: Device) {
    match v.phase
    case Idle => Harmless(heads, v)
    case Scanned(_) => Harmless(heads, v)
    case Fetched(_, revision) => Harmless(heads, v) && revision == |heads| - 1
    case Staged(s, _) => Harmless(heads, v) && ReadsLast(heads, s) && s.base == v.base
    case Recorded(run) => Harmless(heads, v) && ReadsLast(heads, run.sync) && run.sync.base == v.base
    case Applied(run, _) => ReadsLast(heads, run.sync) && TreeIsHead(heads, v) && !RequiresPublication(run.sync)
    case _ => false
  }

  ghost predicate ReadsLast(heads: seq<Head>, s: Sync) {
    |heads| > 0 && s.revision == |heads| - 1 && s.remote == heads[|heads| - 1].manifest
  }

  ghost predicate Calm(heads: seq<Head>, v: Device) {
    Settled(heads, v) || Behind(heads, v)
  }

  /** A device that is behind takes the last head as it is. */
  lemma BehindApplies(digest: Digest, heads: seq<Head>, v: Device, v': Device)
    requires Tracks(v) && Behind(heads, v) && DeviceOk(digest, heads, v) && Apply(digest, v, v')
    ensures Behind(heads, v')
  {
    var run := v.phase.run;
    SameSymmetric(run.sync.local, v.tree);
    PassiveByContent(v.base, v.tree, run.sync.remote, run.sync.base, run.sync.local, run.sync.remote);
    PassiveExactly(run.sync);
    ProtocolSafety.DownloadOnlyRunGivesHead(heads, run);
    SameTransitive(v'.tree, run.combined, run.sync.remote);
  }

  lemma BehindSaves(digest: Digest, heads: seq<Head>, v: Device, v': Device)
    requires Behind(heads, v) && SaveBase(v, v')
    ensures Settled(heads, v')
  {
  }

  lemma BehindGoesOn(digest: Digest, heads: seq<Head>, v: Device, v': Device)
    requires Behind(heads, v)
    requires Scan(v, v') || Fetch(heads, v, v') || Stage(digest, heads, v, v') || RecordConflicts(v, v')
    ensures Behind(heads, v')
  {
  }

  lemma BehindAborts(heads: seq<Head>, v: Device, v': Device)
    requires Behind(heads, v) && Abort(v, v')
    ensures Behind(heads, v')
  {
    if v.phase.Applied? { EqualIsPassive(v.base, v.tree, heads[|heads| - 1].manifest); }
  }

  lemma BehindStaysCalm(digest: Digest, heads: seq<Head>, v: Device, v': Device)
    requires Tracks(v) && Behind(heads, v) && DeviceOk(digest, heads, v)
    requires SyncStep(digest, heads, v, v') || Abort(v, v')
    ensures Calm(heads, v')
  {
    if Abort(v, v') {
      BehindAborts(heads, v, v');
    } else if FinishUnchanged(digest, heads, v, v') || FinishDownload(v, v') || Confirm(v, v') {
      FinishingSettles(digest, heads, v, v');
    } else if Apply(digest, v, v') {
      BehindApplies(digest, heads, v, v');
    } else if SaveBase(v, v') {
      BehindSaves(digest, heads, v, v');
    } else {
      BehindGoesOn(digest, heads, v, v');
    }
  }

  lemma CalmStaysCalm(digest: Digest, heads: seq<Head>, v: Device, v': Device)
    requires Tracks(v) && Calm(heads, v) && DeviceOk(digest, heads, v)
    requires SyncStep(digest, heads, v, v') || (Abort(v, v') && (v.phase.Applied? ==> Harmless(heads, v)))
    ensures Calm(heads, v')
  {
    if !Settled(heads, v) {
      BehindStaysCalm(digest, heads, v, v');
    } else if v.phase.Applied? && Abort(v, v') {
      assert Behind(heads, v');
    } else {
      SettledStaysSettled(digest, heads, v, v');
    }
  }

  /** What an interruption means: the next attempt of a device that had nothing to publish publishes exactly
      if at some path the applied head has something to say against the last head, with the saved one as
      base. The three heads decide. */
  lemma InterruptionPublishesExactly(digest: Digest, heads: seq<Head>, v: Device, v': Device, s: Sync)
    requires DeviceOk(digest, heads, v) && v.phase.Applied? && FastForwarded(heads, v, v.phase.run) && Abort(v, v')
    requires s.base == v'.base && SameContent(s.local, v'.tree) && ReadsLast(heads, s)
    ensures RequiresPublication(s)
      <==> !Passive(heads[v.revision].manifest, heads[v.phase.run.sync.revision].manifest, heads[|heads| - 1].manifest)
  {
    var saved, applied, last := heads[v.revision].manifest, v.phase.run.sync.remote, heads[|heads| - 1].manifest;
    SameTransitive(s.local, v'.tree, applied);
    PassiveExactly(s);
    if Passive(saved, applied, last) {
      SameSymmetric(s.base, saved);
      SameSymmetric(s.local, applied);
      PassiveByContent(saved, applied, last, s.base, s.local, s.remote);
    }
    if Passive(s.base, s.local, s.remote) { PassiveByContent(s.base, s.local, s.remote, saved, applied, last); }
  }

  // ---------------------------------------------------------------- quiet runs

  lemma MoveKeepsInv(w: World, w': World, d: nat)
    requires Inv(w) && UneditedMove(w, w', d)
    ensures Inv(w') && w.heads <= w'.heads && w'.devices.Keys == w.devices.Keys
  {
    if Publish(w.devices[d], w.heads, w'.devices[d], w'.heads) {
      ProtocolSafety.PublishMoveKeepsInv(w, w', d);
    } else {
      ProtocolSafety.LocalMoveKeepsInv(w, w', d);
    }
  }

  ghost predicate AllTrack(w: World) {
    forall d | d in w.devices :: Tracks(w.devices[d])
  }

  lemma MoveTracks(w: World, w': World, d: nat)
    requires AllTrack(w) && UneditedMove(w, w', d)
    ensures AllTrack(w')
  {
    var v, v' := w.devices[d], w'.devices[d];
    if SyncStep(w.digest, w.heads, v, v') { SyncStepTracks(w.digest, w.heads, v, v'); }
  }

  ghost predicate Good(w: World, devices: set<nat>) {
    Inv(w) && AllTrack(w) && w.devices.Keys == devices
  }

  lemma GoodStep(w: World, w': World, devices: set<nat>)
    requires Good(w, devices) && Unedited(w, w')
    ensures Good(w', devices)
  {
    var d :| UneditedMove(w, w', d);
    MoveKeepsInv(w, w', d);
    MoveTracks(w, w', d);
  }

  lemma QuietInvariant(ws: seq<World>, i: nat)
    requires QuietRun(ws) && i < |ws|
    ensures Good(ws[i], ws[0].devices.Keys)
  {
    var devices := ws[0].devices.Keys;
    forall a, b | Good(a, devices) && Unedited(a, b) ensures Good(b, devices) { GoodStep(a, b, devices); }
    Runs.Preserved(ws, 0, i, (a, b) => Unedited(a, b), w => Good(w, devices));
  }

  // ---------------------------------------------------------------- the first round

  ghost predicate SettledAt(w: World, d: nat) {
    d in w.devices && Settled(w.heads, w.devices[d])
  }

  lemma SettledGrows(heads: seq<Head>, heads': seq<Head>, v: Device)
    requires Settled(heads, v) && heads <= heads'
    ensures Settled(heads', v)
  {
  }

  lemma MoveKeepsSettled(w: World, w': World, d: nat, e: nat)
    requires Inv(w) && AllTrack(w) && UneditedMove(w, w', d) && SettledAt(w, e)
    requires !Interrupts(w, w', e)
    ensures SettledAt(w', e)
  {
    if d == e {
      SettledStaysSettled(w.digest, w.heads, w.devices[d], w'.devices[d]);
    } else {
      MoveKeepsInv(w, w', d);
      SettledGrows(w.heads, w'.heads, w.devices[e]);
    }
  }

  lemma FinishedIsSettled(ws: seq<World>, c: nat, d: nat)
    requires QuietRun(ws) && FinishesAt(ws, c, d)
    ensures SettledAt(ws[c + 1], d)
  {
    QuietInvariant(ws, c);
    FinishingSettles(ws[c].digest, ws[c].heads, ws[c].devices[d], ws[c + 1].devices[d]);
  }

  lemma SettledNext(ws: seq<World>, j: nat, d: nat)
    requires QuietRun(ws) && j + 1 < |ws| && SettledAt(ws[j], d) && !InterruptsAt(ws, j, d)
    ensures SettledAt(ws[j + 1], d)
  {
    QuietInvariant(ws, j);
    Runs.ChainStep(ws, 0, (a, b) => Unedited(a, b), j);
    var e :| UneditedMove(ws[j], ws[j + 1], e);
    MoveKeepsSettled(ws[j], ws[j + 1], e, d);
  }

  /** After one completed synchronization a device has nothing left to publish, until an attempt is
      interrupted between applying and saving. */
  lemma {:induction false} FinishedDevicesStaySettled(ws: seq<World>, c: nat, j: nat, d: nat)
    requires QuietRun(ws) && j < |ws| && FinishedSince(ws, c, j, d)
    ensures SettledAt(ws[j], d)
    decreases j
  {
    if j == c + 1 {
      FinishedIsSettled(ws, c, d);
    } else {
      FinishedDevicesStaySettled(ws, c, j - 1, d);
      SettledNext(ws, j - 1, d);
    }
  }

  ghost predicate AllCalm(w: World) {
    forall d | d in w.devices :: Calm(w.heads, w.devices[d])
  }

  lemma FirstRoundSettles(ws: seq<World>, i: nat)
    requires QuietRun(ws) && i < |ws| && AllFinished(ws, i)
    ensures AllCalm(ws[i])
  {
    QuietInvariant(ws, i);
    forall d | d in ws[i].devices ensures Calm(ws[i].heads, ws[i].devices[d]) {
      assert d in ws[0].devices;
      var c: nat :| FinishedSince(ws, c, i, d);
      FinishedDevicesStaySettled(ws, c, i, d);
    }
  }

  // ---------------------------------------------------------------- after the first round

  ghost predicate CalmMove(w: World, w': World, d: nat) {
    UneditedMove(w, w', d) && (Interrupts(w, w', d) ==> Harmless(w.heads, w.devices[d]))
  }

  ghost predicate CalmNext(w: World, w': World) {
    exists d :: CalmMove(w, w', d)
  }

  /** Everybody is calm and the history is fixed. */
  ghost predicate Still(w: World, devices: set<nat>, heads: seq<Head>) {
    Good(w, devices) && AllCalm(w) && w.heads == heads
  }

  /** From world `m` on everybody is calm, and crashes do no harm. */
  ghost predicate CalmFrom(ws: seq<World>, m: nat) {
    && m < |ws| && Still(ws[m], ws[m].devices.Keys, ws[m].heads)
    && Runs.ChainFrom(ws, m, (a, b) => CalmNext(a, b))
  }

  lemma CalmDeviceDoesNotPublish(w: World, w': World, d: nat)
    requires CalmMove(w, w', d) && Calm(w.heads, w.devices[d])
    ensures w'.heads == w.heads
    ensures SyncStep(w.digest, w.heads, w.devices[d], w'.devices[d]) || Abort(w.devices[d], w'.devices[d])
  {
  }

  lemma StillStep(w: World, w': World, devices: set<nat>, heads: seq<Head>)
    requires Still(w, devices, heads) && CalmNext(w, w')
    ensures Still(w', devices, heads)
  {
    var d :| CalmMove(w, w', d);
    GoodStep(w, w', devices);
    CalmDeviceDoesNotPublish(w, w', d);
    forall e | e in w'.devices ensures Calm(w'.heads, w'.devices[e]) {
      if e == d { CalmStaysCalm(w.digest, w.heads, w.devices[d], w'.devices[d]); }
    }
  }

  lemma StillFromThenOn(ws: seq<World>, m: nat, j: nat)
    requires CalmFrom(ws, m) && m <= j < |ws|
    ensures Still(ws[j], ws[m].devices.Keys, ws[m].heads)
  {
    var devices, heads := ws[m].devices.Keys, ws[m].heads;
    forall a, b | Still(a, devices, heads) && CalmNext(a, b) ensures Still(b, devices, heads) {
      StillStep(a, b, devices, heads);
    }
    Runs.Preserved(ws, m, j, (a, b) => CalmNext(a, b), w => Still(w, devices, heads));
  }

  /** The rest of a quiet run, once all devices have finished. */
  lemma RestIsCalm(ws: seq<World>, i: nat)
    requires QuietRun(ws) && i < |ws| && AllFinished(ws, i) && OnlyHarmlessFrom(ws, i)
    ensures CalmFrom(ws, i)
  {
    FirstRoundSettles(ws, i);
    QuietInvariant(ws, i);
    forall a, b | i <= a < |ws| - 1 && b == a + 1 ensures CalmNext(ws[a], ws[b]) {
      Runs.ChainStep(ws, 0, (x, y) => Unedited(x, y), a);
      var d :| UneditedMove(ws[a], ws[b], d);
      assert Interrupts(ws[a], ws[b], d) ==> InterruptsAt(ws, a, d);
      assert CalmMove(ws[a], ws[b], d);
    }
  }

  /** When every device has completed a synchronization nothing is published any more. */
  lemma FinishedWorldsPublishNothing(ws: seq<World>, i: nat, j: nat)
    requires QuietRun(ws) && i <= j < |ws| && AllFinished(ws, i) && OnlyHarmlessFrom(ws, i)
    ensures ws[j].heads == ws[i].heads && AllCalm(ws[j])
  {
    RestIsCalm(ws, i);
    StillFromThenOn(ws, i, j);
  }

  // ---------------------------------------------------------------- the second round

  ghost predicate CurrentAt(w: World, d: nat) {
    d in w.devices && Current(w.heads, w.devices[d])
  }

  ghost predicate AtHead(w: World, d: nat) {
    CurrentAt(w, d) && TreeIsHead(w.heads, w.devices[d])
  }

  lemma CurrentStep(w: World, w': World, devices: set<nat>, heads: seq<Head>, d: nat)
    requires Still(w, devices, heads) && CurrentAt(w, d) && CalmNext(w, w')
    ensures Still(w', devices, heads) && CurrentAt(w', d)
    ensures AtHead(w, d) ==> AtHead(w', d)
  {
    StillStep(w, w', devices, heads);
    var e :| CalmMove(w, w', e);
    if e == d {
      CalmDeviceDoesNotPublish(w, w', d);
      CurrentStaysCurrent(w.digest, w.heads, w.devices[d], w'.devices[d]);
      if AtHead(w, d) { TreeStaysAtHead(w.digest, w.heads, w.devices[d], w'.devices[d]); }
    }
  }

  /** A device that fetched the head works on that head until it finishes. */
  lemma CurrentAfterFetch(ws: seq<World>, m: nat, f: nat, j: nat, d: nat)
    requires CalmFrom(ws, m) && m <= f < j < |ws| && FetchesAt(ws, f, d)
    ensures CurrentAt(ws[j], d)
  {
    var devices, heads := ws[m].devices.Keys, ws[m].heads;
    StillFromThenOn(ws, m, f + 1);
    forall a, b | Still(a, devices, heads) && CurrentAt(a, d) && CalmNext(a, b)
      ensures Still(b, devices, heads) && CurrentAt(b, d)
    {
      CurrentStep(a, b, devices, heads, d);
    }
    Runs.Preserved(ws, f + 1, j, (a, b) => CalmNext(a, b), w => Still(w, devices, heads) && CurrentAt(w, d));
  }

  lemma StaysAtHead(ws: seq<World>, m: nat, k: nat, j: nat, d: nat)
    requires CalmFrom(ws, m) && m <= k <= j < |ws| && AtHead(ws[k], d)
    ensures AtHead(ws[j], d)
  {
    var devices, heads := ws[m].devices.Keys, ws[m].heads;
    StillFromThenOn(ws, m, k);
    forall a, b | Still(a, devices, heads) && AtHead(a, d) && CalmNext(a, b)
      ensures Still(b, devices, heads) && AtHead(b, d)
    {
      CurrentStep(a, b, devices, heads, d);
    }
    Runs.Preserved(ws, k, j, (a, b) => CalmNext(a, b), w => Still(w, devices, heads) && AtHead(w, d));
  }

  ghost predicate SyncsBetween(ws: seq<World>, f: nat, k: nat, d: nat) {
    f < k && FetchesAt(ws, f, d) && FinishesAt(ws, k, d)
  }

  /** The device fetched the head and then completed a synchronization, both after world `i`. */
  ghost predicate SecondSync(ws: seq<World>, i: nat, d: nat) {
    exists f: nat, k: nat :: i <= f && SyncsBetween(ws, f, k, d)
  }

  lemma FinishReachesHead(ws: seq<World>, m: nat, f: nat, k: nat, d: nat)
    requires CalmFrom(ws, m) && m <= f && SyncsBetween(ws, f, k, d)
    ensures AtHead(ws[k + 1], d)
  {
    CurrentAfterFetch(ws, m, f, k, d);
    StillFromThenOn(ws, m, k);
    var w, w' := ws[k], ws[k + 1];
    FinishingCurrentReachesHead(w.digest, w.heads, w.devices[d], w'.devices[d]);
  }

  lemma SyncReachesHead(ws: seq<World>, m: nat, f: nat, k: nat, d: nat)
    requires CalmFrom(ws, m) && m <= f && SyncsBetween(ws, f, k, d)
    ensures AtHead(ws[|ws| - 1], d)
  {
    FinishReachesHead(ws, m, f, k, d);
    StaysAtHead(ws, m, k + 1, |ws| - 1, d);
  }

  lemma SecondRoundReachesHead(ws: seq<World>, i: nat, d: nat)
    requires CalmFrom(ws, i) && SecondSync(ws, i, d)
    ensures AtHead(ws[|ws| - 1], d)
  {
    var f: nat, k: nat :| i <= f && SyncsBetween(ws, f, k, d);
    SyncReachesHead(ws, i, f, k, d);
  }

  ghost predicate SecondRound(ws: seq<World>, i: nat) {
    |ws| > 0 && forall d | d in ws[0].devices :: SecondSync(ws, i, d)
  }

  ghost predicate Converged(w: World) {
    forall d | d in w.devices :: AtHead(w, d)
  }

  /** Two rounds suffice. Once every device has completed one synchronization, without a later attempt
      interrupted between applying and saving, nothing is published any more; and when each has then
      completed another, every working tree is the head. After the first round such an interruption is
      allowed wherever it does no harm. */
  lemma TwoRoundsConverge(ws: seq<World>, i: nat)
    requires QuietRun(ws) && i < |ws| && AllFinished(ws, i) && OnlyHarmlessFrom(ws, i) && SecondRound(ws, i)
    ensures ws[|ws| - 1].heads == ws[i].heads && ws[|ws| - 1].devices.Keys == ws[0].devices.Keys
    ensures Converged(ws[|ws| - 1])
  {
    RestIsCalm(ws, i);
    FinishedWorldsPublishNothing(ws, i, |ws| - 1);
    QuietInvariant(ws, |ws| - 1);
    forall d | d in ws[0].devices ensures AtHead(ws[|ws| - 1], d) {
      SecondRoundOf(ws, i, d);
      SecondRoundReachesHead(ws, i, d);
    }
  }

  lemma SecondRoundOf(ws: seq<World>, i: nat, d: nat)
    requires SecondRound(ws, i) && d in ws[0].devices
    ensures SecondSync(ws, i, d)
  {
  }
}
