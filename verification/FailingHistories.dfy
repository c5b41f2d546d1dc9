/** Executions in which an attempt that ends early leaves its device worse off. */
module FailingHistories {
  import opened Options
  import opened Data
  import opened Manifests
  import opened Reconciliation
  import opened Combination
  import opened Protocol
  import opened Progress
  import opened Histories
  import opened Paths
  import CombinationApplies
  import CombinationTheorems
  import ProtocolSafety
  import TextMerge

  function FreshDevice(tree: Entries): Device {
    Device(tree, map[], 0, map[], map[], false, Idle)
  }

  /** Device 0 has one file, device 1 nothing; nothing is published yet. */
  function Start(digest: Digest, content: Content): World {
    World(digest, map[0 := FreshDevice(FileOf(content)), 1 := FreshDevice(map[])], [Head(map[], None)])
  }

  /** Two devices at rest, with these contents in their bases and trees, and this head. */
  ghost predicate BothRest(w: World, b0: Content, t0: Content, b1: Content, t1: Content, head: Content, n: nat) {
    && w.devices.Keys == {0, 1} && |w.heads| == n && HeadIs(w, head)
    && Resting(w.digest, w.devices[0], b0, t0) && Resting(w.digest, w.devices[1], b1, t1)
  }

  ghost predicate Real3(digest: Digest, x: Content, y: Content, z: Content) {
    && x.Data? && y.Data? && z.Data? && x != y && y != z && x != z
    && Plain(digest, x) && Plain(digest, y) && Plain(digest, z)
  }

  lemma Started(editors: set<nat>, digest: Digest, x: Content) returns (ws: seq<World>)
    requires x.Data? && Plain(digest, x)
    ensures History(editors, ws) && BothRest(Last(ws), Absent, x, Absent, Absent, Absent, 1)
    ensures Last(ws).digest == digest && Last(ws).devices[1].cache == map[]
  {
    var w := Start(digest, x);
    FileOfIsOneFile(x);
    ws := [w];
    assert OneFile(map[], Absent);
  }

  lemma FirstPublishes(
    editors: set<nat>, ws: seq<World>, b0: Content, t0: Content, b1: Content, t1: Content, n: nat)
    returns (ws': seq<World>)
    requires History(editors, ws) && BothRest(Last(ws), b0, t0, b1, t1, b0, n) && t0 != b0
    ensures History(editors, ws') && BothRest(Last(ws'), t0, t0, b1, t1, t0, n + 1)
    ensures Last(ws').digest == Last(ws).digest && Last(ws').devices[1] == Last(ws).devices[1]
    ensures Last(ws').devices[0].revision == n && Last(ws).heads <= Last(ws').heads
  {
    ws' := Uploaded(editors, ws, 0, b0, t0);
  }

  lemma FirstEdits(
    editors: set<nat>, ws: seq<World>, x: Content, y: Content, b1: Content, t1: Content, n: nat)
    returns (ws': seq<World>)
    requires History(editors, ws) && BothRest(Last(ws), x, x, b1, t1, x, n) && 0 in editors
    requires y.Data? && Plain(Last(ws).digest, y)
    ensures History(editors, ws') && BothRest(Last(ws'), x, y, b1, t1, x, n)
    ensures Last(ws').digest == Last(ws).digest && Last(ws').devices[1] == Last(ws).devices[1]
  {
    FileOfIsOneFile(y);
    ws' := Edited(editors, ws, 0, FileOf(y));
  }

  lemma SecondFollows(editors: set<nat>, ws: seq<World>, x: Content, b1: Content, n: nat) returns (ws': seq<World>)
    requires History(editors, ws) && BothRest(Last(ws), x, x, b1, b1, x, n)
    ensures History(editors, ws') && BothRest(Last(ws'), x, x, x, x, x, n)
    ensures Last(ws').digest == Last(ws).digest
    ensures Last(ws').devices[1].cache.Keys <= Last(ws).devices[1].cache.Keys
      + FileHashes(Last(ws).devices[1].tree) + FileHashes(Last(ws').devices[1].tree)
  {
    ws' := Downloaded(editors, ws, 1, b1, x);
  }

  /** Both devices have synchronized `x`. */
  lemma BothHave(editors: set<nat>, digest: Digest, x: Content) returns (ws: seq<World>)
    requires x.Data? && Plain(digest, x)
    ensures History(editors, ws) && BothRest(Last(ws), x, x, x, x, x, 2) && Last(ws).digest == digest
    ensures Last(ws).devices[1].cache.Keys <= {x.hash}
  {
    ws := Started(editors, digest, x);
    ws := FirstPublishes(editors, ws, Absent, x, Absent, Absent, 1);
    var before := Last(ws);
    ws := SecondFollows(editors, ws, x, Absent, 2);
    OneFileHashes(before.devices[1].tree, Absent);
    OneFileHashes(Last(ws).devices[1].tree, x);
  }

  // ---------------------------------------------------------------- interrupted between applying and saving

  /** Device 0 at rest with the head, device 1 having applied `tree` on a base `base` it has not moved. */
  ghost predicate OneApplied(w: World, x: Content, base: Content, tree: Content, n: nat) {
    && w.devices.Keys == {0, 1} && |w.heads| == n && HeadIs(w, x) && Resting(w.digest, w.devices[0], x, x)
    && AppliedWith(w.digest, w.devices[1], base, tree)
  }

  ghost predicate AppliedWith(digest: Digest, v: Device, base: Content, tree: Content) {
    && v.phase.Applied? && !v.unfinished && OneFile(v.base, base) && OneFile(v.tree, tree)
    && Plain(digest, base) && Plain(digest, tree)
  }

  lemma NeededForOther(heads: seq<Head>, v: Device, tree: Content, head: Content)
    requires |heads| > 0 && OneFile(v.tree, tree) && OneFile(heads[|heads| - 1].manifest, head) && tree != head
    ensures Needed(heads, v)
  {
    var last := heads[|heads| - 1].manifest;
    assert At(v.tree, "f") != At(last, "f");
    if NothingToDo(v.base, v.tree, last) { ProtocolSafety.NothingToDoMeansEqual(v.base, v.tree, last); }
  }

  lemma TakesHead(digest: Digest, heads: seq<Head>, v: Device, v': Device, base: Content, head: Content)
    requires OneFile(v.base, base) && OneFile(v.tree, base) && Remembers(digest, v, v')
    requires AppliedOnLast(heads, v') && OneFile(heads[|heads| - 1].manifest, head)
    ensures OneFile(v'.tree, head)
  {
    var run := v'.phase.run;
    OneFileByContent(v.tree, run.sync.local, base);
    OneFileSame(run.sync.base, run.sync.local, base);
    CombinationTheorems.FastForwardTakesRemote(run.sync, run.recorded, run.combined, run.names);
    OneFileByContent(run.sync.remote, run.combined, head);
    OneFileByContent(run.combined, v'.tree, head);
  }

  lemma SecondApplies(editors: set<nat>, ws: seq<World>, x: Content, y: Content, n: nat) returns (ws': seq<World>)
    requires History(editors, ws) && BothRest(Last(ws), y, y, x, x, y, n) && x != y
    ensures History(editors, ws') && OneApplied(Last(ws'), y, x, y, n) && Last(ws').digest == Last(ws).digest
  {
    var w := Last(ws);
    RestingIsAtRest(editors, ws, 1, x, x, y);
    NeededForOther(w.heads, w.devices[1], x, y);
    var more := AttemptReachesApplied(w, 1);
    ws' := Continued(editors, ws, more);
    TakesHead(w.digest, w.heads, w.devices[1], more[5].devices[1], x, y);
  }

  lemma FirstGoesOn(editors: set<nat>, ws: seq<World>, x: Content, y: Content, z: Content, n: nat)
    returns (ws': seq<World>)
    requires History(editors, ws) && OneApplied(Last(ws), y, x, y, n) && 0 in editors
    requires z.Data? && Plain(Last(ws).digest, z) && z != y
    ensures History(editors, ws') && OneApplied(Last(ws'), z, x, y, n + 1) && Last(ws').digest == Last(ws).digest
    ensures Last(ws').devices[0].revision == n
  {
    FileOfIsOneFile(z);
    ws' := Edited(editors, ws, 0, FileOf(z));
    ws' := Uploaded(editors, ws', 0, y, z);
  }

  /** Device 1 is never edited. It synchronizes `x`, then applies `y` and crashes before saving its base, while
      device 0 publishes `z`. Its next attempt takes `y` for its own edit and publishes. */
  lemma InterruptedDevicePublishes(digest: Digest, x: Content, y: Content, z: Content) returns (ws: seq<World>)
    requires Real3(digest, x, y, z)
    ensures History({0}, ws) && |Last(ws).heads| == 5 && Last(ws).devices.Keys == {0, 1}
    ensures Last(ws).devices[0].revision == 3 && Last(ws).devices[1].revision == 4
    ensures Last(ws).heads[4].from.Some?
    ensures
      var s := Last(ws).heads[4].from.value.sync;
      OneFile(s.base, x) && OneFile(s.local, y) && OneFile(s.remote, z)
  {
    ws := BothHave({0}, digest, x);
    ws := FirstEdits({0}, ws, x, y, x, x, 2);
    ws := FirstPublishes({0}, ws, x, y, x, x, 2);
    ws := SecondApplies({0}, ws, x, y, 3);
    ws := FirstGoesOn({0}, ws, x, y, z, 3);
    ws := SecondComesBack(ws, x, y, z);
  }

  lemma SecondComesBack(ws: seq<World>, x: Content, y: Content, z: Content) returns (ws': seq<World>)
    requires History({0}, ws) && OneApplied(Last(ws), z, x, y, 4) && Last(ws).devices[0].revision == 3
    requires !x.Dir? && !y.Dir? && !z.Dir? && x != y && y != z
    ensures History({0}, ws') && |Last(ws').heads| == 5 && Last(ws').devices.Keys == {0, 1}
    ensures Last(ws').devices[0].revision == 3 && Last(ws').devices[1].revision == 4
    ensures Last(ws').heads[4].from.Some?
    ensures
      var s := Last(ws').heads[4].from.value.sync;
      OneFile(s.base, x) && OneFile(s.local, y) && OneFile(s.remote, z)
  {
    ws' := Crashed({0}, ws, 1);
    var w := Last(ws');
    ws' := AttemptDone({0}, ws', 1, x, y, z);
    var v, last := w.devices[1], w.heads[3].manifest;
    OneFilePassive(v.base, v.tree, last, x, y, z);
    OneFileByContent(v.tree, Last(ws').heads[4].from.value.sync.local, y);
  }

  // ---------------------------------------------------------------- a merge, and a lost race

  const NEWLINE := TextMerge.NEWLINE

  function TwoLines(a: byte, b: byte): Bytes {
    [a, NEWLINE, b, NEWLINE]
  }

  lemma SplitTwoLines(a: byte, b: byte)
    requires a != NEWLINE && b != NEWLINE
    ensures TextMerge.Lines(TwoLines(a, b)) == [[a, NEWLINE], [b, NEWLINE]]
    ensures TextMerge.Concat([[a, NEWLINE], [b, NEWLINE]]) == TwoLines(a, b)
  {
    var ls: seq<Bytes> := [[a, NEWLINE], [b, NEWLINE]];
    assert ls[1..] == [[b, NEWLINE]] && ls[1..][1..] == [];
    assert TextMerge.Concat(ls[1..]) == [b, NEWLINE] + TextMerge.Concat([]);
    assert TextMerge.Concat(ls) == [a, NEWLINE] + [b, NEWLINE] == TwoLines(a, b);
    assert [a, NEWLINE][..1] == [a] && [b, NEWLINE][..1] == [b];
    assert TextMerge.Shaped(ls);
    TextMerge.ConcatThenSplit(ls);
  }

  /** Each side changes one of the two lines. */
  lemma TwoLinesMerge(utf8: Bytes -> bool, a: byte, b: byte, c: byte, d: byte)
    requires a != NEWLINE && b != NEWLINE && c != NEWLINE && d != NEWLINE
    requires utf8(TwoLines(a, b)) && utf8(TwoLines(c, b)) && utf8(TwoLines(a, d))
    ensures TextMerge.Merged(utf8, TwoLines(a, b), TwoLines(c, b), TwoLines(a, d)) == Some(TwoLines(c, d))
  {
    SplitTwoLines(a, b);
    SplitTwoLines(c, b);
    SplitTwoLines(a, d);
    SplitTwoLines(c, d);
    assert TextMerge.MergedLines(TwoLines(a, b), TwoLines(c, b), TwoLines(a, d)) == [[c, NEWLINE], [d, NEWLINE]];
  }

  function FileContent(digest: Digest, bytes: Bytes): Content {
    Data(|bytes|, digest.hash(bytes))
  }

  ghost predicate Texts(digest: Digest) {
    && CollisionFree(digest)
    && digest.utf8(TwoLines(1, 2)) && digest.utf8(TwoLines(3, 2)) && digest.utf8(TwoLines(1, 4))
  }

  lemma BlobOfContent(digest: Digest, blobs: map<string, Bytes>, m: Entries, bytes: Bytes)
    requires CollisionFree(digest) && Hashed(digest, blobs) && Holds(blobs, m)
    requires OneFile(m, FileContent(digest, bytes))
    ensures IsFile(m, "f") && Get(blobs, m["f"].file.contentHash) == Some(bytes)
  {
    assert At(m, "f") == FileContent(digest, bytes);
  }

  lemma DifferentTexts(digest: Digest)
    requires CollisionFree(digest)
    ensures FileContent(digest, TwoLines(1, 2)) != FileContent(digest, TwoLines(3, 2))
    ensures FileContent(digest, TwoLines(1, 2)) != FileContent(digest, TwoLines(1, 4))
    ensures FileContent(digest, TwoLines(3, 2)) != FileContent(digest, TwoLines(1, 4))
    ensures digest.hash(TwoLines(1, 4)) !in
      {digest.hash(TwoLines(1, 2)), digest.hash(TwoLines(3, 2)), digest.hash(TwoLines(3, 4))}
  {
    assert TwoLines(1, 2)[0] != TwoLines(3, 2)[0] && TwoLines(1, 2)[2] != TwoLines(1, 4)[2];
    assert TwoLines(3, 2)[0] != TwoLines(1, 4)[0] && TwoLines(3, 4)[0] != TwoLines(1, 4)[0];
  }

  lemma MergedText(s: Sync)
    requires Texts(s.digest) && CombinationApplies.Gathered(s)
    requires OneFile(s.base, FileContent(s.digest, TwoLines(1, 2)))
    requires OneFile(s.local, FileContent(s.digest, TwoLines(3, 2)))
    requires OneFile(s.remote, FileContent(s.digest, TwoLines(1, 4)))
    ensures MergeOf(s, "f") == Some(TwoLines(3, 4)) && Act(s, "f") == Merge
  {
    BlobOfContent(s.digest, s.baseBlobs, s.base, TwoLines(1, 2));
    BlobOfContent(s.digest, s.localBlobs, s.local, TwoLines(3, 2));
    assert At(s.remote, "f") == FileContent(s.digest, TwoLines(1, 4));
    assert RemoteBytes(s, s.remote["f"].file.contentHash) == Some(TwoLines(1, 4));
    TwoLinesMerge(s.digest.utf8, 1, 2, 3, 4);
    DifferentTexts(s.digest);
    ActionIsDecided(s.base, s.local, s.remote, "f");
  }

  lemma MergeOfTexts(s: Sync, recorded: set<Path>, c: Entries, names: map<Path, Path>)
    requires Texts(s.digest) && CombinationApplies.Gathered(s) && IsCombination(s, recorded, c, names)
    requires OneFile(s.base, FileContent(s.digest, TwoLines(1, 2)))
    requires OneFile(s.local, FileContent(s.digest, TwoLines(3, 2)))
    requires OneFile(s.remote, FileContent(s.digest, TwoLines(1, 4)))
    ensures OneFile(c, FileContent(s.digest, TwoLines(3, 4)))
  {
    MergedText(s);
    OnlyKey(s, FileContent(s.digest, TwoLines(1, 2)));
    assert Get(c, "f") == Taken(s, "f");
    assert forall r :: r !in names;
    forall p | p != "f" ensures At(c, p) == Absent { assert p !in c; }
  }

  lemma OnlyKey(s: Sync, x: Content)
    requires OneFile(s.base, x) && x.Data?
    requires forall p | p != "f" :: At(s.local, p) == Absent && At(s.remote, p) == Absent
    ensures forall p :: PlannedIn(s, p) <==> p == "f"
  {
    forall p ensures p in AllKeys(s) <==> p == "f" {
      assert p in s.base <==> At(s.base, p) != Absent;
      assert p in s.local ==> At(s.local, p) != Absent;
      assert p in s.remote ==> At(s.remote, p) != Absent;
    }
    forall a ensures !Under(a, "f") {}
    assert !Covered(s.base, s.local, s.remote, "f");
    forall p ensures PlannedIn(s, p) <==> p == "f" { assert p in AllKeys(s) <==> p == "f"; }
  }

  ghost function Original(digest: Digest): Content { FileContent(digest, TwoLines(1, 2)) }
  ghost function Ours(digest: Digest): Content { FileContent(digest, TwoLines(3, 2)) }
  ghost function Theirs(digest: Digest): Content { FileContent(digest, TwoLines(1, 4)) }
  ghost function Both(digest: Digest): Content { FileContent(digest, TwoLines(3, 4)) }

  lemma TextsArePlain(digest: Digest)
    ensures Plain(digest, Original(digest)) && Plain(digest, Ours(digest)) && Plain(digest, Theirs(digest))
  {
    assert HasBytes(digest, digest.hash(TwoLines(1, 2))) && HasBytes(digest, digest.hash(TwoLines(3, 2)));
    assert HasBytes(digest, digest.hash(TwoLines(1, 4)));
  }

  /** Device 0 has published its change, device 1 has made another one. */
  lemma BothChanged(digest: Digest) returns (ws: seq<World>)
    requires Texts(digest)
    ensures History({0, 1}, ws) && Last(ws).digest == digest
    ensures BothRest(Last(ws), Theirs(digest), Theirs(digest), Original(digest), Ours(digest), Theirs(digest), 3)
    ensures Last(ws).devices[1].cache.Keys <= {digest.hash(TwoLines(1, 2))}
  {
    TextsArePlain(digest);
    DifferentTexts(digest);
    var x, y, z := Original(digest), Ours(digest), Theirs(digest);
    ws := BothHave({0, 1}, digest, x);
    ws := FirstEdits({0, 1}, ws, x, z, x, x, 2);
    ws := FirstPublishes({0, 1}, ws, x, z, x, x, 2);
    FileOfIsOneFile(y);
    ws := Edited({0, 1}, ws, 1, FileOf(y));
  }

  /** Device 1 has applied the merge and saved the head as its base, but not cached it. */
  ghost predicate MergedUncached(digest: Digest, v: Device) {
    && v.phase.Saved? && OneFile(v.base, Theirs(digest)) && OneFile(v.tree, Both(digest))
    && v.cache.Keys <= {digest.hash(TwoLines(1, 2)), digest.hash(TwoLines(3, 2)), digest.hash(TwoLines(3, 4))}
  }

  lemma SecondMerges(digest: Digest) returns (ws: seq<World>)
    requires Texts(digest)
    ensures History({0, 1}, ws) && Last(ws).digest == digest && Last(ws).devices.Keys == {0, 1}
    ensures |Last(ws).heads| == 3 && HeadIs(Last(ws), Theirs(digest))
    ensures Resting(digest, Last(ws).devices[0], Theirs(digest), Theirs(digest))
    ensures MergedUncached(digest, Last(ws).devices[1])
  {
    var before := BothChanged(digest);
    var w := Last(before);
    DifferentTexts(digest);
    RestingIsAtRest({0, 1}, before, 1, Original(digest), Ours(digest), Theirs(digest));
    NeededForOther(w.heads, w.devices[1], Ours(digest), Theirs(digest));
    var more := AttemptReachesApplied(w, 1);
    var v := more[5].devices[1];
    MergeIsApplied(digest, w.heads, w.devices[1], v);
    ws := Continued({0, 1}, before, more);
    ws := BaseSaved({0, 1}, ws, 1);
  }

  lemma MergeIsApplied(digest: Digest, heads: seq<Head>, v: Device, v': Device)
    requires Texts(digest) && AppliedOnLast(heads, v') && Remembers(digest, v, v')
    requires OneFile(v.base, Original(digest)) && OneFile(v.tree, Ours(digest))
    requires OneFile(heads[|heads| - 1].manifest, Theirs(digest))
    requires v.cache.Keys <= {digest.hash(TwoLines(1, 2))}
    ensures OneFile(v'.tree, Both(digest))
    ensures v'.cache.Keys <= {digest.hash(TwoLines(1, 2)), digest.hash(TwoLines(3, 2)), digest.hash(TwoLines(3, 4))}
  {
    var run := v'.phase.run;
    OneFileByContent(v.tree, run.sync.local, Ours(digest));
    MergeOfTexts(run.sync, run.recorded, run.combined, run.names);
    OneFileByContent(run.combined, v'.tree, Both(digest));
    OneFileHashes(v.tree, Ours(digest));
    OneFileHashes(v'.tree, Both(digest));
  }

  /** Device 1 merges its change with that of device 0, applies the merge and saves the head as its base. Then
      device 0 publishes `next`, so device 1 loses the race; and its retry, like every later attempt, cannot
      load the files of that base. */
  lemma MergeThenLostRaceBlocks(digest: Digest, next: Content) returns (ws: seq<World>)
    requires Texts(digest) && next.Data? && Plain(digest, next) && next != Theirs(digest)
    ensures History({0, 1}, ws) && |Last(ws).heads| == 4 && HeadIs(Last(ws), next)
    ensures 1 in Last(ws).devices && Stuck(Last(ws).devices[1])
    ensures OneFile(Last(ws).devices[1].base, Theirs(digest)) && OneFile(Last(ws).devices[1].tree, Both(digest))
    ensures
      var w := Last(ws);
      forall v1, v2, v3 :: Scan(w.devices[1], v1) && Fetch(w.heads, v1, v2) ==> !Stage(digest, w.heads, v2, v3)
  {
    ws := SecondMerges(digest);
    FileOfIsOneFile(next);
    ws := Edited({0, 1}, ws, 0, FileOf(next));
    ws := Uploaded({0, 1}, ws, 0, Theirs(digest), next);
    ws := Crashed({0, 1}, ws, 1);
    UncachedIsStuck(digest, Last(ws).devices[1]);
    var w := Last(ws);
    forall v1, v2, v3 | Scan(w.devices[1], v1) && Fetch(w.heads, v1, v2) ensures !Stage(digest, w.heads, v2, v3) {
      if Stage(digest, w.heads, v2, v3) { StagedBaseIsAtHand(digest, w.heads, v2, v3); }
    }
  }

  lemma UncachedIsStuck(digest: Digest, v: Device)
    requires CollisionFree(digest) && v.phase == Idle
    requires OneFile(v.base, Theirs(digest)) && OneFile(v.tree, Both(digest))
    requires v.cache.Keys <= {digest.hash(TwoLines(1, 2)), digest.hash(TwoLines(3, 2)), digest.hash(TwoLines(3, 4))}
    ensures Stuck(v)
  {
    DifferentTexts(digest);
    OneFileHashes(v.base, Theirs(digest));
    OneFileHashes(v.tree, Both(digest));
    assert digest.hash(TwoLines(1, 4)) in FileHashes(v.base);
  }
}
