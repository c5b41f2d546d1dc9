/** Building executions of the protocol from edits and undisturbed attempts. */
module Histories {
  import opened Data
  import opened Paths
  import opened Manifests
  import opened Reconciliation
  import opened Combination
  import opened Protocol
  import opened Convergence
  import opened Progress
  import CombinationTheorems
  import ProtocolSafety
  import Runs

  ghost predicate EditMove(w: World, w': World, d: nat) {
    Moves(w, w', d) && w'.heads == w.heads && Edit(w.devices[d], w'.devices[d])
  }

  /** Any step of a synchronization, or an edit on one of the devices `editors`. */
  ghost predicate Allowed(editors: set<nat>, w: World, w': World) {
    Unedited(w, w') || exists d :: d in editors && EditMove(w, w', d)
  }

  /** An execution in which only some devices are edited. */
  ghost predicate History(editors: set<nat>, ws: seq<World>) {
    |ws| > 0 && Init(ws[0]) && Runs.Chain(ws, (a, b) => Allowed(editors, a, b))
  }

  function Last(ws: seq<World>): World
    requires |ws| > 0
  {
    ws[|ws| - 1]
  }

  lemma AllowedIsNext(editors: set<nat>, w: World, w': World)
    requires Allowed(editors, w, w')
    ensures Next(w, w')
  {
    if Unedited(w, w') {
      var d :| UneditedMove(w, w', d);
    }
  }

  lemma HistoryIsExecution(editors: set<nat>, ws: seq<World>)
    requires History(editors, ws)
    ensures Execution(ws) && Inv(Last(ws))
  {
    forall i, j | 0 <= i < |ws| - 1 && j == i + 1 ensures Next(ws[i], ws[j]) {
      Runs.ChainStep(ws, 0, (a, b) => Allowed(editors, a, b), i);
      AllowedIsNext(editors, ws[i], ws[j]);
    }
    ProtocolSafety.InvariantHolds(ws, |ws| - 1);
  }

  lemma Continued(editors: set<nat>, ws: seq<World>, more: seq<World>) returns (ws': seq<World>)
    requires History(editors, ws) && |more| > 0 && more[0] == Last(ws)
    requires Runs.Chain(more, (a, b) => Unedited(a, b))
    ensures History(editors, ws') && Last(ws') == Last(more)
  {
    forall i, j | 0 <= i < |more| - 1 && j == i + 1 ensures Allowed(editors, more[i], more[j]) {
      Runs.ChainStep(more, 0, (a, b) => Unedited(a, b), i);
    }
    Runs.Append(ws, more, (a, b) => Allowed(editors, a, b));
    ws' := ws + more[1..];
  }

  lemma OneMore(editors: set<nat>, ws: seq<World>, w: World) returns (ws': seq<World>)
    requires History(editors, ws) && Allowed(editors, Last(ws), w)
    ensures History(editors, ws') && Last(ws') == w
  {
    Runs.Append(ws, [Last(ws), w], (a, b) => Allowed(editors, a, b));
    ws' := ws + [Last(ws), w][1..];
  }

  lemma Edited(editors: set<nat>, ws: seq<World>, d: nat, m: Entries) returns (ws': seq<World>)
    requires History(editors, ws) && d in editors && d in Last(ws).devices && Closed(m) && ValidPaths(m)
    ensures History(editors, ws')
    ensures Last(ws') == MoveTo(Last(ws), d, Last(ws).devices[d].(tree := m))
  {
    var w := Last(ws);
    var w' := MoveTo(w, d, w.devices[d].(tree := m));
    assert EditMove(w, w', d);
    ws' := OneMore(editors, ws, w');
  }

  lemma Crashed(editors: set<nat>, ws: seq<World>, d: nat) returns (ws': seq<World>)
    requires History(editors, ws) && d in Last(ws).devices
    ensures History(editors, ws')
    ensures Last(ws') == MoveTo(Last(ws), d, Last(ws).devices[d].(phase := Idle))
  {
    var w := Last(ws);
    var w' := MoveTo(w, d, w.devices[d].(phase := Idle));
    assert UneditedMove(w, w', d);
    ws' := OneMore(editors, ws, w');
  }

  /** The device after saving the remote manifest as its base. */
  function SavedDevice(v: Device): Device
    requires v.phase.Applied?
  {
    var run := v.phase.run;
    v.(base := run.sync.remote, revision := run.sync.revision, unfinished := true,
       phase := Saved(run, v.phase.manifest))
  }

  lemma BaseSaved(editors: set<nat>, ws: seq<World>, d: nat) returns (ws': seq<World>)
    requires History(editors, ws) && d in Last(ws).devices && Last(ws).devices[d].phase.Applied?
    ensures History(editors, ws')
    ensures Last(ws') == MoveTo(Last(ws), d, SavedDevice(Last(ws).devices[d]))
  {
    var w := Last(ws);
    StepIsMove(w, d, w.devices[d], SavedDevice(w.devices[d]));
    assert w.devices[d := w.devices[d]] == w.devices;
    ws' := OneMore(editors, ws, MoveTo(w, d, SavedDevice(w.devices[d])));
  }

  // ---------------------------------------------------------------- one file

  /** The manifest holds nothing but this content at `f`. */
  ghost predicate OneFile(m: Entries, content: Content) {
    forall p :: At(m, p) == if p == "f" then content else Absent
  }

  /** The content is a file that exists, or nothing. */
  ghost predicate Plain(digest: Digest, content: Content) {
    content == Absent || (content.Data? && HasBytes(digest, content.hash))
  }

  function FileOf(content: Content): Entries {
    match content
    case Data(size, hash) => map["f" := NewFile(size, hash, 0)]
    case _ => map[]
  }

  lemma FileOfIsOneFile(content: Content)
    requires content.Data? || content == Absent
    ensures OneFile(FileOf(content), content) && Closed(FileOf(content)) && ValidPaths(FileOf(content))
  {
    assert forall a :: !Under(a, "f");
    forall i, j | Component("f", i, j) ensures "f"[i..j] != "" && "f"[i..j] != "." && "f"[i..j] != ".." {
      assert i == 0 && j == 1 && "f"[0..1] == "f";
    }
  }

  lemma OneFileHashes(m: Entries, content: Content)
    requires OneFile(m, content)
    ensures FileHashes(m) == if content.Data? then {content.hash} else {}
  {
    forall p ensures p in m && m[p].File? <==> p == "f" && content.Data? { assert At(m, p) == At(m, p); }
    if content.Data? { assert At(m, "f") == content && m["f"].file.contentHash == content.hash; }
  }

  lemma OneFileReal(digest: Digest, m: Entries, content: Content)
    requires OneFile(m, content) && Plain(digest, content)
    ensures Real(digest, m)
  {
    OneFileHashes(m, content);
  }

  lemma OneFileByContent(m: Entries, m': Entries, content: Content)
    requires OneFile(m, content) && SameContent(m', m)
    ensures OneFile(m', content)
  {
  }

  lemma OneFileSame(m: Entries, m': Entries, content: Content)
    requires OneFile(m, content) && OneFile(m', content)
    ensures SameContent(m, m')
  {
  }

  lemma OneFilePassive(base: Entries, tree: Entries, head: Entries, b: Content, t: Content, h: Content)
    requires OneFile(base, b) && OneFile(tree, t) && OneFile(head, h) && !b.Dir? && !t.Dir? && !h.Dir?
    ensures Passive(base, tree, head) <==> t == h || t == b
  {
    forall p ensures !Structural(tree, head, p) { assert !At(tree, p).Dir? && !At(head, p).Dir?; }
    if t != h && t != b { assert !PassiveAt(base, tree, head, "f"); }
  }

  // ---------------------------------------------------------------- attempts with one file

  /** At rest, with these contents in base and tree. */
  ghost predicate Resting(digest: Digest, v: Device, base: Content, tree: Content) {
    && v.phase == Idle && !v.unfinished && OneFile(v.base, base) && OneFile(v.tree, tree)
    && Plain(digest, base) && Plain(digest, tree)
  }

  ghost predicate HeadIs(w: World, head: Content) {
    |w.heads| > 0 && OneFile(w.heads[|w.heads| - 1].manifest, head) && Plain(w.digest, head)
  }

  lemma RestingIsAtRest(editors: set<nat>, ws: seq<World>, d: nat, base: Content, tree: Content, head: Content)
    requires History(editors, ws) && d in Last(ws).devices
    requires Resting(Last(ws).digest, Last(ws).devices[d], base, tree) && HeadIs(Last(ws), head)
    ensures AtRest(Last(ws).digest, Last(ws).heads, Last(ws).devices[d])
  {
    var w := Last(ws);
    HistoryIsExecution(editors, ws);
    assert DeviceOk(w.digest, w.heads, w.devices[d]);
    HoldsHashes(w.devices[d].cache, w.devices[d].base);
    OneFileReal(w.digest, w.devices[d].tree, tree);
    OneFileReal(w.digest, w.heads[|w.heads| - 1].manifest, head);
  }

  lemma AttemptDone(editors: set<nat>, ws: seq<World>, d: nat, base: Content, tree: Content, head: Content)
    returns (ws': seq<World>)
    requires History(editors, ws) && d in Last(ws).devices
    requires Resting(Last(ws).digest, Last(ws).devices[d], base, tree) && HeadIs(Last(ws), head)
    ensures History(editors, ws') && Completed(Last(ws), Last(ws'), d)
  {
    RestingIsAtRest(editors, ws, d, base, tree, head);
    var more := AttemptCompletes(Last(ws), d);
    ws' := Continued(editors, ws, more);
  }

  /** A device that had seen the head publishes its tree. */
  lemma Uploaded(editors: set<nat>, ws: seq<World>, d: nat, base: Content, tree: Content) returns (ws': seq<World>)
    requires History(editors, ws) && d in Last(ws).devices && tree != base
    requires Resting(Last(ws).digest, Last(ws).devices[d], base, tree) && HeadIs(Last(ws), base)
    ensures History(editors, ws') && Completed(Last(ws), Last(ws'), d) && |Last(ws').heads| == |Last(ws).heads| + 1
    ensures Resting(Last(ws').digest, Last(ws').devices[d], tree, tree) && HeadIs(Last(ws'), tree)
  {
    ws' := AttemptDone(editors, ws, d, base, tree, base);
    UploadedTree(Last(ws), Last(ws'), d, base, tree);
  }

  lemma UploadedTree(w: World, w': World, d: nat, base: Content, tree: Content)
    requires d in w.devices && tree != base && Completed(w, w', d)
    requires Resting(w.digest, w.devices[d], base, tree) && HeadIs(w, base)
    ensures |w'.heads| == |w.heads| + 1
    ensures Resting(w'.digest, w'.devices[d], tree, tree) && HeadIs(w', tree)
  {
    var v, v', last := w.devices[d], w'.devices[d], w.heads[|w.heads| - 1].manifest;
    OneFilePassive(v.base, v.tree, last, base, tree, base);
    var run, now := w'.heads[|w.heads|].from.value, w'.heads[|w.heads|].manifest;
    var s := run.sync;
    OneFileSame(v.base, last, base);
    forall p ensures Act(s, p) == Unchanged || Act(s, p) == Upload { LocalAhead(s.base, s.local, s.remote, p); }
    CombinationTheorems.OnlyUploadsGiveLocal(s, run.recorded, run.combined, run.names);
    OneFileByContent(v.tree, s.local, tree);
    OneFileByContent(s.local, run.combined, tree);
    OneFileByContent(run.combined, now, tree);
    OneFileByContent(now, v'.tree, tree);
    OneFileByContent(v'.tree, v'.base, tree);
  }

  /** A device without changes of its own takes the head. */
  lemma Downloaded(editors: set<nat>, ws: seq<World>, d: nat, base: Content, head: Content) returns (ws': seq<World>)
    requires History(editors, ws) && d in Last(ws).devices
    requires Resting(Last(ws).digest, Last(ws).devices[d], base, base) && HeadIs(Last(ws), head)
    ensures History(editors, ws') && Completed(Last(ws), Last(ws'), d) && Last(ws').heads == Last(ws).heads
    ensures Resting(Last(ws').digest, Last(ws').devices[d], head, head)
  {
    ws' := AttemptDone(editors, ws, d, base, base, head);
    DownloadedTree(Last(ws), Last(ws'), d, base, head);
  }

  lemma DownloadedTree(w: World, w': World, d: nat, base: Content, head: Content)
    requires d in w.devices && Completed(w, w', d)
    requires Resting(w.digest, w.devices[d], base, base) && HeadIs(w, head)
    ensures w'.heads == w.heads && Resting(w'.digest, w'.devices[d], head, head)
  {
    var v, v', last := w.devices[d], w'.devices[d], w.heads[|w.heads| - 1].manifest;
    OneFilePassive(v.base, v.tree, last, base, base, head);
    OneFileByContent(last, v'.tree, head);
    OneFileByContent(v'.tree, v'.base, head);
  }
}
