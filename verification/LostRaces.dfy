/** Attempts that lost the race or were interrupted, and what the next ones of the same device keep. */
module LostRaces {
  import opened Options
  import opened Data
  import opened Paths
  import opened Manifests
  import opened Combination
  import opened CombinationTheorems
  import opened Protocol
  import ProtocolSafety
  import Runs

  /** Two attempts of one device with no edit in between: the second finds the tree the first one applied,
      and as base the remote manifest the first one saved, or still its base if it was interrupted before
      that. */
  ghost predicate Follows(run: Run, next: Run) {
    && SameContent(next.sync.local, run.combined)
    && (SameContent(next.sync.base, run.sync.remote) || SameContent(next.sync.base, run.sync.base))
  }

  ghost predicate Attempts(heads: seq<Head>, runs: seq<Run>) {
    && |runs| > 0 && (forall k | 0 <= k < |runs| :: RunOk(heads, runs[k]))
    && Runs.Chain(runs, (a, b) => Follows(a, b))
  }

  /** That is what a device runs into when an attempt ends after applying, with or without its base saved:
      `vs` are its states from staging that attempt to the records of the next one. */
  lemma NextAttemptFollows(digest: Digest, heads: seq<Head>, heads': seq<Head>, vs: seq<Device>)
    requires |vs| == 10 && Stage(digest, heads, vs[0], vs[1]) && RecordConflicts(vs[1], vs[2])
    requires Apply(digest, vs[2], vs[3]) && (SaveBase(vs[3], vs[4]) || vs[4] == vs[3]) && Abort(vs[4], vs[5])
    requires Scan(vs[5], vs[6]) && Fetch(heads', vs[6], vs[7])
    requires Stage(digest, heads', vs[7], vs[8]) && RecordConflicts(vs[8], vs[9])
    ensures Follows(vs[2].phase.run, vs[9].phase.run)
  {
    SameTransitive(vs[9].phase.run.sync.local, vs[8].tree, vs[2].phase.run.combined);
  }

  /** What the `i`-th attempt left at a path is in the last combination, merged with other versions on the
      way, or some attempt found it published. */
  ghost predicate Reaches(runs: seq<Run>, i: nat, q: Path, content: Content)
    requires i < |runs|
    decreases |runs| - i
  {
    && At(runs[i].combined, q) == content
    && (|| i == |runs| - 1
        || At(runs[i + 1].sync.base, q) == content
        || Reaches(runs, i + 1, q, content)
        || (MergedHere(runs[i + 1].sync, runs[i + 1].combined, q)
              && Reaches(runs, i + 1, q, At(runs[i + 1].combined, q))))
  }

  lemma {:induction false} NothingIsForgotten(heads: seq<Head>, runs: seq<Run>, i: nat, q: Path)
    requires Attempts(heads, runs) && i < |runs|
    ensures Reaches(runs, i, q, At(runs[i].combined, q))
    decreases |runs| - i
  {
    if i == |runs| - 1 {
    } else {
      var content, next := At(runs[i].combined, q), runs[i + 1];
      Runs.ChainStep(runs, 0, (a, b) => Follows(a, b), i);
      assert At(next.sync.local, q) == content;
      NothingIsForgotten(heads, runs, i + 1, q);
      if At(next.sync.base, q) != content {
        LocalEditSurvives(next.sync, next.recorded, next.combined, next.names, q);
      }
    }
  }

  /** The `i`-th attempt merged the version or copied it aside, and that is not forgotten. */
  ghost predicate SetAside(runs: seq<Run>, i: nat, p: Path, version: Content)
    requires i < |runs|
  {
    || (MergedHere(runs[i].sync, runs[i].combined, p) && Reaches(runs, i, p, At(runs[i].combined, p)))
    || exists r :: r in runs[i].names && AtOrUnder(r, p) && Reaches(runs, i, Rebase(r, runs[i].names[r], p), version)
  }

  /** The device had the version and took another one from the head it read, was then interrupted, and so
      takes the new one for its own in the next attempt. */
  ghost predicate TakenForOwn(runs: seq<Run>, i: nat, p: Path, version: Content)
    requires i < |runs|
  {
    && i + 1 < |runs| && !SameContent(runs[i + 1].sync.base, runs[i].sync.remote)
    && At(runs[i].sync.base, p) == version && At(runs[i].sync.local, p) == version
    && At(runs[i].sync.remote, p) != version
  }

  /** The device had synchronized the version and replaced it before all these attempts. */
  ghost predicate Replaced(s: Sync, p: Path, version: Content) {
    At(s.base, p) == version && At(s.local, p) != version
  }

  lemma OneAttempt(heads: seq<Head>, runs: seq<Run>, i: nat, p: Path, version: Content)
    requires Attempts(heads, runs) && i < |runs| && version != Absent && At(runs[i].sync.remote, p) == version
    ensures At(runs[i].combined, p) == version || SetAside(runs, i, p, version) || Replaced(runs[i].sync, p, version)
  {
    var run := runs[i];
    RemoteVersionSurvives(run.sync, run.recorded, run.combined, run.names, p);
    NothingIsForgotten(heads, runs, i, p);
    if CopiedAside(run.sync, run.combined, run.names, p) {
      var r :| r in run.names && AtOrUnder(r, p) &&
        Get(run.combined, Rebase(r, run.names[r], p)) == Get(run.sync.remote, p);
      NothingIsForgotten(heads, runs, i, Rebase(r, run.names[r], p));
    }
  }

  ghost predicate Explained(runs: seq<Run>, i: nat, p: Path, version: Content)
    requires i < |runs|
  {
    SetAside(runs, i, p, version) || TakenForOwn(runs, i, p, version)
  }

  lemma BaseComesFrom(runs: seq<Run>, i: nat, p: Path, version: Content)
    requires i + 1 < |runs| && Follows(runs[i], runs[i + 1]) && Replaced(runs[i + 1].sync, p, version)
    ensures At(runs[i].combined, p) != version
    ensures At(runs[i].sync.remote, p) == version
      || Replaced(runs[i].sync, p, version) || TakenForOwn(runs, i, p, version)
  {
    assert At(runs[i].combined, p) == At(runs[i + 1].sync.local, p);
    if SameContent(runs[i + 1].sync.base, runs[i].sync.remote) {
      assert At(runs[i].sync.remote, p) == version;
    } else {
      assert At(runs[i].sync.base, p) == version;
    }
  }

  /** Why the base of an attempt holds a version its local side lacks: something in the attempt before. */
  lemma CauseInAttemptBefore(heads: seq<Head>, runs: seq<Run>, i: nat, p: Path, version: Content)
    requires Attempts(heads, runs) && i + 1 < |runs| && version != Absent && Replaced(runs[i + 1].sync, p, version)
    ensures Explained(runs, i, p, version) || Replaced(runs[i].sync, p, version)
  {
    Runs.ChainStep(runs, 0, (a, b) => Follows(a, b), i);
    BaseComesFrom(runs, i, p, version);
    if At(runs[i].sync.remote, p) == version { OneAttempt(heads, runs, i, p, version); }
  }

  ghost predicate CausesGoBack(runs: seq<Run>, p: Path, version: Content) {
    forall j: nat | j + 1 < |runs| && Replaced(runs[j + 1].sync, p, version) ::
      Explained(runs, j, p, version) || Replaced(runs[j].sync, p, version)
  }

  lemma AllCausesGoBack(heads: seq<Head>, runs: seq<Run>, p: Path, version: Content)
    requires Attempts(heads, runs) && version != Absent
    ensures CausesGoBack(runs, p, version)
  {
    forall j: nat | j + 1 < |runs| && Replaced(runs[j + 1].sync, p, version)
      ensures Explained(runs, j, p, version) || Replaced(runs[j].sync, p, version)
    {
      CauseInAttemptBefore(heads, runs, j, p, version);
    }
  }

  lemma {:induction false} CauseBefore(runs: seq<Run>, k: nat, p: Path, version: Content) returns (i: nat)
    requires k < |runs| && Replaced(runs[k].sync, p, version)
    requires CausesGoBack(runs, p, version)
    ensures i <= k && (Explained(runs, i, p, version) || Replaced(runs[0].sync, p, version))
  {
    i := 0;
    if k == 0 {
    } else {
      i := k - 1;
      if !Explained(runs, i, p, version) {
        assert Replaced(runs[i + 1].sync, p, version);
        i := CauseBefore(runs, k - 1, p, version);
      }
    }
  }

  lemma LastAttempt(heads: seq<Head>, runs: seq<Run>, p: Path, version: Content) returns (k: nat)
    requires Attempts(heads, runs) && version != Absent && At(runs[|runs| - 1].sync.remote, p) == version
    ensures k < |runs|
    ensures At(runs[|runs| - 1].combined, p) == version
      || Explained(runs, k, p, version) || Replaced(runs[0].sync, p, version)
  {
    k := |runs| - 1;
    OneAttempt(heads, runs, k, p, version);
    if Replaced(runs[k].sync, p, version) {
      AllCausesGoBack(heads, runs, p, version);
      k := CauseBefore(runs, k, p, version);
    }
  }

  lemma RunOfHead(heads: seq<Head>, n: nat, p: Path)
    requires HeadsOk(heads) && n + 1 < |heads|
    ensures heads[n + 1].from.Some? && heads[n + 1].from.value.sync.remote == heads[n].manifest
    ensures At(heads[n + 1].manifest, p) == At(heads[n + 1].from.value.combined, p)
  {
    var run := heads[n + 1].from.value;
    assert run.sync.revision == n && Reads(heads, run.sync, run.baseRevision);
  }

  /** However many attempts of the publisher were lost or interrupted before it published, with nothing
      edited in between, a version of the head before is in place in the new head, or one attempt set it
      aside and it is not forgotten; or the device had replaced it before them all. An interruption between
      applying and saving adds one case: the version was taken for an older one the device had before. */
  lemma AttemptsDropNothing(ws: seq<World>, i: nat, n: nat, runs: seq<Run>, p: Path) returns (k: nat)
    requires Execution(ws) && i < |ws| && n + 1 < |ws[i].heads| && p in ws[i].heads[n].manifest
    requires Attempts(ws[i].heads, runs) && ws[i].heads[n + 1].from == Some(runs[|runs| - 1])
    ensures k < |runs|
    ensures
      var version := At(ws[i].heads[n].manifest, p);
      || At(ws[i].heads[n + 1].manifest, p) == version
      || SetAside(runs, k, p, version)
      || TakenForOwn(runs, k, p, version)
      || Replaced(runs[0].sync, p, version)
  {
    ProtocolSafety.InvariantHolds(ws, i);
    RunOfHead(ws[i].heads, n, p);
    k := LastAttempt(ws[i].heads, runs, p, At(ws[i].heads[n].manifest, p));
  }
}
