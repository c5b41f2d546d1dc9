/** The workspace head: one compare-and-set register, implemented by a database row and by a file. */
module HeadRegister {
  import opened Options
  import opened ObjectStore

  const U64_MAX: nat := 0xFFFF_FFFF_FFFF_FFFF

  datatype Head = Head(manifest: Option<string>, revision: nat, updatedBy: Option<string>)

  const NO_HEAD := Head(None, 0, None)

  datatype HeadResult = Updated | Conflict

  datatype HeadError = ManifestNotFound | OutOfRange | RevisionOverflow

  datatype Outcome = Done(result: HeadResult, head: Head) | Failed(error: HeadError)

  // ---------------------------------------------------------------- the register

  /** One attempt to publish. */
  datatype Call = Call(expected: nat, manifest: string, updatedBy: Option<string>)

  predicate Succeeds(h: Head, call: Call) {
    h.revision == call.expected
  }

  /** Compare and set: the head moves on exactly if the caller knew its revision. */
  function Cas(h: Head, call: Call): Head {
    if Succeeds(h, call) then Head(Some(call.manifest), h.revision + 1, call.updatedBy) else h
  }

  function CasOutcome(h: Head, call: Call): Outcome {
    Done(if Succeeds(h, call) then Updated else Conflict, Cas(h, call))
  }

  // ---------------------------------------------------------------- the database row

  datatype HeadRow = HeadRow(manifest: string, revision: nat, updatedBy: Option<string>)

  function RowHead(row: Option<HeadRow>): Head {
    match row
    case None => NO_HEAD
    case Some(r) => Head(Some(r.manifest), r.revision, r.updatedBy)
  }

  class SqliteHead {
    const store: IndexedStore
    var row: Option<HeadRow>

    constructor (store: IndexedStore)
      requires store.Valid()
      ensures this.store == store && row == None && Valid()
    {
      this.store, row := store, None;
    }

    /** The head names a stored manifest, and its row, once there, has a positive revision. */
    ghost predicate Valid()
      reads this, store
    {
      store.Valid() && (row.Some? ==> row.value.revision > 0 && row.value.manifest in store.files)
    }

    /** Reads the head and the manifest it names, which is always there. */
    method GetHead() returns (found: bool, h: Head)
      requires Valid()
      modifies store`rows
      ensures Valid() && found && h == RowHead(row)
    {
      h := RowHead(row);
      found := true;
      if h.manifest.Some? {
        var manifest := store.GetObject(ObjectId(Manifest, h.manifest.value));
        found := manifest.Ok?;
      }
    }

    /** `update_head` of the indexed storage: the manifest must exist, then the row is updated. */
    method UpdateHead(call: Call) returns (r: Outcome)
      requires Valid()
      modifies this`row, store`rows
      ensures Valid()
      ensures call.manifest !in store.files ==> r == Failed(ManifestNotFound)
      ensures call.manifest in store.files && call.expected > I64_MAX ==> r == Failed(OutOfRange)
      ensures call.manifest in store.files && call.expected == I64_MAX ==> r == Failed(RevisionOverflow)
      ensures call.manifest in store.files && call.expected < I64_MAX ==>
        && r.Done? && r.head == RowHead(row)
        && (r.result == Updated <==> old(RowHead(row)).revision == call.expected)
        && (r.result == Updated ==> RowHead(row) == Head(Some(call.manifest), call.expected + 1, call.updatedBy))
        && (r.result == Conflict ==> row == old(row))
      ensures call.manifest in store.files && call.expected < I64_MAX ==>
        r == CasOutcome(old(RowHead(row)), call) && RowHead(row) == Cas(old(RowHead(row)), call)
      ensures r.Failed? ==> row == old(row)
    {
      var present := store.ObjectExists(ObjectId(Manifest, call.manifest));
      if present != Ok(true) {
        return Failed(ManifestNotFound);
      }
      r := UpdateRow(call);
    }

    /** The transaction: insert the first revision, or update the row that has the expected one. */
    method UpdateRow(call: Call) returns (r: Outcome)
      requires Valid() && call.manifest in store.files
      modifies this`row
      ensures Valid()
      ensures call.expected > I64_MAX ==> r == Failed(OutOfRange)
      ensures call.expected == I64_MAX ==> r == Failed(RevisionOverflow)
      ensures call.expected < I64_MAX ==>
        && r.Done? && r.head == RowHead(row)
        && (r.result == Updated <==> old(RowHead(row)).revision == call.expected)
        && (r.result == Updated ==> RowHead(row) == Head(Some(call.manifest), call.expected + 1, call.updatedBy))
        && (r.result == Conflict ==> row == old(row))
      ensures call.expected < I64_MAX ==>
        r == CasOutcome(old(RowHead(row)), call) && RowHead(row) == Cas(old(RowHead(row)), call)
      ensures r.Failed? ==> row == old(row)
    {
      if call.expected > I64_MAX {
        return Failed(OutOfRange);
      }
      var next := call.expected + 1;
      if next > I64_MAX {
        return Failed(RevisionOverflow);
      }
      var affected := 0;
      if call.expected == 0 {
        if row == None {
          row, affected := Some(HeadRow(call.manifest, next, call.updatedBy)), 1;
        }
      } else if row.Some? && row.value.revision == call.expected {
        row, affected := Some(HeadRow(call.manifest, next, call.updatedBy)), 1;
      }
      r := Done(if affected == 1 then Updated else Conflict, RowHead(row));
    }
  }

  // ---------------------------------------------------------------- the file

  class FileHead {
    /** Hashes of the stored manifests. */
    var manifests: set<string>
    var stored: Option<Head>

    constructor ()
      ensures manifests == {} && stored == None && Valid()
    {
      manifests, stored := {}, None;
    }

    function Current(): Head
      reads this
    {
      match stored case None => NO_HEAD case Some(h) => h
    }

    ghost predicate Valid()
      reads this
    {
      && Current().revision <= U64_MAX
      && (Current().manifest.Some? <==> Current().revision > 0)
      && (Current().manifest.Some? ==> Current().manifest.value in manifests)
    }

    method PutManifest(hash: string)
      requires Valid()
      modifies this`manifests
      ensures Valid() && manifests == old(manifests) + {hash}
    {
      manifests := manifests + {hash};
    }

    method UpdateHead(call: Call) returns (r: Outcome)
      requires Valid()
      modifies this`stored
      ensures Valid()
      ensures call.manifest !in manifests ==> r == Failed(ManifestNotFound)
      ensures call.manifest in manifests && old(Current()).revision == call.expected == U64_MAX ==>
        r == Failed(RevisionOverflow)
      ensures call.manifest in manifests && !(old(Current()).revision == call.expected == U64_MAX) ==>
        && r.Done? && r.head == Current()
        && (r.result == Updated <==> old(Current()).revision == call.expected)
        && (r.result == Updated ==> Current() == Head(Some(call.manifest), call.expected + 1, call.updatedBy))
        && (r.result == Conflict ==> stored == old(stored))
      ensures call.manifest in manifests && !(old(Current()).revision == call.expected == U64_MAX) ==>
        r == CasOutcome(old(Current()), call) && Current() == Cas(old(Current()), call)
      ensures r.Failed? ==> Current() == old(Current())
    {
      if call.manifest !in manifests {
        return Failed(ManifestNotFound);
      }
      var current := Current();
      if current.revision != call.expected {
        return Done(Conflict, current);
      }
      if current.revision >= U64_MAX {
        return Failed(RevisionOverflow);
      }
      var next := Head(Some(call.manifest), current.revision + 1, call.updatedBy);
      stored := Some(next);
      r := Done(Updated, next);
    }
  }

  // ---------------------------------------------------------------- runs of the register

  function AfterCalls(calls: seq<Call>): Head {
    if calls == [] then NO_HEAD else Cas(AfterCalls(calls[..|calls| - 1]), calls[|calls| - 1])
  }

  /** What the `i`-th caller is told. */
  function OutcomeAt(calls: seq<Call>, i: nat): Outcome
    requires i < |calls|
  {
    CasOutcome(AfterCalls(calls[..i]), calls[i])
  }

  predicate UpdatedAt(calls: seq<Call>, i: nat)
    requires i < |calls|
  {
    OutcomeAt(calls, i).result == Updated
  }

  function UpdatedCount(calls: seq<Call>): nat {
    if calls == [] then 0
    else UpdatedCount(calls[..|calls| - 1]) + if UpdatedAt(calls, |calls| - 1) then 1 else 0
  }

  /** Every caller is told the head its call left, and `Updated` exactly if it knew the revision. */
  lemma OutcomesAreTrue(calls: seq<Call>, i: nat)
    requires i < |calls|
    ensures OutcomeAt(calls, i).head == AfterCalls(calls[..i + 1])
    ensures UpdatedAt(calls, i) <==> AfterCalls(calls[..i]).revision == calls[i].expected
    ensures UpdatedAt(calls, i) ==>
      AfterCalls(calls[..i + 1]) == Head(Some(calls[i].manifest), calls[i].expected + 1, calls[i].updatedBy)
    ensures !UpdatedAt(calls, i) ==> AfterCalls(calls[..i + 1]) == AfterCalls(calls[..i])
  {
    assert calls[..i + 1][..i] == calls[..i];
  }

  /** The revision counts the calls that were answered with `Updated`. */
  lemma {:induction false} RevisionCountsUpdates(calls: seq<Call>)
    ensures AfterCalls(calls).revision == UpdatedCount(calls)
  {
    if calls == [] {
    } else {
      RevisionCountsUpdates(calls[..|calls| - 1]);
    }
  }

  lemma {:induction false} RevisionsGrow(calls: seq<Call>, i: nat, j: nat)
    requires i <= j <= |calls|
    ensures AfterCalls(calls[..i]).revision <= AfterCalls(calls[..j]).revision
    decreases j
  {
    if i == j {
    } else {
      RevisionsGrow(calls, i, j - 1);
      assert calls[..j][..j - 1] == calls[..j - 1];
    }
  }

  /** Among all callers that expect the same revision at most one is told `Updated`. */
  lemma OneWinnerPerRevision(calls: seq<Call>, i: nat, j: nat)
    requires i < j < |calls| && UpdatedAt(calls, i) && UpdatedAt(calls, j)
    ensures calls[i].expected < calls[j].expected
  {
    OutcomesAreTrue(calls, i);
    OutcomesAreTrue(calls, j);
    RevisionsGrow(calls, i + 1, j);
  }

  /** The head is always that of the last caller who was told `Updated`. */
  lemma {:induction false} HeadIsLastPublished(calls: seq<Call>) returns (k: nat)
    requires AfterCalls(calls) != NO_HEAD
    ensures k < |calls| && UpdatedAt(calls, k)
    ensures AfterCalls(calls) == Head(Some(calls[k].manifest), calls[k].expected + 1, calls[k].updatedBy)
    ensures forall i | k < i < |calls| :: !UpdatedAt(calls, i)
  {
    var front := calls[..|calls| - 1];
    if UpdatedAt(calls, |calls| - 1) {
      k := |calls| - 1;
    } else {
      k := HeadIsLastPublished(front);
      assert forall i | 0 <= i < |front| :: front[..i] == calls[..i];
      forall i | k < i < |calls| ensures !UpdatedAt(calls, i) {
        if i < |front| { assert !UpdatedAt(front, i); }
      }
      assert UpdatedAt(front, k);
    }
  }
}
