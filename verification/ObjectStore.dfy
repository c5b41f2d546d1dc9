/** The indexed object store: one immutable file per content hash, and a catalog nobody can observe. */
module ObjectStore {
  import opened Data

  datatype Kind = Blob | Manifest

  function Prefix(k: Kind): string {
    match k case Blob => "blob_" case Manifest => "manifest_"
  }

  /** An object id is a prefix and a hash; the hash alone names the file. */
  datatype ObjectId = ObjectId(kind: Kind, hash: string)

  function IdText(id: ObjectId): string {
    Prefix(id.kind) + id.hash
  }

  /** The text of an id determines its kind, so no row is ever found under the wrong kind. */
  lemma TextDeterminesId(a: ObjectId, b: ObjectId)
    requires IdText(a) == IdText(b)
    ensures a == b
  {
    var x := IdText(a);
    assert x[0] == Prefix(a.kind)[0] && x[0] == Prefix(b.kind)[0];
    assert x[|Prefix(a.kind)|..] == a.hash && x[|Prefix(b.kind)|..] == b.hash;
  }

  const HASH_ALGORITHM := "sha256"
  const I64_MAX: nat := 0x7FFF_FFFF_FFFF_FFFF

  datatype Row = Row(hashAlgorithm: string, encryptedSize: nat)

  /** The catalog table, keyed by kind and id text. */
  type Rows = map<(Kind, string), Row>

  datatype StoreError = HashMismatch | NotFound | Corruption | IntegerOutOfRange

  datatype PutResult = Created | AlreadyExists

  datatype Result<+T> = Ok(value: T) | Err(error: StoreError) {
    function Map<U>(f: T -> U): Result<U> {
      match this
      case Ok(v) => Ok(f(v))
      case Err(e) => Err(e)
    }
  }

  type Files = map<string, Bytes>

  predicate MatchesId(d: Digest, id: ObjectId, bytes: Bytes) {
    d.hash(bytes) == id.hash
  }

  datatype Store = Store(files: Files, rows: Rows)

  /** The immutable map the store stands for: blobs and manifests of one hash share an entry. */
  function Lookup(files: Files, id: ObjectId): Result<Bytes> {
    if id.hash in files then Ok(files[id.hash]) else Err(NotFound)
  }

  // ---------------------------------------------------------------- the catalog

  function RowKey(id: ObjectId): (Kind, string) {
    (id.kind, IdText(id))
  }

  /** The same text under the other kind: a row no consistent catalog has. */
  function WrongKindKey(id: ObjectId): (Kind, string) {
    (if id.kind == Blob then Manifest else Blob, IdText(id))
  }

  predicate RowValid(size: nat, row: Row) {
    row.hashAlgorithm == HASH_ALGORITHM && row.encryptedSize == size
  }

  /** `insert_object_if_absent`: whether a row is inserted, or why the rows found are refused. */
  function InsertAnswer(rows: Rows, id: ObjectId, size: nat): Result<bool> {
    if size > I64_MAX then Err(IntegerOutOfRange)
    else if RowKey(id) in rows then if RowValid(size, rows[RowKey(id)]) then Ok(false) else Err(Corruption)
    else if WrongKindKey(id) in rows then Err(Corruption)
    else Ok(true)
  }

  function InsertedRows(rows: Rows, id: ObjectId, size: nat): Rows {
    if InsertAnswer(rows, id, size) == Ok(true) then rows[RowKey(id) := Row(HASH_ALGORITHM, size)] else rows
  }

  /** What a missing file is reported as: a row for it means corruption. */
  function MissingAnswer(rows: Rows, id: ObjectId): StoreError {
    if RowKey(id) in rows || WrongKindKey(id) in rows then Corruption else NotFound
  }

  // ---------------------------------------------------------------- answers, from files and rows

  function GetAnswer(d: Digest, st: Store, id: ObjectId): Result<Bytes> {
    if id.hash !in st.files then Err(MissingAnswer(st.rows, id))
    else
      var bytes := st.files[id.hash];
      if MatchesId(d, id, bytes) then InsertAnswer(st.rows, id, |bytes|).Map(_ => bytes) else Err(Corruption)
  }

  function ExistsAnswer(d: Digest, st: Store, id: ObjectId): Result<bool> {
    match GetAnswer(d, st, id)
    case Ok(_) => Ok(true)
    case Err(NotFound) => Ok(false)
    case Err(e) => Err(e)
  }

  function PutAnswer(d: Digest, st: Store, id: ObjectId, bytes: Bytes): Result<PutResult> {
    if !MatchesId(d, id, bytes) then Err(HashMismatch)
    else if id.hash in st.files && st.files[id.hash] != bytes then Err(Corruption)
    else InsertAnswer(st.rows, id, |bytes|).Map(inserted => if inserted then Created else AlreadyExists)
  }

  /** One call, crash or loss. */
  datatype Step =
    | Put(id: ObjectId, bytes: Bytes)
    | Interrupted(id: ObjectId, bytes: Bytes)
    | Lose(lost: set<(Kind, string)>)
    | Read(id: ObjectId)

  function WithFile(st: Store, id: ObjectId, bytes: Bytes): Store {
    if id.hash in st.files then st else st.(files := st.files[id.hash := bytes])
  }

  function After(d: Digest, st: Store, step: Step): Store {
    match step
    case Put(id, bytes) =>
      if !MatchesId(d, id, bytes) then st
      else if id.hash in st.files && st.files[id.hash] != bytes then st
      else WithFile(st, id, bytes).(rows := InsertedRows(st.rows, id, |bytes|))
    case Interrupted(id, bytes) =>
      if MatchesId(d, id, bytes) then WithFile(st, id, bytes) else st
    case Lose(lost) => st.(rows := st.rows - lost)
    case Read(id) =>
      if id.hash in st.files && MatchesId(d, id, st.files[id.hash])
      then st.(rows := InsertedRows(st.rows, id, |st.files[id.hash]|))
      else st
  }

  function AfterAll(d: Digest, st: Store, steps: seq<Step>): Store {
    if steps == [] then st else After(d, AfterAll(d, st, steps[..|steps| - 1]), steps[|steps| - 1])
  }

  // ---------------------------------------------------------------- consistency

  ghost predicate FilesOk(d: Digest, files: Files) {
    forall h | h in files :: d.hash(files[h]) == h && |files[h]| <= I64_MAX
  }

  /** Every row describes a file; files may lack their row. */
  ghost predicate RowsOk(files: Files, rows: Rows) {
    forall key | key in rows :: Described(files, key, rows[key])
  }

  ghost predicate Described(files: Files, key: (Kind, string), row: Row) {
    exists id :: RowDescribes(files, key, row, id)
  }

  ghost predicate RowDescribes(files: Files, key: (Kind, string), row: Row, id: ObjectId) {
    && key == (id.kind, IdText(id)) && id.hash in files
    && row == Row(HASH_ALGORITHM, |files[id.hash]|)
  }

  lemma RowOf(files: Files, rows: Rows, id: ObjectId)
    requires RowsOk(files, rows)
    ensures (id.kind, IdText(id)) in rows ==>
      id.hash in files && rows[(id.kind, IdText(id))] == Row(HASH_ALGORITHM, |files[id.hash]|)
    ensures forall k | (k, IdText(id)) in rows :: k == id.kind
  {
    forall k | (k, IdText(id)) in rows
      ensures k == id.kind && id.hash in files && rows[(k, IdText(id))] == Row(HASH_ALGORITHM, |files[id.hash]|)
    {
      var other :| RowDescribes(files, (k, IdText(id)), rows[(k, IdText(id))], other);
      TextDeterminesId(id, other);
    }
  }

  lemma RowAdded(files: Files, rows: Rows, id: ObjectId)
    requires RowsOk(files, rows) && id.hash in files
    ensures RowsOk(files, rows[(id.kind, IdText(id)) := Row(HASH_ALGORITHM, |files[id.hash]|)])
  {
    var key, row := (id.kind, IdText(id)), Row(HASH_ALGORITHM, |files[id.hash]|);
    var rows' := rows[key := row];
    assert RowDescribes(files, key, row, id);
    forall k | k in rows' ensures Described(files, k, rows'[k]) {
      if k != key { assert rows'[k] == rows[k]; }
    }
  }

  lemma FileAdded(d: Digest, files: Files, rows: Rows, h: string, bytes: Bytes)
    requires FilesOk(d, files) && RowsOk(files, rows) && d.hash(bytes) == h && |bytes| <= I64_MAX
    requires h in files ==> files[h] == bytes
    ensures FilesOk(d, files[h := bytes]) && RowsOk(files[h := bytes], rows)
  {
    forall key | key in rows ensures Described(files[h := bytes], key, rows[key]) {
      var id :| RowDescribes(files, key, rows[key], id);
      assert RowDescribes(files[h := bytes], key, rows[key], id);
    }
  }

  ghost predicate Consistent(d: Digest, st: Store) {
    FilesOk(d, st.files) && RowsOk(st.files, st.rows)
  }

  /** In a consistent store an insertion is never refused. */
  lemma InsertionSucceeds(d: Digest, st: Store, id: ObjectId)
    requires Consistent(d, st) && id.hash in st.files
    ensures InsertAnswer(st.rows, id, |st.files[id.hash]|) == Ok(RowKey(id) !in st.rows)
    ensures InsertedRows(st.rows, id, |st.files[id.hash]|) ==
      st.rows[RowKey(id) := Row(HASH_ALGORITHM, |st.files[id.hash]|)]
  {
    RowOf(st.files, st.rows, id);
    assert WrongKindKey(id) !in st.rows;
  }

  /** In a consistent store the answers are those of the map, whatever rows there are; corruption is
      never reported. */
  lemma ConsistentAnswers(d: Digest, st: Store, id: ObjectId)
    requires Consistent(d, st)
    ensures GetAnswer(d, st, id) == Lookup(st.files, id)
    ensures ExistsAnswer(d, st, id) == Ok(Lookup(st.files, id).Ok?)
  {
    RowOf(st.files, st.rows, id);
    if id.hash in st.files {
      InsertionSucceeds(d, st, id);
    } else {
      assert WrongKindKey(id) !in st.rows;
    }
  }

  /** The rows that an answer can see. */
  predicate RowsFit(st: Store, id: ObjectId) {
    if id.hash !in st.files then RowKey(id) !in st.rows && WrongKindKey(id) !in st.rows
    else if RowKey(id) in st.rows then RowValid(|st.files[id.hash]|, st.rows[RowKey(id)])
    else WrongKindKey(id) !in st.rows
  }

  /** Exactly when the catalog shows: with sound files an answer differs from the map if and only if a
      row is left without its file, wrong, or under the wrong kind. */
  lemma VisibleExactlyWhenRowsMisfit(d: Digest, st: Store, id: ObjectId)
    requires FilesOk(d, st.files)
    ensures GetAnswer(d, st, id) == Lookup(st.files, id) <==> RowsFit(st, id)
  {
  }

  /** No row carries the text of the id, under either kind. */
  predicate NoRow(rows: Rows, id: ObjectId) {
    forall key | key in rows :: key.1 != IdText(id)
  }

  /** The row of the id describes exactly this object. */
  predicate ExactRow(rows: Rows, id: ObjectId, size: nat) {
    (id.kind, IdText(id)) in rows && rows[(id.kind, IdText(id))] == Row("sha256", size)
  }

  class IndexedStore {
    const digest: Digest
    var files: Files
    var rows: Rows

    constructor (digest: Digest)
      ensures this.digest == digest && View() == Store(map[], map[]) && Valid()
    {
      this.digest, files, rows := digest, map[], map[];
    }

    function View(): Store
      reads this
    {
      Store(files, rows)
    }

    ghost predicate Valid()
      reads this
    {
      Consistent(digest, View())
    }

    /** An existing row must describe the object exactly; a row under the wrong kind is refused. For a file
        of a consistent store neither ever happens: the row is there afterwards, and the store consistent. */
    method InsertObjectIfAbsent(id: ObjectId, size: nat) returns (r: Result<bool>)
      modifies this`rows
      ensures r == InsertAnswer(old(rows), id, size)
      ensures rows == InsertedRows(old(rows), id, size)
      ensures size > I64_MAX ==> r == Err(IntegerOutOfRange)
      ensures size <= I64_MAX ==>
        r == if NoRow(old(rows), id) then Ok(true)
             else if ExactRow(old(rows), id, size) then Ok(false)
             else Err(Corruption)
      ensures rows == if r == Ok(true) then old(rows)[(id.kind, IdText(id)) := Row("sha256", size)] else old(rows)
      ensures old(Valid()) && id.hash in files && size == |files[id.hash]| ==>
        Valid() && r == Ok(RowKey(id) !in old(rows)) && RowKey(id) in rows
    {
      KindsOfText(rows, id);
      if Consistent(digest, View()) && id.hash in files && size == |files[id.hash]| {
        InsertionSucceeds(digest, View(), id);
        RowAdded(files, rows, id);
      }
      if size > I64_MAX {
        return Err(IntegerOutOfRange);
      }
      if RowKey(id) in rows {
        return if RowValid(size, rows[RowKey(id)]) then Ok(false) else Err(Corruption);
      }
      if WrongKindKey(id) in rows {
        return Err(Corruption);
      }
      rows := rows[RowKey(id) := Row(HASH_ALGORITHM, size)];
      r := Ok(true);
    }

    /** The file first, then the row. Bytes of another id and an existing file with other bytes are refused,
        and nothing changes; a row that does not describe the object is reported as corruption, after the file
        was written. In a consistent store this never fails on a matching id, and Created means that the row
        was missing. */
    method PutObject(id: ObjectId, bytes: Bytes) returns (r: Result<PutResult>)
      modifies this
      ensures r == PutAnswer(digest, old(View()), id, bytes)
      ensures View() == After(digest, old(View()), Put(id, bytes))
      ensures digest.hash(bytes) != id.hash ==> r == Err(HashMismatch) && View() == old(View())
      ensures digest.hash(bytes) == id.hash && id.hash in old(files) && old(files)[id.hash] != bytes ==>
        r == Err(Corruption) && View() == old(View())
      ensures digest.hash(bytes) == id.hash && (id.hash in old(files) ==> old(files)[id.hash] == bytes) ==>
        && files == old(files)[id.hash := bytes]
        && (|bytes| <= I64_MAX ==>
              r == if NoRow(old(rows), id) then Ok(Created)
                   else if ExactRow(old(rows), id, |bytes|) then Ok(AlreadyExists)
                   else Err(Corruption))
      ensures old(Valid()) && CollisionFree(digest) && |bytes| <= I64_MAX ==>
        && Valid()
        && (MatchesId(digest, id, bytes) ==>
              && Lookup(files, id) == Ok(bytes)
              && r == Ok(if RowKey(id) in old(rows) then AlreadyExists else Created))
    {
      ghost var st := View();
      if Consistent(digest, st) && CollisionFree(digest) && |bytes| <= I64_MAX {
        PutInConsistent(digest, st, id, bytes);
      }
      if !MatchesId(digest, id, bytes) {
        return Err(HashMismatch);
      }
      if id.hash !in files {
        files := files[id.hash := bytes];
      }
      var canonical := files[id.hash];
      if canonical != bytes || !MatchesId(digest, id, canonical) {
        return Err(Corruption);
      }
      var inserted := InsertObjectIfAbsent(id, |canonical|);
      r := inserted.Map(created => if created then Created else AlreadyExists);
    }

    /** A crash after the file was published and before its row was inserted. */
    method PutInterrupted(id: ObjectId, bytes: Bytes)
      modifies this`files
      ensures View() == After(digest, old(View()), Interrupted(id, bytes))
      ensures files == if digest.hash(bytes) == id.hash && id.hash !in old(files) then old(files)[id.hash := bytes]
                       else old(files)
      ensures old(Valid()) && |bytes| <= I64_MAX ==> Valid()
    {
      ghost var st := View();
      if MatchesId(digest, id, bytes) && id.hash !in files {
        files := files[id.hash := bytes];
        if Consistent(digest, st) && |bytes| <= I64_MAX { FileAdded(digest, st.files, st.rows, id.hash, bytes); }
      }
    }

    /** Any rows may be lost, for instance with the database file. */
    method LoseRows(lost: set<(Kind, string)>)
      modifies this`rows
      ensures View() == After(digest, old(View()), Lose(lost)) && rows == old(rows) - lost
      ensures old(Valid()) ==> Valid()
    {
      rows := rows - lost;
    }

    /** Without the file any row of the id is corruption; a file must hash to its id, and a row of the id must
        describe it. In a consistent store reading depends on the files alone and never reports corruption. */
    method GetObject(id: ObjectId) returns (r: Result<Bytes>)
      modifies this`rows
      ensures r == GetAnswer(digest, old(View()), id)
      ensures View() == After(digest, old(View()), Read(id))
      ensures id.hash !in files ==> r == if NoRow(old(rows), id) then Err(NotFound) else Err(Corruption)
      ensures id.hash in files && digest.hash(files[id.hash]) != id.hash ==> r == Err(Corruption)
      ensures id.hash in files && digest.hash(files[id.hash]) == id.hash && |files[id.hash]| <= I64_MAX ==>
        r == if NoRow(old(rows), id) || ExactRow(old(rows), id, |files[id.hash]|) then Ok(files[id.hash])
             else Err(Corruption)
      ensures old(Valid()) ==> Valid() && r == Lookup(files, id) && (r.Ok? ==> RowKey(id) in rows)
    {
      ghost var st := View();
      if Consistent(digest, st) { ReadInConsistent(digest, st, id); }
      if id.hash !in files {
        var missing := ReportMissingCatalogRow(id);
        return Err(missing);
      }
      var bytes := files[id.hash];
      var verified := VerifyBackfill(id, bytes);
      r := verified.Map(_ => bytes);
    }

    /** Absent without file and row, present with a sound file that no row contradicts; anything else is
        corruption. */
    method ObjectExists(id: ObjectId) returns (r: Result<bool>)
      modifies this`rows
      ensures r == ExistsAnswer(digest, old(View()), id)
      ensures View() == After(digest, old(View()), Read(id))
      ensures id.hash !in files ==> r == if NoRow(old(rows), id) then Ok(false) else Err(Corruption)
      ensures id.hash in files && digest.hash(files[id.hash]) != id.hash ==> r == Err(Corruption)
      ensures id.hash in files && digest.hash(files[id.hash]) == id.hash && |files[id.hash]| <= I64_MAX ==>
        r == if NoRow(old(rows), id) || ExactRow(old(rows), id, |files[id.hash]|) then Ok(true) else Err(Corruption)
      ensures old(Valid()) ==> Valid() && r == Ok(Lookup(files, id).Ok?)
    {
      ghost var st := View();
      if Consistent(digest, st) { ReadInConsistent(digest, st, id); }
      if id.hash !in files {
        var missing := ReportMissingCatalogRow(id);
        return if missing == NotFound then Ok(false) else Err(missing);
      }
      var verified := VerifyBackfill(id, files[id.hash]);
      r := verified.Map(_ => true);
    }

    /** Bytes of another id are corruption. The file of a consistent store always passes, and its row is
        there afterwards. */
    method VerifyBackfill(id: ObjectId, bytes: Bytes) returns (r: Result<bool>)
      modifies this`rows
      ensures r == if MatchesId(digest, id, bytes) then InsertAnswer(old(rows), id, |bytes|) else Err(Corruption)
      ensures rows == if MatchesId(digest, id, bytes) then InsertedRows(old(rows), id, |bytes|) else old(rows)
      ensures digest.hash(bytes) != id.hash ==> r == Err(Corruption)
      ensures digest.hash(bytes) == id.hash && |bytes| <= I64_MAX ==>
        && (r.Ok? <==> NoRow(old(rows), id) || ExactRow(old(rows), id, |bytes|))
        && (r.Err? ==> r.error == Corruption)
      ensures r.Ok? ==>
        ExactRow(rows, id, |bytes|) && rows - {(id.kind, IdText(id))} == old(rows) - {(id.kind, IdText(id))}
      ensures old(Valid()) && Lookup(files, id) == Ok(bytes) ==> Valid() && r.Ok? && RowKey(id) in rows
    {
      if !MatchesId(digest, id, bytes) {
        return Err(Corruption);
      }
      r := InsertObjectIfAbsent(id, |bytes|);
    }

    /** A row without its file is corruption. */
    method ReportMissingCatalogRow(id: ObjectId) returns (e: StoreError)
      ensures e == MissingAnswer(rows, id)
      ensures e == if NoRow(rows, id) then NotFound else Corruption
    {
      var present := exists k :: k in rows && k.1 == IdText(id);
      KindsOfText(rows, id);
      e := if present then Corruption else NotFound;
    }
  }

  lemma KindsOfText(rows: Rows, id: ObjectId)
    ensures (exists k :: k in rows && k.1 == IdText(id)) <==> RowKey(id) in rows || WrongKindKey(id) in rows
  {
    forall k | k in rows && k.1 == IdText(id) ensures k == RowKey(id) || k == WrongKindKey(id) {
      assert k == (k.0, IdText(id)) && (k.0 == Blob || k.0 == Manifest);
    }
    if RowKey(id) in rows { assert RowKey(id).1 == IdText(id); }
    if WrongKindKey(id) in rows { assert WrongKindKey(id).1 == IdText(id); }
  }

  lemma PutInConsistent(d: Digest, st: Store, id: ObjectId, bytes: Bytes)
    requires Consistent(d, st) && CollisionFree(d) && |bytes| <= I64_MAX
    ensures Consistent(d, After(d, st, Put(id, bytes)))
    ensures MatchesId(d, id, bytes) ==>
      && Lookup(After(d, st, Put(id, bytes)).files, id) == Ok(bytes)
      && PutAnswer(d, st, id, bytes) == Ok(if RowKey(id) in st.rows then AlreadyExists else Created)
  {
    if MatchesId(d, id, bytes) {
      FileAdded(d, st.files, st.rows, id.hash, bytes);
      var stored := WithFile(st, id, bytes);
      assert stored.files == st.files[id.hash := bytes];
      InsertionSucceeds(d, stored, id);
      RowAdded(stored.files, stored.rows, id);
    }
  }

  lemma ReadInConsistent(d: Digest, st: Store, id: ObjectId)
    requires Consistent(d, st)
    ensures Consistent(d, After(d, st, Read(id)))
    ensures GetAnswer(d, st, id) == Lookup(st.files, id)
    ensures ExistsAnswer(d, st, id) == Ok(Lookup(st.files, id).Ok?)
    ensures id.hash in st.files ==> RowKey(id) in After(d, st, Read(id)).rows
  {
    ConsistentAnswers(d, st, id);
    if id.hash in st.files {
      InsertionSucceeds(d, st, id);
      RowAdded(st.files, st.rows, id);
    }
  }

  // ---------------------------------------------------------------- runs

  ghost predicate StepFits(step: Step) {
    step.Put? || step.Interrupted? ==> |step.bytes| <= I64_MAX
  }

  ghost predicate StepsFit(steps: seq<Step>) {
    forall i | 0 <= i < |steps| :: StepFits(steps[i])
  }

  lemma StepStaysConsistent(d: Digest, st: Store, step: Step)
    requires CollisionFree(d) && Consistent(d, st) && StepFits(step)
    ensures Consistent(d, After(d, st, step))
  {
    match step
    case Put(id, bytes) => PutInConsistent(d, st, id, bytes);
    case Interrupted(id, bytes) =>
      if MatchesId(d, id, bytes) && id.hash !in st.files { FileAdded(d, st.files, st.rows, id.hash, bytes); }
    case Lose(lost) =>
    case Read(id) => ReadInConsistent(d, st, id);
  }

  /** Every reachable store is consistent, whatever was interrupted or lost. */
  lemma {:induction false} RunsStayConsistent(d: Digest, st: Store, steps: seq<Step>)
    requires CollisionFree(d) && Consistent(d, st) && StepsFit(steps)
    ensures Consistent(d, AfterAll(d, st, steps))
  {
    if steps == [] {
    } else {
      var front, step := steps[..|steps| - 1], steps[|steps| - 1];
      RunsStayConsistent(d, st, front);
      assert StepFits(step);
      StepStaysConsistent(d, AfterAll(d, st, front), step);
    }
  }

  lemma StepIgnoresRows(d: Digest, a: Store, b: Store, step: Step)
    requires a.files == b.files
    ensures After(d, a, step).files == After(d, b, step).files
  {
  }

  lemma {:induction false} RunsIgnoreRows(d: Digest, a: Store, b: Store, steps: seq<Step>)
    requires a.files == b.files
    ensures AfterAll(d, a, steps).files == AfterAll(d, b, steps).files
  {
    if steps == [] {
    } else {
      var front := steps[..|steps| - 1];
      RunsIgnoreRows(d, a, b, front);
      StepIgnoresRows(d, AfterAll(d, a, front), AfterAll(d, b, front), steps[|steps| - 1]);
    }
  }

  /** The catalog is invisible: two consistent stores with the same files, however many rows either has
      lost, give the same answers now and after any further calls, crashes and losses. */
  lemma RowsAreInvisible(d: Digest, a: Store, b: Store, steps: seq<Step>, id: ObjectId)
    requires CollisionFree(d) && Consistent(d, a) && Consistent(d, b) && a.files == b.files && StepsFit(steps)
    ensures GetAnswer(d, AfterAll(d, a, steps), id) == GetAnswer(d, AfterAll(d, b, steps), id)
    ensures ExistsAnswer(d, AfterAll(d, a, steps), id) == ExistsAnswer(d, AfterAll(d, b, steps), id)
    ensures GetAnswer(d, AfterAll(d, a, steps), id) != Err(Corruption)
  {
    RunsStayConsistent(d, a, steps);
    RunsStayConsistent(d, b, steps);
    RunsIgnoreRows(d, a, b, steps);
    ConsistentAnswers(d, AfterAll(d, a, steps), id);
    ConsistentAnswers(d, AfterAll(d, b, steps), id);
  }

  /** Stored once, readable for good, under either kind of id and even if the first put was interrupted. */
  lemma StoredForGood(d: Digest, st: Store, steps: seq<Step>, id: ObjectId, bytes: Bytes)
    requires CollisionFree(d) && Consistent(d, st) && StepsFit(steps) && Lookup(st.files, id) == Ok(bytes)
    ensures GetAnswer(d, AfterAll(d, st, steps), ObjectId(Blob, id.hash)) == Ok(bytes)
    ensures GetAnswer(d, AfterAll(d, st, steps), ObjectId(Manifest, id.hash)) == Ok(bytes)
  {
    RunsStayConsistent(d, st, steps);
    FilesAreImmutable(d, st, steps, id.hash);
    ConsistentAnswers(d, AfterAll(d, st, steps), ObjectId(Blob, id.hash));
    ConsistentAnswers(d, AfterAll(d, st, steps), ObjectId(Manifest, id.hash));
  }

  lemma {:induction false} FilesAreImmutable(d: Digest, st: Store, steps: seq<Step>, h: string)
    requires h in st.files
    ensures h in AfterAll(d, st, steps).files && AfterAll(d, st, steps).files[h] == st.files[h]
  {
    if steps == [] {
    } else {
      FilesAreImmutable(d, st, steps[..|steps| - 1], h);
    }
  }
}
