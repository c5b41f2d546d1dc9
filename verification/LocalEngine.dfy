/** The working copy and the method that replaces its contents by those of a manifest. */
module LocalEngine {
  import opened Options
  import opened Data
  import opened Paths
  import opened Manifests
  import opened FileTree
  import opened ApplyTree
  import opened Scanning

  /** Where missing contents are fetched from; `None` stands for a failed fetch. */
  type Source = string -> Option<Bytes>

  ghost predicate AllSafe(t: Tree) {
    forall p | p in t :: Safe(p)
  }

  // ---------------------------------------------------------------- fetching

  /** The files in place that already have the recorded size and hash. */
  ghost predicate IsUnchanged(digest: Digest, t: Tree, m: Entries, p: Path) {
    p in m && m[p].File? && Matches(digest, t, p, m[p].file)
  }

  ghost predicate KeptAreUnchanged(digest: Digest, t: Tree, m: Entries, kept: set<Path>) {
    forall p :: p in kept <==> IsUnchanged(digest, t, m, p)
  }

  /** Some unchanged file of the tree provides contents with this hash. */
  ghost predicate InTree(digest: Digest, t: Tree, m: Entries, h: string) {
    exists p :: IsUnchanged(digest, t, m, p) && m[p].file.contentHash == h
  }

  ghost predicate Fetchable(digest: Digest, t: Tree, m: Entries, source: Source, h: string) {
    InTree(digest, t, m, h) || (source(h).Some? && digest.hash(source(h).value) == h)
  }

  /** Every file entry can be provided with contents of the recorded hash. */
  ghost predicate AllFetchable(digest: Digest, t: Tree, m: Entries, source: Source) {
    forall p | p in m && m[p].File? :: Fetchable(digest, t, m, source, m[p].file.contentHash)
  }

  /** The recorded size of every file entry is that of the contents with the recorded hash. */
  ghost predicate SizesAgree(digest: Digest, m: Entries) {
    forall p, b: Bytes | p in m && m[p].File? && digest.hash(b) == m[p].file.contentHash :: |b| == m[p].file.size
  }

  ghost predicate Verified(digest: Digest, fetched: map<string, Bytes>) {
    forall h | h in fetched :: digest.hash(fetched[h]) == h
  }

  ghost predicate HasAll(m: Entries, fetched: map<string, Bytes>) {
    forall p | p in m && m[p].File? :: m[p].file.contentHash in fetched
  }

  predicate SizesMatch(m: Entries, fetched: map<string, Bytes>)
    requires HasAll(m, fetched)
  {
    forall p | p in m && m[p].File? :: |fetched[m[p].file.contentHash]| == m[p].file.size
  }

  /** One of the paths carries this hash in the manifest. */
  ghost predicate Provides(m: Entries, paths: set<Path>, h: string) {
    exists p :: p in paths && p in m && m[p].File? && m[p].file.contentHash == h
  }

  lemma ProvidesOneMore(m: Entries, paths: set<Path>, p: Path)
    requires p in m && m[p].File?
    ensures forall h :: Provides(m, paths + {p}, h) <==> Provides(m, paths, h) || m[p].file.contentHash == h
  {
  }

  method FindUnchanged(digest: Digest, t: Tree, m: Entries)
    returns (kept: set<Path>, fetched: map<string, Bytes>)
    ensures KeptAreUnchanged(digest, t, m, kept)
    ensures Verified(digest, fetched)
    ensures forall h :: h in fetched <==> InTree(digest, t, m, h)
  {
    kept, fetched := {}, map[];
    var keys := InOrder(m.Keys);
    for i := 0 to |keys|
      invariant forall p :: p in kept <==> p in keys[..i] && IsUnchanged(digest, t, m, p)
      invariant Verified(digest, fetched)
      invariant forall h :: h in fetched <==> Provides(m, kept, h)
    {
      var path := keys[i];
      if m[path].File? && Matches(digest, t, path, m[path].file) {
        ProvidesOneMore(m, kept, path);
        kept := kept + {path};
        fetched := fetched[m[path].file.contentHash := t[path].bytes];
      }
    }
    forall h ensures h in fetched <==> InTree(digest, t, m, h) {
      if h in fetched {
        var p :| p in kept && p in m && m[p].File? && m[p].file.contentHash == h;
        assert IsUnchanged(digest, t, m, p);
      }
      if InTree(digest, t, m, h) {
        var p :| IsUnchanged(digest, t, m, p) && m[p].file.contentHash == h;
        assert p in kept;
      }
    }
  }

  /** A file entry whose contents no unchanged file provides. */
  ghost predicate LacksContents(digest: Digest, t: Tree, m: Entries, p: Path) {
    p in m && m[p].File? && forall q | IsUnchanged(digest, t, m, q) :: m[q].file.contentHash != m[p].file.contentHash
  }

  ghost predicate Unavailable(digest: Digest, t: Tree, m: Entries, source: Source, p: Path) {
    LacksContents(digest, t, m, p) && source(m[p].file.contentHash) == None
  }

  ghost predicate WrongContents(digest: Digest, t: Tree, m: Entries, source: Source, p: Path) {
    && LacksContents(digest, t, m, p) && source(m[p].file.contentHash).Some?
    && digest.hash(source(m[p].file.contentHash).value) != m[p].file.contentHash
  }

  /** Fetches what no unchanged file provides. It fails exactly if some entry cannot be provided. */
  method FetchMissing(digest: Digest, t: Tree, m: Entries, source: Source, at: map<string, Bytes>)
    returns (r: ApplyResult, fetched: map<string, Bytes>)
    requires Verified(digest, at) && forall h :: h in at <==> InTree(digest, t, m, h)
    ensures r in {Applied, BlobSource, HashMismatch}
    ensures r == Applied <==> AllFetchable(digest, t, m, source)
    ensures r == Applied ==> Verified(digest, fetched) && HasAll(m, fetched)
    ensures r == BlobSource ==> exists p :: Unavailable(digest, t, m, source, p)
    ensures r == HashMismatch ==> exists p :: WrongContents(digest, t, m, source, p)
  {
    fetched := at;
    var keys := InOrder(m.Keys);
    for i := 0 to |keys|
      invariant Verified(digest, fetched)
      invariant forall h :: h in fetched ==> Fetchable(digest, t, m, source, h)
      invariant forall h :: h in at ==> h in fetched
      invariant forall j | 0 <= j < i && m[keys[j]].File? :: m[keys[j]].file.contentHash in fetched
    {
      var e := m[keys[i]];
      if e.File? && e.file.contentHash !in fetched {
        var h := e.file.contentHash;
        assert keys[i] in m;
        var bytes := source(h);
        assert LacksContents(digest, t, m, keys[i]);
        assert bytes == None ==> Unavailable(digest, t, m, source, keys[i]);
        if bytes.None? {
          return BlobSource, fetched;
        }
        if digest.hash(bytes.value) != h {
          assert WrongContents(digest, t, m, source, keys[i]);
          return HashMismatch, fetched;
        }
        fetched := fetched[h := bytes.value];
      }
    }
    forall p | p in m && m[p].File? ensures m[p].file.contentHash in fetched { assert p in keys; }
    r := Applied;
  }

  lemma SizesByHash(digest: Digest, m: Entries, fetched: map<string, Bytes>)
    requires Verified(digest, fetched) && HasAll(m, fetched)
    ensures SizesAgree(digest, m) ==> SizesMatch(m, fetched)
    ensures CollisionFree(digest) && SizesMatch(m, fetched) ==> SizesAgree(digest, m)
  {
  }

  // ---------------------------------------------------------------- result

  /** The bytes a file entry ends up with: its own when unchanged, else the fetched ones. */
  function Target(t: Tree, m: Entries, kept: set<Path>, fetched: map<string, Bytes>): (c: map<Path, Bytes>)
    requires HasAll(m, fetched)
  {
    map p | p in m && m[p].File? ::
      if p in kept && p in t && t[p].FileNode? then t[p].bytes else fetched[m[p].file.contentHash]
  }

  /** Every file entry holds contents of the recorded hash and size; an unchanged file keeps its bytes. */
  ghost predicate GoodContents(digest: Digest, t: Tree, m: Entries, contents: map<Path, Bytes>) {
    && (forall p | p in m && m[p].File? ::
          && p in contents
          && digest.hash(contents[p]) == m[p].file.contentHash
          && |contents[p]| == m[p].file.size)
    && (forall p | IsUnchanged(digest, t, m, p) :: p in contents && contents[p] == t[p].bytes)
  }

  /** The tree after a successful application: the entries, the directories above them, and what had to
      stay for the sake of ignored paths. */
  ghost predicate Result(t: Tree, m: Entries, rules: Rules, contents: map<Path, Bytes>, t': Tree) {
    forall q :: Get(t', q) ==
      (if q in m then NodeFor(m, contents, q)
       else if AboveSome(m.Keys, q) then Some(DirNode)
       else if Remains(t, m, VisiblePaths(t, rules), q) then Some(t[q])
       else None)
  }

  /** What the preflight demands, apart from the sizes. */
  ghost predicate Admitted(digest: Digest, t: Tree, m: Entries, rules: Rules, source: Source) {
    PathsOk(m) && NoClash(m, ProtectedPaths(t, rules)) && AllFetchable(digest, t, m, source)
  }

  /** The checks made before anything is touched. */
  method Preflight(digest: Digest, t: Tree, m: Entries, ignores: Option<Rules>, source: Source)
    returns (r: ApplyResult, kept: set<Path>, fetched: map<string, Bytes>)
    ensures r == UnsafePath <==> !PathsOk(m)
    ensures r == BadIgnoreFile <==> PathsOk(m) && ignores == None
    ensures r == WouldOverwriteIgnored <==> PathsOk(m) && ignores.Some? && !NoClash(m, ProtectedPaths(t, ignores.value))
    ensures r == Applied ==> ignores.Some? && Admitted(digest, t, m, ignores.value, source)
    ensures r == Applied ==> KeptAreUnchanged(digest, t, m, kept)
    ensures r == Applied ==> Verified(digest, fetched) && HasAll(m, fetched) && SizesMatch(m, fetched)
    ensures r != IoError && r != WorkspaceIdMismatch
    ensures r == BlobSource ==> exists p :: Unavailable(digest, t, m, source, p)
    ensures r == HashMismatch ==> exists p :: WrongContents(digest, t, m, source, p)
    ensures r == SizeMismatch ==> AllFetchable(digest, t, m, source) && !SizesAgree(digest, m)
    ensures CollisionFree(digest) ==>
      (r == Applied <==> ignores.Some? && Admitted(digest, t, m, ignores.value, source) && SizesAgree(digest, m))
  {
    kept, fetched := {}, map[];
    var ok := ValidateManifestPaths(m);
    if !ok {
      return UnsafePath, kept, fetched;
    }
    if ignores.None? {
      return BadIgnoreFile, kept, fetched;
    }
    if !NoClash(m, ProtectedPaths(t, ignores.value)) {
      return WouldOverwriteIgnored, kept, fetched;
    }
    kept, fetched := FindUnchanged(digest, t, m);
    r, fetched := FetchMissing(digest, t, m, source, fetched);
    if r == Applied {
      SizesByHash(digest, m, fetched);
      if !SizesMatch(m, fetched) {
        r := SizeMismatch;
      }
    }
  }

  lemma TargetIsGood(digest: Digest, t: Tree, m: Entries, kept: set<Path>, fetched: map<string, Bytes>)
    requires Verified(digest, fetched) && HasAll(m, fetched) && SizesMatch(m, fetched)
    requires KeptAreUnchanged(digest, t, m, kept)
    ensures GoodContents(digest, t, m, Target(t, m, kept, fetched))
  {
  }

  /** The file, directories above it, nothing below it, and the rest as before. */
  ghost predicate PutsFile(t: Tree, p: Path, bytes: Bytes, t': Tree) {
    forall q ::
      Get(t', q) == (if q == p then Some(FileNode(bytes))
                     else if Under(q, p) then Some(DirNode)
                     else if Under(p, q) then None
                     else Get(t, q))
  }

  lemma PutKeepsRooted(t: Tree, p: Path, bytes: Bytes, t': Tree)
    requires Rooted(t) && PutsFile(t, p, bytes, t')
    ensures Rooted(t')
  {
    forall q, a | q in t' && Under(a, q) ensures a in t' && t'[a].DirNode? {
      assert Get(t', q).Some?;
      if Under(q, p) { UnderTransitive(a, q, p); }
      if Under(p, a) { UnderTransitive(p, a, q); }
      assert Get(t', a) == Some(DirNode);
    }
  }

  function Cached(digest: Digest, cache: map<string, Bytes>, h: string, bytes: Bytes): map<string, Bytes> {
    if h in cache && digest.hash(cache[h]) == h then cache else cache[h := bytes]
  }

  /** The blobs of the entries in `done` are cached and verify; nothing else changed. */
  ghost predicate CacheAfter(
    digest: Digest, m: Entries, done: set<Path>, before: map<string, Bytes>, after: map<string, Bytes>)
  {
    forall h ::
      if Provides(m, done, h) && !(h in before && digest.hash(before[h]) == h)
      then h in after && digest.hash(after[h]) == h
      else Get(after, h) == Get(before, h)
  }

  lemma CacheStep(
    digest: Digest, m: Entries, done: set<Path>, p: Path,
    before: map<string, Bytes>, blobs: map<string, Bytes>, bytes: Bytes)
    requires p in m && m[p].File? && digest.hash(bytes) == m[p].file.contentHash
    requires CacheAfter(digest, m, done, before, blobs)
    ensures CacheAfter(digest, m, done + {p}, before, Cached(digest, blobs, m[p].file.contentHash, bytes))
  {
  }

  lemma CacheSkips(
    digest: Digest, m: Entries, done: set<Path>, p: Path, before: map<string, Bytes>, after: map<string, Bytes>)
    requires p in m && m[p].Directory? && CacheAfter(digest, m, done, before, after)
    ensures CacheAfter(digest, m, done + {p}, before, after)
  {
  }

  /** What the rewrite starts from: nothing in the way, and the unchanged files in place. */
  ghost predicate Clear(t: Tree, m: Entries, kept: set<Path>) {
    Ready(t, m) && forall p | p in kept :: p in m && m[p].File? && p in t && t[p].FileNode?
  }

  lemma NextInOrder(m: Entries, keys: seq<Path>, i: nat, done: set<Path>)
    requires Ascending(keys) && i < |keys| && forall p :: p in keys <==> p in m
    requires done <= m.Keys && forall p :: p in done <==> p in keys[..i]
    ensures NextEntry(m, done, keys[i])
  {
    forall a | a in m && Under(a, keys[i]) ensures a in done {
      AncestorIsLess(a, keys[i]);
      assert a in keys;
      var j :| 0 <= j < |keys| && keys[j] == a;
      AscendingIndex(keys, j, i);
      assert keys[..i][j] == a;
    }
    if keys[i] in done {
      var j :| 0 <= j < i && keys[j] == keys[i];
      AscendingIsInjective(keys, i, j);
    }
  }

  /** Each kind of step writes exactly its entry. */
  lemma EntryWritten(
    t: Tree, m: Entries, kept: set<Path>, fetched: map<string, Bytes>, done: set<Path>, t': Tree, p: Path, t'': Tree)
    requires HasAll(m, fetched) && Clear(t, m, kept) && NextEntry(m, done, p)
    requires Rooted(t') && Written(t, m, Target(t, m, kept, fetched), done, t')
    requires m[p].Directory? ==> CreatesDirs(t', p, t'')
    requires m[p].File? && p !in kept ==> PutsFile(t', p, fetched[m[p].file.contentHash], t'')
    requires m[p].File? && p in kept ==> t'' == t'
    ensures Written(t, m, Target(t, m, kept, fetched), done + {p}, t'')
  {
    var contents := Target(t, m, kept, fetched);
    TurnIsClear(t, m, contents, done, t', p);
    forall q
      ensures Get(t'', q) ==
        (if q == p then NodeFor(m, contents, p) else if Under(q, p) then Some(DirNode) else Get(t', q))
    {
      if p in kept {
        assert Get(t', p) == Get(t, p);
        if Under(q, p) { assert Get(t', q) == Some(DirNode); }
      }
    }
    WroteOne(t, m, contents, done, t', p, t'');
  }

  /** The removal leaves the unchanged files alone. */
  lemma KeptStay(
    digest: Digest, t: Tree, m: Entries, visible: set<Path>, kept: set<Path>, fetched: map<string, Bytes>, t': Tree)
    requires HasAll(m, fetched) && Removed(t, m, visible, t') && KeptAreUnchanged(digest, t, m, kept)
    ensures forall p | p in kept :: p in t' && t'[p].FileNode?
    ensures Target(t', m, kept, fetched) == Target(t, m, kept, fetched)
  {
    forall p | p in kept ensures Get(t', p) == Some(t[p]) {
      assert AtOrUnder(p, p) && Remains(t, m, visible, p);
    }
  }

  lemma WrittenIsResult(
    t: Tree, m: Entries, rules: Rules, t': Tree, contents: map<Path, Bytes>, t'': Tree)
    requires Removed(t, m, VisiblePaths(t, rules), t') && Written(t', m, contents, m.Keys, t'')
    ensures Result(t, m, rules, contents, t'')
  {
  }

  lemma ResultIsRooted(t: Tree, m: Entries, rules: Rules, contents: map<Path, Bytes>, t': Tree)
    requires Rooted(t) && PathsOk(m) && NoClash(m, ProtectedPaths(t, rules)) && Result(t, m, rules, contents, t')
    ensures Rooted(t')
  {
    var visible := VisiblePaths(t, rules);
    forall q, a | q in t' && Under(a, q) ensures Get(t', a) == Some(DirNode) {
      assert Get(t', q).Some?;
      if q in m {
        assert AboveSome(m.Keys, a);
      } else if AboveSome(m.Keys, q) {
        var k :| k in m.Keys && Under(q, k);
        UnderTransitive(a, q, k);
        assert AboveSome(m.Keys, a);
      } else {
        var x :| x in t && AtOrUnder(q, x) && Anchored(m, visible, x);
        AtOrUnderTransitive(a, q, x);
        assert Remains(t, m, visible, a);
        if a in m { EntryAboveAnchored(t, m, rules, a, x); }
      }
    }
  }

  lemma ResultIsSafe(t: Tree, m: Entries, rules: Rules, contents: map<Path, Bytes>, t': Tree)
    requires AllSafe(t) && PathsOk(m) && Result(t, m, rules, contents, t')
    ensures AllSafe(t')
  {
    forall q | q in t' ensures Safe(q) {
      assert Get(t', q).Some?;
      if q !in m && AboveSome(m.Keys, q) {
        var k :| k in m.Keys && Under(q, k);
        AncestorIsSafe(q, k);
      }
    }
  }

  lemma AfterRemoval(
    digest: Digest, t: Tree, m: Entries, rules: Rules, kept: set<Path>, fetched: map<string, Bytes>, t': Tree)
    requires Rooted(t) && PathsOk(m) && NoClash(m, ProtectedPaths(t, rules)) && HasAll(m, fetched)
    requires KeptAreUnchanged(digest, t, m, kept) && Removed(t, m, VisiblePaths(t, rules), t')
    ensures Clear(t', m, kept) && Rooted(t')
    ensures Target(t', m, kept, fetched) == Target(t, m, kept, fetched)
  {
    RemovalClears(t, m, rules, t');
    KeptStay(digest, t, m, VisiblePaths(t, rules), kept, fetched, t');
  }

  /** Every file of the manifest is in the cache, intact. */
  ghost predicate HoldsFilesOf(digest: Digest, m: Entries, cache: map<string, Bytes>) {
    forall p | p in m && m[p].File? ::
      m[p].file.contentHash in cache && digest.hash(cache[m[p].file.contentHash]) == m[p].file.contentHash
  }

  lemma AllProvided(digest: Digest, m: Entries, before: map<string, Bytes>, after: map<string, Bytes>)
    requires CacheAfter(digest, m, m.Keys, before, after)
    ensures HoldsFilesOf(digest, m, after)
  {
  }

  lemma ScanIsValid(digest: Digest, t: Tree, rules: Rules, m: Entries)
    requires AllSafe(t) && ScansVisible(digest, t, rules, m)
    ensures ValidPaths(m)
  {
    forall p | p in m ensures Valid(p) { assert At(m, p) != Absent; }
  }

  /** Every entry records what the tree holds. */
  ghost predicate Records(digest: Digest, t: Tree, m: Entries) {
    forall p | p in m :: At(m, p) == NodeContent(digest, t, p)
  }

  lemma RecordedFile(digest: Digest, t: Tree, m: Entries, p: Path)
    requires Records(digest, t, m) && p in m && m[p].File?
    ensures p in t && t[p].FileNode? && digest.hash(t[p].bytes) == m[p].file.contentHash
  {
    assert At(m, p) == NodeContent(digest, t, p);
  }

  lemma ScanRecords(digest: Digest, t: Tree, rules: Rules, m: Entries)
    requires ScansVisible(digest, t, rules, m)
    ensures Records(digest, t, m)
  {
    forall p | p in m ensures At(m, p) == NodeContent(digest, t, p) { assert At(m, p) != Absent; }
  }

  /** An entry would overwrite a hidden path, enter it, or put a file where a directory holds it. */
  ghost predicate OverwritesHidden(t: Tree, rules: Rules, tracked: set<Path>, m: Entries) {
    exists i, p :: Hides(t, rules, tracked, i) && p in m && (AtOrUnder(i, p) || (m[p].File? && Under(p, i)))
  }

  lemma ClashByRules(t: Tree, rules: Rules, tracked: set<Path>, m: Entries)
    ensures NoClash(m, ProtectedPaths(t, Effective(rules, tracked))) <==> !OverwritesHidden(t, rules, tracked, m)
  {
    var now := Effective(rules, tracked);
    assert forall a :: Excluded(t, now, a) <==> Hides(t, rules, tracked, a);
    if i, p :| Hides(t, rules, tracked, i) && p in m && (AtOrUnder(i, p) || (m[p].File? && Under(p, i))) {
      var r := HiddenIsProtected(t, now, i);
      if AtOrUnder(i, p) { AtOrUnderTransitive(r, i, p); } else { AncestorsAreLinear(p, r, i); }
    }
  }

  /** Hidden paths and all below them are as before; what else is left is an entry, or lies above an entry
      or a hidden path. */
  ghost predicate LeavesHidden(t: Tree, rules: Rules, tracked: set<Path>, m: Entries, t': Tree) {
    && (forall i, q | Hides(t, rules, tracked, i) && AtOrUnder(i, q) :: Get(t', q) == Get(t, q))
    && (forall q | q in t' :: q in m || AboveSome(m.Keys, q)
          || exists i :: Hides(t, rules, tracked, i) && (AtOrUnder(i, q) || Under(q, i)))
  }

  lemma KeptByRules(
    t: Tree, rules: Rules, tracked: set<Path>, m: Entries, contents: map<Path, Bytes>, t': Tree)
    requires NoClash(m, ProtectedPaths(t, Effective(rules, tracked)))
    requires Result(t, m, Effective(rules, tracked), contents, t')
    ensures LeavesHidden(t, rules, tracked, m, t')
  {
    var now := Effective(rules, tracked);
    assert forall a :: Excluded(t, now, a) <==> Hides(t, rules, tracked, a);
    forall i, q | Hides(t, rules, tracked, i) && AtOrUnder(i, q) ensures Get(t', q) == Get(t, q) {
      var r := HiddenIsProtected(t, now, i);
      AtOrUnderTransitive(r, i, q);
      IgnoredPathsSurvive(t, m, now, contents, t', r, q);
    }
    forall q | q in t' && q !in m && !AboveSome(m.Keys, q)
      ensures exists i :: Hides(t, rules, tracked, i) && (AtOrUnder(i, q) || Under(q, i))
    {
      assert Get(t', q).Some?;
      var x :| x in t && AtOrUnder(q, x) && Anchored(m, VisiblePaths(t, now), x);
      var i :| i in t && AtOrUnder(i, x) && Excluded(t, now, i);
      AncestorsAreLinear(i, q, x);
    }
  }

  /** Ignored paths and everything below them are as before. */
  lemma IgnoredPathsSurvive(
    t: Tree, m: Entries, rules: Rules, contents: map<Path, Bytes>, t': Tree, r: Path, q: Path)
    requires NoClash(m, ProtectedPaths(t, rules)) && Result(t, m, rules, contents, t')
    requires r in ProtectedPaths(t, rules) && AtOrUnder(r, q)
    ensures Get(t', q) == Get(t, q)
  {
    assert q !in m;
    if AboveSome(m.Keys, q) {
      var k :| k in m.Keys && Under(q, k);
      AtOrUnderTransitive(r, q, k);
    }
    if q in t {
      ProtectedIsHidden(t, rules, r, q);
      assert AtOrUnder(q, q) && Anchored(m, VisiblePaths(t, rules), q);
    }
    assert Get(t', q) == Get(t, q);
  }

  /** What stands in the way of an application, in terms of the ignore file. */
  lemma RefusedByRules(parse: Parser, t: Tree, tracked: set<Path>, m: Entries)
    ensures Ignores(parse, t, tracked) == None <==>
      IGNORE_FILE in t && (t[IGNORE_FILE].DirNode? || parse(t[IGNORE_FILE].bytes) == None)
    ensures IGNORE_FILE !in t ==> NoClash(m, ProtectedPaths(t, Ignores(parse, t, tracked).value))
    ensures IGNORE_FILE in t && t[IGNORE_FILE].FileNode? && parse(t[IGNORE_FILE].bytes).Some? ==>
      (NoClash(m, ProtectedPaths(t, Ignores(parse, t, tracked).value)) <==>
         !OverwritesHidden(t, parse(t[IGNORE_FILE].bytes).value, tracked, m))
  {
    var rules := LoadRules(parse, t);
    if rules.Some? { ClashByRules(t, rules.value, tracked, m); }
  }

  /** What an application leaves, in terms of the ignore file. */
  lemma AppliedByRules(
    parse: Parser, t: Tree, tracked: set<Path>, m: Entries, contents: map<Path, Bytes>, t': Tree)
    requires Ignores(parse, t, tracked).Some? && PathsOk(m)
    requires NoClash(m, ProtectedPaths(t, Ignores(parse, t, tracked).value))
    requires forall p | p in m && m[p].File? :: p in contents
    requires Result(t, m, Ignores(parse, t, tracked).value, contents, t')
    ensures forall p | p in m :: p != ".rustsync" && !(".rustsync/" <= p)
    ensures IGNORE_FILE !in t ==> forall q :: q in t' <==> q in m || exists k :: k in m && Under(q, k)
    ensures IGNORE_FILE in t && t[IGNORE_FILE].FileNode? && parse(t[IGNORE_FILE].bytes).Some? ==>
      LeavesHidden(t, parse(t[IGNORE_FILE].bytes).value, tracked, m, t')
  {
    forall p { PrivatePrefix(p); }
    var rules := LoadRules(parse, t).value;
    KeptByRules(t, rules, tracked, m, contents, t');
    if IGNORE_FILE !in t { LeftWithoutRules(t, tracked, m, contents, t'); }
  }

  lemma LeftWithoutRules(t: Tree, tracked: set<Path>, m: Entries, contents: map<Path, Bytes>, t': Tree)
    requires forall p | p in m && m[p].File? :: p in contents
    requires Result(t, m, Effective(NO_RULES, tracked), contents, t')
    requires LeavesHidden(t, NO_RULES, tracked, m, t')
    ensures forall q :: q in t' <==> q in m || exists k :: k in m && Under(q, k)
  {
    forall q ensures q in t' <==> q in m || exists k :: k in m && Under(q, k) {
      assert AboveSome(m.Keys, q) <==> exists k :: k in m && Under(q, k);
      assert q in t' <==> Get(t', q).Some?;
    }
  }

  lemma ResultRecords(
    digest: Digest, t: Tree, m: Entries, rules: Rules, contents: map<Path, Bytes>, t': Tree)
    requires GoodContents(digest, t, m, contents) && Result(t, m, rules, contents, t')
    ensures forall p | p in m :: NodeContent(digest, t', p) == At(m, p)
  {
    forall p | p in m ensures NodeContent(digest, t', p) == At(m, p) { assert Get(t', p) == NodeFor(m, contents, p); }
  }

  /** A scan lists everything if there is no ignore file, and else what the rules in it leave. */
  lemma ScanByRules(digest: Digest, parse: Parser, t: Tree, tracked: set<Path>, m: Entries)
    requires Ignores(parse, t, tracked).Some? && ScansVisible(digest, t, Ignores(parse, t, tracked).value, m)
    ensures IGNORE_FILE !in t ==> m.Keys == t.Keys
    ensures IGNORE_FILE in t && t[IGNORE_FILE].FileNode? && parse(t[IGNORE_FILE].bytes).Some? ==>
      ListsByRules(t, parse(t[IGNORE_FILE].bytes).value, tracked, m.Keys)
  {
    if IGNORE_FILE !in t {
      WithoutRules(digest, t, tracked, m);
    } else {
      ScannedPaths(digest, t, Ignores(parse, t, tracked).value, m);
      ListedByRules(t, LoadRules(parse, t).value, tracked, m.Keys);
    }
  }

  lemma ScannedPaths(digest: Digest, t: Tree, rules: Rules, m: Entries)
    requires ScansVisible(digest, t, rules, m)
    ensures forall p :: p in m.Keys <==> Listed(t, rules, p)
  {
    forall p ensures p in m.Keys <==> Listed(t, rules, p) { assert p in m <==> At(m, p) != Absent; }
  }

  lemma WithoutRules(digest: Digest, t: Tree, tracked: set<Path>, m: Entries)
    requires ScansVisible(digest, t, Effective(NO_RULES, tracked), m)
    ensures m.Keys == t.Keys
  {
    ScannedPaths(digest, t, Effective(NO_RULES, tracked), m);
    forall p | p in t ensures p in m.Keys { AllListed(t, tracked, p); }
  }

  // ---------------------------------------------------------------- the engine

  class Workspace {
    const workspaceId: string
    var tree: Tree
    /** The private blob directory. */
    var cache: map<string, Bytes>
    var staged: Option<Manifest>

    ghost predicate Valid()
      reads this
    {
      Rooted(tree) && AllSafe(tree)
    }

    /** The paths of the staged manifest, which the ignore rules never exclude. */
    function Tracked(): set<Path>
      reads this
    {
      if staged.Some? then staged.value.entries.Keys else {}
    }

    /** The rules in force, if the ignore file can be read. */
    function InForce(parse: Parser): Option<Rules>
      reads this
    {
      Ignores(parse, tree, Tracked())
    }

    /** Deepest first; a directory goes only if nothing is left in it. */
    method RemoveEntriesMissingFromRemote(m: Entries, visible: set<Path>) returns (ok: bool)
      requires Rooted(tree) && visible <= tree.Keys
      modifies this`tree
      ensures AllSafe(old(tree)) ==> ok
      ensures ok ==> Removed(old(tree), m, visible, tree)
    {
      ghost var t := tree;
      var todo := visible;
      while todo != {}
        invariant todo <= visible
        invariant Removing(t, m, visible, todo, tree)
      {
        DeepestExists(todo);
        var p :| p in todo && Deepest(p, todo);
        if p !in m {
          if !Safe(p) {
            return false;
          }
          EmptyExactlyIfUnneeded(t, m, visible, todo, tree, p);
          if tree[p].FileNode? || IsEmptyDir(tree, p) {
            tree := tree - {p};
          }
        }
        todo := todo - {p};
      }
      ok := true;
    }

    /** `prepare_directory_path`: fails below a file, replaces a file at the path. */
    method PrepareDirectory(p: Path) returns (ok: bool)
      requires Rooted(tree)
      modifies this`tree
      ensures Rooted(tree)
      ensures ok <==> !FileAbove(old(tree), p)
      ensures ok ==> CreatesDirs(old(tree), p, tree)
      ensures !ok ==> tree == old(tree)
    {
      if FileAbove(tree, p) {
        return false;
      }
      ok := true;
      if p !in tree || tree[p].FileNode? {
        var cleared := tree - {p};
        ghost var before := tree;
        ok, tree := CreateDirAll(cleared, p);
        assert forall q :: Get(cleared, q) == if q == p then None else Get(before, q);
        CreateDirsKeepsRooted(cleared, p, tree);
      }
    }

    /** `replace_file`: prepares the parent, then puts the file at the path in place of whatever is there. */
    method ReplaceFile(p: Path, bytes: Bytes) returns (ok: bool)
      requires Rooted(tree)
      modifies this`tree
      ensures Rooted(tree)
      ensures ok <==> !FileAbove(old(tree), p)
      ensures ok ==> PutsFile(old(tree), p, bytes, tree)
      ensures !ok ==> tree == old(tree)
    {
      if FileAbove(tree, p) {
        return false;
      }
      ghost var before := tree;
      ok := true;
      ParentIsNearest(p);
      var parent := Parent(p);
      if parent.Some? {
        assert FileAbove(tree, parent.value) ==> FileAbove(tree, p);
        ok, tree := CreateDirAll(tree, parent.value);
        CreateDirsKeepsRooted(before, parent.value, tree);
      }
      assert forall q :: Get(tree, q) == if Under(q, p) then Some(DirNode) else Get(before, q);
      tree := (map q | q in tree && !Under(p, q) :: tree[q])[p := FileNode(bytes)];
      PutKeepsRooted(before, p, bytes, tree);
    }

    /** A cached blob that still verifies is left alone. */
    method CacheBlob(digest: Digest, h: string, bytes: Bytes)
      modifies this`cache
      ensures cache == Cached(digest, old(cache), h, bytes)
    {
      if !(h in cache && digest.hash(cache[h]) == h) {
        cache := cache[h := bytes];
      }
    }

    /** The rewrite, in path order. After a removal it cannot fail. */
    method WriteEntries(digest: Digest, m: Entries, kept: set<Path>, fetched: map<string, Bytes>) returns (ok: bool)
      requires Rooted(tree) && Verified(digest, fetched) && HasAll(m, fetched)
      modifies this`tree, this`cache
      ensures Clear(old(tree), m, kept) ==>
        ok && Written(old(tree), m, Target(old(tree), m, kept, fetched), m.Keys, tree)
      ensures ok ==> CacheAfter(digest, m, m.Keys, old(cache), cache)
    {
      ghost var t := tree;
      ghost var contents := Target(t, m, kept, fetched);
      ghost var clear := Clear(t, m, kept);
      ghost var done: set<Path> := {};
      var keys := InOrder(m.Keys);
      ok := true;
      for i := 0 to |keys|
        invariant ok && Rooted(tree)
        invariant done <= m.Keys && forall p :: p in done <==> p in keys[..i]
        invariant clear ==> Written(t, m, contents, done, tree)
        invariant CacheAfter(digest, m, done, old(cache), cache)
      {
        var p := keys[i];
        NextInOrder(m, keys, i, done);
        if clear { TurnIsClear(t, m, contents, done, tree, p); }
        if !Safe(p) {
          return false;
        }
        ghost var before := tree;
        if m[p].Directory? {
          ok := PrepareDirectory(p);
          if !ok {
            return;
          }
          CacheSkips(digest, m, done, p, old(cache), cache);
        } else {
          ghost var blobs := cache;
          CacheBlob(digest, m[p].file.contentHash, fetched[m[p].file.contentHash]);
          CacheStep(digest, m, done, p, old(cache), blobs, fetched[m[p].file.contentHash]);
          if p !in kept {
            ok := ReplaceFile(p, fetched[m[p].file.contentHash]);
            if !ok {
              return;
            }
          }
        }
        if clear { EntryWritten(t, m, kept, fetched, done, before, p, tree); }
        done := done + {p};
      }
      assert done == m.Keys;
    }

    /** Everything from the first removal on. */
    method Replace(
      digest: Digest, m: Entries, rules: Rules, kept: set<Path>, fetched: map<string, Bytes>)
      returns (ok: bool)
      requires Valid() && PathsOk(m) && NoClash(m, ProtectedPaths(tree, rules))
      requires Verified(digest, fetched) && HasAll(m, fetched)
      requires KeptAreUnchanged(digest, tree, m, kept)
      modifies this`tree, this`cache
      ensures ok
      ensures Result(old(tree), m, rules, Target(old(tree), m, kept, fetched), tree)
      ensures CacheAfter(digest, m, m.Keys, old(cache), cache)
    {
      ghost var t := tree;
      var removed := RemoveEntriesMissingFromRemote(m, VisiblePaths(tree, rules));
      ghost var t' := tree;
      AfterRemoval(digest, t, m, rules, kept, fetched, t');
      var written := WriteEntries(digest, m, kept, fetched);
      WrittenIsResult(t, m, rules, t', Target(t, m, kept, fetched), tree);
      ok := removed && written;
    }

    /** Every refusal happens before anything is touched; after the preflight nothing can fail. */
    method ApplyPulledManifest(digest: Digest, manifest: Manifest, parse: Parser, source: Source)
      returns (r: ApplyResult, ghost contents: map<Path, Bytes>)
      requires Valid()
      modifies this
      ensures Valid() && r != IoError
      ensures r != Applied ==> unchanged(this)
      ensures r == WorkspaceIdMismatch <==> manifest.workspaceId != workspaceId
      ensures r == Applied ==> old(InForce(parse)).Some?
      ensures r == Applied ==> Admitted(digest, old(tree), manifest.entries, old(InForce(parse)).value, source)
      ensures r == Applied ==>
        && GoodContents(digest, old(tree), manifest.entries, contents)
        && Result(old(tree), manifest.entries, old(InForce(parse)).value, contents, tree)
        && CacheAfter(digest, manifest.entries, manifest.entries.Keys, old(cache), cache)
        && staged == Some(manifest)
      ensures CollisionFree(digest) && manifest.workspaceId == workspaceId ==>
        (r == Applied <==>
          && old(InForce(parse)).Some?
          && Admitted(digest, old(tree), manifest.entries, old(InForce(parse)).value, source)
          && SizesAgree(digest, manifest.entries))
      ensures r == UnsafePath <==> manifest.workspaceId == workspaceId && !PathsOk(manifest.entries)
      ensures r == BadIgnoreFile <==>
        && manifest.workspaceId == workspaceId && PathsOk(manifest.entries) && IGNORE_FILE in old(tree)
        && (old(tree)[IGNORE_FILE].DirNode? || parse(old(tree)[IGNORE_FILE].bytes) == None)
      ensures r == Applied ==> forall p | p in manifest.entries ::
        && p != ".rustsync" && !(".rustsync/" <= p)
        && NodeContent(digest, tree, p) == At(manifest.entries, p)
      ensures r == BlobSource ==> exists p :: Unavailable(digest, old(tree), manifest.entries, source, p)
      ensures r == HashMismatch ==> exists p :: WrongContents(digest, old(tree), manifest.entries, source, p)
      ensures r == SizeMismatch ==> !SizesAgree(digest, manifest.entries)
      ensures IGNORE_FILE !in old(tree) ==> r != WouldOverwriteIgnored
      ensures IGNORE_FILE !in old(tree) && r == Applied ==>
        forall q :: q in tree <==> q in manifest.entries || exists k :: k in manifest.entries && Under(q, k)
      ensures IGNORE_FILE in old(tree) && old(tree)[IGNORE_FILE].FileNode?
              && parse(old(tree)[IGNORE_FILE].bytes).Some? ==>
        var rules := parse(old(tree)[IGNORE_FILE].bytes).value;
        var tracked := if old(staged).Some? then old(staged).value.entries.Keys else {};
        && (r == WouldOverwriteIgnored <==>
              && manifest.workspaceId == workspaceId && PathsOk(manifest.entries)
              && OverwritesHidden(old(tree), rules, tracked, manifest.entries))
        && (r == Applied ==> LeavesHidden(old(tree), rules, tracked, manifest.entries, tree))
    {
      contents := map[];
      if manifest.workspaceId != workspaceId {
        return WorkspaceIdMismatch, contents;
      }
      var ignores := InForce(parse);
      var kept, fetched;
      RefusedByRules(parse, tree, Tracked(), manifest.entries);
      r, kept, fetched := Preflight(digest, tree, manifest.entries, ignores, source);
      if r == Applied {
        contents := Target(tree, manifest.entries, kept, fetched);
        TargetIsGood(digest, tree, manifest.entries, kept, fetched);
        var ok := Replace(digest, manifest.entries, ignores.value, kept, fetched);
        ResultIsRooted(old(tree), manifest.entries, ignores.value, contents, tree);
        ResultIsSafe(old(tree), manifest.entries, ignores.value, contents, tree);
        ResultRecords(digest, old(tree), manifest.entries, ignores.value, contents, tree);
        AppliedByRules(parse, old(tree), old(Tracked()), manifest.entries, contents, tree);
        staged := Some(manifest);
        r := if ok then Applied else IoError;
      }
    }

    /** `cache_manifest_blobs`: copies every file of a scanned manifest that is not cached intact. */
    method CacheManifestBlobs(digest: Digest, m: Entries)
      requires Records(digest, tree, m)
      modifies this`cache
      ensures CacheAfter(digest, m, m.Keys, old(cache), cache)
    {
      var keys := InOrder(m.Keys);
      ghost var done: set<Path> := {};
      for i := 0 to |keys|
        invariant done <= m.Keys && forall p :: p in done <==> p in keys[..i]
        invariant CacheAfter(digest, m, done, old(cache), cache)
      {
        var p := keys[i];
        if m[p].File? {
          RecordedFile(digest, tree, m, p);
          ghost var blobs := cache;
          CacheBlob(digest, m[p].file.contentHash, tree[p].bytes);
          CacheStep(digest, m, done, p, old(cache), blobs, tree[p].bytes);
        } else {
          CacheSkips(digest, m, done, p, old(cache), cache);
        }
        done := done + {p};
      }
      assert done == m.Keys;
    }

    /** `stage_all`: scans the tree, caches its files and saves the manifest, which lists its directories
        and has valid paths. It fails exactly if the ignore file cannot be read, and then changes nothing. */
    method StageAll(digest: Digest, parse: Parser, modified: Path -> nat) returns (m: Option<Manifest>)
      requires Valid()
      modifies this`cache, this`staged
      ensures m.Some? <==> InForce(parse).Some?
      ensures m == None ==> unchanged(this)
      ensures m.Some? ==>
        && m.value.workspaceId == workspaceId && staged == m
        && ScansVisible(digest, tree, old(InForce(parse)).value, m.value.entries)
        && ScansVisible(digest, tree, InForce(parse).value, m.value.entries)
        && Closed(m.value.entries) && ValidPaths(m.value.entries)
        && CacheAfter(digest, m.value.entries, m.value.entries.Keys, old(cache), cache)
        && HoldsFilesOf(digest, m.value.entries, cache)
      ensures m.Some? ==> forall p | p in m.value.entries :: At(m.value.entries, p) == NodeContent(digest, tree, p)
      ensures IGNORE_FILE !in tree ==> m.Some? && m.value.entries.Keys == tree.Keys
      ensures IGNORE_FILE in tree && tree[IGNORE_FILE].DirNode? ==> m == None
      ensures IGNORE_FILE in tree && tree[IGNORE_FILE].FileNode? ==>
        var rules := parse(tree[IGNORE_FILE].bytes);
        && (m.Some? <==> rules.Some?)
        && (m.Some? ==>
              var tracked := if old(staged).Some? then old(staged).value.entries.Keys else {};
              ListsByRules(tree, rules.value, tracked, m.value.entries.Keys))
    {
      var ignores := InForce(parse);
      if ignores.None? {
        return None;
      }
      var entries := BuildManifest(digest, tree, ignores.value, modified);
      ScanByRules(digest, parse, tree, Tracked(), entries);
      ScanRecords(digest, tree, ignores.value, entries);
      RescanIsStable(digest, tree, LoadRules(parse, tree).value, Tracked(), entries);
      ScanIsClosed(digest, tree, ignores.value, entries);
      ScanIsValid(digest, tree, ignores.value, entries);
      CacheManifestBlobs(digest, entries);
      AllProvided(digest, entries, old(cache), cache);
      m := Some(Manifest(workspaceId, entries));
      staged := m;
    }
  }
}
