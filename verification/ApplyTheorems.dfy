/** What an application guarantees beyond its own call. */
module ApplyTheorems {
  import opened Options
  import opened Data
  import opened Paths
  import opened Manifests
  import opened FileTree
  import opened ApplyTree
  import opened Scanning
  import opened LocalEngine
  import Reconciliation

  /** With nothing ignored, only the entries and the directories above them are left. */
  lemma OnlyEntriesRemain(t: Tree, m: Entries, rules: Rules, contents: map<Path, Bytes>, t': Tree, q: Path)
    requires NothingIgnored(t, rules) && Result(t, m, rules, contents, t')
    ensures Get(t', q) ==
      (if q in m then NodeFor(m, contents, q) else if AboveSome(m.Keys, q) then Some(DirNode) else None)
  {
  }

  // ---------------------------------------------------------------- scanning the result

  /** A directory of the manifest without entries below it does not lie above an ignored path. */
  ghost predicate NoneEmptied(m: Entries, protected: set<Path>) {
    forall p, r | p in m && m[p].Directory? && r in protected && Under(p, r) :: AboveSome(m.Keys, p)
  }

  /** No file or empty directory that was ignored before is visible under the rules of afterwards. */
  ghost predicate NothingRevealed(t: Tree, before: Rules, now: Rules) {
    forall r, q | r in ProtectedPaths(t, before) && AtOrUnder(r, q) && Leaf(t, q) :: q !in VisiblePaths(t, now)
  }

  /** A tree, a manifest that was applied to it under some rules, and the tree afterwards. */
  ghost predicate AppliedTo(
    digest: Digest, t: Tree, m: Entries, before: Rules, contents: map<Path, Bytes>, t': Tree)
  {
    && Rooted(t) && PathsOk(m) && GoodContents(digest, t, m, contents)
    && NoClash(m, ProtectedPaths(t, before)) && Result(t, m, before, contents, t')
  }

  lemma NothingListedBelow(m: Entries, protected: set<Path>, r: Path, q: Path)
    requires NoClash(m, protected) && r in protected && AtOrUnder(r, q)
    ensures q !in m && !AboveSome(m.Keys, q)
  {
    if AboveSome(m.Keys, q) {
      var k :| k in m.Keys && Under(q, k);
      AtOrUnderTransitive(r, q, k);
    }
  }

  /** With the same rules as before nothing is revealed. */
  lemma SameRulesRevealNothing(t: Tree, m: Entries, rules: Rules, tracked: set<Path>)
    requires NoClash(m, ProtectedPaths(t, Effective(rules, tracked)))
    ensures NothingRevealed(t, Effective(rules, tracked), Effective(rules, m.Keys))
  {
    var before, now := Effective(rules, tracked), Effective(rules, m.Keys);
    forall r, q | r in ProtectedPaths(t, before) && AtOrUnder(r, q) ensures q !in VisiblePaths(t, now) {
      NothingListedBelow(m, ProtectedPaths(t, before), r, r);
      assert Excluded(t, now, r);
    }
  }

  lemma SameVisibility(t: Tree, t': Tree, rules: Rules, q: Path)
    requires Rooted(t) && Rooted(t') && q in t && Get(t', q) == Get(t, q)
    ensures q in VisiblePaths(t', rules) <==> q in VisiblePaths(t, rules)
  {
    forall a | AtOrUnder(a, q) ensures a in t && a in t' && t'[a] == t[a] {}
  }

  /** What was hidden is there as before, and so is everything below it. */
  lemma HiddenIsAsBefore(
    digest: Digest, t: Tree, m: Entries, before: Rules, contents: map<Path, Bytes>, t': Tree, q: Path)
    returns (r: Path)
    requires AppliedTo(digest, t, m, before, contents, t') && q in t && q !in VisiblePaths(t, before)
    ensures r in ProtectedPaths(t, before) && AtOrUnder(r, q)
    ensures Get(t', q) == Get(t, q) && (Leaf(t', q) <==> Leaf(t, q))
  {
    r := HiddenIsProtected(t, before, q);
    forall k | AtOrUnder(r, k) ensures Get(t', k) == Get(t, k) {
      IgnoredPathsSurvive(t, m, before, contents, t', r, k);
    }
    forall k | Under(q, k) ensures k in t' <==> k in t { AtOrUnderTransitive(r, q, k); }
  }

  lemma EntryIsVisible(
    digest: Digest, t: Tree, m: Entries, before: Rules, contents: map<Path, Bytes>, t': Tree, rules: Rules, q: Path)
    requires AppliedTo(digest, t, m, before, contents, t') && q in m
    ensures q in VisiblePaths(t', Effective(rules, m.Keys)) && Get(t', q) == NodeFor(m, contents, q)
    ensures NodeContent(digest, t', q) == At(m, q)
  {
    assert Get(t', q) == NodeFor(m, contents, q);
  }

  lemma BelowLastEntry(m: Entries, q: Path, z: Path)
    requires !AboveSome(m.Keys, q) && AtOrUnder(q, z)
    ensures !AboveSome(m.Keys, z) && (z != q ==> z !in m)
  {
    assert forall k | k in m.Keys :: !Under(q, k);
    forall k | k in m.Keys ensures !Under(z, k) {
      if Under(z, k) { AtOrUnderTransitive(q, z, k); }
    }
  }

  /** Anything else that is left was there before, at or above a hidden path. */
  lemma RestIsOld(t: Tree, m: Entries, rules: Rules, contents: map<Path, Bytes>, t': Tree, z: Path) returns (x: Path)
    requires Result(t, m, rules, contents, t') && z in t' && z !in m && !AboveSome(m.Keys, z)
    ensures z in t && t'[z] == t[z]
    ensures x in t && AtOrUnder(z, x) && x !in m && x !in VisiblePaths(t, rules)
  {
    assert Get(t', z) == Some(t[z]) && Remains(t, m, VisiblePaths(t, rules), z);
    x :| x in t && AtOrUnder(z, x) && Anchored(m, VisiblePaths(t, rules), x);
    BelowLastEntry(m, z, x);
  }

  lemma RestIsNoVisibleLeaf(
    digest: Digest, t: Tree, m: Entries, before: Rules, contents: map<Path, Bytes>, t': Tree, now: Rules, z: Path)
    requires AppliedTo(digest, t, m, before, contents, t') && NothingRevealed(t, before, now)
    requires z !in m && !AboveSome(m.Keys, z) && z in t'
    ensures z !in VisiblePaths(t', now) || !Leaf(t', z)
  {
    var x := RestIsOld(t, m, before, contents, t', z);
    var r := HiddenIsAsBefore(digest, t, m, before, contents, t', x);
    if x != z {
      assert Under(z, x) && t[z].DirNode?;
    } else {
      ResultIsRooted(t, m, before, contents, t');
      SameVisibility(t, t', now, z);
    }
  }

  /** Apart from the entries and the directories above them, nothing is listed. */
  lemma RestIsNotListed(
    digest: Digest, t: Tree, m: Entries, before: Rules, contents: map<Path, Bytes>, t': Tree, now: Rules, q: Path)
    requires AppliedTo(digest, t, m, before, contents, t') && NothingRevealed(t, before, now)
    requires q !in m && !AboveSome(m.Keys, q)
    ensures !Listed(t', now, q)
  {
    if Listed(t', now, q) {
      var z :| z in VisiblePaths(t', now) && AtOrUnder(q, z) && Leaf(t', z);
      BelowLastEntry(m, q, z);
      RestIsNoVisibleLeaf(digest, t, m, before, contents, t', now, z);
    }
  }

  /** An entry without entries below it is a leaf of the tree, unless ignored paths lie below it. */
  lemma LastEntryIsLeaf(
    digest: Digest, t: Tree, m: Entries, before: Rules, contents: map<Path, Bytes>, t': Tree, k: Path)
    requires AppliedTo(digest, t, m, before, contents, t') && k in m && !AboveSome(m.Keys, k)
    ensures Leaf(t', k) <==> m[k].File? || forall r | r in ProtectedPaths(t, before) :: !Under(k, r)
  {
    assert Get(t', k) == NodeFor(m, contents, k);
    forall r | r in ProtectedPaths(t, before) && Under(k, r) ensures r in t' {
      IgnoredPathsSurvive(t, m, before, contents, t', r, r);
    }
    forall z | z in t' && Under(k, z) && m[k].Directory?
      ensures exists r :: r in ProtectedPaths(t, before) && Under(k, r)
    {
      var r := HiddenBelowEntry(t, m, before, contents, t', k, z);
    }
  }

  lemma HiddenBelowEntry(
    t: Tree, m: Entries, rules: Rules, contents: map<Path, Bytes>, t': Tree, k: Path, z: Path) returns (r: Path)
    requires NoClash(m, ProtectedPaths(t, rules)) && Result(t, m, rules, contents, t')
    requires k in m && !AboveSome(m.Keys, k) && z in t' && Under(k, z)
    ensures r in ProtectedPaths(t, rules) && Under(k, r)
  {
    BelowLastEntry(m, k, z);
    var x := RestIsOld(t, m, rules, contents, t', z);
    AtOrUnderTransitive(k, z, x);
    r := HiddenIsProtected(t, rules, x);
    AncestorsAreLinear(k, r, x);
  }

  lemma EntriesAreListed(
    digest: Digest, t: Tree, m: Entries, before: Rules, contents: map<Path, Bytes>, t': Tree, rules: Rules, p: Path)
    requires AppliedTo(digest, t, m, before, contents, t') && p in m && NoneEmptied(m, ProtectedPaths(t, before))
    ensures Listed(t', Effective(rules, m.Keys), p)
  {
    var k := LastBelow(m.Keys, p);
    EntryIsVisible(digest, t, m, before, contents, t', rules, p);
    EntryIsVisible(digest, t, m, before, contents, t', rules, k);
    LastEntryIsLeaf(digest, t, m, before, contents, t', k);
  }

  lemma EmptiedIsNotListed(
    digest: Digest, t: Tree, m: Entries, before: Rules, contents: map<Path, Bytes>, t': Tree, now: Rules,
    p: Path, r: Path)
    requires AppliedTo(digest, t, m, before, contents, t') && NothingRevealed(t, before, now)
    requires p in m && m[p].Directory? && !AboveSome(m.Keys, p) && r in ProtectedPaths(t, before) && Under(p, r)
    ensures !Listed(t', now, p)
  {
    LastEntryIsLeaf(digest, t, m, before, contents, t', p);
    if Listed(t', now, p) {
      var z :| z in VisiblePaths(t', now) && AtOrUnder(p, z) && Leaf(t', z);
      BelowLastEntry(m, p, z);
      RestIsNoVisibleLeaf(digest, t, m, before, contents, t', now, z);
    }
  }

  lemma RevealedIsListed(
    digest: Digest, t: Tree, m: Entries, before: Rules, contents: map<Path, Bytes>, t': Tree, now: Rules,
    r: Path, q: Path)
    requires AppliedTo(digest, t, m, before, contents, t')
    requires r in ProtectedPaths(t, before) && AtOrUnder(r, q) && Leaf(t, q) && q in VisiblePaths(t, now)
    ensures Listed(t', now, q) && q !in m
  {
    ProtectedIsHidden(t, before, r, q);
    NothingListedBelow(m, ProtectedPaths(t, before), r, q);
    var r' := HiddenIsAsBefore(digest, t, m, before, contents, t', q);
    ResultIsRooted(t, m, before, contents, t');
    SameVisibility(t, t', now, q);
    LeafIsListed(t', now, q);
  }

  /** Scanning the result gives back the applied manifest exactly when that manifest lists its
      directories, none of its directories is left with ignored contents only, and the rules of afterwards,
      which the manifest itself may have brought, reveal nothing that was ignored before. */
  lemma RescanYieldsManifest(
    digest: Digest, t: Tree, m: Entries, before: Rules, contents: map<Path, Bytes>, t': Tree, rules: Rules,
    scanned: Entries)
    requires AppliedTo(digest, t, m, before, contents, t')
    requires ScansVisible(digest, t', Effective(rules, m.Keys), scanned)
    ensures SameContent(scanned, m) <==>
      && Closed(m) && NoneEmptied(m, ProtectedPaths(t, before))
      && NothingRevealed(t, before, Effective(rules, m.Keys))
  {
    var now := Effective(rules, m.Keys);
    if Closed(m) && NoneEmptied(m, ProtectedPaths(t, before)) && NothingRevealed(t, before, now) {
      forall q ensures At(scanned, q) == At(m, q) {
        if q in m {
          EntriesAreListed(digest, t, m, before, contents, t', rules, q);
          EntryIsVisible(digest, t, m, before, contents, t', rules, q);
        } else {
          assert !AboveSome(m.Keys, q);
          RestIsNotListed(digest, t, m, before, contents, t', now, q);
        }
      }
    }
    if SameContent(scanned, m) {
      ResultIsRooted(t, m, before, contents, t');
      ScanIsClosed(digest, t', now, scanned);
      ClosedByContent(scanned, m);
      RescanRevealsNothing(digest, t, m, before, contents, t', now, scanned);
      RescanEmptiesNothing(digest, t, m, before, contents, t', now, scanned);
    }
  }

  lemma RescanRevealsNothing(
    digest: Digest, t: Tree, m: Entries, before: Rules, contents: map<Path, Bytes>, t': Tree, now: Rules,
    scanned: Entries)
    requires AppliedTo(digest, t, m, before, contents, t') && ScansVisible(digest, t', now, scanned)
    requires SameContent(scanned, m)
    ensures NothingRevealed(t, before, now)
  {
    forall r, q | r in ProtectedPaths(t, before) && AtOrUnder(r, q) && Leaf(t, q) ensures q !in VisiblePaths(t, now) {
      assert At(scanned, q) == At(m, q);
      if q in VisiblePaths(t, now) { RevealedIsListed(digest, t, m, before, contents, t', now, r, q); }
    }
  }

  lemma RescanEmptiesNothing(
    digest: Digest, t: Tree, m: Entries, before: Rules, contents: map<Path, Bytes>, t': Tree, now: Rules,
    scanned: Entries)
    requires AppliedTo(digest, t, m, before, contents, t') && ScansVisible(digest, t', now, scanned)
    requires SameContent(scanned, m) && NothingRevealed(t, before, now)
    ensures NoneEmptied(m, ProtectedPaths(t, before))
  {
    forall p, r | p in m && m[p].Directory? && r in ProtectedPaths(t, before) && Under(p, r)
      ensures AboveSome(m.Keys, p)
    {
      assert At(scanned, p) == At(m, p) == Dir;
      if !AboveSome(m.Keys, p) { EmptiedIsNotListed(digest, t, m, before, contents, t', now, p, r); }
    }
  }

  // ---------------------------------------------------------------- where the conditions fail

  /** An empty directory that holds an ignored file on this device: applying it changes nothing, and the scan
      does not list it. After a completed synchronization the base is that scan, so every later plan downloads
      the directory again, from the same tree and tracked paths, and publishes nothing. With the manifest
      itself as base, as before a publication or after discarding local changes, the plan publishes the
      removal of the directory. */
  lemma EmptyDirectoryIsForgotten(
    digest: Digest, bytes: Bytes, rules: Rules, contents: map<Path, Bytes>, t': Tree, scanned: Entries)
    requires rules("d/x", false) && !rules("d", true)
    requires
      var t: Tree, m: Entries := map["d" := DirNode, "d/x" := FileNode(bytes)], map["d" := Directory];
      && AppliedTo(digest, t, m, Effective(rules, {}), contents, t')
      && ScansVisible(digest, t', Effective(rules, m.Keys), scanned)
    ensures t' == map["d" := DirNode, "d/x" := FileNode(bytes)] && scanned == map[]
    ensures
      var m: Entries := map["d" := Directory];
      && Reconciliation.ActionAt(scanned, scanned, m, "d") == Reconciliation.Download
      && Reconciliation.ActionAt(m, scanned, m, "d") == Reconciliation.Upload
  {
    var t: Tree, m: Entries := map["d" := DirNode, "d/x" := FileNode(bytes)], map["d" := Directory];
    var before, now := Effective(rules, {}), Effective(rules, m.Keys);
    assert "d/x"[..1] == "d" && Under("d", "d/x") && forall k | k in m.Keys :: !Under("d", k);
    assert "d/x" in ProtectedPaths(t, before);
    IgnoredPathsSurvive(t, m, before, contents, t', "d/x", "d/x");
    forall q | q !in {"d", "d/x"} ensures q !in t' {
      if q in t' && !AboveSome(m.Keys, q) { var x := RestIsOld(t, m, before, contents, t', q); }
    }
    assert Get(t', "d") == Some(DirNode) && t' == t;
    SameRulesRevealNothing(t, m, rules, {});
    EmptiedIsNotListed(digest, t, m, before, contents, t', now, "d", "d/x");
    forall q ensures q !in scanned { assert At(scanned, q) == Absent; }
    Reconciliation.LocalAhead(m, scanned, m, "d");
    Reconciliation.FastForward(scanned, scanned, m, "d");
  }

  /** The head drops a pattern from the ignore file, and this device holds a file `x` that the pattern kept
      out. */
  ghost predicate DropsPattern(parse: Parser, earlier: Bytes, later: Bytes) {
    && parse(earlier).Some? && parse(earlier).value("x", false)
    && parse(later).Some? && !parse(later).value("x", false)
  }

  function WithSecret(ignoreFile: Bytes, secret: Bytes): Tree {
    map[IGNORE_FILE := FileNode(ignoreFile), "x" := FileNode(secret)]
  }

  lemma SecretIsKept(
    digest: Digest, before: Rules, earlier: Bytes, later: Bytes, secret: Bytes, e: Entry, contents: map<Path, Bytes>,
    t': Tree)
    requires before("x", false) && e.File?
    requires AppliedTo(digest, WithSecret(earlier, secret), map[IGNORE_FILE := e], before, contents, t')
    requires contents[IGNORE_FILE] == later
    ensures Get(t', "x") == Some(FileNode(secret)) && Get(t', IGNORE_FILE) == Some(FileNode(later))
    ensures "x" in ProtectedPaths(WithSecret(earlier, secret), before)
  {
    var t := WithSecret(earlier, secret);
    var m: Entries := map[IGNORE_FILE := e];
    TopLevel("x");
    assert "x" in ProtectedPaths(t, before);
    IgnoredPathsSurvive(t, m, before, contents, t', "x", "x");
    assert Get(t', IGNORE_FILE) == NodeFor(m, contents, IGNORE_FILE);
  }

  lemma SecretIsListed(digest: Digest, t: Tree, rules: Rules, m: Entries, scanned: Entries)
    requires "x" in t && t["x"].FileNode? && !rules("x", false) && "x" !in m
    requires ScansVisible(digest, t, rules, scanned)
    ensures "x" in scanned && Reconciliation.ActionAt(scanned, scanned, m, "x") == Reconciliation.Download
  {
    TopLevel("x");
    assert "x" in VisiblePaths(t, rules);
    LeafIsListed(t, rules, "x");
    assert At(scanned, "x") != Absent && At(m, "x") == Absent;
    Reconciliation.FastForward(scanned, scanned, m, "x");
  }

  lemma SecretIsRemoved(t: Tree, m: Entries, rules: Rules, contents: map<Path, Bytes>, t': Tree)
    requires Result(t, m, rules, contents, t') && m.Keys == {IGNORE_FILE}
    requires "x" in t && t["x"].FileNode? && Rooted(t) && !rules("x", false)
    ensures "x" !in t'
  {
    TopLevel("x");
    TopLevel(IGNORE_FILE);
    forall q | q in t ensures !Under("x", q) {}
    assert "x" in VisiblePaths(t, rules) && !Remains(t, m, VisiblePaths(t, rules), "x");
    assert Get(t', "x") == None;
  }

  /** Every condition but the last holds. The file is untouched, but now it is listed, and so in the base
      that a completed synchronization saves, while the head does not have it: the next plan removes it, and
      applying that deletes the only copy. */
  lemma IgnoredFileIsLost(
    digest: Digest, parse: Parser, earlier: Bytes, later: Bytes, secret: Bytes, e: Entry,
    contents: map<Path, Bytes>, t': Tree, scanned: Entries, contents': map<Path, Bytes>, t'': Tree)
    requires DropsPattern(parse, earlier, later) && e.File?
    requires
      var t, m: Entries := WithSecret(earlier, secret), map[IGNORE_FILE := e];
      && AppliedTo(digest, t, m, Effective(parse(earlier).value, m.Keys), contents, t')
      && contents[IGNORE_FILE] == later
      && ScansVisible(digest, t', Effective(parse(later).value, m.Keys), scanned)
      && AppliedTo(digest, t', m, Effective(parse(later).value, scanned.Keys), contents', t'')
    ensures
      var t, m: Entries := WithSecret(earlier, secret), map[IGNORE_FILE := e];
      && LoadRules(parse, t) == parse(earlier) && LoadRules(parse, t') == parse(later)
      && Closed(m) && NoneEmptied(m, ProtectedPaths(t, Effective(parse(earlier).value, m.Keys)))
      && Get(t', "x") == Some(FileNode(secret)) && "x" in scanned
      && Reconciliation.ActionAt(scanned, scanned, m, "x") == Reconciliation.Download
      && "x" !in t''
  {
    var t, m: Entries := WithSecret(earlier, secret), map[IGNORE_FILE := e];
    TopLevel(IGNORE_FILE);
    assert forall k | k in m.Keys :: !Under("x", k);
    SecretIsKept(digest, Effective(parse(earlier).value, m.Keys), earlier, later, secret, e, contents, t');
    SecretIsListed(digest, t', Effective(parse(later).value, m.Keys), m, scanned);
    SecretIsRemoved(t', m, Effective(parse(later).value, scanned.Keys), contents', t'');
  }

  lemma TopLevel(p: Path)
    requires '/' !in p
    ensures forall a :: !Under(a, p)
  {
  }

  /** Applying the manifest a second time changes nothing. */
  lemma ReapplyingChangesNothing(
    digest: Digest, t: Tree, m: Entries, rules: Rules, contents: map<Path, Bytes>, t': Tree,
    contents': map<Path, Bytes>, t'': Tree)
    requires NothingIgnored(t, rules) && NothingIgnored(t', rules)
    requires GoodContents(digest, t, m, contents) && Result(t, m, rules, contents, t')
    requires GoodContents(digest, t', m, contents') && Result(t', m, rules, contents', t'')
    ensures t'' == t'
  {
    forall q ensures Get(t'', q) == Get(t', q) {
      OnlyEntriesRemain(t, m, rules, contents, t', q);
      OnlyEntriesRemain(t', m, rules, contents', t'', q);
      if q in m && m[q].File? {
        assert IsUnchanged(digest, t', m, q);
      }
    }
    SameByGet(t', t'');
  }

  lemma SameByGet(a: Tree, b: Tree)
    requires forall q :: Get(b, q) == Get(a, q)
    ensures b == a
  {
    forall q ensures q in a <==> q in b { assert Get(b, q) == Get(a, q); }
    forall q | q in a ensures a[q] == b[q] { assert Get(b, q) == Get(a, q); }
  }
}
