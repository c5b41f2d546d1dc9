/** Building a manifest from the working tree, with ignored paths left out. */
module Scanning {
  import opened Data
  import opened Paths
  import opened Manifests
  import opened FileTree

  /** A file, or a directory that is empty on disk. */
  predicate Leaf(t: Tree, p: Path) {
    p in t && (t[p].FileNode? || IsEmptyDir(t, p))
  }

  /** A visible path with a visible file or empty directory at or below it: directories whose only
      contents are ignored are left out. */
  ghost predicate Listed(t: Tree, rules: Rules, p: Path) {
    p in VisiblePaths(t, rules) && exists q :: q in VisiblePaths(t, rules) && AtOrUnder(p, q) && Leaf(t, q)
  }

  /** The manifest records exactly the listed paths. */
  ghost predicate ScansVisible(digest: Digest, t: Tree, rules: Rules, m: Entries) {
    forall p :: At(m, p) == if Listed(t, rules, p) then NodeContent(digest, t, p) else Absent
  }

  /** Midway through the pruning: what was visited is there exactly if it is listed. */
  ghost predicate Pruning(t: Tree, rules: Rules, todo: set<Path>, m: Entries) {
    forall p :: p in m <==> p in VisiblePaths(t, rules) && (p in todo || Listed(t, rules, p))
  }

  lemma PruningStep(t: Tree, rules: Rules, todo: set<Path>, m: Entries, p: Path, m': Entries)
    requires Pruning(t, rules, todo, m) && p in todo && p in VisiblePaths(t, rules)
    requires m' == if Listed(t, rules, p) then m else m - {p}
    ensures Pruning(t, rules, todo - {p}, m') && forall q | q in m' :: q in m && m'[q] == m[q]
  {
  }

  lemma LeafIsListed(t: Tree, rules: Rules, p: Path)
    requires p in VisiblePaths(t, rules) && Leaf(t, p)
    ensures Listed(t, rules, p)
  {
    assert AtOrUnder(p, p);
  }

  /** At its turn a directory is listed exactly if an entry below it is left, or it is empty. */
  lemma ListedExactlyIfKept(t: Tree, rules: Rules, todo: set<Path>, m: Entries, p: Path)
    requires Pruning(t, rules, todo, m) && Deepest(p, todo) && p in VisiblePaths(t, rules) && t[p].DirNode?
    ensures Listed(t, rules, p) <==> IsEmptyDir(t, p) || exists k :: k in m && Under(p, k)
  {
    if IsEmptyDir(t, p) {
      assert AtOrUnder(p, p) && Leaf(t, p);
    } else if k :| k in m && Under(p, k) {
      BelowIsDeeper(p, k);
      var q :| q in VisiblePaths(t, rules) && AtOrUnder(k, q) && Leaf(t, q);
      AtOrUnderTransitive(p, k, q);
    } else {
      forall q | q in VisiblePaths(t, rules) && AtOrUnder(p, q) ensures !Leaf(t, q) {
        if Leaf(t, q) { LeafIsListed(t, rules, q); }
      }
    }
  }

  /** `build_manifest`: the walk, and then the directories deepest first. */
  method BuildManifest(digest: Digest, t: Tree, rules: Rules, modified: Path -> nat) returns (m: Entries)
    ensures ScansVisible(digest, t, rules, m)
  {
    var visible := VisiblePaths(t, rules);
    m := map p | p in visible ::
      match t[p]
      case DirNode => Directory
      case FileNode(b) => NewFile(|b|, digest.hash(b), modified(p));
    var todo := set p | p in visible && t[p].DirNode?;
    forall p | p in visible && p !in todo ensures Listed(t, rules, p) { LeafIsListed(t, rules, p); }
    while todo != {}
      invariant forall p | p in todo :: p in visible && t[p].DirNode?
      invariant Pruning(t, rules, todo, m)
      invariant forall p | p in m :: At(m, p) == NodeContent(digest, t, p)
    {
      DeepestExists(todo);
      var p :| p in todo && Deepest(p, todo);
      ListedExactlyIfKept(t, rules, todo, m, p);
      var hasVisibleChild := exists k | k in m :: Under(p, k);
      ghost var before := m;
      if !hasVisibleChild && !IsEmptyDir(t, p) {
        m := m - {p};
      }
      PruningStep(t, rules, todo, before, p, m);
      todo := todo - {p};
    }
  }

  // ---------------------------------------------------------------- properties

  /** What a scan lists, it lists with all its directories. */
  lemma ScanIsClosed(digest: Digest, t: Tree, rules: Rules, m: Entries)
    requires Rooted(t) && ScansVisible(digest, t, rules, m)
    ensures Closed(m)
  {
    forall p, a | p in m && Under(a, p) ensures a in m && m[a].Directory? {
      assert At(m, p) != Absent;
      ListedUpwards(t, rules, a, p);
      assert At(m, a) == Dir;
    }
  }

  lemma ListedUpwards(t: Tree, rules: Rules, a: Path, p: Path)
    requires Rooted(t) && Listed(t, rules, p) && Under(a, p)
    ensures Listed(t, rules, a)
  {
    forall x | x in t && AtOrUnder(x, a) ensures !Excluded(t, rules, x) { AtOrUnderTransitive(x, a, p); }
    var q :| q in VisiblePaths(t, rules) && AtOrUnder(p, q) && Leaf(t, q);
    AtOrUnderTransitive(a, p, q);
  }

  /** Where nothing is hidden everything is listed. */
  lemma VisibleIsListed(t: Tree, rules: Rules, p: Path)
    requires p in t && forall k | k in t && AtOrUnder(p, k) :: k in VisiblePaths(t, rules)
    ensures Listed(t, rules, p)
  {
    var q := LastBelow(t.Keys, p);
  }

  /** A rule hides the path itself; a tracked path, and a directory above one, is never hidden. */
  predicate Hides(t: Tree, rules: Rules, tracked: set<Path>, a: Path) {
    a in t && rules(a, t[a].DirNode?) && a !in tracked && !exists k :: k in tracked && Under(a, k)
  }

  /** Exactly the paths with a file or an empty directory at or below them that nothing at or above it
      hides. */
  ghost predicate ListsByRules(t: Tree, rules: Rules, tracked: set<Path>, listed: set<Path>) {
    forall p :: p in listed <==> p in t && exists q ::
      && q in t && AtOrUnder(p, q) && (t[q].FileNode? || forall k | k in t :: !Under(q, k))
      && forall a | AtOrUnder(a, q) :: !Hides(t, rules, tracked, a)
  }

  lemma ListedByRules(t: Tree, rules: Rules, tracked: set<Path>, listed: set<Path>)
    requires forall p :: p in listed <==> Listed(t, Effective(rules, tracked), p)
    ensures ListsByRules(t, rules, tracked, listed)
  {
    var now := Effective(rules, tracked);
    assert forall a :: Excluded(t, now, a) <==> Hides(t, rules, tracked, a);
    forall p, q | q in VisiblePaths(t, now) && AtOrUnder(p, q) && p in t ensures p in VisiblePaths(t, now) {
      VisibleUpwards(t, now, p, q);
    }
  }

  /** Without rules everything is listed. */
  lemma AllListed(t: Tree, tracked: set<Path>, p: Path)
    requires p in t
    ensures Listed(t, Effective(NO_RULES, tracked), p)
  {
    VisibleIsListed(t, Effective(NO_RULES, tracked), p);
  }

  lemma LeafStaysVisible(t: Tree, rules: Rules, tracked: set<Path>, listed: set<Path>, q: Path)
    requires Rooted(t) && forall p :: p in listed <==> Listed(t, Effective(rules, tracked), p)
    requires q in VisiblePaths(t, Effective(rules, tracked)) && Leaf(t, q)
    ensures q in VisiblePaths(t, Effective(rules, listed))
  {
    LeafIsListed(t, Effective(rules, tracked), q);
    forall a | a in t && AtOrUnder(a, q) ensures a in listed {
      if a != q { ListedUpwards(t, Effective(rules, tracked), a, q); }
    }
  }

  lemma NothingAppears(t: Tree, rules: Rules, tracked: set<Path>, listed: set<Path>, q: Path)
    requires forall p :: p in listed <==> Listed(t, Effective(rules, tracked), p)
    requires q in VisiblePaths(t, Effective(rules, listed))
    ensures q in VisiblePaths(t, Effective(rules, tracked))
  {
    forall a | a in t && AtOrUnder(a, q) ensures !Excluded(t, Effective(rules, tracked), a) {
      assert !Excluded(t, Effective(rules, listed), a);
      if k :| k in listed && Under(a, k) { assert k in VisiblePaths(t, Effective(rules, tracked)); }
    }
  }

  /** Once a scan is staged its paths are tracked, and scanning the same tree again lists the same. */
  lemma RescanIsStable(digest: Digest, t: Tree, rules: Rules, tracked: set<Path>, m: Entries)
    requires Rooted(t) && ScansVisible(digest, t, Effective(rules, tracked), m)
    ensures ScansVisible(digest, t, Effective(rules, m.Keys), m)
  {
    var before, now := Effective(rules, tracked), Effective(rules, m.Keys);
    forall p ensures p in m.Keys <==> Listed(t, before, p) { assert p in m <==> At(m, p) != Absent; }
    forall p ensures Listed(t, now, p) <==> Listed(t, before, p) {
      if Listed(t, before, p) {
        var q :| q in VisiblePaths(t, before) && AtOrUnder(p, q) && Leaf(t, q);
        LeafStaysVisible(t, rules, tracked, m.Keys, q);
        VisibleUpwards(t, now, p, q);
      }
      if Listed(t, now, p) {
        NothingAppears(t, rules, tracked, m.Keys, p);
        var q :| q in VisiblePaths(t, now) && AtOrUnder(p, q) && Leaf(t, q);
        NothingAppears(t, rules, tracked, m.Keys, q);
      }
    }
  }

  lemma VisibleUpwards(t: Tree, rules: Rules, a: Path, p: Path)
    requires p in VisiblePaths(t, rules) && a in t && AtOrUnder(a, p)
    ensures a in VisiblePaths(t, rules)
  {
    forall x | x in t && AtOrUnder(x, a) ensures !Excluded(t, rules, x) { AtOrUnderTransitive(x, a, p); }
  }
}
