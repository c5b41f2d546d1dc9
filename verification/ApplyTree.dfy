/** Applying a manifest to the working tree: preflight, deepest-first removal, ordered rewrite. */
module ApplyTree {
  import opened Options
  import opened Data
  import opened Paths
  import opened Manifests
  import opened FileTree

  datatype ApplyResult =
    | Applied
    | WorkspaceIdMismatch
    | UnsafePath
    | BadIgnoreFile
    | WouldOverwriteIgnored
    | BlobSource
    | HashMismatch
    | SizeMismatch
    | IoError

  // ---------------------------------------------------------------- preflight

  /** Safe paths, and no file above another entry. */
  ghost predicate PathsOk(m: Entries) {
    forall p | p in m :: Safe(p) && forall a | Under(a, p) && a in m :: m[a].Directory?
  }

  /** No entry would overwrite a protected path, enter it, or replace a directory that holds it. */
  predicate NoClash(m: Entries, protected: set<Path>) {
    forall r, p | r in protected && p in m :: !AtOrUnder(r, p) && !(m[p].File? && Under(p, r))
  }

  /** Accepts exactly relative paths of proper names that stay out of the private directory, with no file
      above another entry. */
  method ValidateManifestPaths(m: Entries) returns (ok: bool)
    ensures ok <==> forall p | p in m ::
      && Valid(p) && '\0' !in p && p != ".rustsync" && !(".rustsync/" <= p)
      && forall a | Under(a, p) && a in m :: m[a].Directory?
    ensures ok <==> PathsOk(m)
  {
    forall p { PrivatePrefix(p); }
    var keys := InOrder(m.Keys);
    for i := 0 to |keys|
      invariant forall j | 0 <= j < i :: Safe(keys[j]) && forall a | Under(a, keys[j]) && a in m :: m[a].Directory?
    {
      var path := keys[i];
      if !Safe(path) {
        return false;
      }
      for index := 0 to |path|
        invariant forall a | Under(a, path) && |a| < index && a in m :: m[a].Directory?
      {
        assert forall a | Under(a, path) && |a| == index :: a == path[..index];
        if path[index] == '/' && path[..index] in m && m[path[..index]].File? {
          assert Under(path[..index], path) && path in m;
          return false;
        }
      }
    }
    forall p | p in m ensures Safe(p) && forall a | Under(a, p) && a in m :: m[a].Directory? { assert p in keys; }
    ok := true;
  }

  // ---------------------------------------------------------------- removal

  /** A path that the removal must leave: an entry of the manifest, or hidden by the ignore rules. */
  ghost predicate Anchored(m: Entries, visible: set<Path>, p: Path) {
    p in m || p !in visible
  }

  /** Paths that remain: anchored ones and the directories above them. */
  ghost predicate Remains(t: Tree, m: Entries, visible: set<Path>, p: Path) {
    p in t && exists q :: q in t && AtOrUnder(p, q) && Anchored(m, visible, q)
  }

  ghost predicate Removed(t: Tree, m: Entries, visible: set<Path>, t': Tree) {
    forall p :: Get(t', p) == if Remains(t, m, visible, p) then Some(t[p]) else None
  }

  /** Midway through the removal: everything not yet visited is still there. */
  ghost predicate Removing(t: Tree, m: Entries, visible: set<Path>, todo: set<Path>, t': Tree) {
    forall p :: Get(t', p) == if p in t && (p in todo || Remains(t, m, visible, p)) then Some(t[p]) else None
  }

  /** When the deepest remaining path is visited, a directory is empty exactly if it need not remain. */
  lemma EmptyExactlyIfUnneeded(t: Tree, m: Entries, visible: set<Path>, todo: set<Path>, t': Tree, p: Path)
    requires Rooted(t) && visible <= t.Keys && todo <= visible && Deepest(p, todo) && p !in m
    requires Removing(t, m, visible, todo, t')
    ensures t[p].DirNode? ==> (IsEmptyDir(t', p) <==> !Remains(t, m, visible, p))
    ensures t[p].FileNode? ==> !Remains(t, m, visible, p)
    ensures Get(t', p) == Some(t[p])
  {
    if Remains(t, m, visible, p) {
      var q :| q in t && AtOrUnder(p, q) && Anchored(m, visible, q);
      assert Under(p, q);
      assert Remains(t, m, visible, q);
      assert Get(t', q) == Some(t[q]);
    } else {
      forall q | q in t' ensures !Under(p, q) {
        if Under(p, q) {
          BelowIsDeeper(p, q);
          assert q !in todo;
          assert Get(t', q).Some?;
          assert Remains(t, m, visible, q);
          var x :| x in t && AtOrUnder(q, x) && Anchored(m, visible, x);
          AtOrUnderTransitive(p, q, x);
        }
      }
    }
  }

  /** A completed removal leaves nothing in the way of the rewrite: no file above an entry that is not
      itself an entry, and nothing below a file entry. */
  ghost predicate Ready(t: Tree, m: Entries) {
    && Rooted(t) && PathsOk(m)
    && (forall p, a | p in m && a in t && Under(a, p) && a !in m :: t[a].DirNode?)
    && (forall p, q | p in m && m[p].File? && q in t :: !Under(p, q))
  }

  lemma RemovalClears(t: Tree, m: Entries, rules: Rules, t': Tree)
    requires Rooted(t) && PathsOk(m) && NoClash(m, ProtectedPaths(t, rules))
    requires Removed(t, m, VisiblePaths(t, rules), t')
    ensures Ready(t', m)
  {
    var visible := VisiblePaths(t, rules);
    forall p, a | p in t' && Under(a, p) ensures a in t' && t'[a].DirNode? {
      assert Get(t', p).Some? && Remains(t, m, visible, p);
      var q :| q in t && AtOrUnder(p, q) && Anchored(m, visible, q);
      AtOrUnderTransitive(a, p, q);
      assert Remains(t, m, visible, a);
      assert Get(t', a) == Some(t[a]);
    }
    forall p, a | p in m && a in t' && Under(a, p) && a !in m ensures t'[a].DirNode? {
      FileAboveEntry(t, m, rules, t', a, p);
    }
    forall p, q | p in m && m[p].File? && q in t' ensures !Under(p, q) {
      if Under(p, q) { NothingBelowFileEntry(t, m, rules, t', p, q); }
    }
  }

  lemma FileAboveEntry(t: Tree, m: Entries, rules: Rules, t': Tree, a: Path, p: Path)
    requires Rooted(t) && NoClash(m, ProtectedPaths(t, rules)) && Removed(t, m, VisiblePaths(t, rules), t')
    requires p in m && a in t' && Under(a, p) && a !in m
    ensures t'[a].DirNode?
  {
    var visible := VisiblePaths(t, rules);
    assert Get(t', a).Some? && Remains(t, m, visible, a);
    var q :| q in t && AtOrUnder(a, q) && Anchored(m, visible, q);
    if q == a {
      var r := HiddenIsProtected(t, rules, a);
      AtOrUnderTransitive(r, a, p);
      assert false;
    }
  }

  /** An entry above something that had to stay is a directory. */
  lemma EntryAboveAnchored(t: Tree, m: Entries, rules: Rules, a: Path, x: Path)
    requires PathsOk(m) && NoClash(m, ProtectedPaths(t, rules)) && a in m
    requires x in t && Under(a, x) && Anchored(m, VisiblePaths(t, rules), x)
    ensures m[a].Directory?
  {
    if x !in m {
      var r := HiddenIsProtected(t, rules, x);
      AncestorsAreLinear(a, r, x);
    }
  }

  lemma NothingBelowFileEntry(t: Tree, m: Entries, rules: Rules, t': Tree, p: Path, q: Path)
    requires PathsOk(m) && NoClash(m, ProtectedPaths(t, rules)) && Removed(t, m, VisiblePaths(t, rules), t')
    requires p in m && m[p].File? && q in t'
    ensures !Under(p, q)
  {
    if Under(p, q) {
      var visible := VisiblePaths(t, rules);
      assert Get(t', q).Some?;
      var x :| x in t && AtOrUnder(q, x) && Anchored(m, visible, x);
      AtOrUnderTransitive(p, q, x);
      EntryAboveAnchored(t, m, rules, p, x);
    }
  }

  // ---------------------------------------------------------------- rewrite

  /** Some entry written so far lies below the path. */
  ghost predicate AboveSome(done: set<Path>, q: Path) {
    exists k :: k in done && Under(q, k)
  }

  function NodeFor(m: Entries, contents: map<Path, Bytes>, p: Path): Option<Node>
    requires p in m
  {
    if m[p].Directory? then Some(DirNode)
    else if p in contents then Some(FileNode(contents[p]))
    else None
  }

  /** What a path holds once the entries in `done` have been written. */
  ghost function NodeAfter(t: Tree, m: Entries, contents: map<Path, Bytes>, done: set<Path>, q: Path): Option<Node>
    requires done <= m.Keys
  {
    if q in done then NodeFor(m, contents, q)
    else if AboveSome(done, q) then Some(DirNode)
    else Get(t, q)
  }

  /** The tree once the entries in `done` have been written. */
  ghost predicate Written(t: Tree, m: Entries, contents: map<Path, Bytes>, done: set<Path>, t': Tree) {
    && done <= m.Keys
    && forall q :: Get(t', q) == NodeAfter(t, m, contents, done, q)
  }

  /** Entries are written in order, so the entries above the next one are done. */
  ghost predicate NextEntry(m: Entries, done: set<Path>, p: Path) {
    && p in m && p !in done && done <= m.Keys
    && (forall a | a in m && Under(a, p) :: a in done)
  }

  /** At its turn an entry finds no file above it, and a file entry finds nothing below it. */
  lemma TurnIsClear(t: Tree, m: Entries, contents: map<Path, Bytes>, done: set<Path>, t': Tree, p: Path)
    requires Ready(t, m) && Written(t, m, contents, done, t') && NextEntry(m, done, p)
    ensures !FileAbove(t', p)
    ensures m[p].File? ==> !AboveSome(done, p) && forall q | q in t' :: !Under(p, q)
  {
    forall a | a in t' && Under(a, p) ensures t'[a].DirNode? {
      assert Get(t', a) == Some(t'[a]);
      if a in m { assert m[a].Directory?; }
    }
    if m[p].File? {
      forall q | q in t' ensures !Under(p, q) {
        assert Get(t', q).Some?;
        if Under(p, q) {
          if AboveSome(done, q) {
            var k :| k in done && Under(q, k);
            UnderTransitive(p, q, k);
          }
        }
      }
    }
  }

  lemma WroteOne(
    t: Tree, m: Entries, contents: map<Path, Bytes>, done: set<Path>, t': Tree, p: Path, t'': Tree)
    requires Ready(t, m) && Written(t, m, contents, done, t') && NextEntry(m, done, p)
    requires forall q ::
      Get(t'', q) == (if q == p then NodeFor(m, contents, p) else if Under(q, p) then Some(DirNode) else Get(t', q))
    ensures Written(t, m, contents, done + {p}, t'')
  {
  }

  /** The directory that holds a path, if it is not the workspace root. */
  function Parent(p: Path): Option<Path> {
    if p == "" then None
    else if p[|p| - 1] == '/' then Some(p[..|p| - 1])
    else Parent(p[..|p| - 1])
  }

  lemma {:induction false} ParentIsNearest(p: Path)
    ensures Parent(p) == None ==> forall a :: !Under(a, p)
    ensures Parent(p).Some? ==> Under(Parent(p).value, p)
    ensures Parent(p).Some? ==> forall a :: Under(a, p) <==> AtOrUnder(a, Parent(p).value)
    decreases |p|
  {
    if p == "" {
    } else {
      var q := p[..|p| - 1];
      ParentIsNearest(q);
      forall a ensures Under(a, p) <==> Under(a, q) || (a == q && p[|p| - 1] == '/') {
        if |a| < |q| { assert p[..|a|] == q[..|a|]; }
      }
    }
  }
}
