/** The working tree and the file-system calls made on it. */
module FileTree {
  import opened Options
  import opened Data
  import opened Paths
  import opened Manifests

  datatype Node = FileNode(bytes: Bytes) | DirNode

  /** Every path below the workspace root, without the private directory. */
  type Tree = map<Path, Node>

  /** As in a file system: what lies above an entry is a directory. */
  ghost predicate Rooted(t: Tree) {
    forall p, a | p in t && Under(a, p) :: a in t && t[a].DirNode?
  }

  /** Some component above the path is a file, so reaching it fails with `NotADirectory`. */
  predicate FileAbove(t: Tree, p: Path) {
    exists a | a in t :: Under(a, p) && t[a].FileNode?
  }

  predicate IsEmptyDir(t: Tree, p: Path) {
    p in t && t[p].DirNode? && forall q | q in t :: !Under(p, q)
  }

  /** `create_dir_all`: the path and everything above it become directories. */
  ghost predicate CreatesDirs(t: Tree, p: Path, t': Tree) {
    forall q :: Get(t', q) == (if AtOrUnder(q, p) then Some(DirNode) else Get(t, q))
  }

  predicate Slashes(p: Path, i: nat)
    requires i < |p|
  {
    p[i] == '/'
  }

  /** `create_dir_all` as the loop over the prefixes of the path. */
  method CreateDirAll(t: Tree, p: Path) returns (ok: bool, t': Tree)
    ensures ok <==> !FileAbove(t, p) && !(p in t && t[p].FileNode?)
    ensures ok ==> CreatesDirs(t, p, t')
    ensures !ok ==> t' == t
  {
    if FileAbove(t, p) || (p in t && t[p].FileNode?) {
      return false, t;
    }
    t' := t;
    for i := 0 to |p|
      invariant forall q :: Get(t', q) == (if Under(q, p) && |q| < i then Some(DirNode) else Get(t, q))
    {
      assert forall q | Under(q, p) && |q| == i :: q == p[..i];
      if Slashes(p, i) {
        assert Under(p[..i], p);
        t' := t'[p[..i] := DirNode];
      }
    }
    t' := t'[p := DirNode];
    ok := true;
  }

  lemma CreateDirsKeepsRooted(t: Tree, p: Path, t': Tree)
    requires Rooted(t) && CreatesDirs(t, p, t') && !FileAbove(t, p) && !(p in t && t[p].FileNode?)
    ensures Rooted(t')
  {
    forall q, a | q in t' && Under(a, q) ensures a in t' && t'[a].DirNode? {
      if AtOrUnder(q, p) {
        AtOrUnderTransitive(a, q, p);
        assert Get(t', a) == Some(DirNode);
      } else {
        assert Get(t', q) == Get(t, q);
        assert Get(t', a) == Some(DirNode);
      }
    }
  }

  // ---------------------------------------------------------------- scanning

  /** What a manifest records of a node. */
  function NodeContent(digest: Digest, t: Tree, q: Path): Content {
    if q !in t then Absent
    else match t[q]
      case DirNode => Dir
      case FileNode(b) => Data(|b|, digest.hash(b))
  }

  /** A path for which the file in place already has the recorded size and hash. */
  predicate Matches(digest: Digest, t: Tree, p: Path, f: FileEntry) {
    p in t && t[p].FileNode? && |t[p].bytes| == f.size && digest.hash(t[p].bytes) == f.contentHash
  }

  // ---------------------------------------------------------------- ignored paths

  /** The ignore rules decide by path and kind. */
  type Rules = (Path, bool) -> bool

  /** The rules are read from a file of the workspace itself, each time anew. */
  const IGNORE_FILE: Path := ".rustsyncignore"

  /** Reading the rules: `None` stands for a malformed file. */
  type Parser = Bytes -> Option<Rules>

  const NO_RULES: Rules := (p, dir) => false

  function LoadRules(parse: Parser, t: Tree): Option<Rules> {
    if IGNORE_FILE !in t then Some(NO_RULES)
    else match t[IGNORE_FILE]
      case DirNode => None
      case FileNode(b) => parse(b)
  }

  /** Tracked paths and everything above them stay, whatever the rules say later. */
  function Effective(rules: Rules, tracked: set<Path>): Rules {
    (p, dir) => rules(p, dir) && p !in tracked && forall k | k in tracked :: !Under(p, k)
  }

  /** The rules in force for a tree with these tracked paths, if the ignore file can be read. */
  function Ignores(parse: Parser, t: Tree, tracked: set<Path>): Option<Rules> {
    match LoadRules(parse, t)
    case None => None
    case Some(rules) => Some(Effective(rules, tracked))
  }

  predicate Excluded(t: Tree, rules: Rules, p: Path) {
    p in t && rules(p, t[p].DirNode?)
  }

  predicate NothingIgnored(t: Tree, rules: Rules) {
    forall p | p in t :: !Excluded(t, rules, p)
  }

  /** The paths the walk collects: it neither lists nor enters an excluded entry. */
  function VisiblePaths(t: Tree, rules: Rules): (visible: set<Path>)
    ensures visible <= t.Keys
  {
    set p | p in t && forall a | a in t && AtOrUnder(a, p) :: !Excluded(t, rules, a)
  }

  function ProtectedPaths(t: Tree, rules: Rules): set<Path> {
    set p | p in t && Excluded(t, rules, p) && forall a | a in t && Under(a, p) :: !Excluded(t, rules, a)
  }

  /** What the walk does not list lies at or below a protected path. */
  lemma {:induction false} HiddenIsProtected(t: Tree, rules: Rules, p: Path) returns (r: Path)
    requires p in t && p !in VisiblePaths(t, rules)
    ensures r in ProtectedPaths(t, rules) && AtOrUnder(r, p)
    decreases |p|
  {
    r :| r in t && AtOrUnder(r, p) && Excluded(t, rules, r);
    if r !in ProtectedPaths(t, rules) {
      var a :| a in t && Under(a, r) && Excluded(t, rules, a);
      var r' := HiddenIsProtected(t, rules, a);
      AtOrUnderTransitive(r', a, r);
      AtOrUnderTransitive(r', r, p);
      r := r';
    }
  }

  lemma ProtectedIsHidden(t: Tree, rules: Rules, r: Path, p: Path)
    requires r in ProtectedPaths(t, rules) && AtOrUnder(r, p)
    ensures p !in VisiblePaths(t, rules)
  {
  }

  // ---------------------------------------------------------------- depth

  /** Separators in the path: the sort key of the removal. */
  function Depth(p: Path): nat {
    if p == "" then 0 else Depth(p[..|p| - 1]) + if p[|p| - 1] == '/' then 1 else 0
  }

  lemma {:induction false} DepthOfPrefix(p: Path, n: nat)
    requires n <= |p|
    ensures Depth(p[..n]) <= Depth(p)
    decreases |p|
  {
    if n == |p| {
      assert p[..n] == p;
    } else {
      var q := p[..|p| - 1];
      assert p[..n] == q[..n];
      DepthOfPrefix(q, n);
    }
  }

  /** What lies below is deeper. */
  lemma BelowIsDeeper(a: Path, p: Path)
    requires Under(a, p)
    ensures Depth(a) < Depth(p)
  {
  }

  predicate Deepest(p: Path, s: set<Path>) {
    p in s && forall q | q in s :: Depth(q) <= Depth(p)
  }

  lemma {:induction false} DeepestExists(s: set<Path>)
    requires s != {}
    ensures exists p :: Deepest(p, s)
  {
    var x :| x in s;
    var rest := s - {x};
    if rest == {} {
      assert s == {x};
      assert Deepest(x, s);
    } else {
      DeepestExists(rest);
      var y :| Deepest(y, rest);
      var top := if Depth(y) <= Depth(x) then x else y;
      forall q | q in s ensures Depth(q) <= Depth(top) {
        if q != x { assert q in rest; }
      }
      assert Deepest(top, s);
    }
  }

  lemma NothingBelowDeepest(p: Path, s: set<Path>, q: Path)
    requires Deepest(p, s) && q in s
    ensures !Under(p, q)
  {
    if Under(p, q) { BelowIsDeeper(p, q); }
  }

  /** Some path of the set at or below `p` has nothing of the set below it. */
  lemma LastBelow(s: set<Path>, p: Path) returns (k: Path)
    requires p in s
    ensures k in s && AtOrUnder(p, k) && forall x | x in s :: !Under(k, x)
  {
    var below := set x | x in s && AtOrUnder(p, x);
    assert p in below;
    DeepestExists(below);
    k :| Deepest(k, below);
    forall x | x in s ensures !Under(k, x) {
      if x in below {
        NothingBelowDeepest(k, below, x);
      } else if Under(k, x) {
        AtOrUnderTransitive(p, k, x);
      }
    }
  }
}
