/** Options, used wherever the program returns `Option` or looks a key up. */
module Options {
  datatype Option<+T> = None | Some(value: T)

  function Get<K, V>(m: map<K, V>, k: K): Option<V> {
    if k in m then Some(m[k]) else None
  }
}

/** Relative workspace paths: strings whose components are separated by '/'. */
module Paths {
  type Path = string

  /** `p` lies strictly below `root`, i.e. `p` starts with `root` followed by a separator. */
  predicate Under(root: Path, p: Path) {
    |root| < |p| && p[|root|] == '/' && p[..|root|] == root
  }

  predicate AtOrUnder(root: Path, p: Path) {
    p == root || Under(root, p)
  }

  /** The path that stands to `to` as `p` stands to `from`. */
  function Rebase(from: Path, to: Path, p: Path): Path
    requires AtOrUnder(from, p)
  {
    to + p[|from|..]
  }

  lemma RebaseRoundTrip(from: Path, to: Path, p: Path)
    requires AtOrUnder(from, p)
    ensures AtOrUnder(to, Rebase(from, to, p))
    ensures Rebase(to, from, Rebase(from, to, p)) == p
    ensures Under(from, p) <==> Under(to, Rebase(from, to, p))
  {
  }

  lemma RebaseUnder(from: Path, to: Path, a: Path, p: Path)
    requires AtOrUnder(from, a) && Under(a, p)
    ensures AtOrUnder(from, p)
    ensures Under(Rebase(from, to, a), Rebase(from, to, p))
  {
  }

  lemma UnderTransitive(a: Path, b: Path, c: Path)
    requires Under(a, b) && Under(b, c)
    ensures Under(a, c)
  {
  }

  lemma AtOrUnderTransitive(a: Path, b: Path, c: Path)
    requires AtOrUnder(a, b) && AtOrUnder(b, c)
    ensures AtOrUnder(a, c)
  {
  }

  /** The ancestors of one path form a chain. */
  lemma AncestorsAreLinear(a: Path, b: Path, c: Path)
    requires AtOrUnder(a, c) && AtOrUnder(b, c)
    ensures AtOrUnder(a, b) || AtOrUnder(b, a)
  {
  }

  /** Appending a separator-free suffix keeps the proper ancestors and adds none. */
  lemma SiblingAncestors(a: Path, p: Path, suffix: string)
    requires '/' !in suffix
    ensures Under(a, p + suffix) <==> Under(a, p)
  {
  }

  // ---------------------------------------------------------------- ordering

  /** Lexicographic order by code point: the iteration order of the path-keyed B-trees. */
  predicate Less(a: Path, b: Path) {
    |b| > 0 && (|a| == 0 || a[0] < b[0] || (a[0] == b[0] && Less(a[1..], b[1..])))
  }

  lemma {:induction false} LessIsTotal(a: Path, b: Path)
    ensures a == b || Less(a, b) || Less(b, a)
  {
    if |a| == 0 || |b| == 0 || a[0] != b[0] {
    } else {
      LessIsTotal(a[1..], b[1..]);
      assert a == [a[0]] + a[1..] && b == [b[0]] + b[1..];
    }
  }

  lemma {:induction false} LessIsTransitive(a: Path, b: Path, c: Path)
    requires Less(a, b) && Less(b, c)
    ensures Less(a, c)
  {
    if |a| == 0 || a[0] != b[0] || b[0] != c[0] {
    } else {
      LessIsTransitive(a[1..], b[1..], c[1..]);
    }
  }

  lemma {:induction false} LessIsIrreflexive(a: Path)
    ensures !Less(a, a)
  {
    if |a| == 0 {
    } else {
      LessIsIrreflexive(a[1..]);
    }
  }

  /** A directory sorts before everything below it. */
  lemma {:induction false} AncestorIsLess(a: Path, p: Path)
    requires Under(a, p)
    ensures Less(a, p)
  {
    if |a| == 0 {
    } else {
      assert p[0] == p[..|a|][0];
      assert p[1..][..|a| - 1] == p[..|a|][1..];
      AncestorIsLess(a[1..], p[1..]);
    }
  }

  /** The first differing character decides; a proper prefix comes first. */
  lemma {:induction false} LessAtFirstDifference(a: Path, b: Path)
    ensures Less(a, b) <==>
      || (|a| < |b| && b[..|a|] == a)
      || exists i :: 0 <= i < |a| && i < |b| && a[..i] == b[..i] && a[i] < b[i]
  {
    if |a| == 0 || |b| == 0 || a[0] != b[0] {
      assert a[..0] == b[..0];
    } else {
      var a', b' := a[1..], b[1..];
      LessAtFirstDifference(a', b');
      assert a == [a[0]] + a' && b == [b[0]] + b';
      forall i | 0 <= i < |a| && i < |b| && a[..i] == b[..i] && a[i] < b[i]
        ensures 0 < i && a'[..i - 1] == b'[..i - 1] && a'[i - 1] < b'[i - 1]
      {
        assert a'[..i - 1] == a[..i][1..] && b'[..i - 1] == b[..i][1..];
      }
      forall i | 0 <= i < |a'| && i < |b'| && a'[..i] == b'[..i] && a'[i] < b'[i]
        ensures a[..i + 1] == b[..i + 1] && a[i + 1] < b[i + 1]
      {
        assert a[..i + 1] == [a[0]] + a'[..i] && b[..i + 1] == [b[0]] + b'[..i];
      }
      if |a| < |b| { assert b[..|a|] == [b[0]] + b'[..|a'|]; }
    }
  }

  predicate Ascending(ks: seq<Path>) {
    forall i, j | 0 <= i < j < |ks| :: Less(ks[i], ks[j])
  }

  predicate IsLeast(m: Path, s: set<Path>) {
    m in s && forall q | q in s :: q == m || Less(m, q)
  }

  lemma {:induction false} LeastExists(s: set<Path>)
    requires s != {}
    ensures exists m :: IsLeast(m, s)
  {
    var x :| x in s;
    if s == {x} {
      assert IsLeast(x, s);
    } else {
      LeastExists(s - {x});
      var m :| IsLeast(m, s - {x});
      LessIsTotal(x, m);
      if Less(m, x) {
        assert IsLeast(m, s);
      } else {
        forall q | q in s ensures q == x || Less(x, q) {
          if q != x && q != m { LessIsTransitive(x, m, q); }
        }
        assert IsLeast(x, s);
      }
    }
  }

  /** The elements of a B-tree set, in iteration order. */
  method InOrder(s: set<Path>) returns (ks: seq<Path>)
    ensures Ascending(ks)
    ensures forall p :: p in ks <==> p in s
  {
    ks := [];
    var todo := s;
    while todo != {}
      invariant todo <= s
      invariant forall p :: p in ks <==> p in s - todo
      invariant Ascending(ks)
      invariant forall k, q | k in ks && q in todo :: Less(k, q)
    {
      LeastExists(todo);
      var m :| m in todo && IsLeast(m, todo);
      ks, todo := ks + [m], todo - {m};
    }
  }

  lemma AscendingIsInjective(ks: seq<Path>, i: nat, j: nat)
    requires Ascending(ks) && i < |ks| && j < |ks| && ks[i] == ks[j]
    ensures i == j
  {
    LessIsIrreflexive(ks[i]);
  }

  lemma AscendingIndex(ks: seq<Path>, i: nat, j: nat)
    requires Ascending(ks) && i < |ks| && j < |ks| && Less(ks[i], ks[j])
    ensures i < j
  {
    if j < i { LessIsTransitive(ks[i], ks[j], ks[i]); }
    LessIsIrreflexive(ks[i]);
  }

  // ---------------------------------------------------------------- validity

  /** `p[i..j]` is one '/'-separated component of `p`. */
  predicate Component(p: Path, i: int, j: int) {
    && 0 <= i <= j <= |p|
    && (i == 0 || p[i - 1] == '/')
    && (j == |p| || p[j] == '/')
    && '/' !in p[i..j]
  }

  /** The check made by every manifest insertion. */
  predicate Valid(p: Path) {
    && p != ""
    && p[0] != '/'
    && '\\' !in p
    && forall i, j | 0 <= i <= |p| && i <= j <= |p| && Component(p, i, j) ::
      p[i..j] != "" && p[i..j] != "." && p[i..j] != ".."
  }

  /** The names joined by separators. */
  function PathOf(names: seq<string>): Path
    requires names != []
  {
    if |names| == 1 then names[0] else PathOf(names[..|names| - 1]) + "/" + names[|names| - 1]
  }

  ghost predicate NamesOf(p: Path, names: seq<string>) {
    && names != [] && p == PathOf(names)
    && forall i | 0 <= i < |names| :: names[i] !in {"", ".", ".."} && '/' !in names[i] && '\\' !in names[i]
  }

  /** The valid paths are exactly the non-empty lists of names. */
  lemma ValidExactly(p: Path)
    ensures Valid(p) <==> exists names :: NamesOf(p, names)
  {
    if Valid(p) { var names := SplitValid(p); }
    if names :| NamesOf(p, names) {
      assert forall i | 0 <= i < |names| :: ValidName(names[i]);
      PathOfNamesIsValid(names);
    }
  }

  lemma {:induction false} PathOfNamesIsValid(names: seq<string>)
    requires names != [] && forall i | 0 <= i < |names| :: ValidName(names[i])
    ensures Valid(PathOf(names))
  {
    if |names| == 1 {
      NameIsValid(names[0]);
    } else {
      PathOfNamesIsValid(names[..|names| - 1]);
      ChildIsValid(PathOf(names[..|names| - 1]), names[|names| - 1]);
    }
  }

  lemma {:induction false} SplitValid(p: Path) returns (names: seq<string>)
    requires Valid(p)
    ensures NamesOf(p, names)
    decreases |p|
  {
    if '/' !in p {
      assert p[0..|p|] == p && Component(p, 0, |p|);
      names := [p];
    } else {
      var k := LastSeparator(p);
      LastIsName(p, k);
      FrontIsValid(p, k);
      var rest := SplitValid(p[..k]);
      NamesOfMore(p[..k], rest, p[k + 1..]);
      names := rest + [p[k + 1..]];
      assert p == p[..k] + "/" + p[k + 1..];
    }
  }

  lemma {:induction false} LastSeparator(p: Path) returns (k: nat)
    requires '/' in p
    ensures k < |p| && p[k] == '/' && '/' !in p[k + 1..]
    decreases |p|
  {
    if p[|p| - 1] == '/' {
      k := |p| - 1;
    } else {
      var q := p[..|p| - 1];
      assert p == q + [p[|p| - 1]];
      k := LastSeparator(q);
      assert p[k + 1..] == q[k + 1..] + [p[|p| - 1]];
    }
  }

  lemma LastIsName(p: Path, k: nat)
    requires Valid(p) && k < |p| && p[k] == '/' && '/' !in p[k + 1..]
    ensures p[k + 1..] !in {"", ".", ".."} && '\\' !in p[k + 1..]
  {
    assert p[k + 1..|p|] == p[k + 1..] && Component(p, k + 1, |p|);
  }

  lemma NamesOfMore(front: Path, rest: seq<string>, last: string)
    requires NamesOf(front, rest) && last !in {"", ".", ".."} && '/' !in last && '\\' !in last
    ensures NamesOf(front + "/" + last, rest + [last])
  {
    assert (rest + [last])[..|rest|] == rest;
  }

  lemma FrontIsValid(p: Path, k: nat)
    requires Valid(p) && k < |p| && p[k] == '/'
    ensures Valid(p[..k])
  {
    var front := p[..k];
    assert front != "" ==> front[0] == p[0];
    forall i, j | Component(front, i, j) ensures front[i..j] != "" && front[i..j] != "." && front[i..j] != ".." {
      assert front[i..j] == p[i..j] && Component(p, i, j);
    }
  }

  /** The stricter check of the local engine: no NUL, and never the private directory. */
  predicate Safe(p: Path) {
    Valid(p) && '\0' !in p && !AtOrUnder(".rustsync", p)
  }

  lemma PrivatePrefix(p: Path)
    ensures AtOrUnder(".rustsync", p) <==> p == ".rustsync" || ".rustsync/" <= p
  {
    var root, prefix := ".rustsync", ".rustsync/";
    assert prefix == root + "/";
    if prefix <= p { assert p[..|root|] == p[..|prefix|][..|root|]; }
  }

  /** The directories above a safe path are safe. */
  lemma AncestorIsSafe(a: Path, p: Path)
    requires Under(a, p) && Safe(p)
    ensures Safe(a)
  {
    assert forall k | 0 <= k < |a| :: p[..|a|][k] == p[k];
    forall i, j | Component(a, i, j) ensures a[i..j] != "" && a[i..j] != "." && a[i..j] != ".." {
      assert a[i..j] == p[i..j];
      assert Component(p, i, j);
    }
    if AtOrUnder(".rustsync", a) { AtOrUnderTransitive(".rustsync", a, p); }
  }

  /** Extending a component of a valid path leaves every path below it valid. */
  lemma SuffixKeepsValid(p: Path, suffix: string, tail: string)
    requires Valid(p) && Valid(p + tail)
    requires tail == "" || tail[0] == '/'
    requires |suffix| > 2 && '/' !in suffix && '\\' !in suffix
    ensures Valid(p + suffix + tail)
  {
    var q, r := p + suffix + tail, p + tail;
    assert q[0] == p[0];
    assert forall k | |p| <= k < |p| + |suffix| :: q[k] == suffix[k - |p|];
    assert p[|p|..|p|] == "" && !Component(p, |p|, |p|);
    assert q[|p| - 1] == p[|p| - 1];
    forall i, j | Component(q, i, j) ensures q[i..j] != "" && q[i..j] != "." && q[i..j] != ".." {
      if j < |p| {
        assert p[i..j] == q[i..j];
        assert Component(p, i, j);
      } else if i > |p| + |suffix| {
        var s := |suffix|;
        assert r[i - s..j - s] == q[i..j];
        assert q[i - 1] == r[i - 1 - s];
        assert j < |q| ==> q[j] == r[j - s];
        assert Component(r, i - s, j - s);
      } else {
        assert |q[i..j]| > 2;
      }
    }
    assert '\\' !in q;
  }

  /** A name of one component: what a directory entry may be called. */
  predicate ValidName(name: string) {
    name != "" && '/' !in name && '\\' !in name && name != "." && name != ".."
  }

  lemma NameIsValid(name: string)
    requires ValidName(name)
    ensures Valid(name)
  {
    forall i, j | Component(name, i, j) ensures name[i..j] == name {
      assert i == 0 && j == |name|;
    }
  }

  lemma ChildIsValid(p: Path, name: string)
    requires Valid(p) && ValidName(name)
    ensures Valid(p + "/" + name)
  {
    var q := p + "/" + name;
    assert q[0] == p[0];
    forall i, j | 0 <= i <= |p| < j <= |q| ensures '/' in q[i..j] { assert q[i..j][|p| - i] == '/'; }
    forall i, j | Component(q, i, j) ensures q[i..j] != "" && q[i..j] != "." && q[i..j] != ".." {
      if j <= |p| {
        assert q[i..j] == p[i..j];
        assert Component(p, i, j);
      } else {
        assert forall k | |p| < k < |q| :: q[k] == name[k - |p| - 1];
        assert i == |p| + 1 && j == |q| && q[i..j] == name;
      }
    }
  }
}
