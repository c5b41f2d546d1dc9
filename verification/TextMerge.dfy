/** Byte strings, and the two foreign functions on them that the client relies on. */
module Data {
  newtype byte = x: int | 0 <= x < 256

  type Bytes = seq<byte>

  /** `hash` stands for the hexadecimal SHA-256 digest, `utf8` for the UTF-8 validity check. */
  datatype Digest = Digest(hash: Bytes -> string, utf8: Bytes -> bool)

  /** `back` recovers contents from their hash. */
  ghost predicate Inverts(d: Digest, back: string -> Bytes) {
    forall a: Bytes :: back(d.hash(a)) == a
  }

  /** No two contents have the same hash: hashing can be inverted. */
  ghost predicate CollisionFree(d: Digest) {
    exists back :: Inverts(d, back)
  }
}

/** The line-wise three-way text merge. */
module TextMerge {
  import opened Options
  import opened Data

  const NEWLINE: byte := 10

  /** The length of the first line, including its newline if it has one. */
  function LineEnd(s: Bytes): (n: nat)
    requires s != []
    ensures 0 < n <= |s|
    ensures NEWLINE !in s[..n - 1]
    ensures n < |s| ==> s[n - 1] == NEWLINE
  {
    if s[0] == NEWLINE || |s| == 1 then 1
    else
      var n := 1 + LineEnd(s[1..]);
      assert s[..n - 1] == [s[0]] + s[1..][..n - 2];
      n
  }

  /** Splits after every newline; the last line may lack one. */
  function Lines(s: Bytes): seq<Bytes> {
    if s == [] then [] else [s[..LineEnd(s)]] + Lines(s[LineEnd(s)..])
  }

  function Concat(ls: seq<Bytes>): Bytes {
    if ls == [] then [] else ls[0] + Concat(ls[1..])
  }

  predicate Line(x: Bytes) {
    x != [] && NEWLINE !in x[..|x| - 1]
  }

  predicate Terminated(x: Bytes) {
    Line(x) && x[|x| - 1] == NEWLINE
  }

  /** The lists that splitting can return: only the last line may be unterminated. */
  ghost predicate Shaped(ls: seq<Bytes>) {
    && (forall i | 0 <= i < |ls| :: Line(ls[i]))
    && (forall i | 0 <= i < |ls| - 1 :: Terminated(ls[i]))
  }

  lemma {:induction false} SplitThenConcat(s: Bytes)
    ensures Shaped(Lines(s)) && Concat(Lines(s)) == s
    ensures s != [] ==> Lines(s) != []
    ensures forall i | 0 <= i < |Lines(s)| :: Lines(s)[i] != [] && 10 !in Lines(s)[i][..|Lines(s)[i]| - 1]
    ensures forall i | 0 <= i < |Lines(s)| - 1 :: Lines(s)[i][|Lines(s)[i]| - 1] == 10
  {
    if s == [] {
    } else {
      var n := LineEnd(s);
      SplitThenConcat(s[n..]);
      assert s == s[..n] + s[n..];
      Prepended(s[..n], Lines(s[n..]));
    }
  }

  lemma Prepended(x: Bytes, ls: seq<Bytes>)
    requires Line(x) && Shaped(ls) && (ls == [] || Terminated(x))
    ensures Shaped([x] + ls) && Concat([x] + ls) == x + Concat(ls)
  {
    assert ([x] + ls)[1..] == ls;
  }

  lemma {:induction false} ConcatThenSplit(ls: seq<Bytes>)
    requires Shaped(ls)
    ensures Lines(Concat(ls)) == ls
  {
    if ls == [] {
    } else {
      var x, tail := ls[0], ls[1..];
      assert Line(x) && (tail == [] || Terminated(x));
      assert Shaped(tail);
      ConcatThenSplit(tail);
      SplitFirst(x, Concat(tail));
      assert ls == [x] + tail;
    }
  }

  lemma SplitFirst(x: Bytes, rest: Bytes)
    requires Line(x) && (rest == [] || Terminated(x))
    ensures Lines(x + rest) == [x] + Lines(rest)
  {
    FirstLine(x, rest);
    assert (x + rest)[|x|..] == rest;
  }

  lemma FirstLine(x: Bytes, rest: Bytes)
    requires Line(x) && (rest == [] || Terminated(x))
    ensures LineEnd(x + rest) == |x| && (x + rest)[..|x|] == x
  {
    var s := x + rest;
    var n := LineEnd(s);
    assert forall i | 0 <= i < |x| - 1 :: s[i] == x[..|x| - 1][i];
    assert forall i | 0 <= i < n - 1 :: s[i] == s[..n - 1][i];
    assert s[|x| - 1] == x[|x| - 1];
  }

  /** Both sides changed the line, and differently. */
  predicate Overlap(base: Bytes, local: Bytes, remote: Bytes) {
    local != base && remote != base && local != remote
  }

  function Pick(base: Bytes, local: Bytes, remote: Bytes): Bytes {
    if local != base then local else remote
  }

  predicate Mergeable(utf8: Bytes -> bool, base: Bytes, local: Bytes, remote: Bytes) {
    var b, l, r := Lines(base), Lines(local), Lines(remote);
    && utf8(base) && utf8(local) && utf8(remote)
    && |b| == |l| == |r|
    && forall i | 0 <= i < |b| :: !Overlap(b[i], l[i], r[i])
  }

  function MergedLines(base: Bytes, local: Bytes, remote: Bytes): seq<Bytes>
    requires |Lines(base)| == |Lines(local)| == |Lines(remote)|
  {
    var b, l, r := Lines(base), Lines(local), Lines(remote);
    seq(|b|, i requires 0 <= i < |b| => Pick(b[i], l[i], r[i]))
  }

  /** What the merge computes: defined exactly on texts of equal line counts without overlapping edits. */
  function Merged(utf8: Bytes -> bool, base: Bytes, local: Bytes, remote: Bytes): Option<Bytes> {
    if Mergeable(utf8, base, local, remote) then Some(Concat(MergedLines(base, local, remote))) else None
  }

  /** Merges line by line. It is defined exactly if all three are texts of equally many lines and at no line
      all three differ from each other; splitting the result again gives the changed lines. */
  method MergeTextThreeWay(utf8: Bytes -> bool, base: Bytes, local: Bytes, remote: Bytes)
    returns (result: Option<Bytes>)
    ensures result.Some? <==>
      var b, l, r := Lines(base), Lines(local), Lines(remote);
      && utf8(base) && utf8(local) && utf8(remote) && |b| == |l| && |b| == |r|
      && !exists i :: 0 <= i < |b| && b[i] != l[i] && b[i] != r[i] && l[i] != r[i]
    ensures result.Some? ==>
      var b, l, r, m := Lines(base), Lines(local), Lines(remote), Lines(result.value);
      && |m| == |b| == |l| == |r|
      && forall i | 0 <= i < |b| ::
           (l[i] != b[i] ==> m[i] == l[i]) && (r[i] != b[i] ==> m[i] == r[i])
           && (l[i] == b[i] == r[i] ==> m[i] == b[i])
    ensures result == Merged(utf8, base, local, remote)
  {
    if !utf8(base) || !utf8(local) || !utf8(remote) {
      return None;
    }
    var b, l, r := Lines(base), Lines(local), Lines(remote);
    if |b| != |l| || |b| != |r| {
      return None;
    }
    var merged: Bytes := [];
    ghost var all := MergedLines(base, local, remote);
    for i := 0 to |b|
      invariant NoOverlapBefore(b, l, r, i)
      invariant merged + Concat(all[i..]) == Concat(all)
    {
      var localChanged, remoteChanged := l[i] != b[i], r[i] != b[i];
      assert all[i] == Pick(b[i], l[i], r[i]);
      ConcatStep(all, i, merged);
      if !localChanged && !remoteChanged {
        merged := merged + b[i];
      } else if localChanged && !remoteChanged {
        merged := merged + l[i];
      } else if !localChanged && remoteChanged {
        merged := merged + r[i];
      } else if l[i] == r[i] {
        merged := merged + l[i];
      } else {
        assert Overlap(b[i], l[i], r[i]);
        return None;
      }
      NoOverlapStep(b, l, r, i);
    }
    assert all[|b|..] == [] && merged == Concat(all);
    assert Mergeable(utf8, base, local, remote);
    MergeKeepsBothSides(utf8, base, local, remote);
    result := Some(merged);
  }

  ghost predicate NoOverlapBefore(b: seq<Bytes>, l: seq<Bytes>, r: seq<Bytes>, i: nat)
    requires i <= |b| == |l| == |r|
  {
    forall j | 0 <= j < i :: !Overlap(b[j], l[j], r[j])
  }

  lemma NoOverlapStep(b: seq<Bytes>, l: seq<Bytes>, r: seq<Bytes>, i: nat)
    requires i < |b| == |l| == |r| && NoOverlapBefore(b, l, r, i) && !Overlap(b[i], l[i], r[i])
    ensures NoOverlapBefore(b, l, r, i + 1)
  {
  }

  lemma ConcatStep(all: seq<Bytes>, i: nat, merged: Bytes)
    requires i < |all| && merged + Concat(all[i..]) == Concat(all)
    ensures merged + all[i] + Concat(all[i + 1..]) == Concat(all)
  {
  }

  // ---------------------------------------------------------------- properties

  lemma MergedLinesAreShaped(base: Bytes, local: Bytes, remote: Bytes)
    requires |Lines(base)| == |Lines(local)| == |Lines(remote)|
    ensures Shaped(MergedLines(base, local, remote))
  {
    SplitThenConcat(base);
    SplitThenConcat(local);
    SplitThenConcat(remote);
  }

  /** Splitting the result again gives, line by line, the local change, else the remote one, else the
      base; so every line either side changed is in the result. */
  lemma MergeKeepsBothSides(utf8: Bytes -> bool, base: Bytes, local: Bytes, remote: Bytes)
    requires Mergeable(utf8, base, local, remote)
    ensures
      var b, l, r, m := Lines(base), Lines(local), Lines(remote), Lines(Merged(utf8, base, local, remote).value);
      && |m| == |b|
      && (forall i | 0 <= i < |b| && l[i] != b[i] :: m[i] == l[i])
      && (forall i | 0 <= i < |b| && r[i] != b[i] :: m[i] == r[i])
      && (forall i | 0 <= i < |b| && l[i] == b[i] == r[i] :: m[i] == b[i])
  {
    MergedLinesAreShaped(base, local, remote);
    ConcatThenSplit(MergedLines(base, local, remote));
  }

  lemma MergeIsSymmetric(utf8: Bytes -> bool, base: Bytes, local: Bytes, remote: Bytes)
    ensures Merged(utf8, base, local, remote) == Merged(utf8, base, remote, local)
  {
    if Mergeable(utf8, base, local, remote) {
      assert MergedLines(base, local, remote) == MergedLines(base, remote, local);
    }
    if Mergeable(utf8, base, remote, local) {
      assert forall i | 0 <= i < |Lines(base)| :: !Overlap(Lines(base)[i], Lines(remote)[i], Lines(local)[i]);
    }
  }

  /** UTF-8 validity can be decided line by line. */
  ghost predicate DecidedByLine(utf8: Bytes -> bool) {
    utf8([]) && forall a: Bytes, b: Bytes | Line(a) && (b == [] || Terminated(a)) :: utf8(a + b) == (utf8(a) && utf8(b))
  }

  lemma {:induction false} TextIffLinesAreText(utf8: Bytes -> bool, ls: seq<Bytes>)
    requires DecidedByLine(utf8) && Shaped(ls)
    ensures utf8(Concat(ls)) <==> forall i | 0 <= i < |ls| :: utf8(ls[i])
  {
    if ls == [] {
    } else {
      TextIffLinesAreText(utf8, ls[1..]);
      assert Line(ls[0]);
      if |ls| > 1 { assert Terminated(ls[0]); } else { assert Concat(ls[1..]) == []; }
      assert ls == [ls[0]] + ls[1..];
      assert utf8(ls[0] + Concat(ls[1..])) == (utf8(ls[0]) && utf8(Concat(ls[1..])));
    }
  }

  lemma MergeIsText(utf8: Bytes -> bool, base: Bytes, local: Bytes, remote: Bytes)
    requires DecidedByLine(utf8) && Mergeable(utf8, base, local, remote)
    ensures utf8(Merged(utf8, base, local, remote).value)
  {
    SplitThenConcat(base);
    SplitThenConcat(local);
    SplitThenConcat(remote);
    TextIffLinesAreText(utf8, Lines(local));
    TextIffLinesAreText(utf8, Lines(remote));
    MergedLinesAreShaped(base, local, remote);
    var m, l, r := MergedLines(base, local, remote), Lines(local), Lines(remote);
    forall i | 0 <= i < |m| ensures utf8(m[i]) { assert m[i] == l[i] || m[i] == r[i]; }
    TextIffLinesAreText(utf8, MergedLines(base, local, remote));
  }

  /** Merging the result once more with either side returns the result. */
  lemma RemergeIsStable(utf8: Bytes -> bool, base: Bytes, local: Bytes, remote: Bytes)
    requires DecidedByLine(utf8) && Mergeable(utf8, base, local, remote)
    ensures
      var m := Merged(utf8, base, local, remote);
      Merged(utf8, base, m.value, remote) == m && Merged(utf8, base, local, m.value) == m
  {
    var m := Merged(utf8, base, local, remote).value;
    MergeIsText(utf8, base, local, remote);
    MergedLinesAreShaped(base, local, remote);
    ConcatThenSplit(MergedLines(base, local, remote));
    assert MergedLines(base, m, remote) == MergedLines(base, local, remote);
    assert MergedLines(base, local, m) == MergedLines(base, local, remote);
  }
}
