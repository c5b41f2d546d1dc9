/** The search for the name under which the remote side of a conflict is kept. */
module ConflictNames {
  import opened Paths

  function Digit(d: nat): char
    requires d < 10
  {
    ('0' as int + d) as char
  }

  function Decimal(n: nat): (s: string)
    ensures s != ""
    ensures forall c | c in s :: '0' <= c <= '9'
  {
    if n < 10 then [Digit(n)] else Decimal(n / 10) + [Digit(n % 10)]
  }

  function Value(s: string): int {
    if s == "" then 0 else 10 * Value(s[..|s| - 1]) + (s[|s| - 1] as int - '0' as int)
  }

  lemma {:induction false} DecimalRoundTrip(n: nat)
    ensures Value(Decimal(n)) == n
  {
    if n >= 10 {
      DecimalRoundTrip(n / 10);
      assert Decimal(n)[..|Decimal(n)| - 1] == Decimal(n / 10);
    } else {
      assert Decimal(n)[..0] == "";
    }
  }

  const MARKER := ".rustsync-conflict-remote-r"

  /** What the `k`-th candidate appends to the path in conflict. */
  function Suffix(revision: nat, k: nat): string {
    MARKER + Decimal(revision) + if k == 0 then "" else "-" + Decimal(k)
  }

  function Candidate(path: Path, revision: nat, k: nat): Path {
    path + Suffix(revision, k)
  }

  ghost predicate IsCandidate(path: Path, revision: nat, name: Path) {
    exists k: nat :: name == Candidate(path, revision, k)
  }

  /** The name the search returns: the first candidate outside the reserved paths. */
  ghost predicate FirstFree(path: Path, revision: nat, reserved: set<Path>, name: Path) {
    && name !in reserved
    && exists k: nat :: name == Candidate(path, revision, k) && AllReserved(path, revision, reserved, k)
  }

  ghost predicate AllReserved(path: Path, revision: nat, reserved: set<Path>, k: nat) {
    forall j: nat | j < k :: Candidate(path, revision, j) in reserved
  }

  lemma FirstFreeIsCandidate(path: Path, revision: nat, reserved: set<Path>, name: Path)
    requires FirstFree(path, revision, reserved, name)
    ensures IsCandidate(path, revision, name) && name !in reserved
  {
  }

  lemma FirstFreeIsUnique(path: Path, revision: nat, reserved: set<Path>, a: Path, b: Path)
    requires FirstFree(path, revision, reserved, a) && FirstFree(path, revision, reserved, b)
    ensures a == b
  {
  }

  /** Candidates of different paths differ: the only dot of a suffix is its first character. */
  lemma CandidatesOfDifferentPaths(p: Path, j: nat, q: Path, k: nat, revision: nat)
    requires Candidate(p, revision, j) == Candidate(q, revision, k)
    ensures p == q
  {
    OneDot(revision, j);
    OneDot(revision, k);
    var x := Candidate(p, revision, j);
    assert forall i | |p| <= i < |x| :: x[i] == Suffix(revision, j)[i - |p|];
    assert forall i | |q| <= i < |x| :: x[i] == Suffix(revision, k)[i - |q|];
    assert x[|p|] == '.' && x[|q|] == '.';
    assert x[..|p|] == p && x[..|q|] == q;
  }

  lemma OneDot(revision: nat, k: nat)
    ensures |Suffix(revision, k)| > 0 && Suffix(revision, k)[0] == '.'
    ensures forall i | 0 < i < |Suffix(revision, k)| :: Suffix(revision, k)[i] != '.'
  {
    var d, e := Decimal(revision), if k == 0 then "" else "-" + Decimal(k);
    var s := Suffix(revision, k);
    assert s == MARKER + d + e;
    forall i | 0 < i < |s| ensures s[i] != '.' {
      assert i < |MARKER| || s[i] in d || s[i] in e;
    }
  }

  lemma SuffixIsOneComponent(revision: nat, k: nat)
    ensures |Suffix(revision, k)| > 2 && '/' !in Suffix(revision, k) && '\\' !in Suffix(revision, k)
    ensures '\0' !in Suffix(revision, k)
  {
    assert forall i | 0 <= i < |MARKER| :: MARKER[i] != '/' && MARKER[i] != '\\' && MARKER[i] != '\0';
  }

  /** Candidates never repeat, which is why the search over a finite set must end. */
  lemma CandidatesAreDistinct(path: Path, revision: nat, j: nat, k: nat)
    requires Candidate(path, revision, j) == Candidate(path, revision, k)
    ensures j == k
  {
    var stem := path + MARKER + Decimal(revision);
    var tail := (n: nat) => if n == 0 then "" else "-" + Decimal(n);
    assert forall n: nat :: Candidate(path, revision, n) == stem + tail(n);
    assert tail(j) == Candidate(path, revision, j)[|stem|..] == tail(k);
    if j != 0 && k != 0 {
      assert Decimal(j) == tail(j)[1..] && Decimal(k) == tail(k)[1..];
      DecimalRoundTrip(j);
      DecimalRoundTrip(k);
    }
  }

  /** Tries the bare name, then `-1`, `-2`, and so on: the first free candidate. */
  method FreshCopyPath(path: Path, revision: nat, reserved: set<Path>) returns (name: Path, ghost k: nat)
    ensures name == path + ".rustsync-conflict-remote-r" + Decimal(revision) + if k == 0 then "" else "-" + Decimal(k)
    ensures forall j: nat | j < k ::
      path + ".rustsync-conflict-remote-r" + Decimal(revision) + (if j == 0 then "" else "-" + Decimal(j)) in reserved
    ensures name == Candidate(path, revision, k) && name !in reserved
    ensures AllReserved(path, revision, reserved, k)
    ensures k <= |reserved|
  {
    var prefix := path + MARKER + Decimal(revision);
    name := prefix;
    k := 0;
    assert name == Candidate(path, revision, 0);
    var suffix := 1;
    ghost var tried: set<Path> := {};
    while name in reserved
      invariant suffix == k + 1 && name == Candidate(path, revision, k)
      invariant AllReserved(path, revision, reserved, k)
      invariant tried <= reserved && |tried| == k
      invariant forall x | x in tried :: exists j: nat | j < k :: x == Candidate(path, revision, j)
      decreases |reserved| - k
    {
      if name in tried {
        var j: nat :| j < k && name == Candidate(path, revision, j);
        CandidatesAreDistinct(path, revision, j, k);
        assert false;
      }
      Subset(tried + {name}, reserved);
      tried := tried + {name};
      name := prefix + "-" + Decimal(suffix);
      suffix := suffix + 1;
      k := k + 1;
      assert Suffix(revision, k) == MARKER + Decimal(revision) + ("-" + Decimal(k));
      assert name == Candidate(path, revision, k);
    }
    Subset(tried, reserved);
    forall j: nat { CandidateSpelled(path, revision, j); }
  }

  lemma CandidateSpelled(path: Path, revision: nat, k: nat)
    ensures Candidate(path, revision, k) ==
      path + ".rustsync-conflict-remote-r" + Decimal(revision) + if k == 0 then "" else "-" + Decimal(k)
  {
    var number := if k == 0 then "" else "-" + Decimal(k);
    assert path + (MARKER + Decimal(revision) + number) == path + MARKER + Decimal(revision) + number;
  }

  lemma {:induction false} Subset<T>(a: set<T>, b: set<T>)
    requires a <= b
    ensures |a| <= |b|
  {
    if a == {} {
    } else {
      var x :| x in a;
      Subset(a - {x}, b - {x});
    }
  }

  lemma CandidateKeepsValid(path: Path, revision: nat, k: nat, q: Path)
    requires Valid(path) && Valid(q) && AtOrUnder(path, q)
    ensures Valid(Rebase(path, Candidate(path, revision, k), q))
  {
    SuffixIsOneComponent(revision, k);
    var tail := q[|path|..];
    assert q == path + tail;
    SuffixKeepsValid(path, Suffix(revision, k), tail);
  }
}
