/** Sequences of states linked by a step relation, and induction along them. */
module Runs {
  ghost predicate ChainFrom<S(!new)>(ws: seq<S>, m: nat, next: (S, S) -> bool) {
    forall i, j {:trigger next(ws[i], ws[j])} | m <= i < |ws| - 1 && j == i + 1 :: next(ws[i], ws[j])
  }

  ghost predicate Chain<S(!new)>(ws: seq<S>, next: (S, S) -> bool) {
    ChainFrom(ws, 0, next)
  }

  lemma ChainStep<S(!new)>(ws: seq<S>, m: nat, next: (S, S) -> bool, i: nat)
    requires ChainFrom(ws, m, next) && m <= i && i + 1 < |ws|
    ensures next(ws[i], ws[i + 1])
  {
  }

  /** What one step preserves holds from any state on to every later one. */
  lemma {:induction false} Preserved<S(!new)>(ws: seq<S>, i: nat, j: nat, next: (S, S) -> bool, inv: S -> bool)
    requires ChainFrom(ws, i, next) && i <= j < |ws| && inv(ws[i])
    requires forall a, b | inv(a) && next(a, b) :: inv(b)
    ensures inv(ws[j])
    decreases j - i
  {
    if i == j {
    } else {
      Preserved(ws, i, j - 1, next, inv);
      ChainStep(ws, i, next, j - 1);
    }
  }

  /** Two chains that meet in a state make one. */
  lemma Append<S(!new)>(ws: seq<S>, more: seq<S>, next: (S, S) -> bool)
    requires |ws| > 0 && |more| > 0 && ws[|ws| - 1] == more[0]
    requires Chain(ws, next) && Chain(more, next)
    ensures Chain(ws + more[1..], next)
  {
    var all := ws + more[1..];
    forall i, j | 0 <= i < |all| - 1 && j == i + 1 ensures next(all[i], all[j]) {
      if j < |ws| {
        ChainStep(ws, 0, next, i);
      } else {
        ChainStep(more, 0, next, i + 1 - |ws|);
        assert all[i] == more[i + 1 - |ws|];
      }
    }
  }

  lemma ThreeSteps<S(!new)>(a: S, b: S, c: S, d: S, next: (S, S) -> bool)
    requires next(a, b) && next(b, c) && next(c, d)
    ensures Chain([a, b, c, d], next)
  {
  }
}
