/** Endless schedules that keep making progress: a natural number that never
    grows and keeps falling reaches zero. */
module Descent {
  predicate NeverGrows(m: nat -> nat, n: nat) {
    m(n + 1) <= m(n)
  }

  predicate Moves(m: nat -> nat, n: nat) {
    m(n) == 0 || m(n + 1) < m(n)
  }

  /** Somewhere in the w steps from n on there is progress. */
  predicate MovesWithin(m: nat -> nat, n: nat, w: nat) {
    exists k: nat :: n <= k < n + w && Moves(m, k)
  }

  ghost predicate MovesLater(m: nat -> nat, n: nat) {
    exists k: nat :: n <= k && Moves(m, k)
  }

  lemma {:induction false} Monotone(m: nat -> nat, i: nat, j: nat)
    requires i <= j && forall n: nat :: NeverGrows(m, n)
    ensures m(j) <= m(i)
    decreases j
  {
    if i < j {
      Monotone(m, i, j - 1);
      assert NeverGrows(m, j - 1);
    }
  }

  lemma {:induction false} ReachesZero(m: nat -> nat, i: nat) returns (n: nat)
    requires forall n: nat :: NeverGrows(m, n)
    requires forall n: nat :: MovesLater(m, n)
    ensures m(n) == 0
    decreases m(i)
  {
    assert MovesLater(m, i);
    var k: nat :| i <= k && Moves(m, k);
    if m(k) == 0 { return k; }
    Monotone(m, i, k);
    n := ReachesZero(m, k + 1);
  }

  /** With progress in every window of w steps, w steps per unit are enough. */
  lemma {:induction false} ReachesZeroWithin(m: nat -> nat, w: nat, i: nat)
    requires forall n: nat :: NeverGrows(m, n)
    requires forall n: nat :: MovesWithin(m, n, w)
    ensures m(i + w * m(i)) == 0
    decreases m(i)
  {
    if m(i) > 0 {
      assert MovesWithin(m, i, w);
      var k: nat :| i <= k < i + w && Moves(m, k);
      Monotone(m, i, k);
      if m(k) > 0 { Monotone(m, k + 1, i + w); }
      else { Monotone(m, k, i + w); }
      assert m(i + w) < m(i);
      ReachesZeroWithin(m, w, i + w);
      assert w * m(i + w) + w == w * (m(i + w) + 1);
      WindowsFit(w, m(i + w) + 1, m(i));
      Monotone(m, i + w + w * m(i + w), i + w * m(i));
    }
  }

  lemma WindowsFit(w: nat, a: nat, b: nat)
    requires a <= b
    ensures w * a <= w * b
  {
  }
}
