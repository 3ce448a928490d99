/**
 * Positional number encodings. Every platform version macro packs a
 * (major, minor) pair into one integer by giving each field a fixed number
 * of decimal (or binary) digits. The lemmas here say when comparing the
 * packed integers is the same as comparing the pairs lexicographically.
 */
module Digits {

  /** (hi, lo) >= (hi', lo') in lexicographic order. */
  predicate LexGe(hi: int, lo: int, hi': int, lo': int) {
    hi > hi' || (hi == hi' && lo >= lo')
  }

  /**
   * Multiplying by a non-negative factor preserves order. The solver finds
   * this fact on its own; the induction on k spells it out so that the
   * lemmas below do not depend on the solver's nonlinear search.
   */
  lemma {:induction false} MulMonotone(a: int, b: int, k: nat)
    requires a <= b
    ensures a * k <= b * k
  {
    if k > 0 {
      MulMonotone(a, b, k - 1);
      assert a * k == a * (k - 1) + a;
      assert b * k == b * (k - 1) + b;
    }
  }

  /**
   * Two numbers whose low field holds one digit of base k compare like
   * their (high, low) pairs, provided both low fields are digits.
   */
  lemma PositionalCompare(hi: int, lo: int, hi': int, lo': int, k: int)
    requires 0 <= lo < k && 0 <= lo' < k
    ensures hi * k + lo >= hi' * k + lo' <==> LexGe(hi, lo, hi', lo')
  {
    if hi > hi' {
      MulMonotone(hi' + 1, hi, k);
      assert (hi' + 1) * k == hi' * k + k;
    } else if hi < hi' {
      MulMonotone(hi + 1, hi', k);
      assert (hi + 1) * k == hi * k + k;
    }
  }

  /**
   * A tail below the unit u never decides a comparison against a whole
   * multiple of u: c*u + t >= d*u exactly when c >= d.
   */
  lemma TailCompare(c: int, d: int, t: int, u: int)
    requires 0 <= t < u
    ensures c * u + t >= d * u <==> c >= d
  {
    if c >= d {
      MulMonotone(d, c, u);
    } else {
      MulMonotone(c + 1, d, u);
      assert (c + 1) * u == c * u + u;
    }
  }

  /**
   * A two-field encoding with a discarded tail: a current value
   * hi*(k*u) + lo*u + t, compared against a threshold hi'*(k*u) + lo'*u,
   * compares (hi, lo) against (hi', lo') whenever lo and lo' are digits of
   * base k and the tail t is below the minor unit u.
   */
  lemma FieldCompare(hi: int, lo: int, t: int, hi': int, lo': int, k: int, u: int)
    requires 0 <= lo < k && 0 <= lo' < k && 0 <= t < u
    ensures hi * (k * u) + lo * u + t >= hi' * (k * u) + lo' * u <==> LexGe(hi, lo, hi', lo')
  {
    assert hi * (k * u) + lo * u == (hi * k + lo) * u;
    assert hi' * (k * u) + lo' * u == (hi' * k + lo') * u;
    TailCompare(hi * k + lo, hi' * k + lo', t, u);
    PositionalCompare(hi, lo, hi', lo', k);
  }
}
