/**
 * JavaScript's `Math.round` applied to an exact rational `num / den`.
 * `Math.round` rounds to the nearest integer and sends halves upwards (towards +infinity),
 * so the result is the unique integer r with r - 1/2 <= num/den < r + 1/2.
 */
module Rounding {

  /** Math.round(num / den) for den > 0, computed exactly as floor((2*num + den) / (2*den)). */
  function RoundHalfUp(num: int, den: int): (r: int)
    requires den > 0
    ensures 2 * den * r - den <= 2 * num < 2 * den * r + den
  {
    var q := (2 * num + den) / (2 * den);
    DivBounds(2 * num + den, 2 * den);
    q
  }

  /** Euclidean division bounds the quotient: q*d <= a < q*d + d. */
  lemma DivBounds(a: int, d: int)
    requires d > 0
    ensures d * (a / d) <= a < d * (a / d) + d
  {
  }

  /** The characterisation pins the result down: any integer inside the same half-open window is equal to it. */
  lemma RoundHalfUpUnique(num: int, den: int, r: int)
    requires den > 0
    requires 2 * den * r - den <= 2 * num < 2 * den * r + den
    ensures RoundHalfUp(num, den) == r
  {
    var q := RoundHalfUp(num, den);
    // Both windows have width 2*den and contain 2*num, so neither centre can lie a full step below the other.
    if q < r {
      MulMono(2 * den, q + 1, r);
      assert false;
    } else if q > r {
      MulMono(2 * den, r + 1, q);
      assert false;
    }
  }

  lemma MulMono(k: int, a: int, b: int)
    requires k > 0 && a <= b
    ensures k * a <= k * b
  {
  }

  /** Rounding is monotone in the numerator. */
  lemma RoundHalfUpMono(a: int, b: int, den: int)
    requires den > 0 && a <= b
    ensures RoundHalfUp(a, den) <= RoundHalfUp(b, den)
  {
    var ra, rb := RoundHalfUp(a, den), RoundHalfUp(b, den);
    if ra > rb {
      MulMono(2 * den, rb + 1, ra);
      assert false;
    }
  }

  /** A numerator that is an exact multiple of the denominator rounds to that multiple. */
  lemma RoundHalfUpExact(k: int, den: int)
    requires den > 0
    ensures RoundHalfUp(k * den, den) == k
  {
    RoundHalfUpUnique(k * den, den, k);
  }
}
