/** `Math.round(remaining * (count / purchased))` in exact integer arithmetic.
    `Math.round(x)` is `floor(x + 1/2)`, so for a positive denominator d the
    rounded value of n / d is `floor((2 * n + d) / (2 * d))`. */
module Rounding {

  /** The integer nearest to n / d, a half rounded up. Dafny's `/` floors
      when the divisor is positive. */
  function RoundDiv(n: int, d: int): int
    requires d > 0
  {
    (2 * n + d) / (2 * d)
  }

  /** The rounding rule: the result lies within half a unit of n / d, a half
      going up, i.e. q - 1/2 <= n / d < q + 1/2. */
  lemma RoundDivRule(n: int, d: int)
    requires d > 0
    ensures 2 * d * RoundDiv(n, d) - d <= 2 * n < 2 * d * RoundDiv(n, d) + d
  {
    var q, m := (2 * n + d) / (2 * d), (2 * n + d) % (2 * d);
    assert 2 * n + d == 2 * d * q + m && 0 <= m < 2 * d;
  }

  /** p * x and p * y compare as x and y do when p is positive. */
  lemma CancelPositive(p: int, x: int, y: int)
    requires p > 0
    ensures p * x <= p * y ==> x <= y
    ensures p * x < p * y ==> x < y
  {
    if x >= y {
      assert p * x - p * y == p * (x - y) >= 0;
    }
  }

  /** The rounding rule determines the result: no other integer lies within
      half a unit of n / d with halves going up. */
  lemma RoundDivUnique(n: int, d: int, q: int)
    requires d > 0
    requires 2 * d * q - d <= 2 * n < 2 * d * q + d
    ensures q == RoundDiv(n, d)
  {
    var r := RoundDiv(n, d);
    RoundDivRule(n, d);
    assert 2 * d * (q - 1) == 2 * d * q - 2 * d;
    assert 2 * d * (r - 1) == 2 * d * r - 2 * d;
    CancelPositive(2 * d, q - 1, r);
    CancelPositive(2 * d, r - 1, q);
  }

  /** With a non-negative pool and a count no larger than the purchases, an
      allocation lies between 0 and the whole pool. */
  lemma AllocationBounds(remaining: int, count: int, purchased: int)
    requires 0 <= remaining && 0 <= count <= purchased && 0 < purchased
    ensures 0 <= RoundDiv(remaining * count, purchased) <= remaining
  {
    var n, q := remaining * count, RoundDiv(remaining * count, purchased);
    RoundDivRule(n, purchased);
    assert 0 <= n;
    assert remaining * purchased - n == remaining * (purchased - count) >= 0;
    assert purchased * (2 * q - 1) == 2 * purchased * q - purchased;
    assert purchased * (2 * remaining) == 2 * remaining * purchased;
    CancelPositive(purchased, 2 * q - 1, 2 * remaining);
    assert purchased * (2 * q + 1) == 2 * purchased * q + purchased;
    CancelPositive(purchased, -1, 2 * q);
  }

  /** With an over-subscribed (negative) pool no allocation is positive. */
  lemma AllocationNonPositive(remaining: int, count: int, purchased: int)
    requires remaining <= 0 && 0 <= count && 0 < purchased
    ensures RoundDiv(remaining * count, purchased) <= 0
  {
    var n, q := remaining * count, RoundDiv(remaining * count, purchased);
    RoundDivRule(n, purchased);
    assert n == -((-remaining) * count) && (-remaining) * count >= 0;
    assert purchased * (2 * q - 1) == 2 * purchased * q - purchased;
    CancelPositive(purchased, 2 * q - 1, 0);
  }

  /** Adding one more rounded share keeps the accumulated rounding error of
      i shares within half a unit per share (strictly on the low side). */
  lemma DriftStep(p: int, r: int, total: int, counted: int, i: nat, c: int)
    requires p > 0
    requires 2 * p * total - i * p <= 2 * r * counted
    requires i > 0 ==> 2 * r * counted < 2 * p * total + i * p
    requires i == 0 ==> total == 0 && counted == 0
    ensures var q := RoundDiv(r * c, p);
      2 * p * (total + q) - (i + 1) * p <= 2 * r * (counted + c) &&
      2 * r * (counted + c) < 2 * p * (total + q) + (i + 1) * p
  {
    var q := RoundDiv(r * c, p);
    RoundDivRule(r * c, p);
    assert 2 * p * (total + q) == 2 * p * total + 2 * p * q;
    assert (i + 1) * p == i * p + p;
    assert 2 * r * (counted + c) == 2 * r * counted + 2 * (r * c);
    if i == 0 {
      assert 2 * p * total == 0 && 2 * r * counted == 0;
    }
  }

  /** A bound on the summed allocations, divided through by the number of
      purchases: at most half a unit per address either way. */
  lemma DriftPerAddress(p: int, r: int, airdropTotal: int, k: int)
    requires p > 0
    requires 2 * p * airdropTotal - k * p <= 2 * r * p < 2 * p * airdropTotal + k * p
    ensures -k < 2 * (airdropTotal - r) <= k
  {
    assert 2 * p * airdropTotal - k * p == p * (2 * airdropTotal - k);
    assert 2 * p * airdropTotal + k * p == p * (2 * airdropTotal + k);
    assert 2 * r * p == p * (2 * r);
    CancelPositive(p, 2 * airdropTotal - k, 2 * r);
    CancelPositive(p, 2 * r, 2 * airdropTotal + k);
  }

  /** An exact rational `num / den`. Every share of the allocation has the
      denominator `purchased`, so their running total is kept over it too. */
  datatype Fraction = Fraction(num: int, den: int)
  {
    /** The number the fraction stands for. */
    ghost function Value(): real
      requires den != 0
    {
      num as real / den as real
    }

    /** The sum of two fractions over one denominator. */
    function Plus(other: Fraction): Fraction
      requires other.den == den
    {
      Fraction(num + other.num, den)
    }
  }

  /** Adding the numerators over a common denominator adds the values. */
  lemma PlusValue(x: Fraction, y: Fraction)
    requires x.den == y.den != 0
    ensures x.Plus(y).Value() == x.Value() + y.Value()
  {
    var d := x.den as real;
    assert (x.num as real + y.num as real) / d == x.num as real / d + y.num as real / d;
  }

  /** A fraction whose numerator equals its denominator is one. */
  lemma WholeIsOne(f: Fraction)
    requires f.den != 0 && f.num == f.den
    ensures f.Value() == 1.0
  {
    var d := f.den as real;
    assert f.num as real == d;
    assert d * 1.0 == d;
  }

  /** A fraction with numerator zero is zero, whatever its denominator. */
  lemma ZeroIsZero(f: Fraction)
    requires f.den != 0 && f.num == 0
    ensures f.Value() == 0.0
  {
  }
}
