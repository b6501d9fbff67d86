/** Natural-number powers of reals, and the facts about them that the
    monthly-rate conventions rely on: powers of non-negative bases are
    non-negative and strictly increasing in the base, and compounding beats
    simple interest (Bernoulli's inequality). */
module Power {

  /** x raised to the n-th power. */
  function Pow(x: real, n: nat): (p: real)
  {
    if n == 0 then 1.0 else x * Pow(x, n - 1)
  }

  lemma {:induction false} PowNonNegative(x: real, n: nat)
    requires 0.0 <= x
    ensures 0.0 <= Pow(x, n)
  {
    if n > 0 {
      PowNonNegative(x, n - 1);
    }
  }

  /** A base in [0, 1] never raises its power above 1. */
  lemma {:induction false} PowAtMostOne(x: real, n: nat)
    requires 0.0 <= x <= 1.0
    ensures Pow(x, n) <= 1.0
  {
    if n > 0 {
      PowAtMostOne(x, n - 1);
      PowNonNegative(x, n - 1);
      var p := Pow(x, n - 1);
      MulMonotone(x, 1.0, p);
      assert Pow(x, n) == x * p <= 1.0 * p == p;
    }
  }

  /** On non-negative bases, a positive power is strictly increasing. */
  lemma {:induction false} PowStrictlyIncreasing(a: real, b: real, n: nat)
    requires 0.0 <= a < b
    requires n >= 1
    ensures Pow(a, n) < Pow(b, n)
  {
    if n > 1 {
      var pa, pb := Pow(a, n - 1), Pow(b, n - 1);
      PowStrictlyIncreasing(a, b, n - 1);
      PowNonNegative(a, n - 1);
      MulMonotone(a, b, pa);
      MulStrictMonotone(pa, pb, b);
      assert Pow(a, n) == a * pa <= b * pa < b * pb == Pow(b, n);
    }
  }

  /** Two non-negative bases with the same positive power are equal. */
  lemma PowInjective(a: real, b: real, n: nat)
    requires 0.0 <= a && 0.0 <= b
    requires n >= 1
    requires Pow(a, n) == Pow(b, n)
    ensures a == b
  {
    if a < b {
      PowStrictlyIncreasing(a, b, n);
    } else if b < a {
      PowStrictlyIncreasing(b, a, n);
    }
  }

  /** Strict Bernoulli inequality: (1 + x)^n > 1 + n*x for x > 0 and n >= 2. */
  lemma {:induction false} Bernoulli(x: real, n: nat)
    requires 0.0 < x
    requires n >= 2
    ensures Pow(1.0 + x, n) > 1.0 + (n as real) * x
  {
    var c, p := 1.0 + x, Pow(1.0 + x, n - 1);
    var k := (n - 1) as real;
    assert Pow(c, n) == c * p;
    if n == 2 {
      assert p == c * Pow(c, 0) == c;
      assert p >= 1.0 + k * x;
    } else {
      Bernoulli(x, n - 1);
    }
    BernoulliStep(x, k, p);
  }

  /** One step of Bernoulli's inequality: if p >= 1 + kx with k >= 1, then
      (1 + x) p > 1 + (k + 1) x. */
  lemma BernoulliStep(x: real, k: real, p: real)
    requires 0.0 < x && 1.0 <= k
    requires p >= 1.0 + k * x
    ensures (1.0 + x) * p > 1.0 + (k + 1.0) * x
  {
    MulMonotone(1.0 + k * x, p, 1.0 + x);
    assert (1.0 + k * x) * (1.0 + x) == 1.0 + (k + 1.0) * x + k * x * x;
    MulStrictMonotone(0.0, k * x, x);
  }

  lemma MulMonotone(a: real, b: real, c: real)
    requires a <= b && 0.0 <= c
    ensures a * c <= b * c && c * a <= c * b
  {
  }

  lemma MulStrictMonotone(a: real, b: real, c: real)
    requires a < b && 0.0 < c
    ensures a * c < b * c && c * a < c * b
  {
  }
}
