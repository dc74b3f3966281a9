/** Ken Perlin's quintic ease curve and the interpolation built on it (src/noise_math.h). */
module NoiseMath {

  function Min(a: real, b: real): real { if a <= b then a else b }
  function Max(a: real, b: real): real { if a <= b then b else a }

  /** v * factor, named so that cell-wise contracts can speak of a scaled cell as one term. */
  function Mul(v: real, factor: real): real
  {
    v * factor
  }

  lemma MulNonNegative(a: real, b: real)
    requires a >= 0.0 && b >= 0.0
    ensures a * b >= 0.0
  {
  }

  lemma Distribute(s: real, d: real)
    ensures (1.0 - s) * d == d - s * d
  {
  }

  /** p = s * d with s in [0, 1] lies between 0 and d, and is 0 at s = 0 and d at s = 1. */
  lemma MulFraction(s: real, d: real, p: real)
    requires 0.0 <= s <= 1.0 && p == s * d
    ensures s == 0.0 ==> p == 0.0
    ensures s == 1.0 ==> p == d
    ensures 0.0 <= d ==> 0.0 <= p <= d
    ensures d <= 0.0 ==> d <= p <= 0.0
  {
    Distribute(s, d);
    if 0.0 <= d {
      MulNonNegative(s, d);
      MulNonNegative(1.0 - s, d);
    } else {
      MulNonNegative(s, -d);
      MulNonNegative(1.0 - s, -d);
      Distribute(s, -d);
    }
  }

  /** The polynomial 6t^5 - 15t^4 + 10t^3, in the source's Horner form. */
  function Quintic(t: real): real { t * t * t * (t * (6.0 * t - 15.0) + 10.0) }

  /** SmootherStep: clamped to 0 below 0 and to 1 above 1. */
  function SmootherStep(t: real): (s: real)
    ensures t <= 0.0 ==> s == 0.0
    ensures t >= 1.0 ==> s == 1.0
    ensures 0.0 <= s <= 1.0
  {
    if t < 0.0 then 0.0
    else if t > 1.0 then 1.0
    else QuinticInUnit(t); Quintic(t)
  }

  /** 1 - Quintic(t) is Quintic(1 - t): the curve is point-symmetric about (1/2, 1/2). */
  lemma QuinticSymmetric(t: real)
    ensures Quintic(1.0 - t) == 1.0 - Quintic(t)
  {
    var u := 1.0 - t;
    calc {
      Quintic(u);
      u * u * u * (6.0 * u * u - 15.0 * u + 10.0);
      { assert 6.0 * u * u - 15.0 * u + 10.0 == 6.0 * t * t + 3.0 * t + 1.0; }
      u * u * u * (6.0 * t * t + 3.0 * t + 1.0);
      1.0 - t * t * t * (6.0 * t * t - 15.0 * t + 10.0);
    }
  }

  /** On [0, 1] the quintic stays inside [0, 1]. */
  lemma QuinticInUnit(t: real)
    requires 0.0 <= t <= 1.0
    ensures 0.0 <= Quintic(t) <= 1.0
  {
    QuinticNonNegative(t);
    QuinticNonNegative(1.0 - t);
    QuinticSymmetric(t);
  }

  /** t^3 and 6t^2 - 15t + 10 are both non-negative for t >= 0. */
  lemma QuinticNonNegative(t: real)
    requires 0.0 <= t
    ensures 0.0 <= Quintic(t)
  {
    var c := t * t * t;
    MulNonNegative(t, t);
    MulNonNegative(t * t, t);
    var q := t * (6.0 * t - 15.0) + 10.0;
    assert q == 6.0 * (t - 1.25) * (t - 1.25) + 0.625;
    assert Quintic(t) == c * q;
    MulNonNegative(c, q);
  }

  /** SmootherStep(1 - t) == 1 - SmootherStep(t) for every t, clamped branches included. */
  lemma SmootherStepSymmetric(t: real)
    ensures SmootherStep(1.0 - t) == 1.0 - SmootherStep(t)
  {
    if 0.0 <= t <= 1.0 {
      QuinticSymmetric(t);
    }
  }

  /** The midpoint is a fixed point of the ease curve. */
  lemma SmootherStepMidpoint()
    ensures SmootherStep(0.5) == 0.5
  {
    SmootherStepSymmetric(0.5);
  }

  /**
   * SmootherStep never decreases: on [0, 1] because the quintic is monotone,
   * and outside it because the clamped values are its two ends.
   */
  lemma SmootherStepMonotone(s: real, t: real)
    requires s <= t
    ensures SmootherStep(s) <= SmootherStep(t)
  {
    if 0.0 <= s && t <= 1.0 {
      QuinticMonotone(s, t);
    }
  }

  /** On [0, 1] the quintic is non-decreasing: its rise is (t - s) times a non-negative divided difference. */
  lemma QuinticMonotone(s: real, t: real)
    requires 0.0 <= s <= t <= 1.0
    ensures Quintic(s) <= Quintic(t)
  {
    QuinticDifference(s, t);
    DividedDifferenceNonNegative(s, t);
    MulNonNegative(t - s, DividedDifference(s, t));
  }

  /** (Quintic(t) - Quintic(s)) / (t - s), written out as a polynomial. */
  function DividedDifference(s: real, t: real): real
  {
    6.0 * (t * t * t * t + t * t * t * s + t * t * s * s + t * s * s * s + s * s * s * s)
    - 15.0 * (t * t * t + t * t * s + t * s * s + s * s * s)
    + 10.0 * (t * t + t * s + s * s)
  }

  lemma QuinticDifference(s: real, t: real)
    ensures Quintic(t) - Quintic(s) == (t - s) * DividedDifference(s, t)
  {
  }

  /** The degree-4 Bernstein polynomials; each is non-negative on [0, 1]. */
  function Bernstein(i: nat, x: real): real
    requires i <= 4
  {
    var u := 1.0 - x;
    match i
    case 0 => u * u * u * u
    case 1 => 4.0 * x * u * u * u
    case 2 => 6.0 * x * x * u * u
    case 3 => 4.0 * x * x * x * u
    case _ => x * x * x * x
  }

  lemma BernsteinNonNegative(i: nat, x: real)
    requires i <= 4 && 0.0 <= x <= 1.0
    ensures Bernstein(i, x) >= 0.0
  {
    var u := 1.0 - x;
    MulNonNegative(x, x);
    MulNonNegative(u, u);
    match i
    case 0 => MulNonNegative(u * u, u * u);
    case 1 => MulNonNegative(u * u, u); MulNonNegative(x, u * u * u);
    case 2 => MulNonNegative(x * x, u * u);
    case 3 => MulNonNegative(x * x, x); MulNonNegative(x * x * x, u);
    case _ => MulNonNegative(x * x, x * x);
  }

  /**
   * Row i of the tensor Bernstein coefficients of DividedDifference; every
   * coefficient is non-negative, so the row is too.
   */
  function BernsteinRow(i: nat, t: real): real
    requires i <= 4
  {
    match i
    case 0 => 5.0 / 3.0 * Bernstein(2, t) + 5.0 / 4.0 * Bernstein(3, t) + Bernstein(4, t)
    case 1 => 5.0 / 8.0 * Bernstein(1, t) + 55.0 / 24.0 * Bernstein(2, t) + 13.0 / 8.0 * Bernstein(3, t) + 5.0 / 4.0 * Bernstein(4, t)
    case 2 => 5.0 / 3.0 * Bernstein(0, t) + 55.0 / 24.0 * Bernstein(1, t) + 7.0 / 2.0 * Bernstein(2, t) + 55.0 / 24.0 * Bernstein(3, t) + 5.0 / 3.0 * Bernstein(4, t)
    case 3 => 5.0 / 4.0 * Bernstein(0, t) + 13.0 / 8.0 * Bernstein(1, t) + 55.0 / 24.0 * Bernstein(2, t) + 5.0 / 8.0 * Bernstein(3, t)
    case _ => Bernstein(0, t) + 5.0 / 4.0 * Bernstein(1, t) + 5.0 / 3.0 * Bernstein(2, t)
  }

  lemma BernsteinRowNonNegative(i: nat, t: real)
    requires i <= 4 && 0.0 <= t <= 1.0
    ensures BernsteinRow(i, t) >= 0.0
  {
    BernsteinNonNegative(0, t);
    BernsteinNonNegative(1, t);
    BernsteinNonNegative(2, t);
    BernsteinNonNegative(3, t);
    BernsteinNonNegative(4, t);
  }

  /** Term i of the tensor Bernstein expansion of DividedDifference. */
  function BernsteinTerm(i: nat, s: real, t: real): real
    requires i <= 4
  {
    Bernstein(i, s) * BernsteinRow(i, t)
  }

  lemma BernsteinTermNonNegative(i: nat, s: real, t: real)
    requires i <= 4 && 0.0 <= s <= 1.0 && 0.0 <= t <= 1.0
    ensures BernsteinTerm(i, s, t) >= 0.0
  {
    BernsteinNonNegative(i, s);
    BernsteinRowNonNegative(i, t);
    MulNonNegative(Bernstein(i, s), BernsteinRow(i, t));
  }

  lemma DividedDifferenceInBernstein(s: real, t: real)
    ensures DividedDifference(s, t) ==
      BernsteinTerm(0, s, t) + BernsteinTerm(1, s, t) + BernsteinTerm(2, s, t) + BernsteinTerm(3, s, t) + BernsteinTerm(4, s, t)
  {
  }

  /** On the unit square the divided difference is a sum of non-negative Bernstein terms. */
  lemma DividedDifferenceNonNegative(s: real, t: real)
    requires 0.0 <= s <= 1.0 && 0.0 <= t <= 1.0
    ensures DividedDifference(s, t) >= 0.0
  {
    DividedDifferenceInBernstein(s, t);
    BernsteinTermNonNegative(0, s, t);
    BernsteinTermNonNegative(1, s, t);
    BernsteinTermNonNegative(2, s, t);
    BernsteinTermNonNegative(3, s, t);
    BernsteinTermNonNegative(4, s, t);
  }

  /** Interpolate: a at t <= 0, b at t >= 1, and always between the two bounds. */
  function Interpolate(t: real, a: real, b: real): (r: real)
    ensures t <= 0.0 ==> r == a
    ensures t >= 1.0 ==> r == b
    ensures Min(a, b) <= r <= Max(a, b)
  {
    var s := SmootherStep(t);
    var p := s * (b - a);
    MulFraction(s, b - a, p);
    a + p
  }

  /** For a <= b, Interpolate moves from a towards b as t grows, never back. */
  lemma InterpolateMonotone(s: real, t: real, a: real, b: real)
    requires s <= t && a <= b
    ensures Interpolate(s, a, b) <= Interpolate(t, a, b)
  {
    var ss, st := SmootherStep(s), SmootherStep(t);
    SmootherStepMonotone(s, t);
    MulNonNegative(st - ss, b - a);
    assert (st - ss) * (b - a) == st * (b - a) - ss * (b - a);
  }
}
