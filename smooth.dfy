/**
 * `smoothMatrix`: rounds every coefficient to a multiple of 1/precision, the
 * way `Math.round(x * precision) / precision` does.
 */
module Smoothing {
  import opened Wrappers
  import opened Affine

  /** The precision `smoothMatrix` uses when none is given: ten digits after the point. */
  const DefaultPrecision: real := 10000000000.0

  function Abs(x: real): real {
    if x < 0.0 then -x else x
  }

  /**
   * JavaScript's `Math.round`: the integer nearest to `x`, halves rounded up
   * (towards positive infinity), that is Floor(x + 1/2).
   */
  function Round(x: real): (r: int)
    ensures x - 0.5 < r as real <= x + 0.5
  {
    (x + 0.5).Floor
  }

  /** `Round` picks the only integer in the half-open interval (x - 1/2, x + 1/2]. */
  lemma RoundUnique(x: real, k: int)
    requires x - 0.5 < k as real <= x + 0.5
    ensures Round(x) == k
  {
    var r := Round(x);
    assert r as real - k as real < 1.0 && k as real - r as real < 1.0;
  }

  /** `x` is an integer multiple of 1/p: x * p is a whole number. */
  predicate OnGrid(x: real, p: real) {
    (x * p).Floor as real == x * p
  }

  /** One coefficient of `smoothMatrix`: Math.round(x * p) / p. */
  function SmoothCoefficient(x: real, p: real): (r: real)
    requires p != 0.0
    ensures r * p == Round(x * p) as real
    ensures OnGrid(r, p)
    ensures Abs(r - x) <= 0.5 / Abs(p)
  {
    var k := Round(x * p);
    var r := k as real / p;
    CloseToScaled(x, p, k);
    r
  }

  /** |k/p - x| <= 1/(2|p|) whenever |k - x*p| <= 1/2. */
  lemma CloseToScaled(x: real, p: real, k: int)
    requires p != 0.0
    requires x * p - 0.5 < k as real <= x * p + 0.5
    ensures Abs(k as real / p - x) <= 0.5 / Abs(p)
  {
    var r := k as real / p;
    var d := r - x;
    assert d * p == k as real - x * p;
    assert Abs(d) * Abs(p) == Abs(d * p);
    assert Abs(d * p) <= 0.5;
    assert Abs(d) == Abs(d * p) / Abs(p);
  }

  /** A coefficient that already lies on the grid of 1/p is left as it is. */
  lemma SmoothOnGrid(x: real, p: real)
    requires p != 0.0
    requires OnGrid(x, p)
    ensures SmoothCoefficient(x, p) == x
  {
    var k := (x * p).Floor;
    RoundUnique(x * p, k);
    assert x == k as real / p;
  }

  /** Rounding one coefficient twice is rounding it once. */
  lemma SmoothCoefficientIdempotent(x: real, p: real)
    requires p != 0.0
    ensures SmoothCoefficient(SmoothCoefficient(x, p), p) == SmoothCoefficient(x, p)
  {
    SmoothOnGrid(SmoothCoefficient(x, p), p);
  }

  /** Every coefficient of `m` is an integer multiple of 1/p. */
  predicate MatrixOnGrid(m: Matrix, p: real) {
    OnGrid(m.a, p) && OnGrid(m.b, p) && OnGrid(m.c, p) && OnGrid(m.d, p) && OnGrid(m.e, p) && OnGrid(m.f, p)
  }

  /** Every coefficient of `n` is within `bound` of the same coefficient of `m`. */
  predicate MatrixClose(m: Matrix, n: Matrix, bound: real) {
    && Abs(n.a - m.a) <= bound && Abs(n.b - m.b) <= bound && Abs(n.c - m.c) <= bound
    && Abs(n.d - m.d) <= bound && Abs(n.e - m.e) <= bound && Abs(n.f - m.f) <= bound
  }

  /**
   * `smoothMatrix(matrix, precision = 10000000000)`: every coefficient rounded
   * to the nearest multiple of 1/precision. A precision of zero divides by zero
   * in JavaScript, so the model requires a non-zero precision.
   */
  function SmoothMatrix(m: Matrix, precision: Option<real>): (r: Matrix)
    requires precision.GetOr(DefaultPrecision) != 0.0
    ensures MatrixOnGrid(r, precision.GetOr(DefaultPrecision))
    ensures MatrixClose(m, r, 0.5 / Abs(precision.GetOr(DefaultPrecision)))
  {
    var p := precision.GetOr(DefaultPrecision);
    Matrix(
      SmoothCoefficient(m.a, p),
      SmoothCoefficient(m.b, p),
      SmoothCoefficient(m.c, p),
      SmoothCoefficient(m.d, p),
      SmoothCoefficient(m.e, p),
      SmoothCoefficient(m.f, p))
  }

  /** A matrix already on the grid is left as it is. */
  lemma SmoothMatrixOnGrid(m: Matrix, precision: Option<real>)
    requires precision.GetOr(DefaultPrecision) != 0.0
    requires MatrixOnGrid(m, precision.GetOr(DefaultPrecision))
    ensures SmoothMatrix(m, precision) == m
  {
    var p := precision.GetOr(DefaultPrecision);
    SmoothOnGrid(m.a, p);
    SmoothOnGrid(m.b, p);
    SmoothOnGrid(m.c, p);
    SmoothOnGrid(m.d, p);
    SmoothOnGrid(m.e, p);
    SmoothOnGrid(m.f, p);
  }

  /** `smoothMatrix` is idempotent. */
  lemma SmoothMatrixIdempotent(m: Matrix, precision: Option<real>)
    requires precision.GetOr(DefaultPrecision) != 0.0
    ensures SmoothMatrix(SmoothMatrix(m, precision), precision) == SmoothMatrix(m, precision)
  {
    SmoothMatrixOnGrid(SmoothMatrix(m, precision), precision);
  }

  /** With a whole-number precision, such as the default, the identity is left as it is. */
  lemma SmoothIdentity(precision: Option<real>)
    requires precision.GetOr(DefaultPrecision) != 0.0
    requires precision.GetOr(DefaultPrecision) == precision.GetOr(DefaultPrecision).Floor as real
    ensures SmoothMatrix(Identity(), precision) == Identity()
  {
    var p := precision.GetOr(DefaultPrecision);
    SmoothMatrixOnGrid(Identity(), precision);
  }
}
