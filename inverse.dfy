/** `inverse`: the closed-form inverse of an affine matrix with a non-zero determinant. */
module Inversion {
  import opened Wrappers
  import opened Affine

  /**
   * `inverse`. The JavaScript code divides by the determinant without checking
   * it, so a singular matrix yields infinite or NaN coefficients; the model
   * requires a non-zero determinant instead.
   */
  function Inverse(m: Matrix): (r: Matrix)
    requires Det(m) != 0.0
    ensures Multiply(m, r) == Identity()
    ensures Multiply(r, m) == Identity()
  {
    var denom := Det(m);
    var r := Matrix(
      m.d / denom,
      m.b / -denom,
      m.c / -denom,
      m.a / denom,
      (m.d * m.e - m.c * m.f) / -denom,
      (m.b * m.e - m.a * m.f) / denom);
    ScaledInverseHolds(m, r);
    RightInverse(m, r);
    LeftInverse(m, r);
    r
  }

  /** Cancelling a non-zero factor `k` from a linear combination. */
  lemma Cancel(x: real, u: real, y: real, v: real, z: real, k: real, s: real)
    requires k != 0.0
    requires x * (u * k) + y * (v * k) + z * k == s * k
    ensures x * u + y * v + z == s
  {
    assert (x * u + y * v + z) * k == x * (u * k) + y * (v * k) + z * k;
  }

  /** `r` holds the coefficients `inverse` computes for `m`, each multiplied back by the determinant. */
  predicate ScaledInverse(m: Matrix, r: Matrix) {
    var k := Det(m);
    && r.a * k == m.d && r.b * k == -m.b && r.c * k == -m.c && r.d * k == m.a
    && r.e * k == m.c * m.f - m.d * m.e && r.f * k == m.b * m.e - m.a * m.f
  }

  lemma ScaledInverseHolds(m: Matrix, r: Matrix)
    requires Det(m) != 0.0
    requires r.a == m.d / Det(m) && r.b == m.b / -Det(m) && r.c == m.c / -Det(m) && r.d == m.a / Det(m)
    requires r.e == (m.d * m.e - m.c * m.f) / -Det(m) && r.f == (m.b * m.e - m.a * m.f) / Det(m)
    ensures ScaledInverse(m, r)
  {
  }

  lemma RightInverse(m: Matrix, r: Matrix)
    requires Det(m) != 0.0 && ScaledInverse(m, r)
    ensures Multiply(m, r) == Identity()
  {
    var k := Det(m);
    Cancel(m.a, r.a, m.c, r.b, 0.0, k, 1.0);
    Cancel(m.b, r.a, m.d, r.b, 0.0, k, 0.0);
    Cancel(m.a, r.c, m.c, r.d, 0.0, k, 0.0);
    Cancel(m.b, r.c, m.d, r.d, 0.0, k, 1.0);
    Cancel(m.a, r.e, m.c, r.f, m.e, k, 0.0);
    Cancel(m.b, r.e, m.d, r.f, m.f, k, 0.0);
    MultiplyEntries(m, r, Identity());
  }

  lemma LeftInverse(m: Matrix, r: Matrix)
    requires Det(m) != 0.0 && ScaledInverse(m, r)
    ensures Multiply(r, m) == Identity()
  {
    var k := Det(m);
    Cancel(m.a, r.a, m.b, r.c, 0.0, k, 1.0);
    Cancel(m.a, r.b, m.b, r.d, 0.0, k, 0.0);
    Cancel(m.c, r.a, m.d, r.c, 0.0, k, 0.0);
    Cancel(m.c, r.b, m.d, r.d, 0.0, k, 1.0);
    Cancel(m.e, r.a, m.f, r.c, r.e, k, 0.0);
    Cancel(m.e, r.b, m.f, r.d, r.f, k, 0.0);
    MultiplyEntries(r, m, Identity());
  }

  /** The product of `m1` and `m2` is `n` when each of its six coefficients is. */
  lemma MultiplyEntries(m1: Matrix, m2: Matrix, n: Matrix)
    requires m1.a * m2.a + m1.c * m2.b + 0.0 == n.a && m1.b * m2.a + m1.d * m2.b + 0.0 == n.b
    requires m1.a * m2.c + m1.c * m2.d + 0.0 == n.c && m1.b * m2.c + m1.d * m2.d + 0.0 == n.d
    requires m1.a * m2.e + m1.c * m2.f + m1.e == n.e && m1.b * m2.e + m1.d * m2.f + m1.f == n.f
    ensures Multiply(m1, m2) == n
  {
  }

  /** An inverse is unique: any right inverse of an invertible matrix is `Inverse(m)`. */
  lemma InverseUnique(m: Matrix, n: Matrix)
    requires Det(m) != 0.0
    requires Multiply(m, n) == Identity()
    ensures n == Inverse(m)
  {
    var inv := Inverse(m);
    calc {
      n;
      { MultiplyIdentity(n); }
      Multiply(Identity(), n);
      Multiply(Multiply(inv, m), n);
      { MultiplyAssociative(inv, m, n); }
      Multiply(inv, Multiply(m, n));
      Multiply(inv, Identity());
      { MultiplyIdentity(inv); }
      inv;
    }
  }

  /** The determinant of the inverse is the reciprocal of the determinant. */
  lemma InverseDet(m: Matrix)
    requires Det(m) != 0.0
    ensures Det(Inverse(m)) == 1.0 / Det(m)
  {
    DetMultiply(m, Inverse(m));
    assert Det(m) * Det(Inverse(m)) == 1.0;
  }

  /** Inverting twice gives the matrix back. */
  lemma InverseInvolutive(m: Matrix)
    requires Det(m) != 0.0
    ensures Det(Inverse(m)) != 0.0
    ensures Inverse(Inverse(m)) == m
  {
    InverseDet(m);
    InverseUnique(Inverse(m), m);
  }

  /** `transform([M, inverse(M)])` and `transform([inverse(M), M])` are both the identity. */
  lemma TransformWithInverse(m: Matrix)
    requires Det(m) != 0.0
    ensures Transform([m, Inverse(m)]) == Success(Identity())
    ensures Transform([Inverse(m), m]) == Success(Identity())
  {
  }

  /** The inverse undoes the matrix on every point, and the matrix undoes the inverse. */
  lemma InverseUndoes(m: Matrix, p: Point)
    requires Det(m) != 0.0
    ensures ApplyToPoint(Inverse(m), ApplyToPoint(m, p)) == p
    ensures ApplyToPoint(m, ApplyToPoint(Inverse(m), p)) == p
  {
    assert ApplyToPoint(Multiply(Inverse(m), m), p) == p;
    assert ApplyToPoint(Multiply(m, Inverse(m)), p) == p;
  }

  /** The inverse of a product is the product of the inverses in the opposite order. */
  lemma InverseMultiply(m1: Matrix, m2: Matrix)
    requires Det(m1) != 0.0 && Det(m2) != 0.0
    ensures Det(Multiply(m1, m2)) != 0.0
    ensures Inverse(Multiply(m1, m2)) == Multiply(Inverse(m2), Inverse(m1))
  {
    DetMultiply(m1, m2);
    var i1, i2 := Inverse(m1), Inverse(m2);
    calc {
      Multiply(Multiply(m1, m2), Multiply(i2, i1));
      { MultiplyAssociative(m1, m2, Multiply(i2, i1)); }
      Multiply(m1, Multiply(m2, Multiply(i2, i1)));
      { MultiplyAssociative(m2, i2, i1); }
      Multiply(m1, Multiply(Multiply(m2, i2), i1));
      Multiply(m1, Multiply(Identity(), i1));
      { MultiplyIdentity(i1); }
      Identity();
    }
    InverseUnique(Multiply(m1, m2), Multiply(i2, i1));
  }
}
