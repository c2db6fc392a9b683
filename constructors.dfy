/**
 * The matrix constructors `translate`, `scale`, `shear` and the three flips.
 * An optional JavaScript argument is an `Option`, `None` standing for `undefined`.
 */
module Constructors {
  import opened Wrappers
  import opened Affine

  /** `translate(tx, ty = 0)`: moves every point by (tx, ty). */
  function Translate(tx: real, ty: Option<real>): (r: Matrix)
    ensures forall p {:trigger ApplyToPoint(r, p)} :: ApplyToPoint(r, p) == Moved(p, p.x + tx, p.y + ty.GetOr(0.0))
  {
    Matrix(1.0, 0.0, 0.0, 1.0, tx, ty.GetOr(0.0))
  }

  /**
   * `scale(sx, sy = sx, cx, cy)`: scales by sx along x and sy along y; when
   * both cx and cy are given, about the point (cx, cy), otherwise about the origin.
   */
  function Scale(sx: real, sy: Option<real>, cx: Option<real>, cy: Option<real>): (r: Matrix)
    ensures r.a == sx && r.d == sy.GetOr(sx) && r.b == 0.0 && r.c == 0.0
    ensures cx.None? || cy.None? ==> r.e == 0.0 && r.f == 0.0
    ensures cx.Some? && cy.Some? ==>
      r.e == cx.value - sx * cx.value && r.f == cy.value - sy.GetOr(sx) * cy.value
  {
    var scaleMatrix := Matrix(sx, 0.0, 0.0, sy.GetOr(sx), 0.0, 0.0);
    if cx.None? || cy.None? then scaleMatrix
    else
      var t1, t2 := Translate(cx.value, Some(cy.value)), Translate(-cx.value, Some(-cy.value));
      TransformTriple(t1, scaleMatrix, t2);
      Transform([t1, scaleMatrix, t2]).value
  }

  /** `shear(shx, shy)`: x grows by shx times y, and y by shy times x. */
  function Shear(shx: real, shy: real): (r: Matrix)
    ensures forall p {:trigger ApplyToPoint(r, p)} :: ApplyToPoint(r, p) == Moved(p, p.x + shx * p.y, shy * p.x + p.y)
  {
    var r := Matrix(1.0, shy, shx, 1.0, 0.0, 0.0);
    forall p ensures ApplyToPoint(r, p) == Moved(p, p.x + shx * p.y, shy * p.x + p.y) {
      ShearPoint(r, shx, shy, p);
    }
    r
  }

  /** A matrix with the coefficients of `shear(shx, shy)` moves `p` as the shear does. */
  lemma ShearPoint(r: Matrix, shx: real, shy: real, p: Point)
    requires r.a == 1.0 && r.b == shy && r.c == shx && r.d == 1.0 && r.e == 0.0 && r.f == 0.0
    ensures ApplyToPoint(r, p) == Moved(p, p.x + shx * p.y, shy * p.x + p.y)
  {
    assert r.c * p.y == shx * p.y;
    assert r.b * p.x == shy * p.x;
  }

  /** `flipX`: mirrors on the x-axis, negating y. */
  function FlipX(): (r: Matrix)
    ensures forall p {:trigger ApplyToPoint(r, p)} :: ApplyToPoint(r, p) == Moved(p, p.x, -p.y)
  {
    Matrix(1.0, 0.0, 0.0, -1.0, 0.0, 0.0)
  }

  /** `flipY`: mirrors on the y-axis, negating x. */
  function FlipY(): (r: Matrix)
    ensures forall p {:trigger ApplyToPoint(r, p)} :: ApplyToPoint(r, p) == Moved(p, -p.x, p.y)
  {
    Matrix(-1.0, 0.0, 0.0, 1.0, 0.0, 0.0)
  }

  /** `flipOrigin`: mirrors on the origin, negating both coordinates. */
  function FlipOrigin(): (r: Matrix)
    ensures forall p {:trigger ApplyToPoint(r, p)} :: ApplyToPoint(r, p) == Moved(p, -p.x, -p.y)
  {
    Matrix(-1.0, 0.0, 0.0, -1.0, 0.0, 0.0)
  }

  /** Scaling about a centre moves every point away from the centre by the scale factors. */
  lemma ScaleAboutCentre(sx: real, sy: Option<real>, cx: real, cy: real, p: Point)
    ensures ApplyToPoint(Scale(sx, sy, Some(cx), Some(cy)), p)
         == Moved(p, cx + sx * (p.x - cx), cy + sy.GetOr(sx) * (p.y - cy))
  {
    var ms := [Translate(cx, Some(cy)), Matrix(sx, 0.0, 0.0, sy.GetOr(sx), 0.0, 0.0), Translate(-cx, Some(-cy))];
    TransformApplies(ms, p);
    assert ms[1..][1..][1..] == [];
  }

  /** Without both centre coordinates, `scale` is the plain diagonal matrix and scales about the origin. */
  lemma ScaleWithoutCentre(sx: real, sy: Option<real>, cx: Option<real>, cy: Option<real>, p: Point)
    requires cx.None? || cy.None?
    ensures Scale(sx, sy, cx, cy) == Matrix(sx, 0.0, 0.0, sy.GetOr(sx), 0.0, 0.0)
    ensures ApplyToPoint(Scale(sx, sy, cx, cy), p) == Moved(p, sx * p.x, sy.GetOr(sx) * p.y)
  {
  }

  /** `translate(tx)` is `translate(tx, 0)`. */
  lemma TranslateDefault(tx: real)
    ensures Translate(tx, None) == Translate(tx, Some(0.0))
  {
  }

  /** `scale(sx)` is `scale(sx, sx)`, whatever the centre. */
  lemma ScaleDefault(sx: real, cx: Option<real>, cy: Option<real>)
    ensures Scale(sx, None, cx, cy) == Scale(sx, Some(sx), cx, cy)
  {
  }

  /** Scaling about (cx, cy) leaves (cx, cy) where it is. */
  lemma ScaleFixesCentre(sx: real, sy: Option<real>, cx: real, cy: real, form: PointForm)
    ensures ApplyToPoint(Scale(sx, sy, Some(cx), Some(cy)), Point(form, cx, cy)) == Point(form, cx, cy)
  {
    ScaleAboutCentre(sx, sy, cx, cy, Point(form, cx, cy));
  }

  /** Each flip undoes itself. */
  lemma FlipXInvolutive()
    ensures Multiply(FlipX(), FlipX()) == Identity()
  {
    assert FlipX() == Matrix(1.0, 0.0, 0.0, -1.0, 0.0, 0.0);
    DiagonalProduct(1.0, -1.0, 1.0, -1.0);
  }

  lemma FlipYInvolutive()
    ensures Multiply(FlipY(), FlipY()) == Identity()
  {
    assert FlipY() == Matrix(-1.0, 0.0, 0.0, 1.0, 0.0, 0.0);
    DiagonalProduct(-1.0, 1.0, -1.0, 1.0);
  }

  lemma FlipOriginInvolutive()
    ensures Multiply(FlipOrigin(), FlipOrigin()) == Identity()
  {
    assert FlipOrigin() == Matrix(-1.0, 0.0, 0.0, -1.0, 0.0, 0.0);
    DiagonalProduct(-1.0, -1.0, -1.0, -1.0);
  }

  /** Flipping on both axes, in either order, is flipping on the origin. */
  lemma FlipXThenY()
    ensures Multiply(FlipX(), FlipY()) == FlipOrigin()
  {
    assert FlipX() == Matrix(1.0, 0.0, 0.0, -1.0, 0.0, 0.0);
    assert FlipY() == Matrix(-1.0, 0.0, 0.0, 1.0, 0.0, 0.0);
    DiagonalProduct(1.0, -1.0, -1.0, 1.0);
  }

  lemma FlipYThenX()
    ensures Multiply(FlipY(), FlipX()) == FlipOrigin()
  {
    assert FlipX() == Matrix(1.0, 0.0, 0.0, -1.0, 0.0, 0.0);
    assert FlipY() == Matrix(-1.0, 0.0, 0.0, 1.0, 0.0, 0.0);
    DiagonalProduct(-1.0, 1.0, 1.0, -1.0);
  }

  /** The product of two diagonal matrices is diagonal, multiplying the diagonals. */
  lemma DiagonalProduct(a1: real, d1: real, a2: real, d2: real)
    ensures Multiply(Matrix(a1, 0.0, 0.0, d1, 0.0, 0.0), Matrix(a2, 0.0, 0.0, d2, 0.0, 0.0))
         == Matrix(a1 * a2, 0.0, 0.0, d1 * d2, 0.0, 0.0)
  {
  }

  /** Translations compose by adding their offsets. */
  lemma TranslateAdd(tx1: real, ty1: real, tx2: real, ty2: real)
    ensures Multiply(Translate(tx1, Some(ty1)), Translate(tx2, Some(ty2))) == Translate(tx1 + tx2, Some(ty1 + ty2))
  {
  }
}
