/**
 * `rotate`, `rotateDEG`, `skew` and `skewDEG`, over cosine, sine, tangent and
 * pi taken as given.
 */
module Rotation {
  import opened Wrappers
  import opened Affine
  import opened Constructors

  /**
   * The parts of JavaScript's `Math` that `rotate` and `skew` use. Cosine, sine
   * and tangent are transcendental, so the model takes them as given functions
   * (of radians) and `pi` as a given number, and promises nothing about their values.
   */
  datatype JsMath = JsMath(cos: real -> real, sin: real -> real, tan: real -> real, pi: real)

  /**
   * `rotate(angle, cx, cy)`: the rotation by `angle` radians; when both cx and
   * cy are given, about the point (cx, cy), otherwise about the origin.
   */
  function Rotate(math: JsMath, angle: real, cx: Option<real>, cy: Option<real>): (r: Matrix)
    ensures r.a == math.cos(angle) && r.b == math.sin(angle)
    ensures r.c == -math.sin(angle) && r.d == math.cos(angle)
    ensures cx.None? || cy.None? ==> r.e == 0.0 && r.f == 0.0
    ensures cx.Some? && cy.Some? ==>
      && r.e == cx.value - math.cos(angle) * cx.value + math.sin(angle) * cy.value
      && r.f == cy.value - math.sin(angle) * cx.value - math.cos(angle) * cy.value
  {
    var cosAngle, sinAngle := math.cos(angle), math.sin(angle);
    var rotationMatrix := Matrix(cosAngle, sinAngle, -sinAngle, cosAngle, 0.0, 0.0);
    if cx.None? || cy.None? then rotationMatrix
    else
      var t1, t2 := Translate(cx.value, Some(cy.value)), Translate(-cx.value, Some(-cy.value));
      TransformTriple(t1, rotationMatrix, t2);
      Transform([t1, rotationMatrix, t2]).value
  }

  /** `rotateDEG(angle, cx, cy)`: `rotate` with the angle in degrees. */
  function RotateDeg(math: JsMath, angle: real, cx: Option<real>, cy: Option<real>): (r: Matrix)
    ensures r.a == math.cos(angle * math.pi / 180.0) && r.b == math.sin(angle * math.pi / 180.0)
    ensures r.c == -math.sin(angle * math.pi / 180.0) && r.d == math.cos(angle * math.pi / 180.0)
    ensures cx.None? || cy.None? ==> r.e == 0.0 && r.f == 0.0
    ensures cx.Some? && cy.Some? ==>
      ApplyToPoint(r, Point(ObjectForm, cx.value, cy.value)) == Point(ObjectForm, cx.value, cy.value)
  {
    Rotate(math, angle * math.pi / 180.0, cx, cy)
  }

  /** `skew(ax, ay)`: the shear by tan(ax) along x and tan(ay) along y. */
  function Skew(math: JsMath, ax: real, ay: real): (r: Matrix)
    ensures r == Shear(math.tan(ax), math.tan(ay))
  {
    Matrix(1.0, math.tan(ay), math.tan(ax), 1.0, 0.0, 0.0)
  }

  /** `skewDEG(ax, ay)`: `skew` with the angles in degrees. */
  function SkewDeg(math: JsMath, ax: real, ay: real): (r: Matrix)
    ensures r == Shear(math.tan(ax * math.pi / 180.0), math.tan(ay * math.pi / 180.0))
  {
    Skew(math, ax * math.pi / 180.0, ay * math.pi / 180.0)
  }

  /** Rotating about a centre is rotating about the origin, conjugated by the translations. */
  lemma RotateAboutCentre(math: JsMath, angle: real, cx: real, cy: real)
    ensures Rotate(math, angle, Some(cx), Some(cy))
         == Multiply(Translate(cx, Some(cy)),
                     Multiply(Rotate(math, angle, None, None), Translate(-cx, Some(-cy))))
  {
    var ms := [Translate(cx, Some(cy)), Rotate(math, angle, None, None), Translate(-cx, Some(-cy))];
    TransformIsProduct(ms);
    assert ms[1..][1..][1..] == [];
    assert ms[1..][1..] == [ms[2]];
    MultiplyIdentity(ms[2]);
  }

  /** A rotation through an angle whose cosine and sine lie on the unit circle preserves area. */
  lemma RotateDet(math: JsMath, angle: real, cx: Option<real>, cy: Option<real>)
    requires math.cos(angle) * math.cos(angle) + math.sin(angle) * math.sin(angle) == 1.0
    ensures Det(Rotate(math, angle, cx, cy)) == 1.0
  {
  }

}
