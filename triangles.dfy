/**
 * `fromTriangles`: the affine matrix that carries one triangle onto another,
 * built from `inverse` and `transform` and then smoothed.
 */
module Triangles {
  import opened Wrappers
  import opened Affine
  import opened Inversion
  import opened Smoothing

  /** The unit points (1, 0), (0, 1) and the origin, indexed like the vertices p, q and r. */
  function UnitPoint(form: PointForm, i: nat): Point
    requires i < 3
  {
    if i == 0 then Point(form, 1.0, 0.0) else if i == 1 then Point(form, 0.0, 1.0) else Point(form, 0.0, 0.0)
  }

  /**
   * The matrix `r1` (or `r2`) of `fromTriangles` for the triangle (p, q, r) =
   * (t[0], t[1], t[2]): it sends (1, 0) to p, (0, 1) to q and the origin to r.
   * Points after the third are not read.
   */
  function Basis(t: seq<Point>): (r: Matrix)
    requires |t| >= 3
    ensures forall form: PointForm, i: nat {:trigger ApplyToPoint(r, UnitPoint(form, i))} | i < 3 ::
      SamePosition(ApplyToPoint(r, UnitPoint(form, i)), t[i])
  {
    Matrix(t[0].x - t[2].x, t[0].y - t[2].y, t[1].x - t[2].x, t[1].y - t[2].y, t[2].x, t[2].y)
  }

  /** The source triangle is not degenerate: its `r1` matrix is invertible. */
  predicate NonDegenerate(t: seq<Point>)
    requires |t| >= 3
  {
    Det(Basis(t)) != 0.0
  }

  /**
   * The matrix `fromTriangles` computes before smoothing, `transform([r2, inverse(r1)])`:
   * it carries each vertex of t1 onto the vertex of t2 with the same index.
   */
  function TriangleMap(t1: seq<Point>, t2: seq<Point>): (r: Matrix)
    requires |t1| >= 3 && |t2| >= 3 && NonDegenerate(t1)
    ensures forall i | 0 <= i < 3 :: SamePosition(ApplyToPoint(r, t1[i]), t2[i])
  {
    var r1, r2 := Basis(t1), Basis(t2);
    var inverseR1 := Inverse(r1);
    TransformPair(r2, inverseR1, t1[0]);
    var r := Transform([r2, inverseR1]).value;
    forall i | 0 <= i < 3
      ensures SamePosition(ApplyToPoint(r, t1[i]), t2[i])
    {
      VertexMapped(t1, t2, i);
    }
    r
  }

  /** The inverse of `r1` sends the vertex t1[i] back to the unit point i, and `r2` sends that to t2[i]. */
  lemma VertexMapped(t1: seq<Point>, t2: seq<Point>, i: nat)
    requires |t1| >= 3 && |t2| >= 3 && NonDegenerate(t1) && i < 3
    ensures SamePosition(ApplyToPoint(Multiply(Basis(t2), Inverse(Basis(t1))), t1[i]), t2[i])
  {
    var r1, r2 := Basis(t1), Basis(t2);
    var u := UnitPoint(t1[i].form, i);
    assert ApplyToPoint(r1, u) == t1[i];
    InverseUndoes(r1, u);
    assert ApplyToPoint(Inverse(r1), t1[i]) == u;
    assert SamePosition(ApplyToPoint(r2, u), t2[i]);
  }

  /** A matrix that carries t1's vertices onto t2's, composed after `r1`, agrees with `r2`. */
  lemma AgreesWithBasis(t1: seq<Point>, t2: seq<Point>, n: Matrix)
    requires |t1| >= 3 && |t2| >= 3
    requires forall i | 0 <= i < 3 :: SamePosition(ApplyToPoint(n, t1[i]), t2[i])
    ensures Multiply(n, Basis(t1)) == Basis(t2)
  {
    var r1, r2 := Basis(t1), Basis(t2);
    forall i: nat | i < 3
      ensures ApplyToPoint(Multiply(n, r1), UnitPoint(ObjectForm, i)) == ApplyToPoint(r2, UnitPoint(ObjectForm, i))
    {
      var u := UnitPoint(ObjectForm, i);
      var v := ApplyToPoint(r1, u);
      assert SamePosition(v, t1[i]);
      assert v == Moved(u, t1[i].x, t1[i].y);
      ApplySamePosition(n, v, t1[i]);
      assert SamePosition(ApplyToPoint(r2, u), t2[i]);
    }
    assert UnitPoint(ObjectForm, 0) == Point(ObjectForm, 1.0, 0.0);
    assert UnitPoint(ObjectForm, 1) == Point(ObjectForm, 0.0, 1.0);
    assert UnitPoint(ObjectForm, 2) == Point(ObjectForm, 0.0, 0.0);
    UnitPointsDetermine(Multiply(n, r1), r2);
  }

  /**
   * The triangle map is the only affine matrix that carries the three vertices
   * of a non-degenerate t1 onto those of t2.
   */
  lemma TriangleMapUnique(t1: seq<Point>, t2: seq<Point>, n: Matrix)
    requires |t1| >= 3 && |t2| >= 3 && NonDegenerate(t1)
    requires forall i | 0 <= i < 3 :: SamePosition(ApplyToPoint(n, t1[i]), t2[i])
    ensures n == TriangleMap(t1, t2)
  {
    var r1, r2 := Basis(t1), Basis(t2);
    var inv := Inverse(r1);
    AgreesWithBasis(t1, t2, n);
    calc {
      n;
      { MultiplyIdentity(n); }
      Multiply(n, Multiply(r1, inv));
      { MultiplyAssociative(n, r1, inv); }
      Multiply(Multiply(n, r1), inv);
      Multiply(r2, inv);
    }
    TransformPair(r2, inv, t1[0]);
  }

  /** `fromTriangles(t1, t2)`: the triangle map, smoothed with the default precision. */
  function FromTriangles(t1: seq<Point>, t2: seq<Point>): (r: Matrix)
    requires |t1| >= 3 && |t2| >= 3 && NonDegenerate(t1)
    ensures MatrixClose(TriangleMap(t1, t2), r, 0.5 / DefaultPrecision)
    ensures MatrixOnGrid(r, DefaultPrecision)
  {
    SmoothMatrix(TriangleMap(t1, t2), None)
  }

  /** The matrix from a non-degenerate triangle to itself is exactly the identity. */
  lemma FromTrianglesSelf(t: seq<Point>)
    requires |t| >= 3 && NonDegenerate(t)
    ensures TriangleMap(t, t) == Identity()
    ensures FromTriangles(t, t) == Identity()
  {
    TriangleMapUnique(t, t, Identity());
    assert DefaultPrecision.Floor == 10000000000;
    SmoothIdentity(None);
  }
}
