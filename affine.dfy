/**
 * The affine matrix, points, point application, the identity and composition.
 *
 * A matrix is six coefficients (a, b, c, d, e, f) standing for the homogeneous
 * 3x3 matrix [[a, c, e], [b, d, f], [0, 0, 1]]. Coefficients are exact reals,
 * an idealisation of JavaScript doubles.
 */
module Affine {
  import opened Wrappers

  datatype Matrix = Matrix(a: real, b: real, c: real, d: real, e: real, f: real)

  /** How a point is written: as a two-element array `[x, y]` or as an object `{x, y}`. */
  datatype PointForm = ArrayForm | ObjectForm

  /** A point at (x, y), written in the given form. */
  datatype Point = Point(form: PointForm, x: real, y: real)

  /** The error `transform` throws when it is given no matrix at all. */
  datatype TransformError = NoMatricesProvided

  /** The keys of the six coefficients of a matrix object. */
  const MatrixKeys: set<string> := {"a", "b", "c", "d", "e", "f"}

  /** The coefficient of `m` stored under the key `k`, one of a..f. */
  function Coefficient(m: Matrix, k: string): real
    requires k in MatrixKeys
  {
    if k == "a" then m.a else if k == "b" then m.b else if k == "c" then m.c
    else if k == "d" then m.d else if k == "e" then m.e else m.f
  }

  /** The plain object `{a, b, c, d, e, f}` that the JavaScript code uses for a matrix. */
  function ToObject(m: Matrix): (r: map<string, real>)
    ensures r.Keys == MatrixKeys
    ensures r["a"] == m.a && r["b"] == m.b && r["c"] == m.c && r["d"] == m.d && r["e"] == m.e && r["f"] == m.f
  {
    map k | k in MatrixKeys :: Coefficient(m, k)
  }

  /** The point at (x, y), written in the same form (array or object) as `p`. */
  function Moved(p: Point, x: real, y: real): Point {
    Point(p.form, x, y)
  }

  /** Two points at the same position, whatever their forms. */
  predicate SamePosition(p: Point, q: Point) {
    p.x == q.x && p.y == q.y
  }

  /** `applyToPoint`: the image of `p`, in the same form as `p`. */
  function ApplyToPoint(m: Matrix, p: Point): (r: Point)
    ensures r.form == p.form
    ensures r.x == m.a * p.x + m.c * p.y + m.e
    ensures r.y == m.b * p.x + m.d * p.y + m.f
  {
    Point(p.form, m.a * p.x + m.c * p.y + m.e, m.b * p.x + m.d * p.y + m.f)
  }

  /** Two points at the same position have images at the same position. */
  lemma ApplySamePosition(m: Matrix, p: Point, q: Point)
    requires SamePosition(p, q)
    ensures SamePosition(ApplyToPoint(m, p), ApplyToPoint(m, q))
  {
  }

  /** `applyToPoints`: the images of `ps`, in order, each in its own input form. */
  function ApplyToPoints(m: Matrix, ps: seq<Point>): (r: seq<Point>)
    ensures |r| == |ps|
    ensures forall i :: 0 <= i < |ps| ==> r[i] == ApplyToPoint(m, ps[i])
  {
    if ps == [] then [] else [ApplyToPoint(m, ps[0])] + ApplyToPoints(m, ps[1..])
  }

  /** `identity`: the matrix that leaves every point where it is. */
  function Identity(): (r: Matrix)
    ensures forall p {:trigger ApplyToPoint(r, p)} :: ApplyToPoint(r, p) == p
  {
    Matrix(1.0, 0.0, 0.0, 1.0, 0.0, 0.0)
  }

  /** The inner `multiply` of `transform`: applying the product is applying `m2`, then `m1`. */
  function Multiply(m1: Matrix, m2: Matrix): (r: Matrix)
    ensures forall p {:trigger ApplyToPoint(r, p)} :: ApplyToPoint(r, p) == ApplyToPoint(m1, ApplyToPoint(m2, p))
  {
    Matrix(
      m1.a * m2.a + m1.c * m2.b,
      m1.b * m2.a + m1.d * m2.b,
      m1.a * m2.c + m1.c * m2.d,
      m1.b * m2.c + m1.d * m2.d,
      m1.a * m2.e + m1.c * m2.f + m1.e,
      m1.b * m2.e + m1.d * m2.f + m1.f)
  }

  /**
   * `transform`: merges the matrices left to right. No matrix is an error, one
   * matrix is returned as it is, two are multiplied, and longer lists multiply
   * the first two and recurse on the shorter list.
   */
  function Transform(ms: seq<Matrix>): (r: Result<Matrix, TransformError>)
    ensures r.Success? <==> |ms| > 0
    ensures r.Failure? ==> r.error == NoMatricesProvided
    ensures |ms| == 1 ==> r.value == ms[0]
    decreases |ms|
  {
    if |ms| == 0 then Failure(NoMatricesProvided)
    else if |ms| == 1 then Success(ms[0])
    else if |ms| == 2 then Success(Multiply(ms[0], ms[1]))
    else Transform([Multiply(ms[0], ms[1])] + ms[2..])
  }

  /** `compose` is `transform` under another name. */
  function Compose(ms: seq<Matrix>): Result<Matrix, TransformError> {
    Transform(ms)
  }

  /** Reference definition of a product: the right fold of `Multiply`, with the identity for no matrix. */
  function Product(ms: seq<Matrix>): Matrix {
    if ms == [] then Identity() else Multiply(ms[0], Product(ms[1..]))
  }

  /** Reference definition of applying a list of matrices: the last one first. */
  function ApplyAll(ms: seq<Matrix>, p: Point): Point {
    if ms == [] then p else ApplyToPoint(ms[0], ApplyAll(ms[1..], p))
  }

  /** The determinant a*d - b*c of the linear part. */
  function Det(m: Matrix): real {
    m.a * m.d - m.b * m.c
  }

  /** A matrix is determined by where it sends the origin and the two unit points. */
  lemma UnitPointsDetermine(m: Matrix, n: Matrix)
    requires ApplyToPoint(m, Point(ObjectForm, 0.0, 0.0)) == ApplyToPoint(n, Point(ObjectForm, 0.0, 0.0))
    requires ApplyToPoint(m, Point(ObjectForm, 1.0, 0.0)) == ApplyToPoint(n, Point(ObjectForm, 1.0, 0.0))
    requires ApplyToPoint(m, Point(ObjectForm, 0.0, 1.0)) == ApplyToPoint(n, Point(ObjectForm, 0.0, 1.0))
    ensures m == n
  {
  }

  /** `Multiply` is associative. */
  lemma MultiplyAssociative(m1: Matrix, m2: Matrix, m3: Matrix)
    ensures Multiply(Multiply(m1, m2), m3) == Multiply(m1, Multiply(m2, m3))
  {
    var l, r := Multiply(Multiply(m1, m2), m3), Multiply(m1, Multiply(m2, m3));
    forall p | p in [Point(ObjectForm, 0.0, 0.0), Point(ObjectForm, 1.0, 0.0), Point(ObjectForm, 0.0, 1.0)]
      ensures ApplyToPoint(l, p) == ApplyToPoint(r, p)
    {
      calc {
        ApplyToPoint(l, p);
        ApplyToPoint(Multiply(m1, m2), ApplyToPoint(m3, p));
        ApplyToPoint(m1, ApplyToPoint(m2, ApplyToPoint(m3, p)));
        ApplyToPoint(m1, ApplyToPoint(Multiply(m2, m3), p));
        ApplyToPoint(r, p);
      }
    }
    UnitPointsDetermine(l, r);
  }

  /** The identity is a left and a right unit of `Multiply`. */
  lemma MultiplyIdentity(m: Matrix)
    ensures Multiply(Identity(), m) == m
    ensures Multiply(m, Identity()) == m
  {
  }

  /** The determinant of a product is the product of the determinants. */
  lemma DetMultiply(m1: Matrix, m2: Matrix)
    ensures Det(Multiply(m1, m2)) == Det(m1) * Det(m2)
  {
  }

  /** Applying `transform([A, B])` to a point is applying `B`, then `A`. */
  lemma TransformPair(m1: Matrix, m2: Matrix, p: Point)
    ensures Transform([m1, m2]) == Success(Multiply(m1, m2))
    ensures ApplyToPoint(Transform([m1, m2]).value, p) == ApplyToPoint(m1, ApplyToPoint(m2, p))
  {
  }

  /** A list of two or more matrices folds its first two into one. */
  lemma TransformStep(m1: Matrix, m2: Matrix, rest: seq<Matrix>)
    ensures Transform([m1, m2] + rest) == Transform([Multiply(m1, m2)] + rest)
  {
    var ms := [m1, m2] + rest;
    if |rest| > 0 {
      assert ms[2..] == rest;
    }
  }

  /** `transform` of three matrices multiplies the first two, then the result by the third. */
  lemma TransformTriple(m1: Matrix, m2: Matrix, m3: Matrix)
    ensures Transform([m1, m2, m3]) == Success(Multiply(Multiply(m1, m2), m3))
  {
    var ms := [m1, m2, m3];
    assert [Multiply(m1, m2)] + ms[2..] == [Multiply(m1, m2), m3];
  }

  lemma ProductSingle(m: Matrix)
    ensures Product([m]) == m
  {
    assert [m][1..] == [];
    MultiplyIdentity(m);
  }

  /** `transform` of a non-empty list is the product of the list. */
  lemma {:induction false} TransformIsProduct(ms: seq<Matrix>)
    requires |ms| > 0
    ensures Transform(ms) == Success(Product(ms))
    decreases |ms|
  {
    if |ms| == 1 {
      ProductSingle(ms[0]);
    } else if |ms| == 2 {
      ProductSingle(ms[1]);
      assert ms[1..] == [ms[1]];
    } else {
      var m12 := Multiply(ms[0], ms[1]);
      var shorter := [m12] + ms[2..];
      TransformIsProduct(shorter);
      assert shorter[1..] == ms[2..];
      assert ms[1..][1..] == ms[2..];
      MultiplyAssociative(ms[0], ms[1], Product(ms[2..]));
    }
  }

  /** Applying the product of a list is applying its matrices from the last to the first. */
  lemma {:induction false} ProductApplies(ms: seq<Matrix>, p: Point)
    ensures ApplyToPoint(Product(ms), p) == ApplyAll(ms, p)
    decreases |ms|
  {
    if ms != [] {
      ProductApplies(ms[1..], p);
    }
  }

  /** The composition law: `transform(ms)` applied to `p` is every matrix of `ms`, last first. */
  lemma TransformApplies(ms: seq<Matrix>, p: Point)
    requires |ms| > 0
    ensures Transform(ms).Success?
    ensures ApplyToPoint(Transform(ms).value, p) == ApplyAll(ms, p)
  {
    TransformIsProduct(ms);
    ProductApplies(ms, p);
  }

  /** The product of a concatenation is the product of the two products. */
  lemma {:induction false} ProductAppend(ms1: seq<Matrix>, ms2: seq<Matrix>)
    ensures Product(ms1 + ms2) == Multiply(Product(ms1), Product(ms2))
    decreases |ms1|
  {
    if ms1 == [] {
      assert ms1 + ms2 == ms2;
      MultiplyIdentity(Product(ms2));
    } else {
      assert (ms1 + ms2)[1..] == ms1[1..] + ms2;
      ProductAppend(ms1[1..], ms2);
      MultiplyAssociative(ms1[0], Product(ms1[1..]), Product(ms2));
    }
  }

  /** `applyToPoints` respects composition. */
  lemma {:induction false} ApplyToPointsMultiply(m1: Matrix, m2: Matrix, ps: seq<Point>)
    ensures ApplyToPoints(Multiply(m1, m2), ps) == ApplyToPoints(m1, ApplyToPoints(m2, ps))
  {
  }
}
