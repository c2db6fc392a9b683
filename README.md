# An affine-matrix library, modelled and proved in Dafny

This project models the 2D affine-transformation library in
`JS/transformation-matrix.js`. Each operation becomes a Dafny function, and the
algebraic laws the library relies on become lemmas.

A matrix is six coefficients `(a, b, c, d, e, f)` that stand for the
homogeneous matrix `[[a, c, e], [b, d, f], [0, 0, 1]]`. Coefficients are exact
`real`s, an idealisation of JavaScript doubles. A point records its position
and how it was written: as an array `[x, y]` (`ArrayForm`) or as an object
`{x, y}` (`ObjectForm`). An optional JavaScript argument or object key is an
`Option`, with `None` standing for `undefined` or an absent key. A thrown
error is the `Failure` case of a `Result`.

Modules (one file each):

- `Wrappers` (`wrappers.dfy`): `Option`, with `GetOr` for JavaScript default parameters, and `Result`.
- `Affine` (`affine.dfy`): matrices, points, `applyToPoint(s)`, `identity`, the inner `multiply` of `transform`, and `transform`/`compose`. It also holds the reference definitions `Product` (a right fold) and `ApplyAll`.
- `Inversion` (`inverse.dfy`): `inverse`.
- `Constructors` (`constructors.dfy`): `translate`, `scale`, `shear`, `flipX`, `flipY`, `flipOrigin`.
- `Rotation` (`rotation.dfy`): `rotate`, `rotateDEG`, `skew`, `skewDEG`. Cosine, sine, tangent and pi come from a record of given functions.
- `Smoothing` (`smooth.dfy`): `smoothMatrix` and `Math.round`.
- `Triangles` (`triangles.dfy`): `fromTriangles`.
- `Definitions` (`definition.dfy`): `fromDefinition` and `fromObject`.
- `Validation` (`validation.dfy`): `isAffineMatrix`, `isNumeric`, `isObject`, over a small datatype of JavaScript values.

On two kinds of input the code does not fail where a caller might expect a
failure. It computes non-finite coefficients instead. The model excludes these
inputs by a precondition:

- **`inverse`** (`JS/transformation-matrix.js:374-383`) divides by the determinant `a·d − b·c` and never checks it. For a singular matrix the result holds infinite or NaN coefficients. `Inversion.Inverse` requires a non-zero determinant.
- **`fromTriangles`** is documented (line 285) to throw when the matrix is not invertible. The code (lines 323-327) inverts and smooths without a check, so a degenerate source triangle gives non-finite coefficients. `Triangles.TriangleMap` and `Triangles.FromTriangles` require a non-degenerate source triangle.

## Model

| member | source | states |
|---|---|---|
| Affine.ApplyToPoint | JS/transformation-matrix.js:9-19 | the image is (a·x + c·y + e, b·x + d·y + f), written in the same form (array or object) as the input |
| Affine.ApplySamePosition | JS/transformation-matrix.js:9-19 | the image of a point depends only on its position, not on whether it is written as an array or an object |
| Affine.ApplyToPoints | JS/transformation-matrix.js:27-29 | the output has the input's length, and its i-th point is the image of the i-th input point |
| Affine.ApplyToPointsMultiply | JS/transformation-matrix.js:27-29 | mapping a list through a product is mapping it through the second factor, then the first |
| Affine.Identity | JS/transformation-matrix.js:333-342 | the identity leaves every point, in either form, unchanged |
| Affine.Multiply | JS/transformation-matrix.js:581-590 | applying the product to a point is applying m2, then m1 |
| Affine.MultiplyAssociative | JS/transformation-matrix.js:581-590 | multiply is associative |
| Affine.MultiplyIdentity | JS/transformation-matrix.js:581-590 | the identity is a left and a right unit of multiply |
| Affine.DetMultiply | JS/transformation-matrix.js:581-590 | the determinant of a product is the product of the determinants |
| Affine.Transform | JS/transformation-matrix.js:578-608 | transform succeeds exactly when the list is non-empty; otherwise it fails with "no matrices provided"; a single matrix is returned unchanged |
| Affine.TransformPair | JS/transformation-matrix.js:598-600 | transform of two matrices is their product, and applying it is applying the second, then the first |
| Affine.TransformStep | JS/transformation-matrix.js:602-606 | a list of two or more matrices equals the list with its first two replaced by their product |
| Affine.TransformTriple | JS/transformation-matrix.js:602-606 | transform of three matrices is (m1·m2)·m3 |
| Affine.TransformIsProduct | JS/transformation-matrix.js:578-608 | transform of a non-empty list equals the product of the list, where the product is the reference right fold |
| Affine.ProductAppend | JS/transformation-matrix.js:602-606 | the product of a concatenation is the product of the two products, so any grouping gives the same matrix |
| Affine.TransformApplies | JS/transformation-matrix.js:578-608 | composition law: applying transform(ms) to p is applying every matrix of ms to p, the last one first |
| Inversion.Inverse | JS/transformation-matrix.js:369-384 | for a non-zero determinant, the inverse is a two-sided inverse under multiply |
| Inversion.TransformWithInverse | JS/transformation-matrix.js:369-384 | transform([M, inverse(M)]) and transform([inverse(M), M]) both succeed with the identity |
| Inversion.InverseUndoes | JS/transformation-matrix.js:369-384 | the inverse undoes the matrix on every point, and the matrix undoes the inverse |
| Inversion.InverseUnique | JS/transformation-matrix.js:369-384 | any right inverse of an invertible matrix equals inverse(M) |
| Inversion.InverseDet | JS/transformation-matrix.js:369-384 | the determinant of the inverse is the reciprocal of the determinant |
| Inversion.InverseInvolutive | JS/transformation-matrix.js:369-384 | the inverse is invertible, and inverting twice gives the matrix back |
| Inversion.InverseMultiply | JS/transformation-matrix.js:369-384 | the inverse of a product is the product of the inverses in the opposite order |
| Constructors.Translate | JS/transformation-matrix.js:624-633 | every point moves by (tx, ty), with ty 0 when it is not given |
| Constructors.TranslateDefault | JS/transformation-matrix.js:624-633 | translate(tx) equals translate(tx, 0) |
| Constructors.TranslateAdd | JS/transformation-matrix.js:624-633 | the product of two translations is the translation by the summed offsets |
| Constructors.Scale | JS/transformation-matrix.js:464-485 | the linear part is diag(sx, sy), with sy = sx when sy is not given; the translation part is zero unless both cx and cy are given, and then it is (cx − sx·cx, cy − sy·cy) |
| Constructors.ScaleDefault | JS/transformation-matrix.js:464-466 | scale(sx) equals scale(sx, sx), with or without a centre |
| Constructors.ScaleWithoutCentre | JS/transformation-matrix.js:476-478 | when cx or cy is missing, the result is the plain diagonal matrix, which scales about the origin |
| Constructors.ScaleAboutCentre | JS/transformation-matrix.js:480-484 | with a centre, every point moves to centre + (sx, sy)·(point − centre) |
| Constructors.ScaleFixesCentre | JS/transformation-matrix.js:480-484 | scale(sx, sy, cx, cy) maps (cx, cy) to itself |
| Constructors.FlipX | JS/transformation-matrix.js:101-110 | flipX mirrors every point on the x-axis: (x, y) goes to (x, −y) |
| Constructors.FlipY | JS/transformation-matrix.js:116-125 | flipY mirrors every point on the y-axis: (x, y) goes to (−x, y) |
| Constructors.FlipOrigin | JS/transformation-matrix.js:131-140 | flipOrigin mirrors every point on the origin: (x, y) goes to (−x, −y) |
| Constructors.FlipXInvolutive | JS/transformation-matrix.js:101-110 | flipX · flipX is the identity |
| Constructors.FlipYInvolutive | JS/transformation-matrix.js:116-125 | flipY · flipY is the identity |
| Constructors.FlipOriginInvolutive | JS/transformation-matrix.js:131-140 | flipOrigin · flipOrigin is the identity |
| Constructors.FlipXThenY | JS/transformation-matrix.js:101-140 | flipX · flipY is flipOrigin |
| Constructors.FlipYThenX | JS/transformation-matrix.js:101-140 | flipY · flipX is flipOrigin |
| Rotation.Rotate | JS/transformation-matrix.js:420-440 | the linear part is [[cos, −sin], [sin, cos]]; the translation part is zero unless both cx and cy are given, and then it is the conjugation of the rotation by the translation to (cx, cy) |
| Rotation.RotateAboutCentre | JS/transformation-matrix.js:434-439 | rotation about a centre is translate(cx, cy) · rotate(angle) · translate(−cx, −cy) |
| Rotation.RotateDet | JS/transformation-matrix.js:420-440 | when cos² + sin² = 1, a rotation has determinant 1 |
| Rotation.RotateDeg | JS/transformation-matrix.js:449-451 | rotateDEG's linear part is [[cos θ, −sin θ], [sin θ, cos θ]] with θ = angle·π/180; its translation part is zero when cx or cy is missing, and it fixes the centre when both are given |
| Rotation.Skew | JS/transformation-matrix.js:511-520 | skew(ax, ay) is the shear by tan(ax) and tan(ay): x grows by tan(ax)·y, and y grows by tan(ay)·x |
| Rotation.SkewDeg | JS/transformation-matrix.js:528-530 | skewDEG is the shear by tan(ax·π/180) and tan(ay·π/180) |
| Constructors.Shear | JS/transformation-matrix.js:492-501 | x grows by shx·y, and y grows by shy·x |
| Smoothing.Round | JS/transformation-matrix.js:538-545 | Math.round returns the integer in (x − 1/2, x + 1/2], so halves round up |
| Smoothing.RoundUnique | JS/transformation-matrix.js:538-545 | that integer is unique |
| Smoothing.SmoothCoefficient | JS/transformation-matrix.js:538-545 | a rounded coefficient times p is the rounded integer; it is an integer multiple of 1/p, and within 1/(2·abs(p)) of the original |
| Smoothing.SmoothMatrix | JS/transformation-matrix.js:537-546 | every coefficient lies on the 1/p grid (the default p is 10^10) and within 1/(2·abs(p)) of the input's coefficient |
| Smoothing.SmoothOnGrid | JS/transformation-matrix.js:537-546 | a coefficient already on the grid is left unchanged |
| Smoothing.SmoothCoefficientIdempotent | JS/transformation-matrix.js:537-546 | rounding a coefficient twice is the same as rounding it once |
| Smoothing.SmoothMatrixOnGrid | JS/transformation-matrix.js:537-546 | a matrix already on the grid is left unchanged |
| Smoothing.SmoothMatrixIdempotent | JS/transformation-matrix.js:537-546 | smoothMatrix is idempotent |
| Smoothing.SmoothIdentity | JS/transformation-matrix.js:537-546 | with a whole-number precision, the identity is left unchanged |
| Triangles.Basis | JS/transformation-matrix.js:306-321 | r1 (or r2) sends (1, 0), (0, 1) and the origin onto the triangle's first, second and third vertex |
| Triangles.TriangleMap | JS/transformation-matrix.js:323-324 | for a non-degenerate t1, transform([r2, inverse(r1)]) carries t1[i] onto t2[i] for i = 0, 1, 2 |
| Triangles.VertexMapped | JS/transformation-matrix.js:323-324 | inverse(r1) sends vertex i of t1 back to unit point i, and r2 sends that onto vertex i of t2 |
| Triangles.AgreesWithBasis | JS/transformation-matrix.js:306-321 | any matrix that carries t1's vertices onto t2's, composed after r1, equals r2 |
| Triangles.TriangleMapUnique | JS/transformation-matrix.js:287-328 | the triangle map is the only affine matrix that carries t1's vertices onto t2's |
| Triangles.FromTriangles | JS/transformation-matrix.js:287-328 | the result is on the 10^-10 grid and within 1/(2·10^10) of the exact triangle map, coefficient by coefficient |
| Triangles.FromTrianglesSelf | JS/transformation-matrix.js:287-328 | the map from a triangle to itself is exactly the identity, both before and after smoothing |
| Definitions.FromObject | JS/transformation-matrix.js:239-248 | the matrix's object form agrees with the input object on the keys a..f |
| Definitions.FromDescriptor | JS/transformation-matrix.js:179-230 | UNSUPPORTED_DESCRIPTOR exactly for an unknown tag; MISSING_MANDATORY_PARAM exactly for a known tag missing one of its mandatory keys; success exactly when neither applies |
| Definitions.MatrixDescriptorRoundTrip | JS/transformation-matrix.js:181-192 | a matrix descriptor that carries a matrix's own coefficients reads back that matrix |
| Definitions.MatrixDescriptor | JS/transformation-matrix.js:181-192 | a matrix descriptor that carries all of a..f yields fromObject of those keys, whatever other keys it has |
| Definitions.TranslateDescriptor | JS/transformation-matrix.js:194-199 | a translate descriptor with tx moves every point by (tx, ty), with ty 0 when the key is absent |
| Definitions.ScaleDescriptor | JS/transformation-matrix.js:201-206 | a scale descriptor with sx is diag(sx, sy), with sy = sx when absent; cx and cy keys are ignored |
| Definitions.RotateDescriptor | JS/transformation-matrix.js:208-214 | a rotate descriptor with both cx and cy is rotateDEG(angle, cx, cy), which fixes (cx, cy); with either missing, it is rotateDEG(angle) about the origin |
| Definitions.SkewDescriptors | JS/transformation-matrix.js:216-222 | skewX is skewDEG(angle, 0), and skewY is skewDEG(0, angle) |
| Definitions.ShearDescriptor | JS/transformation-matrix.js:224-226 | a shear descriptor with shx and shy is shear(shx, shy) |
| Definitions.FromDescriptors | JS/transformation-matrix.js:175-177 | an array maps to matrices element by element in order, and succeeds exactly when every element does; a failure carries the error of the first failing element |
| Definitions.FromDescriptorsAppend | JS/transformation-matrix.js:175-177 | mapping a concatenation of arrays concatenates the results |
| Definitions.FromDefinition | JS/transformation-matrix.js:174-231 | one descriptor gives the one matrix its mapper yields; an array gives the array of its descriptors' matrices, in order and of the same length; either succeeds exactly when every descriptor is well formed, and a failure carries the error of the first descriptor that fails |
| Validation.TypeOf | JS/transformation-matrix.js:638-648 | typeof answers "number" exactly for numbers (NaN and the infinities included), and "object" exactly for null, arrays and objects |
| Validation.IsNumeric | JS/transformation-matrix.js:638-642 | isNumeric holds exactly of finite numbers: not of NaN, the infinities or any non-number |
| Validation.IsObject | JS/transformation-matrix.js:644-648 | isObject holds exactly of objects: not of null, arrays or any non-object value |
| Validation.IsAffineMatrix | JS/transformation-matrix.js:393-407 | isAffineMatrix holds exactly of the objects whose keys a..f are all present and hold finite numbers |
| Validation.IsAffineMatrixHolds | JS/transformation-matrix.js:393-407 | isAffineMatrix holds exactly of the objects whose keys a..f hold the finite coefficients of some matrix |
| Validation.ReadMatrix | JS/transformation-matrix.js:393-407 | the matrix that an accepted object holds |
| Validation.ToJsRoundTrip | JS/transformation-matrix.js:393-407 | the object form of any matrix is accepted, and reads back as that matrix |

## Left out

- **`JS/main.js`**: the page script (DOM, styles, random placement and logging). It has nothing to state about the matrix algebra.
- **`decomposeTSR`** (lines 45-95): it relies on `acos`, `hypot` and floating-point sign tests, which have no exact counterpart over reals.
- **`fromString`, `toString`, `toCSS`, `toSVG`**: they depend on regular-expression matching and on JavaScript's number-to-string formatting.
- **`fromObject`**'s `parseFloat` coercion: the model's descriptor values are already numbers, so strings holding numbers are not modelled.
- **Floating point**: the model uses exact reals, so it does not capture rounding error. It does not capture NaN or the infinities either, except in `Validation`, where they are values to reject.
- **`Inverse`**: requires a non-zero determinant, as explained above. The JavaScript result for a singular matrix (infinite or NaN coefficients) is not modelled.
- **`TriangleMap`, `FromTriangles`**:
  - They require at least three points and a non-degenerate source triangle.
  - With fewer points, JavaScript raises a TypeError; with a degenerate triangle it returns non-finite coefficients.
  - JavaScript reads a point's `x` or `[0]` depending on its form; the model's `Point` carries both forms' position directly.
- **`SmoothMatrix`**: requires a non-zero precision, because a precision of 0 divides 0 by 0.
- **`Transform`**:
  - The model takes the matrices as one sequence, which covers both the variadic call and the single-array call.
  - A mixed call such as `transform([A, B], C)` is not modelled. In JavaScript it silently ignores C.
- **`Compose`**: has no contract of its own, since it is `Transform` under another name.
- **`Rotate`, `RotateDeg`, `Skew`, `SkewDeg`**:
  - `Math.cos`, `Math.sin`, `Math.tan` and `Math.PI` are parameters (the `JsMath` record), and the model proves nothing about their values.
  - Facts that need trigonometry, such as `RotateDet`, take the identity they need as a precondition.
  - `SkewDescriptors` states its result as `SkewDeg(angle, 0)` rather than simplifying `tan(0)`.
- **`FromDescriptor`**:
  - A missing or non-string `type` behaves like an unknown tag and is not modelled separately.
  - Descriptor values are reals; values of any other JavaScript type are not modelled.
  - JavaScript's `in` also sees inherited properties; the model sees only the descriptor's own keys.
- **`matchesShape`** and **`isUndefined`**: `matchesShape` is not called anywhere. `isUndefined` is replaced by `None`.
