/**
 * `isAffineMatrix` and its helpers `isNumeric` and `isObject`, over a small
 * model of JavaScript values.
 */
module Validation {
  import opened Affine

  /** A JavaScript number: a finite value, NaN, or one of the two infinities. */
  datatype JsNumber = Finite(value: real) | NaN | PositiveInfinity | NegativeInfinity

  /** The JavaScript values `isAffineMatrix` can be given. */
  datatype JsValue =
    | Undefined
    | Null
    | Bool(b: bool)
    | Number(n: JsNumber)
    | Str(s: string)
    | Array(elements: seq<JsValue>)
    | Object(fields: map<string, JsValue>)
    | Function

  /** `typeof v`: `null`, arrays and objects all answer "object". */
  function TypeOf(v: JsValue): (r: string)
    ensures r == "number" <==> v.Number?
    ensures r == "object" <==> v.Null? || v.Array? || v.Object?
  {
    match v
    case Undefined => "undefined"
    case Bool(_) => "boolean"
    case Number(_) => "number"
    case Str(_) => "string"
    case Function => "function"
    case Null | Array(_) | Object(_) => "object"
  }

  /** `isNumeric(n)`: a number other than NaN and the infinities. */
  predicate IsNumeric(v: JsValue): (r: bool)
    ensures r <==> v.Number? && v.n.Finite?
  {
    TypeOf(v) == "number" && !(v.Number? && v.n.NaN?) && v.Number? && v.n.Finite?
  }

  /** `isObject(obj)`: `typeof` says object, and it is neither `null` nor an array. */
  predicate IsObject(v: JsValue): (r: bool)
    ensures r <==> v.Object?
  {
    TypeOf(v) == "object" && v != Null && !v.Array?
  }

  /** `isAffineMatrix(object)`: an object whose keys a..f all hold finite numbers. */
  predicate IsAffineMatrix(v: JsValue): (r: bool)
    ensures r <==> v.Object? && forall k | k in MatrixKeys :: k in v.fields && v.fields[k].Number? && v.fields[k].n.Finite?
  {
    && IsObject(v)
    && "a" in v.fields && IsNumeric(v.fields["a"])
    && "b" in v.fields && IsNumeric(v.fields["b"])
    && "c" in v.fields && IsNumeric(v.fields["c"])
    && "d" in v.fields && IsNumeric(v.fields["d"])
    && "e" in v.fields && IsNumeric(v.fields["e"])
    && "f" in v.fields && IsNumeric(v.fields["f"])
  }

  /** `ToObject(m)` as a JavaScript value: every coefficient a finite number. */
  function ToJs(m: Matrix): (r: JsValue)
    ensures r.Object? && r.fields.Keys == MatrixKeys
    ensures forall k | k in MatrixKeys :: r.fields[k] == Number(Finite(ToObject(m)[k]))
  {
    var obj := ToObject(m);
    Object(map k | k in obj :: Number(Finite(obj[k])))
  }

  /** `v` is an object whose keys a..f hold exactly the coefficients of `m`; other keys are free. */
  predicate Holds(v: JsValue, m: Matrix) {
    v.Object? && forall k | k in MatrixKeys :: k in v.fields && v.fields[k] == Number(Finite(ToObject(m)[k]))
  }

  /** The matrix an affine-matrix object holds. */
  function ReadMatrix(v: JsValue): (r: Matrix)
    requires IsAffineMatrix(v)
    ensures Holds(v, r)
  {
    Matrix(v.fields["a"].n.value, v.fields["b"].n.value, v.fields["c"].n.value,
           v.fields["d"].n.value, v.fields["e"].n.value, v.fields["f"].n.value)
  }

  /** `isAffineMatrix` holds exactly of the objects that hold some matrix. */
  lemma IsAffineMatrixHolds(v: JsValue)
    ensures IsAffineMatrix(v) <==> exists m :: Holds(v, m)
  {
    if IsAffineMatrix(v) {
      assert Holds(v, ReadMatrix(v));
    }
    if m :| Holds(v, m) {
      assert "a" in MatrixKeys && "b" in MatrixKeys && "c" in MatrixKeys;
      assert "d" in MatrixKeys && "e" in MatrixKeys && "f" in MatrixKeys;
    }
  }

  /** Writing a matrix as an object and reading it back gives the matrix. */
  lemma ToJsRoundTrip(m: Matrix)
    ensures IsAffineMatrix(ToJs(m))
    ensures ReadMatrix(ToJs(m)) == m
  {
    assert "a" in MatrixKeys && "b" in MatrixKeys && "c" in MatrixKeys;
    assert "d" in MatrixKeys && "e" in MatrixKeys && "f" in MatrixKeys;
  }
}
