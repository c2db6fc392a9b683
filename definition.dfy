/**
 * `fromDefinition` and `fromObject`: matrices from descriptor objects such as
 * `{ type: 'translate', tx: 10, ty: 20 }`.
 *
 * A descriptor is its `type` tag and the numeric parameters it carries, keyed
 * by name; a key missing from the map is a key the JavaScript object lacks.
 */
module Definitions {
  import opened Wrappers
  import opened Affine
  import opened Constructors
  import opened Rotation

  /** The two errors `fromDefinition` throws. */
  datatype DefinitionError = MissingMandatoryParam | UnsupportedDescriptor

  /** A descriptor object: its `type` tag and its other keys. */
  datatype Descriptor = Descriptor(kind: string, params: map<string, real>)

  /** The argument of `fromDefinition`: one descriptor, or an array of them. */
  datatype Definition = SingleDescriptor(descriptor: Descriptor) | DescriptorList(descriptors: seq<Descriptor>)

  /** The result of `fromDefinition`: one matrix for one descriptor, an array for an array. */
  datatype Matrices = SingleMatrix(matrix: Matrix) | MatrixList(matrices: seq<Matrix>)

  /** The value under `key`, or `None` when the object lacks it. */
  function Lookup(params: map<string, real>, key: string): (r: Option<real>)
    ensures r.Some? <==> key in params
    ensures r.Some? ==> r.value == params[key]
  {
    if key in params then Some(params[key]) else None
  }

  /** The `type` tags `fromDefinition` accepts. */
  const SupportedKinds: set<string> := {"matrix", "translate", "scale", "rotate", "skewX", "skewY", "shear"}

  /** Reference definition: the keys a descriptor of each supported type must carry. */
  function MandatoryKeys(kind: string): set<string> {
    if kind == "matrix" then MatrixKeys
    else if kind == "translate" then {"tx"}
    else if kind == "scale" then {"sx"}
    else if kind == "rotate" || kind == "skewX" || kind == "skewY" then {"angle"}
    else if kind == "shear" then {"shx", "shy"}
    else {}
  }

  /** `fromObject`: the matrix whose coefficients are the object's keys a..f. */
  function FromObject(obj: map<string, real>): (r: Matrix)
    requires MatrixKeys <= obj.Keys
    ensures ToObject(r) == map k | k in MatrixKeys :: obj[k]
  {
    Matrix(obj["a"], obj["b"], obj["c"], obj["d"], obj["e"], obj["f"])
  }

  /**
   * The `mapper` of `fromDefinition`: the matrix one descriptor stands for.
   * It fails with UNSUPPORTED_DESCRIPTOR on an unknown tag and with
   * MISSING_MANDATORY_PARAM when a mandatory key is absent.
   */
  function FromDescriptor(math: JsMath, d: Descriptor): (r: Result<Matrix, DefinitionError>)
    ensures r == Failure(UnsupportedDescriptor) <==> d.kind !in SupportedKinds
    ensures r == Failure(MissingMandatoryParam) <==> d.kind in SupportedKinds && !(MandatoryKeys(d.kind) <= d.params.Keys)
    ensures r.Success? <==> d.kind in SupportedKinds && MandatoryKeys(d.kind) <= d.params.Keys
  {
    var p := d.params;
    if d.kind == "matrix" then
      if "a" in p && "b" in p && "c" in p && "d" in p && "e" in p && "f" in p
      then Success(FromObject(p))
      else Failure(MissingMandatoryParam)
    else if d.kind == "translate" then
      if "tx" !in p then Failure(MissingMandatoryParam)
      else Success(Translate(p["tx"], Lookup(p, "ty")))
    else if d.kind == "scale" then
      if "sx" !in p then Failure(MissingMandatoryParam)
      else Success(Scale(p["sx"], Lookup(p, "sy"), None, None))
    else if d.kind == "rotate" then
      if "angle" !in p then Failure(MissingMandatoryParam)
      else if "cx" in p && "cy" in p then Success(RotateDeg(math, p["angle"], Some(p["cx"]), Some(p["cy"])))
      else Success(RotateDeg(math, p["angle"], None, None))
    else if d.kind == "skewX" then
      if "angle" !in p then Failure(MissingMandatoryParam)
      else Success(SkewDeg(math, p["angle"], 0.0))
    else if d.kind == "skewY" then
      if "angle" !in p then Failure(MissingMandatoryParam)
      else Success(SkewDeg(math, 0.0, p["angle"]))
    else if d.kind == "shear" then
      if !("shx" in p && "shy" in p) then Failure(MissingMandatoryParam)
      else Success(Shear(p["shx"], p["shy"]))
    else
      Failure(UnsupportedDescriptor)
  }

  /**
   * `definitions.map(mapper)`: every descriptor in order; JavaScript's `map`
   * stops at the first descriptor that throws, and so does this.
   */
  function FromDescriptors(math: JsMath, ds: seq<Descriptor>): (r: Result<seq<Matrix>, DefinitionError>)
    ensures r.Success? <==> forall i | 0 <= i < |ds| :: FromDescriptor(math, ds[i]).Success?
    ensures r.Success? ==> |r.value| == |ds| && forall i | 0 <= i < |ds| :: FromDescriptor(math, ds[i]) == Success(r.value[i])
    ensures r.Failure? ==> exists i | 0 <= i < |ds| ::
      && FromDescriptor(math, ds[i]) == Failure(r.error)
      && forall j | 0 <= j < i :: FromDescriptor(math, ds[j]).Success?
  {
    if ds == [] then Success([])
    else
      var first := FromDescriptor(math, ds[0]);
      if first.Failure? then Failure(first.error)
      else
        var rest := FromDescriptors(math, ds[1..]);
        if rest.Failure? then
          LaterFailure(math, ds, rest.error);
          Failure(rest.error)
        else
          AllSucceed(math, ds, first.value, rest.value);
          Success([first.value] + rest.value)
  }

  /** A failure in the tail after a successful head is a first failure of the whole list. */
  lemma LaterFailure(math: JsMath, ds: seq<Descriptor>, e: DefinitionError)
    requires |ds| > 0 && FromDescriptor(math, ds[0]).Success?
    requires exists i | 0 <= i < |ds[1..]| ::
      && FromDescriptor(math, ds[1..][i]) == Failure(e)
      && forall j | 0 <= j < i :: FromDescriptor(math, ds[1..][j]).Success?
    ensures exists i | 0 <= i < |ds| ::
      && FromDescriptor(math, ds[i]) == Failure(e)
      && forall j | 0 <= j < i :: FromDescriptor(math, ds[j]).Success?
  {
    var i :| 0 <= i < |ds[1..]| && FromDescriptor(math, ds[1..][i]) == Failure(e)
      && forall j | 0 <= j < i :: FromDescriptor(math, ds[1..][j]).Success?;
    assert FromDescriptor(math, ds[i + 1]) == Failure(e);
    forall j | 0 <= j < i + 1
      ensures FromDescriptor(math, ds[j]).Success?
    {
      if j > 0 {
        assert ds[j] == ds[1..][j - 1];
      }
    }
  }

  /** A successful head before a successful tail maps the whole list element by element. */
  lemma AllSucceed(math: JsMath, ds: seq<Descriptor>, m: Matrix, ms: seq<Matrix>)
    requires |ds| > 0 && FromDescriptor(math, ds[0]) == Success(m)
    requires |ms| == |ds[1..]| && forall i | 0 <= i < |ds[1..]| :: FromDescriptor(math, ds[1..][i]) == Success(ms[i])
    ensures forall i | 0 <= i < |ds| :: FromDescriptor(math, ds[i]) == Success(([m] + ms)[i])
  {
    forall i | 0 <= i < |ds|
      ensures FromDescriptor(math, ds[i]) == Success(([m] + ms)[i])
    {
      if i > 0 {
        assert ds[i] == ds[1..][i - 1];
      }
    }
  }

  /** A descriptor with a supported tag and every key that tag makes mandatory. */
  predicate WellFormed(d: Descriptor) {
    d.kind in SupportedKinds && MandatoryKeys(d.kind) <= d.params.Keys
  }

  /**
   * `fromDefinition`: one descriptor gives one matrix, an array of descriptors
   * gives an array of matrices; it succeeds exactly when every descriptor is well formed.
   */
  function FromDefinition(math: JsMath, def: Definition): (r: Result<Matrices, DefinitionError>)
    ensures def.SingleDescriptor? ==> (r.Success? <==> WellFormed(def.descriptor))
    ensures def.DescriptorList? ==> (r.Success? <==> forall i | 0 <= i < |def.descriptors| :: WellFormed(def.descriptors[i]))
    ensures def.SingleDescriptor? && r.Success? ==> r.value.SingleMatrix?
    ensures def.SingleDescriptor? && r.Success? ==> FromDescriptor(math, def.descriptor) == Success(r.value.matrix)
    ensures def.SingleDescriptor? && r.Failure? ==> FromDescriptor(math, def.descriptor) == Failure(r.error)
    ensures def.DescriptorList? && r.Success? ==>
      && r.value.MatrixList? && |r.value.matrices| == |def.descriptors|
      && forall i | 0 <= i < |def.descriptors| :: FromDescriptor(math, def.descriptors[i]) == Success(r.value.matrices[i])
    ensures def.DescriptorList? && r.Failure? ==> exists i | 0 <= i < |def.descriptors| ::
      && FromDescriptor(math, def.descriptors[i]) == Failure(r.error)
      && forall j | 0 <= j < i :: WellFormed(def.descriptors[j])
  {
    match def
    case SingleDescriptor(d) =>
      (match FromDescriptor(math, d)
       case Success(m) => Success(SingleMatrix(m))
       case Failure(e) => Failure(e))
    case DescriptorList(ds) =>
      (match FromDescriptors(math, ds)
       case Success(ms) => Success(MatrixList(ms))
       case Failure(e) => Failure(e))
  }

  /** A `matrix` descriptor reads back exactly the matrix whose object it carries. */
  lemma MatrixDescriptorRoundTrip(math: JsMath, m: Matrix)
    ensures FromDescriptor(math, Descriptor("matrix", ToObject(m))) == Success(m)
  {
  }

  /** A `matrix` descriptor with every key a..f is `fromObject` of its keys; other keys are ignored. */
  lemma MatrixDescriptor(math: JsMath, p: map<string, real>)
    requires MatrixKeys <= p.Keys
    ensures FromDescriptor(math, Descriptor("matrix", p)) == Success(FromObject(p))
  {
    assert "a" in MatrixKeys && "b" in MatrixKeys && "c" in MatrixKeys;
    assert "d" in MatrixKeys && "e" in MatrixKeys && "f" in MatrixKeys;
  }

  /** A `translate` descriptor moves every point by (tx, ty), with ty 0 when absent. */
  lemma TranslateDescriptor(math: JsMath, p: map<string, real>, pt: Point)
    requires "tx" in p
    ensures FromDescriptor(math, Descriptor("translate", p)).Success?
    ensures ApplyToPoint(FromDescriptor(math, Descriptor("translate", p)).value, pt)
         == Moved(pt, pt.x + p["tx"], pt.y + (if "ty" in p then p["ty"] else 0.0))
  {
  }

  /**
   * A `scale` descriptor scales about the origin by sx and sy, with sy equal
   * to sx when absent; any cx or cy key is ignored.
   */
  lemma ScaleDescriptor(math: JsMath, p: map<string, real>)
    requires "sx" in p
    ensures FromDescriptor(math, Descriptor("scale", p))
         == Success(Matrix(p["sx"], 0.0, 0.0, if "sy" in p then p["sy"] else p["sx"], 0.0, 0.0))
  {
  }

  /**
   * A `rotate` descriptor rotates by `angle` degrees about (cx, cy) when it has
   * both keys, and about the origin otherwise.
   */
  lemma RotateDescriptor(math: JsMath, p: map<string, real>)
    requires "angle" in p
    ensures FromDescriptor(math, Descriptor("rotate", p)).Success?
    ensures "cx" in p && "cy" in p ==>
      FromDescriptor(math, Descriptor("rotate", p)) == Success(RotateDeg(math, p["angle"], Some(p["cx"]), Some(p["cy"])))
    ensures !("cx" in p && "cy" in p) ==>
      FromDescriptor(math, Descriptor("rotate", p)) == Success(RotateDeg(math, p["angle"], None, None))
  {
  }

  /** `skewX` skews by `angle` degrees along x only, and `skewY` along y only. */
  lemma SkewDescriptors(math: JsMath, p: map<string, real>)
    requires "angle" in p
    ensures FromDescriptor(math, Descriptor("skewX", p)) == Success(SkewDeg(math, p["angle"], 0.0))
    ensures FromDescriptor(math, Descriptor("skewY", p)) == Success(SkewDeg(math, 0.0, p["angle"]))
  {
    // The tags differ from "scale" in their second letter, so the `scale` branch is not taken.
    assert "skewX"[1] != "scale"[1] && "skewY"[1] != "scale"[1];
  }

  /** A `shear` descriptor with both keys is `shear(shx, shy)`. */
  lemma ShearDescriptor(math: JsMath, p: map<string, real>)
    requires "shx" in p && "shy" in p
    ensures FromDescriptor(math, Descriptor("shear", p)) == Success(Shear(p["shx"], p["shy"]))
  {
  }

  /** Mapping a concatenation of descriptor lists concatenates the matrix lists. */
  lemma FromDescriptorsAppend(math: JsMath, ds1: seq<Descriptor>, ds2: seq<Descriptor>)
    requires FromDescriptors(math, ds1).Success? && FromDescriptors(math, ds2).Success?
    ensures FromDescriptors(math, ds1 + ds2) == Success(FromDescriptors(math, ds1).value + FromDescriptors(math, ds2).value)
  {
    var ds, v1, v2 := ds1 + ds2, FromDescriptors(math, ds1).value, FromDescriptors(math, ds2).value;
    forall i | 0 <= i < |ds|
      ensures FromDescriptor(math, ds[i]) == Success((v1 + v2)[i])
    {
      if i < |ds1| {
        assert ds[i] == ds1[i];
      } else {
        assert ds[i] == ds2[i - |ds1|];
      }
    }
    var r := FromDescriptors(math, ds);
    assert r.Success?;
    assert r.value == v1 + v2;
  }
}
