/**
 * Transform-op stacks of USD prims as the samples read and write them.
 *
 * A prim's ordered op stack is a sequence of ops, each with a type, a
 * precision and a stored value; an op handle is an index into that sequence.
 * `GetOp` reads the stack ("last op of each kind wins, with defaults"),
 * `SetOp` creates an op when the handle is invalid and otherwise reuses it,
 * narrowing the value to single precision when the op is float-typed, and
 * `SetXformOpOrder` replaces the stack by the chosen ops.
 */
module XformOps {
  import opened Wrappers

  datatype Vec3 = Vec3(x: real, y: real, z: real)
  {
    function Plus(o: Vec3): Vec3 { Vec3(x + o.x, y + o.y, z + o.z) }
  }

  const Zero: Vec3 := Vec3(0.0, 0.0, 0.0)
  const One: Vec3 := Vec3(1.0, 1.0, 1.0)

  /** The op types the samples name; every other type is `OtherType`. */
  datatype OpType = TypeTranslate | TypeRotateXYZ | TypeRotateZYX | TypeScale | OtherType(code: nat)

  datatype Precision = PrecisionHalf | PrecisionFloat | PrecisionDouble

  /**
   * An op's value: none yet, a double vector, or a vector narrowed to single
   * precision by `GfVec3f(value)` (the rounding itself is not modelled).
   */
  datatype Value = NoValue | Vec3d(v: Vec3) | Vec3f(v: Vec3)

  datatype XformOp = XformOp(opType: OpType, precision: Precision, value: Value)

  /** What `op.Set` stores: a float op receives the narrowed vector, any other the double one. */
  function Stored(precision: Precision, v: Vec3): (r: Value)
    ensures r.Vec3f? <==> precision == PrecisionFloat
    ensures !r.NoValue? && r.v == v
  {
    if precision == PrecisionFloat then Vec3f(v) else Vec3d(v)
  }

  // ---------------------------------------------------------------------
  // Reading the stack

  /** Handle of the last op of type `t`, or `None`. */
  function LastOf(ops: seq<XformOp>, t: OpType): (r: Option<nat>)
    ensures r.Some? ==>
      r.value < |ops| && ops[r.value].opType == t &&
      forall j :: r.value < j < |ops| ==> ops[j].opType != t
    ensures r.None? ==> forall j :: 0 <= j < |ops| ==> ops[j].opType != t
    decreases |ops|
  {
    if ops == [] then None
    else if ops[|ops| - 1].opType == t then Some(|ops| - 1)
    else LastOf(ops[..|ops| - 1], t)
  }

  /**
   * What `op.Get(&v)` leaves in `v` after the scan: the value of the last op
   * of type `t` that has one, or `dflt`.
   */
  function ValueOf(ops: seq<XformOp>, t: OpType, dflt: Vec3): Vec3
    decreases |ops|
  {
    if ops == [] then dflt
    else
      var last := ops[|ops| - 1];
      if last.opType == t && !last.value.NoValue? then last.value.v
      else ValueOf(ops[..|ops| - 1], t, dflt)
  }

  /** The fields of `GetOp`: three handles and three values. */
  datatype Extracted = Extracted(
    translateOp: Option<nat>, rotateOp: Option<nat>, scaleOp: Option<nat>,
    position: Vec3, rotation: Vec3, scale: Vec3)

  /** Extraction with `rotType` as the rotation op type the caller looks for. */
  function Extract(ops: seq<XformOp>, rotType: OpType): Extracted
  {
    Extracted(
      LastOf(ops, TypeTranslate), LastOf(ops, rotType), LastOf(ops, TypeScale),
      ValueOf(ops, TypeTranslate, Zero), ValueOf(ops, rotType, Zero), ValueOf(ops, TypeScale, One))
  }

  /** `GetOp` reads rotation from `TypeRotateXYZ` ops, although its field is called `rotZYX`. */
  const GetOpRotation: OpType := TypeRotateXYZ

  /** The scan of `GetOp` (and of the live-edit loops), front to back over the ordered ops. */
  method ScanOps(ops: seq<XformOp>, rotType: OpType) returns (e: Extracted)
    requires rotType != TypeTranslate && rotType != TypeScale
    ensures e == Extract(ops, rotType)
  {
    e := Extracted(None, None, None, Zero, Zero, One);
    var i := 0;
    while i < |ops|
      invariant 0 <= i <= |ops|
      invariant e == Extract(ops[..i], rotType)
    {
      assert ops[..i + 1][..i] == ops[..i];
      var op := ops[i];
      if op.opType == TypeTranslate {
        e := e.(translateOp := Some(i));
        if !op.value.NoValue? { e := e.(position := op.value.v); }
      } else if op.opType == rotType {
        e := e.(rotateOp := Some(i));
        if !op.value.NoValue? { e := e.(rotation := op.value.v); }
      } else if op.opType == TypeScale {
        e := e.(scaleOp := Some(i));
        if !op.value.NoValue? { e := e.(scale := op.value.v); }
      }
      i := i + 1;
    }
    assert ops[..i] == ops;
  }

  /** Ops of a type the scan does not look for change nothing it reports. */
  lemma ExtractIgnoresOtherTypes(ops: seq<XformOp>, op: XformOp, rotType: OpType)
    requires op.opType != TypeTranslate && op.opType != TypeScale && op.opType != rotType
    ensures Extract(ops + [op], rotType) == Extract(ops, rotType)
  {
    assert (ops + [op])[..|ops|] == ops;
  }

  /** The last op of a kind wins: appending one makes it the reported op and value. */
  lemma ExtractLastWins(ops: seq<XformOp>, v: Vec3, p: Precision, rotType: OpType)
    requires rotType != TypeTranslate && rotType != TypeScale
    ensures Extract(ops + [XformOp(TypeTranslate, p, Vec3d(v))], rotType).translateOp == Some(|ops|)
    ensures Extract(ops + [XformOp(TypeTranslate, p, Vec3d(v))], rotType).position == v
    ensures Extract(ops + [XformOp(rotType, p, Vec3f(v))], rotType).rotateOp == Some(|ops|)
    ensures Extract(ops + [XformOp(rotType, p, Vec3f(v))], rotType).rotation == v
  {
  }

  /**
   * `GetOp` matches only `TypeRotateXYZ`: on a stack whose rotations are all
   * `TypeRotateZYX` its rotation handle stays invalid and its rotation zero.
   */
  lemma {:induction false} GetOpIgnoresRotateZYX(ops: seq<XformOp>)
    requires forall j :: 0 <= j < |ops| ==> ops[j].opType != TypeRotateXYZ
    ensures Extract(ops, GetOpRotation).rotateOp == None
    ensures Extract(ops, GetOpRotation).rotation == Zero
    decreases |ops|
  {
    if ops != [] {
      GetOpIgnoresRotateZYX(ops[..|ops| - 1]);
    }
  }

  /** A stack without any op of the three kinds reads as the defaults. */
  lemma {:induction false} ExtractDefaults(ops: seq<XformOp>, rotType: OpType)
    requires forall j :: 0 <= j < |ops| ==> ops[j].opType !in {TypeTranslate, rotType, TypeScale}
    ensures Extract(ops, rotType) == Extracted(None, None, None, Zero, Zero, One)
    decreases |ops|
  {
    if ops != [] {
      ExtractDefaults(ops[..|ops| - 1], rotType);
    }
  }

  // ---------------------------------------------------------------------
  // Writing the stack

  /** A prim that can carry transform ops; `ops` is its ordered op stack. */
  class Xformable {
    var ops: seq<XformOp>

    constructor (ops: seq<XformOp>)
      ensures this.ops == ops
    {
      this.ops := ops;
    }

    /** `AddXformOp`: appends an op without a value and returns its handle. */
    method AddXformOp(t: OpType, p: Precision) returns (h: nat)
      modifies this
      ensures ops == old(ops) + [XformOp(t, p, NoValue)] && h == old(|ops|)
    {
      ops := ops + [XformOp(t, p, NoValue)];
      h := |ops| - 1;
    }

    /** `op.Set(value)` on the op behind handle `h`. */
    method SetValue(h: nat, value: Value)
      requires h < |ops|
      modifies this
      ensures ops == old(ops)[h := old(ops)[h].(value := value)]
    {
      ops := ops[h := ops[h].(value := value)];
    }

    /** `SetXformOpOrder`: the stack becomes the chosen ops, in the chosen order. */
    method SetXformOpOrder(handles: seq<nat>)
      requires forall k :: 0 <= k < |handles| ==> handles[k] < |ops|
      modifies this
      ensures ops == Pick(old(ops), handles)
    {
      ops := Pick(ops, handles);
    }

    /**
     * `SetOp` (SetOp.hpp, and the local class of the C++ live edit and the
     * nested `setOp` of the Python one): an invalid handle gets a new op of
     * `t` with `p`; a valid one is reused and `p` is ignored. The stored value
     * is narrowed iff the op's own precision is float.
     */
    method SetOp(op: Option<nat>, t: OpType, value: Vec3, p: Precision) returns (h: nat)
      requires op.Some? ==> op.value < |ops|
      modifies this
      ensures op.None? ==> h == old(|ops|) && ops == old(ops) + [XformOp(t, p, Stored(p, value))]
      ensures op.Some? ==>
        h == op.value &&
        ops == old(ops)[h := old(ops)[h].(value := Stored(old(ops)[h].precision, value))]
    {
      if op.None? {
        h := AddXformOp(t, p);
      } else {
        h := op.value;
      }
      SetValue(h, Stored(ops[h].precision, value));
    }
  }

  /** The ops behind `handles`, in that order. */
  function Pick(ops: seq<XformOp>, handles: seq<nat>): (r: seq<XformOp>)
    requires forall k :: 0 <= k < |handles| ==> handles[k] < |ops|
    ensures |r| == |handles| && forall k :: 0 <= k < |handles| ==> r[k] == ops[handles[k]]
  {
    seq(|handles|, k requires 0 <= k < |handles| => ops[handles[k]])
  }

  /** What `SetOp` leaves behind the handle, as a function of the stack before. */
  function Rewritten(ops: seq<XformOp>, op: Option<nat>, t: OpType, value: Vec3, p: Precision): XformOp
    requires op.Some? ==> op.value < |ops|
  {
    if op.Some? then ops[op.value].(value := Stored(ops[op.value].precision, value))
    else XformOp(t, p, Stored(p, value))
  }

  /** A reused op keeps its type and precision; only a new op takes the requested precision. */
  lemma RewrittenKeepsOp(ops: seq<XformOp>, op: Option<nat>, t: OpType, value: Vec3, p: Precision)
    requires op.Some? ==> op.value < |ops| && ops[op.value].opType == t
    ensures Rewritten(ops, op, t, value, p).opType == t
    ensures Rewritten(ops, op, t, value, p).precision == if op.Some? then ops[op.value].precision else p
    ensures Rewritten(ops, op, t, value, p).value == Stored(Rewritten(ops, op, t, value, p).precision, value)
  {
  }
}
