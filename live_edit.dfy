/**
 * The live-edit loop of the HelloWorld samples (C++ `liveEdit` and its
 * Python twin): every 't' advances an angle by 15 degrees, moves the box
 * along a circle, sets its rotation about the second axis to the angle and
 * rewrites its op stack as translate, rotate, scale; 'q' or escape ends it.
 *
 * The circle offset `(100 sin, 100 cos)` of an angle is a parameter
 * `circle`: only how it is added matters here.
 */
module LiveEdit {
  import opened XformOps
  import opened Wrappers

  /** The two programs differ in the angle update and in the hint for other keys. */
  datatype Dialect = Cpp | Python

  // ---------------------------------------------------------------------
  // Angle

  /** C++: add 15 and reset to 0 on reaching 360; Python: `(angle + 15) % 360`. */
  function NextAngle(d: Dialect, angle: int): int
  {
    match d
    case Cpp => if angle + 15 >= 360 then 0 else angle + 15
    case Python => (angle + 15) % 360
  }

  predicate ValidAngle(a: int)
  {
    0 <= a < 360 && a % 15 == 0
  }

  /** The angle stays a multiple of 15 in [0, 360). */
  lemma NextAngleValid(d: Dialect, a: int)
    requires ValidAngle(a)
    ensures ValidAngle(NextAngle(d, a))
  {
  }

  /** From any angle in [0, 360) the two updates agree exactly up to 345. */
  lemma DialectsAgree(a: int)
    requires 0 <= a < 360
    ensures NextAngle(Cpp, a) == NextAngle(Python, a) <==> a <= 345
  {
  }

  function Iterate(d: Dialect, a: int, n: nat): int
    decreases n
  {
    if n == 0 then a else NextAngle(d, Iterate(d, a, n - 1))
  }

  /** Adding 15 to a number whose remainder is a valid angle moves the remainder as the C++ update does. */
  lemma RemainderStep(m: int, p: int)
    requires p == m % 360 && ValidAngle(p)
    ensures (m + 15) % 360 == if p + 15 >= 360 then 0 else p + 15
  {
    var q := m / 360;
    assert m == 360 * q + p;
    if p + 15 >= 360 {
      assert m + 15 == 360 * (q + 1);
    } else {
      assert m + 15 == 360 * q + (p + 15);
    }
  }

  /** After `n` presses the angle is `(a + 15 n) mod 360`, in both programs. */
  lemma {:induction false} IterateClosedForm(d: Dialect, a: int, n: nat)
    requires ValidAngle(a)
    ensures ValidAngle(Iterate(d, a, n))
    ensures Iterate(d, a, n) == (a + 15 * n) % 360
    decreases n
  {
    if n > 0 {
      IterateClosedForm(d, a, n - 1);
      var p := Iterate(d, a, n - 1);
      NextAngleValid(d, p);
      assert Iterate(d, a, n) == NextAngle(d, p);
      assert NextAngle(d, p) == if p + 15 >= 360 then 0 else p + 15;
      var m := a + 15 * (n - 1);
      RemainderStep(m, p);
      assert m + 15 == a + 15 * n;
    }
  }

  /** The angle returns to its start after 24 presses and not before. */
  lemma {:induction false} AnglePeriod(d: Dialect, a: int, n: nat)
    requires ValidAngle(a) && 0 < n <= 24
    ensures Iterate(d, a, n) == a <==> n == 24
  {
    IterateClosedForm(d, a, n);
    if a + 15 * n < 360 {
      assert (a + 15 * n) % 360 == a + 15 * n;
    } else {
      assert (a + 15 * n) % 360 == a + 15 * n - 360;
    }
  }

  // ---------------------------------------------------------------------
  // One 't'

  function Offset(circle: int -> (real, real), angle: int): Vec3
  {
    Vec3(circle(angle).0, 0.0, circle(angle).1)
  }

  /**
   * The op stack after one 't' at `angle`: translate moved by `offset`,
   * rotation component 1 replaced by the angle, scale rewritten unchanged,
   * in that order. Existing ops are reused, missing ones created with the
   * C++ precisions (double, float, float).
   */
  function StepOps(ops: seq<XformOp>, angle: int, offset: Vec3): seq<XformOp>
  {
    var e := Extract(ops, TypeRotateZYX);
    [ Rewritten(ops, e.translateOp, TypeTranslate, e.position.Plus(offset), PrecisionDouble),
      Rewritten(ops, e.rotateOp, TypeRotateZYX, Vec3(e.rotation.x, angle as real, e.rotation.z), PrecisionFloat),
      Rewritten(ops, e.scaleOp, TypeScale, e.scale, PrecisionFloat) ]
  }

  /** The body of `case 't'` after the angle update: read, set three ops, reorder. */
  method TransformStep(x: Xformable, angle: int, offset: Vec3)
    modifies x
    ensures x.ops == StepOps(old(x.ops), angle, offset)
  {
    ghost var ops0 := x.ops;
    var e := ScanOps(x.ops, TypeRotateZYX);
    var position := e.position.Plus(offset);
    var rotation := Vec3(e.rotation.x, angle as real, e.rotation.z);
    var t := x.SetOp(e.translateOp, TypeTranslate, position, PrecisionDouble);
    ghost var ops1 := x.ops;
    assert e.rotateOp.Some? ==> e.rotateOp.value != t;
    var r := x.SetOp(e.rotateOp, TypeRotateZYX, rotation, PrecisionFloat);
    ghost var ops2 := x.ops;
    assert e.scaleOp.Some? ==> e.scaleOp.value != t && e.scaleOp.value != r;
    var s := x.SetOp(e.scaleOp, TypeScale, e.scale, PrecisionFloat);
    assert x.ops[t] == ops1[t] == Rewritten(ops0, e.translateOp, TypeTranslate, position, PrecisionDouble);
    assert x.ops[r] == ops2[r] == Rewritten(ops0, e.rotateOp, TypeRotateZYX, rotation, PrecisionFloat);
    assert x.ops[s] == Rewritten(ops0, e.scaleOp, TypeScale, e.scale, PrecisionFloat);
    x.SetXformOpOrder([t, r, s]);
  }

  /** After a step the stack is exactly translate, rotateZYX, scale, each holding a value. */
  lemma StepShape(ops: seq<XformOp>, angle: int, offset: Vec3)
    ensures |StepOps(ops, angle, offset)| == 3
    ensures StepOps(ops, angle, offset)[0].opType == TypeTranslate
    ensures StepOps(ops, angle, offset)[1].opType == TypeRotateZYX
    ensures StepOps(ops, angle, offset)[2].opType == TypeScale
    ensures forall k :: 0 <= k < 3 ==> !StepOps(ops, angle, offset)[k].value.NoValue?
  {
  }

  /**
   * Reading the stack back after a step gives the three written values: the
   * old position plus the offset, the old rotation with component 1 set to
   * the angle, and the old scale.
   */
  lemma StepReadBack(ops: seq<XformOp>, angle: int, offset: Vec3)
    ensures
      var e := Extract(ops, TypeRotateZYX);
      Extract(StepOps(ops, angle, offset), TypeRotateZYX) ==
        Extracted(Some(0), Some(1), Some(2),
                  e.position.Plus(offset), Vec3(e.rotation.x, angle as real, e.rotation.z), e.scale)
  {
    var e := Extract(ops, TypeRotateZYX);
    var n := StepOps(ops, angle, offset);
    assert n[0].opType == TypeTranslate && n[0].value == Stored(n[0].precision, e.position.Plus(offset));
    assert n[1].opType == TypeRotateZYX && n[1].value == Stored(n[1].precision, Vec3(e.rotation.x, angle as real, e.rotation.z));
    assert n[2].opType == TypeScale && n[2].value == Stored(n[2].precision, e.scale);
    assert n[..2] == [n[0], n[1]];
    assert n[..2][..1] == [n[0]];
    assert n[..2][..1][..0] == [];
    assert ValueOf(n[..2][..1], TypeTranslate, Zero) == e.position.Plus(offset);
    assert ValueOf(n[..2], TypeTranslate, Zero) == e.position.Plus(offset);
    assert ValueOf(n[..2], TypeRotateZYX, Zero) == Vec3(e.rotation.x, angle as real, e.rotation.z);
  }

  /** On an empty stack a step creates translate (double), rotateZYX (float) and scale (float). */
  lemma StepOnEmptyStack(angle: int, offset: Vec3)
    ensures StepOps([], angle, offset) == [
      XformOp(TypeTranslate, PrecisionDouble, Vec3d(offset)),
      XformOp(TypeRotateZYX, PrecisionFloat, Vec3f(Vec3(0.0, angle as real, 0.0))),
      XformOp(TypeScale, PrecisionFloat, Vec3f(One)) ]
  {
    assert Zero.Plus(offset) == offset;
  }

  /** Two steps add both offsets to the position and keep the last angle. */
  lemma TwoStepsAccumulate(ops: seq<XformOp>, a1: int, o1: Vec3, a2: int, o2: Vec3)
    ensures
      var e := Extract(ops, TypeRotateZYX);
      var e2 := Extract(StepOps(StepOps(ops, a1, o1), a2, o2), TypeRotateZYX);
      e2.position == e.position.Plus(o1).Plus(o2) &&
      e2.rotation == Vec3(e.rotation.x, a2 as real, e.rotation.z) &&
      e2.scale == e.scale
  {
    StepReadBack(ops, a1, o1);
    StepReadBack(StepOps(ops, a1, o1), a2, o2);
  }

  // ---------------------------------------------------------------------
  // The key loop

  /** Observable steps of the loop, in order. */
  datatype Event = WaitedForUpdates | Saved | Hint | Completed

  predicate IsQuitKey(k: char)
  {
    k == 'q' || k == 27 as char
  }

  /**
   * The op stack, the angle and the events after reading `keys` (ending at
   * the first quit key). Every key is followed by the pending-update wait
   * before it is dispatched.
   */
  function Session(d: Dialect, ops: seq<XformOp>, angle: int, keys: seq<char>, circle: int -> (real, real))
    : (seq<XformOp>, int, seq<Event>)
    decreases |keys|
  {
    if keys == [] then (ops, angle, [])
    else if keys[0] == 't' then
      var a := NextAngle(d, angle);
      var (o, a2, ev) := Session(d, StepOps(ops, a, Offset(circle, a)), a, keys[1..], circle);
      (o, a2, [WaitedForUpdates, Saved] + ev)
    else if IsQuitKey(keys[0]) then (ops, angle, [WaitedForUpdates, Completed])
    else
      var (o, a2, ev) := Session(d, ops, angle, keys[1..], circle);
      (o, a2, [WaitedForUpdates] + (if d == Python then [Hint] else []) + ev)
  }

  /** One unfolding of `Session` at the first key. */
  lemma SessionOfFirstKey(d: Dialect, ops: seq<XformOp>, angle: int, keys: seq<char>, circle: int -> (real, real))
    requires keys != []
    ensures keys[0] == 't' ==>
      var a := NextAngle(d, angle);
      var r := Session(d, StepOps(ops, a, Offset(circle, a)), a, keys[1..], circle);
      Session(d, ops, angle, keys, circle) == (r.0, r.1, [WaitedForUpdates, Saved] + r.2)
    ensures keys[0] != 't' && IsQuitKey(keys[0]) ==>
      Session(d, ops, angle, keys, circle) == (ops, angle, [WaitedForUpdates, Completed])
    ensures keys[0] != 't' && !IsQuitKey(keys[0]) ==>
      var r := Session(d, ops, angle, keys[1..], circle);
      Session(d, ops, angle, keys, circle) == (r.0, r.1, [WaitedForUpdates] + (if d == Python then [Hint] else []) + r.2)
  {
  }

  /**
   * `liveEdit`: waits once, then for each key waits again and dispatches.
   * The keyboard is the sequence `keys`; the loop also ends when it runs out.
   */
  method RunLiveEdit(x: Xformable, d: Dialect, keys: seq<char>, circle: int -> (real, real))
    returns (angle: int, events: seq<Event>)
    modifies x
    ensures var (o, a, ev) := Session(d, old(x.ops), 0, keys, circle);
      x.ops == o && angle == a && events == [WaitedForUpdates] + ev
  {
    angle := 0;
    events := [WaitedForUpdates];
    var i := 0;
    ghost var whole := Session(d, x.ops, 0, keys, circle);
    while i < |keys|
      invariant 0 <= i <= |keys|
      invariant whole.0 == Session(d, x.ops, angle, keys[i..], circle).0
      invariant whole.1 == Session(d, x.ops, angle, keys[i..], circle).1
      invariant [WaitedForUpdates] + whole.2 == events + Session(d, x.ops, angle, keys[i..], circle).2
    {
      assert keys[i..][1..] == keys[i + 1..];
      ghost var ops0 := x.ops;
      ghost var angle0 := angle;
      ghost var waited := events;
      ghost var cur := Session(d, ops0, angle0, keys[i..], circle);
      SessionOfFirstKey(d, ops0, angle0, keys[i..], circle);
      var key := keys[i];
      events := events + [WaitedForUpdates];
      if key == 't' {
        angle := NextAngle(d, angle);
        TransformStep(x, angle, Offset(circle, angle));
        ghost var rest := Session(d, x.ops, angle, keys[i + 1..], circle);
        assert cur == (rest.0, rest.1, [WaitedForUpdates, Saved] + rest.2);
        events := events + [Saved];
        assert events + rest.2 == waited + ([WaitedForUpdates, Saved] + rest.2);
      } else if IsQuitKey(key) {
        assert cur == (x.ops, angle, [WaitedForUpdates, Completed]);
        events := events + [Completed];
        assert events == waited + [WaitedForUpdates, Completed];
        return;
      } else {
        ghost var rest := Session(d, x.ops, angle, keys[i + 1..], circle);
        if d == Python {
          events := events + [Hint];
        }
        ghost var hint: seq<Event> := if d == Python then [Hint] else [];
        assert cur == (rest.0, rest.1, [WaitedForUpdates] + hint + rest.2);
        assert events + rest.2 == waited + ([WaitedForUpdates] + hint + rest.2);
      }
      i := i + 1;
    }
  }

  /** Keys other than 't' never change the stack or the angle. */
  lemma {:induction false} OtherKeysChangeNothing(d: Dialect, ops: seq<XformOp>, angle: int, keys: seq<char>, circle: int -> (real, real))
    requires forall k :: 0 <= k < |keys| ==> keys[k] != 't'
    ensures Session(d, ops, angle, keys, circle).0 == ops
    ensures Session(d, ops, angle, keys, circle).1 == angle
    decreases |keys|
  {
    if keys != [] && !IsQuitKey(keys[0]) {
      OtherKeysChangeNothing(d, ops, angle, keys[1..], circle);
    }
  }

  /** The keys read before the first quit key that are neither 't' nor a quit key. */
  function OtherKeysBeforeQuit(keys: seq<char>): nat
    decreases |keys|
  {
    if keys == [] || IsQuitKey(keys[0]) then 0
    else (if keys[0] == 't' then 0 else 1) + OtherKeysBeforeQuit(keys[1..])
  }

  /** The C++ loop prints nothing for other keys; the Python one prints a hint for each. */
  lemma {:induction false} HintsOnlyInPython(ops: seq<XformOp>, angle: int, keys: seq<char>, circle: int -> (real, real))
    ensures Hint !in Session(Cpp, ops, angle, keys, circle).2
    ensures Occurrences(Session(Python, ops, angle, keys, circle).2, Hint) == OtherKeysBeforeQuit(keys)
    decreases |keys|
  {
    if keys != [] {
      var rest := Session(Python, ops, angle, keys[1..], circle).2;
      if keys[0] == 't' {
        var c := NextAngle(Cpp, angle);
        HintsOnlyInPython(StepOps(ops, c, Offset(circle, c)), c, keys[1..], circle);
        var p := NextAngle(Python, angle);
        HintsOnlyInPython(StepOps(ops, p, Offset(circle, p)), p, keys[1..], circle);
        var restP := Session(Python, StepOps(ops, p, Offset(circle, p)), p, keys[1..], circle).2;
        OccurrencesAppend([WaitedForUpdates, Saved], restP, Hint);
        assert [WaitedForUpdates, Saved][1..] == [Saved];
        assert Occurrences([WaitedForUpdates, Saved], Hint) == 0;
      } else if IsQuitKey(keys[0]) {
        assert [WaitedForUpdates, Completed][1..] == [Completed];
        assert Occurrences([WaitedForUpdates, Completed], Hint) == 0;
      } else {
        HintsOnlyInPython(ops, angle, keys[1..], circle);
        OccurrencesAppend([WaitedForUpdates] + [Hint], rest, Hint);
        assert ([WaitedForUpdates] + [Hint])[1..] == [Hint];
        assert Occurrences([WaitedForUpdates] + [Hint], Hint) == 1;
        assert [WaitedForUpdates] + [] == [WaitedForUpdates];
      }
    }
  }

  /** Starting from a valid angle, the loop's angle stays valid. */
  lemma {:induction false} SessionAngleValid(d: Dialect, ops: seq<XformOp>, angle: int, keys: seq<char>, circle: int -> (real, real))
    requires ValidAngle(angle)
    ensures ValidAngle(Session(d, ops, angle, keys, circle).1)
    decreases |keys|
  {
    if keys != [] && !IsQuitKey(keys[0]) {
      var a := NextAngle(d, angle);
      NextAngleValid(d, angle);
      if keys[0] == 't' {
        SessionAngleValid(d, StepOps(ops, a, Offset(circle, a)), a, keys[1..], circle);
      } else {
        SessionAngleValid(d, ops, angle, keys[1..], circle);
      }
    }
  }

  /** How often an event occurs in a log. */
  function Occurrences(ev: seq<Event>, e: Event): nat
    decreases |ev|
  {
    if ev == [] then 0 else (if ev[0] == e then 1 else 0) + Occurrences(ev[1..], e)
  }

  lemma {:induction false} OccurrencesAppend(a: seq<Event>, b: seq<Event>, e: Event)
    ensures Occurrences(a + b, e) == Occurrences(a, e) + Occurrences(b, e)
    decreases |a|
  {
    if a == [] {
      assert a + b == b;
    } else {
      assert (a + b)[1..] == a[1..] + b;
      OccurrencesAppend(a[1..], b, e);
    }
  }

  /** Without a quit key, the loop waits for pending updates once per key. */
  lemma {:induction false} OneWaitPerKey(d: Dialect, ops: seq<XformOp>, angle: int, keys: seq<char>, circle: int -> (real, real))
    requires forall k :: 0 <= k < |keys| ==> !IsQuitKey(keys[k])
    ensures Occurrences(Session(d, ops, angle, keys, circle).2, WaitedForUpdates) == |keys|
    decreases |keys|
  {
    if keys != [] {
      var a := NextAngle(d, angle);
      var next := if keys[0] == 't' then StepOps(ops, a, Offset(circle, a)) else ops;
      var nextAngle := if keys[0] == 't' then a else angle;
      OneWaitPerKey(d, next, nextAngle, keys[1..], circle);
      var rest := Session(d, next, nextAngle, keys[1..], circle).2;
      if keys[0] == 't' {
        OccurrencesAppend([WaitedForUpdates, Saved], rest, WaitedForUpdates);
        assert Occurrences([WaitedForUpdates, Saved], WaitedForUpdates) == 1 by {
          assert [WaitedForUpdates, Saved][1..] == [Saved];
        }
      } else {
        var head := [WaitedForUpdates] + (if d == Python then [Hint] else []);
        OccurrencesAppend(head, rest, WaitedForUpdates);
        assert Occurrences(head, WaitedForUpdates) == 1 by {
          if d == Python { assert head[1..] == [Hint]; }
        }
      }
    }
  }
}
