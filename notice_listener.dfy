/**
 * The notice listener of the live connector (the implementation file): the
 * prim walk that fills an SDFormat link with spheres, the joint-state
 * table, and `Handle`, which creates models for resynced prims, drives the
 * revolute-joint publishers and sends the poses of moved models, found by
 * walking from a moved prim up through its visual and link.
 */
module NoticeListener {
  import opened Wrappers
  import opened Strings
  import opened XformOps
  import opened Maps

  // ---------------------------------------------------------------------
  // Prims and links

  datatype StageKind = SphereKind(radius: real) | CylinderKind | OtherKind

  /** A prim of the stage: name, validity, schema and children in order. */
  datatype StagePrim = StagePrim(name: string, valid: bool, kind: StageKind, children: seq<StagePrim>)

  /** A visual or collision of a link, with the radius of its sphere geometry. */
  datatype Shape = Shape(name: string, sphereRadius: real)

  datatype Link = Link(name: string, visuals: seq<Shape>, collisions: seq<Shape>)

  /** `IsA<UsdGeomSphere>`: an invalid prim is of no schema. */
  predicate IsSphere(p: StagePrim)
  {
    p.valid && p.kind.SphereKind?
  }

  /** Isaac Sim stores lengths in centimetres; the sphere radius is scaled to metres. */
  function SdfRadius(usdRadius: real): real
  {
    usdRadius * 0.01
  }

  /** `ParseSphere`: one visual "sphere_visual" and one collision "sphere_collision" with the same sphere. */
  function WithSphere(link: Link, usdRadius: real): (r: Link)
    ensures r.name == link.name
    ensures r.visuals == link.visuals + [Shape("sphere_visual", SdfRadius(usdRadius))]
    ensures r.collisions == link.collisions + [Shape("sphere_collision", SdfRadius(usdRadius))]
  {
    var radius := usdRadius * 0.01;
    link.(visuals := link.visuals + [Shape("sphere_visual", radius)],
          collisions := link.collisions + [Shape("sphere_collision", radius)])
  }

  /**
   * `ParsePrim`: a sphere is added and reported; a cylinder is parsed by a
   * writer that adds nothing, and reported as not handled, like every other prim.
   */
  method ParsePrim(p: StagePrim, link: Link) returns (handled: bool, r: Link)
    ensures handled <==> IsSphere(p)
    ensures r == if IsSphere(p) then WithSphere(link, p.kind.radius) else link
  {
    if IsSphere(p) {
      r := WithSphere(link, p.kind.radius);
      return true, r;
    } else if p.valid && p.kind.CylinderKind? {
      r := link;
    } else {
      r := link;
    }
    handled := false;
  }

  /**
   * The radii (as stored on the stage) of the spheres `CreateSDF` adds for a
   * prim: a sphere adds itself; otherwise the children are walked in order,
   * and the first sphere child is added and ends the walk of that prim.
   */
  function Added(p: StagePrim): seq<real>
    decreases p, 1
  {
    if !p.valid then []
    else if IsSphere(p) then [p.kind.radius]
    else AddedFromChildren(p, 0)
  }

  function AddedFromChildren(p: StagePrim, i: nat): seq<real>
    requires i <= |p.children|
    decreases p, 0, |p.children| - i
  {
    if i == |p.children| then []
    else if IsSphere(p.children[i]) then [p.children[i].kind.radius]
    else Added(p.children[i]) + AddedFromChildren(p, i + 1)
  }

  /** The link after adding the spheres of `radii` in order. */
  function WithSpheres(link: Link, radii: seq<real>): Link
    decreases |radii|
  {
    if radii == [] then link else WithSpheres(WithSphere(link, radii[0]), radii[1..])
  }

  lemma {:induction false} WithSpheresAppend(link: Link, a: seq<real>, b: seq<real>)
    ensures WithSpheres(link, a + b) == WithSpheres(WithSpheres(link, a), b)
    decreases |a|
  {
    if a == [] {
      assert a + b == b;
    } else {
      assert (a + b)[1..] == a[1..] + b;
      WithSpheresAppend(WithSphere(link, a[0]), a[1..], b);
    }
  }

  /** `CreateSDF`, recursive, with the early returns of the source. */
  method CreateSDF(link: Link, p: StagePrim) returns (r: Link)
    ensures r == WithSpheres(link, Added(p))
    decreases p
  {
    r := link;
    if !p.valid {
      return;
    }
    var handled;
    handled, r := ParsePrim(p, r);
    if handled {
      assert WithSpheres(link, [p.kind.radius]) == WithSpheres(WithSphere(link, p.kind.radius), []);
      return;
    }
    var i := 0;
    while i < |p.children|
      invariant 0 <= i <= |p.children|
      invariant WithSpheres(link, Added(p)) == WithSpheres(r, AddedFromChildren(p, i))
    {
      var c := p.children[i];
      var before := r;
      handled, r := ParsePrim(c, r);
      if handled {
        assert WithSpheres(before, [c.kind.radius]) == WithSpheres(WithSphere(before, c.kind.radius), []);
        return;
      }
      r := CreateSDF(r, c);
      WithSpheresAppend(before, Added(c), AddedFromChildren(p, i + 1));
      i := i + 1;
    }
  }

  /** Adding spheres keeps the link's name and adds one visual and one collision per sphere, with equal radii. */
  lemma {:induction false} WithSpheresShapes(link: Link, radii: seq<real>)
    ensures var r := WithSpheres(link, radii);
      r.name == link.name &&
      |r.visuals| == |link.visuals| + |radii| && |r.collisions| == |link.collisions| + |radii| &&
      r.visuals[..|link.visuals|] == link.visuals && r.collisions[..|link.collisions|] == link.collisions &&
      forall k :: 0 <= k < |radii| ==>
        r.visuals[|link.visuals| + k] == Shape("sphere_visual", SdfRadius(radii[k])) &&
        r.collisions[|link.collisions| + k] == Shape("sphere_collision", SdfRadius(radii[k]))
    decreases |radii|
  {
    if radii != [] {
      var next := WithSphere(link, radii[0]);
      WithSpheresShapes(next, radii[1..]);
      var r := WithSpheres(link, radii);
      assert r == WithSpheres(next, radii[1..]);
      forall k | 0 <= k < |radii|
        ensures r.visuals[|link.visuals| + k] == Shape("sphere_visual", SdfRadius(radii[k]))
        ensures r.collisions[|link.collisions| + k] == Shape("sphere_collision", SdfRadius(radii[k]))
      {
        if k > 0 {
          assert radii[1..][k - 1] == radii[k];
          assert |next.visuals| + (k - 1) == |link.visuals| + k;
          assert |next.collisions| + (k - 1) == |link.collisions| + k;
        }
      }
    }
  }

  /** The first sphere among a prim's children ends its walk: later children add nothing. */
  lemma SphereChildEndsWalk(p: StagePrim, i: nat)
    requires i < |p.children| && IsSphere(p.children[i])
    requires forall j :: 0 <= j < i ==> !IsSphere(p.children[j])
    ensures p.valid && !IsSphere(p) ==>
      Added(p) == AddedBefore(p, i) + [p.children[i].kind.radius]
  {
    if p.valid && !IsSphere(p) {
      AddedFromChildrenUpTo(p, 0, i);
    }
  }

  /** What the children before `i` add, none of them a sphere. */
  function AddedBefore(p: StagePrim, i: nat): seq<real>
    requires i <= |p.children|
    decreases i
  {
    if i == 0 then [] else AddedBefore(p, i - 1) + Added(p.children[i - 1])
  }

  lemma {:induction false} AddedFromChildrenUpTo(p: StagePrim, k: nat, i: nat)
    requires k <= i < |p.children| && IsSphere(p.children[i])
    requires forall j :: 0 <= j < i ==> !IsSphere(p.children[j])
    ensures AddedBefore(p, k) + AddedFromChildren(p, k) == AddedBefore(p, i) + [p.children[i].kind.radius]
    decreases i - k
  {
    if k < i {
      AddedFromChildrenUpTo(p, k + 1, i);
      assert AddedFromChildren(p, k) == Added(p.children[k]) + AddedFromChildren(p, k + 1);
      assert AddedBefore(p, k + 1) == AddedBefore(p, k) + Added(p.children[k]);
    }
  }

  /** Each added sphere is a valid sphere prim of the walked tree: nothing else ever adds a shape. */
  lemma {:induction false} AddedAreSpheres(p: StagePrim)
    ensures forall r :: r in Added(p) ==> exists q :: q in Spheres(p) && IsSphere(q) && q.kind.radius == r
    decreases p, 1
  {
    if p.valid && !IsSphere(p) {
      AddedFromChildrenAreSpheres(p, 0);
    }
  }

  /** All valid sphere prims of a tree (through valid prims). */
  function Spheres(p: StagePrim): seq<StagePrim>
    decreases p, 1
  {
    if !p.valid then []
    else (if IsSphere(p) then [p] else []) + SpheresOfChildren(p, 0)
  }

  function SpheresOfChildren(p: StagePrim, i: nat): seq<StagePrim>
    requires i <= |p.children|
    decreases p, 0, |p.children| - i
  {
    if i == |p.children| then [] else Spheres(p.children[i]) + SpheresOfChildren(p, i + 1)
  }

  lemma {:induction false} AddedFromChildrenAreSpheres(p: StagePrim, i: nat)
    requires p.valid && i <= |p.children|
    ensures forall r :: r in AddedFromChildren(p, i) ==> exists q :: q in Spheres(p) && IsSphere(q) && q.kind.radius == r
    decreases p, 0, |p.children| - i
  {
    if i < |p.children| {
      var c := p.children[i];
      SpheresOfChildrenContain(p, i);
      if IsSphere(c) {
        assert c in Spheres(c);
      } else {
        AddedAreSpheres(c);
        AddedFromChildrenAreSpheres(p, i + 1);
      }
    }
  }

  /** The spheres of child `i` are spheres of the prim. */
  lemma SpheresOfChildrenContain(p: StagePrim, i: nat)
    requires p.valid && i < |p.children|
    ensures forall q :: q in Spheres(p.children[i]) ==> q in Spheres(p)
  {
    ChildSpheresInSuffix(p, i, 0);
  }

  lemma {:induction false} ChildSpheresInSuffix(p: StagePrim, i: nat, k: nat)
    requires k <= i < |p.children|
    ensures forall q :: q in Spheres(p.children[i]) ==> q in SpheresOfChildren(p, k)
    decreases i - k
  {
    if k < i {
      ChildSpheresInSuffix(p, i, k + 1);
    }
  }

  // ---------------------------------------------------------------------
  // The ancestor walk of a translate change

  /** A prim on the way up from a moved prim: its name and its ordered ops. */
  datatype ChainPrim = ChainPrim(name: string, ops: seq<XformOp>)

  /**
   * The prim `k` steps above the moved one. Above the given chain the walk
   * meets prims without a name or ops (the pseudo-root and invalid prims).
   */
  function Up(chain: seq<ChainPrim>, k: nat): ChainPrim
  {
    if k < |chain| then chain[k] else ChainPrim("", [])
  }

  /**
   * The suffix test of the walk: the last |t| characters of the name hold
   * `t`, and the name is long enough to have them.
   */
  predicate EndsWith(name: string, t: string)
  {
    HasSuffix(name, t)
  }

  /** The first step of the walk: over a prim named "geometry". */
  function OverGeometry(chain: seq<ChainPrim>): nat
  {
    if Up(chain, 0).name == "geometry" then 1 else 0
  }

  /** The step over a prim whose name ends in `suffix`, from prim `k`. */
  function Over(chain: seq<ChainPrim>, k: nat, suffix: string): nat
  {
    if EndsWith(Up(chain, k).name, suffix) then k + 1 else k
  }

  /** How many steps the walk climbs: over "geometry", then over a `_visual`, then over a `_link`. */
  function Climb(chain: seq<ChainPrim>): (steps: nat)
    ensures steps <= 3
  {
    Over(chain, Over(chain, OverGeometry(chain), "_visual"), "_link")
  }

  /** The translations of the prims from the moved one up to `k`, added. */
  function PositionSum(chain: seq<ChainPrim>, k: nat): Vec3
  {
    var here := Extract(Up(chain, k).ops, GetOpRotation).position;
    if k == 0 then here else PositionSum(chain, k - 1).Plus(here)
  }

  /** The XYZ rotations of the prims from the moved one up to `k`, in the order they are composed. */
  function Rotations(chain: seq<ChainPrim>, k: nat): (r: seq<Vec3>)
    ensures |r| == k + 1
  {
    var here := Extract(Up(chain, k).ops, GetOpRotation).rotation;
    if k == 0 then [here] else Rotations(chain, k - 1) + [here]
  }

  /** A pose of the set_pose_vector request (the quaternion is kept as the rotations it composes). */
  datatype Pose = Pose(name: string, position: Vec3, rotations: seq<Vec3>)

  /** The pose a translate change sends, or `None` when the walk ends on a link or visual. */
  function AncestorPose(chain: seq<ChainPrim>): Option<Pose>
  {
    var k := Climb(chain);
    var name := Up(chain, k).name;
    if Contains(name, "_link") || Contains(name, "_visual") then None
    else Some(Pose(name, PositionSum(chain, k), Rotations(chain, k)))
  }

  /** The walk as the source writes it: a current prim that moves up, accumulating the translations. */
  method WalkUp(chain: seq<ChainPrim>) returns (pose: Option<Pose>)
    ensures pose == AncestorPose(chain)
  {
    var current := 0;
    var position := Extract(Up(chain, 0).ops, GetOpRotation).position;
    var rotations := [Extract(Up(chain, 0).ops, GetOpRotation).rotation];
    if Up(chain, current).name == "geometry" {
      StepUp(chain, current, position, rotations);
      var visualOp := Extract(Up(chain, current + 1).ops, GetOpRotation);
      position := position.Plus(visualOp.position);
      rotations := rotations + [visualOp.rotation];
      current := current + 1;
    }
    assert Step(chain, current, position, rotations) && current == OverGeometry(chain);
    if EndsWith(Up(chain, current).name, "_visual") {
      StepUp(chain, current, position, rotations);
      var linkOp := Extract(Up(chain, current + 1).ops, GetOpRotation);
      position := position.Plus(linkOp.position);
      rotations := rotations + [linkOp.rotation];
      current := current + 1;
    }
    assert Step(chain, current, position, rotations) && current == Over(chain, OverGeometry(chain), "_visual");
    if EndsWith(Up(chain, current).name, "_link") {
      StepUp(chain, current, position, rotations);
      var modelOp := Extract(Up(chain, current + 1).ops, GetOpRotation);
      position := position.Plus(modelOp.position);
      rotations := rotations + [modelOp.rotation];
      current := current + 1;
    }
    assert Step(chain, current, position, rotations) && current == Climb(chain);
    var name := Up(chain, current).name;
    if Contains(name, "_link") || Contains(name, "_visual") {
      return None;
    }
    pose := Some(Pose(name, position, rotations));
  }

  /** The walk's accumulated translation and rotations after it reached prim `k`. */
  predicate Step(chain: seq<ChainPrim>, k: nat, position: Vec3, rotations: seq<Vec3>)
  {
    position == PositionSum(chain, k) && rotations == Rotations(chain, k)
  }

  /** One step up adds the parent's translation and rotation. */
  lemma StepUp(chain: seq<ChainPrim>, k: nat, position: Vec3, rotations: seq<Vec3>)
    requires Step(chain, k, position, rotations)
    ensures var e := Extract(Up(chain, k + 1).ops, GetOpRotation);
      Step(chain, k + 1, position.Plus(e.position), rotations + [e.rotation])
  {
  }

  /**
   * A geometry under `<m>_visual` under `<m>_link` under a model reports the
   * model, at the sum of the four translations.
   */
  lemma GeometryReportsModel(chain: seq<ChainPrim>, v: string, l: string)
    requires |chain| >= 4 && chain[0].name == "geometry"
    requires chain[1].name == v + "_visual" && chain[2].name == l + "_link"
    requires !Contains(chain[3].name, "_link") && !Contains(chain[3].name, "_visual")
    ensures AncestorPose(chain) == Some(Pose(chain[3].name,
      Extract(chain[0].ops, GetOpRotation).position.Plus(Extract(chain[1].ops, GetOpRotation).position)
        .Plus(Extract(chain[2].ops, GetOpRotation).position).Plus(Extract(chain[3].ops, GetOpRotation).position),
      Rotations(chain, 3)))
  {
    assert HasSuffix(chain[1].name, "_visual") by {
      assert chain[1].name[|chain[1].name| - 7..] == "_visual";
    }
    assert HasSuffix(chain[2].name, "_link") by {
      assert chain[2].name[|chain[2].name| - 5..] == "_link";
    }
    assert Up(chain, 0).name == "geometry";
    assert Climb(chain) == 3;
    var e0 := Extract(chain[0].ops, GetOpRotation).position;
    var e1 := Extract(chain[1].ops, GetOpRotation).position;
    var e2 := Extract(chain[2].ops, GetOpRotation).position;
    assert PositionSum(chain, 1) == e0.Plus(e1);
    assert PositionSum(chain, 2) == e0.Plus(e1).Plus(e2);
  }

  /** A pose is only ever sent for a prim whose name holds neither "_link" nor "_visual", and it is where the walk ended. */
  lemma PoseNamesNoPart(chain: seq<ChainPrim>)
    ensures AncestorPose(chain).Some? <==>
      !Contains(Up(chain, Climb(chain)).name, "_link") && !Contains(Up(chain, Climb(chain)).name, "_visual")
    ensures AncestorPose(chain).Some? ==>
      AncestorPose(chain).value.name == Up(chain, Climb(chain)).name &&
      |AncestorPose(chain).value.rotations| == Climb(chain) + 1
  {
  }

  /** A moved prim that is neither a geometry nor a visual nor a link reports itself, with its own translation. */
  lemma PlainPrimReportsItself(chain: seq<ChainPrim>)
    requires chain != [] && chain[0].name != "geometry"
    requires !Contains(chain[0].name, "_link") && !Contains(chain[0].name, "_visual")
    ensures AncestorPose(chain) == Some(Pose(chain[0].name, Extract(chain[0].ops, GetOpRotation).position,
      [Extract(chain[0].ops, GetOpRotation).rotation]))
  {
    var n := chain[0].name;
    if HasSuffix(n, "_visual") {
      assert n == n[..|n| - 7] + "_visual" + "";
      ContainsInfix(n[..|n| - 7], "_visual", "");
    }
    if HasSuffix(n, "_link") {
      assert n == n[..|n| - 5] + "_link" + "";
      ContainsInfix(n[..|n| - 5], "_link", "");
    }
    assert Climb(chain) == 0;
  }

  // ---------------------------------------------------------------------
  // Joint states

  /** A joint of a joint-state message: its name and the position of its first axis. */
  datatype JointMsg = JointMsg(name: string, position: real)

  /** The table entries a joint-state message assigns, in message order. */
  function JointEntries(joints: seq<JointMsg>): (entries: seq<(string, real)>)
    ensures |entries| == |joints|
    ensures forall i :: 0 <= i < |joints| ==> entries[i] == (joints[i].name, joints[i].position)
  {
    seq(|joints|, i requires 0 <= i < |joints| => (joints[i].name, joints[i].position))
  }

  // ---------------------------------------------------------------------
  // Revolute-joint publishers

  /** The command topic of a revolute joint; `asValidTopic` stands for the transport library's topic cleaning. */
  function JointTopic(asValidTopic: string -> string, jointName: string): string
  {
    asValidTopic("/model/" + "panda" + "/joint/" + jointName + "/0/cmd_pos")
  }

  /** What one revolute joint leads to: a publisher advertised, or a position published. */
  datatype JointOut = Advertise(topic: string) | Publish(topic: string, position: real)

  /**
   * The revolute joints of the stage, in order, from `i` on: the first
   * sighting of a topic only advertises it; later sightings publish the
   * stored position, where the table lookup inserts 0 for an unknown joint.
   * The result is the publishers, the table and the outputs.
   */
  function JointPass(asValidTopic: string -> string, names: seq<string>, i: nat,
                     pubs: set<string>, states: map<string, real>): (set<string>, map<string, real>, seq<JointOut>)
    requires i <= |names|
    decreases |names| - i
  {
    if i == |names| then (pubs, states, [])
    else
      var topic := JointTopic(asValidTopic, names[i]);
      if topic !in pubs then
        var rest := JointPass(asValidTopic, names, i + 1, pubs + {topic}, states);
        (rest.0, rest.1, [Advertise(topic)] + rest.2)
      else
        var position := if names[i] in states then states[names[i]] else 0.0;
        var rest := JointPass(asValidTopic, names, i + 1, pubs, states[names[i] := position]);
        (rest.0, rest.1, [Publish(topic, position)] + rest.2)
  }

  /** One output per joint, on that joint's topic; afterwards every joint's topic has a publisher. */
  lemma {:induction false} JointPassTopics(asValidTopic: string -> string, names: seq<string>, i: nat,
                                           pubs: set<string>, states: map<string, real>)
    requires i <= |names|
    ensures var (pubs', _, outs) := JointPass(asValidTopic, names, i, pubs, states);
      |outs| == |names| - i &&
      (forall k :: 0 <= k < |outs| ==> outs[k].topic == JointTopic(asValidTopic, names[i + k])) &&
      pubs <= pubs' &&
      forall k :: i <= k < |names| ==> JointTopic(asValidTopic, names[k]) in pubs'
    decreases |names| - i
  {
    if i < |names| {
      var topic := JointTopic(asValidTopic, names[i]);
      if topic !in pubs {
        JointPassTopics(asValidTopic, names, i + 1, pubs + {topic}, states);
      } else {
        var position := if names[i] in states then states[names[i]] else 0.0;
        JointPassTopics(asValidTopic, names, i + 1, pubs, states[names[i] := position]);
      }
    }
  }

  /** The outputs of a pass. */
  function Outputs(asValidTopic: string -> string, names: seq<string>, i: nat,
                   pubs: set<string>, states: map<string, real>): seq<JointOut>
    requires i <= |names|
  {
    JointPass(asValidTopic, names, i, pubs, states).2
  }

  /** A topic is advertised only if it had no publisher, and at most once in a pass. */
  lemma {:induction false} AdvertisedOnce(asValidTopic: string -> string, names: seq<string>, i: nat,
                                          pubs: set<string>, states: map<string, real>)
    requires i <= |names|
    ensures forall k :: (0 <= k < |Outputs(asValidTopic, names, i, pubs, states)| &&
                         Outputs(asValidTopic, names, i, pubs, states)[k].Advertise?) ==>
        Outputs(asValidTopic, names, i, pubs, states)[k].topic !in pubs
    ensures forall j, k :: (0 <= j < k < |Outputs(asValidTopic, names, i, pubs, states)| &&
                            Outputs(asValidTopic, names, i, pubs, states)[k].Advertise?) ==>
        Outputs(asValidTopic, names, i, pubs, states)[j].topic != Outputs(asValidTopic, names, i, pubs, states)[k].topic
    decreases |names| - i
  {
    if i < |names| {
      var topic := JointTopic(asValidTopic, names[i]);
      var outs := Outputs(asValidTopic, names, i, pubs, states);
      var pubs', states' := pubs, states;
      if topic !in pubs {
        pubs' := pubs + {topic};
      } else {
        states' := states[names[i] := if names[i] in states then states[names[i]] else 0.0];
      }
      var rest := Outputs(asValidTopic, names, i + 1, pubs', states');
      AdvertisedOnce(asValidTopic, names, i + 1, pubs', states');
      assert outs[1..] == rest;
      assert outs[0].topic == topic && topic in pubs' && pubs' - {topic} <= pubs;
      forall k | 0 <= k < |outs| && outs[k].Advertise?
        ensures outs[k].topic !in pubs
      {
        if k > 0 {
          assert outs[k] == rest[k - 1];
        }
      }
      forall j, k | 0 <= j < k < |outs| && outs[k].Advertise?
        ensures outs[j].topic != outs[k].topic
      {
        assert outs[k] == rest[k - 1];
        if j > 0 {
          assert outs[j] == rest[j - 1];
        }
      }
    }
  }

  /** A position is published only on a topic that had a publisher or was advertised earlier in the pass. */
  lemma {:induction false} PublishedAfterAdvertise(asValidTopic: string -> string, names: seq<string>, i: nat,
                                                   pubs: set<string>, states: map<string, real>)
    requires i <= |names|
    ensures forall k :: (0 <= k < |Outputs(asValidTopic, names, i, pubs, states)| &&
                         Outputs(asValidTopic, names, i, pubs, states)[k].Publish?) ==>
        Outputs(asValidTopic, names, i, pubs, states)[k].topic in pubs ||
        exists j :: 0 <= j < k && Outputs(asValidTopic, names, i, pubs, states)[j] ==
          Advertise(Outputs(asValidTopic, names, i, pubs, states)[k].topic)
    decreases |names| - i
  {
    if i < |names| {
      var topic := JointTopic(asValidTopic, names[i]);
      var outs := Outputs(asValidTopic, names, i, pubs, states);
      var pubs', states' := pubs, states;
      if topic !in pubs {
        pubs' := pubs + {topic};
      } else {
        states' := states[names[i] := if names[i] in states then states[names[i]] else 0.0];
      }
      var rest := Outputs(asValidTopic, names, i + 1, pubs', states');
      PublishedAfterAdvertise(asValidTopic, names, i + 1, pubs', states');
      assert outs[1..] == rest;
      assert pubs' - {topic} <= pubs && (topic !in pubs ==> outs[0] == Advertise(topic));
      forall k | 0 <= k < |outs| && outs[k].Publish?
        ensures outs[k].topic in pubs || exists j :: 0 <= j < k && outs[j] == Advertise(outs[k].topic)
      {
        if k > 0 {
          assert outs[k] == rest[k - 1];
          if outs[k].topic !in pubs {
            if outs[k].topic == topic {
              assert outs[0] == Advertise(outs[k].topic);
            } else {
              var j :| 0 <= j < k - 1 && rest[j] == Advertise(outs[k].topic);
              assert outs[j + 1] == Advertise(outs[k].topic);
            }
          }
        }
      }
    }
  }

  // ---------------------------------------------------------------------
  // Handling a change notice

  /** Which simulator the poses are sent to (only Isaac Sim gets pose vectors). */
  datatype Simulator = IsaacSim | OtherSimulator

  /** A changed-info-only path: its text, the base name of its property and the prims from its owner up. */
  datatype Changed = Changed(path: string, baseName: string, chain: seq<ChainPrim>)

  /** A request of the handler: a model to create, or a pose vector to set. */
  datatype Request =
    | CreateModel(service: string, name: string, link: Link)
    | SetPoseVector(service: string, poses: seq<Pose>)

  /** Resynced prims whose names mention ROS or the physics scene are passed over. */
  predicate Skipped(name: string)
  {
    Contains(name, "ROS_") || Contains(name, "PhysicsScene")
  }

  /** The creation a resynced prim leads to: a model of the prim's name with one link built from the prim. */
  function CreationOf(world: string, p: StagePrim): Request
  {
    CreateModel("/world/" + world + "/create", p.name, WithSpheres(Link(p.name, [], []), Added(p)))
  }

  /** The creations of the resynced prims, in order: one per valid prim that is not passed over. */
  function Creations(world: string, rs: seq<StagePrim>): seq<Request>
  {
    if rs == [] then []
    else
      var p := rs[|rs| - 1];
      Creations(world, rs[..|rs| - 1]) + (if !Skipped(p.name) && p.valid then [CreationOf(world, p)] else [])
  }

  /** The pose a changed path contributes: only translate changes, never the root path. */
  function PoseOf(c: Changed): seq<Pose>
  {
    if c.path != "/" && c.baseName == "translate" && AncestorPose(c.chain).Some? then [AncestorPose(c.chain).value]
    else []
  }

  /** The poses of the changed paths, in order. */
  function ChangedPoses(cs: seq<Changed>): seq<Pose>
  {
    if cs == [] then [] else ChangedPoses(cs[..|cs| - 1]) + PoseOf(cs[|cs| - 1])
  }

  /** The pose-vector request: sent only when there is at least one pose. */
  function PoseVectorRequests(world: string, poses: seq<Pose>): seq<Request>
  {
    if |poses| > 0 then [SetPoseVector("/world/" + world + "/set_pose_vector", poses)] else []
  }

  /**
   * The creations are exactly those of the valid prims not passed over: each
   * creation is that of such a prim, and each such prim is created.
   */
  lemma {:induction false} CreationsAreAdmittedPrims(world: string, rs: seq<StagePrim>)
    ensures forall q :: q in Creations(world, rs) ==>
      exists j :: 0 <= j < |rs| && rs[j].valid && !Skipped(rs[j].name) && q == CreationOf(world, rs[j])
    ensures forall j :: 0 <= j < |rs| && rs[j].valid && !Skipped(rs[j].name) ==> CreationOf(world, rs[j]) in Creations(world, rs)
  {
    if rs != [] {
      var init := rs[..|rs| - 1];
      var p := rs[|rs| - 1];
      CreationsAreAdmittedPrims(world, init);
      var cr := Creations(world, rs);
      var ci := Creations(world, init);
      assert cr[..|ci|] == ci;
      assert init + [p] == rs;
      forall q | q in cr
        ensures exists j :: 0 <= j < |rs| && rs[j].valid && !Skipped(rs[j].name) && q == CreationOf(world, rs[j])
      {
        var k :| 0 <= k < |cr| && cr[k] == q;
        if k < |ci| {
          assert q in ci;
          var j :| 0 <= j < |init| && init[j].valid && !Skipped(init[j].name) && q == CreationOf(world, init[j]);
          assert rs[j] == init[j];
        } else {
          assert cr[k] == CreationOf(world, rs[|rs| - 1]);
        }
      }
      forall j | 0 <= j < |rs| && rs[j].valid && !Skipped(rs[j].name)
        ensures CreationOf(world, rs[j]) in cr
      {
        if j < |init| {
          assert rs[j] == init[j];
          assert CreationOf(world, init[j]) in ci;
        } else {
          assert cr[|cr| - 1] == CreationOf(world, p);
        }
      }
    }
  }

  /** Every created model carries its prim's name, and its link holds only spheres of that prim's subtree. */
  lemma CreatedLinkIsTheSpheres(world: string, p: StagePrim)
    requires p.valid && !Skipped(p.name)
    ensures var c := CreationOf(world, p);
      c.name == p.name && c.link.name == p.name && |c.link.visuals| == |c.link.collisions| == |Added(p)| &&
      forall r :: r in Added(p) ==> exists q :: q in Spheres(p) && IsSphere(q) && q.kind.radius == r
  {
    WithSpheresShapes(Link(p.name, [], []), Added(p));
    AddedAreSpheres(p);
  }

  /**
   * The poses are exactly those of the translate changes off the root path
   * whose walk ends on a model: each pose is one of those, and each of those
   * is sent.
   */
  lemma {:induction false} ChangedPosesAreTranslates(cs: seq<Changed>)
    ensures forall pose :: pose in ChangedPoses(cs) ==>
      exists j :: 0 <= j < |cs| && cs[j].path != "/" && cs[j].baseName == "translate" &&
        AncestorPose(cs[j].chain) == Some(pose)
    ensures forall j :: (0 <= j < |cs| && cs[j].path != "/" && cs[j].baseName == "translate" &&
                         AncestorPose(cs[j].chain).Some?) ==> AncestorPose(cs[j].chain).value in ChangedPoses(cs)
  {
    if cs != [] {
      var init := cs[..|cs| - 1];
      var c := cs[|cs| - 1];
      ChangedPosesAreTranslates(init);
      var ps := ChangedPoses(cs);
      var pi := ChangedPoses(init);
      assert ps[..|pi|] == pi;
      assert init + [c] == cs;
      forall pose | pose in ps
        ensures exists j :: (0 <= j < |cs| && cs[j].path != "/" && cs[j].baseName == "translate" &&
                             AncestorPose(cs[j].chain) == Some(pose))
      {
        var k :| 0 <= k < |ps| && ps[k] == pose;
        if k < |pi| {
          assert pose in pi;
          var j :| 0 <= j < |init| && init[j].path != "/" && init[j].baseName == "translate" &&
            AncestorPose(init[j].chain) == Some(pose);
          assert cs[j] == init[j];
        } else {
          assert ps[k] == AncestorPose(c.chain).value;
        }
      }
      forall j | 0 <= j < |cs| && cs[j].path != "/" && cs[j].baseName == "translate" && AncestorPose(cs[j].chain).Some?
        ensures AncestorPose(cs[j].chain).value in ps
      {
        if j < |init| {
          assert cs[j] == init[j];
          assert AncestorPose(init[j].chain).value in pi;
        } else {
          assert ps[|ps| - 1] == AncestorPose(c.chain).value;
        }
      }
    }
  }

  /** A pose vector is requested exactly when some translate change off the root path reaches a model. */
  lemma PoseVectorSentIff(world: string, cs: seq<Changed>)
    ensures |PoseVectorRequests(world, ChangedPoses(cs))| == 1 <==>
      exists j :: 0 <= j < |cs| && cs[j].path != "/" && cs[j].baseName == "translate" && AncestorPose(cs[j].chain).Some?
    ensures |PoseVectorRequests(world, ChangedPoses(cs))| <= 1
  {
    ChangedPosesAreTranslates(cs);
    if |ChangedPoses(cs)| > 0 {
      assert ChangedPoses(cs)[0] in ChangedPoses(cs);
    }
    if exists j :: 0 <= j < |cs| && cs[j].path != "/" && cs[j].baseName == "translate" && AncestorPose(cs[j].chain).Some? {
      var j :| 0 <= j < |cs| && cs[j].path != "/" && cs[j].baseName == "translate" && AncestorPose(cs[j].chain).Some?;
      assert AncestorPose(cs[j].chain).value in ChangedPoses(cs);
    }
  }

  /**
   * The listener's own state: the joint positions last received on
   * "/joint_states" and the topics of the revolute-joint publishers.
   */
  class Listener {
    const worldName: string
    const simulatorPoses: Simulator
    var jointStateMap: map<string, real>
    var revoluteJointPublisher: set<string>

    /** A listener of a world, with no joint positions and no publishers yet. */
    constructor (worldName: string, simulatorPoses: Simulator)
      ensures this.worldName == worldName && this.simulatorPoses == simulatorPoses
      ensures jointStateMap == map[] && revoluteJointPublisher == {}
    {
      this.worldName := worldName;
      this.simulatorPoses := simulatorPoses;
      jointStateMap := map[];
      revoluteJointPublisher := {};
    }

    /** `jointStateCb`: each joint of the message stores its first axis position, in message order. */
    method JointStateCb(joints: seq<JointMsg>)
      modifies this
      ensures jointStateMap == Upserted(old(jointStateMap), JointEntries(joints))
      ensures revoluteJointPublisher == old(revoluteJointPublisher)
    {
      ghost var entries := JointEntries(joints);
      var i := 0;
      while i < |joints|
        invariant 0 <= i <= |joints|
        invariant jointStateMap == Upserted(old(jointStateMap), entries[..i])
        invariant revoluteJointPublisher == old(revoluteJointPublisher)
      {
        assert entries[..i + 1][..i] == entries[..i];
        jointStateMap := jointStateMap[joints[i].name := joints[i].position];
        i := i + 1;
      }
      assert entries[..i] == entries;
    }

    /**
     * `Handle` of an objects-changed notice: the creations of the resynced
     * prims, then, for Isaac Sim only, the revolute-joint pass over the
     * stage's revolute joints and the pose vector of the changed paths.
     */
    method Handle(resynced: seq<StagePrim>, revoluteJoints: seq<string>, changed: seq<Changed>,
                  asValidTopic: string -> string)
      returns (requests: seq<Request>, jointOuts: seq<JointOut>)
      modifies this
      ensures simulatorPoses != IsaacSim ==>
        requests == Creations(worldName, resynced) && jointOuts == [] &&
        jointStateMap == old(jointStateMap) && revoluteJointPublisher == old(revoluteJointPublisher)
      ensures simulatorPoses == IsaacSim ==>
        var pass := JointPass(asValidTopic, revoluteJoints, 0, old(revoluteJointPublisher), old(jointStateMap));
        requests == Creations(worldName, resynced) + PoseVectorRequests(worldName, ChangedPoses(changed)) &&
        jointOuts == pass.2 && revoluteJointPublisher == pass.0 && jointStateMap == pass.1
    {
      requests := CreateResynced(worldName, resynced);
      jointOuts := [];
      if simulatorPoses != IsaacSim {
        return;
      }
      jointOuts := RevoluteJointPass(revoluteJoints, asValidTopic);
      var poses := ChangedPosesOf(changed);
      if |poses| > 0 {
        requests := requests + [SetPoseVector("/world/" + worldName + "/set_pose_vector", poses)];
      }
    }

    /**
     * The revolute-joint pass: a joint whose topic has no publisher gets one
     * advertised; otherwise its stored position (0 when unknown, and then
     * stored) is published.
     */
    method RevoluteJointPass(revoluteJoints: seq<string>, asValidTopic: string -> string)
      returns (jointOuts: seq<JointOut>)
      modifies this
      ensures var pass := JointPass(asValidTopic, revoluteJoints, 0, old(revoluteJointPublisher), old(jointStateMap));
        jointOuts == pass.2 && revoluteJointPublisher == pass.0 && jointStateMap == pass.1
    {
      jointOuts := [];
      ghost var all := JointPass(asValidTopic, revoluteJoints, 0, revoluteJointPublisher, jointStateMap);
      assert [] + all.2 == all.2;
      var i := 0;
      while i < |revoluteJoints|
        invariant 0 <= i <= |revoluteJoints|
        invariant all == JointPass(asValidTopic, revoluteJoints, 0, old(revoluteJointPublisher), old(jointStateMap))
        invariant var rest := JointPass(asValidTopic, revoluteJoints, i, revoluteJointPublisher, jointStateMap);
          all.0 == rest.0 && all.1 == rest.1 && all.2 == jointOuts + rest.2
      {
        ghost var before := JointPass(asValidTopic, revoluteJoints, i, revoluteJointPublisher, jointStateMap);
        var topic := JointTopic(asValidTopic, revoluteJoints[i]);
        var out;
        if topic !in revoluteJointPublisher {
          revoluteJointPublisher := revoluteJointPublisher + {topic};
          out := Advertise(topic);
        } else {
          var position := if revoluteJoints[i] in jointStateMap then jointStateMap[revoluteJoints[i]] else 0.0;
          jointStateMap := jointStateMap[revoluteJoints[i] := position];
          out := Publish(topic, position);
        }
        ghost var after := JointPass(asValidTopic, revoluteJoints, i + 1, revoluteJointPublisher, jointStateMap);
        assert before == (after.0, after.1, [out] + after.2);
        assert jointOuts + ([out] + after.2) == (jointOuts + [out]) + after.2;
        jointOuts := jointOuts + [out];
        i := i + 1;
      }
    }
  }

  /** The resync loop of `Handle`: a create request per valid resynced prim that is not passed over. */
  method CreateResynced(world: string, resynced: seq<StagePrim>) returns (requests: seq<Request>)
    ensures requests == Creations(world, resynced)
  {
    requests := [];
    var i := 0;
    while i < |resynced|
      invariant 0 <= i <= |resynced|
      invariant requests == Creations(world, resynced[..i])
    {
      var prim := resynced[i];
      assert resynced[..i + 1][..i] == resynced[..i];
      if !(Contains(prim.name, "ROS_") || Contains(prim.name, "PhysicsScene")) && prim.valid {
        var link := CreateSDF(Link(prim.name, [], []), prim);
        requests := requests + [CreateModel("/world/" + world + "/create", prim.name, link)];
      }
      i := i + 1;
    }
    assert resynced[..i] == resynced;
  }

  /** The changed-path loop of `Handle`: the root path is skipped, and a translate change sends its walk's pose. */
  method ChangedPosesOf(changed: seq<Changed>) returns (poses: seq<Pose>)
    ensures poses == ChangedPoses(changed)
  {
    poses := [];
    var i := 0;
    while i < |changed|
      invariant 0 <= i <= |changed|
      invariant poses == ChangedPoses(changed[..i])
    {
      var c := changed[i];
      assert changed[..i + 1][..i] == changed[..i];
      if c.path != "/" && c.baseName == "translate" {
        var pose := WalkUp(c.chain);
        if pose.Some? {
          poses := poses + [pose.value];
        }
      }
      i := i + 1;
    }
    assert changed[..i] == changed;
  }
}
