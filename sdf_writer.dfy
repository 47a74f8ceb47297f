/**
 * The USD to SDFormat direction of the header-only notice listener: the
 * `Parse*` writers and the recursive `CreateSDF`, which only ever append to
 * an SDFormat 1.7 document, and `Handle`, which turns resynced prims into
 * create requests and changed `translate` properties into set_pose requests.
 *
 * Numbers reach the document through `std::to_string`; a prim therefore
 * carries its attributes as the text that call produces.
 */
module SdfWriter {
  import opened Wrappers
  import opened Strings
  import opened XformOps

  // ---------------------------------------------------------------------
  // Prims

  /** The schema a prim is, with the attributes the writers read (as text). */
  datatype PrimKind =
    | SphereKind(radius: string)
    | CylinderKind(radius: string, height: string)
    | CubeKind(size: string)
    | OtherKind

  /** A prim: its name (the last element of its path), whether it is valid, its schema and its children in order. */
  datatype Prim = Prim(name: string, valid: bool, kind: PrimKind, children: seq<Prim>)

  // ---------------------------------------------------------------------
  // The text of one shape

  /**
   * The document is kept as the pieces appended to it, one per `+=`; its
   * text is their concatenation.
   */
  type Pieces = seq<string>

  function Text(pieces: Pieces): string
  {
    if pieces == [] then "" else pieces[0] + Text(pieces[1..])
  }

  lemma {:induction false} TextAppend(a: Pieces, b: Pieces)
    ensures Text(a + b) == Text(a) + Text(b)
  {
    if a == [] {
      assert a + b == b;
    } else {
      assert (a + b)[1..] == a[1..] + b;
      TextAppend(a[1..], b);
    }
  }

  function VisualOpen(name: string): string
  {
    "\t\t\t<visual name='" + name + "_visual'>\n"
  }

  function CollisionOpen(name: string): string
  {
    "\t\t\t<collision name='" + name + "_collision'>\n"
  }

  const VisualClose: string := "\t\t\t</visual>\n"

  const CollisionClose: string := "\t\t\t</collision>\n"

  /** One visual, then one collision, both around the same geometry pieces. */
  function ShapePieces(name: string, geometry: Pieces): Pieces
  {
    [VisualOpen(name)] + geometry + [VisualClose, CollisionOpen(name)] + geometry + [CollisionClose]
  }

  function RadiusLine(radius: string): string
  {
    "\t\t\t\t\t\t<radius>" + radius + "</radius>\n"
  }

  function HeightLine(height: string): string
  {
    "\t\t\t\t\t\t<height>" + height + "</height>\n"
  }

  /** The box size: the single cube size as all three dimensions. */
  function SizeLine(size: string): string
  {
    "\t\t\t\t\t\t<size>" + size + " " + size + " " + size + "</size>\n"
  }

  function BoxGeometry(size: string): Pieces
  {
    ["\t\t\t\t<geometry>\n", "\t\t\t\t\t<box>\n", SizeLine(size), "\t\t\t\t\t</box>\n", "\t\t\t\t</geometry>\n"]
  }

  function CylinderGeometry(radius: string, height: string): Pieces
  {
    ["\t\t\t\t<geometry>\n", "\t\t\t\t\t<cylinder>\n", RadiusLine(radius), HeightLine(height),
     "\t\t\t\t\t</cylinder>\n", "\t\t\t\t</geometry>\n"]
  }

  function SphereGeometry(radius: string): Pieces
  {
    ["\t\t\t\t<geometry>\n", "\t\t\t\t\t<sphere>\n", RadiusLine(radius), "\t\t\t\t\t</sphere>\n", "\t\t\t\t</geometry>\n"]
  }

  /** `ParseCube`, piece by piece as the source appends them. */
  method ParseCube(name: string, size: string, acc: Pieces) returns (r: Pieces)
    ensures r == acc + ShapePieces(name, BoxGeometry(size))
  {
    r := acc;
    r := r + ["\t\t\t<visual name='" + name + "_visual'>\n"];
    r := r + ["\t\t\t\t<geometry>\n"];
    r := r + ["\t\t\t\t\t<box>\n"];
    r := r + ["\t\t\t\t\t\t<size>" + size + " " + size + " " + size + "</size>\n"];
    r := r + ["\t\t\t\t\t</box>\n"];
    r := r + ["\t\t\t\t</geometry>\n"];
    r := r + ["\t\t\t</visual>\n"];
    r := r + ["\t\t\t<collision name='" + name + "_collision'>\n"];
    r := r + ["\t\t\t\t<geometry>\n"];
    r := r + ["\t\t\t\t\t<box>\n"];
    r := r + ["\t\t\t\t\t\t<size>" + size + " " + size + " " + size + "</size>\n"];
    r := r + ["\t\t\t\t\t</box>\n"];
    r := r + ["\t\t\t\t</geometry>\n"];
    r := r + ["\t\t\t</collision>\n"];
  }

  /** `ParseCylinder`: radius then height, in the visual and again in the collision. */
  method ParseCylinder(name: string, radius: string, height: string, acc: Pieces) returns (r: Pieces)
    ensures r == acc + ShapePieces(name, CylinderGeometry(radius, height))
  {
    r := acc;
    r := r + ["\t\t\t<visual name='" + name + "_visual'>\n"];
    r := r + ["\t\t\t\t<geometry>\n"];
    r := r + ["\t\t\t\t\t<cylinder>\n"];
    r := r + ["\t\t\t\t\t\t<radius>" + radius + "</radius>\n"];
    r := r + ["\t\t\t\t\t\t<height>" + height + "</height>\n"];
    r := r + ["\t\t\t\t\t</cylinder>\n"];
    r := r + ["\t\t\t\t</geometry>\n"];
    r := r + ["\t\t\t</visual>\n"];
    r := r + ["\t\t\t<collision name='" + name + "_collision'>\n"];
    r := r + ["\t\t\t\t<geometry>\n"];
    r := r + ["\t\t\t\t\t<cylinder>\n"];
    r := r + ["\t\t\t\t\t\t<radius>" + radius + "</radius>\n"];
    r := r + ["\t\t\t\t\t\t<height>" + height + "</height>\n"];
    r := r + ["\t\t\t\t\t</cylinder>\n"];
    r := r + ["\t\t\t\t</geometry>\n"];
    r := r + ["\t\t\t</collision>\n"];
  }

  /** `ParseSphere`: one visual, then one collision, each with the sphere's radius. */
  method ParseSphere(name: string, radius: string, acc: Pieces) returns (r: Pieces)
    ensures r == acc + ShapePieces(name, SphereGeometry(radius))
  {
    r := acc;
    r := r + ["\t\t\t<visual name='" + name + "_visual'>\n"];
    r := r + ["\t\t\t\t<geometry>\n"];
    r := r + ["\t\t\t\t\t<sphere>\n"];
    r := r + ["\t\t\t\t\t\t<radius>" + radius + "</radius>\n"];
    r := r + ["\t\t\t\t\t</sphere>\n"];
    r := r + ["\t\t\t\t</geometry>\n"];
    r := r + ["\t\t\t</visual>\n"];
    r := r + ["\t\t\t<collision name='" + name + "_collision'>\n"];
    r := r + ["\t\t\t\t<geometry>\n"];
    r := r + ["\t\t\t\t\t<sphere>\n"];
    r := r + ["\t\t\t\t\t\t<radius>" + radius + "</radius>\n"];
    r := r + ["\t\t\t\t\t</sphere>\n"];
    r := r + ["\t\t\t\t</geometry>\n"];
    r := r + ["\t\t\t</collision>\n"];
  }

  /**
   * A shape is a visual named `<prim>_visual` followed by a collision named
   * `<prim>_collision`, and the two hold the same geometry.
   */
  lemma ShapeHalves(name: string, geometry: Pieces)
    ensures var s := ShapePieces(name, geometry);
      var n := |geometry|;
      |s| == 2 * n + 4 &&
      s[0] == VisualOpen(name) && s[n + 1] == VisualClose &&
      s[n + 2] == CollisionOpen(name) && s[2 * n + 3] == CollisionClose &&
      s[1..n + 1] == geometry && s[n + 3..2 * n + 3] == geometry
  {
    var s := ShapePieces(name, geometry);
    var n := |geometry|;
    assert s == ([VisualOpen(name)] + geometry + [VisualClose, CollisionOpen(name)]) + geometry + [CollisionClose];
  }

  /** The box size line holds the cube size three times, separated by spaces. */
  lemma BoxSizeRepeated(size: string)
    ensures var line := SizeLine(size);
      var open := "\t\t\t\t\t\t<size>";
      line == open + size + " " + size + " " + size + "</size>\n" &&
      line[|open|..|open| + |size|] == size &&
      line[|open| + |size| + 1..|open| + 2 * |size| + 1] == size &&
      line[|open| + 2 * |size| + 2..|open| + 3 * |size| + 2] == size
  {
    var open := "\t\t\t\t\t\t<size>";
    var line := SizeLine(size);
    assert line == open + size + (" " + size) + (" " + size) + "</size>\n";
  }

  /** The pieces a sphere or cylinder prim becomes (none for the other schemas). */
  function ShapeOf(p: Prim): Pieces
  {
    match p.kind
    case SphereKind(radius) => ShapePieces(p.name, SphereGeometry(radius))
    case CylinderKind(radius, height) => ShapePieces(p.name, CylinderGeometry(radius, height))
    case _ => []
  }

  // ---------------------------------------------------------------------
  // The prim walk

  /**
   * What one child adds: nothing if it is invalid or a cube, its shape if it
   * is a sphere or cylinder, and the walk of its own children otherwise.
   */
  function ChildPieces(c: Prim): Pieces
    decreases c, 2
  {
    if !c.valid then []
    else match c.kind
      case SphereKind(_) => ShapeOf(c)
      case CylinderKind(_, _) => ShapeOf(c)
      case CubeKind(_) => []
      case OtherKind => Body(c)
  }

  /** What `CreateSDF` appends for a prim: nothing for an invalid prim, else its children's pieces in order. */
  function Body(p: Prim): Pieces
    decreases p, 1
  {
    if !p.valid then [] else ChildrenPieces(p, 0)
  }

  function ChildrenPieces(p: Prim, i: nat): Pieces
    requires i <= |p.children|
    decreases p, 0, |p.children| - i
  {
    if i == |p.children| then [] else ChildPieces(p.children[i]) + ChildrenPieces(p, i + 1)
  }

  /** `CreateSDF`: the children in order, recursing into those that are not spheres, cylinders or cubes. */
  method CreateSDF(acc: Pieces, p: Prim) returns (r: Pieces)
    ensures r == acc + Body(p)
    decreases p
  {
    r := acc;
    if !p.valid {
      return;
    }
    var i := 0;
    while i < |p.children|
      invariant 0 <= i <= |p.children|
      invariant r + ChildrenPieces(p, i) == acc + Body(p)
    {
      var c := p.children[i];
      var before := r;
      if !c.valid {
      } else if c.kind.SphereKind? {
        r := ParseSphere(c.name, c.kind.radius, r);
      } else if c.kind.CylinderKind? {
        r := ParseCylinder(c.name, c.kind.radius, c.kind.height, r);
      } else if c.kind.CubeKind? {
      } else {
        r := CreateSDF(r, c);
      }
      assert r == before + ChildPieces(c);
      assert before + (ChildPieces(c) + ChildrenPieces(p, i + 1)) == r + ChildrenPieces(p, i + 1);
      i := i + 1;
    }
  }

  // ---------------------------------------------------------------------
  // An independent description of the walk: the shapes it meets, in order

  /** The sphere and cylinder prims the walk writes, in the order it meets them. */
  function ShapesOfChild(c: Prim): seq<Prim>
    decreases c, 2
  {
    if !c.valid then []
    else match c.kind
      case SphereKind(_) => [c]
      case CylinderKind(_, _) => [c]
      case CubeKind(_) => []
      case OtherKind => Shapes(c)
  }

  function Shapes(p: Prim): seq<Prim>
    decreases p, 1
  {
    if !p.valid then [] else ShapesOfChildren(p, 0)
  }

  function ShapesOfChildren(p: Prim, i: nat): seq<Prim>
    requires i <= |p.children|
    decreases p, 0, |p.children| - i
  {
    if i == |p.children| then [] else ShapesOfChild(p.children[i]) + ShapesOfChildren(p, i + 1)
  }

  /** The pieces of a list of shapes, one after the other. */
  function PiecesOf(shapes: seq<Prim>): Pieces
  {
    if shapes == [] then [] else ShapeOf(shapes[0]) + PiecesOf(shapes[1..])
  }

  lemma {:induction false} PiecesOfAppend(a: seq<Prim>, b: seq<Prim>)
    ensures PiecesOf(a + b) == PiecesOf(a) + PiecesOf(b)
  {
    if a == [] {
      assert a + b == b;
    } else {
      assert (a + b)[1..] == a[1..] + b;
      PiecesOfAppend(a[1..], b);
    }
  }

  /**
   * The document body is the pieces of the shapes the walk meets, in order:
   * cubes and invalid prims add nothing, and the children of a sphere,
   * cylinder or cube are never visited.
   */
  lemma {:induction false} BodyIsShapePieces(p: Prim)
    ensures Body(p) == PiecesOf(Shapes(p))
    decreases p, 1
  {
    if p.valid {
      ChildrenAreShapePieces(p, 0);
    }
  }

  lemma {:induction false} ChildIsShapePieces(c: Prim)
    ensures ChildPieces(c) == PiecesOf(ShapesOfChild(c))
    decreases c, 2
  {
    if c.valid {
      match c.kind
      case SphereKind(_) =>
        assert PiecesOf([c]) == ShapeOf(c) + PiecesOf([]);
      case CylinderKind(_, _) =>
        assert PiecesOf([c]) == ShapeOf(c) + PiecesOf([]);
      case CubeKind(_) =>
      case OtherKind =>
        BodyIsShapePieces(c);
    }
  }

  lemma {:induction false} ChildrenAreShapePieces(p: Prim, i: nat)
    requires i <= |p.children|
    ensures ChildrenPieces(p, i) == PiecesOf(ShapesOfChildren(p, i))
    decreases p, 0, |p.children| - i
  {
    if i < |p.children| {
      ChildIsShapePieces(p.children[i]);
      ChildrenAreShapePieces(p, i + 1);
      PiecesOfAppend(ShapesOfChild(p.children[i]), ShapesOfChildren(p, i + 1));
    }
  }

  /** Every shape the walk writes is a valid sphere or cylinder; cubes never are written. */
  lemma {:induction false} ShapesAreSpheresAndCylinders(p: Prim)
    ensures forall s :: s in Shapes(p) ==> s.valid && (s.kind.SphereKind? || s.kind.CylinderKind?)
    decreases p, 1
  {
    if p.valid {
      ChildrenShapesAreSpheresAndCylinders(p, 0);
    }
  }

  lemma {:induction false} ChildrenShapesAreSpheresAndCylinders(p: Prim, i: nat)
    requires i <= |p.children|
    ensures forall s :: s in ShapesOfChildren(p, i) ==> s.valid && (s.kind.SphereKind? || s.kind.CylinderKind?)
    decreases p, 0, |p.children| - i
  {
    if i < |p.children| {
      var c := p.children[i];
      if c.valid && c.kind.OtherKind? {
        ShapesAreSpheresAndCylinders(c);
      }
      ChildrenShapesAreSpheresAndCylinders(p, i + 1);
    }
  }

  // ---------------------------------------------------------------------
  // Handle

  /** The model pose written into every document: `std::to_string` of 3, 3, 0.5, 0, 0, 0. */
  const PoseLine: string := "\t\t<pose>3 3 0.500000 0 0 0</pose>\n"

  const Header: string := "<sdf version='1.7'>\n"

  function ModelOpen(name: string): string
  {
    "\t<model name='" + name + "'>\n"
  }

  function LinkOpen(name: string): string
  {
    "\t\t<link name='" + name + "_link'>\n"
  }

  const LinkClose: string := "\t\t</link>\n"

  const ModelClose: string := "\t</model>\n</sdf>\n"

  /** The document for a resynced model prim: header, model, fixed pose, one link `<name>_link` around the body. */
  function ModelDocument(p: Prim): Pieces
  {
    [Header, ModelOpen(p.name), PoseLine, LinkOpen(p.name)] + Body(p) + [LinkClose, ModelClose]
  }

  /**
   * The document opens with the SDFormat 1.7 header, the model, its pose and
   * the link, holds the body, and closes the link, model and sdf tags; its
   * text starts with the header.
   */
  lemma ModelDocumentShape(p: Prim)
    ensures var d := ModelDocument(p);
      var n := |Body(p)|;
      |d| == n + 6 && d[..4] == [Header, ModelOpen(p.name), PoseLine, LinkOpen(p.name)] &&
      d[4..n + 4] == Body(p) && d[n + 4..] == [LinkClose, ModelClose]
    ensures |Header| <= |Text(ModelDocument(p))| && Text(ModelDocument(p))[..|Header|] == Header
  {
    var d := ModelDocument(p);
    var rest := [ModelOpen(p.name), PoseLine, LinkOpen(p.name)] + Body(p) + [LinkClose, ModelClose];
    assert d == [Header] + rest;
    TextAppend([Header], rest);
    assert Text([Header]) == Header + Text([]);
  }

  /** A resynced path together with the prim found at it, if any. */
  datatype Resynced = Resynced(path: string, prim: Option<Prim>)

  /** A changed-info path: the prim it belongs to, the property's base name and the prim's ordered ops. */
  datatype Changed = Changed(primName: string, baseName: string, ops: seq<XformOp>)

  /** The requests `Handle` sends. The pose is the translate and the XYZ rotation that `GetOp` reads. */
  datatype Request =
    | Create(service: string, name: string, sdf: string)
    | SetPose(service: string, name: string, position: Vec3, rotation: Vec3)

  /** A path of a part of a model, which the resync loop does not handle. */
  predicate IsPartPath(path: string)
  {
    Contains(path, "_link") || Contains(path, "_visual") || Contains(path, "geometry")
  }

  predicate Found(e: Resynced)
  {
    e.prim.Some? && e.prim.value.valid
  }

  /**
   * The resync loop from entry `i` on: whether it returned early, and the
   * create requests. A found part path ends all of `Handle`.
   */
  function ResyncFrom(world: string, rs: seq<Resynced>, i: nat): (bool, seq<Request>)
    requires i <= |rs|
    decreases |rs| - i
  {
    if i == |rs| then (false, [])
    else if !Found(rs[i]) then ResyncFrom(world, rs, i + 1)
    else if IsPartPath(rs[i].path) then (true, [])
    else
      var p := rs[i].prim.value;
      var rest := ResyncFrom(world, rs, i + 1);
      (rest.0, [Create("/world/" + world + "/create", p.name, Text(ModelDocument(p)))] + rest.1)
  }

  /** The pose request a translate change sends. */
  function PoseRequest(world: string, c: Changed): Request
  {
    var e := Extract(c.ops, GetOpRotation);
    SetPose("/world/" + world + "/set_pose", c.primName, e.position, e.rotation)
  }

  /** The changed-info loop from entry `i` on. */
  function ChangedFrom(world: string, cs: seq<Changed>, i: nat): seq<Request>
    requires i <= |cs|
    decreases |cs| - i
  {
    if i == |cs| then []
    else if cs[i].baseName == "translate" then [PoseRequest(world, cs[i])] + ChangedFrom(world, cs, i + 1)
    else ChangedFrom(world, cs, i + 1)
  }

  function HandleRequests(world: string, rs: seq<Resynced>, cs: seq<Changed>): seq<Request>
  {
    var (stopped, creates) := ResyncFrom(world, rs, 0);
    if stopped then creates else creates + ChangedFrom(world, cs, 0)
  }

  /** `Handle`: the two loops, with the early return inside the first. */
  method Handle(world: string, rs: seq<Resynced>, cs: seq<Changed>) returns (requests: seq<Request>)
    ensures requests == HandleRequests(world, rs, cs)
  {
    requests := [];
    assert requests + ResyncFrom(world, rs, 0).1 == ResyncFrom(world, rs, 0).1;
    var i := 0;
    while i < |rs|
      invariant 0 <= i <= |rs|
      invariant ResyncFrom(world, rs, 0) == (ResyncFrom(world, rs, i).0, requests + ResyncFrom(world, rs, i).1)
    {
      var e := rs[i];
      if Found(e) {
        if IsPartPath(e.path) {
          assert requests + [] == requests;
          return;
        }
        var p := e.prim.value;
        var sdf: Pieces := ["<sdf version='1.7'>\n"];
        sdf := sdf + ["\t<model name='" + p.name + "'>\n"];
        sdf := sdf + [PoseLine];
        sdf := sdf + ["\t\t<link name='" + p.name + "_link'>\n"];
        sdf := CreateSDF(sdf, p);
        sdf := sdf + ["\t\t</link>\n"];
        sdf := sdf + ["\t</model>\n</sdf>\n"];
        assert sdf == ModelDocument(p);
        var req := Create("/world/" + world + "/create", p.name, Text(sdf));
        assert requests + ([req] + ResyncFrom(world, rs, i + 1).1) == (requests + [req]) + ResyncFrom(world, rs, i + 1).1;
        requests := requests + [req];
      }
      i := i + 1;
    }
    assert requests + [] == requests;
    var creates := requests;
    var j := 0;
    while j < |cs|
      invariant 0 <= j <= |cs|
      invariant creates + ChangedFrom(world, cs, 0) == requests + ChangedFrom(world, cs, j)
    {
      if cs[j].baseName == "translate" {
        var t := ScanOps(cs[j].ops, GetOpRotation);
        var req := SetPose("/world/" + world + "/set_pose", cs[j].primName, t.position, t.rotation);
        assert requests + ([req] + ChangedFrom(world, cs, j + 1)) == (requests + [req]) + ChangedFrom(world, cs, j + 1);
        requests := requests + [req];
      }
      j := j + 1;
    }
    assert requests + [] == requests;
  }

  // ---------------------------------------------------------------------
  // Properties of Handle

  /** Every request of the resync loop is a create request for a found model prim whose path names no part. */
  lemma {:induction false} ResyncCreatesFoundModels(world: string, rs: seq<Resynced>, i: nat)
    requires i <= |rs|
    ensures forall q :: q in ResyncFrom(world, rs, i).1 ==>
      exists j :: i <= j < |rs| && Found(rs[j]) && !IsPartPath(rs[j].path) &&
        q == Create("/world/" + world + "/create", rs[j].prim.value.name, Text(ModelDocument(rs[j].prim.value)))
    decreases |rs| - i
  {
    if i < |rs| {
      ResyncCreatesFoundModels(world, rs, i + 1);
    }
  }

  /** The loop returns early iff some found prim has a part path. */
  lemma {:induction false} ResyncStopsAtPart(world: string, rs: seq<Resynced>, i: nat)
    requires i <= |rs|
    ensures ResyncFrom(world, rs, i).0 <==> exists j :: i <= j < |rs| && Found(rs[j]) && IsPartPath(rs[j].path)
    decreases |rs| - i
  {
    if i < |rs| {
      ResyncStopsAtPart(world, rs, i + 1);
    }
  }

  /** Each translate change gives one pose request, in order; no other property gives one. */
  lemma {:induction false} PosesFromTranslatesOnly(world: string, cs: seq<Changed>, i: nat)
    requires i <= |cs|
    ensures |ChangedFrom(world, cs, i)| == |set j | i <= j < |cs| && cs[j].baseName == "translate"|
    ensures forall q :: q in ChangedFrom(world, cs, i) ==>
      exists j :: i <= j < |cs| && cs[j].baseName == "translate" && q == PoseRequest(world, cs[j])
    decreases |cs| - i
  {
    if i < |cs| {
      PosesFromTranslatesOnly(world, cs, i + 1);
      var later := set j | i + 1 <= j < |cs| && cs[j].baseName == "translate";
      var all := set j | i <= j < |cs| && cs[j].baseName == "translate";
      if cs[i].baseName == "translate" {
        assert all == {i} + later;
      } else {
        assert all == later;
      }
    }
  }

  /**
   * A found part path among the resynced prims means no pose is sent at
   * all: `Handle` returns before its changed-info loop.
   */
  lemma PartPathSendsNoPose(world: string, rs: seq<Resynced>, cs: seq<Changed>, k: nat)
    requires k < |rs| && Found(rs[k]) && IsPartPath(rs[k].path)
    ensures forall q :: q in HandleRequests(world, rs, cs) ==> q.Create?
  {
    ResyncStopsAtPart(world, rs, 0);
    ResyncCreatesFoundModels(world, rs, 0);
  }
}
