/**
 * `IgnitionGeometry` of the live connector: the names of the Ignition
 * geometry types and the attachment of a geometry message to a visual's
 * path, which defines one USD gprim under `<path>/geometry` for the simple
 * shapes and one USD mesh per selected submesh for meshes.
 */
module IgnitionGeometry {
  import opened Wrappers
  import opened Strings
  import opened XformOps
  import opened MeshConvert

  /** The geometry types of an Ignition geometry message; every other value is `OtherType`. */
  datatype GeometryType =
    | Box | Cone | Cylinder | Plane | Ellipsoid | Sphere | Mesh | Capsule
    | OtherType(code: nat)

  /** `GeometryTypeToString`: the seven named types, "Unknown" for the rest. */
  function GeometryTypeToString(t: GeometryType): string
  {
    match t
    case Box => "Box"
    case Cone => "Cone"
    case Cylinder => "Cylinder"
    case Plane => "Plane"
    case Sphere => "Sphere"
    case Mesh => "Mesh"
    case Capsule => "Capsule"
    case _ => "Unknown"
  }

  predicate IsNamedType(t: GeometryType)
  {
    t in {Box, Cone, Cylinder, Plane, Sphere, Mesh, Capsule}
  }

  /** Named types get distinct names, none of them "Unknown"; ellipsoids and other types get "Unknown". */
  lemma GeometryTypeNames(t: GeometryType, u: GeometryType)
    ensures GeometryTypeToString(t) == "Unknown" <==> !IsNamedType(t)
    ensures IsNamedType(t) && IsNamedType(u) && GeometryTypeToString(t) == GeometryTypeToString(u) ==> t == u
    ensures GeometryTypeToString(Ellipsoid) == "Unknown"
  {
  }

  /**
   * The parts of a geometry message the attachment reads. As with any
   * protobuf message, every sub-message is present (with zero defaults).
   */
  datatype GeometryMsg = GeometryMsg(
    boxSize: Vec3,
    cylinderRadius: real, cylinderLength: real,
    planeSize: (real, real),
    sphereRadius: real,
    capsuleRadius: real, capsuleLength: real,
    submeshes: seq<SubMesh>)

  /** A simple-shape gprim as it is defined on the stage. */
  datatype Gprim =
    | CubePrim(path: string, size: real, extentMin: Vec3, extentMax: Vec3, scale: Vec3)
    | CylinderPrim(path: string, radius: real, height: real, extentMin: Vec3, extentMax: Vec3)
    | SpherePrim(path: string, radius: real, extentMin: Vec3, extentMax: Vec3)
    /** an ellipsoid is a sphere of radius 0.5 scaled by the radii (scale and extent not modelled) */
    | EllipsoidPrim(path: string, radius: real)
    | CapsulePrim(path: string, radius: real, height: real, extentMin: Vec3, extentMax: Vec3)

  function Neg(v: Vec3): Vec3 { Vec3(-v.x, -v.y, -v.z) }

  function Splat(r: real): Vec3 { Vec3(r, r, r) }

  /** The gprim a simple shape defines under `geometryPath`, or `None` for the types without one. */
  function ShapeGprim(t: GeometryType, g: GeometryMsg, geometryPath: string): Option<Gprim>
  {
    match t
    case Box => Some(CubePrim(geometryPath, 1.0, Neg(Splat(0.5)), Splat(0.5), g.boxSize))
    case Cylinder =>
      var end := Vec3(g.cylinderRadius, g.cylinderRadius, g.cylinderLength * 0.5);
      Some(CylinderPrim(geometryPath, g.cylinderRadius, g.cylinderLength, Neg(end), end))
    case Plane =>
      Some(CubePrim(geometryPath, 1.0, Neg(Splat(0.5)), Splat(0.5), Vec3(g.planeSize.0, g.planeSize.1, 0.25)))
    case Ellipsoid => Some(EllipsoidPrim(geometryPath, 0.5))
    case Sphere => Some(SpherePrim(geometryPath, g.sphereRadius, Splat(-1.0 * g.sphereRadius), Splat(g.sphereRadius)))
    case Capsule =>
      var end := Vec3(g.capsuleRadius, g.capsuleRadius, g.capsuleRadius + 0.5 * g.capsuleLength);
      Some(CapsulePrim(geometryPath, g.capsuleRadius, g.capsuleLength, Neg(end), end))
    case _ => None
  }

  /**
   * The second submesh loop from submesh `i` on: each selected submesh
   * becomes a mesh at its prim name; an unsupported primitive type stops the
   * loop with `false`, keeping the meshes already defined.
   */
  function MeshesFrom(path: string, subs: seq<SubMesh>, active: bool, i: nat): (bool, seq<UsdMesh>)
    requires i <= |subs|
    decreases |subs| - i
  {
    if i == |subs| then (true, [])
    else if !Selected(path, subs, active, i) then MeshesFrom(path, subs, active, i + 1)
    else
      match Converted(PrimName(path, subs[i].name), subs[i])
      case None => (false, [])
      case Some(m) =>
        var rest := MeshesFrom(path, subs, active, i + 1);
        (rest.0, [m] + rest.1)
  }

  /** The meshes succeed iff every selected submesh has a supported primitive type. */
  lemma {:induction false} MeshesFromSucceeds(path: string, subs: seq<SubMesh>, active: bool, i: nat)
    requires i <= |subs|
    ensures MeshesFrom(path, subs, active, i).0 <==>
      forall j :: i <= j < |subs| && Selected(path, subs, active, j) ==> VerticesPerFace(subs[j].primitive).Some?
    decreases |subs| - i
  {
    if i < |subs| {
      MeshesFromSucceeds(path, subs, active, i + 1);
      var sel := Selected(path, subs, active, i);
      var c := Converted(PrimName(path, subs[i].name), subs[i]);
      assert c.None? <==> VerticesPerFace(subs[i].primitive).None?;
      var rest := MeshesFrom(path, subs, active, i + 1);
      assert MeshesFrom(path, subs, active, i).0 == if !sel then rest.0 else c.Some? && rest.0;
      if forall j :: i <= j < |subs| && Selected(path, subs, active, j) ==> VerticesPerFace(subs[j].primitive).Some? {
        assert sel ==> c.Some?;
        assert forall j :: i + 1 <= j < |subs| && Selected(path, subs, active, j) ==> VerticesPerFace(subs[j].primitive).Some?;
      } else {
        var j :| i <= j < |subs| && Selected(path, subs, active, j) && VerticesPerFace(subs[j].primitive).None?;
        if j == i {
          assert sel && c.None?;
        } else {
          assert !rest.0;
        }
      }
    }
  }

  /** Submesh `j` is selected and converts to `m`. */
  predicate MeshOfSubmesh(path: string, subs: seq<SubMesh>, active: bool, j: nat, m: UsdMesh)
    requires j < |subs|
  {
    Selected(path, subs, active, j) && Converted(PrimName(path, subs[j].name), subs[j]) == Some(m)
  }

  /** Every mesh of `ms` is the conversion of a selected submesh from `i` on. */
  predicate MeshesOfSubmeshesFrom(path: string, subs: seq<SubMesh>, active: bool, i: nat, ms: seq<UsdMesh>)
  {
    forall m :: m in ms ==> exists j :: i <= j < |subs| && MeshOfSubmesh(path, subs, active, j, m)
  }

  lemma ConsMeshOfSubmesh(path: string, subs: seq<SubMesh>, active: bool, i: nat, m0: UsdMesh, ms: seq<UsdMesh>)
    requires i < |subs| && MeshOfSubmesh(path, subs, active, i, m0)
    requires MeshesOfSubmeshesFrom(path, subs, active, i + 1, ms)
    ensures MeshesOfSubmeshesFrom(path, subs, active, i, [m0] + ms)
  {
    forall m | m in [m0] + ms
      ensures exists j :: i <= j < |subs| && MeshOfSubmesh(path, subs, active, j, m)
    {
      if m != m0 {
        assert m in ms;
        var j :| i + 1 <= j < |subs| && MeshOfSubmesh(path, subs, active, j, m);
        assert i <= j;
      }
    }
  }

  lemma SkipMeshOfSubmesh(path: string, subs: seq<SubMesh>, active: bool, i: nat, ms: seq<UsdMesh>)
    requires MeshesOfSubmeshesFrom(path, subs, active, i + 1, ms)
    ensures MeshesOfSubmeshesFrom(path, subs, active, i, ms)
  {
    forall m | m in ms
      ensures exists j :: i <= j < |subs| && MeshOfSubmesh(path, subs, active, j, m)
    {
      var j :| i + 1 <= j < |subs| && MeshOfSubmesh(path, subs, active, j, m);
      assert i <= j;
    }
  }

  /** Every mesh defined sits at the prim name of a selected submesh and is that submesh converted. */
  lemma {:induction false} MeshesFromAreSelected(path: string, subs: seq<SubMesh>, active: bool, i: nat)
    requires i <= |subs|
    ensures MeshesOfSubmeshesFrom(path, subs, active, i, MeshesFrom(path, subs, active, i).1)
    decreases |subs| - i
  {
    if i < |subs| {
      MeshesFromAreSelected(path, subs, active, i + 1);
      var rest := MeshesFrom(path, subs, active, i + 1).1;
      var c := Converted(PrimName(path, subs[i].name), subs[i]);
      if !Selected(path, subs, active, i) {
        assert MeshesFrom(path, subs, active, i).1 == rest;
        SkipMeshOfSubmesh(path, subs, active, i, rest);
      } else if c.Some? {
        assert MeshesFrom(path, subs, active, i).1 == [c.value] + rest;
        ConsMeshOfSubmesh(path, subs, active, i, c.value, rest);
      } else {
        assert MeshesFrom(path, subs, active, i).1 == [];
      }
    }
  }

  /** A geometry of one type that can be attached to a visual. */
  class IgnitionGeometry {
    const geometryType: GeometryType
    /** The gprim of a simple shape, once attached. */
    var gprim: Option<Gprim>

    constructor (t: GeometryType)
      ensures geometryType == t && gprim == None
    {
      geometryType := t;
      gprim := None;
    }

    /**
     * `AttachToVisual`: the switch on the type. A simple shape sets the gprim,
     * a mesh defines its converted submeshes (returned in `meshes`), cones and
     * unknown types fail.
     */
    method AttachToVisual(g: GeometryMsg, path: string) returns (ok: bool, meshes: seq<UsdMesh>)
      modifies this
      ensures geometryType != Mesh ==>
        meshes == [] && ok == ShapeGprim(geometryType, g, path + "/geometry").Some? &&
        gprim == (if ok then ShapeGprim(geometryType, g, path + "/geometry") else old(gprim))
      ensures geometryType == Mesh ==>
        gprim == old(gprim) &&
        exists active: bool ::
          ((active <==> FilterOn(path, g.submeshes)) &&
           (ok, meshes) == MeshesFrom(path, g.submeshes, active, 0))
    {
      var geometryPath := path + "/geometry";
      meshes := [];
      if geometryType == Mesh {
        var subs := g.submeshes;
        var active := FilterActive(path, subs);
        ok := true;
        var i := 0;
        assert [] + MeshesFrom(path, subs, active, 0).1 == MeshesFrom(path, subs, active, 0).1;
        while i < |subs|
          invariant 0 <= i <= |subs| && gprim == old(gprim)
          invariant MeshesFrom(path, subs, active, 0) == (MeshesFrom(path, subs, active, i).0, meshes + MeshesFrom(path, subs, active, i).1)
        {
          if Selected(path, subs, active, i) {
            var m := ConvertSubmesh(PrimName(path, subs[i].name), subs[i]);
            if m.None? {
              assert MeshesFrom(path, subs, active, i) == (false, []);
              ok := false;
              assert meshes + [] == meshes;
              assert (active <==> FilterOn(path, g.submeshes)) && (ok, meshes) == MeshesFrom(path, subs, active, 0);
              return;
            }
            assert meshes + ([m.value] + MeshesFrom(path, subs, active, i + 1).1) ==
              (meshes + [m.value]) + MeshesFrom(path, subs, active, i + 1).1;
            meshes := meshes + [m.value];
          }
          i := i + 1;
        }
        assert meshes + [] == meshes;
        assert (active <==> FilterOn(path, g.submeshes)) && (ok, meshes) == MeshesFrom(path, subs, active, 0);
      } else {
        var shape := ShapeGprim(geometryType, g, geometryPath);
        ok := shape.Some?;
        if ok {
          gprim := shape;
        }
      }
    }
  }

  /** Box and plane become a unit cube scaled by the size; a plane's z scale is 0.25. */
  lemma BoxAndPlaneShapes(g: GeometryMsg, p: string)
    ensures ShapeGprim(Box, g, p) == Some(CubePrim(p, 1.0, Vec3(-0.5, -0.5, -0.5), Vec3(0.5, 0.5, 0.5), g.boxSize))
    ensures ShapeGprim(Plane, g, p).Some? && ShapeGprim(Plane, g, p).value.CubePrim? &&
      ShapeGprim(Plane, g, p).value.scale.z == 0.25
  {
  }

  /** Exactly the cone and the unknown types have no simple shape; the rest of the non-mesh types succeed. */
  lemma SupportedShapes(t: GeometryType, g: GeometryMsg, p: string)
    ensures ShapeGprim(t, g, p).None? <==> t == Cone || t == Mesh || t.OtherType?
  {
  }

  /** Every extent is symmetric about the origin. */
  lemma ExtentsAreSymmetric(t: GeometryType, g: GeometryMsg, p: string)
    requires ShapeGprim(t, g, p).Some? && !ShapeGprim(t, g, p).value.EllipsoidPrim?
    ensures ShapeGprim(t, g, p).value.extentMin == Neg(ShapeGprim(t, g, p).value.extentMax)
  {
  }
}
