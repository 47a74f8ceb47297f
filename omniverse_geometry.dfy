/**
 * `OmniverseGeometry` of the rendering plugin: a geometry of one rendering
 * type that, attached to an Omniverse visual, defines one USD gprim under
 * the visual's prim, with a fixed extent, and remembers the visual as its
 * parent.
 */
module OmniverseGeometry {
  import opened Wrappers
  import opened XformOps
  import opened SdfPath

  /** The geometry types of the rendering engine; every other value is `OtherKind`. */
  datatype RenderGeometryType =
    | Box | Cone | Cylinder | Plane | Sphere | Mesh | Capsule
    | OtherKind(code: nat)

  /** `GeometryTypeToString`: the seven named types, "Unknown" for the rest. */
  function GeometryTypeToString(t: RenderGeometryType): string
  {
    match t
    case Box => "Box"
    case Cone => "Cone"
    case Cylinder => "Cylinder"
    case Plane => "Plane"
    case Sphere => "Sphere"
    case Mesh => "Mesh"
    case Capsule => "Capsule"
    case OtherKind(_) => "Unknown"
  }

  /** The seven types are named, each by its own name; only the other values are "Unknown". */
  lemma GeometryTypeNames(t: RenderGeometryType, u: RenderGeometryType)
    ensures GeometryTypeToString(t) == "Unknown" <==> t.OtherKind?
    ensures !t.OtherKind? && !u.OtherKind? && GeometryTypeToString(t) == GeometryTypeToString(u) ==> t == u
  {
  }

  /** The parts of a visual the attachment reads: whether it is an Omniverse visual, and its prim path. */
  datatype Visual = Visual(id: nat, isOmniverse: bool, xformPath: string)

  datatype GprimKind = CubeKind | CylinderKind | SphereKind | CapsuleKind

  /** A gprim as defined on the stage, with its extent attribute. */
  datatype Gprim = Gprim(kind: GprimKind, path: string, extentMin: Vec3, extentMax: Vec3)

  /** The prim path of the geometry under a visual: the visual's path with the converted name appended. */
  function GeometryPath(visual: Visual, name: string): string
    requires |name| < NPos
  {
    visual.xformPath + "/" + NameToSdfPath(name)
  }

  /**
   * The switch on the type: the gprim a type defines at `path`, or `None`
   * for the types that fall to the default branch (cone, plane, mesh and
   * the unknown types).
   */
  function DefinedGprim(t: RenderGeometryType, path: string): Option<Gprim>
  {
    match t
    case Box => Some(Gprim(CubeKind, path, Vec3(-1.0, -1.0, -1.0), Vec3(1.0, 1.0, 1.0)))
    case Cylinder => Some(Gprim(CylinderKind, path, Vec3(-1.0, -1.0, -1.0), Vec3(1.0, 1.0, 1.0)))
    case Sphere => Some(Gprim(SphereKind, path, Vec3(-1.0, -1.0, -1.0), Vec3(1.0, 1.0, 1.0)))
    case Capsule => Some(Gprim(CapsuleKind, path, Vec3(-0.5, -0.5, -1.0), Vec3(0.5, 0.5, 1.0)))
    case _ => None
  }

  /** Exactly box, cylinder, sphere and capsule are supported. */
  lemma SupportedTypes(t: RenderGeometryType, path: string)
    ensures DefinedGprim(t, path).Some? <==> t in {Box, Cylinder, Sphere, Capsule}
  {
  }

  /**
   * Box, cylinder and sphere get the extent (-1,-1,-1)..(1,1,1), the capsule
   * (-0.5,-0.5,-1)..(0.5,0.5,1); every extent is symmetric about the origin
   * and the gprim sits at the given path.
   */
  lemma DefinedExtents(t: RenderGeometryType, path: string)
    requires DefinedGprim(t, path).Some?
    ensures var g := DefinedGprim(t, path).value;
      g.path == path &&
      g.extentMin == Vec3(-g.extentMax.x, -g.extentMax.y, -g.extentMax.z) &&
      g.extentMax == (if t == Capsule then Vec3(0.5, 0.5, 1.0) else Vec3(1.0, 1.0, 1.0))
  {
  }

  /** The last element of the geometry's path holds none of ':', '(', ')', '/'. */
  lemma GeometryPathElementIsSafe(visual: Visual, name: string)
    requires |name| < NPos
    ensures var p := GeometryPath(visual, name);
      var start := |visual.xformPath| + 1;
      start <= |p| && p[..start] == visual.xformPath + "/" &&
      forall k :: start <= k < |p| ==> IsSdfSafe(p[k])
  {
    NameToSdfPathMeaning(name);
    var p := GeometryPath(visual, name);
    var start := |visual.xformPath| + 1;
    assert p[start..] == NameToSdfPath(name);
    forall k | start <= k < |p|
      ensures IsSdfSafe(p[k])
    {
      assert p[k] == NameToSdfPath(name)[k - start];
    }
  }

  /** A named geometry of one rendering type. */
  class OmniverseGeometry {
    const name: string
    const geometryType: RenderGeometryType
    var gprim: Option<Gprim>
    var parent: Option<Visual>

    /** `Make`: a fresh geometry with no gprim and no parent. */
    constructor (name: string, t: RenderGeometryType)
      ensures this.name == name && geometryType == t
      ensures gprim == None && parent == None
    {
      this.name := name;
      geometryType := t;
      gprim := None;
      parent := None;
    }

    /** `HasParent`: whether a visual has been set as the parent. */
    predicate HasParent()
      reads this
    {
      parent.Some?
    }

    /**
     * `AttachToVisual`: a visual that is not an Omniverse visual is refused
     * and nothing changes. Otherwise a supported type defines its gprim at
     * the visual's path plus the converted name and takes the visual as
     * parent; an unsupported type fails and leaves the parent alone.
     */
    method AttachToVisual(visual: Visual) returns (ok: bool)
      requires |name| < NPos
      modifies this
      ensures !visual.isOmniverse ==> !ok && gprim == old(gprim) && parent == old(parent)
      ensures visual.isOmniverse ==>
        var defined := DefinedGprim(geometryType, GeometryPath(visual, name));
        ok == defined.Some? &&
        gprim == (if ok then defined else old(gprim)) &&
        parent == (if ok then Some(visual) else old(parent))
      ensures ok ==> HasParent()
    {
      if !visual.isOmniverse {
        return false;
      }
      var path := GeometryPath(visual, name);
      match geometryType {
        case Box =>
          gprim := Some(Gprim(CubeKind, path, Vec3(-1.0, -1.0, -1.0), Vec3(1.0, 1.0, 1.0)));
        case Cylinder =>
          gprim := Some(Gprim(CylinderKind, path, Vec3(-1.0, -1.0, -1.0), Vec3(1.0, 1.0, 1.0)));
        case Sphere =>
          gprim := Some(Gprim(SphereKind, path, Vec3(-1.0, -1.0, -1.0), Vec3(1.0, 1.0, 1.0)));
        case Capsule =>
          gprim := Some(Gprim(CapsuleKind, path, Vec3(-0.5, -0.5, -1.0), Vec3(0.5, 0.5, 1.0)));
        case _ =>
          return false;
      }
      parent := Some(visual);
      ok := true;
    }
  }
}
