/**
 * Conversion of Ignition meshes into USD meshes, shared by the geometry
 * attachment and the mesh update of the live connector: the prim-name
 * helpers, the face counts per primitive type, the submesh filter and the
 * per-submesh copy of points, indices, texture coordinates and normals.
 */
module MeshConvert {
  import opened Wrappers
  import opened Strings
  import opened XformOps

  // ---------------------------------------------------------------------
  // Names

  /** `removeDash`: every '-' becomes '_'. */
  function RemoveDash(s: string): string
  {
    Replace(s, '-', '_')
  }

  /** The result has the same length, no '-' at all, and every other character in place. */
  lemma RemoveDashMeaning(s: string)
    ensures |RemoveDash(s)| == |s|
    ensures '-' !in RemoveDash(s)
    ensures forall i :: 0 <= i < |s| && s[i] != '-' ==> RemoveDash(s)[i] == s[i]
    ensures RemoveDash(RemoveDash(s)) == RemoveDash(s)
  {
    ReplaceAt(s, '-', '_');
    ReplaceRemoves(s, '-', '_');
    ReplaceIdempotent(s, '-', '_');
  }

  /** The prim a converted submesh gets: `removeDash(path + "/" + name)` without one trailing '/'. */
  function PrimName(path: string, name: string): string
  {
    var p := RemoveDash(path + "/" + name);
    if HasSuffix(p, "/") then p[..|p| - 1] else p
  }

  /** A submesh without a name lands on the path itself. */
  lemma PrimNameOfUnnamed(path: string)
    ensures PrimName(path, "") == RemoveDash(path)
  {
    ReplaceAppend(path, "/", '-', '_');
    assert path + "/" + "" == path + "/";
  }

  /** A name not ending in '/' is joined to the path with one '/'. */
  lemma PrimNameJoins(path: string, name: string)
    requires name != [] && name[|name| - 1] != '/'
    ensures PrimName(path, name) == RemoveDash(path) + "/" + RemoveDash(name)
  {
    ReplaceAppend(path + "/", name, '-', '_');
    ReplaceAppend(path, "/", '-', '_');
    assert RemoveDash("/") == "/";
    ReplaceAt(name, '-', '_');
    var rn := RemoveDash(name);
    var p := RemoveDash(path) + "/" + rn;
    assert RemoveDash(path + "/" + name) == p;
    assert rn[|name| - 1] != '/';
    assert p[|p| - 1] == rn[|name| - 1];
    assert p[|p| - 1..] != "/" by {
      assert p[|p| - 1..][0] == p[|p| - 1];
    }
    assert !HasSuffix(p, "/");
  }

  // ---------------------------------------------------------------------
  // Faces

  datatype PrimitiveType = Points | Lines | Triangles | LineStrips | TriFans | TriStrips

  /** Vertices per face of the supported primitive types. */
  function VerticesPerFace(t: PrimitiveType): (r: Option<nat>)
    ensures r.Some? ==> r.value > 0
  {
    match t
    case Points => Some(1)
    case Lines => Some(2)
    case Triangles => Some(3)
    case _ => None
  }

  /** `n` faces of `k` vertices each. */
  function Uniform(n: nat, k: int): (r: seq<int>)
    ensures |r| == n && forall j :: 0 <= j < n ==> r[j] == k
  {
    seq(n, j => k)
  }

  function Sum(s: seq<int>): int
  {
    if s == [] then 0 else s[0] + Sum(s[1..])
  }

  lemma {:induction false} SumUniform(n: nat, k: int)
    ensures Sum(Uniform(n, k)) == n * k
  {
    if n > 0 {
      assert Uniform(n, k)[1..] == Uniform(n - 1, k);
      SumUniform(n - 1, k);
    }
  }

  /**
   * The `faceVertexCounts` for `indexCount` indices of primitive type `t`, or
   * `None` for a type the conversion rejects.
   */
  function FaceCounts(t: PrimitiveType, indexCount: nat): Option<seq<int>>
  {
    match VerticesPerFace(t)
    case None => None
    case Some(k) => Some(Uniform(indexCount / k, k))
  }

  /** The switch on the primitive type and the loop that pushes one count per face. */
  method FaceVertexCounts(t: PrimitiveType, indexCount: nat) returns (r: Option<seq<int>>)
    ensures r == FaceCounts(t, indexCount)
  {
    var verticesPerFace: nat;
    var numFaces: nat;
    match t {
      case Points =>
        verticesPerFace := 1;
        numFaces := indexCount;
      case Lines =>
        verticesPerFace := 2;
        numFaces := indexCount / 2;
      case Triangles =>
        verticesPerFace := 3;
        numFaces := indexCount / 3;
      case _ =>
        return None;
    }
    var counts: seq<int> := [];
    var n := 0;
    while n < numFaces
      invariant 0 <= n <= numFaces
      invariant counts == Uniform(n, verticesPerFace)
    {
      counts := counts + [verticesPerFace];
      n := n + 1;
    }
    r := Some(counts);
  }

  /**
   * The faces cover the indices up to a remainder smaller than one face:
   * points use every index, lines and triangles drop a trailing partial face.
   */
  lemma FaceCountsCoverIndices(t: PrimitiveType, indexCount: nat)
    requires FaceCounts(t, indexCount).Some?
    ensures var total := Sum(FaceCounts(t, indexCount).value);
      total <= indexCount < total + VerticesPerFace(t).value
    ensures t == Points ==> Sum(FaceCounts(t, indexCount).value) == indexCount
  {
    var k := VerticesPerFace(t).value;
    SumUniform(indexCount / k, k);
  }

  /** Only points, lines and triangles are converted. */
  lemma FaceCountsSupported(t: PrimitiveType, indexCount: nat)
    ensures FaceCounts(t, indexCount).Some? <==> t in {Points, Lines, Triangles}
  {
  }

  // ---------------------------------------------------------------------
  // Submeshes

  /** The parts of an Ignition submesh the conversion reads. */
  datatype SubMesh = SubMesh(
    name: string, primitive: PrimitiveType,
    vertices: seq<Vec3>, indices: seq<int>, texCoords: seq<(real, real)>, normals: seq<Vec3>)

  /** A USD mesh prim as the conversion writes it. */
  datatype UsdMesh = UsdMesh(
    path: string, points: seq<Vec3>, faceVertexIndices: seq<int>, faceVertexCounts: seq<int>,
    st: seq<(real, real)>, normals: seq<Vec3>)

  /** The submesh's name, lower-cased, occurs in the lower-cased path. */
  predicate NamedInPath(path: string, name: string)
  {
    Contains(Lower(path), Lower(name))
  }

  /** Filtering is on iff there are several submeshes and the path names one of them. */
  predicate FilterOn(path: string, subs: seq<SubMesh>)
  {
    |subs| != 1 && exists i :: 0 <= i < |subs| && NamedInPath(path, subs[i].name)
  }

  /** The first submesh loop, which stops at the first submesh the path names. */
  method FilterActive(path: string, subs: seq<SubMesh>) returns (active: bool)
    ensures active == FilterOn(path, subs)
  {
    active := false;
    var i := 0;
    while i < |subs|
      invariant 0 <= i <= |subs|
      invariant !active
      invariant |subs| != 1 ==> forall j :: 0 <= j < i ==> !NamedInPath(path, subs[j].name)
    {
      if |subs| != 1 && NamedInPath(path, subs[i].name) {
        active := true;
        return;
      }
      i := i + 1;
    }
  }

  /** Whether the second loop converts submesh `i`. */
  predicate Selected(path: string, subs: seq<SubMesh>, active: bool, i: nat)
    requires i < |subs|
  {
    !active || |subs| == 1 || NamedInPath(path, subs[i].name)
  }

  /** Filtering never skips everything: when it is on, some submesh is named by the path. */
  lemma FilterKeepsNamedSubmesh(path: string, subs: seq<SubMesh>, active: bool)
    requires active == FilterOn(path, subs)
    ensures subs != [] ==> exists i :: 0 <= i < |subs| && Selected(path, subs, active, i)
    ensures !active ==> forall i :: 0 <= i < |subs| ==> Selected(path, subs, active, i)
  {
    if active {
      var i :| 0 <= i < |subs| && NamedInPath(path, subs[i].name);
      assert Selected(path, subs, active, i);
    } else if subs != [] {
      assert Selected(path, subs, active, 0);
    }
  }

  /** `1 - v`: USD's texture origin is at the bottom. */
  function FlipV(uvs: seq<(real, real)>): (r: seq<(real, real)>)
    ensures |r| == |uvs| && forall j :: 0 <= j < |uvs| ==> r[j] == (uvs[j].0, 1.0 - uvs[j].1)
  {
    seq(|uvs|, j requires 0 <= j < |uvs| => (uvs[j].0, 1.0 - uvs[j].1))
  }

  /** The mesh a submesh becomes at `primPath`, or `None` for an unsupported primitive type. */
  function Converted(primPath: string, sm: SubMesh): Option<UsdMesh>
  {
    match FaceCounts(sm.primitive, |sm.indices|)
    case None => None
    case Some(counts) => Some(UsdMesh(primPath, sm.vertices, sm.indices, counts, FlipV(sm.texCoords), sm.normals))
  }

  /** The body of the second loop for one submesh: four copy loops and the face counts. */
  method ConvertSubmesh(primPath: string, sm: SubMesh) returns (r: Option<UsdMesh>)
    ensures r == Converted(primPath, sm)
  {
    var points: seq<Vec3> := [];
    for v := 0 to |sm.vertices|
      invariant points == sm.vertices[..v]
    {
      points := points + [sm.vertices[v]];
    }
    var indices: seq<int> := [];
    for j := 0 to |sm.indices|
      invariant indices == sm.indices[..j]
    {
      indices := indices + [sm.indices[j]];
    }
    var uvs: seq<(real, real)> := [];
    for j := 0 to |sm.texCoords|
      invariant uvs == FlipV(sm.texCoords[..j])
    {
      uvs := uvs + [(sm.texCoords[j].0, 1.0 - sm.texCoords[j].1)];
    }
    var normals: seq<Vec3> := [];
    for j := 0 to |sm.normals|
      invariant normals == sm.normals[..j]
    {
      normals := normals + [sm.normals[j]];
    }
    assert sm.vertices[..|sm.vertices|] == sm.vertices;
    assert sm.indices[..|sm.indices|] == sm.indices;
    assert sm.texCoords[..|sm.texCoords|] == sm.texCoords;
    assert sm.normals[..|sm.normals|] == sm.normals;
    var counts := FaceVertexCounts(sm.primitive, |indices|);
    if counts.None? {
      return None;
    }
    r := Some(UsdMesh(primPath, points, indices, counts.value, uvs, normals));
  }

  /** A converted mesh keeps the submesh's geometry and has one count per whole face. */
  lemma ConvertedKeepsGeometry(primPath: string, sm: SubMesh)
    requires Converted(primPath, sm).Some?
    ensures var m := Converted(primPath, sm).value;
      m.path == primPath && m.points == sm.vertices && m.faceVertexIndices == sm.indices &&
      m.normals == sm.normals && |m.st| == |sm.texCoords| &&
      Sum(m.faceVertexCounts) <= |m.faceVertexIndices|
  {
    FaceCountsCoverIndices(sm.primitive, |sm.indices|);
  }
}
