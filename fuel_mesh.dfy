/**
 * `UpdateMesh` of the live connector: resolve a mesh file (for a Fuel URL,
 * the local Fuel cache directory under HOME, registering each directory on
 * the way as a search path), load it, and convert the first submesh the
 * path selects into one USD mesh defined at the path itself.
 */
module FuelMesh {
  import opened Wrappers
  import opened Strings
  import opened MeshConvert

  /**
   * Two parts joined by one '/'. Unlike `joinPaths`, separators already at
   * the end of `a` or the start of `b` are kept, not collapsed.
   */
  function JoinPath(a: string, b: string): string
  {
    a + "/" + b
  }

  /** The parts of the mesh URI the update reads: its scheme and its path split at '/'. */
  datatype MeshUri = MeshUri(scheme: string, pathTokens: seq<string>)

  predicate IsWeb(scheme: string)
  {
    scheme == "https" || scheme == "http"
  }

  /**
   * The cache directory of a Fuel model: server, then the lower-cased owner,
   * type, model name and model version (token 1, the API version, is not used).
   */
  function FuelBase(home: string, tokens: seq<string>): string
    requires |tokens| >= 6
  {
    var root := JoinPath(JoinPath(JoinPath(home, ".ignition"), "fuel"), tokens[0]);
    JoinPath(JoinPath(JoinPath(JoinPath(root, Lower(tokens[2])), Lower(tokens[3])), Lower(tokens[4])), Lower(tokens[5]))
  }

  /** The directories registered after `dir`: one more lower-cased token each, from token `i` on. */
  function DeeperPaths(dir: string, tokens: seq<string>, i: nat): seq<string>
    decreases |tokens| - i
  {
    if i >= |tokens| then []
    else
      var next := JoinPath(dir, Lower(tokens[i]));
      [next] + DeeperPaths(next, tokens, i + 1)
  }

  /** Every search path a Fuel URL registers: the base, then one per token from index 7 (index 6 is skipped). */
  function FuelSearchPaths(home: string, tokens: seq<string>): (r: seq<string>)
    requires |tokens| >= 6
    ensures r != []
  {
    [FuelBase(home, tokens)] + DeeperPaths(FuelBase(home, tokens), tokens, 7)
  }

  lemma {:induction false} DeeperPathsExtend(dir: string, tokens: seq<string>, i: nat)
    ensures |DeeperPaths(dir, tokens, i)| == if i >= |tokens| then 0 else |tokens| - i
    ensures forall k :: 0 <= k < |DeeperPaths(dir, tokens, i)| ==> dir < DeeperPaths(dir, tokens, i)[k]
    ensures forall k :: 0 <= k < |DeeperPaths(dir, tokens, i)| - 1 ==>
      DeeperPaths(dir, tokens, i)[k] < DeeperPaths(dir, tokens, i)[k + 1]
    decreases |tokens| - i
  {
    if i < |tokens| {
      var next := JoinPath(dir, Lower(tokens[i]));
      DeeperPathsExtend(next, tokens, i + 1);
      assert dir < next;
    }
  }

  /**
   * One search path per token after index 6 besides the base, each a proper
   * prefix of the next; the last is the directory the mesh is looked up in.
   */
  lemma FuelSearchPathsNest(home: string, tokens: seq<string>)
    requires |tokens| >= 6
    ensures |FuelSearchPaths(home, tokens)| == if |tokens| <= 7 then 1 else |tokens| - 6
    ensures forall k :: 0 <= k < |FuelSearchPaths(home, tokens)| - 1 ==>
      FuelSearchPaths(home, tokens)[k] < FuelSearchPaths(home, tokens)[k + 1]
  {
    DeeperPathsExtend(FuelBase(home, tokens), tokens, 7);
  }

  lemma {:induction false} DeeperPathsIgnoreEarlierTokens(dir: string, t1: seq<string>, t2: seq<string>, i: nat)
    requires |t1| == |t2| && forall k :: i <= k < |t1| ==> t1[k] == t2[k]
    ensures DeeperPaths(dir, t1, i) == DeeperPaths(dir, t2, i)
    decreases |t1| - i
  {
    if i < |t1| {
      DeeperPathsIgnoreEarlierTokens(JoinPath(dir, Lower(t1[i])), t1, t2, i + 1);
    }
  }

  /** Tokens 1 and 6 of the URL path play no part in the search paths. */
  lemma FuelSearchPathsIgnoreTokensOneAndSix(home: string, t1: seq<string>, t2: seq<string>)
    requires |t1| == |t2| >= 6
    requires forall k :: 0 <= k < |t1| && k != 1 && k != 6 ==> t1[k] == t2[k]
    ensures FuelSearchPaths(home, t1) == FuelSearchPaths(home, t2)
  {
    DeeperPathsIgnoreEarlierTokens(FuelBase(home, t1), t1, t2, 7);
  }

  /** The file the mesh is loaded from. */
  function MeshFile(home: string, uri: MeshUri, filename: string, findFile: string -> string): string
    requires IsWeb(uri.scheme) ==> |uri.pathTokens| >= 6
  {
    if IsWeb(uri.scheme) then
      var paths := FuelSearchPaths(home, uri.pathTokens);
      paths[|paths| - 1]
    else findFile(filename)
  }

  /** The second submesh loop from `i` on: the first selected submesh, converted at `path`, ends it. */
  function FirstMesh(path: string, subs: seq<SubMesh>, active: bool, i: nat): Option<UsdMesh>
    requires i <= |subs|
    decreases |subs| - i
  {
    if i == |subs| then None
    else if !Selected(path, subs, active, i) then FirstMesh(path, subs, active, i + 1)
    else Converted(path, subs[i])
  }

  /**
   * The result is the first selected submesh converted and defined at the
   * path itself (not at its prim name); no selected submesh gives no mesh.
   */
  lemma {:induction false} FirstMeshIsFirstSelected(path: string, subs: seq<SubMesh>, active: bool, i: nat)
    requires i <= |subs|
    ensures FirstMesh(path, subs, active, i).Some? ==>
      FirstMesh(path, subs, active, i).value.path == path &&
      exists j :: i <= j < |subs| && Selected(path, subs, active, j) &&
        (forall k :: i <= k < j ==> !Selected(path, subs, active, k)) &&
        FirstMesh(path, subs, active, i) == Converted(path, subs[j])
    ensures (forall j :: i <= j < |subs| ==> !Selected(path, subs, active, j)) ==>
      FirstMesh(path, subs, active, i).None?
    decreases |subs| - i
  {
    if i < |subs| {
      FirstMeshIsFirstSelected(path, subs, active, i + 1);
    }
  }

  /**
   * `UpdateMesh`: no HOME gives no mesh before anything is registered or
   * loaded; otherwise the file is resolved, loaded with `load`, filtered and
   * the first selected submesh converted. An unsupported primitive type in
   * that submesh gives no mesh.
   */
  method UpdateMesh(filename: string, uri: MeshUri, home: Option<string>, path: string,
                    findFile: string -> string, load: string -> seq<SubMesh>)
    returns (mesh: Option<UsdMesh>, searchPaths: seq<string>)
    requires IsWeb(uri.scheme) ==> |uri.pathTokens| >= 6
    ensures home.None? ==> mesh.None? && searchPaths == []
    ensures home.Some? ==>
      searchPaths == (if IsWeb(uri.scheme) then FuelSearchPaths(home.value, uri.pathTokens) else []) &&
      var subs := load(MeshFile(home.value, uri, filename, findFile));
      mesh == FirstMesh(path, subs, FilterOn(path, subs), 0)
  {
    searchPaths := [];
    if home.None? {
      return None, [];
    }
    var fullname: string;
    if IsWeb(uri.scheme) {
      var tokens := uri.pathTokens;
      fullname := FuelBase(home.value, tokens);
      searchPaths := [fullname];
      var i := 7;
      while i < |tokens|
        invariant 7 <= i && (i <= |tokens| || i == 7)
        invariant searchPaths + DeeperPaths(fullname, tokens, i) == FuelSearchPaths(home.value, tokens)
        invariant searchPaths != [] && searchPaths[|searchPaths| - 1] == fullname
      {
        assert searchPaths + DeeperPaths(fullname, tokens, i) ==
          (searchPaths + [JoinPath(fullname, Lower(tokens[i]))]) +
          DeeperPaths(JoinPath(fullname, Lower(tokens[i])), tokens, i + 1);
        fullname := JoinPath(fullname, Lower(tokens[i]));
        searchPaths := searchPaths + [fullname];
        i := i + 1;
      }
      assert DeeperPaths(fullname, tokens, i) == [];
      assert searchPaths + [] == searchPaths;
    } else {
      fullname := findFile(filename);
    }
    var subs := load(fullname);
    var active := FilterActive(path, subs);
    var i := 0;
    while i < |subs|
      invariant 0 <= i <= |subs|
      invariant FirstMesh(path, subs, active, 0) == FirstMesh(path, subs, active, i)
    {
      if Selected(path, subs, active, i) {
        mesh := ConvertSubmesh(path, subs[i]);
        return;
      }
      i := i + 1;
    }
    mesh := None;
  }
}
