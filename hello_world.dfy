/**
 * The hello-world samples outside the live-edit loop: the command-line
 * argument loop of the C++ sample, the Omniverse URL checks of both samples,
 * the live-mode decision and the box geometry tables with the loops of
 * `createBox` that copy them into the mesh attributes.
 */
module HelloWorld {
  import opened Wrappers
  import opened XformOps
  import opened MeshConvert

  // ---------------------------------------------------------------------
  // URL checks

  /** The parts of a URL as the client library breaks it (a part may be missing). */
  datatype BrokenUrl = BrokenUrl(scheme: Option<string>, host: Option<string>, path: Option<string>)

  predicate IsOmniScheme(scheme: Option<string>)
  {
    scheme == Some("omniverse") || scheme == Some("omni")
  }

  /** `isValidOmniURL` of the C++ sample: host, path and an Omniverse scheme. */
  predicate IsValidOmniUrlCpp(u: BrokenUrl)
  {
    u.host.Some? && u.path.Some? && IsOmniScheme(u.scheme)
  }

  /** `isValidOmniUrl` of the Python sample: the scheme alone decides. */
  predicate IsValidOmniUrlPy(u: BrokenUrl)
  {
    IsOmniScheme(u.scheme)
  }

  /**
   * The C++ check is the stricter one: everything it accepts the Python one
   * accepts, and the Python one also accepts exactly the Omniverse URLs that
   * lack a host or a path.
   */
  lemma CppUrlCheckIsStricter(u: BrokenUrl)
    ensures IsValidOmniUrlCpp(u) ==> IsValidOmniUrlPy(u)
    ensures IsValidOmniUrlPy(u) && !IsValidOmniUrlCpp(u) <==>
      IsOmniScheme(u.scheme) && (u.host.None? || u.path.None?)
  {
  }

  // ---------------------------------------------------------------------
  // The argument loop of the C++ sample

  const DefaultDestination: string := "omniverse://localhost/Users/test"

  datatype Options = Options(live: bool, verbose: bool, destinationPath: string, existingStage: string)

  const Defaults: Options := Options(false, false, DefaultDestination, "")

  /** What the loop prints without stopping: a suspicious URL (as shown) or an unknown option. */
  datatype Warning = NotOmniUrl(shown: string) | Unrecognized(option: string)

  /** How the loop ends: help printed (exit 0), a missing value (exit -1), or the sample proceeds. */
  datatype Outcome = ShowHelp | MissingValue | Proceed(options: Options)

  function ExitCode(o: Outcome): Option<int>
  {
    match o
    case ShowHelp => Some(0)
    case MissingValue => Some(-1)
    case Proceed(_) => None
  }

  predicate IsLiveFlag(a: string)
  {
    a == "-l" || a == "--live" || a == "-e" || a == "--existing"
  }

  predicate TakesValue(a: string)
  {
    a == "-p" || a == "--path" || a == "-e" || a == "--existing"
  }

  predicate IsHelpFlag(a: string)
  {
    a == "-h" || a == "--help"
  }

  /**
   * The loop over the arguments after the program name, from the options and
   * warnings so far. `breakUrl` stands for the client library's URL parser.
   */
  function ParseFrom(rest: seq<string>, o: Options, warnings: seq<Warning>, breakUrl: string -> BrokenUrl)
    : (seq<Warning>, Outcome)
    decreases |rest|
  {
    if rest == [] then (warnings, Proceed(o))
    else
      var a := rest[0];
      if a == "-h" || a == "--help" then (warnings, ShowHelp)
      else if a == "-l" || a == "--live" then
        ParseFrom(rest[1..], o.(live := true), warnings, breakUrl)
      else if a == "-p" || a == "--path" then
        if |rest| == 1 then (warnings, MissingValue)
        else
          var w := if IsValidOmniUrlCpp(breakUrl(rest[1])) then warnings else warnings + [NotOmniUrl(rest[1])];
          ParseFrom(rest[2..], o.(destinationPath := rest[1]), w, breakUrl)
      else if a == "-v" || a == "--verbose" then
        ParseFrom(rest[1..], o.(verbose := true), warnings, breakUrl)
      else if a == "-e" || a == "--existing" then
        if |rest| == 1 then (warnings, MissingValue)
        else
          // the warning shows the destination path, not the stage it is about
          var w := if IsValidOmniUrlCpp(breakUrl(rest[1])) then warnings else warnings + [NotOmniUrl(o.destinationPath)];
          ParseFrom(rest[2..], o.(live := true, existingStage := rest[1]), w, breakUrl)
      else
        ParseFrom(rest[1..], o, warnings + [Unrecognized(a)], breakUrl)
  }

  function Parse(args: seq<string>, breakUrl: string -> BrokenUrl): (seq<Warning>, Outcome)
  {
    ParseFrom(args, Defaults, [], breakUrl)
  }

  /** The `for` loop of `main` over `argv[1..]`, returning at help or a missing value. */
  method ParseArgs(args: seq<string>, breakUrl: string -> BrokenUrl) returns (warnings: seq<Warning>, outcome: Outcome)
    ensures (warnings, outcome) == Parse(args, breakUrl)
  {
    var o := Defaults;
    warnings := [];
    var x := 0;
    while x < |args|
      invariant 0 <= x <= |args|
      invariant Parse(args, breakUrl) == ParseFrom(args[x..], o, warnings, breakUrl)
      decreases |args| - x
    {
      var a := args[x];
      if a == "-h" || a == "--help" {
        return warnings, ShowHelp;
      } else if a == "-l" || a == "--live" {
        o := o.(live := true);
      } else if a == "-p" || a == "--path" {
        if x == |args| - 1 {
          return warnings, MissingValue;
        }
        x := x + 1;
        assert args[x - 1..][2..] == args[x + 1..];
        o := o.(destinationPath := args[x]);
        if !IsValidOmniUrlCpp(breakUrl(o.destinationPath)) {
          warnings := warnings + [NotOmniUrl(o.destinationPath)];
        }
      } else if a == "-v" || a == "--verbose" {
        o := o.(verbose := true);
      } else if a == "-e" || a == "--existing" {
        if x == |args| - 1 {
          return warnings, MissingValue;
        }
        x := x + 1;
        assert args[x - 1..][2..] == args[x + 1..];
        if !IsValidOmniUrlCpp(breakUrl(args[x])) {
          warnings := warnings + [NotOmniUrl(o.destinationPath)];
        }
        o := o.(live := true, existingStage := args[x]);
      } else {
        warnings := warnings + [Unrecognized(a)];
      }
      assert args[x..][1..] == args[x + 1..];
      x := x + 1;
    }
    outcome := Proceed(o);
  }

  /** A missing value is reported only when the last argument is an option that takes one. */
  lemma {:induction false} MissingValueOnlyAtEnd(rest: seq<string>, o: Options, w: seq<Warning>, b: string -> BrokenUrl)
    ensures ParseFrom(rest, o, w, b).1 == MissingValue ==> |rest| >= 1 && TakesValue(rest[|rest| - 1])
    decreases |rest|
  {
    if rest != [] {
      var a := rest[0];
      if a == "-h" || a == "--help" {
      } else if a == "-l" || a == "--live" {
        MissingValueOnlyAtEnd(rest[1..], o.(live := true), w, b);
        LastOfTail(rest, 1);
      } else if a == "-p" || a == "--path" {
        if |rest| > 1 {
          var w' := if IsValidOmniUrlCpp(b(rest[1])) then w else w + [NotOmniUrl(rest[1])];
          MissingValueOnlyAtEnd(rest[2..], o.(destinationPath := rest[1]), w', b);
          LastOfTail(rest, 2);
        }
      } else if a == "-v" || a == "--verbose" {
        MissingValueOnlyAtEnd(rest[1..], o.(verbose := true), w, b);
        LastOfTail(rest, 1);
      } else if a == "-e" || a == "--existing" {
        if |rest| > 1 {
          var w' := if IsValidOmniUrlCpp(b(rest[1])) then w else w + [NotOmniUrl(o.destinationPath)];
          MissingValueOnlyAtEnd(rest[2..], o.(live := true, existingStage := rest[1]), w', b);
          LastOfTail(rest, 2);
        }
      } else {
        MissingValueOnlyAtEnd(rest[1..], o, w + [Unrecognized(a)], b);
        LastOfTail(rest, 1);
      }
    }
  }

  lemma LastOfTail(rest: seq<string>, k: nat)
    requires k <= |rest|
    ensures |rest[k..]| >= 1 ==> rest[k..][|rest[k..]| - 1] == rest[|rest| - 1]
  {
  }

  /** Warnings are only ever added: the ones so far stay at the front. */
  lemma {:induction false} WarningsAccumulate(rest: seq<string>, o: Options, w: seq<Warning>, b: string -> BrokenUrl)
    ensures w <= ParseFrom(rest, o, w, b).0
    decreases |rest|
  {
    if rest != [] {
      var a := rest[0];
      if a == "-h" || a == "--help" {
      } else if a == "-l" || a == "--live" {
        WarningsAccumulate(rest[1..], o.(live := true), w, b);
      } else if a == "-p" || a == "--path" {
        if |rest| > 1 {
          var w' := if IsValidOmniUrlCpp(b(rest[1])) then w else w + [NotOmniUrl(rest[1])];
          WarningsAccumulate(rest[2..], o.(destinationPath := rest[1]), w', b);
        }
      } else if a == "-v" || a == "--verbose" {
        WarningsAccumulate(rest[1..], o.(verbose := true), w, b);
      } else if a == "-e" || a == "--existing" {
        if |rest| > 1 {
          var w' := if IsValidOmniUrlCpp(b(rest[1])) then w else w + [NotOmniUrl(o.destinationPath)];
          WarningsAccumulate(rest[2..], o.(live := true, existingStage := rest[1]), w', b);
        }
      } else {
        WarningsAccumulate(rest[1..], o, w + [Unrecognized(a)], b);
      }
    }
  }

  /**
   * Live mode has a cause: when the loop proceeds in live mode, it was live
   * before or some argument is `-l`, `--live`, `-e` or `--existing`.
   */
  lemma {:induction false} LiveModeHasCause(rest: seq<string>, o: Options, w: seq<Warning>, b: string -> BrokenUrl)
    ensures ParseFrom(rest, o, w, b).1.Proceed? && ParseFrom(rest, o, w, b).1.options.live ==>
      o.live || exists i :: 0 <= i < |rest| && IsLiveFlag(rest[i])
    decreases |rest|
  {
    if rest != [] {
      var a := rest[0];
      if a == "-h" || a == "--help" {
      } else if a == "-l" || a == "--live" {
        assert IsLiveFlag(rest[0]);
      } else if a == "-p" || a == "--path" {
        if |rest| > 1 {
          var w' := if IsValidOmniUrlCpp(b(rest[1])) then w else w + [NotOmniUrl(rest[1])];
          LiveModeHasCause(rest[2..], o.(destinationPath := rest[1]), w', b);
          if exists i :: 0 <= i < |rest[2..]| && IsLiveFlag(rest[2..][i]) {
            var i :| 0 <= i < |rest[2..]| && IsLiveFlag(rest[2..][i]);
            assert IsLiveFlag(rest[i + 2]);
          }
        }
      } else if a == "-v" || a == "--verbose" {
        LiveModeHasCause(rest[1..], o.(verbose := true), w, b);
        if exists i :: 0 <= i < |rest[1..]| && IsLiveFlag(rest[1..][i]) {
          var i :| 0 <= i < |rest[1..]| && IsLiveFlag(rest[1..][i]);
          assert IsLiveFlag(rest[i + 1]);
        }
      } else if a == "-e" || a == "--existing" {
        assert IsLiveFlag(rest[0]);
      } else {
        LiveModeHasCause(rest[1..], o, w + [Unrecognized(a)], b);
        if exists i :: 0 <= i < |rest[1..]| && IsLiveFlag(rest[1..][i]) {
          var i :| 0 <= i < |rest[1..]| && IsLiveFlag(rest[1..][i]);
          assert IsLiveFlag(rest[i + 1]);
        }
      }
    }
  }

  /** Help has a cause: when the loop stops to print help, some argument is `-h` or `--help`. */
  lemma {:induction false} HelpHasCause(rest: seq<string>, o: Options, w: seq<Warning>, b: string -> BrokenUrl)
    ensures ParseFrom(rest, o, w, b).1.ShowHelp? ==> exists i :: 0 <= i < |rest| && IsHelpFlag(rest[i])
    decreases |rest|
  {
    if rest != [] {
      var a := rest[0];
      if IsHelpFlag(a) {
        assert IsHelpFlag(rest[0]);
      } else if (a == "-p" || a == "--path" || a == "-e" || a == "--existing") && |rest| > 1 {
        var o' := if a == "-p" || a == "--path" then o.(destinationPath := rest[1])
                  else o.(live := true, existingStage := rest[1]);
        var shown := if a == "-p" || a == "--path" then rest[1] else o.destinationPath;
        var w' := if IsValidOmniUrlCpp(b(rest[1])) then w else w + [NotOmniUrl(shown)];
        assert ParseFrom(rest, o, w, b) == ParseFrom(rest[2..], o', w', b);
        HelpHasCause(rest[2..], o', w', b);
        if ParseFrom(rest, o, w, b).1.ShowHelp? {
          var i :| 0 <= i < |rest[2..]| && IsHelpFlag(rest[2..][i]);
          assert IsHelpFlag(rest[i + 2]);
        }
      } else if a == "-p" || a == "--path" || a == "-e" || a == "--existing" {
      } else {
        var o' := if a == "-l" || a == "--live" then o.(live := true)
                  else if a == "-v" || a == "--verbose" then o.(verbose := true) else o;
        var w' := if a == "-l" || a == "--live" || a == "-v" || a == "--verbose" then w else w + [Unrecognized(a)];
        assert ParseFrom(rest, o, w, b) == ParseFrom(rest[1..], o', w', b);
        HelpHasCause(rest[1..], o', w', b);
        if ParseFrom(rest, o, w, b).1.ShowHelp? {
          var i :| 0 <= i < |rest[1..]| && IsHelpFlag(rest[1..][i]);
          assert IsHelpFlag(rest[i + 1]);
        }
      }
    }
  }

  /**
   * `main` returns 0 only after a help option and -1 only when an option that
   * takes a value comes last; otherwise it goes on to the stage.
   */
  lemma ExitCodeHasCause(args: seq<string>, b: string -> BrokenUrl)
    ensures ExitCode(Parse(args, b).1) == Some(0) ==> exists i :: 0 <= i < |args| && IsHelpFlag(args[i])
    ensures ExitCode(Parse(args, b).1) == Some(-1) ==> |args| >= 1 && TakesValue(args[|args| - 1])
    ensures ExitCode(Parse(args, b).1).None? <==> Parse(args, b).1.Proceed?
  {
    HelpHasCause(args, Defaults, [], b);
    MissingValueOnlyAtEnd(args, Defaults, [], b);
  }

  /** The live edit runs only with a mesh and after `-l`, `--live`, `-e` or `--existing`. */
  lemma LiveEditHasCause(args: seq<string>, b: string -> BrokenUrl, haveMesh: bool)
    ensures RunsLiveEdit(Parse(args, b).1, haveMesh) ==>
      haveMesh && exists i :: 0 <= i < |args| && IsLiveFlag(args[i])
  {
    LiveModeHasCause(args, Defaults, [], b);
  }

  /**
   * `-e` with a URL the check rejects still opens that stage in live mode,
   * and the warning it prints names the destination path instead.
   */
  lemma ExistingWarningShowsDestination(stage: string, b: string -> BrokenUrl)
    requires !IsValidOmniUrlCpp(b(stage))
    ensures Parse(["-e", stage], b) ==
      ([NotOmniUrl(DefaultDestination)], Proceed(Defaults.(live := true, existingStage := stage)))
  {
    var args := ["-e", stage];
    assert args[0] == "-e" && |args| == 2 && args[1] == stage;
    assert args[2..] == [];
    assert Defaults.destinationPath == DefaultDestination;
    assert "-e" != "-h" && "-e" != "--help" && "-e" != "-l" && "-e" != "--live";
    assert "-e" != "-p" && "-e" != "--path" && "-e" != "-v" && "-e" != "--verbose";
    var w: seq<Warning> := [];
    var w' := if IsValidOmniUrlCpp(b(args[1])) then w else w + [NotOmniUrl(Defaults.destinationPath)];
    assert w' == [NotOmniUrl(DefaultDestination)];
    assert ParseFrom(args, Defaults, w, b) == ParseFrom(args[2..], Defaults.(live := true, existingStage := args[1]), w', b);
  }

  /** `main` runs the live edit iff the loop proceeded in live mode and a box mesh was found or made. */
  predicate RunsLiveEdit(outcome: Outcome, haveMesh: bool)
  {
    outcome.Proceed? && outcome.options.live && haveMesh
  }

  /** The Python sample's live mode: `args.live or bool(existing)`. */
  predicate DoLiveEditPy(live: bool, existing: Option<string>)
  {
    live || (existing.Some? && existing.value != "")
  }

  /**
   * The samples disagree on an empty stage argument: the C++ loop turns live
   * mode on for `-e ""`, the Python sample does not.
   */
  lemma EmptyExistingStageDiffers(b: string -> BrokenUrl)
    ensures Parse(["-e", ""], b).1.Proceed?
    ensures Parse(["-e", ""], b).1.options.live
    ensures !DoLiveEditPy(false, Some(""))
  {
    assert ["-e", ""][2..] == [];
  }

  // ---------------------------------------------------------------------
  // The box

  const H: real := 50.0

  const BoxVertexIndices: seq<int> := [
    0, 1, 2, 1, 3, 2, 4, 5, 6, 4, 6, 7, 8, 9, 10, 8, 10, 11,
    12, 13, 14, 12, 14, 15, 16, 17, 18, 16, 18, 19, 20, 21, 22, 20, 22, 23 ]

  const BoxNormals: seq<Vec3> := [
    Vec3(0.0, 0.0, -1.0), Vec3(0.0, 0.0, -1.0), Vec3(0.0, 0.0, -1.0), Vec3(0.0, 0.0, -1.0),
    Vec3(0.0, 0.0, 1.0), Vec3(0.0, 0.0, 1.0), Vec3(0.0, 0.0, 1.0), Vec3(0.0, 0.0, 1.0),
    Vec3(0.0, -1.0, 0.0), Vec3(0.0, -1.0, 0.0), Vec3(0.0, -1.0, 0.0), Vec3(0.0, -1.0, 0.0),
    Vec3(1.0, 0.0, 0.0), Vec3(1.0, 0.0, 0.0), Vec3(1.0, 0.0, 0.0), Vec3(1.0, 0.0, 0.0),
    Vec3(0.0, 1.0, 0.0), Vec3(0.0, 1.0, 0.0), Vec3(0.0, 1.0, 0.0), Vec3(0.0, 1.0, 0.0),
    Vec3(-1.0, 0.0, 0.0), Vec3(-1.0, 0.0, 0.0), Vec3(-1.0, 0.0, 0.0), Vec3(-1.0, 0.0, 0.0) ]

  const BoxPoints: seq<Vec3> := [
    Vec3(H, -H, -H), Vec3(-H, -H, -H), Vec3(H, H, -H), Vec3(-H, H, -H),
    Vec3(H, H, H), Vec3(-H, H, H), Vec3(-H, -H, H), Vec3(H, -H, H),
    Vec3(H, -H, H), Vec3(-H, -H, H), Vec3(-H, -H, -H), Vec3(H, -H, -H),
    Vec3(H, H, H), Vec3(H, -H, H), Vec3(H, -H, -H), Vec3(H, H, -H),
    Vec3(-H, H, H), Vec3(H, H, H), Vec3(H, H, -H), Vec3(-H, H, -H),
    Vec3(-H, -H, H), Vec3(-H, H, H), Vec3(-H, H, -H), Vec3(-H, -H, -H) ]

  const BoxUVs: seq<(real, real)> := [
    (0.0, 0.0), (0.0, 1.0), (1.0, 1.0), (1.0, 0.0),
    (0.0, 0.0), (0.0, 1.0), (1.0, 1.0), (1.0, 0.0),
    (0.0, 0.0), (0.0, 1.0), (1.0, 1.0), (1.0, 0.0),
    (0.0, 0.0), (0.0, 1.0), (1.0, 1.0), (1.0, 0.0),
    (0.0, 0.0), (0.0, 1.0), (1.0, 1.0), (1.0, 0.0),
    (0.0, 0.0), (0.0, 1.0), (1.0, 1.0), (1.0, 0.0) ]

  /** Twelve triangles: two per face, six faces. */
  const BoxFaces: nat := 12

  /** The one display colour of the box, an RGB green. */
  const BoxColor: Vec3 := Vec3(0.463, 0.725, 0.0)

  /** The mesh attributes `createBox` writes, with the `st` primvar as `st`. */
  datatype MeshData = MeshData(points: seq<Vec3>, faceVertexIndices: seq<int>,
                               normals: seq<Vec3>, faceVertexCounts: seq<int>,
                               displayColor: seq<Vec3>, st: seq<(real, real)>)

  /**
   * The loops of `createBox`: copy the tables into sized arrays, fill twelve
   * counts of 3, set the single display colour and copy the UV table into `st`.
   */
  method CreateBox() returns (m: MeshData)
    ensures m == MeshData(BoxPoints, BoxVertexIndices, BoxNormals, Uniform(BoxFaces, 3), [BoxColor], BoxUVs)
  {
    var numVertices := |BoxPoints|;
    var points := new Vec3[numVertices];
    for i := 0 to numVertices
      invariant points[..i] == BoxPoints[..i]
    {
      points[i] := BoxPoints[i];
    }
    var ps := points[..];
    var numIndices := |BoxVertexIndices|;
    var indices := new int[numIndices];
    for i := 0 to numIndices
      invariant indices[..i] == BoxVertexIndices[..i]
    {
      indices[i] := BoxVertexIndices[i];
    }
    var ixs := indices[..];
    // the normals array is sized and filled by the vertex count
    var normals := new Vec3[numVertices];
    for i := 0 to numVertices
      invariant normals[..i] == BoxNormals[..i]
    {
      normals[i] := BoxNormals[i];
    }
    var ns := normals[..];
    var counts := new int[BoxFaces];
    for i := 0 to BoxFaces
      invariant forall k :: 0 <= k < i ==> counts[k] == 3
    {
      counts[i] := 3;
    }
    var cs := counts[..];
    var colors := [BoxColor];
    var uvCount := |BoxUVs|;
    var uvs := new (real, real)[uvCount];
    for i := 0 to uvCount
      invariant uvs[..i] == BoxUVs[..i]
    {
      uvs[i] := BoxUVs[i];
    }
    assert BoxPoints[..numVertices] == BoxPoints && BoxNormals[..numVertices] == BoxNormals;
    assert BoxVertexIndices[..numIndices] == BoxVertexIndices;
    assert BoxUVs[..uvCount] == BoxUVs;
    m := MeshData(ps, ixs, ns, cs, colors, uvs[..]);
  }

  /** The box mesh is well formed: one normal per point, indices in range, counts covering the indices. */
  lemma BoxIsWellFormed()
    ensures |BoxPoints| == |BoxNormals| == |BoxUVs| == 24
    ensures |BoxVertexIndices| == 36
    ensures forall k :: 0 <= k < |BoxVertexIndices| ==> 0 <= BoxVertexIndices[k] < |BoxPoints|
    ensures Sum(Uniform(BoxFaces, 3)) == |BoxVertexIndices|
  {
    SumUniform(BoxFaces, 3);
  }
}
