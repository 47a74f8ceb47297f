/**
 * The Visual Studio discovery script: picking an installation from the
 * `vswhere` listing, the first MSVC version folder, the Windows SDK
 * variables read from `winsdk.bat` output, and the rewrite of the source
 * paths in the host dependencies file.
 */
module BuildTools {
  import opened Wrappers
  import opened Strings

  /** One entry of the `vswhere -format json` listing. */
  datatype VsEntry = VsEntry(displayName: string, installationPath: string)

  /** The first installation whose display name contains the search text. */
  function FirstMatch(versions: seq<VsEntry>, searchStr: string): Option<string>
  {
    if versions == [] then None
    else if Contains(versions[0].displayName, searchStr) then Some(versions[0].installationPath)
    else FirstMatch(versions[1..], searchStr)
  }

  /**
   * A match is found iff some display name contains the search text, and it
   * is the installation path of the first such entry.
   */
  lemma {:induction false} FirstMatchMeaning(versions: seq<VsEntry>, searchStr: string)
    ensures FirstMatch(versions, searchStr).Some? <==> exists i :: 0 <= i < |versions| && Contains(versions[i].displayName, searchStr)
    ensures FirstMatch(versions, searchStr).Some? ==>
      exists i :: 0 <= i < |versions| && Contains(versions[i].displayName, searchStr) &&
        (forall j :: 0 <= j < i ==> !Contains(versions[j].displayName, searchStr)) &&
        FirstMatch(versions, searchStr).value == versions[i].installationPath
  {
    if versions != [] && !Contains(versions[0].displayName, searchStr) {
      var rest := versions[1..];
      FirstMatchMeaning(rest, searchStr);
      if exists i :: 0 <= i < |versions| && Contains(versions[i].displayName, searchStr) {
        var i :| 0 <= i < |versions| && Contains(versions[i].displayName, searchStr);
        assert rest[i - 1] == versions[i];
      }
      if FirstMatch(rest, searchStr).Some? {
        var i :| 0 <= i < |rest| && Contains(rest[i].displayName, searchStr) &&
          (forall j :: 0 <= j < i ==> !Contains(rest[j].displayName, searchStr)) &&
          FirstMatch(rest, searchStr).value == rest[i].installationPath;
        assert versions[i + 1] == rest[i];
        forall j | 0 <= j < i + 1
          ensures !Contains(versions[j].displayName, searchStr)
        {
          if j > 0 {
            assert versions[j] == rest[j - 1];
          }
        }
      }
    }
  }

  /** What `find_vs` answers once `vswhere` has run: the last installation when listing all, else the first match. */
  function Installed(versions: seq<VsEntry>, searchStr: string, listall: bool): Option<string>
  {
    if listall then (if versions == [] then None else Some(versions[|versions| - 1].installationPath))
    else FirstMatch(versions, searchStr)
  }

  /**
   * `find_vs`: nothing without a (non-empty) Program Files (x86) variable
   * or without `vswhere.exe`; otherwise the listing's answer.
   */
  method FindVs(programFiles: Option<string>, vswhereExists: bool, versions: seq<VsEntry>, searchStr: string, listall: bool)
    returns (found: Option<string>)
    ensures (programFiles.None? || programFiles == Some("") || !vswhereExists) ==> found.None?
    ensures (programFiles.Some? && programFiles.value != "" && vswhereExists) ==> found == Installed(versions, searchStr, listall)
  {
    if programFiles.None? || programFiles.value == "" {
      return None;
    }
    if !vswhereExists {
      return None;
    }
    var lastVersion: Option<string> := None;
    var i := 0;
    while i < |versions|
      invariant 0 <= i <= |versions|
      invariant listall ==> lastVersion == if i == 0 then None else Some(versions[i - 1].installationPath)
      invariant !listall ==> lastVersion.None? && FirstMatch(versions, searchStr) == FirstMatch(versions[i..], searchStr)
    {
      if listall {
        lastVersion := Some(versions[i].installationPath);
      } else if Contains(versions[i].displayName, searchStr) {
        return Some(versions[i].installationPath);
      }
      assert versions[i..][1..] == versions[i + 1..];
      i := i + 1;
    }
    return lastVersion;
  }

  /**
   * `find_msvc_ver`: the first entry of the MSVC folder's listing, nothing
   * when the folder is missing or empty.
   */
  function FindMsvcVer(folderExists: bool, listing: seq<string>): (r: Option<string>)
    ensures r.Some? <==> folderExists && |listing| > 0
    ensures r.Some? ==> r.value == listing[0]
  {
    if !folderExists then None
    else if |listing| > 0 then Some(listing[0])
    else None
  }

  /** `os.path.join` of relative components: the parts separated by `sep`. */
  function Joined(sep: char, parts: seq<string>): string
  {
    if parts == [] then ""
    else if |parts| == 1 then parts[0]
    else Joined(sep, parts[..|parts| - 1]) + [sep] + parts[|parts| - 1]
  }

  /** The path of the MSVC version inside the host dependencies' build tools. */
  function VcPath(sep: char, msvcVer: string): (r: string)
    ensures r == Joined(sep, ["..", "_build", "host-deps", "buildtools", "VC", "Tools", "MSVC"]) + [sep] + msvcVer
  {
    var parts := ["..", "_build", "host-deps", "buildtools", "VC", "Tools", "MSVC", msvcVer];
    assert parts[..|parts| - 1] == ["..", "_build", "host-deps", "buildtools", "VC", "Tools", "MSVC"];
    Joined(sep, parts)
  }

  /** The path ends with the version, after a separator, and starts at the parent directory. */
  lemma VcPathShape(sep: char, msvcVer: string)
    ensures HasSuffix(VcPath(sep, msvcVer), [sep] + msvcVer)
    ensures VcPath(sep, msvcVer)[..3] == ".." + [sep]
  {
    var parts := ["..", "_build", "host-deps", "buildtools", "VC", "Tools", "MSVC"];
    var prefix := Joined(sep, parts);
    assert parts[..1] == [".."];
    JoinedStart(sep, parts);
    var r := VcPath(sep, msvcVer);
    assert r == prefix + ([sep] + msvcVer);
    assert r[|r| - |[sep] + msvcVer|..] == [sep] + msvcVer;
  }

  lemma {:induction false} JoinedStart(sep: char, parts: seq<string>)
    requires |parts| >= 2
    ensures |Joined(sep, parts)| >= |parts[0]| + 1 && Joined(sep, parts)[..|parts[0]| + 1] == parts[0] + [sep]
  {
    var init := parts[..|parts| - 1];
    if |parts| > 2 {
      JoinedStart(sep, init);
    }
  }

  /** The index of the first `c` in `s`. */
  function IndexOf(s: string, c: char): (r: Option<nat>)
    ensures r.None? <==> c !in s
    ensures r.Some? ==> r.value < |s| && s[r.value] == c && forall k :: 0 <= k < r.value ==> s[k] != c
  {
    if s == [] then None
    else if s[0] == c then Some(0)
    else
      var rest := IndexOf(s[1..], c);
      if rest.None? then
        assert forall k :: 0 <= k < |s| - 1 ==> s[1..][k] != c;
        None
      else
        assert forall k :: 0 <= k < rest.value ==> s[1..][k] != c;
        Some(rest.value + 1)
  }

  /**
   * `line.split("=")[1]`: the text between the first and the second '=',
   * or to the end of the line; none (an `IndexError`) without any '='.
   */
  function SecondField(line: string): (r: Option<string>)
    ensures r.Some? <==> '=' in line
    ensures r.Some? ==> '=' !in r.value
  {
    match IndexOf(line, '=')
    case None => None
    case Some(i) =>
      var rest := line[i + 1..];
      match IndexOf(rest, '=')
      case None => Some(rest)
      case Some(j) => Some(rest[..j])
  }

  /**
   * The field sits right after the first '=' (the text before it has no
   * '=') and ends at the next '=' or at the end of the line.
   */
  lemma {:induction false} SecondFieldPlace(line: string, i: nat, field: string)
    requires IndexOf(line, '=') == Some(i) && SecondField(line) == Some(field)
    ensures (forall k :: 0 <= k < i ==> line[k] != '=') && i + 1 + |field| <= |line|
    ensures line[..i + 1 + |field|] == line[..i] + "=" + field
    ensures i + 1 + |field| == |line| || line[i + 1 + |field|] == '='
  {
    var rest := line[i + 1..];
    match IndexOf(rest, '=')
    case None =>
      assert field == rest[..|field|];
    case Some(j) =>
      assert field == rest[..j];
      assert line[i + 1 + j] == rest[j];
    SplitAt(line, i, |field|);
  }

  lemma SplitAt(line: string, i: nat, n: nat)
    requires i < |line| && line[i] == '=' && i + 1 + n <= |line|
    ensures line[..i + 1 + n] == line[..i] + "=" + line[i + 1..][..n]
  {
    assert line[..i + 1] == line[..i] + [line[i]];
    assert line[..i + 1 + n] == line[..i + 1] + line[i + 1..][..n];
  }

  /** `s.rstrip(c)`: every trailing `c` removed. */
  function RStrip(s: string, c: char): (r: string)
    ensures |r| <= |s| && s[..|r|] == r
    ensures r == [] || r[|r| - 1] != c
    ensures forall k :: |r| <= k < |s| ==> s[k] == c
  {
    if s != [] && s[|s| - 1] == c then
      var r := RStrip(s[..|s| - 1], c);
      assert s[..|s| - 1][..|r|] == s[..|r|];
      r
    else s
  }

  /** Stripping twice strips nothing more. */
  lemma RStripIdempotent(s: string, c: char)
    ensures RStrip(RStrip(s, c), c) == RStrip(s, c)
  {
  }

  /** The value an SDK line carries: its second field with trailing backslashes stripped. */
  function SdkValue(line: string): Option<string>
  {
    match SecondField(line)
    case None => None
    case Some(field) => Some(RStrip(field, '\\'))
  }

  /** The SDK directory and version read so far. */
  datatype SdkVars = SdkVars(sdkDir: string, sdkVersion: string)

  /**
   * The scan of the batch file's output: a line naming `WindowsSDKDir`
   * sets the directory, otherwise one naming `WindowsSdkVersion` sets the
   * version; later lines win. A matching line without '=' raises, reported
   * here by its index.
   */
  function SdkScan(lines: seq<string>): Result<SdkVars, nat>
  {
    if lines == [] then Success(SdkVars("", ""))
    else
      match SdkScan(lines[..|lines| - 1])
      case Failure(k) => Failure(k)
      case Success(vars) => ScanLine(vars, lines[|lines| - 1], |lines| - 1)
  }

  /** One line of the scan, at index `k`. */
  function ScanLine(vars: SdkVars, line: string, k: nat): Result<SdkVars, nat>
  {
    if DirLine(line) then
      (match SdkValue(line)
       case None => Failure(k)
       case Some(v) => Success(vars.(sdkDir := v)))
    else if Contains(line, "WindowsSdkVersion") then
      (match SdkValue(line)
       case None => Failure(k)
       case Some(v) => Success(vars.(sdkVersion := v)))
    else Success(vars)
  }

  predicate DirLine(line: string)
  {
    Contains(line, "WindowsSDKDir")
  }

  /** A successful scan with no line naming the directory leaves it empty. */
  lemma {:induction false} SdkScanNoDir(lines: seq<string>)
    requires SdkScan(lines).Success?
    requires forall i :: 0 <= i < |lines| ==> !DirLine(lines[i])
    ensures SdkScan(lines).value.sdkDir == ""
  {
    if lines != [] {
      var init := lines[..|lines| - 1];
      forall i | 0 <= i < |init|
        ensures !DirLine(init[i])
      {
        assert init[i] == lines[i];
      }
      SdkScanNoDir(init);
    }
  }

  /** A successful scan leaves the directory at the value of the last line naming it. */
  lemma {:induction false} SdkScanLastDir(lines: seq<string>, i: int)
    requires SdkScan(lines).Success?
    requires 0 <= i < |lines| && DirLine(lines[i]) && forall j :: i < j < |lines| ==> !DirLine(lines[j])
    ensures SdkValue(lines[i]) == Some(SdkScan(lines).value.sdkDir)
  {
    var init := lines[..|lines| - 1];
    if i < |init| {
      assert init[i] == lines[i];
      forall j | i < j < |init|
        ensures !DirLine(init[j])
      {
        assert init[j] == lines[j];
      }
      SdkScanLastDir(init, i);
    }
  }

  /** A line that sets the version: it names `WindowsSdkVersion` and not the directory. */
  predicate VersionLine(line: string)
  {
    !DirLine(line) && Contains(line, "WindowsSdkVersion")
  }

  /** A successful scan with no line setting the version leaves it empty. */
  lemma {:induction false} SdkScanNoVersion(lines: seq<string>)
    requires SdkScan(lines).Success?
    requires forall i :: 0 <= i < |lines| ==> !VersionLine(lines[i])
    ensures SdkScan(lines).value.sdkVersion == ""
  {
    if lines != [] {
      var init := lines[..|lines| - 1];
      forall i | 0 <= i < |init|
        ensures !VersionLine(init[i])
      {
        assert init[i] == lines[i];
      }
      SdkScanNoVersion(init);
    }
  }

  /** A successful scan leaves the version at the value of the last line setting it. */
  lemma {:induction false} SdkScanLastVersion(lines: seq<string>, i: int)
    requires SdkScan(lines).Success?
    requires 0 <= i < |lines| && VersionLine(lines[i]) && forall j :: i < j < |lines| ==> !VersionLine(lines[j])
    ensures SdkValue(lines[i]) == Some(SdkScan(lines).value.sdkVersion)
  {
    var init := lines[..|lines| - 1];
    if i < |init| {
      assert init[i] == lines[i];
      forall j | i < j < |init|
        ensures !VersionLine(init[j])
      {
        assert init[j] == lines[j];
      }
      SdkScanLastVersion(init, i);
    }
  }

  /** A scan fails exactly at the first matching line without '='. */
  lemma {:induction false} SdkScanFailure(lines: seq<string>)
    ensures SdkScan(lines).Failure? <==>
      exists i :: 0 <= i < |lines| && (DirLine(lines[i]) || Contains(lines[i], "WindowsSdkVersion")) && '=' !in lines[i]
    ensures SdkScan(lines).Failure? ==>
      var k := SdkScan(lines).error;
      k < |lines| && (DirLine(lines[k]) || Contains(lines[k], "WindowsSdkVersion")) && '=' !in lines[k] &&
      forall j :: 0 <= j < k ==> !((DirLine(lines[j]) || Contains(lines[j], "WindowsSdkVersion")) && '=' !in lines[j])
  {
    if lines != [] {
      var init := lines[..|lines| - 1];
      SdkScanFailure(init);
      forall i | 0 <= i < |init|
        ensures init[i] == lines[i]
      {
      }
    }
  }

  /** The bin, include and lib folders of the SDK: set only when the SDK directory exists. */
  function SdkDirs(sep: char, vars: SdkVars, dirExists: bool): (r: (string, string, string))
    ensures !dirExists ==> r == ("", "", "")
    ensures dirExists ==> r.0 == Joined(sep, [vars.sdkDir, "bin", vars.sdkVersion])
    ensures dirExists ==> r.1 == Joined(sep, [vars.sdkDir, "include", vars.sdkVersion])
    ensures dirExists ==> r.2 == Joined(sep, [vars.sdkDir, "lib", vars.sdkVersion])
  {
    if dirExists then
      (Joined(sep, [vars.sdkDir, "bin", vars.sdkVersion]),
       Joined(sep, [vars.sdkDir, "include", vars.sdkVersion]),
       Joined(sep, [vars.sdkDir, "lib", vars.sdkVersion]))
    else ("", "", "")
  }

  /** The replacement table: one path per dependency name. */
  function FindReplace(vsPath: string, vcPath: string, sdkDir: string, sdkBin: string, sdkInclude: string, sdkLib: string)
    : (r: map<string, string>)
    ensures r.Keys == {"buildtools", "vc", "winsdk", "winsdk_bin", "winsdk_include", "winsdk_lib"}
    ensures r["buildtools"] == vsPath && r["vc"] == vcPath && r["winsdk"] == sdkDir
    ensures r["winsdk_bin"] == sdkBin && r["winsdk_include"] == sdkInclude && r["winsdk_lib"] == sdkLib
  {
    map["buildtools" := vsPath, "vc" := vcPath, "winsdk" := sdkDir,
        "winsdk_bin" := sdkBin, "winsdk_include" := sdkInclude, "winsdk_lib" := sdkLib]
  }

  /** A child of the document root, with the attributes of its `source` descendants in document order. */
  datatype Element = Element(tag: string, attrs: map<string, string>, sources: seq<map<string, string>>)

  /** The path a child takes: a `dependency` whose name has a non-empty replacement. */
  function Replacement(e: Element, table: map<string, string>): (r: Option<string>)
    ensures r.Some? <==> e.tag == "dependency" && "name" in e.attrs && e.attrs["name"] in table && table[e.attrs["name"]] != ""
    ensures r.Some? ==> r.value == table[e.attrs["name"]]
  {
    if e.tag == "dependency" && "name" in e.attrs && e.attrs["name"] in table && table[e.attrs["name"]] != "" then
      Some(table[e.attrs["name"]])
    else None
  }

  /** Every source of a replaced dependency gets the replacement as its path; anything else is unchanged. */
  function Substituted(e: Element, table: map<string, string>): Element
  {
    match Replacement(e, table)
    case None => e
    case Some(path) => e.(sources := seq(|e.sources|, k requires 0 <= k < |e.sources| => e.sources[k]["path" := path]))
  }

  /**
   * The substitution leaves tags, names and other attributes alone: a
   * replaced dependency's sources all carry the replacement path and keep
   * their other attributes, and every other child is unchanged.
   */
  lemma SubstitutedMeaning(e: Element, table: map<string, string>)
    ensures Substituted(e, table).tag == e.tag && Substituted(e, table).attrs == e.attrs
    ensures |Substituted(e, table).sources| == |e.sources|
    ensures Replacement(e, table).None? ==> Substituted(e, table) == e
    ensures Replacement(e, table).Some? ==> forall k :: 0 <= k < |e.sources| ==>
      var s := Substituted(e, table).sources[k];
      "path" in s && s["path"] == Replacement(e, table).value &&
      s.Keys == e.sources[k].Keys + {"path"} && forall a :: a in e.sources[k] && a != "path" ==> s[a] == e.sources[k][a]
  {
  }

  /** Substituting a second time changes nothing. */
  lemma SubstitutedIdempotent(e: Element, table: map<string, string>)
    ensures Substituted(Substituted(e, table), table) == Substituted(e, table)
  {
    var once := Substituted(e, table);
    assert Replacement(once, table) == Replacement(e, table);
    if Replacement(e, table).Some? {
      var twice := Substituted(once, table);
      assert |twice.sources| == |once.sources|;
      forall k | 0 <= k < |once.sources|
        ensures twice.sources[k] == once.sources[k]
      {
        assert once.sources[k]["path" := Replacement(e, table).value] == once.sources[k];
      }
    }
  }

  /** The parsed host dependencies document, whose source paths are rewritten in place. */
  class HostDeps {
    var children: seq<Element>

    constructor (children: seq<Element>)
      ensures this.children == children
    {
      this.children := children;
    }

    /** The loop over the `dependency` children: each one whose name has a replacement gets it on every source. */
    method Substitute(table: map<string, string>)
      modifies this
      ensures |children| == |old(children)|
      ensures forall i :: 0 <= i < |children| ==> children[i] == Substituted(old(children)[i], table)
    {
      var i := 0;
      while i < |children|
        invariant 0 <= i <= |children| == |old(children)|
        invariant forall k :: 0 <= k < i ==> children[k] == Substituted(old(children)[k], table)
        invariant forall k :: i <= k < |children| ==> children[k] == old(children)[k]
      {
        var e := children[i];
        var replacement := Replacement(e, table);
        if replacement.Some? {
          var sources := SetPaths(e.sources, replacement.value);
          children := children[i := e.(sources := sources)];
        }
        i := i + 1;
      }
    }
  }

  /** The loop over a dependency's sources, setting each one's path. */
  method SetPaths(sources: seq<map<string, string>>, path: string) returns (r: seq<map<string, string>>)
    ensures |r| == |sources|
    ensures forall k :: 0 <= k < |sources| ==> r[k] == sources[k]["path" := path]
  {
    r := sources;
    var k := 0;
    while k < |r|
      invariant 0 <= k <= |r| == |sources|
      invariant forall j :: 0 <= j < k ==> r[j] == sources[j]["path" := path]
      invariant forall j :: k <= j < |r| ==> r[j] == sources[j]
    {
      r := r[k := r[k]["path" := path]];
      k := k + 1;
    }
  }
}
