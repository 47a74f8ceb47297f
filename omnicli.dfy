/**
 * The `omnicli` shell around the tokenizer: case-insensitive dispatch over
 * its command table, the interactive read loop, exit codes, access-flag
 * formatting and parsing, the ACL merge of `setacls`, the size column of
 * listings, the base-URL stack of `cd`/`push`/`pop` and the filter that
 * hides ping replies from the log.
 */
module OmniCli {
  import opened Wrappers
  import opened Strings
  import opened OmniClient
  import Tokenizer

  const ExitSuccess: int := 0
  const ExitFailure: int := 1

  // ---------------------------------------------------------------------
  // Case-insensitive names

  /** `iequal`: same length and equal character by character after `tolower`. */
  predicate IEqual(a: string, b: string)
  {
    |a| == |b| && forall i :: 0 <= i < |a| ==> LowerChar(a[i]) == LowerChar(b[i])
  }

  /** Two names are `iequal` exactly when their lower-cased forms are equal. */
  lemma IEqualIffSameLower(a: string, b: string)
    ensures IEqual(a, b) <==> Lower(a) == Lower(b)
  {
    if Lower(a) == Lower(b) {
      forall i | 0 <= i < |a|
        ensures LowerChar(a[i]) == LowerChar(b[i])
      {
        assert Lower(a)[i] == Lower(b)[i];
      }
    }
  }

  /** `iequal` is an equivalence. */
  lemma IEqualEquivalence(a: string, b: string, c: string)
    ensures IEqual(a, a)
    ensures IEqual(a, b) ==> IEqual(b, a)
    ensures IEqual(a, b) && IEqual(b, c) ==> IEqual(a, c)
  {
  }

  // ---------------------------------------------------------------------
  // Command table and dispatch

  /** The handler functions the table points at. */
  datatype Action =
    | Help | Noop | LogLevel | List | Stat | Cd | Push | Pop | Copy | Move | Delete
    | Mkdir | Cat | ServerVersion | LoadUsd | SaveUsd | CloseUsd | Live | Lock | Unlock
    | GetAcls | SetAcls | Auth | MakeCheckpoint | ListCheckpoints | RestoreCheckpoint
    | Disconnect

  datatype Command = Command(name: string, action: Action)

  /** The `commands` table, in its order. */
  const Commands: seq<Command> := [
    Command("help", Help), Command("-h", Help), Command("-?", Help),
    Command("quit", Noop), Command("log", LogLevel),
    Command("list", List), Command("ls", List), Command("dir", List),
    Command("stat", Stat), Command("cd", Cd),
    Command("push", Push), Command("pushd", Push), Command("pop", Pop), Command("popd", Pop),
    Command("copy", Copy), Command("cp", Copy), Command("move", Move), Command("mv", Move),
    Command("del", Delete), Command("delete", Delete), Command("rm", Delete),
    Command("mkdir", Mkdir), Command("cat", Cat), Command("sver", ServerVersion),
    Command("load", LoadUsd), Command("save", SaveUsd), Command("close", CloseUsd),
    Command("live", Live), Command("lock", Lock), Command("unlock", Unlock),
    Command("getacls", GetAcls), Command("setacls", SetAcls), Command("auth", Auth),
    Command("checkpoint", MakeCheckpoint), Command("listCheckpoints", ListCheckpoints),
    Command("restoreCheckpoint", RestoreCheckpoint), Command("disconnect", Disconnect)
  ]

  /**
   * `run`: the handler of the first table entry whose name is `iequal` to the
   * first argument; `None` (the command fails) for no arguments or an unknown name.
   */
  method Run(args: seq<string>) returns (r: Option<Action>)
    ensures args == [] ==> r == None
    ensures r.Some? ==>
      exists i ::
        0 <= i < |Commands| && IEqual(args[0], Commands[i].name) && r.value == Commands[i].action &&
        forall j :: 0 <= j < i ==> !IEqual(args[0], Commands[j].name)
    ensures args != [] && r == None ==> forall i :: 0 <= i < |Commands| ==> !IEqual(args[0], Commands[i].name)
  {
    if args == [] {
      return None;
    }
    var i := 0;
    while i < |Commands|
      invariant 0 <= i <= |Commands|
      invariant forall j :: 0 <= j < i ==> !IEqual(args[0], Commands[j].name)
    {
      if IEqual(args[0], Commands[i].name) {
        return Some(Commands[i].action);
      }
      i := i + 1;
    }
    return None;
  }

  /** The interactive loop leaves on `quit`, `exit` or `q`, in any case. */
  predicate IsQuit(word: string)
  {
    IEqual(word, "quit") || IEqual(word, "exit") || IEqual(word, "q")
  }

  /**
   * The argument lists the interactive loop hands to `run` for the given
   * input lines, and whether it stopped on a quit word (rather than at the
   * end of input).
   */
  function Session(lines: seq<string>): (seq<seq<string>>, bool)
    decreases |lines|
  {
    if lines == [] then ([], false)
    else
      var tokens := Tokenizer.Tokens(lines[0]);
      if tokens == [] then Session(lines[1..])
      else if IsQuit(tokens[0]) then ([], true)
      else
        var (rest, quit) := Session(lines[1..]);
        ([tokens] + rest, quit)
  }

  /**
   * The read-eval loop of `main`: empty lines are skipped, a quit word ends
   * the shell with success, running out of input ends it with failure.
   */
  method Interactive(lines: seq<string>) returns (runs: seq<seq<string>>, code: int)
    ensures (runs, code == ExitSuccess) == Session(lines)
    ensures code == ExitSuccess || code == ExitFailure
  {
    runs := [];
    var i := 0;
    assert lines[i..] == lines;
    assert runs + Session(lines).0 == Session(lines).0;
    while i < |lines|
      invariant 0 <= i <= |lines|
      invariant Session(lines) == (runs + Session(lines[i..]).0, Session(lines[i..]).1)
    {
      assert lines[i..][1..] == lines[i + 1..];
      var tokens := Tokenizer.Tokenize(lines[i]);
      if tokens != [] {
        if IsQuit(tokens[0]) {
          assert runs + [] == runs;
          return runs, ExitSuccess;
        }
        assert runs + ([tokens] + Session(lines[i + 1..]).0) == (runs + [tokens]) + Session(lines[i + 1..]).0;
        runs := runs + [tokens];
      }
      i := i + 1;
    }
    assert runs + [] == runs;
    return runs, ExitFailure;
  }

  /** No command run by the loop is empty or a quit word. */
  lemma {:induction false} SessionRunsAreCommands(lines: seq<string>)
    ensures forall k :: 0 <= k < |Session(lines).0| ==>
      Session(lines).0[k] != [] && !IsQuit(Session(lines).0[k][0])
    decreases |lines|
  {
    if lines != [] {
      SessionRunsAreCommands(lines[1..]);
    }
  }

  // ---------------------------------------------------------------------
  // Exit codes

  /** `resultToRetcode`: success for `Ok`, `OkLatest` and also `OkNotYetFound`. */
  function ResultToRetcode(r: ClientResult): int
  {
    match r
    case Ok | OkLatest | OkNotYetFound => ExitSuccess
    case _ => ExitFailure
  }

  /** The shell accepts one result more than the connector's `CheckClientResult`. */
  lemma RetcodeAcceptsMoreThanCheck(r: ClientResult)
    ensures ResultToRetcode(r) == ExitSuccess <==> CheckClientResult(r) || r == OkNotYetFound
    ensures ResultToRetcode(r) == ExitSuccess || ResultToRetcode(r) == ExitFailure
  {
  }

  // ---------------------------------------------------------------------
  // Access flags

  datatype Access = Access(read: bool, write: bool, admin: bool)

  const NoAccess: Access := Access(false, false, false)

  /** The flag names present, in the fixed order Read, Write, Admin. */
  function AccessNames(a: Access): seq<string>
  {
    (if a.read then ["Read"] else []) + (if a.write then ["Write"] else []) + (if a.admin then ["Admin"] else [])
  }

  function JoinComma(names: seq<string>): string
    decreases |names|
  {
    if names == [] then "" else if |names| == 1 then names[0] else names[0] + ", " + JoinComma(names[1..])
  }

  /** The text `getAccessString` produces. */
  function AccessText(a: Access): string
  {
    if a == NoAccess then "None" else JoinComma(AccessNames(a))
  }

  /** The eight possible texts. */
  lemma AccessTextCases(a: Access)
    ensures AccessText(a) == match (a.read, a.write, a.admin)
      case (false, false, false) => "None"
      case (true, false, false) => "Read"
      case (false, true, false) => "Write"
      case (false, false, true) => "Admin"
      case (true, true, false) => "Read, Write"
      case (true, false, true) => "Read, Admin"
      case (false, true, true) => "Write, Admin"
      case (true, true, true) => "Read, Write, Admin"
  {
    var names := AccessNames(a);
    if |names| == 2 {
      assert names[1..] == [names[1]];
    } else if |names| == 3 {
      assert names == ["Read", "Write", "Admin"];
      assert names[1..] == ["Write", "Admin"];
      assert names[1..][1..] == ["Admin"];
      assert JoinComma(names[1..]) == "Write, Admin";
    }
  }

  /** `getAccessString`: appends each present flag's name, separated by ", ". */
  method GetAccessString(a: Access) returns (s: string)
    ensures s == AccessText(a)
  {
    s := "";
    if a.read {
      if s != "" { s := s + ", "; }
      s := s + "Read";
    }
    if a.write {
      if s != "" { s := s + ", "; }
      s := s + "Write";
    }
    if a.admin {
      if s != "" { s := s + ", "; }
      s := s + "Admin";
    }
    if s == "" {
      s := "None";
    }
    AccessTextCases(a);
  }

  /** Different flag sets are never listed the same way. */
  lemma AccessTextInjective(a: Access, b: Access)
    requires AccessText(a) == AccessText(b)
    ensures a == b
  {
    AccessTextCases(a);
    AccessTextCases(b);
  }

  /** The letters `setacls` accepts, in either case. */
  predicate IsAccessChar(c: char)
  {
    UpperChar(c) in {'A', 'W', 'R', '-'}
  }

  /**
   * The access argument of `setacls` read left to right: the flags named and
   * whether '-' (remove the entry) was given, or `None` at an unknown letter.
   */
  function AccessOf(s: string): Option<(Access, bool)>
    decreases |s|
  {
    if s == [] then Some((NoAccess, false))
    else if !IsAccessChar(s[0]) then None
    else match AccessOf(s[1..])
      case None => None
      case Some((a, remove)) =>
        var u := UpperChar(s[0]);
        Some((Access(a.read || u == 'R', a.write || u == 'W', a.admin || u == 'A'), remove || u == '-'))
  }

  /** The loop of `setacls` that ORs in one flag per letter. */
  method ParseAccess(s: string) returns (r: Option<(Access, bool)>)
    ensures r == AccessOf(s)
  {
    var access := NoAccess;
    var removeEntry := false;
    var i := 0;
    while i < |s|
      invariant 0 <= i <= |s|
      invariant AccessOf(s) == match AccessOf(s[i..])
        case None => None
        case Some((a, rm)) =>
          Some((Access(access.read || a.read, access.write || a.write, access.admin || a.admin), removeEntry || rm))
    {
      assert s[i..][1..] == s[i + 1..];
      var u := UpperChar(s[i]);
      if u == 'A' {
        access := access.(admin := true);
      } else if u == 'W' {
        access := access.(write := true);
      } else if u == 'R' {
        access := access.(read := true);
      } else if u == '-' {
        removeEntry := true;
      } else {
        return None;
      }
      i := i + 1;
    }
    return Some((access, removeEntry));
  }

  /**
   * The access argument is accepted iff every letter is A, W, R or '-' in
   * either case; then each flag is set iff its letter occurs.
   */
  lemma {:induction false} AccessOfMeaning(s: string)
    ensures AccessOf(s).Some? <==> forall i :: 0 <= i < |s| ==> IsAccessChar(s[i])
    ensures AccessOf(s).Some? ==>
      var (a, remove) := AccessOf(s).value;
      (a.read <==> exists i :: 0 <= i < |s| && UpperChar(s[i]) == 'R') &&
      (a.write <==> exists i :: 0 <= i < |s| && UpperChar(s[i]) == 'W') &&
      (a.admin <==> exists i :: 0 <= i < |s| && UpperChar(s[i]) == 'A') &&
      (remove <==> exists i :: 0 <= i < |s| && UpperChar(s[i]) == '-')
    decreases |s|
  {
    if s != [] {
      AccessOfMeaning(s[1..]);
      forall c | c in "RWA-"
        ensures (exists i :: 0 <= i < |s| && UpperChar(s[i]) == c)
            <==> UpperChar(s[0]) == c || exists i :: 0 <= i < |s[1..]| && UpperChar(s[1..][i]) == c
      {
        if exists i :: 0 <= i < |s| && UpperChar(s[i]) == c {
          var i :| 0 <= i < |s| && UpperChar(s[i]) == c;
          if i > 0 {
            assert UpperChar(s[1..][i - 1]) == c;
          }
        }
        if exists i :: 0 <= i < |s[1..]| && UpperChar(s[1..][i]) == c {
          var i :| 0 <= i < |s[1..]| && UpperChar(s[1..][i]) == c;
          assert UpperChar(s[i + 1]) == c;
        }
      }
      if forall i :: 0 <= i < |s| ==> IsAccessChar(s[i]) {
        assert forall i :: 0 <= i < |s[1..]| ==> IsAccessChar(s[1..][i]) by {
          forall i | 0 <= i < |s[1..]| ensures IsAccessChar(s[1..][i]) {
            assert s[1..][i] == s[i + 1];
          }
        }
      } else if IsAccessChar(s[0]) {
        var k :| 0 <= k < |s| && !IsAccessChar(s[k]);
        assert !IsAccessChar(s[1..][k - 1]);
      }
    }
  }

  // ---------------------------------------------------------------------
  // ACL merge

  datatype AclEntry = AclEntry(name: string, access: Access)

  /** The entries whose name differs from `name`, in their order. */
  function Without(entries: seq<AclEntry>, name: string): seq<AclEntry>
    decreases |entries|
  {
    if entries == [] then []
    else (if entries[0].name == name then [] else [entries[0]]) + Without(entries[1..], name)
  }

  /** The list `setacls` sends, or `None` when '-' names an absent user or group. */
  function Merged(entries: seq<AclEntry>, name: string, access: Access, remove: bool): Option<seq<AclEntry>>
  {
    if remove && forall i :: 0 <= i < |entries| ==> entries[i].name != name then None
    else Some(Without(entries, name) + if remove then [] else [AclEntry(name, access)])
  }

  /** The merge loop of `setacls`: drop every entry with the name, then add or remove. */
  method MergeAcls(entries: seq<AclEntry>, name: string, access: Access, remove: bool)
    returns (r: Option<seq<AclEntry>>)
    ensures r == Merged(entries, name, access, remove)
  {
    var kept: seq<AclEntry> := [];
    var found := false;
    var i := 0;
    while i < |entries|
      invariant 0 <= i <= |entries|
      invariant Without(entries, name) == kept + Without(entries[i..], name)
      invariant found <==> exists j :: 0 <= j < i && entries[j].name == name
    {
      assert entries[i..][1..] == entries[i + 1..];
      assert Without(entries[i..], name) ==
        (if entries[i].name == name then [] else [entries[i]]) + Without(entries[i + 1..], name);
      if entries[i].name == name {
        assert [] + Without(entries[i + 1..], name) == Without(entries[i + 1..], name);
        found := true;
      } else {
        assert kept + ([entries[i]] + Without(entries[i + 1..], name)) == (kept + [entries[i]]) + Without(entries[i + 1..], name);
        assert !found ==> forall j :: 0 <= j < i + 1 ==> entries[j].name != name;
        kept := kept + [entries[i]];
      }
      i := i + 1;
    }
    assert entries[i..] == [];
    assert kept + [] == kept;
    if remove {
      if !found {
        assert forall j :: 0 <= j < |entries| ==> entries[j].name != name;
        return None;
      }
    } else {
      kept := kept + [AclEntry(name, access)];
    }
    assert remove ==> kept + [] == kept;
    return Some(kept);
  }

  /** An entry survives the filter iff it was there and has another name. */
  lemma {:induction false} WithoutMembers(entries: seq<AclEntry>, name: string, e: AclEntry)
    ensures e in Without(entries, name) <==> e in entries && e.name != name
    decreases |entries|
  {
    if entries != [] {
      WithoutMembers(entries[1..], name, e);
      assert entries == [entries[0]] + entries[1..];
    }
  }

  /** After a successful `setacls`, the name has exactly the requested entry, or none. */
  lemma MergedEntryForName(entries: seq<AclEntry>, name: string, access: Access, remove: bool, e: AclEntry)
    requires Merged(entries, name, access, remove).Some?
    ensures e in Merged(entries, name, access, remove).value && e.name == name
      <==> !remove && e == AclEntry(name, access)
    ensures e.name != name ==> (e in Merged(entries, name, access, remove).value <==> e in entries)
  {
    WithoutMembers(entries, name, e);
  }

  /** Setting the same access twice gives the same list as setting it once. */
  lemma {:induction false} WithoutIdempotent(entries: seq<AclEntry>, name: string)
    ensures Without(Without(entries, name), name) == Without(entries, name)
    decreases |entries|
  {
    if entries != [] {
      WithoutIdempotent(entries[1..], name);
      var head := if entries[0].name == name then [] else [entries[0]];
      WithoutAppend(head, Without(entries[1..], name), name);
      assert Without(head, name) == head by {
        if head != [] { assert head[1..] == []; }
      }
    }
  }

  lemma {:induction false} WithoutAppend(a: seq<AclEntry>, b: seq<AclEntry>, name: string)
    ensures Without(a + b, name) == Without(a, name) + Without(b, name)
    decreases |a|
  {
    if a == [] {
      assert a + b == b;
    } else {
      assert (a + b)[1..] == a[1..] + b;
      WithoutAppend(a[1..], b, name);
    }
  }

  lemma MergeTwice(entries: seq<AclEntry>, name: string, access: Access)
    ensures Merged(entries, name, access, false).Some?
    ensures Merged(Merged(entries, name, access, false).value, name, access, false)
      == Merged(entries, name, access, false)
  {
    assert [AclEntry(name, access)][1..] == [];
    WithoutAppend(Without(entries, name), [AclEntry(name, access)], name);
    WithoutIdempotent(entries, name);
    var w := Without(entries, name);
    assert Without([AclEntry(name, access)], name) == [];
    assert Without(w + [AclEntry(name, access)], name) == w + [];
    assert w + [] == w;
  }

  /**
   * The `setacls` command. `fetched` is the reply to the ACL request and
   * `stored` the result of storing the new list; `request` is the list sent.
   */
  method SetAclsCommand(args: seq<string>, fetched: (ClientResult, seq<AclEntry>), stored: ClientResult)
    returns (code: int, request: Option<seq<AclEntry>>)
    ensures |args| <= 3 ==> code == ExitFailure && request == None
    ensures |args| > 3 && AccessOf(args[3]).None? ==> code == ExitFailure && request == None
    ensures |args| > 3 && AccessOf(args[3]).Some? && fetched.0 != Ok ==> code == ExitFailure && request == None
    ensures request.Some? <==>
      |args| > 3 && AccessOf(args[3]).Some? && fetched.0 == Ok &&
      Merged(fetched.1, args[2], AccessOf(args[3]).value.0, AccessOf(args[3]).value.1).Some?
    ensures request.Some? ==>
      request == Merged(fetched.1, args[2], AccessOf(args[3]).value.0, AccessOf(args[3]).value.1) &&
      code == ResultToRetcode(stored)
    ensures request.None? ==> code == ExitFailure
  {
    if |args| <= 3 {
      return ExitFailure, None;
    }
    var parsed := ParseAccess(args[3]);
    if parsed.None? {
      return ExitFailure, None;
    }
    var (access, removeEntry) := parsed.value;
    if fetched.0 != Ok {
      return ExitFailure, None;
    }
    request := MergeAcls(fetched.1, args[2], access, removeEntry);
    if request.None? {
      return ExitFailure, None;
    }
    code := ResultToRetcode(stored);
  }

  // ---------------------------------------------------------------------
  // Listing sizes

  function UnitOf(suffix: string): nat
  {
    if suffix == "GB " then 1000000000 else if suffix == "MB " then 1000000 else if suffix == "KB " then 1000 else 1
  }

  /**
   * The size column of `printListEntries`: the strict thresholds choose the
   * unit, the size is divided with truncation, and the number shown is at
   * most 1000 below GB and at least 1 above B.
   */
  method ScaleSize(size: nat) returns (shown: nat, suffix: string)
    ensures suffix == "GB " <==> size > 1000000000
    ensures suffix == "MB " <==> 1000000 < size <= 1000000000
    ensures suffix == "KB " <==> 1000 < size <= 1000000
    ensures suffix == "B " <==> size <= 1000
    ensures UnitOf(suffix) * shown <= size < UnitOf(suffix) * (shown + 1)
    ensures suffix != "GB " ==> shown <= 1000
    ensures suffix != "B " ==> shown >= 1
  {
    shown := size;
    suffix := "B ";
    if shown > 1000 * 1000 * 1000 {
      shown := shown / (1000 * 1000 * 1000);
      suffix := "GB ";
    } else if shown > 1000 * 1000 {
      shown := shown / (1000 * 1000);
      suffix := "MB ";
    } else if shown > 1000 {
      shown := shown / 1000;
      suffix := "KB ";
    }
  }

  // ---------------------------------------------------------------------
  // Base URL stack

  /** `cd` and `push` make their argument a folder by adding a missing trailing '/'. */
  function DirectoryArg(arg: string): (r: string)
    ensures r != [] && r[|r| - 1] == '/'
    ensures r == arg <==> arg != [] && arg[|arg| - 1] == '/'
    ensures r == arg || r == arg + "/"
  {
    if arg == [] || arg[|arg| - 1] != '/' then arg + "/" else arg
  }

  lemma DirectoryArgIdempotent(arg: string)
    ensures DirectoryArg(DirectoryArg(arg)) == DirectoryArg(arg)
  {
  }

  /**
   * The base-URL stack of the client library, last element on top.
   * `combine` stands for `omniClientCombineWithBaseUrl` on the current stack.
   */
  class Shell {
    var baseUrls: seq<string>

    constructor ()
      ensures baseUrls == []
    {
      baseUrls := [];
    }

    /** `omniClientPopBaseUrl(nullptr)`: drops the top URL, if any. */
    method PopBaseUrl()
      modifies this
      ensures baseUrls == if old(baseUrls) == [] then [] else old(baseUrls)[..|old(baseUrls)| - 1]
    {
      if baseUrls != [] {
        baseUrls := baseUrls[..|baseUrls| - 1];
      }
    }

    /**
     * `cd` (push = false) and `push` (push = true). Without an argument the
     * current folder is printed; otherwise `cd` replaces the top URL and
     * `push` adds one.
     */
    method Cd(args: seq<string>, push: bool, combine: (seq<string>, string) -> string)
      returns (code: int, printed: string)
      requires |args| >= 1
      modifies this
      ensures |args| == 1 ==> code == ExitSuccess && printed == combine(old(baseUrls), ".") && baseUrls == old(baseUrls)
      ensures |args| > 1 && combine(old(baseUrls), DirectoryArg(args[1])) == "" ==>
        code == ExitFailure && baseUrls == old(baseUrls)
      ensures |args| > 1 && combine(old(baseUrls), DirectoryArg(args[1])) != "" ==>
        var url := combine(old(baseUrls), DirectoryArg(args[1]));
        var below := if push || old(baseUrls) == [] then old(baseUrls) else old(baseUrls)[..|old(baseUrls)| - 1];
        code == ExitSuccess && printed == url && baseUrls == below + [url]
    {
      if |args| == 1 {
        return ExitSuccess, combine(baseUrls, ".");
      }
      var arg := DirectoryArg(args[1]);
      var combined := combine(baseUrls, arg);
      if combined == "" {
        return ExitFailure, "Invalid value " + args[1];
      }
      if !push {
        PopBaseUrl();
      }
      baseUrls := baseUrls + [combined];
      return ExitSuccess, combined;
    }

    /** `pop`. */
    method Pop() returns (code: int)
      modifies this
      ensures code == ExitSuccess
      ensures baseUrls == if old(baseUrls) == [] then [] else old(baseUrls)[..|old(baseUrls)| - 1]
    {
      PopBaseUrl();
      code := ExitSuccess;
    }
  }

  // ---------------------------------------------------------------------
  // Log filter

  /** The log callback's test for ping replies, including those without "command":"ping". */
  predicate IsPing(message: string)
  {
    Contains(message, "\"command\":\"ping\"")
    || (Contains(message, "\"version\":") && Contains(message, "\"auth\":"))
    || (Contains(message, "\"token\":") && !Contains(message, "\"server_capabilities\":"))
  }

  /** A log message is printed iff it is not a ping reply. */
  function LogShown(message: string): bool
  {
    !IsPing(message)
  }

  /** A message carrying the ping command anywhere is never printed. */
  lemma PingCommandHidden(a: string, b: string)
    ensures !LogShown(a + "\"command\":\"ping\"" + b)
  {
    ContainsInfix(a, "\"command\":\"ping\"", b);
  }

  /** A token without server capabilities is a ping reply; with them it is shown unless another rule hides it. */
  lemma TokenWithoutCapabilitiesHidden(a: string, b: string)
    requires !Contains(a + "\"token\":" + b, "\"server_capabilities\":")
    ensures !LogShown(a + "\"token\":" + b)
  {
    ContainsInfix(a, "\"token\":", b);
  }
}
