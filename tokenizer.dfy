/**
 * The command-line tokenizer of the `omnicli` shell. It splits one input line
 * into arguments following the Microsoft C runtime rules: blanks separate
 * arguments, double quotes group, and backslashes escape only a quote.
 *
 * The scanner is a state machine over characters: `Step` is one character,
 * `Scan` runs it until the end of the C string or the first newline, and
 * `Finish` flushes what is pending. `Tokenize` is the loop the shell runs,
 * proved equal to `Tokens`; the lemmas below state the quoting rules.
 */
module Tokenizer {

  /** The scanner's variables: finished tokens, the token being built, and three flags. */
  datatype State = State(
    tokens: seq<string>,
    token: string,
    inWhiteSpace: bool,
    inQuote: bool,
    backslashes: nat)

  const Start: State := State([], "", true, false, 0)

  /** `n` backslash characters. */
  function Backslashes(n: nat): (r: string)
    ensures |r| == n && forall i :: 0 <= i < n ==> r[i] == '\\'
  {
    seq(n, _ => '\\')
  }

  predicate IsBlank(c: char) { c == ' ' || c == '\t' }

  /** The scan stops at a newline and at the terminating NUL of the C string. */
  predicate EndsLine(c: char) { c == '\n' || c == '\0' }

  /** One character of input. */
  function Step(st: State, c: char): State
  {
    if st.inWhiteSpace && IsBlank(c) then st
    else if c == '\\' then
      st.(inWhiteSpace := false, backslashes := st.backslashes + 1)
    else if c == '"' then
      var odd := st.backslashes % 2 == 1;
      st.(inWhiteSpace := false,
          token := st.token + Backslashes(st.backslashes / 2) + (if odd then "\"" else ""),
          inQuote := if odd then st.inQuote else !st.inQuote,
          backslashes := 0)
    else
      var token := st.token + Backslashes(st.backslashes);
      if !st.inQuote && IsBlank(c) then State(st.tokens + [token], "", true, st.inQuote, 0)
      else st.(inWhiteSpace := false, token := token + [c], backslashes := 0)
  }

  /** Runs `Step` over `s` up to its first newline or NUL. */
  function Scan(st: State, s: string): State
    decreases |s|
  {
    if s == [] || EndsLine(s[0]) then st else Scan(Step(st, s[0]), s[1..])
  }

  /** Pending backslashes are copied, and the last token is kept only if it is not empty. */
  function Finish(st: State): seq<string>
  {
    var token := st.token + Backslashes(st.backslashes);
    if token != [] then st.tokens + [token] else st.tokens
  }

  /** The arguments of a command line. */
  function Tokens(line: string): seq<string>
  {
    Finish(Scan(Start, line))
  }

  /** The shell's tokenizer, walking the line with mutable state. */
  method Tokenize(line: string) returns (tokens: seq<string>)
    ensures tokens == Tokens(line)
  {
    tokens := [];
    var token: string := "";
    var inWhiteSpace := true;
    var inQuote := false;
    var backslashCount: nat := 0;
    var i := 0;
    while i < |line| && !EndsLine(line[i])
      invariant 0 <= i <= |line|
      invariant Scan(Start, line) == Scan(State(tokens, token, inWhiteSpace, inQuote, backslashCount), line[i..])
    {
      var c := line[i];
      assert line[i..][1..] == line[i + 1..];
      if inWhiteSpace && IsBlank(c) {
        // leading blanks are skipped
      } else {
        inWhiteSpace := false;
        if c == '\\' {
          backslashCount := backslashCount + 1;
        } else if c == '"' {
          token := token + Backslashes(backslashCount / 2);
          if backslashCount % 2 == 1 {
            token := token + "\"";
          } else {
            inQuote := !inQuote;
            assert token + "" == token;
          }
          backslashCount := 0;
        } else {
          if backslashCount > 0 {
            token := token + Backslashes(backslashCount);
            backslashCount := 0;
          } else {
            assert token + Backslashes(0) == token;
          }
          if !inQuote && IsBlank(c) {
            tokens := tokens + [token];
            token := "";
            inWhiteSpace := true;
          } else {
            token := token + [c];
          }
        }
      }
      i := i + 1;
    }
    assert Scan(State(tokens, token, inWhiteSpace, inQuote, backslashCount), line[i..])
      == State(tokens, token, inWhiteSpace, inQuote, backslashCount);
    if backslashCount > 0 {
      token := token + Backslashes(backslashCount);
    } else {
      assert token + Backslashes(0) == token;
    }
    if token != [] {
      tokens := tokens + [token];
    }
  }

  // ---------------------------------------------------------------------
  // Scanning in pieces

  predicate OnOneLine(s: string)
  {
    forall i :: 0 <= i < |s| ==> !EndsLine(s[i])
  }

  lemma {:induction false} ScanAppend(st: State, a: string, b: string)
    requires OnOneLine(a)
    ensures Scan(st, a + b) == Scan(Scan(st, a), b)
    decreases |a|
  {
    if a != [] {
      assert (a + b)[0] == a[0];
      assert (a + b)[1..] == a[1..] + b;
      ScanAppend(Step(st, a[0]), a[1..], b);
    } else {
      assert a + b == b;
    }
  }

  /** Everything from the first newline on is ignored. */
  lemma {:induction false} IgnoresAfterNewline(a: string, b: string)
    requires OnOneLine(a)
    ensures Tokens(a + "\n" + b) == Tokens(a)
  {
    ScanAppend(Start, a, "\n" + b);
    ScanAppend(Start, a, []);
    assert a + [] == a;
    assert a + "\n" + b == a + ("\n" + b);
  }

  /** Blanks before the first argument are skipped. */
  lemma {:induction false} SkipsLeadingBlank(c: char, s: string)
    requires IsBlank(c)
    ensures Tokens([c] + s) == Tokens(s)
  {
    assert ([c] + s)[1..] == s;
  }

  // ---------------------------------------------------------------------
  // Backslashes

  lemma {:induction false} ScanBackslashes(st: State, n: nat)
    ensures Scan(st, Backslashes(n)) ==
      st.(inWhiteSpace := st.inWhiteSpace && n == 0, backslashes := st.backslashes + n)
    decreases n
  {
    if n > 0 {
      assert Backslashes(n)[1..] == Backslashes(n - 1);
      ScanBackslashes(Step(st, '\\'), n - 1);
    }
  }

  /**
   * A run of `n` backslashes followed by a quote yields `n / 2` backslashes;
   * an odd run then yields a literal quote, an even run toggles quoting.
   */
  lemma {:induction false} BackslashesThenQuote(st: State, n: nat, rest: string)
    requires st.backslashes == 0
    ensures Scan(st, Backslashes(n) + "\"" + rest) ==
      Scan(st.(inWhiteSpace := false,
               token := st.token + Backslashes(n / 2) + (if n % 2 == 1 then "\"" else ""),
               inQuote := if n % 2 == 1 then st.inQuote else !st.inQuote),
           rest)
  {
    ScanAppend(st, Backslashes(n), "\"" + rest);
    assert Backslashes(n) + "\"" + rest == Backslashes(n) + ("\"" + rest);
    ScanBackslashes(st, n);
    assert ("\"" + rest)[1..] == rest;
  }

  /** A run of backslashes not followed by a quote is copied literally. */
  lemma {:induction false} BackslashesThenOther(st: State, n: nat, c: char, rest: string)
    requires st.backslashes == 0 && n > 0
    requires c != '"' && c != '\\' && !EndsLine(c) && (st.inQuote || !IsBlank(c))
    ensures Scan(st, Backslashes(n) + [c] + rest) ==
      Scan(st.(inWhiteSpace := false, token := st.token + Backslashes(n) + [c]), rest)
  {
    assert Backslashes(n) + [c] + rest == Backslashes(n) + ([c] + rest);
    ScanAppend(st, Backslashes(n), [c] + rest);
    ScanBackslashes(st, n);
    var pending := st.(inWhiteSpace := false, backslashes := n);
    ScanCons(pending, c, rest);
    assert Step(pending, c) == st.(inWhiteSpace := false, token := st.token + Backslashes(n) + [c]);
  }

  /** A trailing run of backslashes is copied into the last argument. */
  lemma TrailingBackslashes(st: State, n: nat)
    requires st.backslashes == 0 && n > 0
    ensures Finish(Scan(st, Backslashes(n))) == st.tokens + [st.token + Backslashes(n)]
  {
    ScanBackslashes(st, n);
  }

  // ---------------------------------------------------------------------
  // Quoting: an encoder whose output the tokenizer splits back

  /** A backslash becomes `\\""` (one backslash, quoting left on); a quote becomes `\"`. */
  function EncodeChar(c: char): string
  {
    if c == '\\' then ['\\', '\\', '"', '"']
    else if c == '"' then ['\\', '"']
    else [c]
  }

  function EncodeBody(w: string): string
    decreases |w|
  {
    if w == [] then [] else EncodeChar(w[0]) + EncodeBody(w[1..])
  }

  function Quote(w: string): string
  {
    "\"" + EncodeBody(w) + "\""
  }

  /** Quoted arguments separated by single spaces. */
  function CommandLine(args: seq<string>): string
    decreases |args|
  {
    if args == [] then ""
    else if |args| == 1 then Quote(args[0])
    else Quote(args[0]) + " " + CommandLine(args[1..])
  }

  /** One unfolding of `Scan`. */
  lemma {:induction false} ScanCons(st: State, c: char, rest: string)
    requires !EndsLine(c)
    ensures Scan(st, [c] + rest) == Scan(Step(st, c), rest)
  {
    assert ([c] + rest)[0] == c;
    assert ([c] + rest)[1..] == rest;
  }

  /** Inside quotes every encoded character adds exactly itself to the token. */
  lemma {:induction false} EncodedCharScan(st: State, c: char, rest: string)
    requires st.inQuote && !st.inWhiteSpace && st.backslashes == 0 && !EndsLine(c)
    ensures Scan(st, EncodeChar(c) + rest) == Scan(st.(token := st.token + [c]), rest)
  {
    if c == '\\' {
      assert EncodeChar(c) + rest == ['\\'] + (['\\'] + (['"'] + (['"'] + rest)));
      var st1 := st.(backslashes := 1);
      var st2 := st.(backslashes := 2);
      var st3 := st.(token := st.token + Backslashes(1), inQuote := false);
      ScanCons(st, '\\', ['\\'] + (['"'] + (['"'] + rest)));
      assert Step(st, '\\') == st1;
      ScanCons(st1, '\\', ['"'] + (['"'] + rest));
      assert Step(st1, '\\') == st2;
      ScanCons(st2, '"', ['"'] + rest);
      assert Step(st2, '"') == st3;
      ScanCons(st3, '"', rest);
      assert Step(st3, '"') == st.(token := st.token + [c]);
    } else if c == '"' {
      assert EncodeChar(c) + rest == ['\\'] + (['"'] + rest);
      var st1 := st.(backslashes := 1);
      ScanCons(st, '\\', ['"'] + rest);
      assert Step(st, '\\') == st1;
      ScanCons(st1, '"', rest);
      assert Step(st1, '"') == st.(token := st.token + [c]);
    } else {
      ScanCons(st, c, rest);
      assert st.token + Backslashes(0) == st.token;
    }
  }

  lemma {:induction false} EncodedBodyScan(st: State, w: string, rest: string)
    requires st.inQuote && !st.inWhiteSpace && st.backslashes == 0 && OnOneLine(w)
    ensures Scan(st, EncodeBody(w) + rest) == Scan(st.(token := st.token + w), rest)
    decreases |w|
  {
    if w == [] {
      assert EncodeBody(w) + rest == rest;
      assert st.(token := st.token + w) == st;
    } else {
      assert EncodeBody(w) + rest == EncodeChar(w[0]) + (EncodeBody(w[1..]) + rest);
      EncodedCharScan(st, w[0], EncodeBody(w[1..]) + rest);
      var st1 := st.(token := st.token + [w[0]]);
      EncodedBodyScan(st1, w[1..], rest);
      assert st1.token + w[1..] == st.token + w;
    }
  }

  /** A quoted argument read from the start of an argument ends as that argument. */
  lemma {:induction false} QuoteScan(tokens: seq<string>, w: string, rest: string)
    requires OnOneLine(w)
    ensures Scan(State(tokens, "", true, false, 0), Quote(w) + rest) == Scan(State(tokens, w, false, false, 0), rest)
  {
    var st := State(tokens, "", true, false, 0);
    assert Quote(w) + rest == ['"'] + (EncodeBody(w) + (['"'] + rest));
    ScanCons(st, '"', EncodeBody(w) + (['"'] + rest));
    var st1 := State(tokens, "", false, true, 0);
    assert Step(st, '"') == st1;
    EncodedBodyScan(st1, w, ['"'] + rest);
    assert "" + w == w;
    var st2 := State(tokens, w, false, true, 0);
    ScanCons(st2, '"', rest);
    assert Step(st2, '"') == State(tokens, w, false, false, 0);
  }

  predicate AllOnOneLine(args: seq<string>)
  {
    forall k :: 0 <= k < |args| ==> OnOneLine(args[k])
  }

  /** The first of several quoted arguments, with the blank after it, is read as one token. */
  lemma {:induction false} FirstArgumentScan(tokens: seq<string>, args: seq<string>)
    requires |args| > 1 && OnOneLine(args[0])
    ensures Scan(State(tokens, "", true, false, 0), CommandLine(args)) ==
      Scan(State(tokens + [args[0]], "", true, false, 0), CommandLine(args[1..]))
  {
    var tail := args[1..];
    assert CommandLine(args) == Quote(args[0]) + " " + CommandLine(tail);
    assert Quote(args[0]) + " " + CommandLine(tail) == Quote(args[0]) + (" " + CommandLine(tail));
    QuoteScan(tokens, args[0], " " + CommandLine(tail));
    var st := State(tokens, args[0], false, false, 0);
    ScanCons(st, ' ', CommandLine(tail));
    assert args[0] + Backslashes(0) == args[0];
    assert Step(st, ' ') == State(tokens + [args[0]], "", true, false, 0);
  }

  lemma {:induction false} CommandLineScan(tokens: seq<string>, args: seq<string>)
    requires |args| > 0 && AllOnOneLine(args)
    ensures Scan(State(tokens, "", true, false, 0), CommandLine(args)) ==
      State(tokens + args[..|args| - 1], args[|args| - 1], false, false, 0)
    decreases |args|
  {
    assert OnOneLine(args[0]);
    if |args| == 1 {
      QuoteScan(tokens, args[0], []);
      assert Quote(args[0]) + [] == Quote(args[0]);
      assert tokens + args[..0] == tokens;
    } else {
      var tail := args[1..];
      assert AllOnOneLine(tail) by {
        forall k | 0 <= k < |tail|
          ensures OnOneLine(tail[k])
        {
          assert tail[k] == args[k + 1];
        }
      }
      FirstArgumentScan(tokens, args);
      CommandLineScan(tokens + [args[0]], tail);
      assert tail[..|tail| - 1] == args[1..|args| - 1];
      assert args[..|args| - 1] == [args[0]] + args[1..|args| - 1];
      assert tokens + [args[0]] + tail[..|tail| - 1] == tokens + args[..|args| - 1];
      assert tail[|tail| - 1] == args[|args| - 1];
    }
  }

  /**
   * Round trip: quoting each argument and tokenizing gives the arguments
   * back, except that an empty last argument is dropped.
   */
  lemma {:induction false} CommandLineRoundTrip(args: seq<string>)
    requires AllOnOneLine(args)
    ensures Tokens(CommandLine(args)) ==
      if args == [] then []
      else if args[|args| - 1] == "" then args[..|args| - 1]
      else args
  {
    if args != [] {
      var n := |args|;
      CommandLineScan([], args);
      var st := State(args[..n - 1], args[n - 1], false, false, 0);
      assert [] + args[..n - 1] == args[..n - 1];
      assert Scan(Start, CommandLine(args)) == st;
      assert st.token + Backslashes(0) == args[n - 1];
      assert args[..n - 1] + [args[n - 1]] == args;
    }
  }

  /** An inner empty quoted argument survives; a final one is dropped. */
  lemma EmptyQuotedArguments()
    ensures Tokens("\"\" x") == ["", "x"]
    ensures Tokens("x \"\"") == ["x"]
  {
    var a := "\"\" x";
    assert a == ['"'] + (['"'] + ([' '] + (['x'] + [])));
    ScanCons(Start, '"', ['"'] + ([' '] + (['x'] + [])));
    ScanCons(State([], "", false, true, 0), '"', [' '] + (['x'] + []));
    ScanCons(State([], "", false, false, 0), ' ', ['x'] + []);
    ScanCons(State([""], "", true, false, 0), 'x', []);
    assert Scan(Start, a) == State([""], "x", false, false, 0);

    var b := "x \"\"";
    assert b == ['x'] + ([' '] + (['"'] + (['"'] + [])));
    ScanCons(Start, 'x', [' '] + (['"'] + (['"'] + [])));
    ScanCons(State([], "x", false, false, 0), ' ', ['"'] + (['"'] + []));
    ScanCons(State(["x"], "", true, false, 0), '"', ['"'] + []);
    ScanCons(State(["x"], "", false, true, 0), '"', []);
    assert Scan(Start, b) == State(["x"], "", false, false, 0);
  }
}
