/** Character and string helpers in the sense of the C library (ASCII only, "C" locale). */
module Strings {
  /** `tolower` of the C library in the "C" locale. */
  function LowerChar(c: char): char
  {
    if 'A' <= c <= 'Z' then (c as int + 32) as char else c
  }

  /** `toupper` of the C library in the "C" locale. */
  function UpperChar(c: char): char
  {
    if 'a' <= c <= 'z' then (c as int - 32) as char else c
  }

  /** Every character lower-cased, as `std::transform(..., ::tolower)` does. */
  function Lower(s: string): string
  {
    seq(|s|, i requires 0 <= i < |s| => LowerChar(s[i]))
  }

  /** `s.find(t) != npos`: `t` occurs somewhere in `s`. */
  predicate Contains(s: string, t: string)
    decreases |s|
  {
    |t| <= |s| && (s[..|t|] == t || Contains(s[1..], t))
  }

  /** `s` is `u + t` for some `u`. */
  predicate HasSuffix(s: string, t: string)
  {
    |t| <= |s| && s[|s| - |t|..] == t
  }

  lemma {:induction false} ContainsExtendedRight(s: string, t: string, b: string)
    requires Contains(s, t)
    ensures Contains(s + b, t)
    decreases |s|
  {
    assert (s + b)[..|t|] == s[..|t|];
    if s[..|t|] != t {
      assert (s + b)[1..] == s[1..] + b;
      ContainsExtendedRight(s[1..], t, b);
    }
  }

  lemma {:induction false} ContainsExtendedLeft(a: string, s: string, t: string)
    requires Contains(s, t)
    ensures Contains(a + s, t)
    decreases |a|
  {
    if a == [] {
      assert a + s == s;
    } else {
      assert (a + s)[1..] == a[1..] + s;
      ContainsExtendedLeft(a[1..], s, t);
    }
  }

  /** A string contains every string it has as an infix. */
  lemma ContainsInfix(a: string, t: string, b: string)
    ensures Contains(a + t + b, t)
  {
    assert t[..|t|] == t;
    ContainsExtendedRight(t, t, b);
    ContainsExtendedLeft(a, t + b, t);
    assert a + t + b == a + (t + b);
  }

  /** `s` ends with `t` exactly when it is `t` preceded by something. */
  lemma HasSuffixIffSplit(s: string, t: string)
    ensures HasSuffix(s, t) <==> exists u :: s == u + t
  {
    if HasSuffix(s, t) {
      assert s == s[..|s| - |t|] + t;
    }
    if exists u :: s == u + t {
      var u :| s == u + t;
      assert s[|s| - |t|..] == t;
    }
  }

  /** `std::replace(s.begin(), s.end(), a, b)` on a copy of `s`. */
  function Replace(s: string, a: char, b: char): (r: string)
    ensures |r| == |s|
  {
    if s == [] then [] else [if s[0] == a then b else s[0]] + Replace(s[1..], a, b)
  }

  /** Position by position, `a` becomes `b` and every other character stays. */
  lemma {:induction false} ReplaceAt(s: string, a: char, b: char)
    ensures forall i :: 0 <= i < |s| ==> Replace(s, a, b)[i] == (if s[i] == a then b else s[i])
  {
    if s != [] {
      ReplaceAt(s[1..], a, b);
    }
  }

  /** After replacing `a` by another character, no `a` is left. */
  lemma ReplaceRemoves(s: string, a: char, b: char)
    requires a != b
    ensures a !in Replace(s, a, b)
  {
    ReplaceAt(s, a, b);
  }

  /** Replacing twice is replacing once. */
  lemma ReplaceIdempotent(s: string, a: char, b: char)
    ensures Replace(Replace(s, a, b), a, b) == Replace(s, a, b)
  {
    ReplaceAt(s, a, b);
    ReplaceAt(Replace(s, a, b), a, b);
  }

  /** Replacing distributes over concatenation. */
  lemma ReplaceAppend(s: string, t: string, a: char, b: char)
    ensures Replace(s + t, a, b) == Replace(s, a, b) + Replace(t, a, b)
  {
    ReplaceAt(s + t, a, b);
    ReplaceAt(s, a, b);
    ReplaceAt(t, a, b);
  }
}
