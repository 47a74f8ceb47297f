/**
 * `NameToSdfPath` of the rendering plugin: the part of an Ignition object
 * name after its last ':' (the scene namespace), with '(', ')' and '/'
 * replaced by '_' so that it can serve as an SDF path element.
 */
module SdfPath {
  import opened Strings

  /** `std::string::npos`, the largest `size_t`. */
  const NPos: nat := 0xFFFF_FFFF_FFFF_FFFF

  /** Addition on `size_t`, which wraps around modulo 2^64. */
  function SizeAdd(a: nat, b: nat): nat
  {
    (a + b) % 0x1_0000_0000_0000_0000
  }

  /** `s.find_last_of(c)`: the index of the last `c`, or `NPos`. */
  function FindLastOf(s: string, c: char): (r: nat)
    ensures r == NPos ==> c !in s
    ensures r != NPos ==> r < |s| && s[r] == c && c !in s[r + 1..]
    requires |s| < NPos
    decreases |s|
  {
    if s == [] then NPos
    else if s[|s| - 1] == c then |s| - 1
    else
      var r := FindLastOf(s[..|s| - 1], c);
      assert r != NPos ==> s[r + 1..] == s[..|s| - 1][r + 1..] + [s[|s| - 1]];
      r
  }

  /** Where the kept part starts: one past the last ':', and 0 when there is none (`npos + 1` wraps). */
  function KeptFrom(name: string): (start: nat)
    requires |name| < NPos
    ensures start <= |name|
  {
    SizeAdd(FindLastOf(name, ':'), 1)
  }

  function NameToSdfPath(name: string): string
    requires |name| < NPos
  {
    Replace(Replace(Replace(name[KeptFrom(name)..], '(', '_'), ')', '_'), '/', '_')
  }

  predicate IsSdfSafe(c: char)
  {
    c != ':' && c != '(' && c != ')' && c != '/'
  }

  lemma ReplaceAbsent(s: string, a: char, b: char)
    requires a !in s
    ensures Replace(s, a, b) == s
  {
    ReplaceAt(s, a, b);
  }

  /**
   * The result is what follows the last ':' (all of the name if there is
   * none), character for character except that '(', ')' and '/' became '_';
   * so it holds none of ':', '(', ')', '/'.
   */
  lemma NameToSdfPathMeaning(name: string)
    requires |name| < NPos
    ensures var start := KeptFrom(name);
      (':' !in name ==> start == 0) &&
      (':' in name ==> start > 0 && name[start - 1] == ':' && ':' !in name[start..]) &&
      |NameToSdfPath(name)| == |name| - start &&
      forall k :: 0 <= k < |NameToSdfPath(name)| ==>
        NameToSdfPath(name)[k] == (if name[start + k] in "()/" then '_' else name[start + k])
    ensures forall k :: 0 <= k < |NameToSdfPath(name)| ==> IsSdfSafe(NameToSdfPath(name)[k])
  {
    var start := KeptFrom(name);
    var kept := name[start..];
    var r1 := Replace(kept, '(', '_');
    var r2 := Replace(r1, ')', '_');
    ReplaceAt(kept, '(', '_');
    ReplaceAt(r1, ')', '_');
    ReplaceAt(r2, '/', '_');
    assert ':' !in kept;
  }

  /** Converting twice is converting once. */
  lemma NameToSdfPathIdempotent(name: string)
    requires |name| < NPos
    ensures NameToSdfPath(NameToSdfPath(name)) == NameToSdfPath(name)
  {
    var r := NameToSdfPath(name);
    NameToSdfPathMeaning(name);
    forall k | 0 <= k < |r|
      ensures r[k] != ':' && r[k] != '(' && r[k] != ')' && r[k] != '/'
    {
      assert IsSdfSafe(r[k]);
    }
    assert r[0..] == r;
    ReplaceAbsent(r, '(', '_');
    ReplaceAbsent(r, ')', '_');
    ReplaceAbsent(r, '/', '_');
  }

  /**
   * The scene namespace goes: a name `a + ":" + t` with no ':' in `t`
   * converts like `t` alone (so "test_scene::Visual(65535)" converts like
   * "Visual(65535)").
   */
  lemma NamespaceDropped(a: string, t: string)
    requires ':' !in t && |a| + 1 + |t| < NPos
    ensures NameToSdfPath(a + ":" + t) == NameToSdfPath(t)
  {
    var name := a + ":" + t;
    KeptAfterLastColon(a, t);
    assert name[|a| + 1..] == t;
    var r := FindLastOf(t, ':');
    assert KeptFrom(t) == 0;
    assert t[0..] == t;
  }

  /** A name `a + ":" + t` with no ':' in `t` keeps exactly `t`. */
  lemma KeptAfterLastColon(a: string, t: string)
    requires ':' !in t && |a| + 1 + |t| < NPos
    ensures KeptFrom(a + ":" + t) == |a| + 1
  {
    var name := a + ":" + t;
    var r := FindLastOf(name, ':');
    assert name[|a|] == ':';
    assert name[|a| + 1..] == t;
  }

  /** The example of the source: the scene namespace goes, the parentheses become '_'. */
  lemma SceneVisualExample()
    ensures NameToSdfPath("test_scene::Visual(65535)") == "Visual_65535_"
  {
    var tail := "Visual(65535)";
    assert "test_scene::Visual(65535)" == "test_scene:" + ":" + tail;
    NamespaceDropped("test_scene:", tail);
    VisualTail();
  }

  /** The part after the namespace converts character by character. */
  lemma VisualTail()
    ensures NameToSdfPath("Visual(65535)") == "Visual_65535_"
  {
    VisualTailPointwise("Visual(65535)");
  }

  /** Any 13-character string spelling "Visual(65535)" converts to "Visual_65535_". */
  lemma VisualTailPointwise(t: string)
    requires |t| == 13 && t[0] == 'V' && t[1] == 'i' && t[2] == 's' && t[3] == 'u' && t[4] == 'a' && t[5] == 'l'
    requires t[6] == '(' && t[7] == '6' && t[8] == '5' && t[9] == '5' && t[10] == '3' && t[11] == '5' && t[12] == ')'
    ensures NameToSdfPath(t) == "Visual_65535_"
  {
    NameToSdfPathMeaning(t);
    var r := NameToSdfPath(t);
    assert ':' !in t by {
      forall k | 0 <= k < |t| ensures t[k] != ':' { }
    }
    assert KeptFrom(t) == 0;
    var e := "Visual_65535_";
    forall k | 0 <= k < 13 ensures r[k] == e[k] { }
  }
}
