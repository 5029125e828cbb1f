/**
 * lib/utils.ts: turning a shop name into a subdomain, validating a
 * subdomain, finding the tenant in a Host header, and the WhatsApp and UPI
 * deep links.
 */
module Utils {
  import opened Basics
  import opened Seqs
  import opened Strings
  import opened Uri
  import opened Types

  // ===== generateSubdomain =====

  /** `[a-z0-9]`: the characters of a subdomain label. */
  predicate IsSlugChar(ch: char) {
    'a' <= ch <= 'z' || '0' <= ch <= '9'
  }

  predicate IsAsciiAlnum(ch: char) {
    'A' <= ch <= 'Z' || 'a' <= ch <= 'z' || '0' <= ch <= '9'
  }

  predicate IsHyphen(ch: char) {
    ch == '-'
  }

  /**
   * `\s` in an ECMAScript regular expression, which is also what `trim`
   * strips: tab, line feed, vertical tab, form feed, carriage return, space,
   * no-break space, the Unicode space separators, the line and paragraph
   * separators and the byte order mark.
   */
  const JsWhitespace: string :=
    "\t\n\U{B}\U{C}\r \U{A0}\U{1680}\U{2000}\U{2001}\U{2002}\U{2003}\U{2004}\U{2005}\U{2006}"
    + "\U{2007}\U{2008}\U{2009}\U{200A}\U{2028}\U{2029}\U{202F}\U{205F}\U{3000}\U{FEFF}"

  predicate IsJsWhitespace(ch: char) {
    OneOf(ch, JsWhitespace)
  }

  /** `ch` is one of `cs`, tested left to right. */
  predicate OneOf(ch: char, cs: string) {
    cs != [] && (cs[0] == ch || OneOf(ch, cs[1..]))
  }

  lemma {:induction false} OneOfMeans(ch: char, cs: string)
    ensures OneOf(ch, cs) <==> ch in cs
  {
    if cs != [] {
      OneOfMeans(ch, cs[1..]);
      assert cs == [cs[0]] + cs[1..];
    }
  }

  function LowerChar(ch: char): char {
    if 'A' <= ch <= 'Z' then (ch as int + 32) as char else ch
  }

  /** `toLowerCase`, on the ASCII letters. */
  function Lower(s: string): (r: string)
    ensures |r| == |s|
  {
    if s == [] then [] else [LowerChar(s[0])] + Lower(s[1..])
  }

  /** What `replace(/[^a-z0-9\s-]/g, '')` keeps. */
  predicate IsKept(ch: char) {
    IsSlugChar(ch) || IsJsWhitespace(ch) || ch == '-'
  }

  /** `trimStart()`: drop the leading white space. */
  function TrimStart(s: string): (r: string)
    ensures |r| <= |s| && r == s[|s| - |r|..]
    ensures r != [] ==> !IsJsWhitespace(r[0])
  {
    if s != [] && IsJsWhitespace(s[0]) then TrimStart(s[1..]) else s
  }

  /** `trimEnd()`: drop the trailing white space. */
  function TrimEnd(s: string): (r: string)
    ensures |r| <= |s| && r == s[..|r|]
    ensures r != [] ==> !IsJsWhitespace(r[|r| - 1])
  {
    if s != [] && IsJsWhitespace(s[|s| - 1]) then TrimEnd(s[..|s| - 1]) else s
  }

  /** `trim()`: a middle part of `s` whose ends are not white space. */
  function Trim(s: string): (r: string)
    ensures |r| <= |s|
    ensures r != [] ==> !IsJsWhitespace(r[0]) && !IsJsWhitespace(r[|r| - 1])
  {
    var t := TrimStart(s);
    var r := TrimEnd(t);
    assert r != [] ==> r[0] == t[0];
    r
  }

  /**
   * `replace(/P+/g, '-')` for a character class P: every maximal run of
   * characters satisfying `inRun` becomes a single hyphen. A run character
   * followed by another one is dropped; the last one of a run becomes '-'.
   */
  function CollapseRuns(s: string, inRun: char -> bool): (r: string)
    ensures |r| <= |s|
  {
    if s == [] then [] else RunHead(s, inRun) + CollapseRuns(s[1..], inRun)
  }

  /** What the first character of `s` contributes to the collapsed string. */
  function RunHead(s: string, inRun: char -> bool): (r: string)
    requires s != []
    ensures |r| <= 1
  {
    if !inRun(s[0]) then [s[0]]
    else if |s| > 1 && inRun(s[1]) then []
    else ['-']
  }

  /** `generateSubdomain(name)`: lower-case, drop special characters, trim, hyphenate, squeeze hyphens. */
  function GenerateSubdomain(name: string): string {
    var kept := Filter(Lower(name), IsKept);
    CollapseRuns(CollapseRuns(Trim(kept), IsJsWhitespace), IsHyphen)
  }

  // ===== validateSubdomain =====

  /**
   * The regular expression `^[a-z0-9]+(-[a-z0-9]+)*$`, read left to right:
   * a label character, then the end, another label character of the same run,
   * or a hyphen that starts a new run.
   */
  predicate MatchesSlugPattern(s: string)
    decreases |s|
  {
    && |s| > 0
    && IsSlugChar(s[0])
    && (|| |s| == 1
        || (IsSlugChar(s[1]) && MatchesSlugPattern(s[1..]))
        || (s[1] == '-' && MatchesSlugPattern(s[2..])))
  }

  /** `validateSubdomain(subdomain)`. */
  predicate ValidateSubdomain(s: string) {
    MatchesSlugPattern(s) && 3 <= |s| <= 50
  }

  /** No "--" anywhere in `s`. */
  predicate NoDoubleHyphen(s: string) {
    forall k :: 0 <= k < |s| - 1 ==> !(s[k] == '-' && s[k + 1] == '-')
  }

  /** Every character is a label character or a hyphen. */
  predicate SlugAlphabet(s: string) {
    forall k :: 0 <= k < |s| ==> IsSlugChar(s[k]) || s[k] == '-'
  }

  /** Runs of `[a-z0-9]` joined by single hyphens, stated position by position. */
  predicate HyphenatedRuns(s: string) {
    && |s| > 0
    && IsSlugChar(s[0])
    && IsSlugChar(s[|s| - 1])
    && SlugAlphabet(s)
    && NoDoubleHyphen(s)
  }

  // ===== what validateSubdomain accepts =====

  /** The regular expression matches exactly the runs of `[a-z0-9]` joined by single hyphens. */
  lemma {:induction false} SlugPatternIff(s: string)
    ensures MatchesSlugPattern(s) <==> HyphenatedRuns(s)
    decreases |s|
  {
    if |s| > 1 {
      SlugPatternIff(s[1..]);
      if |s| > 2 {
        SlugPatternIff(s[2..]);
      }
      if MatchesSlugPattern(s) {
        assert forall k :: 1 <= k < |s| ==> s[k] == s[1..][k - 1];
        if s[1] == '-' {
          assert forall k :: 2 <= k < |s| ==> s[k] == s[2..][k - 2];
        }
      }
      if HyphenatedRuns(s) {
        if IsSlugChar(s[1]) {
          assert HyphenatedRuns(s[1..]);
        } else {
          assert s[2] != '-';
          assert HyphenatedRuns(s[2..]);
        }
      }
    }
  }

  /**
   * A valid subdomain is 3 to 50 characters of `[a-z0-9]` runs joined by
   * single hyphens, so it has no '.', no ':' and no hyphen at either end.
   */
  lemma ValidateSubdomainMeans(s: string)
    ensures ValidateSubdomain(s) <==> HyphenatedRuns(s) && 3 <= |s| <= 50
    ensures ValidateSubdomain(s) ==> '.' !in s && ':' !in s && s[0] != '-' && s[|s| - 1] != '-'
  {
    SlugPatternIff(s);
  }

  // ===== what the steps of generateSubdomain do =====

  /** Lower-casing maps every character on its own. */
  lemma {:induction false} LowerAt(s: string)
    ensures forall k :: 0 <= k < |s| ==> Lower(s)[k] == LowerChar(s[k])
  {
    if s != [] {
      LowerAt(s[1..]);
    }
  }

  /** Trimming removes white space from the ends and nothing else. */
  lemma {:induction false} TrimStartCuts(s: string)
    ensures forall k :: 0 <= k < |s| - |TrimStart(s)| ==> IsJsWhitespace(s[k])
  {
    if s != [] && IsJsWhitespace(s[0]) {
      TrimStartCuts(s[1..]);
      assert forall k :: 1 <= k < |s| ==> s[k] == s[1..][k - 1];
    }
  }

  lemma {:induction false} TrimEndCuts(s: string)
    ensures forall k :: |TrimEnd(s)| <= k < |s| ==> IsJsWhitespace(s[k])
  {
    if s != [] && IsJsWhitespace(s[|s| - 1]) {
      TrimEndCuts(s[..|s| - 1]);
    }
  }

  /** `trim()` keeps a contiguous middle part and cuts only white space around it. */
  lemma TrimCuts(s: string)
    ensures var i := |s| - |TrimStart(s)|;
      && i + |Trim(s)| <= |s|
      && Trim(s) == s[i..i + |Trim(s)|]
      && (forall k :: 0 <= k < i ==> IsJsWhitespace(s[k]))
      && (forall k :: i + |Trim(s)| <= k < |s| ==> IsJsWhitespace(s[k]))
  {
    TrimStartCuts(s);
    TrimSlice(s);
    TrimEndCutsInside(s);
  }

  lemma TrimEndCutsInside(s: string)
    ensures var i := |s| - |TrimStart(s)|;
      forall k :: i + |Trim(s)| <= k < |s| ==> IsJsWhitespace(s[k])
  {
    var t := TrimStart(s);
    var i := |s| - |t|;
    TrimEndCuts(t);
    forall k | i + |Trim(s)| <= k < |s|
      ensures IsJsWhitespace(s[k])
    {
      assert s[k] == t[k - i];
    }
  }

  lemma TrimSlice(s: string)
    ensures var i := |s| - |TrimStart(s)|;
      i + |Trim(s)| <= |s| && Trim(s) == s[i..i + |Trim(s)|]
  {
    var t := TrimStart(s);
    assert Trim(s) == TrimEnd(t);
    SliceOfSlice(s, t, TrimEnd(t));
  }

  /** A prefix of a suffix is a slice. */
  lemma SliceOfSlice(s: string, t: string, r: string)
    requires |t| <= |s| && t == s[|s| - |t|..] && |r| <= |t| && r == t[..|r|]
    ensures |s| - |t| + |r| <= |s| && r == s[|s| - |t|..|s| - |t| + |r|]
  {
  }

  lemma TrimChars(s: string)
    ensures forall k :: 0 <= k < |Trim(s)| ==> Trim(s)[k] in s
  {
    TrimCuts(s);
  }

  /** The characters of a slug are never white space. */
  lemma SlugCharNotWhitespace()
    ensures forall ch :: IsSlugChar(ch) || ch == '-' ==> !IsJsWhitespace(ch)
  {
    WhitespaceIsNotLabel();
  }

  /** No white-space character is an ASCII letter, a digit or a hyphen. */
  lemma WhitespaceIsNotLabel()
    ensures forall ch :: IsJsWhitespace(ch) ==> !IsAsciiAlnum(ch) && ch != '-'
  {
    forall ch | IsJsWhitespace(ch)
      ensures !IsAsciiAlnum(ch) && ch != '-'
    {
      OneOfMeans(ch, JsWhitespace);
    }
  }

  lemma SpaceIsWhitespace()
    ensures IsJsWhitespace(' ')
  {
    OneOfMeans(' ', JsWhitespace);
    assert JsWhitespace[5] == ' ';
  }

  /** Collapsing label characters, hyphens and run characters leaves only label characters and hyphens. */
  lemma {:induction false} CollapseRunsAlphabet(s: string, inRun: char -> bool)
    requires forall k :: 0 <= k < |s| ==> IsSlugChar(s[k]) || s[k] == '-' || inRun(s[k])
    ensures SlugAlphabet(CollapseRuns(s, inRun))
  {
    if s != [] {
      CollapseRunsAlphabet(s[1..], inRun);
      var head := RunHead(s, inRun);
      SlugAlphabetAppend(head, CollapseRuns(s[1..], inRun));
    }
  }

  lemma SlugAlphabetAppend(a: string, b: string)
    requires SlugAlphabet(a) && SlugAlphabet(b)
    ensures SlugAlphabet(a + b)
  {
    assert forall k :: |a| <= k < |a + b| ==> (a + b)[k] == b[k - |a|];
  }

  /** A collapsed string is empty only when the input is, and starts and ends as the input does. */
  lemma CollapseRunsEnds(s: string, inRun: char -> bool)
    ensures s == [] <==> CollapseRuns(s, inRun) == []
    ensures s != [] ==> CollapseRuns(s, inRun)[0] == (if inRun(s[0]) then '-' else s[0])
    ensures s != [] ==> var r := CollapseRuns(s, inRun);
      r[|r| - 1] == (if inRun(s[|s| - 1]) then '-' else s[|s| - 1])
  {
    if s != [] {
      CollapseRunsNonEmpty(s[1..], inRun);
      CollapseRunsLast(s, inRun);
    }
  }

  lemma {:induction false} CollapseRunsNonEmpty(s: string, inRun: char -> bool)
    ensures s == [] <==> CollapseRuns(s, inRun) == []
  {
    if s != [] {
      CollapseRunsNonEmpty(s[1..], inRun);
    }
  }

  lemma {:induction false} CollapseRunsLast(s: string, inRun: char -> bool)
    requires s != []
    ensures var r := CollapseRuns(s, inRun);
      r != [] && r[|r| - 1] == (if inRun(s[|s| - 1]) then '-' else s[|s| - 1])
  {
    var rest := CollapseRuns(s[1..], inRun);
    var head := RunHead(s, inRun);
    assert CollapseRuns(s, inRun) == head + rest;
    if |s| > 1 {
      CollapseRunsLast(s[1..], inRun);
      assert s[1..][|s| - 2] == s[|s| - 1];
    }
  }

  /** Collapsing leaves no "--" when every hyphen of the input belongs to a run. */
  lemma {:induction false} CollapseRunsNoDoubleHyphen(s: string, inRun: char -> bool)
    requires forall k :: 0 <= k < |s| && s[k] == '-' ==> inRun(s[k])
    ensures NoDoubleHyphen(CollapseRuns(s, inRun))
  {
    if s != [] {
      var rest := CollapseRuns(s[1..], inRun);
      CollapseRunsNoDoubleHyphen(s[1..], inRun);
      CollapseRunsEnds(s[1..], inRun);
      var r := CollapseRuns(s, inRun);
      if !inRun(s[0]) || (|s| > 1 && !inRun(s[1])) || |s| == 1 {
        assert forall k :: 1 <= k < |r| ==> r[k] == rest[k - 1];
      }
    }
  }

  /** Collapsing changes nothing when runs are already single hyphens. */
  lemma {:induction false} CollapseRunsIdentity(s: string, inRun: char -> bool)
    requires forall k :: 0 <= k < |s| && inRun(s[k]) ==> s[k] == '-'
    requires forall k :: 0 <= k < |s| - 1 ==> !(inRun(s[k]) && inRun(s[k + 1]))
    ensures CollapseRuns(s, inRun) == s
  {
    if s != [] {
      CollapseRunsIdentity(s[1..], inRun);
      assert [s[0]] + s[1..] == s;
    }
  }

  /** Runs cannot straddle a boundary whose left side does not end in a run character. */
  lemma {:induction false} CollapseRunsAppend(a: string, b: string, inRun: char -> bool)
    requires a == [] || !inRun(a[|a| - 1])
    ensures CollapseRuns(a + b, inRun) == CollapseRuns(a, inRun) + CollapseRuns(b, inRun)
  {
    if a == [] {
      assert a + b == b;
    } else {
      RunHeadAppend(a, b, inRun);
      CollapseRunsAppend(a[1..], b, inRun);
    }
  }

  /** The first character's contribution does not look past a boundary that is not inside a run. */
  lemma RunHeadAppend(a: string, b: string, inRun: char -> bool)
    requires a != [] && !inRun(a[|a| - 1])
    ensures (a + b)[1..] == a[1..] + b
    ensures RunHead(a + b, inRun) == RunHead(a, inRun)
  {
    var s := a + b;
    assert s[0] == a[0];
    assert |a| > 1 ==> s[1] == a[1];
  }

  /** Collapsing keeps the label characters, in order, when no label character is a run character. */
  lemma {:induction false} CollapseRunsKeepsLabels(s: string, inRun: char -> bool)
    requires forall ch :: IsSlugChar(ch) ==> !inRun(ch)
    ensures Filter(CollapseRuns(s, inRun), IsSlugChar) == Filter(s, IsSlugChar)
  {
    if s != [] {
      CollapseRunsKeepsLabels(s[1..], inRun);
      var head := RunHead(s, inRun);
      FilterAppend(head, CollapseRuns(s[1..], inRun), IsSlugChar);
    }
  }

  lemma {:induction false} TrimStartKeepsLabels(s: string)
    ensures Filter(TrimStart(s), IsSlugChar) == Filter(s, IsSlugChar)
  {
    if s != [] && IsJsWhitespace(s[0]) {
      TrimStartKeepsLabels(s[1..]);
      SlugCharNotWhitespace();
    }
  }

  lemma {:induction false} TrimEndKeepsLabels(s: string)
    ensures Filter(TrimEnd(s), IsSlugChar) == Filter(s, IsSlugChar)
  {
    if s != [] && IsJsWhitespace(s[|s| - 1]) {
      var init := s[..|s| - 1];
      TrimEndKeepsLabels(init);
      assert s == init + [s[|s| - 1]];
      FilterAppend(init, [s[|s| - 1]], IsSlugChar);
      SlugCharNotWhitespace();
    }
  }

  lemma TrimKeepsLabels(s: string)
    ensures Filter(Trim(s), IsSlugChar) == Filter(s, IsSlugChar)
  {
    TrimStartKeepsLabels(s);
    TrimEndKeepsLabels(TrimStart(s));
  }

  lemma {:induction false} LowerKeepsLabels(s: string)
    ensures Filter(Lower(s), IsSlugChar) == Lower(Filter(s, IsAsciiAlnum))
  {
    if s != [] {
      var c := s[0];
      var rest := Filter(s[1..], IsAsciiAlnum);
      LowerKeepsLabels(s[1..]);
      var lowered := Lower(s);
      assert lowered[0] == LowerChar(c) && lowered[1..] == Lower(s[1..]);
      assert IsSlugChar(LowerChar(c)) <==> IsAsciiAlnum(c);
      assert Filter(s, IsAsciiAlnum) == (if IsAsciiAlnum(c) then [c] else []) + rest;
      if IsAsciiAlnum(c) {
        var t := [c] + rest;
        assert t[0] == c && t[1..] == rest;
        assert Lower(t) == [LowerChar(c)] + Lower(rest);
      } else {
        assert [] + rest == rest;
      }
    }
  }

  // ===== what generateSubdomain produces =====

  /**
   * The letters and digits of the generated subdomain are exactly the ASCII
   * letters and digits of the name, lower-cased and in order.
   */
  lemma GenerateSubdomainKeepsLabels(name: string)
    ensures Filter(GenerateSubdomain(name), IsSlugChar) == Lower(Filter(name, IsAsciiAlnum))
  {
    var lowered := Lower(name);
    var kept := Filter(lowered, IsKept);
    var trimmed := Trim(kept);
    var spaced := CollapseRuns(trimmed, IsJsWhitespace);
    SlugCharNotWhitespace();
    calc {
      Filter(GenerateSubdomain(name), IsSlugChar);
      Filter(CollapseRuns(spaced, IsHyphen), IsSlugChar);
      { CollapseRunsKeepsLabels(spaced, IsHyphen); }
      Filter(spaced, IsSlugChar);
      { CollapseRunsKeepsLabels(trimmed, IsJsWhitespace); }
      Filter(trimmed, IsSlugChar);
      { TrimKeepsLabels(kept); }
      Filter(kept, IsSlugChar);
      { FilterFilter(lowered, IsKept, IsSlugChar); }
      Filter(lowered, IsSlugChar);
      { LowerKeepsLabels(name); }
      Lower(Filter(name, IsAsciiAlnum));
    }
  }

  /** The generated subdomain uses only `[a-z0-9-]`, has no "--" and is no longer than the name. */
  lemma GenerateSubdomainShape(name: string)
    ensures SlugAlphabet(GenerateSubdomain(name))
    ensures NoDoubleHyphen(GenerateSubdomain(name))
    ensures |GenerateSubdomain(name)| <= |name|
  {
    var trimmed := Trim(Filter(Lower(name), IsKept));
    var spaced := CollapseRuns(trimmed, IsJsWhitespace);
    TrimmedChars(name, trimmed);
    CollapseRunsAlphabet(trimmed, IsJsWhitespace);
    CollapseRunsAlphabet(spaced, IsHyphen);
    CollapseRunsNoDoubleHyphen(spaced, IsHyphen);
  }

  /** What reaches the hyphenation steps is label characters, white space and hyphens. */
  lemma TrimmedChars(name: string, trimmed: string)
    requires trimmed == Trim(Filter(Lower(name), IsKept))
    ensures forall k :: 0 <= k < |trimmed| ==> IsSlugChar(trimmed[k]) || trimmed[k] == '-' || IsJsWhitespace(trimmed[k])
  {
    var kept := Filter(Lower(name), IsKept);
    FilterMembers(Lower(name), IsKept);
    TrimChars(kept);
    forall k | 0 <= k < |trimmed|
      ensures IsKept(trimmed[k])
    {
      assert trimmed[k] in kept;
    }
  }

  /** A string that already has the generated shape is left unchanged. */
  lemma GenerateSubdomainFixes(s: string)
    requires SlugAlphabet(s) && NoDoubleHyphen(s)
    ensures GenerateSubdomain(s) == s
  {
    LowerUnchanged(s);
    KeptUnchanged(s);
    SlugCharNotWhitespace();
    TrimUnchanged(s);
    CollapseRunsIdentity(s, IsJsWhitespace);
    CollapseRunsIdentity(s, IsHyphen);
  }

  lemma {:induction false} LowerUnchanged(s: string)
    requires SlugAlphabet(s)
    ensures Lower(s) == s
  {
    if s != [] {
      LowerUnchanged(s[1..]);
      assert [s[0]] + s[1..] == s;
    }
  }

  /** Lower-casing changes no character that the filter keeps. */
  lemma {:induction false} LowerFixesKept(s: string)
    requires forall k :: 0 <= k < |s| ==> IsKept(s[k])
    ensures Lower(s) == s
  {
    if s != [] {
      WhitespaceIsNotLabel();
      LowerFixesKept(s[1..]);
      assert LowerChar(s[0]) == s[0];
      assert [s[0]] + s[1..] == s;
    }
  }

  /** Lower-casing and filtering a second time change nothing: only the kept characters matter. */
  lemma GenerateSubdomainOfKept(name: string)
    ensures GenerateSubdomain(Filter(Lower(name), IsKept)) == GenerateSubdomain(name)
  {
    var kept := Filter(Lower(name), IsKept);
    FilterMembers(Lower(name), IsKept);
    assert forall k :: 0 <= k < |kept| ==> IsKept(kept[k]) by {
      forall k | 0 <= k < |kept| ensures IsKept(kept[k]) {
        assert kept[k] in kept;
      }
    }
    LowerFixesKept(kept);
    FilterKeepsAll(kept, IsKept);
  }

  lemma KeptUnchanged(s: string)
    requires SlugAlphabet(s)
    ensures Filter(s, IsKept) == s
  {
    FilterKeepsAll(s, IsKept);
  }

  lemma TrimUnchanged(s: string)
    requires forall k :: 0 <= k < |s| ==> !IsJsWhitespace(s[k])
    ensures Trim(s) == s
  {
    assert TrimStart(s) == s;
    assert TrimEnd(s) == s;
  }

  /** Generating twice is the same as generating once. */
  lemma GenerateSubdomainIdempotent(name: string)
    ensures GenerateSubdomain(GenerateSubdomain(name)) == GenerateSubdomain(name)
  {
    GenerateSubdomainShape(name);
    GenerateSubdomainFixes(GenerateSubdomain(name));
  }

  /**
   * A name without hyphens, of at most 50 characters and with at least three
   * ASCII letters or digits, yields a subdomain that validateSubdomain accepts.
   */
  lemma GenerateSubdomainValid(name: string)
    requires '-' !in name
    requires |Filter(name, IsAsciiAlnum)| >= 3
    requires |name| <= 50
    ensures ValidateSubdomain(GenerateSubdomain(name))
  {
    var trimmed := Trim(Filter(Lower(name), IsKept));
    var spaced := CollapseRuns(trimmed, IsJsWhitespace);
    KeptHasNoHyphen(name, trimmed);
    TrimmedLabels(name);
    SpacedShape(trimmed);
    CollapseRunsIdentity(spaced, IsHyphen);
    SlugPatternIff(spaced);
  }

  /** The label characters that reach the hyphenation steps are the name's letters and digits. */
  lemma TrimmedLabels(name: string)
    ensures |Filter(Trim(Filter(Lower(name), IsKept)), IsSlugChar)| == |Filter(name, IsAsciiAlnum)|
  {
    var lowered := Lower(name);
    var kept := Filter(lowered, IsKept);
    LowerKeepsLabels(name);
    FilterFilter(lowered, IsKept, IsSlugChar);
    TrimKeepsLabels(kept);
  }

  /** Without hyphens in the name, what survives the filter is label characters and white space. */
  lemma KeptHasNoHyphen(name: string, trimmed: string)
    requires '-' !in name
    requires trimmed == Trim(Filter(Lower(name), IsKept))
    ensures forall k :: 0 <= k < |trimmed| ==> IsSlugChar(trimmed[k]) || IsJsWhitespace(trimmed[k])
  {
    var lowered := Lower(name);
    var kept := Filter(lowered, IsKept);
    LowerAt(name);
    assert '-' !in lowered;
    TrimmedChars(name, trimmed);
    FilterMembers(lowered, IsKept);
    TrimChars(kept);
    forall k | 0 <= k < |trimmed|
      ensures trimmed[k] != '-'
    {
      assert trimmed[k] in kept;
    }
  }

  /** Hyphenating trimmed label characters and white space gives runs joined by single hyphens. */
  lemma SpacedShape(trimmed: string)
    requires forall k :: 0 <= k < |trimmed| ==> IsSlugChar(trimmed[k]) || IsJsWhitespace(trimmed[k])
    requires trimmed != [] ==> !IsJsWhitespace(trimmed[0]) && !IsJsWhitespace(trimmed[|trimmed| - 1])
    requires |Filter(trimmed, IsSlugChar)| >= 3
    ensures HyphenatedRuns(CollapseRuns(trimmed, IsJsWhitespace))
    ensures 3 <= |CollapseRuns(trimmed, IsJsWhitespace)| <= |trimmed|
  {
    SpacedLength(trimmed);
    SpacedEnds(trimmed);
    SpacedAlphabet(trimmed);
    CollapseRunsNoDoubleHyphen(trimmed, IsJsWhitespace);
  }

  lemma SpacedLength(trimmed: string)
    requires |Filter(trimmed, IsSlugChar)| >= 3
    ensures 3 <= |CollapseRuns(trimmed, IsJsWhitespace)|
  {
    SlugCharNotWhitespace();
    CollapseRunsKeepsLabels(trimmed, IsJsWhitespace);
  }

  lemma SpacedEnds(trimmed: string)
    requires forall k :: 0 <= k < |trimmed| ==> IsSlugChar(trimmed[k]) || IsJsWhitespace(trimmed[k])
    requires trimmed != [] && !IsJsWhitespace(trimmed[0]) && !IsJsWhitespace(trimmed[|trimmed| - 1])
    ensures var r := CollapseRuns(trimmed, IsJsWhitespace);
      r != [] && IsSlugChar(r[0]) && IsSlugChar(r[|r| - 1])
  {
    CollapseRunsEnds(trimmed, IsJsWhitespace);
  }

  lemma SpacedAlphabet(trimmed: string)
    requires forall k :: 0 <= k < |trimmed| ==> IsSlugChar(trimmed[k]) || IsJsWhitespace(trimmed[k])
    ensures SlugAlphabet(CollapseRuns(trimmed, IsJsWhitespace))
  {
    assert forall k :: 0 <= k < |trimmed| ==> IsSlugChar(trimmed[k]) || trimmed[k] == '-' || IsJsWhitespace(trimmed[k]);
    CollapseRunsAlphabet(trimmed, IsJsWhitespace);
  }

  // ===== extractSubdomain =====

  /**
   * `extractSubdomain(hostname, mainDomain)`: the tenant named by a Host
   * header, or None for the main site. Ports are cut at the first ':' of
   * both arguments; the suffix is removed with a first-occurrence replace.
   */
  function ExtractSubdomain(hostname: string, mainDomain: string): (r: Option<string>)
    ensures r != Some("www")
    ensures r.Some? ==> ':' !in r.value
    ensures r.Some? ==> EndsWith(BeforeFirst(hostname, ':'), ".localhost")
                        || EndsWith(BeforeFirst(hostname, ':'), "." + BeforeFirst(mainDomain, ':'))
  {
    var host := BeforeFirst(hostname, ':');
    if host == "localhost" || host == "127.0.0.1" then None
    else if EndsWith(host, ".localhost") then
      ReplaceFirstKeepsOut(host, ".localhost", ':');
      var sub := ReplaceFirst(host, ".localhost", "");
      if sub == "www" then None else Some(sub)
    else
      var domain := BeforeFirst(mainDomain, ':');
      if host == domain || host == "www." + domain then None
      else if EndsWith(host, "." + domain) then
        ReplaceFirstKeepsOut(host, "." + domain, ':');
        var sub := ReplaceFirst(host, "." + domain, "");
        if sub == "www" then None else Some(sub)
      else None
  }

  /** Only the part before the first ':' of either argument matters. */
  lemma ExtractSubdomainIgnoresPort(hostname: string, mainDomain: string)
    ensures ExtractSubdomain(hostname, mainDomain)
         == ExtractSubdomain(BeforeFirst(hostname, ':'), BeforeFirst(mainDomain, ':'))
  {
    BeforeFirstNoSeparator(BeforeFirst(hostname, ':'), ':');
    BeforeFirstNoSeparator(BeforeFirst(mainDomain, ':'), ':');
  }

  /**
   * A dot-free front part followed by "." and a domain ends with ".localhost" only
   * when the domain itself ends with ".localhost" or is "localhost".
   */
  lemma LocalhostSuffix(front: string, d: string)
    requires '.' !in front
    requires EndsWith(front + "." + d, ".localhost")
    requires !EndsWith(d, ".localhost")
    ensures d == "localhost"
  {
    var host := front + "." + d;
    var suffix := ".localhost";
    var i := |front| - (|host| - 10);
    assert host[|front|] == '.';
    assert 0 <= i < 10;
    assert suffix[i] == '.';
    assert i == 0;
    assert d == host[|front| + 1..];
    assert d == suffix[1..];
  }

  /** A tenant under the development host `<tenant>.localhost[:port]` is recovered, whatever the root domain. */
  lemma ExtractSubdomainLocalhostRoundTrip(s: string, port: string, mainDomain: string)
    requires '.' !in s && ':' !in s && s != "www"
    requires port == [] || port[0] == ':'
    ensures ExtractSubdomain(s + ".localhost" + port, mainDomain) == Some(s)
  {
    var host := s + ".localhost";
    BeforeFirstAppend(host, ':', port);
    assert BeforeFirst(s + ".localhost" + port, ':') == host;
    assert host != "localhost" && host != "127.0.0.1";
    assert EndsWith(host, ".localhost");
    ReplaceFirstAfterFront(s, ".localhost", []);
    assert host + [] == host && s + [] == s;
    assert ReplaceFirst(host, ".localhost", "") == s;
  }

  /**
   * The round trip of tenant routing: a valid subdomain other than "www",
   * placed in front of the root domain, is what extractSubdomain finds,
   * whatever ports either side carries.
   */
  lemma ExtractSubdomainRoundTrip(s: string, d: string, port: string, mainPort: string)
    requires ValidateSubdomain(s) && s != "www"
    requires ':' !in d && !EndsWith(d, ".localhost")
    requires s + "." + d != "127.0.0.1"
    requires port == [] || port[0] == ':'
    requires mainPort == [] || mainPort[0] == ':'
    ensures ExtractSubdomain(s + "." + d + port, d + mainPort) == Some(s)
  {
    ValidateSubdomainMeans(s);
    var host := s + "." + d;
    BeforeFirstAppend(host, ':', port);
    BeforeFirstAppend(d, ':', mainPort);
    ExtractSubdomainIgnoresPort(host + port, d + mainPort);
    HostRoundTrip(s, d);
  }

  lemma HostRoundTrip(s: string, d: string)
    requires '.' !in s && ':' !in s && s != "www"
    requires ':' !in d && !EndsWith(d, ".localhost")
    requires s + "." + d != "127.0.0.1"
    ensures ExtractSubdomain(s + "." + d, d) == Some(s)
  {
    if EndsWith(s + "." + d, ".localhost") {
      HostRoundTripOnLocalhost(s, d);
    } else {
      TenantHostHasNoPort(s, d);
      ExtractOnDomain(s + "." + d, d);
      HostRoundTripOnDomain(s, d);
    }
  }

  /** With the root domain "localhost" the development-host branch finds the tenant. */
  lemma HostRoundTripOnLocalhost(s: string, d: string)
    requires '.' !in s && ':' !in s && s != "www"
    requires ':' !in d && !EndsWith(d, ".localhost")
    requires s + "." + d != "127.0.0.1"
    requires EndsWith(s + "." + d, ".localhost")
    ensures ExtractSubdomain(s + "." + d, d) == Some(s)
  {
    var host := s + "." + d;
    TenantHostHasNoPort(s, d);
    LocalhostSuffix(s, d);
    DotLocalhost(d);
    assert host == s + ".localhost";
    LocalhostTenant(s);
    ExtractOnLocalhost(host, d);
  }

  /** The root-domain branch of extractSubdomain. */
  lemma ExtractOnDomain(hostname: string, mainDomain: string)
    requires var host := BeforeFirst(hostname, ':');
      host != "localhost" && host != "127.0.0.1" && !EndsWith(host, ".localhost")
    ensures var host := BeforeFirst(hostname, ':');
      var domain := BeforeFirst(mainDomain, ':');
      var sub := ReplaceFirst(host, "." + domain, "");
      ExtractSubdomain(hostname, mainDomain)
        == if host == domain || host == "www." + domain || !EndsWith(host, "." + domain) || sub == "www" then None
           else Some(sub)
  {
  }

  lemma DotLocalhost(d: string)
    requires d == "localhost"
    ensures "." + d == ".localhost"
  {
  }

  /** The development-host branch of extractSubdomain. */
  lemma ExtractOnLocalhost(hostname: string, mainDomain: string)
    requires var host := BeforeFirst(hostname, ':');
      host != "localhost" && host != "127.0.0.1" && EndsWith(host, ".localhost")
    ensures var sub := ReplaceFirst(BeforeFirst(hostname, ':'), ".localhost", "");
      ExtractSubdomain(hostname, mainDomain) == if sub == "www" then None else Some(sub)
  {
  }

  lemma TenantHostHasNoPort(s: string, d: string)
    requires ':' !in s && ':' !in d
    ensures BeforeFirst(s + "." + d, ':') == s + "." + d
    ensures BeforeFirst(d, ':') == d
    ensures s + "." + d != "localhost"
  {
    var host := s + "." + d;
    assert ':' !in host;
    BeforeFirstNoSeparator(host, ':');
    BeforeFirstNoSeparator(d, ':');
    assert host[|s|] == '.';
    DottedIsNotLocalhost(host);
  }

  lemma DottedIsNotLocalhost(host: string)
    requires '.' in host
    ensures host != "localhost"
  {
    var localhost := "localhost";
    assert '.' !in localhost;
  }

  /** Removing ".localhost" from `<s>.localhost` leaves `s`. */
  lemma LocalhostTenant(s: string)
    requires '.' !in s
    ensures ReplaceFirst(s + ".localhost", ".localhost", "") == s
  {
    assert s + ".localhost" == s + ".localhost" + [];
    ReplaceFirstAfterFront(s, ".localhost", []);
    assert s + [] == s;
  }

  lemma HostRoundTripOnDomain(s: string, d: string)
    requires '.' !in s && s != "www"
    ensures var host := s + "." + d;
      host != d && host != "www." + d && EndsWith(host, "." + d) && ReplaceFirst(host, "." + d, "") == s
  {
    var host := s + "." + d;
    assert |host| > |d|;
    assert host == s + ("." + d);
    assert host[|s|..] == "." + d;
    ReplaceFirstAfterFront(s, "." + d, []);
    assert s + ("." + d) + [] == host && s + [] == s;
  }

  /** The root domain and `www.` in front of it are the main site, never a tenant. */
  lemma ExtractSubdomainMainSite(d: string, port: string, mainPort: string)
    requires ':' !in d && !EndsWith(d, ".localhost")
    requires port == [] || port[0] == ':'
    requires mainPort == [] || mainPort[0] == ':'
    ensures ExtractSubdomain(d + port, d + mainPort) == None
    ensures ExtractSubdomain("www." + d + port, d + mainPort) == None
  {
    var www := "www." + d;
    BeforeFirstAppend(d, ':', port);
    BeforeFirstAppend(d, ':', mainPort);
    assert www == "www" + "." + d;
    BeforeFirstAppend(www, ':', port);
    ExtractSubdomainIgnoresPort(d + port, d + mainPort);
    ExtractSubdomainIgnoresPort(www + port, d + mainPort);
    BeforeFirstNoSeparator(d, ':');
    BeforeFirstNoSeparator(www, ':');
    WwwHostIsMainSite(d);
  }

  lemma WwwHostIsMainSite(d: string)
    requires ':' !in d && !EndsWith(d, ".localhost")
    ensures ExtractSubdomain("www." + d, d) == None
  {
    var www := "www." + d;
    assert www == "www" + "." + d;
    BeforeFirstNoSeparator(www, ':');
    BeforeFirstNoSeparator(d, ':');
    assert www[0] == 'w' && www[3] == '.';
    assert www != "localhost" && www != "127.0.0.1";
    if EndsWith(www, ".localhost") {
      WwwLocalhost(d);
    }
  }

  lemma WwwLocalhost(d: string)
    requires !EndsWith(d, ".localhost")
    requires EndsWith("www." + d, ".localhost")
    ensures ReplaceFirst("www." + d, ".localhost", "") == "www"
  {
    assert "www." + d == "www" + "." + d;
    LocalhostSuffix("www", d);
    assert "www." + d == "www" + ".localhost" + [];
    ReplaceFirstAfterFront("www", ".localhost", []);
  }

  // ===== formatWhatsAppOrder =====

  /** What one cart line costs: price times quantity. */
  function LineAmount(c: CartItem): int {
    c.item.price * c.quantity
  }

  /** `items.reduce((sum, item) => sum + item.price * item.quantity, 0)`, folding from the left. */
  function OrderTotal(items: seq<CartItem>): int {
    if items == [] then 0 else OrderTotal(items[..|items| - 1]) + LineAmount(items[|items| - 1])
  }

  /** The total of a concatenation is the sum of the totals. */
  lemma {:induction false} OrderTotalAppend(a: seq<CartItem>, b: seq<CartItem>)
    ensures OrderTotal(a + b) == OrderTotal(a) + OrderTotal(b)
    decreases |b|
  {
    if b == [] {
      assert a + b == a;
    } else {
      var init := b[..|b| - 1];
      OrderTotalAppend(a, init);
      assert (a + b)[..|a + b| - 1] == a + init;
    }
  }

  /** Folding from the left agrees with summing from the right: the first line plus the rest. */
  lemma OrderTotalCons(c: CartItem, rest: seq<CartItem>)
    ensures OrderTotal([c] + rest) == LineAmount(c) + OrderTotal(rest)
  {
    OrderTotalAppend([c], rest);
    assert [c][..0] == [];
  }

  /** With no negative prices or quantities the total is never negative. */
  lemma {:induction false} OrderTotalNonNegative(items: seq<CartItem>)
    requires forall k :: 0 <= k < |items| ==> items[k].item.price >= 0 && items[k].quantity >= 0
    ensures OrderTotal(items) >= 0
  {
    if items != [] {
      OrderTotalNonNegative(items[..|items| - 1]);
    }
  }

  const Greeting := "Hi, I would like to order from "
  const TotalLabel := "Total: \U{20B9}"

  /** `${item.quantity} x ${item.name} (₹${item.price})` */
  function OrderLine(c: CartItem): string {
    IntToString(c.quantity) + " x " + c.item.name + " (\U{20B9}" + IntToString(c.item.price) + ")"
  }

  function OrderLines(items: seq<CartItem>): (lines: seq<string>)
    ensures |lines| == |items|
    ensures forall k :: 0 <= k < |items| ==> lines[k] == OrderLine(items[k])
  {
    seq(|items|, k requires 0 <= k < |items| => OrderLine(items[k]))
  }

  /** `formatWhatsAppOrder(items, vendor)`. */
  function FormatWhatsAppOrder(items: seq<CartItem>, vendorName: string): string {
    (Greeting + vendorName + ":") + "\n\n" + Join(OrderLines(items), "\n")
      + "\n\n" + (TotalLabel + IntToString(OrderTotal(items)))
  }

  lemma IntToStringHasNoNewline(i: int)
    ensures '\n' !in IntToString(i)
  {
    var s := IntToString(i);
    assert forall k :: 0 <= k < |s| ==> s[k] == '-' || IsDigit(s[k]);
  }

  lemma OrderLineHasNoNewline(c: CartItem)
    requires '\n' !in c.item.name
    ensures '\n' !in OrderLine(c)
  {
    IntToStringHasNoNewline(c.quantity);
    IntToStringHasNoNewline(c.item.price);
  }

  /**
   * The message read line by line: the greeting, a blank line, one line per
   * cart entry in cart order (a single empty line for an empty cart), a
   * blank line, and the total, when no name holds a line break.
   */
  lemma FormatWhatsAppOrderLines(items: seq<CartItem>, vendorName: string)
    requires '\n' !in vendorName
    requires forall k :: 0 <= k < |items| ==> '\n' !in items[k].item.name
    ensures Split(FormatWhatsAppOrder(items, vendorName), '\n')
         == [Greeting + vendorName + ":", ""]
            + (if items == [] then [""] else OrderLines(items))
            + ["", TotalLabel + IntToString(OrderTotal(items))]
  {
    var head := Greeting + vendorName + ":";
    var lines := OrderLines(items);
    var body := Join(lines, "\n");
    var total := TotalLabel + IntToString(OrderTotal(items));
    NoNewlineOutsideBody(vendorName, OrderTotal(items));
    BodyLines(items);
    assert FormatWhatsAppOrder(items, vendorName) == head + ['\n', '\n'] + body + ['\n', '\n'] + total;
    SplitAroundBlankLines(head, body, total, '\n');
    assert Split(FormatWhatsAppOrder(items, vendorName), '\n')
        == [head, ""] + Split(body, '\n') + ["", total];
  }

  lemma NoNewlineOutsideBody(vendorName: string, total: int)
    requires '\n' !in vendorName
    ensures '\n' !in Greeting + vendorName + ":"
    ensures '\n' !in TotalLabel + IntToString(total)
  {
    IntToStringHasNoNewline(total);
    assert '\n' !in Greeting;
    assert '\n' !in TotalLabel;
  }

  lemma BodyLines(items: seq<CartItem>)
    requires forall k :: 0 <= k < |items| ==> '\n' !in items[k].item.name
    ensures Split(Join(OrderLines(items), "\n"), '\n') == (if items == [] then [""] else OrderLines(items))
  {
    var lines := OrderLines(items);
    if items != [] {
      forall k | 0 <= k < |lines|
        ensures '\n' !in lines[k]
      {
        OrderLineHasNoNewline(items[k]);
      }
      SplitJoin(lines, '\n');
    }
  }

  /** The last line of the message gives the total back. */
  lemma FormatWhatsAppOrderTotal(items: seq<CartItem>, vendorName: string)
    ensures var msg := FormatWhatsAppOrder(items, vendorName);
      var digits := IntToString(OrderTotal(items));
      |digits| < |msg| && ParseInt(msg[|msg| - |digits|..]) == Some(OrderTotal(items))
  {
    var digits := IntToString(OrderTotal(items));
    var front := (Greeting + vendorName + ":") + "\n\n" + Join(OrderLines(items), "\n") + "\n\n";
    assert FormatWhatsAppOrder(items, vendorName) == (front + TotalLabel) + digits;
    TailOf(front + TotalLabel, digits);
    IntToStringRoundTrip(OrderTotal(items));
  }

  lemma TailOf(front: string, tail: string)
    requires front != []
    ensures var s := front + tail; |tail| < |s| && s[|s| - |tail|..] == tail
  {
  }

  // ===== deep links =====

  const WhatsAppPrefix := "https://wa.me/"
  const UpiPrefix := "upi://pay?"

  /** `generateWhatsAppLink(phoneNumber, message)`: only the message is percent-encoded. */
  function GenerateWhatsAppLink(phoneNumber: string, message: string): string {
    WhatsAppPrefix + phoneNumber + "?" + ("text=" + EncodeURIComponent(message))
  }

  /** The query of the UPI link: the payee address goes in as it is, the shop name percent-encoded. */
  function UpiQuery(upiId: string, shopName: string, amount: int): string {
    ("pa=" + upiId) + "&" + ("pn=" + EncodeURIComponent(shopName)) + "&" + ("am=" + IntToString(amount)) + "&" + "cu=INR"
  }

  /** `generateUpiLink(upiId, shopName, amount)`. */
  function GenerateUpiLink(upiId: string, shopName: string, amount: int): string {
    UpiPrefix + UpiQuery(upiId, shopName, amount)
  }

  /**
   * A phone number without '?' leaves the link with exactly one query, whose
   * only parameter `text` decodes back to the message.
   */
  lemma WhatsAppLinkCarriesMessage(phoneNumber: string, message: string)
    requires '?' !in phoneNumber
    ensures var parts := Split(GenerateWhatsAppLink(phoneNumber, message), '?');
      && |parts| == 2
      && parts[0] == WhatsAppPrefix + phoneNumber
      && StartsWith(parts[1], "text=")
      && '&' !in parts[1] && '#' !in parts[1]
      && DecodeURIComponent(parts[1][5..]) == Some(message)
  {
    WhatsAppLinkParts(phoneNumber, message);
    TextParameter(message);
  }

  lemma WhatsAppLinkParts(phoneNumber: string, message: string)
    requires '?' !in phoneNumber
    ensures Split(GenerateWhatsAppLink(phoneNumber, message), '?')
         == [WhatsAppPrefix + phoneNumber, "text=" + EncodeURIComponent(message)]
  {
    var query := "text=" + EncodeURIComponent(message);
    EncodedHasNoDelimiters(message);
    assert '?' !in WhatsAppPrefix + phoneNumber;
    assert '?' !in query;
    SplitConcat(WhatsAppPrefix + phoneNumber, '?', query);
    SplitNoSeparator(WhatsAppPrefix + phoneNumber, '?');
    SplitNoSeparator(query, '?');
  }

  lemma TextParameter(message: string)
    ensures var query := "text=" + EncodeURIComponent(message);
      && StartsWith(query, "text=")
      && '&' !in query && '#' !in query
      && DecodeURIComponent(query[5..]) == Some(message)
  {
    var enc := EncodeURIComponent(message);
    var query := "text=" + enc;
    EncodedHasNoDelimiters(message);
    assert '&' !in query && '#' !in query;
    assert query[5..] == enc;
    DecodeEncode(message);
  }

  /** The amount is rendered in decimal and contains no query delimiter. */
  lemma AmountHasNoAmpersand(amount: int)
    ensures '&' !in "am=" + IntToString(amount)
  {
    var s := IntToString(amount);
    assert forall k :: 0 <= k < |s| ==> s[k] == '-' || IsDigit(s[k]);
  }

  /**
   * A payee address without '&' leaves exactly the four parameters pa, pn, am
   * and cu, in that order; pn decodes back to the shop name and am reads
   * back as the amount.
   */
  lemma UpiLinkParameters(upiId: string, shopName: string, amount: int)
    requires '&' !in upiId
    ensures var link := GenerateUpiLink(upiId, shopName, amount);
      && StartsWith(link, UpiPrefix)
      && Split(link[|UpiPrefix|..], '&')
         == ["pa=" + upiId, "pn=" + EncodeURIComponent(shopName), "am=" + IntToString(amount), "cu=INR"]
      && DecodeURIComponent(("pn=" + EncodeURIComponent(shopName))[3..]) == Some(shopName)
      && ParseInt(("am=" + IntToString(amount))[3..]) == Some(amount)
  {
    var link := GenerateUpiLink(upiId, shopName, amount);
    assert link[|UpiPrefix|..] == UpiQuery(upiId, shopName, amount);
    EncodedHasNoDelimiters(shopName);
    AmountHasNoAmpersand(amount);
    SplitFourParts("pa=" + upiId, "pn=" + EncodeURIComponent(shopName), "am=" + IntToString(amount), "cu=INR", '&');
    SplitNoSeparator("pa=" + upiId, '&');
    UpiValuesReadBack(shopName, amount);
  }

  lemma UpiValuesReadBack(shopName: string, amount: int)
    ensures DecodeURIComponent(("pn=" + EncodeURIComponent(shopName))[3..]) == Some(shopName)
    ensures ParseInt(("am=" + IntToString(amount))[3..]) == Some(amount)
  {
    assert ("pn=" + EncodeURIComponent(shopName))[3..] == EncodeURIComponent(shopName);
    DecodeEncode(shopName);
    assert ("am=" + IntToString(amount))[3..] == IntToString(amount);
    IntToStringRoundTrip(amount);
  }

  /**
   * The payee address is not encoded: an '&' in it splits it, and whatever
   * follows (`am=1`, say) arrives as a parameter of its own, ahead of the
   * real pn and am.
   */
  lemma UpiLinkInjection(payee: string, injected: string, shopName: string, amount: int)
    requires '&' !in payee && '&' !in injected
    ensures Split(UpiQuery(payee + "&" + injected, shopName, amount), '&')
         == ["pa=" + payee, injected, "pn=" + EncodeURIComponent(shopName), "am=" + IntToString(amount), "cu=INR"]
  {
    var pa := "pa=" + payee;
    var pn := "pn=" + EncodeURIComponent(shopName);
    var am := "am=" + IntToString(amount);
    EncodedHasNoDelimiters(shopName);
    AmountHasNoAmpersand(amount);
    assert "pa=" + (payee + "&" + injected) == pa + "&" + injected;
    SplitFourParts(pa + "&" + injected, pn, am, "cu=INR", '&');
    SplitConcat(pa, '&', injected);
    SplitNoSeparator(pa, '&');
    SplitNoSeparator(injected, '&');
  }
}
