/**
 * Particular inputs of generateSubdomain and extractSubdomain in lib/utils.ts:
 * the example in the source's own comment, words joined by a space, the
 * trailing-hyphen case that yields an invalid subdomain, "www", and a host
 * with ".localhost" twice.
 */
module SubdomainCases {
  import opened Basics
  import opened Seqs
  import opened Strings
  import opened Utils

  /** The stages of generateSubdomain, one result at a time. */
  lemma Stages(name: string, lowered: string, kept: string, trimmed: string, spaced: string, result: string)
    requires Lower(name) == lowered
    requires Filter(lowered, IsKept) == kept
    requires Trim(kept) == trimmed
    requires CollapseRuns(trimmed, IsJsWhitespace) == spaced
    requires CollapseRuns(spaced, IsHyphen) == result
    ensures GenerateSubdomain(name) == result
  {
  }

  /** Every character of `a`, then `x`, then every character of `c` satisfies `p`. */
  lemma AllOf(a: string, x: char, c: string, p: char -> bool)
    requires forall k :: 0 <= k < |a| ==> p(a[k])
    requires p(x)
    requires forall k :: 0 <= k < |c| ==> p(c[k])
    ensures forall k :: 0 <= k < |a + [x] + c| ==> p((a + [x] + c)[k])
  {
    var s := a + [x] + c;
    forall k | 0 <= k < |s|
      ensures p(s[k])
    {
      if k < |a| {
        assert s[k] == a[k];
      } else if k > |a| {
        assert s[k] == c[k - |a| - 1];
      }
    }
  }

  /** Filtering out the one character in the middle that fails the test. */
  lemma DropOne(a: string, x: char, c: string, p: char -> bool)
    requires forall k :: 0 <= k < |a| ==> p(a[k])
    requires !p(x)
    requires forall k :: 0 <= k < |c| ==> p(c[k])
    ensures Filter(a + [x] + c, p) == a + c
  {
    FilterKeepsAll(a, p);
    FilterKeepsAll(c, p);
    assert Filter([x], p) == [];
    FilterAppend(a, [x], p);
    assert Filter(a + [x], p) == a;
    FilterAppend(a + [x], c, p);
  }

  /** A lone run character in front of a word becomes one hyphen. */
  lemma LoneRunChar(x: char, c: string, inRun: char -> bool)
    requires inRun(x) && c != [] && !inRun(c[0])
    ensures CollapseRuns([x] + c, inRun) == ['-'] + CollapseRuns(c, inRun)
  {
    var s := [x] + c;
    assert s[0] == x && s[1] == c[0];
    assert s[1..] == c;
  }

  /** A single run character between two words without run characters becomes one hyphen. */
  lemma OneRunChar(a: string, x: char, c: string, inRun: char -> bool)
    requires a != [] && c != [] && inRun(x)
    requires CollapseRuns(a, inRun) == a && !inRun(a[|a| - 1])
    requires CollapseRuns(c, inRun) == c && !inRun(c[0])
    ensures CollapseRuns(a + [x] + c, inRun) == a + ['-'] + c
  {
    var t := [x] + c;
    LoneRunChar(x, c, inRun);
    AppendAfterWord(a, t, inRun);
    Regroup(a, x, c);
    Regroup(a, '-', c);
  }

  lemma Regroup(a: string, x: char, c: string)
    ensures a + [x] + c == a + ([x] + c)
  {
  }

  lemma AppendAfterWord(a: string, b: string, inRun: char -> bool)
    requires a != [] && CollapseRuns(a, inRun) == a && !inRun(a[|a| - 1])
    ensures CollapseRuns(a + b, inRun) == a + CollapseRuns(b, inRun)
  {
    CollapseRunsAppend(a, b, inRun);
  }

  /** Two words of `[a-z0-9]` with one space between them: the space becomes a hyphen. */
  lemma GenerateSubdomainJoinsWords(a: string, c: string)
    requires a != [] && c != []
    requires forall k :: 0 <= k < |a| ==> IsSlugChar(a[k])
    requires forall k :: 0 <= k < |c| ==> IsSlugChar(c[k])
    ensures GenerateSubdomain(a + " " + c) == a + "-" + c
  {
    var s := a + [' '] + c;
    var slug := a + ['-'] + c;
    WordsKept(a, c);
    WordsTrimmed(a, c);
    WordsSpaced(a, c);
    WordsSqueezed(a, c);
    Stages(s, s, s, s, slug, slug);
  }

  lemma WordsKept(a: string, c: string)
    requires forall k :: 0 <= k < |a| ==> IsSlugChar(a[k])
    requires forall k :: 0 <= k < |c| ==> IsSlugChar(c[k])
    ensures Lower(a + [' '] + c) == a + [' '] + c
    ensures Filter(a + [' '] + c, IsKept) == a + [' '] + c
  {
    SpaceIsWhitespace();
    AllOf(a, ' ', c, IsKept);
    LowerFixesKept(a + [' '] + c);
    FilterKeepsAll(a + [' '] + c, IsKept);
  }

  lemma WordsTrimmed(a: string, c: string)
    requires a != [] && c != []
    requires IsSlugChar(a[0]) && IsSlugChar(c[|c| - 1])
    ensures Trim(a + [' '] + c) == a + [' '] + c
  {
    var s := a + [' '] + c;
    SlugCharNotWhitespace();
    assert s[0] == a[0] && s[|s| - 1] == c[|c| - 1];
    assert TrimStart(s) == s;
    assert TrimEnd(s) == s;
  }

  lemma WordsSpaced(a: string, c: string)
    requires a != [] && c != []
    requires forall k :: 0 <= k < |a| ==> IsSlugChar(a[k])
    requires forall k :: 0 <= k < |c| ==> IsSlugChar(c[k])
    ensures CollapseRuns(a + [' '] + c, IsJsWhitespace) == a + ['-'] + c
  {
    SlugWord(a);
    SlugWord(c);
    SlugCharNotWhitespace();
    SpaceIsWhitespace();
    OneRunChar(a, ' ', c, IsJsWhitespace);
  }

  lemma WordsSqueezed(a: string, c: string)
    requires a != [] && c != []
    requires forall k :: 0 <= k < |a| ==> IsSlugChar(a[k])
    requires forall k :: 0 <= k < |c| ==> IsSlugChar(c[k])
    ensures CollapseRuns(a + ['-'] + c, IsHyphen) == a + ['-'] + c
  {
    SlugWord(a);
    SlugWord(c);
    OneRunChar(a, '-', c, IsHyphen);
  }

  /**
   * A name that ends in a space and a hyphen keeps a hyphen at the end, so
   * the generated subdomain is one that validateSubdomain rejects.
   */
  lemma GenerateSubdomainTrailingHyphen(a: string)
    requires a != []
    requires forall k :: 0 <= k < |a| ==> IsSlugChar(a[k])
    ensures GenerateSubdomain(a + " -") == a + "-"
    ensures !ValidateSubdomain(a + "-")
  {
    var s := a + [' ', '-'];
    var spaced := a + ['-', '-'];
    var slug := a + ['-'];
    TrailingKept(a);
    TrailingTrimmed(a);
    TrailingSpaced(a);
    TrailingSqueezed(a);
    Stages(s, s, s, s, spaced, slug);
    ValidateSubdomainMeans(slug);
  }

  lemma TrailingKept(a: string)
    requires forall k :: 0 <= k < |a| ==> IsSlugChar(a[k])
    ensures Lower(a + [' ', '-']) == a + [' ', '-']
    ensures Filter(a + [' ', '-'], IsKept) == a + [' ', '-']
  {
    var s := a + [' ', '-'];
    TrailingAllKept(a);
    LowerFixesKept(s);
    FilterKeepsAll(s, IsKept);
  }

  lemma TrailingAllKept(a: string)
    requires forall k :: 0 <= k < |a| ==> IsSlugChar(a[k])
    ensures forall k :: 0 <= k < |a + [' ', '-']| ==> IsKept((a + [' ', '-'])[k])
  {
    SpaceIsWhitespace();
    assert a + [' ', '-'] == a + [' '] + ['-'];
    AllOf(a, ' ', ['-'], IsKept);
  }

  lemma TrailingTrimmed(a: string)
    requires a != [] && IsSlugChar(a[0])
    ensures Trim(a + [' ', '-']) == a + [' ', '-']
  {
    var s := a + [' ', '-'];
    SlugCharNotWhitespace();
    assert s[0] == a[0] && s[|s| - 1] == '-';
    assert TrimStart(s) == s;
    assert TrimEnd(s) == s;
  }

  lemma TrailingSpaced(a: string)
    requires a != []
    requires forall k :: 0 <= k < |a| ==> IsSlugChar(a[k])
    ensures CollapseRuns(a + [' ', '-'], IsJsWhitespace) == a + ['-', '-']
  {
    SlugWord(a);
    CollapseRunsAppend(a, [' ', '-'], IsJsWhitespace);
    SpaceThenHyphen();
  }

  lemma TrailingSqueezed(a: string)
    requires a != []
    requires forall k :: 0 <= k < |a| ==> IsSlugChar(a[k])
    ensures CollapseRuns(a + ['-', '-'], IsHyphen) == a + ['-']
  {
    SlugWord(a);
    CollapseRunsAppend(a, ['-', '-'], IsHyphen);
    TwoHyphens();
  }

  /** A word of `[a-z0-9]` holds no run of either kind, so collapsing leaves it alone. */
  lemma SlugWord(a: string)
    requires forall k :: 0 <= k < |a| ==> IsSlugChar(a[k])
    ensures CollapseRuns(a, IsHyphen) == a
    ensures CollapseRuns(a, IsJsWhitespace) == a
    ensures a != [] ==> !IsHyphen(a[|a| - 1]) && !IsJsWhitespace(a[|a| - 1])
  {
    SlugCharNotWhitespace();
    CollapseRunsIdentity(a, IsHyphen);
    CollapseRunsIdentity(a, IsJsWhitespace);
  }

  lemma SpaceThenHyphen()
    ensures CollapseRuns([' ', '-'], IsJsWhitespace) == ['-', '-']
  {
    SlugCharNotWhitespace();
    SpaceIsWhitespace();
    CollapseTwo(' ', '-', IsJsWhitespace);
  }

  lemma TwoHyphens()
    ensures CollapseRuns(['-', '-'], IsHyphen) == ['-']
  {
    CollapseTwo('-', '-', IsHyphen);
  }

  /** Two characters collapse one at a time. */
  lemma CollapseTwo(x: char, y: char, inRun: char -> bool)
    ensures CollapseRuns([x, y], inRun) == RunHead([x, y], inRun) + RunHead([y], inRun)
  {
    var t := [x, y];
    assert t[1..] == [y];
    assert [y][1..] == [];
  }

  /** The example in the source's own comment: "Ram's Cafe" becomes "rams-cafe". */
  lemma GenerateSubdomainExample()
    ensures GenerateSubdomain("Ram's Cafe") == "rams-cafe"
  {
    ExampleStages("Ram's Cafe", "ram's cafe", "rams cafe", "rams-cafe");
  }

  lemma ExampleStages(name: string, lowered: string, kept: string, slug: string)
    requires name == "Ram's Cafe" && lowered == "ram's cafe" && kept == "rams cafe" && slug == "rams-cafe"
    ensures GenerateSubdomain(name) == slug
  {
    LowerExample(name, lowered);
    KeptExample(lowered, kept);
    GenerateSubdomainOfKept(name);
    WordsExample(kept, slug);
  }

  lemma LowerExample(name: string, lowered: string)
    requires name == "Ram's Cafe" && lowered == "ram's cafe"
    ensures Lower(name) == lowered
  {
    LowerAt(name);
  }

  lemma KeptExample(s: string, t: string)
    requires s == "ram's cafe" && t == "rams cafe"
    ensures Filter(s, IsKept) == t
  {
    var a, c := "ram", "s cafe";
    SpaceIsWhitespace();
    assert forall k :: 0 <= k < |a| ==> IsKept(a[k]);
    assert forall k :: 0 <= k < |c| ==> IsKept(c[k]);
    ApostropheNotKept();
    DropOne(a, '\'', c, IsKept);
    assert s == a + ['\''] + c;
    assert t == a + c;
  }

  lemma ApostropheNotKept()
    ensures !IsKept('\'')
  {
    OneOfMeans('\'', JsWhitespace);
  }

  lemma WordsExample(kept: string, slug: string)
    requires kept == "rams cafe" && slug == "rams-cafe"
    ensures GenerateSubdomain(kept) == slug
  {
    var a, c := "rams", "cafe";
    ExampleWords(a, c);
    GenerateSubdomainJoinsWords(a, c);
    ExampleJoined(kept, slug);
  }

  lemma ExampleWords(a: string, c: string)
    requires a == "rams" && c == "cafe"
    ensures forall k :: 0 <= k < |a| ==> IsSlugChar(a[k])
    ensures forall k :: 0 <= k < |c| ==> IsSlugChar(c[k])
  {
  }

  lemma ExampleJoined(kept: string, slug: string)
    requires kept == "rams cafe" && slug == "rams-cafe"
    ensures kept == "rams" + " " + "cafe" && slug == "rams" + "-" + "cafe"
  {
  }

  // ----- extractSubdomain -----

  /** "www" is a valid subdomain, yet extractSubdomain never yields it. */
  lemma WwwIsValidButNeverExtracted(hostname: string, mainDomain: string)
    ensures ValidateSubdomain("www")
    ensures ExtractSubdomain(hostname, mainDomain) != Some("www")
  {
    SlugPatternIff("www");
  }

  /**
   * Only the first ".localhost" is removed, wherever it is: a host with two of
   * them keeps the second one in the tenant it yields.
   */
  lemma ExtractSubdomainFirstOccurrence(a: string, b: string, mainDomain: string)
    requires '.' !in a && ':' !in a && ':' !in b
    requires EndsWith(b, ".localhost")
    requires a + b != "www"
    ensures ExtractSubdomain(a + ".localhost" + b, mainDomain) == Some(a + b)
  {
    var host := a + ".localhost" + b;
    assert ':' !in host;
    BeforeFirstNoSeparator(host, ':');
    ReplaceFirstAfterFront(a, ".localhost", b);
    assert host[|host| - 10..] == b[|b| - 10..];
    assert EndsWith(host, ".localhost");
    assert |host| >= 10;
    assert host[|a|] == '.';
    DottedIsNotLocalhost(host);
    ExtractOnLocalhost(host, mainDomain);
  }

  /**
   * A root domain under ".localhost" is shadowed, because the development-host
   * branch is tested first: the main site `<x>.localhost` is routed as tenant
   * `x`, and the host of a tenant `s` under it never yields `s`, only a longer
   * name.
   */
  lemma LocalhostRootShadowed(s: string, x: string)
    requires ':' !in s && ':' !in x
    requires '.' !in x && x != "www"
    ensures ExtractSubdomain(x + ".localhost", x + ".localhost") == Some(x)
    ensures var r := ExtractSubdomain(s + "." + x + ".localhost", x + ".localhost");
      r != Some(s) && (r.Some? ==> |r.value| == |s| + 1 + |x|)
  {
    ExtractSubdomainLocalhostRoundTrip(x, [], x + ".localhost");
    assert x + ".localhost" + [] == x + ".localhost";
    var host := s + "." + x + ".localhost";
    assert ':' !in host;
    BeforeFirstNoSeparator(host, ':');
    assert host[|s|] == '.';
    DottedIsNotLocalhost(host);
    assert host != "127.0.0.1" by {
      assert host[|host| - 1] == 't';
    }
    assert OccursAt(host, ".localhost", |host| - 10);
    ExtractOnLocalhost(host, x + ".localhost");
    ReplaceFirstLength(host, ".localhost", |host| - 10);
  }
}
