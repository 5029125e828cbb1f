/**
 * The JavaScript string operations the source uses: `startsWith`, `endsWith`,
 * `indexOf`, `replace` with a string pattern (first occurrence only),
 * `split` on one character, `join`, and the decimal rendering of an integer
 * in a template literal.
 */
module Strings {
  import opened Basics

  predicate StartsWith(s: string, prefix: string) {
    |prefix| <= |s| && s[..|prefix|] == prefix
  }

  predicate EndsWith(s: string, suffix: string) {
    |suffix| <= |s| && s[|s| - |suffix|..] == suffix
  }

  predicate OccursAt(s: string, pat: string, i: nat) {
    i + |pat| <= |s| && s[i..i + |pat|] == pat
  }

  /** `s.indexOf(pat, from)`: the first occurrence at or after `from`. */
  function IndexOfFrom(s: string, pat: string, from: nat): (r: Option<nat>)
    requires from <= |s|
    ensures r.Some? ==> from <= r.value && OccursAt(s, pat, r.value)
    ensures r.Some? ==> forall j :: from <= j < r.value ==> !OccursAt(s, pat, j)
    ensures r.None? <==> forall j :: from <= j <= |s| ==> !OccursAt(s, pat, j)
    decreases |s| - from
  {
    if OccursAt(s, pat, from) then Some(from)
    else if from == |s| then None
    else IndexOfFrom(s, pat, from + 1)
  }

  function IndexOf(s: string, pat: string): Option<nat> {
    IndexOfFrom(s, pat, 0)
  }

  /** `s.replace(pat, rep)` with a string pattern: only the FIRST occurrence is replaced. */
  function ReplaceFirst(s: string, pat: string, rep: string): string {
    match IndexOf(s, pat)
    case None => s
    case Some(i) => s[..i] + rep + s[i + |pat|..]
  }

  /**
   * When the pattern's first character does not occur in `front`, the first
   * occurrence of `pat` in `front + pat + back` is the one right after `front`,
   * so replacing it by "" leaves `front + back`.
   */
  lemma ReplaceFirstAfterFront(front: string, pat: string, back: string)
    requires pat != [] && pat[0] !in front
    ensures IndexOf(front + pat + back, pat) == Some(|front|)
    ensures ReplaceFirst(front + pat + back, pat, "") == front + back
  {
    var s := front + pat + back;
    FirstOccurrenceAfterFront(front, pat, back);
    assert s[..|front|] == front;
    assert s[|front| + |pat|..] == back;
  }

  lemma FirstOccurrenceAfterFront(front: string, pat: string, back: string)
    requires pat != [] && pat[0] !in front
    ensures IndexOf(front + pat + back, pat) == Some(|front|)
  {
    var s := front + pat + back;
    assert OccursAt(s, pat, |front|);
    forall j | 0 <= j < |front|
      ensures !OccursAt(s, pat, j)
    {
      assert s[j] == front[j];
    }
  }

  /** `s.split(c)[0]`: everything before the first `c`, or all of `s`. */
  function BeforeFirst(s: string, c: char): (r: string)
    ensures c !in r
    ensures StartsWith(s, r)
    ensures |r| < |s| ==> s[|r|] == c
  {
    if s == [] || s[0] == c then [] else [s[0]] + BeforeFirst(s[1..], c)
  }

  lemma {:induction false} BeforeFirstNoSeparator(s: string, c: char)
    requires c !in s
    ensures BeforeFirst(s, c) == s
  {
    if s != [] {
      BeforeFirstNoSeparator(s[1..], c);
    }
  }

  /** Whatever follows a separator-free prefix, from a separator on, is cut off. */
  lemma {:induction false} BeforeFirstAppend(x: string, c: char, y: string)
    requires c !in x
    requires y == [] || y[0] == c
    ensures BeforeFirst(x + y, c) == x
  {
    if x == [] {
      assert x + y == y;
    } else {
      BeforeFirstAppend(x[1..], c, y);
      assert (x + y)[1..] == x[1..] + y;
    }
  }

  /** Removing a pattern that occurs shortens the string by exactly the pattern's length. */
  lemma ReplaceFirstLength(s: string, pat: string, i: nat)
    requires OccursAt(s, pat, i)
    ensures |ReplaceFirst(s, pat, "")| == |s| - |pat|
  {
    assert IndexOf(s, pat).Some?;
  }

  /** Removing a pattern never introduces a character that was not there. */
  lemma ReplaceFirstKeepsOut(s: string, pat: string, c: char)
    requires c !in s
    ensures c !in ReplaceFirst(s, pat, "")
  {
    match IndexOf(s, pat)
    case None =>
    case Some(i) =>
      assert c !in s[..i] && c !in s[i + |pat|..];
  }

  /** `s.split(c)` on a one-character separator. */
  function Split(s: string, c: char): (parts: seq<string>)
    ensures |parts| >= 1
    ensures forall k :: 0 <= k < |parts| ==> c !in parts[k]
  {
    if s == [] then [[]]
    else
      var rest := Split(s[1..], c);
      if s[0] == c then [[]] + rest else [[s[0]] + rest[0]] + rest[1..]
  }

  /** `parts.join(sep)`. */
  function Join(parts: seq<string>, sep: string): string {
    if |parts| == 0 then []
    else if |parts| == 1 then parts[0]
    else parts[0] + sep + Join(parts[1..], sep)
  }

  /** Joining what was split gives the string back. */
  lemma {:induction false} JoinSplit(s: string, c: char)
    ensures Join(Split(s, c), [c]) == s
  {
    if s != [] {
      var rest := Split(s[1..], c);
      JoinSplit(s[1..], c);
      if s[0] == c {
        assert Split(s, c)[1..] == rest;
      } else if |rest| > 1 {
        var parts := Split(s, c);
        assert parts[1..] == rest[1..];
        calc {
          Join(parts, [c]);
          ([s[0]] + rest[0]) + [c] + Join(rest[1..], [c]);
          [s[0]] + (rest[0] + [c] + Join(rest[1..], [c]));
          [s[0]] + Join(rest, [c]);
        }
      }
    }
  }

  lemma {:induction false} SplitNoSeparator(x: string, c: char)
    requires c !in x
    ensures Split(x, c) == [x]
  {
    if x != [] {
      SplitNoSeparator(x[1..], c);
      assert [x[0]] + x[1..] == x;
    }
  }

  /** A separator in the middle splits the string into the parts of either side. */
  lemma {:induction false} SplitConcat(x: string, c: char, y: string)
    ensures Split(x + [c] + y, c) == Split(x, c) + Split(y, c)
  {
    var s := x + [c] + y;
    if x == [] {
      assert s[1..] == y;
    } else {
      assert s[1..] == x[1..] + [c] + y;
      SplitConcat(x[1..], c, y);
    }
  }

  /** Four separator-free parts joined by a separator split back into those parts. */
  lemma SplitFourParts(a: string, b: string, c: string, d: string, sep: char)
    requires sep !in b && sep !in c && sep !in d
    ensures Split(a + [sep] + b + [sep] + c + [sep] + d, sep) == Split(a, sep) + [b, c, d]
  {
    SplitConcat(a + [sep] + b + [sep] + c, sep, d);
    SplitConcat(a + [sep] + b, sep, c);
    SplitConcat(a, sep, b);
    SplitNoSeparator(b, sep);
    SplitNoSeparator(c, sep);
    SplitNoSeparator(d, sep);
  }

  /** `head`, an empty part, the parts of `body`, an empty part, `tail`. */
  lemma SplitAroundBlankLines(head: string, body: string, tail: string, c: char)
    requires c !in head && c !in tail
    ensures Split(head + [c, c] + body + [c, c] + tail, c) == [head, ""] + Split(body, c) + ["", tail]
  {
    var r1 := [c] + (body + [c] + ([c] + tail));
    BlankLineRegroup(head, body, tail, c);
    SplitAfterBlankLine(body, tail, c);
    SplitConcat(head, c, r1);
    SplitNoSeparator(head, c);
  }

  lemma BlankLineRegroup(head: string, body: string, tail: string, c: char)
    ensures head + [c, c] + body + [c, c] + tail == head + [c] + ([c] + (body + [c] + ([c] + tail)))
  {
  }

  /** The part of the blank-line layout after the first separator. */
  lemma SplitAfterBlankLine(body: string, tail: string, c: char)
    requires c !in tail
    ensures Split([c] + (body + [c] + ([c] + tail)), c) == [[]] + Split(body, c) + [[], tail]
  {
    var r3 := [c] + tail;
    var r2 := body + [c] + r3;
    SplitLeadingSeparator(tail, c);
    SplitNoSeparator(tail, c);
    SplitConcat(body, c, r3);
    SplitLeadingSeparator(r2, c);
  }

  lemma SplitLeadingSeparator(x: string, c: char)
    ensures Split([c] + x, c) == [[]] + Split(x, c)
  {
    assert ([c] + x)[1..] == x;
  }

  /** Splitting what was joined gives the parts back, when no part holds the separator. */
  lemma {:induction false} SplitJoin(parts: seq<string>, c: char)
    requires |parts| >= 1
    requires forall k :: 0 <= k < |parts| ==> c !in parts[k]
    ensures Split(Join(parts, [c]), c) == parts
  {
    if |parts| == 1 {
      SplitNoSeparator(parts[0], c);
    } else {
      var rest := Join(parts[1..], [c]);
      assert Join(parts, [c]) == parts[0] + [c] + rest;
      SplitJoin(parts[1..], c);
      SplitConcat(parts[0], c, rest);
      SplitNoSeparator(parts[0], c);
      assert [parts[0]] + parts[1..] == parts;
    }
  }

  // ----- decimal rendering of integers (`${n}` for an integral number) -----

  predicate IsDigit(ch: char) {
    '0' <= ch <= '9'
  }

  function DigitChar(d: nat): (ch: char)
    requires d < 10
    ensures IsDigit(ch)
  {
    (48 + d) as char
  }

  function DigitValue(ch: char): nat
    requires IsDigit(ch)
  {
    ch as int - 48
  }

  /** Decimal digits of `n`, most significant first, without leading zeros. */
  function NatToString(n: nat): (s: string)
    ensures |s| >= 1
    ensures forall k :: 0 <= k < |s| ==> IsDigit(s[k])
    ensures |s| > 1 ==> s[0] != '0'
  {
    if n < 10 then [DigitChar(n)] else NatToString(n / 10) + [DigitChar(n % 10)]
  }

  function IntToString(i: int): (s: string) {
    if i < 0 then "-" + NatToString(-i) else NatToString(i)
  }

  /** The value of a string of decimal digits. */
  function DecimalValue(s: string): nat
    requires forall k :: 0 <= k < |s| ==> IsDigit(s[k])
  {
    if s == [] then 0 else DecimalValue(s[..|s| - 1]) * 10 + DigitValue(s[|s| - 1])
  }

  /** Reading an integer back from its rendering; None for anything else. */
  function ParseInt(s: string): Option<int> {
    if |s| >= 2 && s[0] == '-' && forall k :: 1 <= k < |s| ==> IsDigit(s[k]) then
      Some(-(DecimalValue(s[1..]) as int))
    else if |s| >= 1 && forall k :: 0 <= k < |s| ==> IsDigit(s[k]) then
      Some(DecimalValue(s))
    else None
  }

  lemma {:induction false} NatToStringRoundTrip(n: nat)
    ensures DecimalValue(NatToString(n)) == n
  {
    if n >= 10 {
      NatToStringRoundTrip(n / 10);
      var s := NatToString(n);
      assert s[..|s| - 1] == NatToString(n / 10);
    }
  }

  /** Rendering is injective: the rendered integer can be read back. */
  lemma IntToStringRoundTrip(i: int)
    ensures ParseInt(IntToString(i)) == Some(i)
  {
    if i < 0 {
      NegativeRoundTrip(-i);
    } else {
      NatRoundTrip(i);
    }
  }

  lemma NatRoundTrip(n: nat)
    ensures ParseInt(NatToString(n)) == Some(n)
  {
    NatToStringRoundTrip(n);
    var s := NatToString(n);
    assert IsDigit(s[0]);
  }

  lemma NegativeRoundTrip(n: nat)
    requires n > 0
    ensures ParseInt("-" + NatToString(n)) == Some(-(n as int))
  {
    NatToStringRoundTrip(n);
    var s := "-" + NatToString(n);
    assert s[1..] == NatToString(n);
    assert forall k :: 1 <= k < |s| ==> IsDigit(s[k]);
  }
}
