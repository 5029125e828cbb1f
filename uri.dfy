/**
 * Percent-encoding of a URI component, section 2.1 of RFC 3986, as the
 * ECMAScript functions `encodeURIComponent` and `decodeURIComponent` do it:
 * every character outside the unreserved set `A-Z a-z 0-9 - _ . ! ~ * ' ( )`
 * is written as its UTF-8 bytes, each as `%` and two upper-case hex digits.
 * Strings here are sequences of Unicode scalar values, so the lone
 * surrogates on which `encodeURIComponent` throws cannot occur.
 */
module Uri {
  import opened Basics

  type Byte = b: int | 0 <= b < 256

  /** The characters `encodeURIComponent` leaves as they are. */
  predicate IsUnreserved(ch: char) {
    || 'A' <= ch <= 'Z'
    || 'a' <= ch <= 'z'
    || '0' <= ch <= '9'
    || ch in "-_.!~*'()"
  }

  predicate IsContinuation(b: Byte) {
    0x80 <= b < 0xC0
  }

  /** The UTF-8 encoding of one scalar value (RFC 3629, section 3). */
  function Utf8(ch: char): (bytes: seq<Byte>)
    ensures 1 <= |bytes| <= 4
  {
    var n := ch as int;
    if n < 0x80 then [n]
    else if n < 0x800 then [0xC0 + n / 64, 0x80 + n % 64]
    else if n < 0x1_0000 then [0xE0 + n / 4096, 0x80 + (n / 64) % 64, 0x80 + n % 64]
    else [0xF0 + n / 262144, 0x80 + (n / 4096) % 64, 0x80 + (n / 64) % 64, 0x80 + n % 64]
  }

  /**
   * The inverse of Utf8: the scalar value a 1- to 4-byte sequence encodes, or
   * None when the bytes are not a well-formed encoding (a bad lead or
   * continuation byte, an overlong form, a surrogate, or a value past U+10FFFF).
   */
  function CodePoint(bytes: seq<Byte>): Option<char> {
    if |bytes| == 1 then
      if bytes[0] < 0x80 then Some(bytes[0] as char) else None
    else if |bytes| == 2 then
      if 0xC0 <= bytes[0] < 0xE0 && IsContinuation(bytes[1]) then
        var cp := Bits(bytes[0] - 0xC0, 6) + Bits(bytes[1] - 0x80, 0);
        if cp >= 0x80 then Some(cp as char) else None
      else None
    else if |bytes| == 3 then
      if 0xE0 <= bytes[0] < 0xF0 && IsContinuation(bytes[1]) && IsContinuation(bytes[2]) then
        var cp := Bits(bytes[0] - 0xE0, 12) + Bits(bytes[1] - 0x80, 6) + Bits(bytes[2] - 0x80, 0);
        if cp >= 0x800 && !(0xD800 <= cp < 0xE000) then Some(cp as char) else None
      else None
    else if |bytes| == 4 then
      if 0xF0 <= bytes[0] < 0xF8 && IsContinuation(bytes[1]) && IsContinuation(bytes[2]) && IsContinuation(bytes[3]) then
        var cp := Bits(bytes[0] - 0xF0, 18) + Bits(bytes[1] - 0x80, 12) + Bits(bytes[2] - 0x80, 6) + Bits(bytes[3] - 0x80, 0);
        if 0x1_0000 <= cp < 0x11_0000 then Some(cp as char) else None
      else None
    else None
  }

  /** `v` shifted left by `shift` bits, for the payload bits of one byte. */
  function Bits(v: int, shift: nat): int
    requires shift in {0, 6, 12, 18}
  {
    if shift == 0 then v else if shift == 6 then v * 64 else if shift == 12 then v * 4096 else v * 262144
  }

  /** The length of the encoding a lead byte announces; 0 when it cannot lead. */
  function Utf8Length(lead: Byte): nat {
    if lead < 0x80 then 1
    else if lead < 0xC0 then 0
    else if lead < 0xE0 then 2
    else if lead < 0xF0 then 3
    else if lead < 0xF8 then 4
    else 0
  }

  lemma Utf8RoundTrip(ch: char)
    ensures Utf8Length(Utf8(ch)[0]) == |Utf8(ch)|
    ensures CodePoint(Utf8(ch)) == Some(ch)
  {
    var n := ch as int;
    if n < 0x80 {
    } else if n < 0x800 {
      Utf8TwoBytes(n);
    } else if n < 0x1_0000 {
      Utf8ThreeBytes(n);
    } else {
      Utf8FourBytes(n);
    }
  }

  lemma Utf8TwoBytes(n: int)
    requires 0x80 <= n < 0x800
    ensures Bits(n / 64, 6) + Bits(n % 64, 0) == n
    ensures 0 <= n / 64 < 0x20
  {
  }

  lemma Utf8ThreeBytes(n: int)
    requires 0x800 <= n < 0x1_0000
    ensures Bits(n / 4096, 12) + Bits((n / 64) % 64, 6) + Bits(n % 64, 0) == n
    ensures 0 <= n / 4096 < 0x10
  {
    assert n / 64 == (n / 4096) * 64 + (n / 64) % 64;
  }

  lemma Utf8FourBytes(n: int)
    requires 0x1_0000 <= n < 0x11_0000
    ensures Bits(n / 262144, 18) + Bits((n / 4096) % 64, 12) + Bits((n / 64) % 64, 6) + Bits(n % 64, 0) == n
    ensures 0 <= n / 262144 < 0x8
  {
    assert n / 4096 == (n / 262144) * 64 + (n / 4096) % 64;
    assert n / 64 == (n / 4096) * 64 + (n / 64) % 64;
  }

  // ----- hexadecimal escapes -----

  function HexDigit(d: nat): (ch: char)
    requires d < 16
    ensures IsUnreserved(ch)
  {
    if d < 10 then ('0' as int + d) as char else ('A' as int + d - 10) as char
  }

  /** A hex digit in either case, as `decodeURIComponent` accepts. */
  function HexValue(ch: char): Option<nat> {
    if '0' <= ch <= '9' then Some(ch as int - '0' as int)
    else if 'A' <= ch <= 'F' then Some(ch as int - 'A' as int + 10)
    else if 'a' <= ch <= 'f' then Some(ch as int - 'a' as int + 10)
    else None
  }

  lemma HexRoundTrip(d: nat)
    requires d < 16
    ensures HexValue(HexDigit(d)) == Some(d)
  {
  }

  function EscapeBytes(bytes: seq<Byte>): (s: string)
    ensures |s| == 3 * |bytes|
    ensures forall k :: 0 <= k < |s| ==> IsUnreserved(s[k]) || s[k] == '%'
    ensures bytes != [] ==> s[0] == '%'
  {
    if bytes == [] then []
    else ['%', HexDigit(bytes[0] / 16), HexDigit(bytes[0] % 16)] + EscapeBytes(bytes[1..])
  }

  /** Reads `n` consecutive `%XX` escapes from the front of `s`. */
  function EscapedBytes(s: string, n: nat): (r: Option<seq<Byte>>)
    ensures r.Some? ==> |r.value| == n && 3 * n <= |s|
  {
    if n == 0 then Some([])
    else if |s| >= 3 && s[0] == '%' && HexValue(s[1]).Some? && HexValue(s[2]).Some? then
      var b := HexValue(s[1]).value * 16 + HexValue(s[2]).value;
      match EscapedBytes(s[3..], n - 1)
      case None => None
      case Some(rest) => Some([b] + rest)
    else None
  }

  lemma {:induction false} EscapedBytesRoundTrip(bytes: seq<Byte>, rest: string)
    ensures EscapedBytes(EscapeBytes(bytes) + rest, |bytes|) == Some(bytes)
  {
    if bytes != [] {
      var s := EscapeBytes(bytes) + rest;
      var b := bytes[0];
      var tail := EscapeBytes(bytes[1..]) + rest;
      assert s == ['%', HexDigit(b / 16), HexDigit(b % 16)] + tail;
      assert s[0] == '%' && s[1] == HexDigit(b / 16) && s[2] == HexDigit(b % 16) && s[3..] == tail;
      HexRoundTrip(b / 16);
      HexRoundTrip(b % 16);
      assert HexValue(s[1]).value * 16 + HexValue(s[2]).value == b;
      EscapedBytesRoundTrip(bytes[1..], rest);
      assert [b] + bytes[1..] == bytes;
    }
  }

  // ----- the two ECMAScript functions -----

  function EncodeChar(ch: char): (s: string)
    ensures forall k :: 0 <= k < |s| ==> IsUnreserved(s[k]) || s[k] == '%'
  {
    if IsUnreserved(ch) then [ch] else EscapeBytes(Utf8(ch))
  }

  /** `encodeURIComponent(s)`. Its output holds only unreserved characters and `%`. */
  function EncodeURIComponent(s: string): (e: string)
    ensures forall k :: 0 <= k < |e| ==> IsUnreserved(e[k]) || e[k] == '%'
  {
    if s == [] then [] else EncodeChar(s[0]) + EncodeURIComponent(s[1..])
  }

  /** `decodeURIComponent(s)`; None where it throws a URIError. */
  function DecodeURIComponent(s: string): Option<string> {
    if s == [] then Some([])
    else if s[0] != '%' then
      Prepend(s[0], DecodeURIComponent(s[1..]))
    else
      match EscapedBytes(s, 1)
      case None => None
      case Some(lead) =>
        var n := Utf8Length(lead[0]);
        if n == 0 then None
        else match EscapedBytes(s, n)
          case None => None
          case Some(bytes) =>
            match CodePoint(bytes)
            case None => None
            case Some(ch) => Prepend(ch, DecodeURIComponent(s[3 * n..]))
  }

  /** A decoded character in front of what the rest decodes to, if it decodes. */
  function Prepend(ch: char, rest: Option<string>): Option<string> {
    match rest
    case None => None
    case Some(t) => Some([ch] + t)
  }

  lemma DecodeEncodedChar(ch: char, rest: string)
    ensures DecodeURIComponent(EncodeChar(ch) + rest) ==
      Prepend(ch, DecodeURIComponent(rest))
  {
    var s := EncodeChar(ch) + rest;
    if IsUnreserved(ch) {
      assert s[0] == ch && s[1..] == rest;
    } else {
      DecodeEscapedChar(ch, rest);
    }
  }

  lemma DecodeEscapedChar(ch: char, rest: string)
    requires !IsUnreserved(ch)
    ensures DecodeURIComponent(EscapeBytes(Utf8(ch)) + rest) ==
      Prepend(ch, DecodeURIComponent(rest))
  {
    Utf8RoundTrip(ch);
    DecodeEscapedBytes(Utf8(ch), ch, rest);
  }

  lemma DecodeEscapedBytes(bytes: seq<Byte>, ch: char, rest: string)
    requires bytes != [] && Utf8Length(bytes[0]) == |bytes|
    requires CodePoint(bytes) == Some(ch)
    ensures DecodeURIComponent(EscapeBytes(bytes) + rest) ==
      Prepend(ch, DecodeURIComponent(rest))
  {
    var s := EscapeBytes(bytes) + rest;
    var first := bytes[..1];
    assert EscapedBytes(s, 1) == Some(first) by {
      EscapeBytesFirst(bytes);
      assert s == EscapeBytes(first) + (EscapeBytes(bytes[1..]) + rest);
      EscapedBytesRoundTrip(first, EscapeBytes(bytes[1..]) + rest);
    }
    assert EscapedBytes(s, |bytes|) == Some(bytes) by {
      EscapedBytesRoundTrip(bytes, rest);
    }
    DecodeAtEscape(s, first, bytes, ch, rest);
  }

  lemma EscapeBytesFirst(bytes: seq<Byte>)
    requires bytes != []
    ensures EscapeBytes(bytes) == EscapeBytes(bytes[..1]) + EscapeBytes(bytes[1..])
  {
    var first := bytes[..1];
    assert first[1..] == [] && first[0] == bytes[0];
  }

  /** One step of decoding at a well-formed escape sequence. */
  lemma DecodeAtEscape(s: string, first: seq<Byte>, bytes: seq<Byte>, ch: char, tail: string)
    requires s != [] && s[0] == '%'
    requires EscapedBytes(s, 1) == Some(first)
    requires Utf8Length(first[0]) == |bytes| > 0
    requires EscapedBytes(s, |bytes|) == Some(bytes)
    requires CodePoint(bytes) == Some(ch)
    requires 3 * |bytes| <= |s| && s[3 * |bytes|..] == tail
    ensures DecodeURIComponent(s) ==
      Prepend(ch, DecodeURIComponent(tail))
  {
  }

  /** Percent-decoding recovers exactly what was percent-encoded. */
  lemma {:induction false} DecodeEncode(s: string)
    ensures DecodeURIComponent(EncodeURIComponent(s)) == Some(s)
  {
    if s != [] {
      DecodeEncode(s[1..]);
      DecodeEncodedChar(s[0], EncodeURIComponent(s[1..]));
      assert [s[0]] + s[1..] == s;
    }
  }

  /** An encoded component cannot end a query value or start another one. */
  lemma EncodedHasNoDelimiters(s: string)
    ensures forall ch :: ch in "&=?#+/: " ==> ch !in EncodeURIComponent(s)
  {
  }

  /** Strings of unreserved characters pass through unchanged. */
  lemma {:induction false} EncodeUnreserved(s: string)
    requires forall k :: 0 <= k < |s| ==> IsUnreserved(s[k])
    ensures EncodeURIComponent(s) == s
  {
    if s != [] {
      EncodeUnreserved(s[1..]);
      assert [s[0]] + s[1..] == s;
    }
  }
}
