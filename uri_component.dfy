/**
 * `encodeURIComponent`: characters outside the unreserved set become the
 * percent-escaped bytes of their UTF-8 encoding, upper-case hex.
 */
module UriComponent {
  import opened Wrappers

  /** `A-Z a-z 0-9 - _ . ! ~ * ' ( )`: the characters copied as they are. */
  predicate IsUnreserved(c: char) {
    || ('A' <= c <= 'Z') || ('a' <= c <= 'z') || ('0' <= c <= '9')
    || c == '-' || c == '_' || c == '.' || c == '!' || c == '~' || c == '*' || c == '\'' || c == '(' || c == ')'
  }

  predicate IsUpperHex(c: char) {
    ('0' <= c <= '9') || ('A' <= c <= 'F')
  }

  function HexDigit(n: nat): (c: char)
    requires n < 16
    ensures IsUpperHex(c)
  {
    if n < 10 then ('0' as int + n) as char else ('A' as int + n - 10) as char
  }

  /** The value of a hex digit of either case. */
  function HexValue(c: char): (v: Option<nat>)
    ensures v.Some? ==> v.value < 16
    ensures IsUpperHex(c) ==> v.Some?
  {
    if '0' <= c <= '9' then Some(c as int - '0' as int)
    else if 'A' <= c <= 'F' then Some(c as int - 'A' as int + 10)
    else if 'a' <= c <= 'f' then Some(c as int - 'a' as int + 10)
    else None
  }

  lemma HexRoundTrip(n: nat)
    requires n < 16
    ensures HexValue(HexDigit(n)) == Some(n)
  {
  }

  /** `%XY` for one byte. */
  function Escape(b: nat): (e: string)
    requires b < 256
    ensures |e| == 3 && e[0] == '%' && IsUpperHex(e[1]) && IsUpperHex(e[2])
  {
    ['%', HexDigit(b / 16), HexDigit(b % 16)]
  }

  predicate AllBytes(bs: seq<int>) {
    forall i :: 0 <= i < |bs| ==> 0 <= bs[i] < 256
  }

  /** The UTF-8 encoding of one code point. */
  function Utf8(c: char): (bs: seq<int>)
    ensures 1 <= |bs| <= 4 && AllBytes(bs)
    ensures (c as int < 0x80) <==> |bs| == 1
    ensures c as int < 0x80 ==> bs == [c as int]
  {
    var n := c as int;
    if n < 0x80 then [n]
    else if n < 0x800 then [0xC0 + n / 0x40, 0x80 + n % 0x40]
    else if n < 0x1_0000 then [0xE0 + n / 0x1000, 0x80 + (n / 0x40) % 0x40, 0x80 + n % 0x40]
    else [0xF0 + n / 0x4_0000, 0x80 + (n / 0x1000) % 0x40, 0x80 + (n / 0x40) % 0x40, 0x80 + n % 0x40]
  }

  function EscapeAll(bs: seq<int>): (e: string)
    requires AllBytes(bs)
    ensures |e| == 3 * |bs|
    ensures forall i :: 0 <= i < |e| ==> SafeChar(e[i])
  {
    if bs == [] then [] else Escape(bs[0]) + EscapeAll(bs[1..])
  }

  /** The characters an encoded component is made of. */
  predicate SafeChar(c: char) {
    IsUnreserved(c) || c == '%'
  }

  function EncodeChar(c: char): (e: string)
    ensures IsUnreserved(c) ==> e == [c]
    ensures !IsUnreserved(c) ==> 3 <= |e| <= 12 && e[0] == '%'
    ensures forall i :: 0 <= i < |e| ==> SafeChar(e[i])
  {
    if IsUnreserved(c) then [c] else EscapeAll(Utf8(c))
  }

  /** `encodeURIComponent(s)`. */
  function EncodeUriComponent(s: string): (e: string)
    ensures |e| >= |s|
    ensures forall i :: 0 <= i < |e| ==> SafeChar(e[i])
  {
    if s == [] then [] else EncodeChar(s[0]) + EncodeUriComponent(s[1..])
  }

  /** Text made only of unreserved characters passes through unchanged. */
  lemma {:induction false} EncodeUnreserved(s: string)
    requires forall i :: 0 <= i < |s| ==> IsUnreserved(s[i])
    ensures EncodeUriComponent(s) == s
  {
    if s != [] {
      EncodeUnreserved(s[1..]);
      assert s == [s[0]] + s[1..];
    }
  }

  /**
   * `decodeURIComponent` restricted to single-byte escapes: `%XY` becomes the
   * character with that code, anything else is copied.
   */
  function DecodeAscii(s: string): (d: string)
    ensures |d| <= |s|
  {
    if s == [] then []
    else if |s| >= 3 && s[0] == '%' && HexValue(s[1]).Some? && HexValue(s[2]).Some? then
      [(16 * HexValue(s[1]).value + HexValue(s[2]).value) as char] + DecodeAscii(s[3..])
    else [s[0]] + DecodeAscii(s[1..])
  }

  predicate IsAscii(c: char) {
    c as int < 0x80
  }

  lemma DecodeEncodedChar(c: char, rest: string)
    requires IsAscii(c)
    ensures DecodeAscii(EncodeChar(c) + rest) == [c] + DecodeAscii(rest)
  {
    var t := EncodeChar(c) + rest;
    if !IsUnreserved(c) {
      var n := c as int;
      HexRoundTrip(n / 16);
      HexRoundTrip(n % 16);
      assert EncodeChar(c) == Escape(n);
      assert t[0] == '%' && t[1] == HexDigit(n / 16) && t[2] == HexDigit(n % 16);
      assert t[3..] == rest;
    } else {
      assert t[1..] == rest;
    }
  }

  /** For ASCII text, decoding undoes encoding. */
  lemma {:induction false} DecodeEncodeAscii(s: string)
    requires forall i :: 0 <= i < |s| ==> IsAscii(s[i])
    ensures DecodeAscii(EncodeUriComponent(s)) == s
  {
    if s != [] {
      DecodeEncodeAscii(s[1..]);
      DecodeEncodedChar(s[0], EncodeUriComponent(s[1..]));
      assert s == [s[0]] + s[1..];
    }
  }

  /** None of the characters that separate query parameters survives encoding. */
  lemma EncodedHasNoDelimiters(s: string)
    ensures var e := EncodeUriComponent(s);
            '&' !in e && '=' !in e && '?' !in e && '#' !in e && '/' !in e && ' ' !in e
  {
    var e := EncodeUriComponent(s);
    forall i | 0 <= i < |e|
      ensures e[i] != '&' && e[i] != '=' && e[i] != '?' && e[i] != '#' && e[i] != '/' && e[i] != ' '
    {
      assert SafeChar(e[i]);
    }
  }
}
