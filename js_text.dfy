/**
 * The JavaScript string built-ins the core relies on, on `seq<char>`:
 * white space as `String.prototype.trim` and the regular-expression class `\s`
 * understand it, trimming, ASCII case folding (what the `i` flag does for an
 * ASCII pattern), `includes`, `startsWith`, `split` on one character,
 * `parseInt(s, 10)` and the decimal text of an integer.
 */
module JsText {
  import opened Wrappers

  /** WhiteSpace and LineTerminator code points of ECMAScript: what `trim` removes and `\s` matches. */
  predicate IsSpace(c: char) {
    || c == '\t' || c == '\n' || c == '\U{B}' || c == '\U{C}' || c == '\r' || c == ' '
    || c == '\U{A0}' || c == '\U{1680}' || ('\U{2000}' <= c <= '\U{200A}')
    || c == '\U{2028}' || c == '\U{2029}' || c == '\U{202F}' || c == '\U{205F}'
    || c == '\U{3000}' || c == '\U{FEFF}'
  }

  predicate AllSpace(s: string) {
    forall i :: 0 <= i < |s| ==> IsSpace(s[i])
  }

  /** Neither end of `s` is white space. */
  predicate IsTrimmed(s: string) {
    s == [] || (!IsSpace(s[0]) && !IsSpace(s[|s| - 1]))
  }

  /** Drops the leading run of white space. */
  function TrimStart(s: string): (r: string)
    ensures |r| <= |s| && r == s[|s| - |r|..]
    ensures AllSpace(s[..|s| - |r|])
    ensures r == [] || !IsSpace(r[0])
  {
    if s != [] && IsSpace(s[0]) then TrimStart(s[1..]) else s
  }

  /** Drops the trailing run of white space. */
  function TrimEnd(s: string): (r: string)
    ensures |r| <= |s| && r == s[..|r|]
    ensures AllSpace(s[|r|..])
    ensures r == [] || !IsSpace(r[|r| - 1])
  {
    if s != [] && IsSpace(s[|s| - 1]) then TrimEnd(s[..|s| - 1]) else s
  }

  /** `s.trim()`: `s` without white space at either end. */
  function Trim(s: string): (r: string)
    ensures IsTrimmed(r) && |r| <= |s|
  {
    TrimEnd(TrimStart(s))
  }

  /** `s.trim()` is the slice of `s` between a leading and a trailing run of white space. */
  lemma TrimSlice(s: string) returns (a: nat)
    ensures a + |Trim(s)| <= |s| && Trim(s) == s[a..a + |Trim(s)|]
    ensures AllSpace(s[..a]) && AllSpace(s[a + |Trim(s)|..])
  {
    var t := TrimStart(s);
    var r := TrimEnd(t);
    a := |s| - |t|;
    assert Trim(s) == r;
    SliceOfSuffix(s, a, |r|);
  }

  /** A prefix of a suffix is a middle slice, and what follows it is the rest of the suffix. */
  lemma SliceOfSuffix(s: string, a: nat, n: nat)
    requires a + n <= |s|
    ensures s[a..][..n] == s[a..a + n] && s[a..][n..] == s[a + n..]
  {
  }

  /** White space in front of text that does not start with white space is what `TrimStart` drops. */
  lemma {:induction false} TrimStartSpacePrefix(run: string, rest: string)
    requires AllSpace(run) && (rest == [] || !IsSpace(rest[0]))
    ensures TrimStart(run + rest) == rest
    decreases |run|
  {
    if run == [] {
      assert run + rest == rest;
    } else {
      assert (run + rest)[1..] == run[1..] + rest;
      TrimStartSpacePrefix(run[1..], rest);
    }
  }

  /** White space after text that does not end with white space is what `TrimEnd` drops. */
  lemma {:induction false} TrimEndSpaceSuffix(rest: string, run: string)
    requires AllSpace(run) && (rest == [] || !IsSpace(rest[|rest| - 1]))
    ensures TrimEnd(rest + run) == rest
    decreases |run|
  {
    if run == [] {
      assert rest + run == rest;
    } else {
      var x := rest + run;
      assert x[..|x| - 1] == rest + run[..|run| - 1];
      TrimEndSpaceSuffix(rest, run[..|run| - 1]);
    }
  }

  /** Trimming removes the white space around non-empty trimmed text. */
  lemma TrimAround(before: string, s: string, after: string)
    requires AllSpace(before) && AllSpace(after) && s != [] && IsTrimmed(s)
    ensures Trim(before + (s + after)) == s
  {
    assert TrimStart(before + (s + after)) == s + after by {
      TrimStartSpacePrefix(before, s + after);
    }
    TrimEndSpaceSuffix(s, after);
  }

  /** A string with no white space at its ends is its own trim. */
  lemma TrimOfTrimmed(s: string)
    requires IsTrimmed(s)
    ensures Trim(s) == s
  {
  }

  lemma TrimIdempotent(s: string)
    ensures Trim(Trim(s)) == Trim(s)
  {
    TrimOfTrimmed(Trim(s));
  }

  /** `s.trim()` is empty exactly when `s` is all white space. */
  lemma TrimEmptyIffAllSpace(s: string)
    ensures Trim(s) == [] <==> AllSpace(s)
  {
    var a := TrimSlice(s);
    if Trim(s) == [] {
      assert s == s[..a] + s[a..];
      forall i | 0 <= i < |s| ensures IsSpace(s[i]) {
        if i < a { assert s[i] == s[..a][i]; } else { assert s[i] == s[a..][i - a]; }
      }
    } else {
      assert s[a] == Trim(s)[0];
      assert !IsSpace(s[a]);
    }
  }

  /** The code unit with ASCII upper case folded to lower case. */
  function LowerAscii(c: char): char {
    if 'A' <= c <= 'Z' then (c as int + 32) as char else c
  }

  predicate StartsWith(s: string, prefix: string) {
    |prefix| <= |s| && s[..|prefix|] == prefix
  }

  /** `s` starts with the lower-case ASCII text `prefix`, letters compared without regard to case. */
  predicate StartsWithIgnoringCase(s: string, prefix: string) {
    |prefix| <= |s| && forall i :: 0 <= i < |prefix| ==> LowerAscii(s[i]) == prefix[i]
  }

  /** `s.includes(sub)`. */
  predicate Contains(s: string, sub: string) {
    exists i :: 0 <= i <= |s| - |sub| && OccursAt(s, sub, i)
  }

  predicate OccursAt(s: string, sub: string, i: int) {
    0 <= i <= |s| - |sub| && s[i..i + |sub|] == sub
  }

  // ---------------------------------------------------------------------------
  // split on one character

  /** Joins parts with `sep` between each pair: the inverse of `Split`. */
  function Join(parts: seq<string>, sep: char): string
    requires |parts| >= 1
  {
    if |parts| == 1 then parts[0] else parts[0] + [sep] + Join(parts[1..], sep)
  }

  /** `s.split(sep)` for a one-character separator: the pieces between separators, always at least one. */
  function Split(s: string, sep: char): (parts: seq<string>)
    ensures |parts| >= 1
    ensures forall i :: 0 <= i < |parts| ==> sep !in parts[i]
    ensures Join(parts, sep) == s
  {
    if s == [] then [""]
    else
      var rest := Split(s[1..], sep);
      if s[0] == sep then [""] + rest
      else
        var parts := [[s[0]] + rest[0]] + rest[1..];
        assert parts[1..] == rest[1..];
        assert Join(parts, sep) == s by {
          if |rest| == 1 { assert s == [s[0]] + s[1..]; }
        }
        parts
  }

  /** Splitting what `Join` produced gives the parts back. */
  lemma {:induction false} SplitJoin(parts: seq<string>, sep: char)
    requires |parts| >= 1
    requires forall i :: 0 <= i < |parts| ==> sep !in parts[i]
    ensures Split(Join(parts, sep), sep) == parts
  {
    var p := parts[0];
    if |parts| == 1 {
      SplitUntilSep(p, [], sep);
    } else {
      SplitJoin(parts[1..], sep);
      SplitUntilSep(p, [sep] + Join(parts[1..], sep), sep);
      assert p + [sep] + Join(parts[1..], sep) == p + ([sep] + Join(parts[1..], sep));
      assert Split([sep] + Join(parts[1..], sep), sep) == [""] + Split(Join(parts[1..], sep), sep) by {
        assert ([sep] + Join(parts[1..], sep))[1..] == Join(parts[1..], sep);
      }
    }
  }

  /** A separator-free head glues onto the first piece of what follows it. */
  lemma {:induction false} SplitUntilSep(p: string, tail: string, sep: char)
    requires sep !in p
    requires tail == [] || tail[0] == sep
    ensures Split(p + tail, sep) == (if tail == [] then [p] else [p] + Split(tail[1..], sep))
  {
    if p == [] {
      assert p + tail == tail;
      if tail != [] {
        assert Split(tail, sep) == [""] + Split(tail[1..], sep);
      }
    } else {
      SplitUntilSep(p[1..], tail, sep);
      assert (p + tail)[1..] == p[1..] + tail;
      assert [p[0]] + p[1..] == p;
    }
  }

  lemma AppendAssoc(x: string, y: string, z: string)
    ensures (x + y) + z == x + (y + z)
  {
  }

  /** Regrouping a concatenation of five strings around its first. */
  lemma ConcatRegroup(a: string, b: string, c: string, d: string, e: string)
    ensures a + b + c + d + e == a + (b + c + d + e)
  {
  }

  /** Regrouping a concatenation of four strings from the right. */
  lemma ConcatNest4(a: string, b: string, c: string, d: string)
    ensures a + b + c + d == a + (b + (c + d))
  {
  }

  /** Regrouping a concatenation of five strings from the right. */
  lemma ConcatNest(a: string, b: string, c: string, d: string, e: string)
    ensures a + b + c + d + e == a + (b + (c + (d + e)))
  {
  }

  /** An empty piece in the middle of a concatenation changes nothing. */
  lemma ConcatEmptyMiddle(a: string, b: string, c: string, d: string)
    ensures a + b + "" + c + d == a + b + c + d
  {
  }

  /** The first two pieces of `a:b...` are `a` and `b`. */
  lemma SplitTwoFields(a: string, b: string, rest: string, sep: char)
    requires sep !in a && sep !in b && (rest == [] || rest[0] == sep)
    ensures var p := Split(a + [sep] + b + rest, sep); |p| >= 2 && p[0] == a && p[1] == b
  {
    var s := a + [sep] + b + rest;
    var body := b + rest;
    var tail := [sep] + body;
    assert s == a + tail;
    SplitUntilSep(a, tail, sep);
    assert tail[1..] == body;
    var q := Split(body, sep);
    assert |q| >= 1 && q[0] == b by {
      SplitUntilSep(b, rest, sep);
    }
    assert Split(s, sep) == [a] + q;
  }

  /** `split` yields fewer than two pieces exactly when the separator does not occur. */
  lemma SplitSingleIffNoSep(s: string, sep: char)
    ensures |Split(s, sep)| == 1 <==> sep !in s
  {
    var parts := Split(s, sep);
    if |parts| == 1 {
      assert s == parts[0];
    } else {
      assert s == parts[0] + [sep] + Join(parts[1..], sep);
      assert s[|parts[0]|] == sep;
    }
  }

  // ---------------------------------------------------------------------------
  // parseInt(s, 10) and the decimal text of an integer

  predicate IsDigit(c: char) {
    '0' <= c <= '9'
  }

  function DigitValue(c: char): nat
    requires IsDigit(c)
  {
    c as int - '0' as int
  }

  function DigitChar(d: nat): char
    requires d < 10
  {
    ('0' as int + d) as char
  }

  /** The longest prefix of `s` made of decimal digits. */
  function DigitPrefix(s: string): (ds: string)
    ensures StartsWith(s, ds)
    ensures forall i :: 0 <= i < |ds| ==> IsDigit(ds[i])
    ensures |ds| == |s| || !IsDigit(s[|ds|])
  {
    if s != [] && IsDigit(s[0]) then [s[0]] + DigitPrefix(s[1..]) else []
  }

  /** The number a string of decimal digits denotes, most significant digit first. */
  function DigitsValue(ds: string): nat
    requires forall i :: 0 <= i < |ds| ==> IsDigit(ds[i])
  {
    if ds == [] then 0 else DigitsValue(ds[..|ds| - 1]) * 10 + DigitValue(ds[|ds| - 1])
  }

  /**
   * `parseInt(s, 10)`: skip leading white space, read an optional sign and then
   * as many decimal digits as there are; `None` stands for NaN (no digit).
   */
  function ParseInt(s: string): Option<int> {
    ParseSigned(TrimStart(s))
  }

  /** The sign and digits part of `parseInt`. */
  function ParseSigned(t: string): Option<int> {
    if t != [] && t[0] == '-' then
      match ParseDigits(t[1..])
      case None => None
      case Some(v) => Some(0 - v)
    else if t != [] && t[0] == '+' then ParseDigits(t[1..])
    else ParseDigits(t)
  }

  /** The value of the leading digits of `t`, if there are any. */
  function ParseDigits(t: string): Option<nat> {
    var ds := DigitPrefix(t);
    if ds == [] then None else Some(DigitsValue(ds))
  }

  /** The decimal text of a natural number, without leading zeros. */
  function NatText(n: nat): (s: string)
    ensures s != [] && forall i :: 0 <= i < |s| ==> IsDigit(s[i])
  {
    if n < 10 then [DigitChar(n)] else NatText(n / 10) + [DigitChar(n % 10)]
  }

  /** The decimal text of an integer, what a template literal `${n}` yields for a safe integer. */
  function IntText(n: int): string {
    if n < 0 then "-" + NatText(-n) else NatText(n)
  }

  lemma {:induction false} NatTextValue(n: nat)
    ensures DigitsValue(NatText(n)) == n
  {
    if n >= 10 {
      NatTextValue(n / 10);
      var s := NatText(n);
      assert s[..|s| - 1] == NatText(n / 10);
    }
  }

  lemma {:induction false} DigitPrefixOfDigits(s: string)
    requires forall i :: 0 <= i < |s| ==> IsDigit(s[i])
    ensures DigitPrefix(s) == s
  {
    if s != [] {
      DigitPrefixOfDigits(s[1..]);
    }
  }

  /** A string that starts with something other than white space is its own `TrimStart`. */
  lemma TrimStartOfNonSpace(s: string)
    requires s != [] && !IsSpace(s[0])
    ensures TrimStart(s) == s
  {
  }

  predicate AllDigits(s: string) {
    forall i :: 0 <= i < |s| ==> IsDigit(s[i])
  }

  lemma ParseIntDigits(ds: string)
    requires ds != [] && AllDigits(ds)
    ensures ParseInt(ds) == Some(DigitsValue(ds))
  {
    assert IsDigit(ds[0]);
    TrimStartOfNonSpace(ds);
    DigitPrefixOfDigits(ds);
    assert ParseDigits(ds) == Some(DigitsValue(ds));
  }

  lemma ParseIntNegativeDigits(ds: string)
    requires ds != [] && AllDigits(ds)
    ensures ParseInt("-" + ds) == Some(0 - DigitsValue(ds))
  {
    var s := "-" + ds;
    TrimStartOfNonSpace(s);
    assert s[1..] == ds;
    DigitPrefixOfDigits(ds);
    assert ParseDigits(ds) == Some(DigitsValue(ds));
  }

  /** A two-digit text parses to its value, leading zero or not. */
  lemma ParseTwoDigits(ds: string)
    requires |ds| == 2 && IsDigit(ds[0]) && IsDigit(ds[1])
    ensures ParseInt(ds) == Some(DigitValue(ds[0]) * 10 + DigitValue(ds[1]))
  {
    var v := DigitsValue(ds);
    assert v == DigitValue(ds[0]) * 10 + DigitValue(ds[1]) by {
      var high := ds[..1];
      assert high[..0] == [];
      assert DigitsValue(high) == DigitValue(ds[0]);
    }
    ParseIntDigits(ds);
  }

  lemma ParseIntNatText(n: nat)
    ensures ParseInt(NatText(n)) == Some(n)
  {
    NatTextValue(n);
    ParseIntDigits(NatText(n));
  }

  lemma ParseIntNegativeText(n: nat)
    requires n > 0
    ensures ParseInt("-" + NatText(n)) == Some(0 - n)
  {
    NatTextValue(n);
    ParseIntNegativeDigits(NatText(n));
  }

  /** `parseInt` reads back the decimal text of every integer. */
  lemma ParseIntText(n: int)
    ensures ParseInt(IntText(n)) == Some(n)
  {
    if n < 0 {
      ParseIntNegativeText(-n);
    } else {
      ParseIntNatText(n);
    }
  }
}
