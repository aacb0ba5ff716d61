/**
 * The text formatting helpers: dates and times for display, HTML to plain
 * text, and truncation with an ellipsis.
 */
module Helpers {
  import opened Wrappers
  import opened JsText

  // ---------------------------------------------------------------------------
  // formatDate / formatDateTime

  /**
   * The date library the helpers call, which is not part of this model:
   * `parseIso` is `parseISO` followed by `isValid` (`None` for an invalid date
   * or a parse that throws), `format` formats an instant with a pattern
   * (`None` when it throws).
   */
  datatype DateLib = DateLib(parseIso: string -> Option<int>, format: (int, string) -> Option<string>)

  const DefaultDatePattern: string := "MMM dd, yyyy"
  const DateTimePattern: string := "MMM dd, yyyy h:mm a"

  /** `formatDate(dateString, pattern)`: the formatted date, or the input itself when it is not a valid date. */
  function FormatDate(dateString: string, pattern: string, lib: DateLib): (r: string)
    ensures lib.parseIso(dateString).None? ==> r == dateString
    ensures lib.parseIso(dateString).Some? && lib.format(lib.parseIso(dateString).value, pattern).Some? ==>
              r == lib.format(lib.parseIso(dateString).value, pattern).value
    ensures lib.parseIso(dateString).Some? && lib.format(lib.parseIso(dateString).value, pattern).None? ==>
              r == dateString
  {
    match lib.parseIso(dateString)
    case None => dateString
    case Some(instant) => lib.format(instant, pattern).GetOr(dateString)
  }

  /** `formatDateTime(s)`: `formatDate` with the fixed pattern `MMM dd, yyyy h:mm a`. */
  function FormatDateTime(dateTimeString: string, lib: DateLib): (r: string)
    ensures lib.parseIso(dateTimeString).None? ==> r == dateTimeString
    ensures lib.parseIso(dateTimeString).Some? && lib.format(lib.parseIso(dateTimeString).value, DateTimePattern).Some? ==>
              r == lib.format(lib.parseIso(dateTimeString).value, DateTimePattern).value
    ensures lib.parseIso(dateTimeString).Some? && lib.format(lib.parseIso(dateTimeString).value, DateTimePattern).None? ==>
              r == dateTimeString
  {
    FormatDate(dateTimeString, DateTimePattern, lib)
  }

  // ---------------------------------------------------------------------------
  // formatTime

  /** The hour shown on a 12-hour clock. */
  function DisplayHour(h: int): (d: int)
    ensures 0 <= h < 24 ==> 1 <= d <= 12
  {
    if h == 0 then 12 else if h > 12 then h - 12 else h
  }

  function Period(h: int): string {
    if h >= 12 then "PM" else "AM"
  }

  /** The 24-hour hour a 12-hour reading stands for. */
  function To24Hour(display: int, pm: bool): int {
    if pm then (if display == 12 then 12 else display + 12)
    else (if display == 12 then 0 else display)
  }

  /** For a valid hour the 12-hour reading determines the hour. */
  lemma TwelveHourClock(h: int)
    requires 0 <= h < 24
    ensures 1 <= DisplayHour(h) <= 12
    ensures To24Hour(DisplayHour(h), Period(h) == "PM") == h
  {
  }

  /**
   * `formatTime(timeString)`: `HH:mm[:ss]` as `h:mm AM|PM`. The input comes back
   * unchanged when it has no `:` or when its hour does not parse.
   */
  function FormatTime(timeString: string): (r: string)
    ensures ':' !in timeString ==> r == timeString
  {
    var parts := Split(timeString, ':');
    SplitSingleIffNoSep(timeString, ':');
    if |parts| < 2 then timeString
    else
      match ParseInt(parts[0])
      case None => timeString
      case Some(h) => IntText(DisplayHour(h)) + ":" + parts[1] + " " + Period(h)
  }

  /** The result is assembled from the first two pieces of the split. */
  lemma FormatTimeOfSplit(s: string, hh: string, mm: string, h: int)
    requires |Split(s, ':')| >= 2 && Split(s, ':')[0] == hh && Split(s, ':')[1] == mm
    requires ParseInt(hh) == Some(h)
    ensures FormatTime(s) == IntText(DisplayHour(h)) + ":" + mm + " " + Period(h)
  {
  }

  /**
   * With an hour field `hh`, a minutes field `mm` and anything from a second
   * `:` on, the result is the display hour, `:`, the minutes as they are, a
   * space and the period; the seconds are dropped.
   */
  lemma FormatTimeOfFields(hh: string, mm: string, rest: string, h: int)
    requires ':' !in hh && ':' !in mm && (rest == [] || rest[0] == ':')
    requires ParseInt(hh) == Some(h)
    ensures FormatTime(hh + ":" + mm + rest) == IntText(DisplayHour(h)) + ":" + mm + " " + Period(h)
  {
    var s := hh + ":" + mm + rest;
    SplitTwoFields(hh, mm, rest, ':');
    FormatTimeOfSplit(s, hh, mm, h);
  }

  /** An hour field that does not parse leaves the text as it is. */
  lemma FormatTimeUnparsedHour(hh: string, rest: string)
    requires ':' !in hh && ParseInt(hh).None?
    ensures FormatTime(hh + ":" + rest) == hh + ":" + rest
  {
    SplitUntilSep(hh, ":" + rest, ':');
    assert hh + ":" + rest == hh + (":" + rest);
  }

  /** Reads a `h:mm AM|PM` text back to its 24-hour hour. */
  function HourOfTwelveHourText(t: string): Option<int> {
    match ParseInt(Split(t, ':')[0])
    case None => None
    case Some(d) => Some(To24Hour(d, |t| >= 2 && t[|t| - 2..] == "PM"))
  }

  /** For a valid hour, the formatted time reads back to the same hour. */
  lemma FormatTimeReadsBack(hh: string, mm: string, rest: string, h: int)
    requires ':' !in hh && ':' !in mm && (rest == [] || rest[0] == ':')
    requires ParseInt(hh) == Some(h) && 0 <= h < 24
    ensures HourOfTwelveHourText(FormatTime(hh + ":" + mm + rest)) == Some(h)
  {
    var n := DisplayHour(h);
    var d := IntText(n);
    var t := d + ":" + mm + " " + Period(h);
    assert FormatTime(hh + ":" + mm + rest) == t by {
      FormatTimeOfFields(hh, mm, rest, h);
    }
    assert Split(t, ':')[0] == d by {
      assert ':' !in d by {
        assert d == NatText(n);
        assert forall i :: 0 <= i < |d| ==> IsDigit(d[i]);
      }
      var tail := ":" + mm + " " + Period(h);
      ConcatRegroup(d, ":", mm, " ", Period(h));
      assert t == d + tail;
      SplitUntilSep(d, tail, ':');
    }
    assert t[|t| - 2..] == Period(h);
    ParseIntText(n);
    TwelveHourClock(h);
  }

  /** The hours 1 to 11 read as themselves, in the morning. */
  lemma FormatTimeMorning(hh: string, mm: string, rest: string, h: int)
    requires ':' !in hh && ':' !in mm && (rest == [] || rest[0] == ':')
    requires ParseInt(hh) == Some(h) && 0 < h < 12
    ensures FormatTime(hh + ":" + mm + rest) == IntText(h) + ":" + mm + " " + "AM"
  {
    FormatTimeOfFields(hh, mm, rest, h);
  }

  /** The hour 12 reads as `12`, in the afternoon. */
  lemma FormatTimeNoon(hh: string, mm: string, rest: string)
    requires ':' !in hh && ':' !in mm && (rest == [] || rest[0] == ':')
    requires ParseInt(hh) == Some(12)
    ensures FormatTime(hh + ":" + mm + rest) == IntText(12) + ":" + mm + " " + "PM"
  {
    FormatTimeOfFields(hh, mm, rest, 12);
  }

  /** The hours 13 to 23 read as `h - 12`, in the afternoon. */
  lemma FormatTimeAfternoon(hh: string, mm: string, rest: string, h: int)
    requires ':' !in hh && ':' !in mm && (rest == [] || rest[0] == ':')
    requires ParseInt(hh) == Some(h) && 12 < h < 24
    ensures FormatTime(hh + ":" + mm + rest) == IntText(h - 12) + ":" + mm + " " + "PM"
  {
    FormatTimeOfFields(hh, mm, rest, h);
  }

  /** The hour 0 reads as `12`, in the morning. */
  lemma FormatTimeMidnight(hh: string, mm: string, rest: string)
    requires ':' !in hh && ':' !in mm && (rest == [] || rest[0] == ':')
    requires ParseInt(hh) == Some(0)
    ensures FormatTime(hh + ":" + mm + rest) == IntText(12) + ":" + mm + " " + "AM"
  {
    FormatTimeOfFields(hh, mm, rest, 0);
  }

  /** The literal pieces of the two examples below. */
  lemma ExamplePieces()
    ensures "13:05" == "13" + ":" + "05" + "" && "1:05 PM" == "1" + ":" + "05" + " " + "PM"
    ensures "00:30" == "00" + ":" + "30" + "" && "12:30 AM" == "12" + ":" + "30" + " " + "AM"
    ensures ':' !in "13" && ':' !in "05" && ':' !in "00" && ':' !in "30"
  {
  }

  lemma SmallIntTexts()
    ensures IntText(1) == "1" && IntText(12) == "12"
  {
    assert NatText(12) == NatText(1) + [DigitChar(2)];
  }

  /** `13:05` reads `1:05 PM`. */
  lemma FormatTimeAfternoonExample(s: string)
    requires s == "13:05"
    ensures FormatTime(s) == "1:05 PM"
  {
    var out := IntText(13 - 12) + ":" + "05" + " " + "PM";
    assert out == "1:05 PM" by {
      ExamplePieces();
      SmallIntTexts();
    }
    assert FormatTime(s) == out by {
      assert s == "13" + ":" + "05" + "" && ':' !in "13" && ':' !in "05" by {
        ExamplePieces();
      }
      assert ParseInt("13") == Some(13) by {
        ParseTwoDigits("13");
      }
      FormatTimeAfternoon("13", "05", "", 13);
    }
  }

  /** `00:30` reads `12:30 AM`. */
  lemma FormatTimeMidnightExample(s: string)
    requires s == "00:30"
    ensures FormatTime(s) == "12:30 AM"
  {
    var out := IntText(12) + ":" + "30" + " " + "AM";
    assert out == "12:30 AM" by {
      ExamplePieces();
      SmallIntTexts();
    }
    assert FormatTime(s) == out by {
      assert s == "00" + ":" + "30" + "" && ':' !in "00" && ':' !in "30" by {
        ExamplePieces();
      }
      MidnightHour("00");
      FormatTimeMidnight("00", "30", "");
    }
  }

  lemma MidnightHour(hh: string)
    requires hh == "00"
    ensures ParseInt(hh) == Some(0)
  {
    ParseTwoDigits(hh);
  }

  lemma FormatTimeNoColonExample()
    ensures FormatTime("9") == "9"
  {
  }

  // ---------------------------------------------------------------------------
  // stripHtml

  const ScriptOpen: string := "<script"
  const ScriptClose: string := "</script>"
  const StyleOpen: string := "<style"
  const StyleClose: string := "</style>"

  /** The first index at which `sub` occurs in `s`, ASCII letters compared without case. */
  function FindIgnoringCase(s: string, sub: string): (k: Option<nat>)
    ensures k.Some? ==> k.value + |sub| <= |s|
    decreases |s|
  {
    if StartsWithIgnoringCase(s, sub) then Some(0)
    else if s == [] then None
    else
      match FindIgnoringCase(s[1..], sub)
      case None => None
      case Some(k) => Some(k + 1)
  }

  /** Where `FindIgnoringCase` stops, `sub` does occur. */
  lemma {:induction false} FindIgnoringCaseMatches(s: string, sub: string)
    ensures FindIgnoringCase(s, sub).Some? ==> StartsWithIgnoringCase(s[FindIgnoringCase(s, sub).value..], sub)
    decreases |s|
  {
    if !StartsWithIgnoringCase(s, sub) && s != [] {
      FindIgnoringCaseMatches(s[1..], sub);
      if FindIgnoringCase(s[1..], sub).Some? {
        var k := FindIgnoringCase(s[1..], sub).value;
        assert s[1..][k..] == s[k + 1..];
      }
    }
  }

  /**
   * Where a match of `/open[\s\S]*?close/i` that starts at the head of `s`
   * ends: after `open`, the first `close` that follows it.
   */
  function BlockEnd(s: string, open: string, close: string): (e: Option<nat>)
    ensures e.Some? ==> |open| + |close| <= e.value <= |s|
  {
    if !StartsWithIgnoringCase(s, open) then None
    else
      match FindIgnoringCase(s[|open|..], close)
      case None => None
      case Some(k) => Some(|open| + k + |close|)
  }

  /**
   * `s.replace(/open[\s\S]*?close/gi, '')`: scanning from the left, every
   * `open` that has a `close` somewhere after it is removed together with
   * everything up to the end of the first such `close`.
   */
  function RemoveBlocks(s: string, open: string, close: string): (r: string)
    requires open != []
    ensures |r| <= |s|
    decreases |s|
  {
    if s == [] then []
    else
      match BlockEnd(s, open, close)
      case Some(e) => RemoveBlocks(s[e..], open, close)
      case None => [s[0]] + RemoveBlocks(s[1..], open, close)
  }

  /**
   * The shape both block patterns have: `open` is `<` and a character other
   * than `>`, `close` starts with `<` and ends with `>`, both in lower case.
   */
  predicate BlockDelimiters(open: string, close: string) {
    && |open| >= 2 && open[0] == '<' && open[1] != '>'
    && |close| >= 2 && close[0] == '<' && close[|close| - 1] == '>'
    && LowerCase(open) && LowerCase(close)
    && '<' !in open[1..] && '<' !in close[1..]
  }

  /** A pattern written without ASCII capitals, as both block patterns are. */
  predicate LowerCase(p: string) {
    forall i :: 0 <= i < |p| ==> LowerAscii(p[i]) == p[i]
  }

  lemma ScriptAndStyleDelimiters()
    ensures BlockDelimiters(ScriptOpen, ScriptClose) && BlockDelimiters(StyleOpen, StyleClose)
  {
  }

  /** A lower-case pattern matches itself at the head of any text. */
  lemma LowerCaseStartsItself(p: string, x: string)
    requires LowerCase(p)
    ensures StartsWithIgnoringCase(p + x, p)
  {
    assert forall i :: 0 <= i < |p| ==> (p + x)[i] == p[i];
  }

  /** The first index of `c` in `s`. */
  function IndexOf(s: string, c: char): (k: Option<nat>)
    ensures k.Some? ==> k.value < |s| && s[k.value] == c && c !in s[..k.value]
    ensures k.None? <==> c !in s
  {
    if s == [] then None
    else if s[0] == c then Some(0)
    else
      match IndexOf(s[1..], c)
      case None => None
      case Some(k) =>
        assert s[..k + 1] == [s[0]] + s[1..][..k];
        Some(k + 1)
  }

  /** `/<[^>]+>/` matches at `i`: a `<`, at least one character other than `>`, then a `>`. */
  predicate HasTagAt(s: string, i: int) {
    0 <= i && i + 1 < |s| && s[i] == '<' && s[i + 1] != '>' && '>' in s[i + 2..]
  }

  /** Text in which `/<[^>]+>/` matches nowhere. */
  predicate TagFree(s: string) {
    forall i :: 0 <= i < |s| ==> !HasTagAt(s, i)
  }

  /** `s.replace(/<[^>]+>/g, ' ')`: every tag, up to the first `>` that closes it, becomes one space. */
  function ReplaceTags(s: string): (r: string)
    ensures |r| <= |s|
    ensures forall c :: c in r ==> c == ' ' || c in s
    ensures '<' !in s ==> r == s
    decreases |s|
  {
    if s == [] then []
    else if HasTagAt(s, 0) then
      var e := 2 + IndexOf(s[2..], '>').value;
      assert forall c :: c in s[e + 1..] ==> c in s;
      " " + ReplaceTags(s[e + 1..])
    else
      assert '<' !in s ==> '<' !in s[1..];
      [s[0]] + ReplaceTags(s[1..])
  }

  /** Every white space character is a plain space. */
  predicate PlainSpaces(s: string) {
    forall i :: 0 <= i < |s| && IsSpace(s[i]) ==> s[i] == ' '
  }

  /** No two white space characters are adjacent. */
  predicate SingleSpaced(s: string) {
    forall i :: 0 < i < |s| ==> !(IsSpace(s[i - 1]) && IsSpace(s[i]))
  }

  /** `s.replace(/\s+/g, ' ')`: every run of white space becomes one space. */
  function CollapseSpace(s: string): (r: string)
    ensures |r| <= |s|
    ensures forall c :: c in r ==> c == ' ' || c in s
    ensures s != [] ==> r != [] && r[0] == (if IsSpace(s[0]) then ' ' else s[0])
    decreases |s|
  {
    if s == [] then []
    else if IsSpace(s[0]) then
      var rest := TrimStart(s[1..]);
      assert forall c :: c in rest ==> c in s by {
        assert rest == s[|s| - |rest|..];
      }
      [' '] + CollapseSpace(rest)
    else [s[0]] + CollapseSpace(s[1..])
  }

  /** After `CollapseSpace` every white space character is a lone plain space. */
  lemma {:induction false} CollapseSpaceNormalises(s: string)
    ensures PlainSpaces(CollapseSpace(s)) && SingleSpaced(CollapseSpace(s))
    decreases |s|
  {
    if s != [] {
      var rest := if IsSpace(s[0]) then TrimStart(s[1..]) else s[1..];
      var t := CollapseSpace(rest);
      CollapseSpaceNormalises(rest);
      assert CollapseSpace(s) == [CollapseSpace(s)[0]] + t;
      assert IsSpace(s[0]) && t != [] ==> !IsSpace(t[0]);
    }
  }

  /**
   * `stripHtml(html)`: script and style blocks removed, every remaining tag
   * replaced by a space, white space runs collapsed, and the ends trimmed.
   */
  function StripHtml(html: string): (r: string)
    ensures IsTrimmed(r) && TagFree(r) && PlainSpaces(r) && SingleSpaced(r)
  {
    var tagged := RemoveScriptsAndStyles(html);
    var spaced := ReplaceTags(tagged);
    ReplaceTagsTagFree(tagged);
    CollapseSpaceTagFree(spaced);
    CollapseSpaceNormalises(spaced);
    TrimKeepsPlainText(CollapseSpace(spaced));
    Trim(CollapseSpace(spaced))
  }

  /** A tag in a slice of `s` is a tag in `s`. */
  lemma TagInSlice(s: string, a: nat, b: nat, i: int)
    requires a <= b <= |s|
    ensures HasTagAt(s[a..b], i) ==> HasTagAt(s, a + i)
  {
    if HasTagAt(s[a..b], i) {
      var j :| i + 2 <= j < b - a && s[a..b][j] == '>';
      assert s[a + i + 2..][j - i - 2] == '>';
    }
  }

  lemma TagFreeSlice(s: string, a: nat, b: nat)
    requires a <= b <= |s| && TagFree(s)
    ensures TagFree(s[a..b])
  {
    forall i ensures !HasTagAt(s[a..b], i) {
      TagInSlice(s, a, b, i);
    }
  }

  lemma TagFreeSuffix(s: string, a: nat)
    requires a <= |s| && TagFree(s)
    ensures TagFree(s[a..])
  {
    TagFreeSlice(s, a, |s|);
    assert s[a..|s|] == s[a..];
  }

  /** A tag after the head of `[c] + t` is a tag in `t`. */
  lemma TagInTail(c: char, t: string, i: int)
    ensures i > 0 && HasTagAt([c] + t, i) ==> HasTagAt(t, i - 1)
  {
    if i > 0 && HasTagAt([c] + t, i) {
      assert ([c] + t)[i + 2..] == t[i + 1..];
    }
  }

  /** Putting a character in front of tag-free text adds at most a tag at the head. */
  lemma ConsTagFree(c: char, t: string)
    requires TagFree(t) && !HasTagAt([c] + t, 0)
    ensures TagFree([c] + t)
  {
    forall i | 0 <= i < |t| + 1 ensures !HasTagAt([c] + t, i) {
      TagInTail(c, t, i);
    }
  }

  /** Text without `>` has no tag to replace. */
  lemma {:induction false} ReplaceTagsNoClose(s: string)
    requires '>' !in s
    ensures ReplaceTags(s) == s
    decreases |s|
  {
    if s != [] {
      assert '>' !in s[1..];
      ReplaceTagsNoClose(s[1..]);
    }
  }

  /** What `ReplaceTags` leaves has no tag in it. */
  lemma {:induction false} ReplaceTagsTagFree(s: string)
    ensures TagFree(ReplaceTags(s))
    decreases |s|
  {
    if s == [] {
    } else if HasTagAt(s, 0) {
      var e := 2 + IndexOf(s[2..], '>').value;
      ReplaceTagsTagFree(s[e + 1..]);
      ConsTagFree(' ', ReplaceTags(s[e + 1..]));
    } else {
      var t := ReplaceTags(s[1..]);
      ReplaceTagsTagFree(s[1..]);
      if s[0] == '<' && |s| >= 2 {
        if s[1] == '>' {
          assert t[0] == '>';
        } else {
          assert '>' !in s[1..] by {
            assert s[1..] == [s[1]] + s[2..];
          }
          ReplaceTagsNoClose(s[1..]);
          assert [s[0]] + t == s;
        }
      }
      ConsTagFree(s[0], t);
    }
  }

  /** Collapsing white space cannot make a tag. */
  lemma {:induction false} CollapseSpaceTagFree(s: string)
    requires TagFree(s)
    ensures TagFree(CollapseSpace(s))
    decreases |s|
  {
    if s != [] {
      if IsSpace(s[0]) {
        var rest := TrimStart(s[1..]);
        assert CollapseSpace(s) == [' '] + CollapseSpace(rest);
        assert TagFree(rest) by {
          TagFreeSuffix(s, |s| - |rest|);
          assert s[|s| - |rest|..] == rest;
        }
        CollapseSpaceTagFree(rest);
        ConsTagFree(' ', CollapseSpace(rest));
      } else {
        var t := CollapseSpace(s[1..]);
        assert CollapseSpace(s) == [s[0]] + t;
        TagFreeSuffix(s, 1);
        CollapseSpaceTagFree(s[1..]);
        CollapseHeadNoTag(s, t);
        ConsTagFree(s[0], t);
      }
    }
  }

  /** A tag-free text that does not start with white space keeps its head without starting a tag. */
  lemma CollapseHeadNoTag(s: string, t: string)
    requires s != [] && !IsSpace(s[0]) && TagFree(s) && t == CollapseSpace(s[1..])
    ensures !HasTagAt([s[0]] + t, 0)
  {
    var u := [s[0]] + t;
    if s[0] == '<' && |s| >= 2 {
      if s[1] == '>' {
        assert u[1] == '>';
      } else {
        assert !HasTagAt(s, 0);
        assert '>' !in s[1..] by {
          assert s[1..] == [s[1]] + s[2..];
        }
        assert '>' !in t;
        assert u[2..] == t[1..];
      }
    }
  }

  lemma PlainTextSlice(s: string, a: nat, b: nat)
    requires a <= b <= |s|
    requires PlainSpaces(s) && SingleSpaced(s)
    ensures PlainSpaces(s[a..b]) && SingleSpaced(s[a..b])
  {
    forall i | 0 < i < b - a ensures !(IsSpace(s[a..b][i - 1]) && IsSpace(s[a..b][i])) {
      assert s[a..b][i - 1] == s[a + i - 1];
    }
  }

  lemma SliceKeepsPlainText(s: string, t: string, a: nat)
    requires a + |t| <= |s| && t == s[a..a + |t|]
    requires TagFree(s) && PlainSpaces(s) && SingleSpaced(s)
    ensures TagFree(t) && PlainSpaces(t) && SingleSpaced(t)
  {
    TagFreeSlice(s, a, a + |t|);
    PlainTextSlice(s, a, a + |t|);
  }

  /** Trimming keeps text tag-free, plain-spaced and single-spaced. */
  lemma TrimKeepsPlainText(s: string)
    requires TagFree(s) && PlainSpaces(s) && SingleSpaced(s)
    ensures TagFree(Trim(s)) && PlainSpaces(Trim(s)) && SingleSpaced(Trim(s))
  {
    var a := TrimSlice(s);
    SliceKeepsPlainText(s, Trim(s), a);
  }

  /** Tag-free text has nothing for `ReplaceTags` to do. */
  lemma {:induction false} ReplaceTagsOfTagFree(s: string)
    requires TagFree(s)
    ensures ReplaceTags(s) == s
    decreases |s|
  {
    if s != [] {
      TagFreeSuffix(s, 1);
      ReplaceTagsOfTagFree(s[1..]);
    }
  }

  /** A block match starts with a tag, so tag-free text holds no block. */
  lemma BlockStartsWithTag(s: string, open: string, close: string)
    requires BlockDelimiters(open, close)
    ensures BlockEnd(s, open, close).Some? ==> HasTagAt(s, 0)
  {
    if BlockEnd(s, open, close).Some? {
      FindIgnoringCaseMatches(s[|open|..], close);
      var k := FindIgnoringCase(s[|open|..], close).value;
      var j := |open| + k + |close| - 1;
      assert LowerAscii(s[j]) == '>' by {
        assert s[|open|..][k..][|close| - 1] == s[j];
      }
      assert s[2..][j - 2] == '>';
    }
  }

  /** Tag-free text has no block for `RemoveBlocks` to remove. */
  lemma {:induction false} RemoveBlocksOfTagFree(s: string, open: string, close: string)
    requires BlockDelimiters(open, close) && TagFree(s)
    ensures RemoveBlocks(s, open, close) == s
    decreases |s|
  {
    if s != [] {
      BlockStartsWithTag(s, open, close);
      TagFreeSuffix(s, 1);
      RemoveBlocksOfTagFree(s[1..], open, close);
    }
  }

  /** Text whose white space is single plain spaces has nothing for `CollapseSpace` to do. */
  lemma {:induction false} CollapseSpaceOfNormal(s: string)
    requires PlainSpaces(s) && SingleSpaced(s)
    ensures CollapseSpace(s) == s
    decreases |s|
  {
    if s != [] {
      var t := s[1..];
      SliceKeepsNormalSpacing(s, t, 1);
      CollapseSpaceOfNormal(t);
      if IsSpace(s[0]) {
        if t != [] {
          assert !IsSpace(s[1]);
          TrimStartOfNonSpace(t);
        }
        assert CollapseSpace(s) == [' '] + CollapseSpace(t);
        assert s[0] == ' ';
      } else {
        assert CollapseSpace(s) == [s[0]] + CollapseSpace(t);
      }
      assert s == [s[0]] + t;
    }
  }

  lemma SliceKeepsNormalSpacing(s: string, t: string, a: nat)
    requires a + |t| <= |s| && t == s[a..a + |t|]
    requires PlainSpaces(s) && SingleSpaced(s)
    ensures PlainSpaces(t) && SingleSpaced(t)
  {
    PlainTextSlice(s, a, a + |t|);
  }

  /** `stripHtml` is idempotent: plain text it produced comes back unchanged. */
  lemma StripHtmlIdempotent(html: string)
    ensures StripHtml(StripHtml(html)) == StripHtml(html)
  {
    var t := StripHtml(html);
    ScriptAndStyleDelimiters();
    RemoveBlocksOfTagFree(t, ScriptOpen, ScriptClose);
    RemoveBlocksOfTagFree(t, StyleOpen, StyleClose);
    ReplaceTagsOfTagFree(t);
    CollapseSpaceOfNormal(t);
    TrimOfTrimmed(t);
  }

  /** Text with no `<` only has its white space normalised. */
  lemma StripHtmlOfPlainText(s: string)
    requires '<' !in s
    ensures StripHtml(s) == Trim(CollapseSpace(s))
  {
    assert TagFree(s);
    ScriptAndStyleDelimiters();
    RemoveBlocksOfTagFree(s, ScriptOpen, ScriptClose);
    RemoveBlocksOfTagFree(s, StyleOpen, StyleClose);
    ReplaceTagsOfTagFree(s);
  }

  /** The empty input gives the empty text. */
  lemma StripHtmlEmpty()
    ensures StripHtml("") == ""
  {
    StripHtmlOfPlainText("");
  }

  /** Text without `<` goes through `RemoveBlocks` as it is. */
  lemma {:induction false} RemoveBlocksPlainPrefix(p: string, x: string, open: string, close: string)
    requires BlockDelimiters(open, close) && '<' !in p
    ensures RemoveBlocks(p + x, open, close) == p + RemoveBlocks(x, open, close)
    decreases |p|
  {
    if p == [] {
      assert p + x == x;
    } else {
      var s := p + x;
      assert s[0] == p[0];
      assert BlockEnd(s, open, close).None?;
      assert s[1..] == p[1..] + x;
      RemoveBlocksPlainPrefix(p[1..], x, open, close);
    }
  }

  /**
   * A text that does not start with `sub` still does not once text starting
   * with `<` is appended, since `sub` has no `<` after its first character.
   */
  lemma NoStartAcross(x: string, y: string, sub: string)
    requires x != [] && !StartsWithIgnoringCase(x, sub)
    requires sub != [] && sub[0] == '<' && '<' !in sub[1..] && (y == [] || LowerAscii(y[0]) == '<')
    ensures !StartsWithIgnoringCase(x + y, sub)
  {
    var s := x + y;
    if |sub| <= |x| {
      var i :| 0 <= i < |sub| && LowerAscii(x[i]) != sub[i];
      assert s[i] == x[i];
      MismatchAt(s, sub, i);
    } else if |sub| <= |s| {
      assert s[|x|] == y[0];
      assert sub[|x|] == sub[1..][|x| - 1];
      MismatchAt(s, sub, |x|);
    }
  }

  /** After text in which `sub` does not occur, the first `sub` is the one that ends it. */
  lemma {:induction false} FindAfter(body: string, rest: string, sub: string)
    requires sub != [] && sub[0] == '<' && '<' !in sub[1..]
    requires FindIgnoringCase(body, sub).None? && StartsWithIgnoringCase(rest, sub)
    ensures FindIgnoringCase(body + rest, sub) == Some(|body|)
    decreases |body|
  {
    if body == [] {
      assert body + rest == rest;
    } else {
      var s := body + rest;
      NoStartAcross(body, rest, sub);
      assert s[1..] == body[1..] + rest;
      FindAfter(body[1..], rest, sub);
    }
  }

  /** Text in which `open` does not occur goes through `RemoveBlocks` as it is, when what follows starts with `<`. */
  lemma {:induction false} RemoveBlocksPast(p: string, x: string, open: string, close: string)
    requires BlockDelimiters(open, close) && FindIgnoringCase(p, open).None? && (x == [] || x[0] == '<')
    ensures RemoveBlocks(p + x, open, close) == p + RemoveBlocks(x, open, close)
    decreases |p|
  {
    if p == [] {
      assert p + x == x;
    } else {
      var s := p + x;
      assert !StartsWithIgnoringCase(p, open) && FindIgnoringCase(p[1..], open).None?;
      assert BlockEnd(s, open, close).None? by {
        NoStartAcross(p, x, open);
      }
      assert s[0] == p[0] && s[1..] == p[1..] + x;
      var r := RemoveBlocks(x, open, close);
      RemoveBlocksPast(p[1..], x, open, close);
      assert RemoveBlocks(s, open, close) == [p[0]] + (p[1..] + r);
      AppendAssoc([p[0]], p[1..], r);
      assert [p[0]] + p[1..] == p;
    }
  }

  /** A block in whose body `close` does not occur ends at its own `close`. */
  lemma BlockEndOfBlock(body: string, after: string, open: string, close: string)
    requires BlockDelimiters(open, close) && FindIgnoringCase(body, close).None?
    ensures BlockEnd(open + body + close + after, open, close) == Some(|open| + |body| + |close|)
  {
    var rest := body + (close + after);
    CloseAfterBody(body, after, close);
    BlockEndAfterOpen(open, rest, close, |body|);
    ConcatNest4(open, body, close, after);
  }

  /** The first `close` after a body in which it does not occur is the one that follows the body. */
  lemma CloseAfterBody(body: string, after: string, close: string)
    requires close != [] && close[0] == '<' && '<' !in close[1..] && LowerCase(close)
    requires FindIgnoringCase(body, close).None?
    ensures FindIgnoringCase(body + (close + after), close) == Some(|body|)
  {
    LowerCaseStartsItself(close, after);
    FindAfter(body, close + after, close);
  }

  /** Where `close` first occurs `k` characters after a lower-case `open`, the block ends after it. */
  lemma BlockEndAfterOpen(open: string, rest: string, close: string, k: nat)
    requires LowerCase(open) && FindIgnoringCase(rest, close) == Some(k)
    ensures BlockEnd(open + rest, open, close) == Some(|open| + k + |close|)
  {
    LowerCaseStartsItself(open, rest);
    assert (open + rest)[|open|..] == rest;
  }

  /**
   * The lazy match: a block is removed with its delimiters when `open` does
   * not occur before it and `close` does not occur inside it (ASCII case
   * ignored); the text before it is kept and the search goes on after it.
   */
  lemma RemoveBlocksDropsBlock(before: string, body: string, after: string, open: string, close: string)
    requires BlockDelimiters(open, close)
    requires FindIgnoringCase(before, open).None? && FindIgnoringCase(body, close).None?
    ensures RemoveBlocks(before + open + body + close + after, open, close) == before + RemoveBlocks(after, open, close)
  {
    var block := open + body + close + after;
    assert before + open + body + close + after == before + block;
    assert block[0] == '<';
    RemoveBlocksPast(before, block, open, close);
    BlockEndOfBlock(body, after, open, close);
    assert block[|open| + |body| + |close|..] == after;
  }

  /**
   * A `<script ...>...</script>` block leaves nothing behind, whatever it
   * holds: the output is the one for the empty block, and where the text
   * before it has no `<`, the one for the text without the block.
   */
  lemma StripHtmlDropsScript(before: string, body: string, after: string)
    requires FindIgnoringCase(before, ScriptOpen).None? && FindIgnoringCase(body, ScriptClose).None?
    ensures StripHtml(before + ScriptOpen + body + ScriptClose + after) == StripHtml(before + ScriptOpen + ScriptClose + after)
    ensures '<' !in before ==> StripHtml(before + ScriptOpen + body + ScriptClose + after) == StripHtml(before + after)
  {
    ScriptAndStyleDelimiters();
    var pass := before + RemoveBlocks(after, ScriptOpen, ScriptClose);
    assert RemoveBlocks(before + ScriptOpen + body + ScriptClose + after, ScriptOpen, ScriptClose) == pass by {
      RemoveBlocksDropsBlock(before, body, after, ScriptOpen, ScriptClose);
    }
    assert RemoveBlocks(before + ScriptOpen + ScriptClose + after, ScriptOpen, ScriptClose) == pass by {
      RemoveBlocksDropsBlock(before, "", after, ScriptOpen, ScriptClose);
      ConcatEmptyMiddle(before, ScriptOpen, ScriptClose, after);
    }
    if '<' !in before {
      RemoveBlocksPlainPrefix(before, after, ScriptOpen, ScriptClose);
    }
  }

  /** A piece that starts with `<` but not with `open`, and has no other `<`, is kept. */
  lemma RemoveBlocksKeeps(p: string, x: string, open: string, close: string)
    requires BlockDelimiters(open, close) && p != [] && '<' !in p[1..]
    requires !StartsWithIgnoringCase(p + x, open)
    ensures RemoveBlocks(p + x, open, close) == p + RemoveBlocks(x, open, close)
  {
    var s := p + x;
    var r := RemoveBlocks(x, open, close);
    assert RemoveBlocks(s, open, close) == [s[0]] + RemoveBlocks(s[1..], open, close) by {
      assert BlockEnd(s, open, close).None?;
    }
    assert RemoveBlocks(s[1..], open, close) == p[1..] + r by {
      assert s[1..] == p[1..] + x;
      RemoveBlocksPlainPrefix(p[1..], x, open, close);
    }
    assert [s[0]] + (p[1..] + r) == p + r;
  }

  /** A text whose `i`-th character differs from the pattern's does not start with it. */
  lemma MismatchAt(s: string, p: string, i: nat)
    requires i < |p| && i < |s| && LowerAscii(s[i]) != p[i]
    ensures !StartsWithIgnoringCase(s, p)
  {
  }

  /**
   * The script pass, which runs first, leaves a style block and the text
   * before it as they are when `<script` occurs in neither.
   */
  lemma ScriptPassKeepsStyle(before: string, body: string, after: string)
    requires FindIgnoringCase(before, ScriptOpen).None? && FindIgnoringCase(body, ScriptOpen).None?
    ensures RemoveBlocks(before + StyleOpen + body + StyleClose + after, ScriptOpen, ScriptClose)
         == before + StyleOpen + body + StyleClose + RemoveBlocks(after, ScriptOpen, ScriptClose)
  {
    ScriptAndStyleDelimiters();
    var tail := RemoveBlocks(after, ScriptOpen, ScriptClose);
    var c := StyleClose + after;
    var b := body + c;
    var o := StyleOpen + b;
    assert RemoveBlocks(c, ScriptOpen, ScriptClose) == StyleClose + tail by {
      assert c[1] == '/';
      MismatchAt(c, ScriptOpen, 1);
      RemoveBlocksKeeps(StyleClose, after, ScriptOpen, ScriptClose);
    }
    assert RemoveBlocks(b, ScriptOpen, ScriptClose) == body + (StyleClose + tail) by {
      RemoveBlocksPast(body, c, ScriptOpen, ScriptClose);
    }
    assert RemoveBlocks(o, ScriptOpen, ScriptClose) == StyleOpen + (body + (StyleClose + tail)) by {
      assert o[2] == 't';
      MismatchAt(o, ScriptOpen, 2);
      RemoveBlocksKeeps(StyleOpen, b, ScriptOpen, ScriptClose);
    }
    assert RemoveBlocks(before + o, ScriptOpen, ScriptClose) == before + (StyleOpen + (body + (StyleClose + tail))) by {
      RemoveBlocksPast(before, o, ScriptOpen, ScriptClose);
    }
    ConcatNest(before, StyleOpen, body, StyleClose, after);
    ConcatNest(before, StyleOpen, body, StyleClose, tail);
  }

  /**
   * A `<style ...>...</style>` block leaves nothing behind, whatever it holds,
   * as long as the script pass does not reach into it: the output is the one
   * for the empty block, and where the text before it has no `<`, the one for
   * the text without the block.
   */
  lemma StripHtmlDropsStyle(before: string, body: string, after: string)
    requires FindIgnoringCase(before, ScriptOpen).None? && FindIgnoringCase(before, StyleOpen).None?
    requires FindIgnoringCase(body, ScriptOpen).None? && FindIgnoringCase(body, StyleClose).None?
    ensures StripHtml(before + StyleOpen + body + StyleClose + after) == StripHtml(before + StyleOpen + StyleClose + after)
    ensures '<' !in before ==> StripHtml(before + StyleOpen + body + StyleClose + after) == StripHtml(before + after)
  {
    ScriptAndStyleDelimiters();
    var tail := RemoveBlocks(after, ScriptOpen, ScriptClose);
    var both := before + RemoveBlocks(tail, StyleOpen, StyleClose);
    assert RemoveScriptsAndStyles(before + StyleOpen + body + StyleClose + after) == both by {
      ScriptPassKeepsStyle(before, body, after);
      RemoveBlocksDropsBlock(before, body, tail, StyleOpen, StyleClose);
    }
    assert RemoveScriptsAndStyles(before + StyleOpen + StyleClose + after) == both by {
      ScriptPassKeepsStyle(before, "", after);
      RemoveBlocksDropsBlock(before, "", tail, StyleOpen, StyleClose);
      ConcatEmptyMiddle(before, StyleOpen, StyleClose, after);
      ConcatEmptyMiddle(before, StyleOpen, StyleClose, tail);
    }
    if '<' !in before {
      RemoveScriptsAndStylesPlain(before, after);
    }
  }

  /** A tag, `<`, one or more characters other than `>`, then `>`, becomes one space. */
  lemma ReplaceTagsTag(inner: string, rest: string)
    requires inner != [] && '>' !in inner
    ensures ReplaceTags("<" + inner + ">" + rest) == " " + ReplaceTags(rest)
  {
    var s := "<" + inner + ">" + rest;
    var n := |inner|;
    var t := s[2..];
    assert t[n - 1] == '>';
    assert forall j :: 0 <= j < n - 1 ==> t[j] == inner[j + 1];
    assert HasTagAt(s, 0);
    var k := IndexOf(t, '>').value;
    assert t[..k] == s[2..k + 2];
    assert k == n - 1;
    assert s[n + 2..] == rest;
  }

  /** Text without `<` goes through `ReplaceTags` as it is. */
  lemma {:induction false} ReplaceTagsText(text: string, rest: string)
    requires '<' !in text
    ensures ReplaceTags(text + rest) == text + ReplaceTags(rest)
    decreases |text|
  {
    if text == [] {
      assert text + rest == rest;
    } else {
      var s := text + rest;
      assert s[0] == text[0];
      assert s[1..] == text[1..] + rest;
      ReplaceTagsText(text[1..], rest);
    }
  }

  /** Where no `<` is followed by the second letter of `open`, `RemoveBlocks` has nothing to do. */
  lemma {:induction false} RemoveBlocksNoOpener(s: string, open: string, close: string)
    requires BlockDelimiters(open, close)
    requires forall i :: 0 <= i < |s| - 1 && s[i] == '<' ==> LowerAscii(s[i + 1]) != open[1]
    ensures RemoveBlocks(s, open, close) == s
    decreases |s|
  {
    if s != [] {
      if s[0] != '<' {
        MismatchAt(s, open, 0);
      } else if |s| >= 2 {
        MismatchAt(s, open, 1);
      }
      assert forall i :: 0 <= i < |s[1..]| - 1 && s[1..][i] == '<' ==> LowerAscii(s[1..][i + 1]) != open[1] by {
        assert forall i :: 0 <= i < |s| - 1 ==> s[1..][i] == s[i + 1];
      }
      RemoveBlocksNoOpener(s[1..], open, close);
    }
  }

  /** The script pass and then the style pass. */
  function RemoveScriptsAndStyles(s: string): (r: string)
    ensures |r| <= |s|
  {
    RemoveBlocks(RemoveBlocks(s, ScriptOpen, ScriptClose), StyleOpen, StyleClose)
  }

  /** Text without `<` goes through both block passes as it is. */
  lemma RemoveScriptsAndStylesPlain(p: string, x: string)
    requires '<' !in p
    ensures RemoveScriptsAndStyles(p + x) == p + RemoveScriptsAndStyles(x)
  {
    ScriptAndStyleDelimiters();
    var y := RemoveBlocks(x, ScriptOpen, ScriptClose);
    RemoveBlocksPlainPrefix(p, x, ScriptOpen, ScriptClose);
    RemoveBlocksPlainPrefix(p, y, StyleOpen, StyleClose);
  }

  /** A piece that starts with `<` not followed by an `s` or `S`, and has no other `<`, goes through both passes as it is. */
  lemma RemoveScriptsAndStylesTag(p: string, x: string)
    requires |p| >= 2 && p[0] == '<' && '<' !in p[1..] && LowerAscii(p[1]) != 's'
    ensures RemoveScriptsAndStyles(p + x) == p + RemoveScriptsAndStyles(x)
  {
    ScriptAndStyleDelimiters();
    var y := RemoveBlocks(x, ScriptOpen, ScriptClose);
    assert (p + x)[1] == p[1] && (p + y)[1] == p[1];
    MismatchAt(p + x, ScriptOpen, 1);
    RemoveBlocksKeeps(p, x, ScriptOpen, ScriptClose);
    MismatchAt(p + y, StyleOpen, 1);
    RemoveBlocksKeeps(p, y, StyleOpen, StyleClose);
  }

  /** Non-empty text with neither white space nor `<`. */
  predicate IsWord(w: string) {
    w != [] && forall i :: 0 <= i < |w| ==> !IsSpace(w[i]) && w[i] != '<'
  }

  /** Text without white space goes through `CollapseSpace` as it is. */
  lemma {:induction false} CollapseSpaceWord(w: string, rest: string)
    requires forall i :: 0 <= i < |w| ==> !IsSpace(w[i])
    ensures CollapseSpace(w + rest) == w + CollapseSpace(rest)
    decreases |w|
  {
    if w == [] {
      assert w + rest == rest;
    } else {
      var s := w + rest;
      assert s[0] == w[0];
      assert s[1..] == w[1..] + rest;
      CollapseSpaceWord(w[1..], rest);
    }
  }

  /** A whole run of white space becomes one space. */
  lemma CollapseSpaceRun(run: string, rest: string)
    requires run != [] && AllSpace(run) && (rest == [] || !IsSpace(rest[0]))
    ensures CollapseSpace(run + rest) == " " + CollapseSpace(rest)
  {
    var s := run + rest;
    assert s[0] == run[0];
    assert TrimStart(s[1..]) == rest by {
      assert s[1..] == run[1..] + rest;
      TrimStartSpacePrefix(run[1..], rest);
    }
  }

  /** The paragraph text of `StripHtmlParagraph`, nested to the right. */
  function Paragraph(a: string, b: string): string {
    "<p>" + (a + (" " + ("<b>" + (b + ("</b>" + "</p>")))))
  }

  lemma ParagraphHasNoBlocks(a: string, b: string)
    requires IsWord(a) && IsWord(b)
    ensures RemoveScriptsAndStyles(Paragraph(a, b)) == Paragraph(a, b)
  {
    var p4 := "</p>";
    var p3 := "</b>" + p4;
    var p2 := b + p3;
    var p1 := "<b>" + p2;
    var p0 := a + (" " + p1);
    assert RemoveScriptsAndStyles(p4) == p4 by {
      assert RemoveScriptsAndStyles([]) == [];
      RemoveScriptsAndStylesTag(p4, []);
      assert p4 + [] == p4;
    }
    RemoveScriptsAndStylesTag("</b>", p4);
    RemoveScriptsAndStylesPlain(b, p3);
    RemoveScriptsAndStylesTag("<b>", p2);
    assert p0 == (a + " ") + p1;
    RemoveScriptsAndStylesPlain(a + " ", p1);
    RemoveScriptsAndStylesTag("<p>", p0);
  }

  // The steps of `StripHtmlParagraph`, one small lemma each, innermost piece first.

  lemma ParagraphTags1()
    ensures ReplaceTags("</b>" + "</p>") == "  "
  {
    ReplaceTagsTag("/p", "");
    assert "<" + "/p" + ">" + "" == "</p>";
    ReplaceTagsTag("/b", "</p>");
    assert "<" + "/b" + ">" + "</p>" == "</b>" + "</p>";
  }

  lemma ParagraphTags2(b: string)
    requires IsWord(b)
    ensures ReplaceTags("<b>" + (b + ("</b>" + "</p>"))) == " " + (b + "  ")
  {
    ParagraphTags1();
    ReplaceTagsText(b, "</b>" + "</p>");
    ReplaceTagsTag("b", b + ("</b>" + "</p>"));
    assert "<" + "b" + ">" + (b + ("</b>" + "</p>")) == "<b>" + (b + ("</b>" + "</p>"));
  }

  lemma ParagraphTags3(a: string, b: string)
    requires IsWord(a) && IsWord(b)
    ensures ReplaceTags(Paragraph(a, b)) == " " + (a + (" " + (" " + (b + "  "))))
  {
    var p1 := "<b>" + (b + ("</b>" + "</p>"));
    var p0 := a + (" " + p1);
    ParagraphTags2(b);
    AppendAssoc(a, " ", p1);
    ReplaceTagsText(a + " ", p1);
    AppendAssoc(a, " ", ReplaceTags(p1));
    ReplaceTagsTag("p", p0);
    assert "<" + "p" + ">" + p0 == Paragraph(a, b);
  }

  lemma ParagraphSpaces1(b: string)
    requires IsWord(b)
    ensures CollapseSpace(" " + (" " + (b + "  "))) == " " + (b + " ")
  {
    assert CollapseSpace(b + "  ") == b + " " by {
      assert CollapseSpace("  ") == " " by {
        CollapseSpaceRun("  ", "");
        assert "  " + "" == "  ";
      }
      CollapseSpaceWord(b, "  ");
    }
    assert CollapseSpace("  " + (b + "  ")) == " " + CollapseSpace(b + "  ") by {
      CollapseSpaceRun("  ", b + "  ");
    }
    assert "  " + (b + "  ") == " " + (" " + (b + "  "));
  }

  lemma ParagraphSpaces2(a: string, b: string)
    requires IsWord(a) && IsWord(b)
    ensures CollapseSpace(" " + (a + (" " + (" " + (b + "  "))))) == " " + (a + (" " + (b + " ")))
  {
    var t := " " + (" " + (b + "  "));
    ParagraphSpaces1(b);
    CollapseSpaceWord(a, t);
    CollapseSpaceRun(" ", a + t);
  }

  lemma ParagraphSpaces3(a: string, b: string)
    requires IsWord(a) && IsWord(b)
    ensures Trim(" " + (a + (" " + (b + " ")))) == a + " " + b
  {
    var w := a + " " + b;
    AppendAssoc(a + " ", b, " ");
    AppendAssoc(a, " ", b + " ");
    assert w[0] == a[0] && w[|w| - 1] == b[|b| - 1];
    TrimAround(" ", w, " ");
  }

  /** A paragraph `<p>a <b>b</b></p>` of two words comes out as the two words with one space between. */
  lemma StripHtmlParagraph(a: string, b: string)
    requires IsWord(a) && IsWord(b)
    ensures StripHtml(Paragraph(a, b)) == a + " " + b
  {
    ParagraphHasNoBlocks(a, b);
    ParagraphTags3(a, b);
    ParagraphSpaces2(a, b);
    ParagraphSpaces3(a, b);
  }

  lemma ExampleIsParagraph()
    ensures IsWord("Hi") && IsWord("there")
    ensures Paragraph("Hi", "there") == "<p>Hi <b>there</b></p>"
    ensures "Hi" + " " + "there" == "Hi there"
  {
  }

  /**
   * `<p>Hi <b>there</b></p>` becomes `Hi there`. The text is a parameter so
   * that the proof goes through `StripHtmlParagraph` rather than evaluating
   * `StripHtml` on a literal.
   */
  lemma StripHtmlExample(html: string)
    requires html == "<p>Hi <b>there</b></p>"
    ensures StripHtml(html) == "Hi there"
  {
    ExampleIsParagraph();
    StripHtmlParagraph("Hi", "there");
  }

  // ---------------------------------------------------------------------------
  // truncate

  const DefaultMaxLength: int := 150
  const Ellipsis: string := "..."

  /** Where `text.slice(0, end)` stops on a text of length `len`: a negative end counts from the back. */
  function SliceEnd(len: nat, end: int): (e: nat)
    ensures e <= len
    ensures 0 <= end <= len ==> e == end
    ensures end < 0 ==> e == (if len + end < 0 then 0 else len + end)
  {
    if end < 0 then (if len + end < 0 then 0 else len + end)
    else if end < len then end
    else len
  }

  /**
   * `truncate(text, maxLength)`: the text itself when it fits, otherwise its
   * first `maxLength` characters, trimmed at both ends, followed by `...`.
   */
  function Truncate(text: string, maxLength: int): (r: string)
    ensures |text| <= maxLength ==> r == text
    ensures |text| > maxLength ==> |r| >= 3 && r[|r| - 3..] == Ellipsis && IsTrimmed(r[..|r| - 3])
    ensures maxLength >= 0 ==> |r| <= maxLength + 3
  {
    if |text| <= maxLength then text
    else
      var kept := Trim(text[..SliceEnd(|text|, maxLength)]);
      assert (kept + Ellipsis)[..|kept|] == kept;
      kept + Ellipsis
  }

  /** A text that does not fit keeps its trimmed first `maxLength` characters. */
  lemma TruncateShape(text: string, maxLength: nat)
    requires |text| > maxLength
    ensures Truncate(text, maxLength) == Trim(text[..maxLength]) + Ellipsis
  {
  }

  /** A slice of a prefix is the same slice of the whole text. */
  lemma SliceOfPrefix(text: string, n: nat, a: nat, b: nat)
    requires a <= b <= n <= |text|
    ensures text[..n][a..b] == text[a..b]
  {
  }

  /** What is kept before the ellipsis is a piece of the first `maxLength` characters. */
  lemma TruncateKeepsPrefix(text: string, maxLength: nat) returns (a: nat)
    requires |text| > maxLength
    ensures var r := Truncate(text, maxLength);
            a + |r| - 3 <= maxLength && r[..|r| - 3] == text[a..a + |r| - 3]
  {
    var kept := Trim(text[..maxLength]);
    a := TrimSlice(text[..maxLength]);
    TruncateShape(text, maxLength);
    assert (kept + Ellipsis)[..|kept|] == kept;
    SliceOfPrefix(text, maxLength, a, a + |kept|);
  }

  /** A cut that falls between two non-space characters keeps exactly `maxLength` characters. */
  lemma TruncateCleanCut(text: string, maxLength: nat)
    requires 0 < maxLength < |text|
    requires !IsSpace(text[0]) && !IsSpace(text[maxLength - 1])
    ensures Truncate(text, maxLength) == text[..maxLength] + Ellipsis
  {
    TrimOfTrimmed(text[..maxLength]);
  }

  lemma TruncateFitsExample()
    ensures Truncate("hello", 10) == "hello"
  {
  }

  lemma TruncateCutExample()
    ensures Truncate("hello world", 5) == "hello..."
  {
    TruncateCleanCut("hello world", 5);
    assert "hello world"[..5] == "hello";
  }

  /** A cut just after a word drops the space before the ellipsis. */
  lemma TruncateAfterWord(word: string, rest: string)
    requires word != [] && IsTrimmed(word) && rest != []
    ensures Truncate(word + " " + rest, |word| + 1) == word + Ellipsis
  {
    var text := word + " " + rest;
    var cut := text[..|word| + 1];
    assert cut == word + " ";
    assert [] + (word + " ") == cut;
    TrimAround([], word, " ");
  }

  lemma TruncateTrimsExample()
    ensures Truncate("hello world", 6) == "hello..."
  {
    assert IsTrimmed("hello");
    TruncateAfterWord("hello", "world");
    assert "hello" + " " + "world" == "hello world";
  }

  /** Appending text without angle brackets to tag-free text keeps it tag-free. */
  lemma TagFreeAppend(t: string, tail: string)
    requires TagFree(t) && '<' !in tail && '>' !in tail
    ensures TagFree(t + tail)
  {
    var s := t + tail;
    forall i | 0 <= i < |s| ensures !HasTagAt(s, i) {
      if i >= |t| {
        assert s[i] == tail[i - |t|];
      } else if i + 1 < |t| {
        assert !HasTagAt(t, i);
        assert s[i] == t[i] && s[i + 1] == t[i + 1];
        assert s[i + 2..] == t[i + 2..] + tail;
      } else if i + 2 <= |s| {
        assert s[i + 2..] == tail[1..];
      }
    }
  }

  /** The trimmed prefix of tag-free text is a slice of it, so tag-free too. */
  lemma TrimmedPrefixTagFree(text: string, n: nat)
    requires n <= |text| && TagFree(text)
    ensures TagFree(Trim(text[..n]))
  {
    var cut := text[..n];
    var a := TrimSlice(cut);
    var b := a + |Trim(cut)|;
    SliceOfPrefix(text, n, a, b);
    assert Trim(cut) == text[a..b];
    TagFreeSlice(text, a, b);
  }

  /** Cutting tag-free text keeps it tag-free: the ellipsis has no angle brackets. */
  lemma TruncateKeepsTagFree(text: string, maxLength: nat)
    requires TagFree(text)
    ensures TagFree(Truncate(text, maxLength))
  {
    if |text| > maxLength {
      TruncateShape(text, maxLength);
      TrimmedPrefixTagFree(text, maxLength);
      TagFreeAppend(Trim(text[..maxLength]), Ellipsis);
    }
  }
}
