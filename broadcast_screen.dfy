/**
 * The live broadcast screen: which video URL it plays, how that URL is turned
 * into an embeddable player address, and the screen's loading flags.
 */
module BroadcastScreen {
  import opened Wrappers
  import opened JsText
  import opened Types
  import opened ApiClient
  import opened Helpers
  import opened UriComponent

  // ---------------------------------------------------------------------------
  // The YouTube video id pattern
  //
  //   (?:youtube\.com\/(?:[^\/]+\/.+\/|(?:v|e(?:mbed)?)\/|.*[?&]v=)|youtu\.be\/)([^"&?\/\s]{11})
  //
  // unanchored, case-sensitive, first match wins; the id is the captured group.

  const YouTubeHost: string := "youtube.com/"
  const ShortHost: string := "youtu.be/"
  const IdLength: nat := 11

  /** `[^"&?\/\s]`. */
  predicate IsIdChar(c: char) {
    c != '"' && c != '&' && c != '?' && c != '/' && !IsSpace(c)
  }

  /** Eleven id characters start at `i`. */
  predicate IdAt(s: string, i: int) {
    0 <= i && i + IdLength <= |s| && forall k :: i <= k < i + IdLength ==> IsIdChar(s[k])
  }

  /** What `.` refuses to match. */
  predicate IsLineTerminator(c: char) {
    c == '\n' || c == '\r' || c == '\U{2028}' || c == '\U{2029}'
  }

  /** The first line terminator at or after `i` (or the end): how far `.*` can run from `i`. */
  function DotRunEnd(s: string, i: nat): (m: nat)
    requires i <= |s|
    ensures i <= m <= |s|
    ensures forall k :: i <= k < m ==> !IsLineTerminator(s[k])
    decreases |s| - i
  {
    if i == |s| || IsLineTerminator(s[i]) then i else DotRunEnd(s, i + 1)
  }

  /** A `/` at `k` with an id right after it. */
  predicate SlashIdAt(s: string, k: int) {
    0 <= k < |s| && s[k] == '/' && IdAt(s, k + 1)
  }

  /** `?v=` or `&v=` at `k` with an id right after it. */
  predicate QueryIdAt(s: string, k: int) {
    0 <= k && k + 3 <= |s| && (s[k] == '?' || s[k] == '&') && s[k + 1] == 'v' && s[k + 2] == '=' && IdAt(s, k + 3)
  }

  /**
   * `.+\/` then an id, after the `.` run has been cut back to end at `k`: the
   * greedy run backs off one character at a time, so the last `/` from `k`
   * down to `lo` with an id after it wins. Returns where the id starts.
   */
  function LastSlashBeforeId(s: string, lo: nat, k: int): (start: Option<nat>)
    requires k < |s|
    ensures start.Some? ==> lo + 1 <= start.value <= k + 1 && SlashIdAt(s, start.value - 1)
    ensures start.Some? ==> forall j :: start.value <= j <= k ==> !SlashIdAt(s, j)
    ensures start.None? <==> forall j :: lo <= j <= k ==> !SlashIdAt(s, j)
    decreases k + 1 - lo
  {
    if k < lo then None
    else if SlashIdAt(s, k) then Some(k + 1)
    else LastSlashBeforeId(s, lo, k - 1)
  }

  /** `.*[?&]v=` then an id, backing off from `k` down to `lo`: the last `?v=` or `&v=` with an id after it wins. */
  function LastQueryBeforeId(s: string, lo: nat, k: int): (start: Option<nat>)
    requires k < |s|
    ensures start.Some? ==> lo + 3 <= start.value <= k + 3 && QueryIdAt(s, start.value - 3)
    ensures start.Some? ==> forall j :: start.value - 3 < j <= k ==> !QueryIdAt(s, j)
    ensures start.None? <==> forall j :: lo <= j <= k ==> !QueryIdAt(s, j)
    decreases k + 1 - lo
  {
    if k < lo then None
    else if QueryIdAt(s, k) then Some(k + 3)
    else LastQueryBeforeId(s, lo, k - 1)
  }

  /** `[^\/]+\/.+\/` from `q`: a non-empty segment, its slash, then the greedy run to a later slash. */
  function PathForm(s: string, q: nat): (start: Option<nat>)
    requires q <= |s|
    ensures start.Some? ==> q + 3 <= start.value && IdAt(s, start.value)
    ensures start.Some? ==> SlashIdAt(s, start.value - 1)
  {
    match IndexOf(s[q..], '/')
    case None => None
    case Some(d) =>
      if d == 0 || q + d + 1 >= |s| then None
      else LastSlashBeforeId(s, q + d + 2, DotRunEnd(s, q + d + 1) - 1)
  }

  /** `(?:v|e(?:mbed)?)\/` from `q`. */
  function KeywordForm(s: string, q: nat): (start: Option<nat>)
    requires q <= |s|
    ensures start.Some? ==> q + 2 <= start.value && IdAt(s, start.value)
    ensures start.Some? ==> s[q..start.value] == "v/" || s[q..start.value] == "embed/" || s[q..start.value] == "e/"
  {
    if StartsWith(s[q..], "v/") && IdAt(s, q + 2) then Some(q + 2)
    else if StartsWith(s[q..], "embed/") && IdAt(s, q + 6) then Some(q + 6)
    else if StartsWith(s[q..], "e/") && IdAt(s, q + 2) then Some(q + 2)
    else None
  }

  /** `.*[?&]v=` from `q`. */
  function QueryForm(s: string, q: nat): (start: Option<nat>)
    requires q <= |s|
    ensures start.Some? ==> q + 3 <= start.value && IdAt(s, start.value)
    ensures start.Some? ==> QueryIdAt(s, start.value - 3)
  {
    LastQueryBeforeId(s, q, DotRunEnd(s, q) - 1)
  }

  /** Where the id starts when the pattern matches at `p`, its three `youtube.com/` forms tried in order. */
  function MatchAt(s: string, p: nat): (start: Option<nat>)
    requires p <= |s|
    ensures start.Some? ==> p < start.value && IdAt(s, start.value)
    ensures start.Some? ==> StartsWith(s[p..], YouTubeHost) || StartsWith(s[p..], ShortHost)
  {
    if StartsWith(s[p..], YouTubeHost) then
      var q := p + |YouTubeHost|;
      var path := PathForm(s, q);
      if path.Some? then path
      else
        var keyword := KeywordForm(s, q);
        if keyword.Some? then keyword else QueryForm(s, q)
    else if StartsWith(s[p..], ShortHost) && IdAt(s, p + |ShortHost|) then Some(p + |ShortHost|)
    else None
  }

  /** The leftmost match at or after `p`. */
  function FirstMatchFrom(s: string, p: nat): (start: Option<nat>)
    requires p <= |s|
    ensures start.Some? ==> p < start.value && IdAt(s, start.value)
    decreases |s| - p
  {
    var here := MatchAt(s, p);
    if here.Some? then here
    else if p == |s| then None
    else FirstMatchFrom(s, p + 1)
  }

  /** `url.match(pattern)?.[1]`. */
  function YouTubeId(s: string): (id: Option<string>)
    ensures id.Some? ==> |id.value| == IdLength && forall i :: 0 <= i < |id.value| ==> IsIdChar(id.value[i])
  {
    match FirstMatchFrom(s, 0)
    case None => None
    case Some(k) => Some(s[k..k + IdLength])
  }

  /** What the search finds is the match at some position. */
  lemma {:induction false} FirstMatchIsAMatch(s: string, p: nat) returns (h: nat)
    requires p <= |s| && FirstMatchFrom(s, p).Some?
    ensures p <= h <= |s| && MatchAt(s, h) == FirstMatchFrom(s, p)
    ensures forall j :: p <= j < h ==> MatchAt(s, j).None?
    decreases |s| - p
  {
    if MatchAt(s, p).Some? {
      h := p;
    } else {
      assert p < |s| && FirstMatchFrom(s, p) == FirstMatchFrom(s, p + 1);
      var none := MatchAt(s, p);
      h := FirstMatchIsAMatch(s, p + 1);
      forall j | p <= j < h
        ensures MatchAt(s, j).None?
      {
        if j == p {
          assert MatchAt(s, j) == none;
        }
      }
    }
  }

  /** A match needs `youtube.com/` or `youtu.be/` in the text. */
  lemma YouTubeIdNeedsHost(s: string)
    ensures YouTubeId(s).Some? ==> Contains(s, YouTubeHost) || Contains(s, ShortHost)
  {
    var m := FirstMatchFrom(s, 0);
    if m.Some? {
      var h := FirstMatchIsAMatch(s, 0);
      if StartsWith(s[h..], YouTubeHost) {
        assert OccursAt(s, YouTubeHost, h);
      } else {
        assert OccursAt(s, ShortHost, h);
      }
    }
  }

  /** The id is copied out of the text. */
  lemma YouTubeIdOccurs(s: string)
    ensures YouTubeId(s).Some? ==> Contains(s, YouTubeId(s).value)
  {
    var m := FirstMatchFrom(s, 0);
    if m.Some? {
      assert OccursAt(s, YouTubeId(s).value, m.value);
    }
  }

  /** The search reaches a position where the pattern matches. */
  lemma {:induction false} FirstMatchReaches(s: string, p: nat, h: nat)
    requires p <= h <= |s| && MatchAt(s, h).Some?
    ensures FirstMatchFrom(s, p).Some?
    decreases h - p
  {
    if p < h && MatchAt(s, p).None? {
      FirstMatchReaches(s, p + 1, h);
    }
  }

  /** An earlier position where the pattern does not match is skipped. */
  lemma {:induction false} FirstMatchSkips(s: string, p: nat, h: nat)
    requires p <= h <= |s|
    requires forall j :: p <= j < h ==> MatchAt(s, j).None?
    ensures FirstMatchFrom(s, p) == FirstMatchFrom(s, h)
    decreases h - p
  {
    if p < h {
      FirstMatchSkips(s, p + 1, h);
    }
  }

  /** No match starts where the text has no `y`. */
  lemma NoMatchWithoutY(s: string, p: nat)
    requires p < |s| && s[p] != 'y'
    ensures MatchAt(s, p).None?
  {
  }

  /** Eleven id characters. */
  predicate IsVideoId(id: string) {
    |id| == IdLength && forall i :: 0 <= i < |id| ==> IsIdChar(id[i])
  }

  /** Without a line terminator from `i` on, `.*` runs to the end. */
  lemma {:induction false} DotRunToEnd(s: string, i: nat)
    requires i <= |s| && forall k :: i <= k < |s| ==> !IsLineTerminator(s[k])
    ensures DotRunEnd(s, i) == |s|
    decreases |s| - i
  {
    if i < |s| {
      DotRunToEnd(s, i + 1);
    }
  }

  /** With no slash from `lo` to `k`, `.+\/` finds nothing. */
  lemma {:induction false} NoSlashNoPath(s: string, lo: nat, k: int)
    requires k < |s| && forall j :: lo <= j <= k ==> s[j] != '/'
    ensures LastSlashBeforeId(s, lo, k).None?
    decreases k + 1 - lo
  {
    if k >= lo {
      NoSlashNoPath(s, lo, k - 1);
    }
  }

  /** The greedy `.*` backs off over characters that are neither `?` nor `&`. */
  lemma {:induction false} QueryBacksOffTo(s: string, lo: nat, t: nat, k: int)
    requires lo <= t <= k < |s|
    requires forall j :: t < j <= k ==> s[j] != '?' && s[j] != '&'
    ensures LastQueryBeforeId(s, lo, k) == LastQueryBeforeId(s, lo, t)
    decreases k - t
  {
    if t < k {
      QueryBacksOffTo(s, lo, t, k - 1);
    }
  }

  /** An id is made of characters `.` matches, none of them `/`, `?` or `&`. */
  lemma VideoIdChars(id: string)
    requires IsVideoId(id)
    ensures forall i :: 0 <= i < |id| ==> !IsLineTerminator(id[i]) && id[i] != '/' && id[i] != '?' && id[i] != '&'
  {
  }

  /** Positions before the first `y` are skipped. */
  lemma SkipPrefixWithoutY(s: string, n: nat)
    requires n <= |s| && 'y' !in s[..n]
    ensures FirstMatchFrom(s, 0) == FirstMatchFrom(s, n)
  {
    forall j | 0 <= j < n ensures MatchAt(s, j).None? {
      assert s[j] == s[..n][j];
      NoMatchWithoutY(s, j);
    }
    FirstMatchSkips(s, 0, n);
  }

  /** `youtu.be/` followed by an id matches there. */
  lemma ShortHostMatch(s: string, p: nat)
    requires p + |ShortHost| <= |s| && s[p..p + |ShortHost|] == ShortHost && IdAt(s, p + |ShortHost|)
    ensures FirstMatchFrom(s, p) == Some(p + |ShortHost|)
  {
    ShortHostIsNotLongHost(s[p..]);
    assert s[p..][..|ShortHost|] == ShortHost;
  }

  lemma ShortHostIsNotLongHost(t: string)
    requires StartsWith(t, ShortHost)
    ensures !StartsWith(t, YouTubeHost)
  {
    assert t[5] == ShortHost[5];
  }

  /** After `youtube.com/`, the three forms are tried in order. */
  lemma YouTubeHostMatch(s: string, p: nat, start: nat)
    requires p + |YouTubeHost| <= |s| && s[p..p + |YouTubeHost|] == YouTubeHost
    requires var q := p + |YouTubeHost|;
             PathForm(s, q) == Some(start) ||
             (PathForm(s, q).None? && KeywordForm(s, q) == Some(start)) ||
             (PathForm(s, q).None? && KeywordForm(s, q).None? && QueryForm(s, q) == Some(start))
    ensures FirstMatchFrom(s, p) == Some(start)
  {
    assert s[p..][..|YouTubeHost|] == YouTubeHost;
  }

  /** An id copied into the text is an id at that position. */
  lemma IdAtCopy(s: string, n: nat, id: string)
    requires n + |id| <= |s| && s[n..n + |id|] == id && IsVideoId(id)
    ensures IdAt(s, n)
  {
    forall k | n <= k < n + IdLength ensures IsIdChar(s[k]) {
      assert s[k] == id[k - n];
    }
  }

  /** The id is found after a stretch with no `y`, then `youtu.be/`. */
  lemma ShortLinkAt(s: string, n: nat, id: string)
    requires n + |ShortHost| + IdLength <= |s| && 'y' !in s[..n]
    requires s[n..n + |ShortHost|] == ShortHost && s[n + |ShortHost|..n + |ShortHost| + IdLength] == id && IsVideoId(id)
    ensures YouTubeId(s) == Some(id)
  {
    SkipPrefixWithoutY(s, n);
    IdAtCopy(s, n + |ShortHost|, id);
    ShortHostMatch(s, n);
  }

  /** The id after a text with no `y`, then `youtu.be/`, whatever follows it. */
  lemma ShortLinkId(pre: string, id: string, rest: string)
    requires 'y' !in pre && IsVideoId(id)
    ensures YouTubeId(pre + ShortHost + id + rest) == Some(id)
  {
    var s := pre + ShortHost + id + rest;
    var n := |pre|;
    assert s[..n] == pre;
    assert s[n..n + |ShortHost|] == ShortHost;
    assert s[n + |ShortHost|..n + |ShortHost| + IdLength] == id;
    ShortLinkAt(s, n, id);
  }

  /** The `watch?v=` form: no path slash, no keyword, then the query. */
  lemma WatchForms(s: string, q: nat, id: string)
    requires q <= |s| && s[q..] == "watch?v=" + id && IsVideoId(id)
    ensures PathForm(s, q).None? && KeywordForm(s, q).None?
    ensures QueryForm(s, q) == Some(q + 8)
  {
    VideoIdChars(id);
    assert forall k :: q + 8 <= k < |s| ==> s[k] == id[k - q - 8];
    assert PathForm(s, q).None? by {
      assert '/' !in s[q..];
    }
    assert KeywordForm(s, q).None? by {
      assert s[q..][0] == 'w';
    }
    DotRunToEnd(s, q);
    QueryBacksOffTo(s, q, q + 5, |s| - 1);
  }

  /** The id is found after a stretch with no `y`, then `youtube.com/watch?v=`. */
  lemma WatchLinkAt(s: string, n: nat, id: string)
    requires n + |YouTubeHost| <= |s| && 'y' !in s[..n]
    requires s[n..n + |YouTubeHost|] == YouTubeHost && s[n + |YouTubeHost|..] == "watch?v=" + id && IsVideoId(id)
    ensures YouTubeId(s) == Some(id)
  {
    var q := n + |YouTubeHost|;
    SkipPrefixWithoutY(s, n);
    WatchForms(s, q, id);
    YouTubeHostMatch(s, n, q + 8);
    assert s[q + 8..q + 8 + IdLength] == s[q..][8..8 + IdLength] == id;
  }

  /** The id after a text with no `y`, then `youtube.com/watch?v=`. */
  lemma WatchLinkId(pre: string, id: string)
    requires 'y' !in pre && IsVideoId(id)
    ensures YouTubeId(pre + YouTubeHost + "watch?v=" + id) == Some(id)
  {
    var s := pre + YouTubeHost + "watch?v=" + id;
    var n := |pre|;
    assert s[..n] == pre;
    assert s[n..n + |YouTubeHost|] == YouTubeHost;
    assert s[n + |YouTubeHost|..] == "watch?v=" + id;
    WatchLinkAt(s, n, id);
  }

  /** A short link as people paste it. */
  lemma ShortLinkExample(url: string, id: string)
    requires IsVideoId(id) && url == "https://youtu.be/" + id
    ensures YouTubeId(url) == Some(id)
  {
    assert url[..8] == "https://";
    assert url[8..17] == ShortHost;
    assert url[17..28] == id;
    ShortLinkAt(url, 8, id);
  }

  /** A `watch?v=` link as people paste it. */
  lemma WatchLinkExample(url: string, id: string)
    requires IsVideoId(id) && url == "https://www.youtube.com/watch?v=" + id
    ensures YouTubeId(url) == Some(id)
  {
    assert url[..12] == "https://www.";
    assert url[12..24] == YouTubeHost;
    assert url[24..] == "watch?v=" + id;
    WatchLinkAt(url, 12, id);
  }

  // ---------------------------------------------------------------------------
  // The embed address

  const YouTubeEmbedPrefix: string := "https://www.youtube.com/embed/"
  const YouTubeEmbedQuery: string := "?autoplay=0&controls=1"
  const FacebookEmbedPrefix: string := "https://www.facebook.com/plugins/video.php?href="
  const FacebookEmbedQuery: string := "&show_text=false&autoplay=false"

  function YouTubeEmbed(id: string): string {
    YouTubeEmbedPrefix + id + YouTubeEmbedQuery
  }

  function FacebookEmbed(clean: string): string {
    FacebookEmbedPrefix + EncodeUriComponent(clean) + FacebookEmbedQuery
  }

  /** `getVideoEmbedUrl(url)`. */
  function VideoEmbedUrl(url: string): (embed: string)
    ensures var clean := Trim(url);
            YouTubeId(clean).Some? ==> embed == YouTubeEmbed(YouTubeId(clean).value)
    ensures var clean := Trim(url);
            YouTubeId(clean).None? && Contains(clean, "facebook.com") ==> embed == FacebookEmbed(clean)
    ensures var clean := Trim(url);
            YouTubeId(clean).None? && !Contains(clean, "facebook.com") ==> embed == clean
  {
    var clean := Trim(url);
    YouTubeIdHasHostName(clean);
    var id := if Contains(clean, "youtube.com") || Contains(clean, "youtu.be") then YouTubeId(clean) else None;
    if id.Some? then YouTubeEmbed(id.value)
    else if Contains(clean, "facebook.com") then FacebookEmbed(clean)
    else clean
  }

  /** A text containing `youtube.com/` contains `youtube.com`, and likewise for `youtu.be`. */
  lemma YouTubeIdHasHostName(s: string)
    ensures YouTubeId(s).Some? ==> Contains(s, "youtube.com") || Contains(s, "youtu.be")
  {
    YouTubeIdNeedsHost(s);
    if Contains(s, YouTubeHost) {
      var i :| 0 <= i <= |s| - |YouTubeHost| && OccursAt(s, YouTubeHost, i);
      assert s[i..i + 11] == s[i..i + 12][..11];
      assert OccursAt(s, "youtube.com", i);
    } else if Contains(s, ShortHost) {
      var i :| 0 <= i <= |s| - |ShortHost| && OccursAt(s, ShortHost, i);
      assert s[i..i + 8] == s[i..i + 9][..8];
      assert OccursAt(s, "youtu.be", i);
    }
  }

  /** The first `/` of `t` is at `k`. */
  lemma IndexOfSlashAt(t: string, k: nat)
    requires k < |t| && t[k] == '/' && '/' !in t[..k]
    ensures IndexOf(t, '/') == Some(k)
  {
    assert t[k] in t;
  }

  /** A segment, its slash, then nothing `.+\/` can use: the path form fails. */
  lemma PathFormFails(s: string, q: nat, d: nat)
    requires q + d + 1 < |s| && 0 < d && IndexOf(s[q..], '/') == Some(d)
    requires forall k :: q + d + 1 <= k < |s| ==> s[k] != '/' && !IsLineTerminator(s[k])
    ensures PathForm(s, q).None?
  {
    DotRunToEnd(s, q + d + 1);
    NoSlashNoPath(s, q + d + 2, |s| - 1);
  }

  /** A character `.` matches that is not `/`. */
  predicate PathFree(c: char) {
    c != '/' && !IsLineTerminator(c)
  }

  lemma EmbedQueryPathFree()
    ensures forall k :: 0 <= k < |YouTubeEmbedQuery| ==> PathFree(YouTubeEmbedQuery[k])
  {
  }

  /** Neither a slash nor a line terminator follows the id in an embed address. */
  lemma EmbedTailClean(id: string)
    requires IsVideoId(id)
    ensures forall k :: 0 <= k < |id + YouTubeEmbedQuery| ==> PathFree((id + YouTubeEmbedQuery)[k])
  {
    VideoIdChars(id);
    EmbedQueryPathFree();
    var u := id + YouTubeEmbedQuery;
    forall k | 0 <= k < |u| ensures PathFree(u[k]) {
      if k >= |id| {
        assert u[k] == YouTubeEmbedQuery[k - |id|];
      }
    }
  }

  /** The `embed/` form: the path slash has no later slash, so the keyword matches. */
  lemma EmbedForms(s: string, q: nat, id: string)
    requires q <= |s| && s[q..] == "embed/" + (id + YouTubeEmbedQuery) && IsVideoId(id)
    ensures PathForm(s, q).None? && KeywordForm(s, q) == Some(q + 6)
  {
    var t := s[q..];
    assert t[..5] == "embed" && t[5] == '/';
    IndexOfSlashAt(t, 5);
    EmbedTailClean(id);
    assert forall k :: q + 6 <= k < |s| ==> s[k] == (id + YouTubeEmbedQuery)[k - q - 6];
    assert forall k :: q + 6 <= k < |s| ==> PathFree(s[k]);
    PathFormFails(s, q, 5);
    assert t[..6] == "embed/";
    assert s[q + 6..q + 6 + IdLength] == id;
    IdAtCopy(s, q + 6, id);
  }

  /** The id is found after a stretch with no `y`, then `youtube.com/embed/`. */
  lemma EmbedLinkAt(s: string, n: nat, id: string)
    requires n + |YouTubeHost| <= |s| && 'y' !in s[..n] && IsVideoId(id)
    requires s[n..n + |YouTubeHost|] == YouTubeHost && s[n + |YouTubeHost|..] == "embed/" + (id + YouTubeEmbedQuery)
    ensures YouTubeId(s) == Some(id)
  {
    var q := n + |YouTubeHost|;
    SkipPrefixWithoutY(s, n);
    EmbedForms(s, q, id);
    YouTubeHostMatch(s, n, q + 6);
    MiddleSlice(s, q, "embed/", id, YouTubeEmbedQuery);
  }

  /** The middle piece of a suffix read back out of the whole text. */
  lemma MiddleSlice(s: string, q: nat, a: string, b: string, c: string)
    requires q <= |s| && s[q..] == a + (b + c)
    ensures s[q + |a|..q + |a| + |b|] == b
  {
    var t := s[q..];
    forall k | 0 <= k < |b| ensures s[q + |a| + k] == b[k] {
      assert s[q + |a| + k] == t[|a| + k];
      assert t[|a| + k] == (b + c)[k];
    }
  }

  /** How an embed address splits around the host. */
  lemma EmbedAddressPieces(id: string)
    ensures var s := YouTubeEmbed(id);
            |s| >= 24 && s[..12] == "https://www." && s[12..24] == YouTubeHost &&
            s[24..] == "embed/" + (id + YouTubeEmbedQuery)
  {
    var s := YouTubeEmbed(id);
    assert s == "https://www." + YouTubeHost + ("embed/" + (id + YouTubeEmbedQuery));
  }

  /** The id is read back out of an embed address. */
  lemma EmbedAddressId(id: string)
    requires IsVideoId(id)
    ensures YouTubeId(YouTubeEmbed(id)) == Some(id)
  {
    EmbedAddressPieces(id);
    EmbedLinkAt(YouTubeEmbed(id), 12, id);
  }

  /** The player address is stable: embedding an embed address gives it back. */
  lemma YouTubeEmbedIsFixedPoint(id: string)
    requires IsVideoId(id)
    ensures VideoEmbedUrl(YouTubeEmbed(id)) == YouTubeEmbed(id)
  {
    var s := YouTubeEmbed(id);
    assert s[0] == 'h' && s[|s| - 1] == '1';
    TrimOfTrimmed(s);
    EmbedAddressId(id);
  }

  /** A Facebook address with no YouTube host in it gets the Facebook player. */
  lemma FacebookLinkEmbed(url: string)
    requires Contains(Trim(url), "facebook.com")
    requires !Contains(Trim(url), YouTubeHost) && !Contains(Trim(url), ShortHost)
    ensures VideoEmbedUrl(url) == FacebookEmbed(Trim(url))
  {
    YouTubeIdNeedsHost(Trim(url));
  }

  /** The Facebook player receives the whole address as one `href` value, and gets it back on decoding. */
  lemma FacebookHrefCarriesUrl(clean: string)
    requires forall i :: 0 <= i < |clean| ==> IsAscii(clean[i])
    ensures var e := FacebookEmbed(clean);
            var href := e[|FacebookEmbedPrefix|..|e| - |FacebookEmbedQuery|];
            DecodeAscii(href) == clean && '&' !in href && '#' !in href
  {
    var e := FacebookEmbed(clean);
    var enc := EncodeUriComponent(clean);
    assert e[|FacebookEmbedPrefix|..|e| - |FacebookEmbedQuery|] == enc;
    DecodeEncodeAscii(clean);
    EncodedHasNoDelimiters(clean);
  }

  /** An address with no recognised host is played as it is, trimmed. */
  lemma PlainUrlPassesThrough(url: string)
    requires !Contains(Trim(url), YouTubeHost) && !Contains(Trim(url), ShortHost) && !Contains(Trim(url), "facebook.com")
    ensures VideoEmbedUrl(url) == Trim(url)
  {
    YouTubeIdNeedsHost(Trim(url));
  }

  // ---------------------------------------------------------------------------
  // The screen

  /** `siteConfig?.live_video_url || siteConfig?.fallback_video_url || ''`. */
  function VideoUrl(config: Option<SiteConfigRow>): (url: string)
    ensures config.Some? && config.value.live_video_url != "" ==> url == config.value.live_video_url
    ensures config.Some? && config.value.live_video_url == "" ==> url == config.value.fallback_video_url
    ensures config.None? ==> url == ""
  {
    match config
    case None => ""
    case Some(c) => if c.live_video_url != "" then c.live_video_url else c.fallback_video_url
  }

  /** There is nothing to play exactly when there is no configuration or both URLs are empty. */
  lemma NoVideoIff(config: Option<SiteConfigRow>)
    ensures VideoUrl(config) == "" <==>
              config.None? || (config.value.live_video_url == "" && config.value.fallback_video_url == "")
  {
  }

  /** The header: the broadcast name, and "date at time" only when both are given. */
  datatype Header = Header(name: Option<string>, schedule: Option<string>)

  function HeaderOf(c: SiteConfigRow): (h: Header)
    ensures h.name.Some? <==> c.broadcast_name != ""
    ensures h.name.Some? ==> h.name.value == c.broadcast_name
    ensures h.schedule.Some? <==> c.broadcast_date != "" && c.broadcast_time != ""
    ensures h.schedule.Some? ==> h.schedule.value == c.broadcast_date + " at " + c.broadcast_time
  {
    Header(
      if c.broadcast_name != "" then Some(c.broadcast_name) else None,
      if c.broadcast_date != "" && c.broadcast_time != "" then Some(c.broadcast_date + " at " + c.broadcast_time) else None)
  }

  /** The spinner, the "No broadcast available" notice, or the player under its header. */
  datatype BroadcastView =
    | Spinner
    | NoBroadcast
    | Player(header: Header, embedUrl: string, videoSpinner: bool)

  function Screen(loading: bool, config: Option<SiteConfigRow>, videoLoading: bool): (v: BroadcastView)
    ensures v.Spinner? <==> loading
    ensures v.NoBroadcast? <==> !loading && VideoUrl(config) == ""
    ensures v.Player? ==> config.Some? && v.header == HeaderOf(config.value)
    ensures v.Player? ==> v.embedUrl == VideoEmbedUrl(VideoUrl(config)) && v.videoSpinner == videoLoading
  {
    if loading then Spinner
    else
      var videoUrl := VideoUrl(config);
      if videoUrl == "" then NoBroadcast
      else Player(HeaderOf(config.value), VideoEmbedUrl(videoUrl), videoLoading)
  }

  /**
   * A live URL of blanks is truthy: the fallback is never consulted and the
   * player is given an empty address.
   */
  lemma BlankLiveUrlHidesFallback(c: SiteConfigRow, videoLoading: bool)
    requires c.live_video_url != "" && AllSpace(c.live_video_url)
    ensures Screen(false, Some(c), videoLoading) == Player(HeaderOf(c), "", videoLoading)
  {
    TrimEmptyIffAllSpace(c.live_video_url);
    assert !Contains("", "facebook.com");
  }

  /** The screen's state: the `useState` hooks of the component. */
  class BroadcastState {
    var loading: bool
    var siteConfig: Option<SiteConfigRow>
    var videoLoading: bool

    constructor ()
      ensures loading && siteConfig.None? && videoLoading
    {
      loading := true;
      siteConfig := None;
      videoLoading := true;
    }

    /** The configuration is fetched; whatever arrives, the spinner stops. */
    method LoadData(fetch: Fetch<SiteConfigRow>)
      modifies this
      ensures siteConfig == GetSiteConfig(fetch)
      ensures !loading && videoLoading == old(videoLoading)
    {
      var config := GetSiteConfig(fetch);
      siteConfig := config;
      loading := false;
    }

    /** The player starts loading a page. */
    method OnLoadStart()
      modifies this
      ensures videoLoading
      ensures loading == old(loading) && siteConfig == old(siteConfig)
    {
      videoLoading := true;
    }

    /** The player finished loading a page. */
    method OnLoadEnd()
      modifies this
      ensures !videoLoading
      ensures loading == old(loading) && siteConfig == old(siteConfig)
    {
      videoLoading := false;
    }

    function View(): (v: BroadcastView)
      reads this
      ensures v.Spinner? <==> loading
      ensures v.Player? ==> v.videoSpinner == videoLoading
    {
      Screen(loading, siteConfig, videoLoading)
    }
  }
}
