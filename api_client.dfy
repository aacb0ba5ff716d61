/**
 * The API client: the URL normaliser `toAbsoluteUrl`, the response envelope and
 * the unwrap-or-default rule that every resource operation follows.
 *
 * The HTTP transport is not modelled: what the server answers for a request
 * path is a parameter `fetch`, an `Outcome` that is either a failure (network
 * error, timeout, non-2xx status, a body that is not an envelope) or an
 * envelope as decoded from JSON.
 */
module ApiClient {
  import opened Wrappers
  import opened JsText
  import opened Types

  /** The configured base URL of every request. */
  const ApiBase: string := "https://masjidaltaubah.co.za/api"

  /** `/api` or `/api/` (letters in any case), the whole of `t`. */
  predicate IsApiSuffix(t: string) {
    StartsWithIgnoringCase(t, "/api") && (|t| == 4 || (|t| == 5 && t[4] == '/'))
  }

  /**
   * `base.replace(/\/api\/?$/i, '')`: removes a trailing `/api` or `/api/`.
   * The leftmost match wins, so a trailing `/api/` goes as a whole.
   */
  function StripApiSuffix(base: string): (origin: string)
    ensures StartsWith(base, origin)
    ensures origin == base <==> (!(|base| >= 5 && IsApiSuffix(base[|base| - 5..]))
                                 && !(|base| >= 4 && IsApiSuffix(base[|base| - 4..])))
    ensures origin != base ==> IsApiSuffix(base[|origin|..])
    ensures |base| >= 5 && IsApiSuffix(base[|base| - 5..]) ==> |origin| == |base| - 5
  {
    if |base| >= 5 && IsApiSuffix(base[|base| - 5..]) then base[..|base| - 5]
    else if |base| >= 4 && IsApiSuffix(base[|base| - 4..]) then base[..|base| - 4]
    else base
  }

  /** The origin prepended to root-relative paths. */
  const Origin: string := StripApiSuffix(ApiBase)

  lemma OriginValue()
    ensures Origin == "https://masjidaltaubah.co.za"
  {
    var b := ApiBase;
    assert |b| == 32;
    var t5 := b[27..];
    assert t5 == "a/api";
    assert !IsApiSuffix(t5) by { assert LowerAscii(t5[0]) != '/'; }
    var t4 := b[28..];
    assert t4 == "/api";
    assert IsApiSuffix(t4) by {
      forall i | 0 <= i < 4 ensures LowerAscii(t4[i]) == "/api"[i] {
      }
    }
    assert b[..28] == "https://masjidaltaubah.co.za";
  }

  /** The trimmed URL starts with `http://` or `https://`, in any case. */
  predicate HasHttpScheme(u: string) {
    StartsWithIgnoringCase(u, "http://") || StartsWithIgnoringCase(u, "https://")
  }

  /**
   * `toAbsoluteUrl(url)`: trims; an empty result stays empty, an `http(s)://`
   * URL is returned as it is, a root-relative path gets the origin in front,
   * anything else is returned trimmed. (`null` and `undefined` reach the
   * function as `""` through `url || ''`.)
   */
  function ToAbsoluteUrl(url: string): (r: string)
    ensures IsTrimmed(r)
    ensures r == [] <==> AllSpace(url)
    ensures HasHttpScheme(Trim(url)) ==> r == Trim(url)
    ensures Trim(url) != [] && Trim(url)[0] == '/' ==> r == "https://masjidaltaubah.co.za" + Trim(url)
    ensures Trim(url) != [] && Trim(url)[0] != '/' && !HasHttpScheme(Trim(url)) ==> r == Trim(url)
  {
    TrimEmptyIffAllSpace(url);
    var u := Trim(url);
    if u == [] then ""
    else if HasHttpScheme(u) then u
    else if u[0] == '/' then
      OriginJoin(u);
      Origin + u
    else u
  }

  /** The origin in front of a non-empty trimmed path leaves the result trimmed. */
  lemma OriginJoin(u: string)
    requires u != [] && IsTrimmed(u)
    ensures Origin + u == "https://masjidaltaubah.co.za" + u
    ensures IsTrimmed(Origin + u)
  {
    OriginValue();
    var r := Origin + u;
    assert r[0] == 'h' && r[|r| - 1] == u[|u| - 1];
  }

  /** `toAbsoluteUrl("/img/a.png")`. */
  lemma RootRelativeExample(u: string)
    requires u == "/img/a.png"
    ensures ToAbsoluteUrl(u) == "https://masjidaltaubah.co.za/img/a.png"
  {
    assert u[0] == '/' && u[|u| - 1] == 'g';
    TrimOfTrimmed(u);
  }

  /** A trimmed path that neither starts with `/` nor names a scheme is kept as it is. */
  lemma RelativePathKept(u: string)
    requires u != [] && IsTrimmed(u) && u[0] != '/' && !HasHttpScheme(u)
    ensures ToAbsoluteUrl(u) == u
  {
    TrimOfTrimmed(u);
  }

  /** `toAbsoluteUrl("img/a.png")`: a relative path without a leading slash gets no origin. */
  lemma BareRelativeExample(u: string)
    requires u == "img/a.png"
    ensures ToAbsoluteUrl(u) == u
  {
    var c := u[0];
    assert c == 'i' && u[|u| - 1] == 'g';
    assert !HasHttpScheme(u) by {
      assert LowerAscii(c) == 'i';
      assert "http://"[0] == 'h' && "https://"[0] == 'h';
    }
    RelativePathKept(u);
  }

  /** Everything that starts with the origin already counts as absolute. */
  lemma OriginPrefixIsHttp(u: string)
    ensures HasHttpScheme("https://masjidaltaubah.co.za" + u)
  {
    var r := "https://masjidaltaubah.co.za" + u;
    forall i | 0 <= i < 8 ensures LowerAscii(r[i]) == "https://"[i] {
    }
  }

  /** Normalising twice is normalising once. */
  lemma ToAbsoluteUrlIdempotent(url: string)
    ensures ToAbsoluteUrl(ToAbsoluteUrl(url)) == ToAbsoluteUrl(url)
  {
    var r := ToAbsoluteUrl(url);
    TrimOfTrimmed(r);
    var u := Trim(url);
    if u == [] {
      TrimEmptyIffAllSpace(url);
      assert r == [];
    } else if HasHttpScheme(u) {
      assert r == u;
    } else if u[0] == '/' {
      OriginPrefixIsHttp(u);
      assert r == "https://masjidaltaubah.co.za" + u;
      assert HasHttpScheme(Trim(r));
    } else {
      assert r == u;
      assert Trim(r) == u;
    }
  }

  // ---------------------------------------------------------------------------
  // The response envelope and the resource operations

  /** `{ ok, data?, error? }`, the shape of every response body. */
  datatype Envelope<T> = Envelope(ok: bool, data: Option<T>, error: Option<string>)

  /** How a single GET ends: it throws inside the operation, or an envelope arrives. */
  datatype Outcome<T> = Failed | Answered(body: Envelope<T>)

  /** The server's answer for each request path. */
  type Fetch<T> = string -> Outcome<T>

  /** The request brought a `data` field. */
  predicate Delivers<T>(o: Outcome<T>) {
    o.Answered? && o.body.data.Some?
  }

  /** `response.data.data || []`, with `[]` from the catch block as well. */
  function ListOrEmpty<T>(o: Outcome<seq<T>>): (rows: seq<T>)
    ensures Delivers(o) ==> rows == o.body.data.value
    ensures !Delivers(o) ==> rows == []
  {
    match o
    case Answered(Envelope(_, Some(rows), _)) => rows
    case _ => []
  }

  /** `response.data.data || null`, with `null` from the catch block as well. */
  function RowOrNull<T>(o: Outcome<T>): (row: Option<T>)
    ensures row.Some? <==> Delivers(o)
    ensures row.Some? ==> row.value == o.body.data.value
  {
    match o
    case Answered(Envelope(_, Some(r), _)) => Some(r)
    case _ => None
  }

  /** The resources the client reads. */
  datatype Endpoint =
    | SiteContent | Events | Programs | Contacts | Gallery | FooterLinks
    | Announcements | AnnouncementBySlug(slug: string) | AnnouncementCategories

  /** The path each operation requests, relative to the base URL. */
  function Path(e: Endpoint): string {
    match e
    case SiteContent => "/content/site"
    case Events => "/events"
    case Programs => "/programs"
    case Contacts => "/contacts"
    case Gallery => "/gallery"
    case FooterLinks => "/footer-links"
    case Announcements => "/announcements"
    case AnnouncementBySlug(slug) => "/announcements/" + slug
    case AnnouncementCategories => "/announcement-categories"
  }

  function GetSiteConfig(fetch: Fetch<SiteConfigRow>): (config: Option<SiteConfigRow>)
    ensures config.Some? <==> Delivers(fetch("/content/site"))
    ensures config.Some? ==> config.value == fetch("/content/site").body.data.value
  {
    RowOrNull(fetch(Path(SiteContent)))
  }

  function GetEvents(fetch: Fetch<seq<EventRow>>): (rows: seq<EventRow>)
    ensures Delivers(fetch("/events")) ==> rows == fetch("/events").body.data.value
    ensures !Delivers(fetch("/events")) ==> rows == []
  {
    ListOrEmpty(fetch(Path(Events)))
  }

  function GetPrograms(fetch: Fetch<seq<ProgramRow>>): (rows: seq<ProgramRow>)
    ensures Delivers(fetch("/programs")) ==> rows == fetch("/programs").body.data.value
    ensures !Delivers(fetch("/programs")) ==> rows == []
  {
    ListOrEmpty(fetch(Path(Programs)))
  }

  function GetContacts(fetch: Fetch<seq<ContactRow>>): (rows: seq<ContactRow>)
    ensures Delivers(fetch("/contacts")) ==> rows == fetch("/contacts").body.data.value
    ensures !Delivers(fetch("/contacts")) ==> rows == []
  {
    ListOrEmpty(fetch(Path(Contacts)))
  }

  function GetGallery(fetch: Fetch<seq<GalleryRow>>): (rows: seq<GalleryRow>)
    ensures Delivers(fetch("/gallery")) ==> rows == fetch("/gallery").body.data.value
    ensures !Delivers(fetch("/gallery")) ==> rows == []
  {
    ListOrEmpty(fetch(Path(Gallery)))
  }

  function GetFooterLinks(fetch: Fetch<seq<FooterLinkRow>>): (rows: seq<FooterLinkRow>)
    ensures Delivers(fetch("/footer-links")) ==> rows == fetch("/footer-links").body.data.value
    ensures !Delivers(fetch("/footer-links")) ==> rows == []
  {
    ListOrEmpty(fetch(Path(FooterLinks)))
  }

  function GetAnnouncements(fetch: Fetch<seq<AnnouncementRow>>): (rows: seq<AnnouncementRow>)
    ensures Delivers(fetch("/announcements")) ==> rows == fetch("/announcements").body.data.value
    ensures !Delivers(fetch("/announcements")) ==> rows == []
  {
    ListOrEmpty(fetch(Path(Announcements)))
  }

  /** The slug goes into the path as it is, without escaping. */
  function GetAnnouncementBySlug(fetch: Fetch<AnnouncementRow>, slug: string): (row: Option<AnnouncementRow>)
    ensures row.Some? <==> Delivers(fetch("/announcements/" + slug))
    ensures row.Some? ==> row.value == fetch("/announcements/" + slug).body.data.value
  {
    RowOrNull(fetch(Path(AnnouncementBySlug(slug))))
  }

  function GetAnnouncementCategories(fetch: Fetch<seq<AnnouncementCategoryRow>>): (rows: seq<AnnouncementCategoryRow>)
    ensures Delivers(fetch("/announcement-categories")) ==> rows == fetch("/announcement-categories").body.data.value
    ensures !Delivers(fetch("/announcement-categories")) ==> rows == []
  {
    ListOrEmpty(fetch(Path(AnnouncementCategories)))
  }

  /** The `ok` and `error` fields never change what an operation returns. */
  lemma EnvelopeFlagsIgnored<T>(ok1: bool, ok2: bool, e1: Option<string>, e2: Option<string>, d: Option<seq<T>>, one: Option<T>)
    ensures ListOrEmpty(Answered(Envelope(ok1, d, e1))) == ListOrEmpty(Answered(Envelope(ok2, d, e2)))
    ensures RowOrNull(Answered(Envelope(ok1, one, e1))) == RowOrNull(Answered(Envelope(ok2, one, e2)))
  {
  }

  /** A failed request and an empty list are indistinguishable to the caller. */
  lemma FailureLooksEmpty<T>(ok: bool, e: Option<string>)
    ensures ListOrEmpty<T>(Failed) == ListOrEmpty<T>(Answered(Envelope(ok, Some([]), e)))
    ensures ListOrEmpty<T>(Failed) == []
    ensures RowOrNull<T>(Failed) == RowOrNull<T>(Answered(Envelope(ok, None, e))) == None
  {
  }

  /** The client never invents rows: a non-empty list is exactly what the server sent. */
  lemma ListsComeFromServer<T>(o: Outcome<seq<T>>)
    ensures ListOrEmpty(o) != [] ==> o == Answered(Envelope(o.body.ok, Some(ListOrEmpty(o)), o.body.error))
  {
  }

  /** One event delivered in a successful envelope comes back as a one-row list, row untouched. */
  lemma EventsScenario(fetch: Fetch<seq<EventRow>>, row: EventRow)
    requires fetch("/events") == Answered(Envelope(true, Some([row]), None))
    ensures GetEvents(fetch) == [row]
  {
  }
}
