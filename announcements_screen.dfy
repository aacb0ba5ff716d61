/**
 * The announcements list: its state, the category filter behind the chips,
 * and what each card shows.
 */
module AnnouncementsScreen {
  import opened Wrappers
  import opened JsText
  import opened Types
  import opened ApiClient
  import opened Helpers

  // ---------------------------------------------------------------------------
  // The category filter

  /** `a.categories?.some(c => c.id === id)`: an announcement without categories has none. */
  predicate HasCategory(a: AnnouncementRow, id: string) {
    a.categories.Some? && exists i :: 0 <= i < |a.categories.value| && a.categories.value[i].id == id
  }

  /** `announcements.filter(...)` for one category id. */
  function FilterByCategory(anns: seq<AnnouncementRow>, id: string): (r: seq<AnnouncementRow>)
    ensures |r| <= |anns|
    ensures r == [] || HasCategory(r[0], id)
  {
    if anns == [] then []
    else (if HasCategory(anns[0], id) then [anns[0]] else []) + FilterByCategory(anns[1..], id)
  }

  /** An announcement is kept exactly when it is in the list and carries the category. */
  lemma {:induction false} FilterMembership(anns: seq<AnnouncementRow>, id: string)
    ensures forall a :: a in FilterByCategory(anns, id) <==> a in anns && HasCategory(a, id)
  {
    if anns != [] {
      FilterMembership(anns[1..], id);
      assert anns == [anns[0]] + anns[1..];
    }
  }

  /** A selected category is a non-empty string; `null` and `""` are both falsy. */
  predicate Selecting(selected: Option<string>) {
    selected.Some? && selected.value != ""
  }

  /** The announcements the list shows for the current selection. */
  function Displayed(anns: seq<AnnouncementRow>, selected: Option<string>): (r: seq<AnnouncementRow>)
    ensures !Selecting(selected) ==> r == anns
    ensures Selecting(selected) ==> forall a :: a in r <==> a in anns && HasCategory(a, selected.value)
  {
    if Selecting(selected) then
      FilterMembership(anns, selected.value);
      FilterByCategory(anns, selected.value)
    else anns
  }

  /** `xs` is `ys` with some elements dropped and the rest in their order. */
  predicate SubsequenceOf<T(==)>(xs: seq<T>, ys: seq<T>)
    decreases |ys|
  {
    if xs == [] then true
    else if ys == [] then false
    else (xs[0] == ys[0] && SubsequenceOf(xs[1..], ys[1..])) || SubsequenceOf(xs, ys[1..])
  }

  /** Filtering keeps the order of the announcements it keeps. */
  lemma {:induction false} FilterIsSubsequence(anns: seq<AnnouncementRow>, id: string)
    ensures SubsequenceOf(FilterByCategory(anns, id), anns)
  {
    if anns != [] {
      FilterIsSubsequence(anns[1..], id);
      var r := FilterByCategory(anns, id);
      if HasCategory(anns[0], id) {
        assert r[0] == anns[0] && r[1..] == FilterByCategory(anns[1..], id);
      } else {
        assert r == FilterByCategory(anns[1..], id);
      }
    }
  }

  /** Every announcement in the category is kept as often as it occurs; the others are dropped. */
  lemma {:induction false} FilterCounts(anns: seq<AnnouncementRow>, id: string, a: AnnouncementRow)
    ensures multiset(FilterByCategory(anns, id))[a] == if HasCategory(a, id) then multiset(anns)[a] else 0
  {
    if anns != [] {
      var head := if HasCategory(anns[0], id) then [anns[0]] else [];
      var rest := FilterByCategory(anns[1..], id);
      FilterCounts(anns[1..], id, a);
      assert multiset(anns)[a] == multiset([anns[0]])[a] + multiset(anns[1..])[a] by {
        assert anns == [anns[0]] + anns[1..];
      }
      assert multiset(FilterByCategory(anns, id))[a] == multiset(head)[a] + multiset(rest)[a] by {
        assert FilterByCategory(anns, id) == head + rest;
      }
      if HasCategory(anns[0], id) {
        assert multiset(head)[a] == multiset([anns[0]])[a];
      } else {
        assert multiset(head)[a] == 0;
      }
    }
  }

  /** Filtering twice by the same category changes nothing. */
  lemma {:induction false} FilterIdempotent(anns: seq<AnnouncementRow>, id: string)
    ensures FilterByCategory(FilterByCategory(anns, id), id) == FilterByCategory(anns, id)
  {
    if anns != [] {
      FilterIdempotent(anns[1..], id);
      if HasCategory(anns[0], id) {
        var r := FilterByCategory(anns, id);
        assert r == [anns[0]] + FilterByCategory(anns[1..], id);
        assert r[0] == anns[0] && r[1..] == FilterByCategory(anns[1..], id);
      } else {
        assert FilterByCategory(anns, id) == FilterByCategory(anns[1..], id);
      }
    }
  }

  /** Announcements whose categories are absent never survive a selection. */
  lemma AbsentCategoriesExcluded(anns: seq<AnnouncementRow>, selected: Option<string>, a: AnnouncementRow)
    requires Selecting(selected) && a.categories.None?
    ensures a !in Displayed(anns, selected)
  {
  }

  /** The list never grows under a selection, and it is the whole list without one. */
  lemma DisplayedBounds(anns: seq<AnnouncementRow>, selected: Option<string>)
    ensures |Displayed(anns, selected)| <= |anns|
    ensures SubsequenceOf(Displayed(anns, selected), anns)
  {
    if Selecting(selected) {
      FilterIsSubsequence(anns, selected.value);
    } else {
      SubsequenceOfSelf(anns);
    }
  }

  lemma {:induction false} SubsequenceOfSelf<T>(xs: seq<T>)
    ensures SubsequenceOf(xs, xs)
  {
    if xs != [] {
      SubsequenceOfSelf(xs[1..]);
    }
  }

  // ---------------------------------------------------------------------------
  // The category chips

  /** A chip: its label, what pressing it selects, and whether it is highlighted. */
  datatype Chip = Chip(text: string, target: Option<string>, active: bool)

  const AllLabel: string := "All"

  function CategoryChip(c: AnnouncementCategoryRow, selected: Option<string>): Chip {
    Chip(c.name, Some(c.id), selected == Some(c.id))
  }

  /** The chip row: nothing without categories, otherwise "All" followed by one chip per category. */
  function Chips(cats: seq<AnnouncementCategoryRow>, selected: Option<string>): (chips: seq<Chip>)
    ensures cats == [] ==> chips == []
    ensures cats != [] ==> |chips| == |cats| + 1 && chips[0].text == AllLabel && chips[0].target == None
    ensures cats != [] ==> forall i :: 0 <= i < |cats| ==>
              chips[i + 1].text == cats[i].name && chips[i + 1].target == Some(cats[i].id)
    ensures cats != [] ==> (chips[0].active == !Selecting(selected) &&
              forall i :: 0 <= i < |cats| ==> chips[i + 1].active == (selected == Some(cats[i].id)))
    ensures forall ch :: ch in chips && ch.active ==> if ch.target.None? then !Selecting(selected) else ch.target == selected
  {
    if cats == [] then []
    else [Chip(AllLabel, None, !Selecting(selected))] + seq(|cats|, i requires 0 <= i < |cats| => CategoryChip(cats[i], selected))
  }

  /** A highlighted chip never misdescribes the list: pressing it would show the same announcements. */
  lemma ActiveChipMatchesList(anns: seq<AnnouncementRow>, cats: seq<AnnouncementCategoryRow>, selected: Option<string>, ch: Chip)
    requires ch in Chips(cats, selected) && ch.active
    ensures Displayed(anns, ch.target) == Displayed(anns, selected)
  {
  }

  /** A category whose id is empty is falsy once selected, so its chip shows everything. */
  lemma EmptyIdShowsAll(anns: seq<AnnouncementRow>)
    ensures Displayed(anns, Some("")) == anns
  {
  }

  // ---------------------------------------------------------------------------
  // One card

  /** `pinned` as 0/1 or as a boolean, read for its truthiness. */
  function IsPinned(p: Pinned): (shown: bool)
    ensures p.PinnedNumber? ==> (shown <==> p.n != 0)
    ensures p.PinnedFlag? ==> (shown <==> p.b)
  {
    match p
    case PinnedNumber(n) => n != 0
    case PinnedFlag(b) => b
  }

  /** Both encodings of the flag mean the same thing. */
  lemma PinnedEncodingsAgree(b: bool)
    ensures IsPinned(PinnedNumber(if b then 1 else 0)) == IsPinned(PinnedFlag(b)) == b
  {
  }

  /** The image is shown for a non-empty URL, and its address goes through `toAbsoluteUrl`. */
  function FeaturedImage(a: AnnouncementRow): (uri: Option<string>)
    ensures uri.Some? <==> a.featured_image_url.Some? && a.featured_image_url.value != ""
    ensures uri.Some? ==> uri.value == ToAbsoluteUrl(a.featured_image_url.value)
  {
    match a.featured_image_url
    case Some(u) => if u != "" then Some(ToAbsoluteUrl(u)) else None
    case None => None
  }

  /** A URL of blanks is truthy, so an image is still shown, with an empty address. */
  lemma BlankImageUrlStillShown(a: AnnouncementRow)
    requires a.featured_image_url.Some? && a.featured_image_url.value != [] && AllSpace(a.featured_image_url.value)
    ensures FeaturedImage(a) == Some("")
  {
    TrimEmptyIffAllSpace(a.featured_image_url.value);
  }

  /** The excerpt when there is one, otherwise the HTML body. */
  function PreviewSource(a: AnnouncementRow): (src: string)
    ensures src == a.excerpt || src == a.content_html
    ensures a.excerpt != "" ==> src == a.excerpt
    ensures src == "" <==> a.excerpt == "" && a.content_html == ""
  {
    if a.excerpt != "" then a.excerpt else a.content_html
  }

  /** The preview text: the stripped source, cut at 150 characters. */
  function Preview(a: AnnouncementRow): (p: string)
    ensures |p| <= DefaultMaxLength + 3
    ensures TagFree(p)
    ensures |StripHtml(PreviewSource(a))| <= DefaultMaxLength ==> p == StripHtml(PreviewSource(a))
  {
    var text := StripHtml(PreviewSource(a));
    TruncateKeepsTagFree(text, DefaultMaxLength);
    Truncate(text, DefaultMaxLength)
  }

  /** With an excerpt, the HTML body does not affect the preview. */
  lemma PreviewUsesExcerpt(a: AnnouncementRow, body: string)
    requires a.excerpt != ""
    ensures Preview(a.(content_html := body)) == Preview(a)
  {
  }

  /** The publish date when there is one, otherwise the creation date. */
  function DateSource(a: AnnouncementRow): (date: string)
    ensures date == a.created_at || (a.publish_at == Some(date) && date != "")
    ensures a.publish_at.Some? && a.publish_at.value != "" ==> date == a.publish_at.value
  {
    if a.publish_at.Some? && a.publish_at.value != "" then a.publish_at.value else a.created_at
  }

  /** The date line: the chosen date formatted as `MMM dd, yyyy`, or left as it came when it does not parse. */
  function DateLine(a: AnnouncementRow, lib: DateLib): (d: string)
    ensures a.publish_at.Some? && a.publish_at.value != "" ==>
              d == a.publish_at.value || (lib.parseIso(a.publish_at.value).Some? && lib.format(lib.parseIso(a.publish_at.value).value, DefaultDatePattern) == Some(d))
    ensures (a.publish_at.None? || a.publish_at.value == "") ==>
              d == a.created_at || (lib.parseIso(a.created_at).Some? && lib.format(lib.parseIso(a.created_at).value, DefaultDatePattern) == Some(d))
    ensures lib.parseIso(DateSource(a)).None? ==> d == DateSource(a)
    ensures lib.parseIso(DateSource(a)).Some? && lib.format(lib.parseIso(DateSource(a)).value, DefaultDatePattern).Some? ==>
              d == lib.format(lib.parseIso(DateSource(a)).value, DefaultDatePattern).value
    ensures lib.parseIso(DateSource(a)).Some? && lib.format(lib.parseIso(DateSource(a)).value, DefaultDatePattern).None? ==>
              d == DateSource(a)
  {
    FormatDate(DateSource(a), DefaultDatePattern, lib)
  }

  /** The category tags: the first two categories, in order. */
  function CategoryTags(a: AnnouncementRow): (tags: seq<AnnouncementCategoryRow>)
    ensures a.categories.None? ==> tags == []
    ensures a.categories.Some? ==>
              |tags| == (if |a.categories.value| < 2 then |a.categories.value| else 2) &&
              tags == a.categories.value[..|tags|]
  {
    match a.categories
    case None => []
    case Some(cs) => if |cs| <= 2 then cs else cs[..2]
  }

  /** What one card shows; `row` is what pressing it hands to the detail screen. */
  datatype Card = Card(
    row: AnnouncementRow,
    image: Option<string>,
    pinnedBadge: bool,
    title: string,
    preview: string,
    date: string,
    tags: seq<AnnouncementCategoryRow>)

  /**
   * One announcement's card: pressing it opens that row; its title is the row's;
   * its preview is tag-free and at most 153 characters; it shows at most the
   * first two categories; its badge and image follow the pinned flag and the
   * featured image URL.
   */
  function CardOf(a: AnnouncementRow, lib: DateLib): (c: Card)
    ensures c.row == a && c.title == a.title
    ensures |c.preview| <= DefaultMaxLength + 3 && TagFree(c.preview)
    ensures |c.tags| <= 2 && (a.categories.Some? ==> |c.tags| <= |a.categories.value| && c.tags == a.categories.value[..|c.tags|])
    ensures c.pinnedBadge == IsPinned(a.pinned)
    ensures c.image.Some? <==> a.featured_image_url.Some? && a.featured_image_url.value != ""
    ensures c.date == DateLine(a, lib) && c.preview == Preview(a)
  {
    Card(a, FeaturedImage(a), IsPinned(a.pinned), a.title, Preview(a), DateLine(a, lib), CategoryTags(a))
  }

  // ---------------------------------------------------------------------------
  // The screen

  /** The spinner while loading; otherwise the chips and the cards (none: "No announcements found"). */
  datatype ScreenView =
    | Spinner
    | Listing(chips: seq<Chip>, refreshing: bool, cards: seq<Card>)

  function Screen(loading: bool, refreshing: bool, anns: seq<AnnouncementRow>, cats: seq<AnnouncementCategoryRow>,
                  selected: Option<string>, lib: DateLib): (v: ScreenView)
    ensures loading <==> v.Spinner?
    ensures !loading ==> v.chips == Chips(cats, selected) && v.refreshing == refreshing
    ensures !loading ==> (|v.cards| == |Displayed(anns, selected)| &&
              forall i :: 0 <= i < |v.cards| ==> v.cards[i].row == Displayed(anns, selected)[i])
  {
    if loading then Spinner
    else
      var shown := Displayed(anns, selected);
      Listing(Chips(cats, selected), refreshing, seq(|shown|, i requires 0 <= i < |shown| => CardOf(shown[i], lib)))
  }

  /** With no category selected, every loaded announcement gets a card, in the order delivered. */
  lemma UnfilteredListingShowsAll(refreshing: bool, fetch: Fetch<seq<AnnouncementRow>>,
                                  cats: seq<AnnouncementCategoryRow>, lib: DateLib)
    ensures var v := Screen(false, refreshing, GetAnnouncements(fetch), cats, None, lib);
            Delivers(fetch("/announcements")) ==>
              |v.cards| == |fetch("/announcements").body.data.value| &&
              forall i :: 0 <= i < |v.cards| ==> v.cards[i].row == fetch("/announcements").body.data.value[i]
  {
  }

  /** The screen's state: the `useState` hooks of the component. */
  class AnnouncementsState {
    var loading: bool
    var refreshing: bool
    var announcements: seq<AnnouncementRow>
    var categories: seq<AnnouncementCategoryRow>
    var selectedCategory: Option<string>

    constructor ()
      ensures loading && !refreshing
      ensures announcements == [] && categories == [] && selectedCategory == None
    {
      loading := true;
      refreshing := false;
      announcements := [];
      categories := [];
      selectedCategory := None;
    }

    /** Both lists are fetched; whatever arrives, the spinner and the refresh indicator stop. */
    method LoadData(fetchAnnouncements: Fetch<seq<AnnouncementRow>>, fetchCategories: Fetch<seq<AnnouncementCategoryRow>>)
      modifies this
      ensures announcements == GetAnnouncements(fetchAnnouncements)
      ensures categories == GetAnnouncementCategories(fetchCategories)
      ensures !loading && !refreshing
      ensures selectedCategory == old(selectedCategory)
    {
      var announcementsData := GetAnnouncements(fetchAnnouncements);
      var categoriesData := GetAnnouncementCategories(fetchCategories);
      announcements := announcementsData;
      categories := categoriesData;
      loading := false;
      refreshing := false;
    }

    /** Pull to refresh: the indicator is raised, then the lists are loaded again. */
    method OnRefresh(fetchAnnouncements: Fetch<seq<AnnouncementRow>>, fetchCategories: Fetch<seq<AnnouncementCategoryRow>>)
      modifies this
      ensures announcements == GetAnnouncements(fetchAnnouncements)
      ensures categories == GetAnnouncementCategories(fetchCategories)
      ensures !loading && !refreshing
      ensures selectedCategory == old(selectedCategory)
    {
      refreshing := true;
      LoadData(fetchAnnouncements, fetchCategories);
    }

    /** A chip press: "All" selects nothing, a category chip selects its id. */
    method SelectCategory(target: Option<string>)
      modifies this
      ensures selectedCategory == target
      ensures loading == old(loading) && refreshing == old(refreshing)
      ensures announcements == old(announcements) && categories == old(categories)
    {
      selectedCategory := target;
    }

    function View(lib: DateLib): (v: ScreenView)
      reads this
      ensures loading <==> v.Spinner?
      ensures !loading ==> |v.cards| == |Displayed(announcements, selectedCategory)|
    {
      Screen(loading, refreshing, announcements, categories, selectedCategory, lib)
    }
  }
}
