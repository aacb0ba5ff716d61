# Masjid Al-Taubah app core, modelled in Dafny

This project models the logic core of the Masjid Al-Taubah mobile app. That core is made of four parts:

- The API client: it turns relative image paths into absolute addresses on the mosque's site, and it unwraps the server's `{ ok, data, error }` envelope for each of its nine public calls.
- The text helpers: date and time formatting, HTML stripping and truncation.
- The Announcements screen: its state, the category filter, the category chips, and the fields of each announcement card.
- The Broadcast screen: its state, the choice of video address, the extraction of a YouTube video id, and the player's embed address.

The modules:

- `Wrappers`: `Option`.
- `JsText`: the JavaScript string built-ins the code relies on (`trim`, `split`, `parseInt`, an ASCII case-insensitive match). Each is defined once, with its own contract and lemmas.
- `Types`: the server's row records.
- `ApiClient`: `src/api/client.ts`. The network is a parameter: a `Fetch` function from request path to outcome.
- `Helpers`: `src/utils/helpers.ts`. The date library is a parameter: a `DateLib` holding a parser and a formatter.
- `UriComponent`: `encodeURIComponent`, and a single-byte decoder to state its round trip.
- `AnnouncementsScreen`, `BroadcastScreen`: the two screens. Each has its pure view logic as functions and its `useState` flags as a class whose methods change the fields.

`truncate` calls `trim()` on the kept prefix, so both ends are trimmed, and `Helpers.Truncate` does the same.

## Model

| member | source | states |
|---|---|---|
| JsText.Trim | src/api/client.ts:31 | the result has no white space at either end and is no longer than the input |
| JsText.TrimSlice | src/utils/helpers.ts:49 | the trimmed text is the slice of the input between a leading and a trailing run of white space |
| JsText.TrimIdempotent | src/utils/helpers.ts:49 | trimming twice gives the same as trimming once |
| JsText.TrimEmptyIffAllSpace | src/api/client.ts:31-32 | trimming leaves nothing exactly when the input is all white space |
| JsText.Split | src/utils/helpers.ts:16 | at least one part; no part holds the separator; joining the parts with the separator gives back the input |
| JsText.SplitJoin | src/utils/helpers.ts:16 | splitting the join of separator-free parts gives those parts back |
| JsText.SplitSingleIffNoSep | src/utils/helpers.ts:16-17 | the split has one part exactly when the separator does not occur |
| JsText.ParseIntText | src/utils/helpers.ts:19 | `parseInt` of the decimal text of any integer gives that integer back |
| JsText.ParseIntDigits | src/utils/helpers.ts:19 | `parseInt` of a non-empty run of digits is its decimal value |
| ApiClient.StripApiSuffix | src/api/client.ts:35 | the result is a prefix of the base; it is the base unchanged exactly when the base does not end in `/api` or `/api/` (any case); otherwise exactly that suffix is removed |
| ApiClient.OriginValue | src/api/client.ts:13 | the origin derived from the API base is `https://masjidaltaubah.co.za` |
| ApiClient.ToAbsoluteUrl | src/api/client.ts:30-39 | the result is trimmed; it is empty exactly when the input is all white space; an `http(s)://` address is returned trimmed; a path starting with `/` gets the origin in front; anything else is returned trimmed |
| ApiClient.RootRelativeExample | src/api/client.ts:34-36 | `/img/a.png` becomes `https://masjidaltaubah.co.za/img/a.png` |
| ApiClient.RelativePathKept | src/api/client.ts:38 | a trimmed address that starts neither with `/` nor with `http://` or `https://` (any case) is returned unchanged |
| ApiClient.BareRelativeExample | src/api/client.ts:38 | `img/a.png` is left as it is |
| ApiClient.ToAbsoluteUrlIdempotent | src/api/client.ts:30-39 | applying the conversion to its own result changes nothing |
| ApiClient.ListOrEmpty | src/api/client.ts:23-27 | a list call yields the envelope's `data` when the request succeeded and `data` is present, and `[]` otherwise |
| ApiClient.RowOrNull | src/api/client.ts:23-27 | a single-row call yields a row exactly when the request succeeded and `data` is present, and then it is that `data` |
| ApiClient.GetSiteConfig | src/api/client.ts:44-52 | the config is present exactly when `/content/site` answered with `data`, and then it is that `data` |
| ApiClient.GetEvents | src/api/client.ts:55-63 | the rows are the `data` of `/events` when it answered with one, otherwise `[]` |
| ApiClient.GetPrograms | src/api/client.ts:66-74 | the rows are the `data` of `/programs` when it answered with one, otherwise `[]` |
| ApiClient.GetContacts | src/api/client.ts:77-85 | the rows are the `data` of `/contacts` when it answered with one, otherwise `[]` |
| ApiClient.GetGallery | src/api/client.ts:88-96 | the rows are the `data` of `/gallery` when it answered with one, otherwise `[]` |
| ApiClient.GetFooterLinks | src/api/client.ts:99-107 | the rows are the `data` of `/footer-links` when it answered with one, otherwise `[]` |
| ApiClient.GetAnnouncements | src/api/client.ts:110-118 | the rows are the `data` of `/announcements` when it answered with one, otherwise `[]` |
| ApiClient.GetAnnouncementBySlug | src/api/client.ts:121-129 | the row is present exactly when `/announcements/<slug>` answered with `data`, and then it is that `data` |
| ApiClient.GetAnnouncementCategories | src/api/client.ts:132-140 | the rows are the `data` of `/announcement-categories` when it answered with one, otherwise `[]` |
| ApiClient.EnvelopeFlagsIgnored | src/api/client.ts:23-27 | the envelope's `ok` and `error` fields never change what a call returns |
| ApiClient.FailureLooksEmpty | src/api/client.ts:59-62 | a failed request and an empty answer give the caller the same result |
| ApiClient.ListsComeFromServer | src/api/client.ts:58 | a non-empty list always comes from an answered envelope whose `data` is that list |
| ApiClient.EventsScenario | src/api/client.ts:55-63 | when `/events` answers one row, `getEvents` returns exactly that row |
| Helpers.FormatDate | src/utils/helpers.ts:3-11 | an unparseable date is returned as it is; a parsed date is the library's formatting of it with the pattern, or the input when the formatter fails |
| Helpers.FormatDateTime | src/utils/helpers.ts:33-41 | an unparseable date is returned as it is; a parsed date is the library's formatting of it with `MMM dd, yyyy h:mm a`, or the input when the formatter fails |
| Helpers.TwelveHourClock | src/utils/helpers.ts:24-25 | for an hour in 0..23, the displayed hour is in 1..12, and the displayed hour and AM/PM give the hour back |
| Helpers.FormatTime | src/utils/helpers.ts:13-31 | text without a colon is returned unchanged |
| Helpers.FormatTimeOfFields | src/utils/helpers.ts:16-27 | for `hh:mm` or `hh:mm:ss` with a parseable hour, the result is the 12-hour display hour, the minutes text as given, and AM/PM; the seconds are dropped |
| Helpers.FormatTimeUnparsedHour | src/utils/helpers.ts:19-22 | when the hour does not parse, the text is returned unchanged |
| Helpers.FormatTimeReadsBack | src/utils/helpers.ts:24-27 | for hours 0..23, the formatted text read back as a 12-hour clock gives the original hour |
| Helpers.FormatTimeMorning | src/utils/helpers.ts:24-27 | hours 1 to 11 are shown as they are, with `AM` |
| Helpers.FormatTimeNoon | src/utils/helpers.ts:24-27 | hour 12 is shown as `12`, with `PM` |
| Helpers.FormatTimeAfternoon | src/utils/helpers.ts:24-27 | hours 13 to 23 are shown less twelve, with `PM` |
| Helpers.FormatTimeMidnight | src/utils/helpers.ts:24-27 | hour 0 is shown as `12`, with `AM` |
| Helpers.FormatTimeAfternoonExample | src/utils/helpers.ts:24-27 | `13:05` becomes `1:05 PM` |
| Helpers.FormatTimeMidnightExample | src/utils/helpers.ts:25 | `00:30` becomes `12:30 AM` |
| Helpers.FormatTimeNoColonExample | src/utils/helpers.ts:17 | `9` is returned as it is |
| Helpers.FindIgnoringCaseMatches | src/utils/helpers.ts:45-46 | the found position matches the pattern ignoring ASCII case |
| Helpers.RemoveBlocks | src/utils/helpers.ts:45-46 | removing `<script>`/`<style>` blocks never lengthens the text |
| Helpers.RemoveBlocksDropsBlock | src/utils/helpers.ts:45-46 | the lazy match: when `open` does not occur before a block and `close` does not occur inside it (ASCII case ignored), the block goes with its delimiters, the text before it is kept and removal goes on after it |
| Helpers.CollapseSpace | src/utils/helpers.ts:48 | never longer than the input; every character is a space or comes from the input; the first character is kept, or becomes one space when it is white space |
| Helpers.CollapseSpaceNormalises | src/utils/helpers.ts:48 | after collapsing, every white space is a plain space and no two spaces are adjacent |
| Helpers.ReplaceTags | src/utils/helpers.ts:47 | never longer than the input; every character is a space or comes from the input; text without `<` is unchanged |
| Helpers.ReplaceTagsTagFree | src/utils/helpers.ts:47 | after tag replacement no `<…>` tag is left |
| Helpers.StripHtml | src/utils/helpers.ts:43-50 | the result is trimmed, holds no tag, uses only plain spaces, and never has two spaces in a row |
| Helpers.StripHtmlIdempotent | src/utils/helpers.ts:43-50 | stripping already stripped text changes nothing |
| Helpers.StripHtmlOfPlainText | src/utils/helpers.ts:43-50 | text without `<` only has its white space collapsed and trimmed |
| Helpers.StripHtmlEmpty | src/utils/helpers.ts:44 | the empty string stays empty |
| Helpers.StripHtmlDropsScript | src/utils/helpers.ts:43-50 | when `<script` does not occur before a script block and `</script>` does not occur in its body (ASCII case ignored), the body never affects the output; when the text before has no `<`, the output is that of the text without the block |
| Helpers.ScriptPassKeepsStyle | src/utils/helpers.ts:45 | the script pass leaves a style block and the text before it untouched when `<script` occurs in neither |
| Helpers.StripHtmlDropsStyle | src/utils/helpers.ts:43-50 | as for scripts, with `<style` and `</style>`, when also `<script` occurs neither before the block nor in its body, since the script pass runs first |
| Helpers.ReplaceTagsTag | src/utils/helpers.ts:47 | one tag becomes one space |
| Helpers.StripHtmlParagraph | src/utils/helpers.ts:43-50 | `<p>a <b>b</b></p>` strips to `a b` for any two words |
| Helpers.StripHtmlExample | src/utils/helpers.ts:43-50 | `<p>Hi <b>there</b></p>` strips to `Hi there` |
| Helpers.SliceEnd | src/utils/helpers.ts:54 | `slice`'s end index: kept as it is within range, counted from the back when negative, never past the length |
| Helpers.Truncate | src/utils/helpers.ts:52-55 | text within the limit is returned unchanged; longer text ends in `...` after a trimmed part; for a non-negative limit the result is at most the limit plus three |
| Helpers.TruncateShape | src/utils/helpers.ts:54 | text longer than the limit becomes its first `maxLength` characters, trimmed at both ends, then `...` |
| Helpers.TruncateKeepsPrefix | src/utils/helpers.ts:54 | the part kept before `...` is a slice of the text that ends within the first `maxLength` characters |
| Helpers.TruncateCleanCut | src/utils/helpers.ts:54 | when the cut falls between non-space characters, the result is exactly the first `maxLength` characters and `...` |
| Helpers.TruncateFitsExample | src/utils/helpers.ts:53 | `hello` with limit 10 is unchanged |
| Helpers.TruncateCutExample | src/utils/helpers.ts:54 | `hello world` with limit 5 becomes `hello...` |
| Helpers.TruncateAfterWord | src/utils/helpers.ts:54 | a cut just after the space following a word drops that space |
| Helpers.TruncateTrimsExample | src/utils/helpers.ts:54 | `hello world` with limit 6 becomes `hello...` |
| Helpers.TruncateKeepsTagFree | src/utils/helpers.ts:52-55 | truncating tag-free text gives tag-free text |
| UriComponent.EncodeUriComponent | src/screens/BroadcastScreen.tsx:50-52 | the encoding is at least as long as the input and uses only unreserved characters and `%` |
| UriComponent.EncodeUnreserved | src/screens/BroadcastScreen.tsx:50-52 | text made only of unreserved characters is unchanged |
| UriComponent.DecodeEncodeAscii | src/screens/BroadcastScreen.tsx:50-52 | for ASCII text, decoding the encoding gives the text back |
| UriComponent.EncodedHasNoDelimiters | src/screens/BroadcastScreen.tsx:50-52 | an encoded component holds no `&`, `=`, `?`, `#`, `/` or space |
| AnnouncementsScreen.FilterByCategory | src/screens/AnnouncementsScreen.tsx:58-60 | the filtered list is no longer than the input and starts with an announcement of the category |
| AnnouncementsScreen.FilterMembership | src/screens/AnnouncementsScreen.tsx:58-60 | an announcement is kept exactly when it is in the list and one of its categories has the selected id |
| AnnouncementsScreen.FilterIsSubsequence | src/screens/AnnouncementsScreen.tsx:58-60 | the filter keeps the server's order |
| AnnouncementsScreen.FilterCounts | src/screens/AnnouncementsScreen.tsx:58-60 | each matching announcement is kept as often as it occurs, each other one never |
| AnnouncementsScreen.FilterIdempotent | src/screens/AnnouncementsScreen.tsx:58-60 | filtering twice by the same category is filtering once |
| AnnouncementsScreen.Displayed | src/screens/AnnouncementsScreen.tsx:57-61 | no selection, or an empty id, shows every announcement; a selection shows exactly the announcements of that category |
| AnnouncementsScreen.AbsentCategoriesExcluded | src/screens/AnnouncementsScreen.tsx:59 | with a selection, an announcement without categories is never shown |
| AnnouncementsScreen.DisplayedBounds | src/screens/AnnouncementsScreen.tsx:57-61 | the displayed list is an order-preserving part of the loaded list |
| AnnouncementsScreen.EmptyIdShowsAll | src/screens/AnnouncementsScreen.tsx:57 | selecting the empty id shows everything, as no selection does |
| AnnouncementsScreen.Chips | src/screens/AnnouncementsScreen.tsx:70-107 | no categories: no chips; otherwise `All` (selecting nothing) and one chip per category in order, naming it and selecting its id; `All` is active exactly when nothing is selected, and a category chip exactly when its id is the selection |
| AnnouncementsScreen.ActiveChipMatchesList | src/screens/AnnouncementsScreen.tsx:79-97 | pressing the active chip leaves the shown list as it is |
| AnnouncementsScreen.IsPinned | src/screens/AnnouncementsScreen.tsx:140-144 | the badge shows for a non-zero number or for `true` |
| AnnouncementsScreen.PinnedEncodingsAgree | src/screens/AnnouncementsScreen.tsx:140 | `1`/`0` and `true`/`false` give the same badge |
| AnnouncementsScreen.FeaturedImage | src/screens/AnnouncementsScreen.tsx:130-138 | an image shows exactly when the URL is present and non-empty, at the address given by `toAbsoluteUrl` |
| AnnouncementsScreen.BlankImageUrlStillShown | src/screens/AnnouncementsScreen.tsx:130-134 | a white-space-only URL still produces an image, with an empty address |
| AnnouncementsScreen.PreviewSource | src/screens/AnnouncementsScreen.tsx:148 | the excerpt when non-empty, else the HTML body; empty only when both are |
| AnnouncementsScreen.Preview | src/screens/AnnouncementsScreen.tsx:146-151 | the preview holds no tag, is at most 153 characters, and is the whole stripped text when that fits in 150 |
| AnnouncementsScreen.PreviewUsesExcerpt | src/screens/AnnouncementsScreen.tsx:148 | with a non-empty excerpt the body does not affect the preview |
| AnnouncementsScreen.DateSource | src/screens/AnnouncementsScreen.tsx:154 | `publish_at` when present and non-empty, else `created_at` |
| AnnouncementsScreen.DateLine | src/screens/AnnouncementsScreen.tsx:153-155 | the chosen date (`publish_at` when present and non-empty, else `created_at`) as the library formats it with `MMM dd, yyyy`; shown as it is when it does not parse or the formatter fails |
| AnnouncementsScreen.CategoryTags | src/screens/AnnouncementsScreen.tsx:156-164 | the tags are the first two categories (all of them when fewer), in order; none when absent |
| AnnouncementsScreen.CardOf | src/screens/AnnouncementsScreen.tsx:124-167 | a card opens its own row and shows its title; the preview is tag-free and at most 153 characters; at most the first two categories are shown; the badge follows the pinned flag, and an image shows exactly for a non-empty URL |
| AnnouncementsScreen.Screen | src/screens/AnnouncementsScreen.tsx:63-171 | a spinner exactly while loading; otherwise the chips, the refresh flag, and one card per displayed announcement, in order |
| AnnouncementsScreen.UnfilteredListingShowsAll | src/screens/AnnouncementsScreen.tsx:57-61 | with no selection, the listing has one card per announcement the server delivered |
| AnnouncementsScreen.AnnouncementsState.constructor | src/screens/AnnouncementsScreen.tsx:25-29 | the screen starts loading, not refreshing, with no rows and no selection |
| AnnouncementsScreen.AnnouncementsState.LoadData | src/screens/AnnouncementsScreen.tsx:31-46 | the rows become the client's answers; loading and refreshing both end; the selection is kept |
| AnnouncementsScreen.AnnouncementsState.OnRefresh | src/screens/AnnouncementsScreen.tsx:52-55 | the state after a refresh is as after a load |
| AnnouncementsScreen.AnnouncementsState.SelectCategory | src/screens/AnnouncementsScreen.tsx:81 | the selection becomes the chip's target; nothing else changes |
| AnnouncementsScreen.AnnouncementsState.View | src/screens/AnnouncementsScreen.tsx:63-171 | a spinner exactly while loading; otherwise one card per displayed announcement |
| BroadcastScreen.DotRunEnd | src/screens/BroadcastScreen.tsx:41 | the regex `.` runs over no line terminator |
| BroadcastScreen.LastSlashBeforeId | src/screens/BroadcastScreen.tsx:41 | the greedy `.+\/` backs off to the last `/` in range with an id after it; none exactly when no `/` in range has one |
| BroadcastScreen.LastQueryBeforeId | src/screens/BroadcastScreen.tsx:41 | the greedy `.*[?&]v=` backs off to the last `?v=` or `&v=` in range with an id after it; none exactly when none in range has one |
| BroadcastScreen.PathForm | src/screens/BroadcastScreen.tsx:41 | a `[^\/]+\/.+\/` match leaves an id right after a `/` |
| BroadcastScreen.KeywordForm | src/screens/BroadcastScreen.tsx:41 | a match is `v/`, `embed/` or `e/` right after the host, with an id after it |
| BroadcastScreen.QueryForm | src/screens/BroadcastScreen.tsx:41 | a match is `?v=` or `&v=` with an id after it |
| BroadcastScreen.MatchAt | src/screens/BroadcastScreen.tsx:41 | a match at a position starts with `youtube.com/` or `youtu.be/` and captures 11 id characters after it |
| BroadcastScreen.YouTubeId | src/screens/BroadcastScreen.tsx:40-42 | a captured id is 11 characters, none of `"`, `&`, `?`, `/` or white space |
| BroadcastScreen.FirstMatchFrom | src/screens/BroadcastScreen.tsx:41 | the id found starts after the search start, with 11 id characters |
| BroadcastScreen.FirstMatchIsAMatch | src/screens/BroadcastScreen.tsx:41 | the id found is the one matched at some position, and no earlier position matches: the leftmost match |
| BroadcastScreen.FirstMatchReaches | src/screens/BroadcastScreen.tsx:41 | if any later position matches, the search finds a match |
| BroadcastScreen.FirstMatchSkips | src/screens/BroadcastScreen.tsx:41 | positions with no match are skipped |
| BroadcastScreen.YouTubeIdNeedsHost | src/screens/BroadcastScreen.tsx:41 | an id is found only in text holding `youtube.com/` or `youtu.be/` |
| BroadcastScreen.YouTubeIdHasHostName | src/screens/BroadcastScreen.tsx:39-41 | every text the pattern matches also passes the `includes` guard |
| BroadcastScreen.YouTubeIdOccurs | src/screens/BroadcastScreen.tsx:40-42 | the id found occurs in the text |
| BroadcastScreen.ShortLinkId | src/screens/BroadcastScreen.tsx:41 | `youtu.be/<id>` yields that id |
| BroadcastScreen.WatchLinkId | src/screens/BroadcastScreen.tsx:41 | `youtube.com/watch?v=<id>` yields that id |
| BroadcastScreen.ShortLinkExample | src/screens/BroadcastScreen.tsx:41 | `https://youtu.be/<id>` yields the id |
| BroadcastScreen.WatchLinkExample | src/screens/BroadcastScreen.tsx:41 | `https://www.youtube.com/watch?v=<id>` yields the id |
| BroadcastScreen.EmbedAddressId | src/screens/BroadcastScreen.tsx:41-44 | the embed address built for an id yields that id again |
| BroadcastScreen.VideoEmbedUrl | src/screens/BroadcastScreen.tsx:35-57 | a YouTube link with an id becomes the embed address of that id; otherwise a `facebook.com` link becomes the plugin address with the encoded link; otherwise the trimmed link is returned |
| BroadcastScreen.YouTubeEmbedIsFixedPoint | src/screens/BroadcastScreen.tsx:35-57 | an embed address passes through unchanged |
| BroadcastScreen.FacebookLinkEmbed | src/screens/BroadcastScreen.tsx:49-52 | a Facebook link with no YouTube host becomes the plugin address |
| BroadcastScreen.FacebookHrefCarriesUrl | src/screens/BroadcastScreen.tsx:50-52 | for an ASCII link the `href` parameter decodes back to the link and cannot break out of the query |
| BroadcastScreen.PlainUrlPassesThrough | src/screens/BroadcastScreen.tsx:55-56 | any other link is returned trimmed |
| BroadcastScreen.VideoUrl | src/screens/BroadcastScreen.tsx:63-64 | the live URL when non-empty, else the fallback URL, else empty |
| BroadcastScreen.NoVideoIff | src/screens/BroadcastScreen.tsx:63-74 | no video exactly when there is no config or both URLs are empty |
| BroadcastScreen.HeaderOf | src/screens/BroadcastScreen.tsx:82-89 | the name shows exactly when non-empty; the schedule shows exactly when both date and time are non-empty, as `<date> at <time>` |
| BroadcastScreen.Screen | src/screens/BroadcastScreen.tsx:59-110 | a spinner exactly while loading; the no-broadcast text exactly when there is no video URL; otherwise the header, the embed address of the URL and the video spinner flag |
| BroadcastScreen.BlankLiveUrlHidesFallback | src/screens/BroadcastScreen.tsx:63-64 | a white-space-only live URL hides the fallback and gives an empty player address |
| BroadcastScreen.BroadcastState.constructor | src/screens/BroadcastScreen.tsx:16-18 | the screen starts loading, with no config and the video spinner on |
| BroadcastScreen.BroadcastState.LoadData | src/screens/BroadcastScreen.tsx:24-33 | the config becomes the client's answer and loading ends; the video flag is kept |
| BroadcastScreen.BroadcastState.OnLoadStart | src/screens/BroadcastScreen.tsx:107 | the video spinner turns on; nothing else changes |
| BroadcastScreen.BroadcastState.OnLoadEnd | src/screens/BroadcastScreen.tsx:108 | the video spinner turns off; nothing else changes |
| BroadcastScreen.BroadcastState.View | src/screens/BroadcastScreen.tsx:59-110 | a spinner exactly while loading; a player always shows the current video flag |

## Left out

- The HTTP transport (axios, its base URL, headers and 20-second timeout) is a `Fetch` parameter; a timeout or a network error is the `Failed` outcome.
- Console logging in the catch branches is not modelled.
- date-fns `parseISO`, `isValid` and `format` are a `DateLib` parameter. The model does not define date parsing or the pattern language. The `try`/`catch` around them is covered by the library returning `None`.
- The `try`/`catch` in `formatTime` and in the screens' `loadData` is not modelled: every client call catches its own errors, so no exception reaches them.
- React's lifecycle is reduced to method calls: `useEffect`, `Promise.all`, the asynchronous interleaving of two loads, and re-renders. A refresh is modelled as one atomic load.
- Navigation to the detail screen, styles, images and the WebView's own behaviour are not modelled.
- `null`/`undefined` arguments (`String(x || '')` in `stripHtml` and `toAbsoluteUrl`) are not modelled: inputs are strings, and absent row fields are `Option`.
- JavaScript strings are UTF-16: the model's characters are Unicode scalar values, so the regex `.`, `{11}` and `length` count one unit for a character outside the Basic Multilingual Plane, where JavaScript counts two.
- Numbers are unbounded integers: `parseInt` beyond 2^53 and the `NaN`/`Infinity` forms are not modelled; `truncate`'s limit is an integer.
- Helpers.FormatTime: its own contract states only the no-colon case; the colon cases are stated by `FormatTimeOfFields`, `FormatTimeUnparsedHour` and `FormatTimeReadsBack`.
- UriComponent.DecodeAscii: decodes single-byte escapes only, so the encode/decode round trip is proved for ASCII text only.
- The other screens, the detail screen, the navigation stack and the theme are not part of this model.
