# Calendar ingestion of the MOM Beatbox website, modelled in Dafny

The website shows upcoming events on its calendar section. It reads them
from a public iCalendar (ICS) feed. The hook `useCalendar` does the work:

- It reads a browser-storage snapshot of the events and shows it. A
  snapshot younger than thirty minutes ends the refresh.
- Otherwise it asks the feed through each configured CORS proxy in turn,
  then directly.
- It parses the VEVENT blocks of the feed text:
  - it unfolds continuation lines;
  - it unescapes TEXT values and reads DATE and DATE-TIME values;
  - it keeps only complete events;
  - it sorts them by start.
- It gives each event a category: a description tag such as `#kids` wins,
  then the keywords of the configured categories, then a default key.
- It gives each event a link: its URL property, or a link found in the
  HTML of its description.
- It stores the result, reports `cached` or `failed` when the feed cannot
  be reached, and filters out events that have ended.

The calendar section renders a "last updated" label and exactly one of
the error box, the empty state and the event grid.

The model has one module per concern:

| file | module | models |
|---|---|---|
| `wrappers.dfy` | `Wrappers` | `Option` |
| `js_text.dfy` | `JsText` | the JavaScript string operations the code relies on: `trim`, ASCII case mapping, `indexOf`, `split`, global `replace`, `parseInt`, number-to-text |
| `js_date.dfy` | `JsDate` | a Date as a time value or NaN; `Date.UTC` and the local `Date` constructor with a fixed zone offset |
| `calendar_types.dfy` | `CalendarTypes` | `CalendarEvent`, `CachedCalendarData` |
| `ics_values.dfy` | `IcsValues` | `parseICSDate` and `unescapeICSText` |
| `event_links.dfy` | `EventLinks` | `decodeHtmlEntities`, `normalizeUrl`, `extractLinkFromDescription` |
| `event_categories.dfy` | `EventCategories` | `resolveCategoryKey` |
| `ics_parser.dfy` | `IcsParser` | `parseICS`: the unfold loop and the scan loop as methods, each proved against a recursive function |
| `event_cache.dfy` | `EventCache` | `getCachedEvents`, `setCachedEvents` and the JSON round trip of a snapshot |
| `feed_retriever.dfy` | `FeedRetriever` | `fetchIcsText` over a network oracle |
| `calendar_hook.dfy` | `CalendarHook` | the hook state as a class, `fetchEvents`, the upcoming filter |
| `calendar_view.dfy` | `CalendarView` | `getRelativeTime` and the render conditions of the calendar section |

The site configuration (`siteConfig.ts`) is not part of this model. The
fields the hook reads from it are a `CalendarConfig` parameter: the feed
URL, the proxy setting, the categories and the default key.

## Model

| member | source | states |
|---|---|---|
| JsText.TrimEnd | src/hooks/useCalendar.ts:25 | the trimmed text is a prefix, does not end in white space, and only white space was removed |
| JsText.ToUpper | src/hooks/useCalendar.ts:40 | same length, each character upper-cased |
| JsText.ToLower | src/hooks/useCalendar.ts:121 | same length, each character lower-cased |
| JsText.IndexOf | src/hooks/useCalendar.ts:35-36 | the index of the first occurrence of the character; None exactly when it does not occur |
| JsText.BeforeFirst | src/hooks/useCalendar.ts:40 | the first `;`-separated field is the prefix before the first separator and holds none |
| JsText.IndexOfAt | src/hooks/useCalendar.ts:35 | a position holding the character, with none before it, is what `indexOf` returns |
| JsText.BeforeFirstStops | src/hooks/useCalendar.ts:40 | the first field of a name followed by `;`-prefixed parameters is the name |
| JsText.SplitLines | src/hooks/useCalendar.ts:11 | at least one piece, and no piece holds a line feed |
| JsText.JoinSplitLines | src/hooks/useCalendar.ts:11 | for a text without carriage returns, rejoining the pieces gives the text back |
| JsText.SplitJoinLines | src/hooks/useCalendar.ts:11 | lines without line feeds and not ending in a carriage return, joined by line feeds, split back into themselves |
| JsText.SplitLinesDropsCrBeforeLf | src/hooks/useCalendar.ts:11 | for any text, rejoining the pieces gives it with each CR LF turned into LF and every other character, lone CRs included, kept |
| JsText.ParseIntSkipsSpace | src/hooks/useCalendar.ts:65 | `parseInt` ignores leading white space |
| JsText.ParseIntRendered | src/sections/Calendar.tsx:25 | `parseInt` reads back any rendered integer followed by a non-digit |
| JsText.ParseIntPadded | src/hooks/useCalendar.ts:65-69 | `parseInt` reads back a zero-padded number |
| JsDate.TimeClip | src/hooks/useCalendar.ts:70 | a time value is valid exactly within the Date range, and keeps its value |
| IcsValues.ReadColumn | src/hooks/useCalendar.ts:65-69 | a fixed column holding a padded number reads back as that number |
| IcsValues.DateTimeRoundTrip | src/hooks/useCalendar.ts:64-70 | a formatted DATE-TIME reads back as its fields (month less one) and as the matching `Date.UTC` instant; seconds and the zone suffix are ignored |
| IcsValues.DateRoundTrip | src/hooks/useCalendar.ts:71-76 | a formatted DATE reads back as its fields and as local midnight |
| IcsValues.ParsesUtcExample | src/hooks/useCalendar.ts:62-70 | `20251201T180000Z` is the instant 1764612000000 |
| IcsValues.ParsesUtcEveningExample | src/hooks/useCalendar.ts:62-70 | `20251201T200000Z` is the instant 1764619200000, two hours later |
| IcsValues.UnescapeLeavesPlainText | src/hooks/useCalendar.ts:79-85 | a text without a backslash is unchanged |
| IcsValues.UnescapeInvertsEscape | src/hooks/useCalendar.ts:79-85 | unescaping undoes RFC 5545 TEXT escaping whenever no backslash of the original precedes an `n` or `N` |
| IcsValues.UnescapeMisreadsEscapedBackslash | src/hooks/useCalendar.ts:79-85 | the escaped form of a backslash before `n` comes back as a backslash and a line feed |
| IcsValues.LeftToRightInvertsEscape | src/hooks/useCalendar.ts:79-85 | a single left-to-right decoder undoes TEXT escaping for every text |
| EventLinks.DecodeInvertsEncode | src/hooks/useCalendar.ts:87-94 | decoding undoes HTML entity encoding of every text |
| EventLinks.DecodesOneLevel | src/hooks/useCalendar.ts:87-94 | a doubly encoded entity is decoded once only |
| EventLinks.DecodeLeavesPlainText | src/hooks/useCalendar.ts:87-94 | a text without `&` is unchanged |
| EventLinks.FindUrl | src/hooks/useCalendar.ts:99 | a found URL has an http or https scheme followed by URL characters only, and is at least eight characters long |
| EventLinks.FindUrlNone | src/hooks/useCalendar.ts:99 | no URL is found exactly when no position of the text starts a scheme followed by a URL character |
| EventLinks.FindUrlLeftmost | src/hooks/useCalendar.ts:99 | a found URL is the match at the first position that starts one, and is the substring of the text at that position |
| EventLinks.TrimTrailingPunct | src/hooks/useCalendar.ts:101 | strips exactly the trailing run of `)`, `.` and `,` |
| EventLinks.NormalizeUrl | src/hooks/useCalendar.ts:96-103 | an absent or empty value gives no link; a result always has an http or https scheme and no trailing punctuation |
| EventLinks.NormalizeKeepsFoundUrl | src/hooks/useCalendar.ts:98-101 | when the trimmed text holds a URL, the result is that URL without its trailing punctuation |
| EventLinks.NormalizeWithoutMatch | src/hooks/useCalendar.ts:100-102 | without a URL match the trimmed text itself is the candidate |
| EventLinks.NormalizeUrlFixedPoint | src/hooks/useCalendar.ts:96-103 | a result not ending in white space normalises to itself |
| EventLinks.NormalizeUrlNotIdempotent | src/hooks/useCalendar.ts:96-103 | normalising twice can differ from once: `http:// )` gives `http:// `, which gives `http://` |
| EventLinks.NormalizeCleanLink | src/hooks/useCalendar.ts:96-103 | a plain URL normalises to itself |
| EventLinks.ExtractLinkFromDescription | src/hooks/useCalendar.ts:105-118 | an extracted link has an http or https scheme and no trailing punctuation |
| EventLinks.ExtractFromAnchor | src/hooks/useCalendar.ts:107-111 | the `href` of an anchor in the description is the link |
| EventLinks.ExtractFromTag | src/hooks/useCalendar.ts:113-115 | without an `href`, the text after `#link:` is the link |
| EventLinks.ExtractFallsBackToText | src/hooks/useCalendar.ts:117 | without `href`, `#link:` or entities, the description is normalised as a whole |
| EventCategories.DirectTagIsFirstTag | src/hooks/useCalendar.ts:122 | the regular-expression scan finds the tag at the first position where one may start |
| EventCategories.FirstTagFromSpec | src/hooks/useCalendar.ts:122 | a tag is found exactly when one may start somewhere, and it is the leftmost one |
| EventCategories.FirstMentioned | src/hooks/useCalendar.ts:128-130 | None exactly when no category is mentioned; otherwise the key of the first mentioned category |
| EventCategories.ResolveCategoryKey | src/hooks/useCalendar.ts:120-132 | the result is a tag key, a configured category key or the default key |
| EventCategories.KeywordsDecideWithoutTag | src/hooks/useCalendar.ts:127-131 | without a tag, the first mentioned category wins; the default is used only when none is mentioned |
| EventCategories.HashTagWins | src/hooks/useCalendar.ts:121-125 | a `#key` tag that opens the description decides, whatever the categories' keywords |
| EventCategories.UppercaseKeywordNeverMatches | src/hooks/useCalendar.ts:127-129 | a keyword with an upper-case letter never matches the lower-cased text |
| IcsParser.Unfolded | src/hooks/useCalendar.ts:14-20 | unfolding never adds lines and keeps a non-empty input non-empty |
| IcsParser.UnfoldedKeepsText | src/hooks/useCalendar.ts:14-20 | unfolding keeps the text: only the first character of each continuation line is dropped |
| IcsParser.UnfoldPlain | src/hooks/useCalendar.ts:14-20 | lines without continuations are kept as they are |
| IcsParser.UnfoldLines | src/hooks/useCalendar.ts:14-20 | the loop computes the unfolded lines |
| IcsParser.UnfoldFolded | src/hooks/useCalendar.ts:16-17 | a continuation line glued onto the previous one keeps the text, less its first character |
| IcsParser.ApplyProperty | src/hooks/useCalendar.ts:41-55 | SUMMARY, LOCATION and DESCRIPTION set the title, location and description to the unescaped value; DTSTART and DTEND set the start and end to the date read from the raw value; URL sets the link to the normalised unescaped value; any other name changes nothing; the identifier never changes and a link it sets has a scheme |
| IcsParser.ReadProperty | src/hooks/useCalendar.ts:35-55 | a line without a colon is skipped; a line never changes the identifier, and the draft stays well formed |
| IcsParser.ReadPropertyLine | src/hooks/useCalendar.ts:35-41 | a line `NAME;PARAMS:VALUE` sets the property named by `NAME` upper-cased, whatever the parameters, to everything after the first colon |
| IcsParser.ReadPlainLine | src/hooks/useCalendar.ts:35-41 | a line `NAME:VALUE` sets the property named by `NAME` upper-cased to `VALUE` |
| IcsParser.LaterLineWins | src/hooks/useCalendar.ts:43-55 | when a property occurs twice in a block, the later line decides |
| IcsParser.SimpleBlock | src/hooks/useCalendar.ts:26-56 | a block of SUMMARY, DTSTART and DTEND lines emits one event with that title, the dates read from the raw values, no location, description or link, and the next identifier |
| IcsParser.SimpleFeed | src/hooks/useCalendar.ts:9-59 | a feed text holding one such block parses to exactly that event |
| IcsParser.TestShowFeed | src/hooks/useCalendar.ts:9-70 | the feed of one block titled `Test Show`, from 20251201T180000Z to 20251201T200000Z, parses to one event with that title, start 1764612000000 and end 1764619200000 |
| IcsParser.StepKeepsGood | src/hooks/useCalendar.ts:24-57 | a step keeps identifiers increasing and emitted events complete, uncategorised and with schemed links |
| IcsParser.CloseKeepsGood | src/hooks/useCalendar.ts:29-33 | closing a block keeps the invariant: the kept event's identifier is above every earlier one and below the next |
| IcsParser.ScanKeepsGood | src/hooks/useCalendar.ts:24-57 | the scan keeps that invariant over any lines |
| IcsParser.OutsideBlockIgnored | src/hooks/useCalendar.ts:34 | outside a block every line but BEGIN:VEVENT is ignored |
| IcsParser.PropertiesKeepEmitted | src/hooks/useCalendar.ts:34-56 | property lines never emit an event and never open or close a block |
| IcsParser.DanglingBlockDropped | src/hooks/useCalendar.ts:27-29 | a block that is never closed emits nothing |
| IcsParser.InterruptedBlockDropped | src/hooks/useCalendar.ts:27-28 | a second BEGIN:VEVENT discards the open block |
| IcsParser.ClosedBlock | src/hooks/useCalendar.ts:29-33 | a closed block emits its event exactly when title, start and end are set |
| IcsParser.SortByStart | src/hooks/useCalendar.ts:59 | sorting is a permutation |
| IcsParser.SortByStartSorted | src/hooks/useCalendar.ts:59 | when every start is valid, the result is ordered by start |
| IcsParser.SortByStartDistinct | src/hooks/useCalendar.ts:59 | sorting keeps identifiers distinct |
| IcsParser.ParsedFeedSound | src/hooks/useCalendar.ts:9-60 | every parsed event is complete and uncategorised; identifiers are distinct; valid starts come out in order |
| IcsParser.ScanLines | src/hooks/useCalendar.ts:22-57 | the scan loop emits what the block scanner emits |
| IcsParser.ScanLine | src/hooks/useCalendar.ts:25-56 | one trimmed line moves the scanner exactly as the block scanner says |
| IcsParser.ParseIcs | src/hooks/useCalendar.ts:9-60 | parsing gives the parsed feed, well-formed events with distinct identifiers |
| EventCache.StoreTime | src/hooks/useCalendar.ts:161 | a date is stored as its instant exactly when it is valid |
| EventCache.LoadTime | src/hooks/useCalendar.ts:143-144 | a reloaded date is always valid |
| EventCache.SetCachedEvents | src/hooks/useCalendar.ts:155-165 | an accepted write stores every event and the time of writing; a refused one leaves the entry as it was |
| EventCache.LinkFor | src/hooks/useCalendar.ts:146 | the event's own link wins when it normalises to a URL, otherwise the link found in the description; a chosen link has a scheme |
| EventCache.Rehydrate | src/hooks/useCalendar.ts:141-147 | a reloaded event keeps its text fields, its dates are the stored instants (null giving the epoch), a stored category is kept and a missing one is the categoriser's verdict on the event, and its link is the chosen link |
| EventCache.GetCachedEvents | src/hooks/useCalendar.ts:134-153 | a snapshot is read exactly when a blob is stored, with its time and every event |
| EventCache.RehydrateSettled | src/hooks/useCalendar.ts:141-147 | a settled event reloads as itself |
| EventCache.CacheRoundTrip | src/hooks/useCalendar.ts:134-165 | reading back a written snapshot of settled events gives the events and the time of writing |
| EventCache.InvalidDateReloadsAsEpoch | src/hooks/useCalendar.ts:143 | an invalid start reloads as the epoch, so the round trip is lost |
| EventCache.LinkForSettles | src/hooks/useCalendar.ts:146 | when the chosen link does not end in white space, choosing again from it gives the same link |
| FeedRetriever.ProxiedUrl | src/hooks/useCalendar.ts:187-189 | the proxy prefixes the feed URL, raw after a scheme and encoded otherwise |
| FeedRetriever.Attempts | src/hooks/useCalendar.ts:183-196 | one address per proxy in order, then the feed URL |
| FeedRetriever.RetrieveFirstSuccess | src/hooks/useCalendar.ts:182-197 | the text is the first answer; failure only when every attempt fails |
| FeedRetriever.DirectOnly | src/hooks/useCalendar.ts:183 | without proxies only the feed URL is asked |
| FeedRetriever.FetchIcsText | src/hooks/useCalendar.ts:182-197 | the loop returns the first answer |
| CalendarHook.Enrich | src/hooks/useCalendar.ts:228-232 | enriching keeps the parsed fields, the category is the categoriser's verdict on the event, and the link is the chosen link, which has a scheme |
| CalendarHook.EnrichedCategoryRule | src/hooks/useCalendar.ts:120-132 | a fetched event's category is its description tag if any, else the first configured category it mentions, else the default key |
| CalendarHook.EnrichedHashTag | src/hooks/useCalendar.ts:120-124 | a description opening with `#key` gives the fetched event that key |
| CalendarHook.ReloadCategorisesLikeFetch | src/hooks/useCalendar.ts:141-147 | a parsed event stored without a category reloads exactly as the fetch enriches it |
| CalendarHook.RefreshSurvivesReload | src/hooks/useCalendar.ts:214-236 | after a refresh the stored snapshot reads back as the shown events, and is fresh for thirty minutes |
| CalendarHook.Upcoming | src/hooks/useCalendar.ts:256-263 | the filter keeps exactly the events whose end is a valid instant not before now |
| CalendarHook.UpcomingCounts | src/hooks/useCalendar.ts:256-263 | each upcoming event is kept as many times as it occurs, every other one dropped |
| CalendarHook.UpcomingPositions | src/hooks/useCalendar.ts:256-263 | the positions of the upcoming events, strictly increasing, and all of them |
| CalendarHook.UpcomingSelects | src/hooks/useCalendar.ts:256-263 | the k-th kept event is the event at the k-th upcoming position: the filter keeps the input order |
| CalendarHook.UpcomingKeepsOrder | src/hooks/useCalendar.ts:256-263 | events sorted by start stay sorted after filtering |
| CalendarHook.UpcomingIdempotent | src/hooks/useCalendar.ts:256-263 | filtering twice is filtering once |
| CalendarHook.UpcomingShrinks | src/hooks/useCalendar.ts:256-263 | what is upcoming later was upcoming earlier |
| CalendarHook.AfterFetch | src/hooks/useCalendar.ts:205-250 | a finished fetch is never loading, and shown events stay categorised with schemed links |
| CalendarHook.CachedEventsValid | src/hooks/useCalendar.ts:134-153 | events read back from storage carry a category and only a schemed link |
| CalendarHook.FetchedEventsValid | src/hooks/useCalendar.ts:226-232 | fetched events carry a category and only a schemed link |
| CalendarHook.AfterFetchFresh | src/hooks/useCalendar.ts:208-216 | a fresh snapshot is shown with its time, and the error is left as it was |
| CalendarHook.AfterFetchFetched | src/hooks/useCalendar.ts:222-236 | a feed that answers replaces the events, clears the error and is stored with the time it arrived |
| CalendarHook.AfterFetchCachedShown | src/hooks/useCalendar.ts:237-249 | without the feed, a stale snapshot stays on display with the cached-shown error |
| CalendarHook.AfterFetchFailed | src/hooks/useCalendar.ts:237-249 | without the feed or a snapshot, the events and time stay and the failure is reported |
| CalendarHook.FreshCacheSparesNetwork | src/hooks/useCalendar.ts:213-216 | with a fresh snapshot the network does not affect the outcome |
| CalendarHook.FetchOutcome | src/hooks/useCalendar.ts:222-249 | the error clears exactly when the feed answers; then the shown events are the feed's, the time is the arrival time and the storage is the write of exactly those events (kept as it was when refused); `failed` leaves events and time as they were |
| CalendarHook.Controller.constructor | src/hooks/useCalendar.ts:200-203 | starts with no events, loading, no error and no update time |
| CalendarHook.Controller.FetchEvents | src/hooks/useCalendar.ts:205-250 | the state becomes the outcome of the fetch |
| CalendarHook.Controller.FetchFromFeed | src/hooks/useCalendar.ts:219-249 | after a missing or stale snapshot, the state becomes the outcome of the fetch started from the given state |
| CalendarView.PastDateLabelledNegative | src/sections/Calendar.tsx:20-25 | as written, a past date is always labelled in negative minutes |
| CalendarView.TwoMinutesAgoAsWritten | src/sections/Calendar.tsx:20-25 | as written, two minutes ago reads `-2m ago` |
| CalendarView.RelativeTimeCounts | src/sections/Calendar.tsx:20-32 | corrected, the label counts whole minutes under an hour, whole hours under a day, whole days otherwise |
| CalendarView.LabelCountReadsBack | src/sections/Calendar.tsx:25-31 | the count at the head of a label reads back as that number |
| CalendarView.SelectView | src/sections/Calendar.tsx:44-71 | the label appears exactly with an update time and is the elapsed-time label of that time, the spinner while loading, the error and the empty state only when nothing is shown and nothing loads, the box holding the hook's own error, the grid with the events |
| CalendarView.UpdatedLabelShowsElapsed | src/sections/Calendar.tsx:44-48 | after a past update the label gives the whole minutes, hours or days elapsed, and its count reads back as a number |
| CalendarView.OneOutcomeShown | src/sections/Calendar.tsx:51-71 | once loading is over exactly one of error, empty state and grid shows |
| CalendarView.ViewAfterFetch | src/sections/Calendar.tsx:57-71 | after the feed is asked: `failed` shows only with no events; a successful empty feed shows the empty state; upcoming events show in the grid |

## Left out

- Network and timers: each request is an oracle `fetch(k, url)`, which gives the body of a response that arrived within the time limit with an ok status, or nothing. The 10-second abort is kept only as the constant `FetchTimeoutMs`.
- `encodeURIComponent` is a parameter `encode`.
- `crypto.randomUUID` is a counter of opened blocks. Identifiers are therefore distinct within one parse; across parses they are not random.
- The clock: `Date.now()` and `new Date()` are parameters. `now` is the clock at the freshness check and when filtering. `later` is the clock once the feed has arrived; the time of the refresh and the stored `fetchedAt` share it, though the source reads the clock twice.
- The local time zone is a fixed offset `offsetMs`; daylight-saving changes are not modelled.
- Storage: the entry is a value `Absent`, `Unreadable` or `Blob`. A thrown `getItem`, a JSON syntax error and a blob whose `events` is not an array (the `map` throws) become `Unreadable`, which reads as no cache. A blob holds well-typed events and a numeric time; JSON that parses but has another shape (a missing title, a text time, a missing field) does not throw in the source and is read as a cache with undefined fields, and such blobs are outside the model's domain. A write refused for quota or disabled storage is the `accepted` parameter.
- JSON: a stored date is its instant, or null for an invalid date. On reload, null becomes the epoch (`EventCache.InvalidDateReloadsAsEpoch`).
- Case mapping covers ASCII only; `toUpperCase` and `toLowerCase` on other letters are not modelled.
- The upcoming filter: `end` is always set (an invalid date is still an object), so the filter keeps events whose end is a valid instant not before now. The branch on `start` is unreachable and is not modelled.
- The comparator of the sort gives NaN for an invalid start; the model treats that as "equal" and sorts stably by insertion. An engine's order for such inconsistent comparisons is not modelled beyond that.
- `unescapeICSText` is modelled as written, four replacements in sequence. It misreads an escaped backslash before `n` (`IcsValues.UnescapeMisreadsEscapedBackslash`). A left-to-right decoder is proved to invert escaping (`IcsValues.LeftToRightInvertsEscape`), but the parser keeps the source's decoder.
- EventLinks.NormalizeUrl: not idempotent for a candidate that ends in white space after the punctuation is stripped (`EventLinks.NormalizeUrlNotIdempotent`); the fixed-point lemma requires that the result does not end in white space.
- The `infoLink` field is not declared in the `CalendarEvent` interface of `src/types/calendar.ts`, but the hook sets it; the model declares it.
- CalendarView.SelectView: renders the corrected elapsed-time label (`now - date`), not the label as written (`date - now`, which reads `-2m ago` for an update two minutes old); see Findings. The label as written is `CalendarView.GetRelativeTimeAsWritten`.
- Text is a sequence of Unicode scalar values, while JavaScript strings are sequences of UTF-16 code units: `trim`, `indexOf`, `slice` and lengths differ from the model on text holding characters outside the Basic Multilingual Plane.
- React mechanics (state setters, `useEffect`, `useCallback`, re-rendering), the `console.error` calls, the `Intl` date and time formatters of the calendar section, and the markup of each event card.
- `siteConfig.ts` is not part of this model; its calendar and category fields are the `CalendarConfig` parameter.

## Findings

| source | as written | input that shows it | evidently intended | confidence | as-written member | corrected member |
|---|---|---|---|---|---|---|
| src/sections/Calendar.tsx:22 | the distance is `date - now`, negative for every past date, so the label is always in minutes with a minus sign | an update two minutes ago is labelled `-2m ago`; one three hours ago is labelled `-180m ago` | the elapsed time `now - date`, giving `2m ago` and `3h ago` | not executed | CalendarView.TwoMinutesAgoAsWritten | CalendarView.RelativeTimeCounts |
