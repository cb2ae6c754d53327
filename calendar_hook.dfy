/** The calendar hook: the state it exposes (events, loading flag, error,
    time of the last update), the fetch that refreshes it from the cache
    and the feed, and the filter that keeps upcoming events. */
module CalendarHook {
  import opened Wrappers
  import opened JsText
  import opened JsDate
  import opened CalendarTypes
  import opened EventLinks
  import opened EventCategories
  import opened IcsParser
  import opened EventCache
  import opened FeedRetriever

  /** How long a cached snapshot counts as fresh: thirty minutes. */
  const CacheDurationMs := 1000 * 60 * 30

  /** The error the hook reports: the feed failed but cached events are
      shown, or the feed failed with nothing to show. */
  datatype FetchError = CachedShown | Failed

  /** The configuration the hook reads: the feed, its proxies, the
      categories and the default category key. */
  datatype CalendarConfig = CalendarConfig(
    publicIcsUrl: string,
    proxies: ProxySetting,
    categories: seq<Category>,
    defaultKey: string)

  /** A parsed event made ready for display: its category resolved and its
      link normalised or found in the description. */
  function Enrich(e: CalendarEvent, config: CalendarConfig): (r: CalendarEvent)
    ensures r.id == e.id && r.title == e.title && r.start == e.start && r.end == e.end
    ensures r.location == e.location && r.description == e.description
    ensures r.categoryKey == Some(ResolveCategoryKey(r, config.categories, config.defaultKey))
    ensures r.infoLink == LinkFor(e.infoLink, e.description)
    ensures r.infoLink.Some? ==> HasScheme(r.infoLink.value)
  {
    e.(categoryKey := Some(ResolveCategoryKey(e, config.categories, config.defaultKey)),
       infoLink := LinkFor(e.infoLink, e.description))
  }

  /** The category of a fetched event follows the categoriser's rule: a
      tag in the description decides; without one the first category, in
      configured order, whose keyword the text mentions; the default key
      only when no category is mentioned. */
  lemma EnrichedCategoryRule(e: CalendarEvent, config: CalendarConfig)
    ensures var key := Enrich(e, config).categoryKey;
            var tag := DirectTag(ToLower(OrEmpty(e.description)));
            var cats := config.categories;
            && (tag.Some? ==> key == tag)
            && (tag.None? && (forall i :: 0 <= i < |cats| ==> !Mentions(Haystack(e), cats[i]))
                ==> key == Some(config.defaultKey))
            && (forall i :: (tag.None? && 0 <= i < |cats| && Mentions(Haystack(e), cats[i])
                             && forall j :: 0 <= j < i ==> !Mentions(Haystack(e), cats[j]))
                            ==> key == Some(cats[i].key))
  {
    if DirectTag(ToLower(OrEmpty(e.description))).None? {
      KeywordsDecideWithoutTag(e, config.categories, config.defaultKey);
    }
  }

  /** A fetched event whose description opens with `#key` gets that key. */
  lemma EnrichedHashTag(e: CalendarEvent, key: string, rest: string, config: CalendarConfig)
    requires key in TagKeys
    requires e.description == Some("#" + key + rest)
    requires rest == [] || !IsWordChar(LowerChar(rest[0]))
    ensures Enrich(e, config).categoryKey == Some(key)
  {
    HashTagWins(e, key, rest, config.categories, config.defaultKey);
  }

  /** A parsed event with valid dates, written to the cache without a
      category and read back, is categorised and linked exactly as the
      fetch does it. */
  lemma ReloadCategorisesLikeFetch(e: CalendarEvent, config: CalendarConfig)
    requires e.categoryKey.None? && e.start.At? && e.end.At?
    ensures Rehydrate(ToStored(e), config.categories, config.defaultKey) == Enrich(e, config)
  {
  }

  function EnrichAll(events: seq<CalendarEvent>, config: CalendarConfig): (r: seq<CalendarEvent>)
    ensures |r| == |events| && forall k :: 0 <= k < |events| ==> r[k] == Enrich(events[k], config)
  {
    seq(|events|, k requires 0 <= k < |events| => Enrich(events[k], config))
  }

  /** The events of a fetched feed text, as the hook shows and stores them. */
  function FetchedEvents(text: string, offsetMs: int, config: CalendarConfig): seq<CalendarEvent> {
    EnrichAll(ParsedFeed(text, offsetMs), config)
  }

  /** An enriched event with valid dates, whose link does not end in white
      space, reads back from the cache as it was written. */
  lemma EnrichedSettles(e: CalendarEvent, config: CalendarConfig)
    requires e.start.At? && e.end.At?
    requires var l := LinkFor(e.infoLink, e.description); l.Some? ==> !IsSpace(l.value[|l.value| - 1])
    ensures Settled(Enrich(e, config))
  {
    LinkForSettles(e.infoLink, e.description);
  }

  /** After a successful refresh the next read of the cache gives the same
      events and the time of the refresh; within the cache duration, a
      refresh that is not forced is then answered from the cache alone. */
  lemma {:induction false} RefreshSurvivesReload(previous: Stored, text: string, offsetMs: int,
                                                 config: CalendarConfig, later: int, now: int)
    requires var es := ParsedFeed(text, offsetMs);
             forall k :: 0 <= k < |es| ==>
               && es[k].start.At? && es[k].end.At?
               && var l := LinkFor(es[k].infoLink, es[k].description); l.Some? ==> !IsSpace(l.value[|l.value| - 1])
    ensures var events := FetchedEvents(text, offsetMs, config);
            GetCachedEvents(SetCachedEvents(previous, events, later, true), config.categories, config.defaultKey)
            == Some(CachedCalendarData(events, later))
    ensures now - later < CacheDurationMs ==> IsFresh(
              GetCachedEvents(SetCachedEvents(previous, FetchedEvents(text, offsetMs, config), later, true),
                              config.categories, config.defaultKey), false, now)
  {
    var es := ParsedFeed(text, offsetMs);
    var events := FetchedEvents(text, offsetMs, config);
    forall k | 0 <= k < |events| ensures Settled(events[k]) {
      EnrichedSettles(es[k], config);
    }
    CacheRoundTrip(previous, events, later, config.categories, config.defaultKey);
  }

  /** A cached snapshot spares the network unless the refresh is forced or
      the snapshot is older than the cache duration. */
  predicate IsFresh(cached: Option<CachedCalendarData>, force: bool, now: int) {
    cached.Some? && !force && now - cached.value.fetchedAt < CacheDurationMs
  }

  /** The end is always present (an invalid date is still a date), so the
      event is upcoming when its end is a valid instant not before now. */
  predicate IsUpcoming(e: CalendarEvent, now: int) {
    e.end.At? && e.end.ms >= now
  }

  /** The upcoming and ongoing events, in their order. */
  function Upcoming(events: seq<CalendarEvent>, now: int): (r: seq<CalendarEvent>)
    ensures |r| <= |events|
    ensures forall k :: 0 <= k < |r| ==> r[k] in events && IsUpcoming(r[k], now)
    ensures forall k :: 0 <= k < |events| && IsUpcoming(events[k], now) ==> events[k] in r
  {
    if events == [] then []
    else
      var rest := Upcoming(events[1..], now);
      assert forall k :: 1 <= k < |events| ==> events[k] == events[1..][k - 1];
      if IsUpcoming(events[0], now) then [events[0]] + rest else rest
  }

  /** Each event is kept as many times as it occurs, or dropped altogether. */
  lemma {:induction false} UpcomingCounts(events: seq<CalendarEvent>, now: int)
    ensures forall e :: multiset(Upcoming(events, now))[e] == if IsUpcoming(e, now) then multiset(events)[e] else 0
  {
    if events != [] {
      UpcomingCounts(events[1..], now);
      assert events == [events[0]] + events[1..];
    }
  }

  /** The positions, from `lo` on, of the upcoming events, in increasing order. */
  function UpcomingPositions(events: seq<CalendarEvent>, now: int, lo: nat): (idx: seq<nat>)
    requires lo <= |events|
    ensures forall k :: 0 <= k < |idx| ==> lo <= idx[k] < |events| && IsUpcoming(events[idx[k]], now)
    ensures forall k, m :: 0 <= k < m < |idx| ==> idx[k] < idx[m]
    ensures forall i :: lo <= i < |events| && IsUpcoming(events[i], now) ==> i in idx
    decreases |events| - lo
  {
    if lo == |events| then []
    else
      var rest := UpcomingPositions(events, now, lo + 1);
      if IsUpcoming(events[lo], now) then [lo] + rest else rest
  }

  lemma UpcomingFromStep(events: seq<CalendarEvent>, now: int, lo: nat)
    requires lo < |events|
    ensures Upcoming(events[lo..], now)
            == if IsUpcoming(events[lo], now) then [events[lo]] + Upcoming(events[lo + 1..], now)
               else Upcoming(events[lo + 1..], now)
  {
    assert events[lo..][1..] == events[lo + 1..];
    assert events[lo..][0] == events[lo];
  }

  /** The filter is the order-preserving selection of exactly the upcoming
      positions: its k-th event is the event at the k-th such position. */
  lemma {:induction false} UpcomingSelects(events: seq<CalendarEvent>, now: int, lo: nat)
    requires lo <= |events|
    ensures var idx := UpcomingPositions(events, now, lo);
            |Upcoming(events[lo..], now)| == |idx|
            && forall k :: 0 <= k < |idx| ==> Upcoming(events[lo..], now)[k] == events[idx[k]]
    decreases |events| - lo
  {
    if lo < |events| {
      UpcomingSelects(events, now, lo + 1);
      UpcomingFromStep(events, now, lo);
      var rest := UpcomingPositions(events, now, lo + 1);
      var tail := Upcoming(events[lo + 1..], now);
      if IsUpcoming(events[lo], now) {
        var idx := [lo] + rest;
        var r := [events[lo]] + tail;
        assert UpcomingPositions(events, now, lo) == idx;
        forall k | 0 <= k < |idx| ensures r[k] == events[idx[k]] {
          if k > 0 {
            assert r[k] == tail[k - 1] && idx[k] == rest[k - 1];
          }
        }
      } else {
        assert UpcomingPositions(events, now, lo) == rest;
      }
    }
  }

  /** The grid shows the events in the order the parser sorted them. */
  lemma UpcomingKeepsOrder(events: seq<CalendarEvent>, now: int)
    requires SortedByStart(events)
    ensures SortedByStart(Upcoming(events, now))
  {
    UpcomingSelects(events, now, 0);
    assert events[0..] == events;
    var idx := UpcomingPositions(events, now, 0);
    var r := Upcoming(events, now);
    forall k, m | 0 <= k < m < |r| ensures StartMs(r[k]) <= StartMs(r[m]) {
      assert r[k] == events[idx[k]] && r[m] == events[idx[m]];
    }
  }

  /** Filtering twice is filtering once. */
  lemma {:induction false} UpcomingIdempotent(events: seq<CalendarEvent>, now: int)
    ensures Upcoming(Upcoming(events, now), now) == Upcoming(events, now)
  {
    if events != [] {
      UpcomingIdempotent(events[1..], now);
      var rest := Upcoming(events[1..], now);
      if IsUpcoming(events[0], now) {
        assert ([events[0]] + rest)[1..] == rest;
      }
    }
  }

  /** What is upcoming later was upcoming earlier. */
  lemma {:induction false} UpcomingShrinks(events: seq<CalendarEvent>, earlier: int, later: int)
    requires earlier <= later
    ensures forall k :: 0 <= k < |Upcoming(events, later)| ==> Upcoming(events, later)[k] in Upcoming(events, earlier)
  {
    forall k | 0 <= k < |Upcoming(events, later)|
      ensures Upcoming(events, later)[k] in Upcoming(events, earlier)
    {
      var e := Upcoming(events, later)[k];
      var m :| 0 <= m < |events| && events[m] == e;
    }
  }

  /** Every event on display has a category, and its link, if any, has a scheme. */
  predicate ValidEvents(events: seq<CalendarEvent>) {
    forall k :: 0 <= k < |events| ==>
      events[k].categoryKey.Some? && (events[k].infoLink.Some? ==> HasScheme(events[k].infoLink.value))
  }

  /** A snapshot of the hook's state. */
  datatype HookState = HookState(
    events: seq<CalendarEvent>,
    loading: bool,
    error: Option<FetchError>,
    lastUpdated: Option<int>,
    storage: Stored)

  /** Events read back from the cache are shown with a category and a schemed link. */
  lemma CachedEventsValid(stored: Stored, config: CalendarConfig)
    ensures var cached := GetCachedEvents(stored, config.categories, config.defaultKey);
            cached.Some? ==> ValidEvents(cached.value.events)
  {
  }

  /** Fetched events are shown with a category and a schemed link. */
  lemma FetchedEventsValid(text: string, offsetMs: int, config: CalendarConfig)
    ensures ValidEvents(FetchedEvents(text, offsetMs, config))
  {
  }

  /** The state once fetchEvents has finished. A readable cache is shown
      first; a fresh one ends the fetch. Otherwise the feed decides: its
      events replace what is shown, are stored and clear the error; its
      failure leaves the events as they are and reports whether cached
      events are on display. */
  function AfterFetch(s: HookState, force: bool, config: CalendarConfig, encode: string -> string,
                      fetch: (nat, string) -> Option<string>,
                      now: int, later: int, offsetMs: int, accepted: bool): (r: HookState)
    ensures !r.loading
    ensures ValidEvents(s.events) ==> ValidEvents(r.events)
  {
    var cached := GetCachedEvents(s.storage, config.categories, config.defaultKey);
    var text := Retrieve(config.publicIcsUrl, config.proxies, encode, fetch);
    CachedEventsValid(s.storage, config);
    if IsFresh(cached, force, now) then
      HookState(cached.value.events, false, s.error, Some(cached.value.fetchedAt), s.storage)
    else if text.Some? then
      var events := FetchedEvents(text.value, offsetMs, config);
      FetchedEventsValid(text.value, offsetMs, config);
      HookState(events, false, None, Some(later), SetCachedEvents(s.storage, events, later, accepted))
    else if cached.Some? then
      HookState(cached.value.events, false, Some(CachedShown), Some(cached.value.fetchedAt), s.storage)
    else
      HookState(s.events, false, Some(Failed), s.lastUpdated, s.storage)
  }

  // The four outcomes of AfterFetch, one lemma each.

  lemma AfterFetchFresh(s: HookState, force: bool, config: CalendarConfig, encode: string -> string,
                        fetch: (nat, string) -> Option<string>,
                        now: int, later: int, offsetMs: int, accepted: bool)
    requires IsFresh(GetCachedEvents(s.storage, config.categories, config.defaultKey), force, now)
    ensures var cached := GetCachedEvents(s.storage, config.categories, config.defaultKey).value;
            AfterFetch(s, force, config, encode, fetch, now, later, offsetMs, accepted)
            == HookState(cached.events, false, s.error, Some(cached.fetchedAt), s.storage)
  {
  }

  lemma AfterFetchFetched(s: HookState, force: bool, config: CalendarConfig, encode: string -> string,
                          fetch: (nat, string) -> Option<string>,
                          now: int, later: int, offsetMs: int, accepted: bool, text: string)
    requires !IsFresh(GetCachedEvents(s.storage, config.categories, config.defaultKey), force, now)
    requires Retrieve(config.publicIcsUrl, config.proxies, encode, fetch) == Some(text)
    ensures var events := FetchedEvents(text, offsetMs, config);
            AfterFetch(s, force, config, encode, fetch, now, later, offsetMs, accepted)
            == HookState(events, false, None, Some(later), SetCachedEvents(s.storage, events, later, accepted))
  {
  }

  lemma AfterFetchCachedShown(s: HookState, force: bool, config: CalendarConfig, encode: string -> string,
                              fetch: (nat, string) -> Option<string>,
                              now: int, later: int, offsetMs: int, accepted: bool)
    requires !IsFresh(GetCachedEvents(s.storage, config.categories, config.defaultKey), force, now)
    requires Retrieve(config.publicIcsUrl, config.proxies, encode, fetch).None?
    requires GetCachedEvents(s.storage, config.categories, config.defaultKey).Some?
    ensures var cached := GetCachedEvents(s.storage, config.categories, config.defaultKey).value;
            AfterFetch(s, force, config, encode, fetch, now, later, offsetMs, accepted)
            == HookState(cached.events, false, Some(CachedShown), Some(cached.fetchedAt), s.storage)
  {
  }

  lemma AfterFetchFailed(s: HookState, force: bool, config: CalendarConfig, encode: string -> string,
                         fetch: (nat, string) -> Option<string>,
                         now: int, later: int, offsetMs: int, accepted: bool)
    requires Retrieve(config.publicIcsUrl, config.proxies, encode, fetch).None?
    requires GetCachedEvents(s.storage, config.categories, config.defaultKey).None?
    ensures AfterFetch(s, force, config, encode, fetch, now, later, offsetMs, accepted)
            == HookState(s.events, false, Some(Failed), s.lastUpdated, s.storage)
  {
  }

  /** A fresh cache answers alone: what the network would do does not matter. */
  lemma FreshCacheSparesNetwork(s: HookState, config: CalendarConfig, encode: string -> string,
                                fetch1: (nat, string) -> Option<string>, fetch2: (nat, string) -> Option<string>,
                                now: int, later: int, offsetMs: int, accepted: bool)
    requires IsFresh(GetCachedEvents(s.storage, config.categories, config.defaultKey), false, now)
    ensures AfterFetch(s, false, config, encode, fetch1, now, later, offsetMs, accepted)
            == AfterFetch(s, false, config, encode, fetch2, now, later, offsetMs, accepted)
  {
  }

  /** The error is cleared exactly when the feed text arrives, and a
      successful fetch stores what it shows whenever the storage accepts it. */
  lemma FetchOutcome(s: HookState, force: bool, config: CalendarConfig, encode: string -> string,
                     fetch: (nat, string) -> Option<string>, now: int, later: int, offsetMs: int, accepted: bool)
    requires !IsFresh(GetCachedEvents(s.storage, config.categories, config.defaultKey), force, now)
    ensures var r := AfterFetch(s, force, config, encode, fetch, now, later, offsetMs, accepted);
            && (r.error.None? <==> Retrieve(config.publicIcsUrl, config.proxies, encode, fetch).Some?)
            && (r.error.None? ==>
                  && r.events == FetchedEvents(Retrieve(config.publicIcsUrl, config.proxies, encode, fetch).value, offsetMs, config)
                  && r.lastUpdated == Some(later)
                  && r.storage == SetCachedEvents(s.storage, r.events, later, accepted))
            && (r.error.None? && accepted ==>
                  GetCachedEvents(r.storage, config.categories, config.defaultKey).Some?
                  && |GetCachedEvents(r.storage, config.categories, config.defaultKey).value.events| == |r.events|)
            && (r.error == Some(Failed) ==> r.events == s.events && r.lastUpdated == s.lastUpdated)
  {
  }

  /** The hook's state. `storage` is the browser's entry under the cache key. */
  class Controller {
    var events: seq<CalendarEvent>
    var loading: bool
    var error: Option<FetchError>
    var lastUpdated: Option<int>
    var storage: Stored

    function State(): HookState
      reads this
    {
      HookState(events, loading, error, lastUpdated, storage)
    }

    predicate Valid()
      reads this
    {
      ValidEvents(events)
    }

    /** The initial state: no events, loading, no error, never updated. */
    constructor(storage: Stored)
      ensures Valid()
      ensures State() == HookState([], true, None, None, storage)
    {
      events := [];
      loading := true;
      error := None;
      lastUpdated := None;
      this.storage := storage;
    }

    /** fetchEvents. `now` is the clock at the freshness check, `later` the
        clock once the feed has arrived; `offsetMs` is the local time zone;
        `accepted` says whether the storage takes the new snapshot. */
    method FetchEvents(force: bool, config: CalendarConfig, encode: string -> string,
                       fetch: (nat, string) -> Option<string>,
                       now: int, later: int, offsetMs: int, accepted: bool)
      requires Valid()
      modifies this
      ensures Valid()
      ensures State() == AfterFetch(old(State()), force, config, encode, fetch, now, later, offsetMs, accepted)
    {
      ghost var before := State();
      var cached := GetCachedEvents(storage, config.categories, config.defaultKey);
      CachedEventsValid(storage, config);
      if cached.Some? {
        events := cached.value.events;
        lastUpdated := Some(cached.value.fetchedAt);
        loading := false;
        if !force && now - cached.value.fetchedAt < CacheDurationMs {
          AfterFetchFresh(before, force, config, encode, fetch, now, later, offsetMs, accepted);
          assert Valid();
          return;
        }
      }

      loading := true;
      FetchFromFeed(before, force, config, encode, fetch, now, later, offsetMs, accepted, cached);
    }

    /** The part of fetchEvents after a cache that is missing or stale: the
        feed's events replace what is shown and are stored; without them
        the cached events, if any, stay on display with the matching error.
        `before` is the state fetchEvents started from. */
    method FetchFromFeed(ghost before: HookState, force: bool, config: CalendarConfig, encode: string -> string,
                         fetch: (nat, string) -> Option<string>,
                         now: int, later: int, offsetMs: int, accepted: bool, cached: Option<CachedCalendarData>)
      requires cached == GetCachedEvents(before.storage, config.categories, config.defaultKey)
      requires !IsFresh(cached, force, now)
      requires storage == before.storage
      requires cached.None? ==> events == before.events && lastUpdated == before.lastUpdated
      requires cached.Some? ==> events == cached.value.events && lastUpdated == Some(cached.value.fetchedAt)
      requires Valid()
      modifies this
      ensures Valid()
      ensures State() == AfterFetch(before, force, config, encode, fetch, now, later, offsetMs, accepted)
    {
      var text := FetchIcsText(config.publicIcsUrl, config.proxies, encode, fetch);
      if text.Some? {
        var parsedEvents := ParseIcs(text.value, offsetMs);
        var categorizedEvents := EnrichAll(parsedEvents, config);
        assert categorizedEvents == FetchedEvents(text.value, offsetMs, config);
        events := categorizedEvents;
        lastUpdated := Some(later);
        storage := SetCachedEvents(storage, categorizedEvents, later, accepted);
        error := None;
        loading := false;
        AfterFetchFetched(before, force, config, encode, fetch, now, later, offsetMs, accepted, text.value);
        FetchedEventsValid(text.value, offsetMs, config);
        assert Valid();
      } else if cached.Some? {
        error := Some(CachedShown);
        loading := false;
        AfterFetchCachedShown(before, force, config, encode, fetch, now, later, offsetMs, accepted);
        assert Valid();
      } else {
        error := Some(Failed);
        loading := false;
        AfterFetchFailed(before, force, config, encode, fetch, now, later, offsetMs, accepted);
        assert Valid();
      }
    }
  }
}
