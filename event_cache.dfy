/** The browser-storage snapshot of the events: what writing it keeps, what
    reading it back rebuilds, and when the two agree. Storage is a value
    here: the entry under the cache key is absent, unreadable (the storage
    or the JSON parser throws, or the shape is wrong) or a stored blob. */
module EventCache {
  import opened Wrappers
  import opened JsText
  import opened JsDate
  import opened CalendarTypes
  import opened EventLinks
  import opened EventCategories

  const CacheKey := "mom-calendar-events"

  /** An event as JSON keeps it: a date becomes its instant, or null when
      it is invalid; absent optional fields stay absent. */
  datatype StoredEvent = StoredEvent(
    id: nat,
    title: string,
    start: Option<int>,
    end: Option<int>,
    location: Option<string>,
    description: Option<string>,
    infoLink: Option<string>,
    categoryKey: Option<string>)

  datatype Stored = Absent | Unreadable | Blob(events: seq<StoredEvent>, fetchedAt: int)

  /** `Date.prototype.toJSON`: the ISO text of a valid date, null for an invalid one. */
  function StoreTime(t: Time): (v: Option<int>)
    ensures v.Some? <==> t.At?
  {
    match t
    case At(ms) => Some(ms)
    case Invalid => None
  }

  /** `new Date(v)` on a stored value: the ISO text gives the instant back,
      null gives the epoch. */
  function LoadTime(v: Option<int>): (t: Time)
    ensures t.At?
  {
    match v
    case Some(ms) => At(ms)
    case None => At(0)
  }

  function ToStored(e: CalendarEvent): StoredEvent {
    StoredEvent(e.id, e.title, StoreTime(e.start), StoreTime(e.end), e.location, e.description, e.infoLink, e.categoryKey)
  }

  /** setCachedEvents: when the storage accepts the write, the entry becomes
      the events and the time of writing; when it refuses (quota, disabled
      storage), the error is swallowed and the old entry stays. */
  function SetCachedEvents(previous: Stored, events: seq<CalendarEvent>, now: int, accepted: bool): (r: Stored)
    ensures accepted ==> r.Blob? && r.fetchedAt == now && |r.events| == |events|
                         && forall k :: 0 <= k < |events| ==> r.events[k] == ToStored(events[k])
    ensures !accepted ==> r == previous
  {
    if accepted then Blob(seq(|events|, k requires 0 <= k < |events| => ToStored(events[k])), now)
    else previous
  }

  /** The link of an event: its own link when that normalises to a URL,
      otherwise the one found in its description. */
  function LinkFor(infoLink: Option<string>, description: Option<string>): (r: Option<string>)
    ensures r.Some? ==> HasScheme(r.value)
    ensures NormalizeUrl(infoLink).Some? ==> r == NormalizeUrl(infoLink)
    ensures NormalizeUrl(infoLink).None? ==> r == ExtractLinkFromDescription(description)
  {
    NormalizeUrl(infoLink).OrElse(ExtractLinkFromDescription(description))
  }

  /** One event read back: dates rebuilt, a missing category resolved, the
      link recomputed. */
  function Rehydrate(se: StoredEvent, categories: seq<Category>, defaultKey: string): (r: CalendarEvent)
    ensures r.id == se.id && r.title == se.title && r.location == se.location && r.description == se.description
    ensures r.start == LoadTime(se.start) && r.end == LoadTime(se.end)
    ensures se.categoryKey.Some? ==> r.categoryKey == se.categoryKey
    ensures se.categoryKey.None? ==> r.categoryKey == Some(ResolveCategoryKey(r, categories, defaultKey))
    ensures r.infoLink == LinkFor(se.infoLink, se.description)
  {
    var e := CalendarEvent(se.id, se.title, LoadTime(se.start), LoadTime(se.end),
                           se.location, se.description, se.infoLink, se.categoryKey);
    var key := if se.categoryKey.Some? then se.categoryKey.value else ResolveCategoryKey(e, categories, defaultKey);
    e.(categoryKey := Some(key), infoLink := LinkFor(se.infoLink, se.description))
  }

  /** getCachedEvents: nothing without a readable entry. */
  function GetCachedEvents(stored: Stored, categories: seq<Category>, defaultKey: string): (r: Option<CachedCalendarData>)
    ensures r.Some? <==> stored.Blob?
    ensures r.Some? ==> r.value.fetchedAt == stored.fetchedAt && |r.value.events| == |stored.events|
                        && forall k :: 0 <= k < |stored.events| ==>
                             r.value.events[k] == Rehydrate(stored.events[k], categories, defaultKey)
  {
    match stored
    case Blob(events, fetchedAt) =>
      Some(CachedCalendarData(seq(|events|, k requires 0 <= k < |events| => Rehydrate(events[k], categories, defaultKey)), fetchedAt))
    case _ => None
  }

  /** An event that reading back leaves as it is: valid dates, a category,
      and a link that recomputing gives again. */
  predicate Settled(e: CalendarEvent) {
    && e.start.At? && e.end.At?
    && e.categoryKey.Some?
    && LinkFor(e.infoLink, e.description) == e.infoLink
  }

  lemma RehydrateSettled(e: CalendarEvent, categories: seq<Category>, defaultKey: string)
    requires Settled(e)
    ensures Rehydrate(ToStored(e), categories, defaultKey) == e
  {
  }

  /** Settled events survive a write and a read unchanged, together with
      the time of writing. */
  lemma {:induction false} CacheRoundTrip(previous: Stored, events: seq<CalendarEvent>, now: int,
                                          categories: seq<Category>, defaultKey: string)
    requires forall k :: 0 <= k < |events| ==> Settled(events[k])
    ensures GetCachedEvents(SetCachedEvents(previous, events, now, true), categories, defaultKey)
            == Some(CachedCalendarData(events, now))
  {
    var stored := SetCachedEvents(previous, events, now, true);
    var back := GetCachedEvents(stored, categories, defaultKey).value;
    forall k | 0 <= k < |events| ensures back.events[k] == events[k] {
      RehydrateSettled(events[k], categories, defaultKey);
    }
    assert back.events == events;
  }

  /** An invalid date is written as null and comes back as the epoch. */
  lemma InvalidDateReloadsAsEpoch(e: CalendarEvent, categories: seq<Category>, defaultKey: string)
    requires e.start.Invalid?
    ensures Rehydrate(ToStored(e), categories, defaultKey).start == At(0)
    ensures Rehydrate(ToStored(e), categories, defaultKey) != e
  {
  }

  /** A link that normalisation produced and that does not end in white
      space normalises to itself. */
  lemma ExtractedLinkSettles(description: Option<string>, u: string)
    requires ExtractLinkFromDescription(description) == Some(u) && !IsSpace(u[|u| - 1])
    ensures NormalizeUrl(Some(u)) == Some(u)
  {
    var decoded := DecodeHtmlEntities(description.value);
    if NormalizeUrl(HrefValue(decoded)).Some? {
      NormalizeUrlFixedPoint(HrefValue(decoded), u);
    } else if NormalizeUrl(LinkTagValue(decoded)).Some? {
      NormalizeUrlFixedPoint(LinkTagValue(decoded), u);
    } else {
      NormalizeUrlFixedPoint(Some(decoded), u);
    }
  }

  /** Recomputing the link of an event whose link was just computed gives
      it again, unless the link ends in white space. */
  lemma LinkForSettles(infoLink: Option<string>, description: Option<string>)
    requires var l := LinkFor(infoLink, description); l.Some? ==> !IsSpace(l.value[|l.value| - 1])
    ensures LinkFor(LinkFor(infoLink, description), description) == LinkFor(infoLink, description)
  {
    var l := LinkFor(infoLink, description);
    if l.Some? {
      var u := l.value;
      if NormalizeUrl(infoLink).Some? {
        NormalizeUrlFixedPoint(infoLink, u);
      } else {
        ExtractedLinkSettles(description, u);
      }
      KeptLink(u, description);
    } else {
      assert NormalizeUrl(None).None?;
    }
  }

  lemma KeptLink(u: string, description: Option<string>)
    requires NormalizeUrl(Some(u)) == Some(u)
    ensures LinkFor(Some(u), description) == Some(u)
  {
  }
}
