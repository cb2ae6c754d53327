/** The calendar section: the "last updated" label and which blocks it
    renders for a given hook state. */
module CalendarView {
  import opened Wrappers
  import opened JsText
  import opened JsDate
  import opened CalendarTypes
  import opened EventCache
  import opened FeedRetriever
  import opened CalendarHook

  /** How getRelativeTime labels a count of `unit`-sized periods. */
  function Label(count: int, unit: string): string {
    IntToString(count) + unit + " ago"
  }

  /** The label for a signed distance in milliseconds: whole minutes below
      an hour, whole hours below a day, whole days otherwise. `/` rounds
      down here, as `Math.floor` of the quotient does, the divisors being
      positive. */
  function LabelFor(diff: int): string {
    var minutes := diff / 60000;
    if minutes < 60 then Label(minutes, "m")
    else
      var hours := minutes / 60;
      if hours < 24 then Label(hours, "h")
      else Label(hours / 24, "d")
  }

  /** getRelativeTime as written: the distance is the date minus now, which
      is negative for every date in the past. */
  function GetRelativeTimeAsWritten(date: int, now: int): string {
    LabelFor(date - now)
  }

  /** getRelativeTime as intended: the time elapsed since the date. */
  function GetRelativeTime(date: int, now: int): string {
    LabelFor(now - date)
  }

  /** As written, a past date is always labelled in minutes, with a count
      below zero. */
  lemma PastDateLabelledNegative(date: int, now: int)
    requires date < now
    ensures var m := (date - now) / 60000;
            m < 0 && GetRelativeTimeAsWritten(date, now) == Label(m, "m")
  {
  }

  /** Two minutes ago reads "-2m ago". */
  lemma TwoMinutesAgoAsWritten(now: int)
    ensures GetRelativeTimeAsWritten(now - 120000, now) == "-2m ago"
  {
    assert (now - 120000) - now == -120000;
    assert -120000 / 60000 == -2;
    assert NatToString(2) == "2";
  }

  lemma MinutesToHours(x: int)
    ensures (x / 60000) / 60 == x / 3600000
  {
  }

  lemma HoursToDays(x: int)
    ensures (x / 3600000) / 24 == x / 86400000
  {
  }

  /** As intended, the label of a past date is the number of whole
      minutes, hours or days elapsed, in the largest unit that keeps the
      count meaningful, and `parseInt` reads that count back. */
  lemma RelativeTimeCounts(date: int, now: int)
    requires date <= now
    ensures var elapsed := now - date;
            var rendered := GetRelativeTime(date, now);
            || (elapsed < 3600000 && rendered == Label(elapsed / 60000, "m"))
            || (3600000 <= elapsed < 86400000 && rendered == Label(elapsed / 3600000, "h"))
            || (86400000 <= elapsed && rendered == Label(elapsed / 86400000, "d"))
  {
    var elapsed := now - date;
    MinutesToHours(elapsed);
    HoursToDays(elapsed);
  }

  /** The count leads the label and reads back as a number. */
  lemma LabelCountReadsBack(count: int, unit: string)
    requires unit == "m" || unit == "h" || unit == "d"
    ensures ParseInt(Label(count, unit)) == Some(count)
  {
    assert Label(count, unit) == IntToString(count) + (unit + " ago");
    ParseIntRendered(count, unit + " ago");
  }

  /** Which blocks the section renders. */
  datatype View = View(updatedLabel: Option<string>, spinner: bool, errorBox: Option<FetchError>,
                       emptyState: bool, grid: seq<CalendarEvent>)

  /** The render conditions: the label whenever the hook has a time of last
      update, the spinner while loading, the error only when nothing is
      shown and nothing loads, the empty state only without an error, the
      grid whenever there are events. */
  function SelectView(events: seq<CalendarEvent>, loading: bool, error: Option<FetchError>,
                      lastUpdated: Option<int>, now: int): (v: View)
    ensures v.updatedLabel.Some? <==> lastUpdated.Some?
    ensures lastUpdated.Some? ==> v.updatedLabel == Some(GetRelativeTime(lastUpdated.value, now))
    ensures v.spinner <==> loading
    ensures v.errorBox.Some? <==> error.Some? && !loading && events == []
    ensures v.errorBox.Some? ==> v.errorBox == error
    ensures v.emptyState <==> !loading && events == [] && error.None?
    ensures v.grid == events
  {
    View(if lastUpdated.Some? then Some(GetRelativeTime(lastUpdated.value, now)) else None,
         loading,
         if error.Some? && !loading && |events| == 0 then error else None,
         !loading && |events| == 0 && error.None?,
         if |events| > 0 then events else [])
  }

  /** The label shown after a past update is the time elapsed since it, in
      whole minutes, hours or days, and its count reads back as a number. */
  lemma UpdatedLabelShowsElapsed(events: seq<CalendarEvent>, loading: bool, error: Option<FetchError>,
                                 updated: int, now: int)
    requires updated <= now
    ensures var text := SelectView(events, loading, error, Some(updated), now).updatedLabel;
            var elapsed := now - updated;
            && text.Some?
            && (elapsed < 3600000 ==>
                  text.value == Label(elapsed / 60000, "m")
                  && ParseInt(text.value) == Some(elapsed / 60000))
            && (3600000 <= elapsed < 86400000 ==>
                  text.value == Label(elapsed / 3600000, "h")
                  && ParseInt(text.value) == Some(elapsed / 3600000))
            && (86400000 <= elapsed ==>
                  text.value == Label(elapsed / 86400000, "d")
                  && ParseInt(text.value) == Some(elapsed / 86400000))
  {
    var elapsed := now - updated;
    RelativeTimeCounts(updated, now);
    LabelCountReadsBack(elapsed / 60000, "m");
    LabelCountReadsBack(elapsed / 3600000, "h");
    LabelCountReadsBack(elapsed / 86400000, "d");
  }

  /** Once loading is over exactly one of the error, the empty state and the
      grid is rendered; while loading, the error and the empty state are not. */
  lemma OneOutcomeShown(events: seq<CalendarEvent>, loading: bool, error: Option<FetchError>,
                        lastUpdated: Option<int>, now: int)
    ensures var v := SelectView(events, loading, error, lastUpdated, now);
            && (!loading ==> (if v.errorBox.Some? then 1 else 0) + (if v.emptyState then 1 else 0)
                             + (if v.grid != [] then 1 else 0) == 1)
            && (loading ==> v.errorBox.None? && !v.emptyState)
  {
  }

  /** What the section shows once the feed has been asked: the upcoming
      events when there are any, the failure only when nothing is shown,
      and the empty state after a successful fetch with nothing upcoming. */
  lemma ViewAfterFetch(s: HookState, force: bool, config: CalendarConfig, encode: string -> string,
                       fetch: (nat, string) -> Option<string>,
                       now: int, later: int, offsetMs: int, accepted: bool)
    requires !IsFresh(GetCachedEvents(s.storage, config.categories, config.defaultKey), force, now)
    ensures var r := AfterFetch(s, force, config, encode, fetch, now, later, offsetMs, accepted);
            var shown := Upcoming(r.events, now);
            var v := SelectView(shown, r.loading, r.error, r.lastUpdated, now);
            && !v.spinner
            && (v.errorBox == Some(Failed) ==> r.events == s.events && shown == [])
            && (Retrieve(config.publicIcsUrl, config.proxies, encode, fetch).Some? && shown == [] ==> v.emptyState)
            && (shown != [] ==> v.grid == shown && v.errorBox.None? && !v.emptyState)
  {
    FetchOutcome(s, force, config, encode, fetch, now, later, offsetMs, accepted);
  }
}
