/** The records the calendar code passes around. */
module CalendarTypes {
  import opened Wrappers
  import opened JsDate

  /** One event of the feed. `id` stands for the random identifier given
      when the event's block opens; `infoLink` is the optional link the
      hook fills in beside the declared fields. */
  datatype CalendarEvent = CalendarEvent(
    id: nat,
    title: string,
    start: Time,
    end: Time,
    location: Option<string>,
    description: Option<string>,
    infoLink: Option<string>,
    categoryKey: Option<string>)

  /** The snapshot kept in browser storage. */
  datatype CachedCalendarData = CachedCalendarData(events: seq<CalendarEvent>, fetchedAt: int)
}
