/** The part of ECMAScript's Date arithmetic that the feed's date values go
    through: Date.UTC, the local-time Date constructor, and TimeClip. A Date
    is its time value, milliseconds since 1970-01-01T00:00:00Z, or NaN for an
    invalid date. */
module JsDate {
  import opened Wrappers

  /** A Date's time value; `Invalid` is the NaN of an "Invalid Date". */
  datatype Time = At(ms: int) | Invalid

  const MsPerMinute: int := 60000
  const MsPerHour: int := 3600000
  const MsPerDay: int := 86400000
  /** The largest magnitude a time value may have. */
  const MaxTimeMs: int := 8640000000000000

  function TimeClip(t: int): (r: Time)
    ensures r.At? <==> -MaxTimeMs <= t <= MaxTimeMs
    ensures r.At? ==> r.ms == t
  {
    if -MaxTimeMs <= t <= MaxTimeMs then At(t) else Invalid
  }

  /** Days from 1970-01-01 to the given day of the proleptic Gregorian
      calendar (month 1 to 12), counting from a March-based year. */
  function DaysFromCivil(y: int, m: int, d: int): int
    requires 1 <= m <= 12
  {
    var y' := if m <= 2 then y - 1 else y;
    var era := y' / 400;
    var yoe := y' - era * 400;
    var mp := (m + 9) % 12;
    var doy := (153 * mp + 2) / 5 + d - 1;
    var doe := yoe * 365 + yoe / 4 - yoe / 100 + doy;
    era * 146097 + doe - 719468
  }

  /** MakeDay: a month outside 0..11 carries into the year, and a day of
      month outside the month's range carries into the neighbouring months. */
  function MakeDay(year: int, month: int, date: int): int {
    DaysFromCivil(year + month / 12, month % 12 + 1, 1) + date - 1
  }

  /** Date.UTC and the Date constructor read a year 0 to 99 as 1900 to 1999. */
  function FullYear(y: int): int {
    if 0 <= y <= 99 then 1900 + y else y
  }

  /** Date.UTC(year, month, day, hour, minute); a NaN argument gives NaN. */
  function DateUtc(year: Option<int>, month: Option<int>, day: Option<int>,
                   hour: Option<int>, minute: Option<int>): Time
  {
    if year.None? || month.None? || day.None? || hour.None? || minute.None? then Invalid
    else TimeClip(MakeDay(FullYear(year.value), month.value, day.value) * MsPerDay
                  + hour.value * MsPerHour + minute.value * MsPerMinute)
  }

  /** new Date(year, month, day): local midnight, turned into a time value
      by subtracting the local zone's offset from UTC (`offsetMs`, taken as
      fixed). */
  function LocalMidnight(year: Option<int>, month: Option<int>, day: Option<int>, offsetMs: int): Time
  {
    if year.None? || month.None? || day.None? then Invalid
    else TimeClip(MakeDay(FullYear(year.value), month.value, day.value) * MsPerDay - offsetMs)
  }
}
