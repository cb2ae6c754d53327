/** Decoders for the values of iCalendar properties: DATE and DATE-TIME
    values (sections 3.3.4 and 3.3.5 of RFC 5545) and TEXT values with their
    backslash escapes (section 3.3.11 of RFC 5545). */
module IcsValues {
  import opened Wrappers
  import opened JsText
  import opened JsDate

  function Min(a: nat, b: nat): nat {
    if a <= b then a else b
  }

  /** String.prototype.substring(start, end) for start <= end: both indices
      are clamped to the length. */
  function Substring(s: string, start: nat, end: nat): string
    requires start <= end
  {
    s[Min(start, |s|)..Min(end, |s|)]
  }

  // ---------------------------------------------------------------------
  // Dates

  /** The numbers read out of a date value, before they become a time
      value; `None` is a field that did not parse. Months count from 0. */
  datatype DateFields =
    | DateTimeFields(year: Option<int>, month: Option<int>, day: Option<int>,
                     hour: Option<int>, minute: Option<int>)
    | DateOnlyFields(year: Option<int>, month: Option<int>, day: Option<int>)

  function Decrement(v: Option<int>): Option<int> {
    match v
    case None => None
    case Some(x) => Some(x - 1)
  }

  /** A value with a `T` anywhere is read as a date-time from the fixed
      columns YYYYMMDD?HHMM; any other value as a date from YYYYMMDD. Seconds,
      a trailing `Z` and any time zone are not looked at. */
  function ParseIcsDateFields(s: string): DateFields {
    var year := ParseInt(Substring(s, 0, 4));
    var month := Decrement(ParseInt(Substring(s, 4, 6)));
    var day := ParseInt(Substring(s, 6, 8));
    if 'T' in s then
      DateTimeFields(year, month, day, ParseInt(Substring(s, 9, 11)), ParseInt(Substring(s, 11, 13)))
    else
      DateOnlyFields(year, month, day)
  }

  /** Every date-time is built as UTC, every date as local midnight. */
  function ToTime(f: DateFields, offsetMs: int): Time {
    match f
    case DateTimeFields(y, m, d, h, mi) => DateUtc(y, m, d, h, mi)
    case DateOnlyFields(y, m, d) => LocalMidnight(y, m, d, offsetMs)
  }

  /** parseICSDate; `offsetMs` is the local zone's offset from UTC. */
  function ParseIcsDate(s: string, offsetMs: int): Time {
    ToTime(ParseIcsDateFields(s), offsetMs)
  }

  /** The DATE-TIME form YYYYMMDDTHHMMSS of RFC 5545, with the UTC
      designator `Z` when `utc`. */
  function FormatIcsDateTime(y: nat, mo: nat, d: nat, h: nat, mi: nat, sec: nat, utc: bool): string {
    PadDigits(y, 4) + PadDigits(mo, 2) + PadDigits(d, 2) + "T"
    + PadDigits(h, 2) + PadDigits(mi, 2) + PadDigits(sec, 2) + (if utc then "Z" else "")
  }

  /** The DATE form YYYYMMDD of RFC 5545. */
  function FormatIcsDate(y: nat, mo: nat, d: nat): string {
    PadDigits(y, 4) + PadDigits(mo, 2) + PadDigits(d, 2)
  }

  lemma Pow10Values()
    ensures Pow10(2) == 100 && Pow10(4) == 10000
  {
    assert Pow10(1) == 10;
    assert Pow10(3) == 1000;
  }

  /** A fixed column holding a zero-padded number reads back as that number. */
  lemma ReadColumn(s: string, a: nat, n: nat, width: nat)
    requires 1 <= width && n < Pow10(width)
    requires a + width <= |s| && s[a..a + width] == PadDigits(n, width)
    ensures ParseInt(Substring(s, a, a + width)) == Some(n)
  {
    assert Substring(s, a, a + width) == PadDigits(n, width);
    ParseIntPadded(n, width);
  }

  lemma DateTimeFieldsFrom(s: string, y: int, mo: int, d: int, h: int, mi: int)
    requires 'T' in s
    requires ParseInt(Substring(s, 0, 4)) == Some(y) && ParseInt(Substring(s, 4, 6)) == Some(mo)
    requires ParseInt(Substring(s, 6, 8)) == Some(d)
    requires ParseInt(Substring(s, 9, 11)) == Some(h) && ParseInt(Substring(s, 11, 13)) == Some(mi)
    ensures ParseIcsDateFields(s) == DateTimeFields(Some(y), Some(mo - 1), Some(d), Some(h), Some(mi))
  {
  }

  lemma DateOnlyFieldsFrom(s: string, y: int, mo: int, d: int)
    requires 'T' !in s
    requires ParseInt(Substring(s, 0, 4)) == Some(y) && ParseInt(Substring(s, 4, 6)) == Some(mo)
    requires ParseInt(Substring(s, 6, 8)) == Some(d)
    ensures ParseIcsDateFields(s) == DateOnlyFields(Some(y), Some(mo - 1), Some(d))
  {
  }

  /** Reading a formatted date-time gives back its fields: the month is
      shifted to count from 0, the seconds are dropped, and `Z` or its
      absence makes no difference. */
  lemma DateTimeRoundTrip(y: nat, mo: nat, d: nat, h: nat, mi: nat, sec: nat, utc: bool, offsetMs: int)
    requires y < 10000 && mo < 100 && d < 100 && h < 100 && mi < 100 && sec < 100
    ensures ParseIcsDateFields(FormatIcsDateTime(y, mo, d, h, mi, sec, utc))
            == DateTimeFields(Some(y), Some(mo - 1), Some(d), Some(h), Some(mi))
    ensures ParseIcsDate(FormatIcsDateTime(y, mo, d, h, mi, sec, utc), offsetMs)
            == DateUtc(Some(y), Some(mo - 1), Some(d), Some(h), Some(mi))
  {
    var s := FormatIcsDateTime(y, mo, d, h, mi, sec, utc);
    Pow10Values();
    var py, pmo, pd, ph, pmi := PadDigits(y, 4), PadDigits(mo, 2), PadDigits(d, 2), PadDigits(h, 2), PadDigits(mi, 2);
    assert s == py + pmo + pd + "T" + ph + pmi + PadDigits(sec, 2) + (if utc then "Z" else "");
    assert s[8] == 'T';
    assert s[0..4] == py;
    assert s[4..6] == pmo;
    assert s[6..8] == pd;
    assert s[9..11] == ph;
    assert s[11..13] == pmi;
    ReadColumn(s, 0, y, 4);
    ReadColumn(s, 4, mo, 2);
    ReadColumn(s, 6, d, 2);
    ReadColumn(s, 9, h, 2);
    ReadColumn(s, 11, mi, 2);
    DateTimeFieldsFrom(s, y, mo, d, h, mi);
  }

  /** Reading a formatted date gives back its fields as a local date. */
  lemma DateRoundTrip(y: nat, mo: nat, d: nat, offsetMs: int)
    requires y < 10000 && mo < 100 && d < 100
    ensures ParseIcsDateFields(FormatIcsDate(y, mo, d)) == DateOnlyFields(Some(y), Some(mo - 1), Some(d))
    ensures ParseIcsDate(FormatIcsDate(y, mo, d), offsetMs) == LocalMidnight(Some(y), Some(mo - 1), Some(d), offsetMs)
  {
    var s := FormatIcsDate(y, mo, d);
    Pow10Values();
    assert |s| == 8 && forall k :: 0 <= k < 8 ==> IsDecDigit(s[k]);
    assert 'T' !in s;
    assert s[0..4] == PadDigits(y, 4);
    assert s[4..6] == PadDigits(mo, 2);
    assert s[6..8] == PadDigits(d, 2);
    ReadColumn(s, 0, y, 4);
    ReadColumn(s, 4, mo, 2);
    ReadColumn(s, 6, d, 2);
    DateOnlyFieldsFrom(s, y, mo, d);
  }

  /** The feed time 2025-12-01 18:00 UTC. */
  lemma ParsesUtcExample(offsetMs: int)
    ensures ParseIcsDate("20251201T180000Z", offsetMs) == At(1764612000000)
  {
    ExampleText();
    DateTimeRoundTrip(2025, 12, 1, 18, 0, 0, true, offsetMs);
    ExampleTime(18);
  }

  /** The feed time 2025-12-01 20:00 UTC, two hours later. */
  lemma ParsesUtcEveningExample(offsetMs: int)
    ensures ParseIcsDate("20251201T200000Z", offsetMs) == At(1764619200000)
  {
    ExampleEveningText();
    DateTimeRoundTrip(2025, 12, 1, 20, 0, 0, true, offsetMs);
    ExampleTime(20);
  }

  lemma ExampleYear()
    ensures PadDigits(2025, 4) == "2025"
  {
    assert PadDigits(2, 1) == "2";
    assert PadDigits(20, 2) == "20";
    assert PadDigits(202, 3) == "202";
  }

  lemma ExampleColumns()
    ensures PadDigits(12, 2) == "12" && PadDigits(1, 2) == "01"
    ensures PadDigits(18, 2) == "18" && PadDigits(0, 2) == "00" && PadDigits(20, 2) == "20"
  {
  }

  lemma ExampleText()
    ensures FormatIcsDateTime(2025, 12, 1, 18, 0, 0, true) == "20251201T180000Z"
  {
    ExampleYear();
    ExampleColumns();
  }

  lemma ExampleEveningText()
    ensures FormatIcsDateTime(2025, 12, 1, 20, 0, 0, true) == "20251201T200000Z"
  {
    ExampleYear();
    ExampleColumns();
  }

  lemma ExampleTime(hour: int)
    requires 0 <= hour < 24
    ensures DateUtc(Some(2025), Some(11), Some(1), Some(hour), Some(0)) == At(1764547200000 + hour * 3600000)
  {
    assert DaysFromCivil(2025, 12, 1) == 20423 by {
      assert (153 * 9 + 2) / 5 == 275;
      assert 25 * 365 + 25 / 4 - 25 / 100 + 275 == 9406;
    }
    assert MakeDay(2025, 11, 1) == 20423;
    assert 20423 * MsPerDay == 1764547200000;
  }

  // ---------------------------------------------------------------------
  // TEXT values

  /** unescapeICSText: four global replacements, one after the other — a
      backslash followed by `n` or `N` becomes a line feed, then `\,` a
      comma, then `\;` a semicolon, then `\\` one backslash. */
  function UnescapeIcsText(v: string): string {
    var lineFeeds := ReplaceAll(v, "\\n", "\n", true);
    var commas := ReplaceAll(lineFeeds, "\\,", ",", false);
    var semicolons := ReplaceAll(commas, "\\;", ";", false);
    ReplaceAll(semicolons, "\\\\", "\\", false)
  }

  /** Text without a backslash is left as it is. */
  lemma UnescapeLeavesPlainText(v: string)
    requires '\\' !in v
    ensures UnescapeIcsText(v) == v
  {
    assert forall i :: 0 <= i < |v| ==> !CharEq(v[i], '\\', true);
    ReplaceAllNoStart(v, "\\n", "\n", true);
    ReplaceAllNoStart(v, "\\,", ",", false);
    ReplaceAllNoStart(v, "\\;", ";", false);
    ReplaceAllNoStart(v, "\\\\", "\\", false);
  }

  /** The character TEXT escaping writes after the backslash. */
  function EscapeLetter(c: char): char {
    if c == '\n' then 'n' else c
  }

  /** TEXT escaping (section 3.3.11 of RFC 5545): a backslash, semicolon,
      comma or line feed is written as a backslash followed by itself, or
      by `n` for the line feed. */
  function EscapeIcsText(s: string): string {
    if s == [] then []
    else if s[0] in "\n,;\\" then ['\\', EscapeLetter(s[0])] + EscapeIcsText(s[1..])
    else [s[0]] + EscapeIcsText(s[1..])
  }

  /** The pass of UnescapeIcsText (0 to 3) that restores a character; 4 for
      the characters escaping leaves alone. */
  function PassOf(c: char): nat {
    if c == '\n' then 0 else if c == ',' then 1 else if c == ';' then 2 else if c == '\\' then 3 else 4
  }

  /** The character pass `k` restores. */
  function PassChar(k: nat): char
    requires k < 4
  {
    if k == 0 then '\n' else if k == 1 then ',' else if k == 2 then ';' else '\\'
  }

  /** Pass `k` of UnescapeIcsText; only the first one ignores case. */
  function Pass(k: nat, s: string): string
    requires k < 4
  {
    ReplaceAll(s, ['\\', EscapeLetter(PassChar(k))], [PassChar(k)], k == 0)
  }

  lemma UnescapeByPasses(v: string)
    ensures UnescapeIcsText(v) == Pass(3, Pass(2, Pass(1, Pass(0, v))))
  {
  }

  /** A character of an escaped text as it stands after the first `k`
      passes: still escaped when its own pass comes later. */
  function StagedChar(k: nat, c: char): string {
    if k <= PassOf(c) < 4 then ['\\', EscapeLetter(c)] else [c]
  }

  /** An escaped text after its first `k` decoding passes. */
  function Staged(k: nat, s: string): string {
    if s == [] then [] else StagedChar(k, s[0]) + Staged(k, s[1..])
  }

  lemma {:induction false} EscapeIsStagedZero(s: string)
    ensures EscapeIcsText(s) == Staged(0, s)
  {
    if s != [] {
      EscapeIsStagedZero(s[1..]);
    }
  }

  lemma {:induction false} StagedFour(s: string)
    ensures Staged(4, s) == s
  {
    if s != [] {
      StagedFour(s[1..]);
    }
  }

  /** No backslash of the text is followed by `n` or `N`: the text on which
      the first pass cannot mistake an escaped backslash for the start of
      an escaped line feed. */
  predicate NoBackslashBeforeN(s: string) {
    forall i :: 0 <= i < |s| - 1 && s[i] == '\\' ==> s[i + 1] != 'n' && s[i + 1] != 'N'
  }

  lemma StagedHead(k: nat, t: string)
    requires t != []
    ensures Staged(k, t) != [] && Staged(k, t)[0] == (if k <= PassOf(t[0]) < 4 then '\\' else t[0])
  {
  }

  /** What follows an escaped backslash cannot complete the pattern of pass `k`. */
  lemma NoMatchAfterBackslash(k: nat, t: string)
    requires k < 3 && (k == 0 ==> t == [] || (t[0] != 'n' && t[0] != 'N'))
    ensures !PrefixMatch(['\\'] + Staged(k, t), ['\\', EscapeLetter(PassChar(k))], k == 0)
  {
    var p := ['\\', EscapeLetter(PassChar(k))];
    var x := ['\\'] + Staged(k, t);
    if PrefixMatch(x, p, k == 0) {
      assert x[1..] == Staged(k, t);
      assert PrefixMatch(x[1..], p[1..], k == 0);
      assert CharEq(x[1..][0], p[1..][0], k == 0);
      StagedHead(k, t);
    }
  }

  /** Pass `k` turns the chunk of one character from stage `k` into stage `k + 1`. */
  lemma PassChunk(k: nat, c: char, t: string)
    requires k < 4
    requires k == 0 && c == '\\' ==> t == [] || (t[0] != 'n' && t[0] != 'N')
    ensures Pass(k, StagedChar(k, c) + Staged(k, t)) == StagedChar(k + 1, c) + Pass(k, Staged(k, t))
  {
    var p := ['\\', EscapeLetter(PassChar(k))];
    var ci := k == 0;
    var rest := Staged(k, t);
    if PassOf(c) == k {
      assert StagedChar(k, c) == p;
      ReplaceAllTake(p, rest, [PassChar(k)], ci);
    } else if !(k <= PassOf(c) < 4) {
      assert !PrefixMatch([c] + rest, p, ci);
      ReplaceAllSkip(c, rest, p, [PassChar(k)], ci);
    } else if c != '\\' {
      var chunk := ['\\', c];
      assert StagedChar(k, c) == chunk;
      assert !PrefixMatch(chunk + rest, p, ci) by {
        assert (chunk + rest)[1..] == [c] + rest;
      }
      ReplaceAllSkipChunk(chunk, rest, p, [PassChar(k)], ci);
    } else {
      assert StagedChar(k, c) + rest == ['\\'] + (['\\'] + rest);
      assert !PrefixMatch(['\\'] + (['\\'] + rest), p, ci) by {
        assert (['\\'] + (['\\'] + rest))[1..] == ['\\'] + rest;
      }
      ReplaceAllSkip('\\', ['\\'] + rest, p, [PassChar(k)], ci);
      NoMatchAfterBackslash(k, t);
      ReplaceAllSkip('\\', rest, p, [PassChar(k)], ci);
    }
  }

  /** Pass `k` takes an escaped text from stage `k` to stage `k + 1`. */
  lemma {:induction false} PassAdvances(k: nat, s: string)
    requires k < 4 && (k == 0 ==> NoBackslashBeforeN(s))
    ensures Pass(k, Staged(k, s)) == Staged(k + 1, s)
  {
    if s != [] {
      var c, t := s[0], s[1..];
      assert k == 0 ==> NoBackslashBeforeN(t) by {
        if k == 0 {
          forall i | 0 <= i < |t| - 1 && t[i] == '\\'
            ensures t[i + 1] != 'n' && t[i + 1] != 'N'
          {
            assert s[i + 1] == t[i] && s[i + 2] == t[i + 1];
          }
        }
      }
      assert k == 0 && c == '\\' ==> t == [] || (t[0] != 'n' && t[0] != 'N') by {
        if k == 0 && c == '\\' && t != [] {
          assert s[0] == '\\' && s[1] == t[0];
        }
      }
      PassChunk(k, c, t);
      PassAdvances(k, t);
    }
  }

  /** Unescaping undoes TEXT escaping whenever no backslash of the original
      text is followed by `n` or `N`. */
  lemma UnescapeInvertsEscape(s: string)
    requires NoBackslashBeforeN(s)
    ensures UnescapeIcsText(EscapeIcsText(s)) == s
  {
    EscapeIsStagedZero(s);
    UnescapeByPasses(EscapeIcsText(s));
    AllPasses(s);
  }

  lemma AllPasses(s: string)
    requires NoBackslashBeforeN(s)
    ensures Pass(3, Pass(2, Pass(1, Pass(0, Staged(0, s))))) == s
  {
    PassAdvances(0, s);
    PassAdvances(1, s);
    PassAdvances(2, s);
    PassAdvances(3, s);
    StagedFour(s);
  }

  /** The escaped form of a backslash followed by `n` does not come back:
      the first pass reads its second backslash and the `n` as a line feed. */
  lemma UnescapeMisreadsEscapedBackslash()
    ensures EscapeIcsText("\\n") == "\\\\n"
    ensures UnescapeIcsText(EscapeIcsText("\\n")) == "\\\n"
  {
    assert EscapeIcsText("\\n") == "\\\\n";
    var afterLineFeeds := ReplaceAll("\\\\n", "\\n", "\n", true);
    assert afterLineFeeds == "\\\n";
    UnescapeByPasses("\\\\n");
  }

  /** A decoder that reads each escape once, left to right. */
  function UnescapeIcsTextLeftToRight(v: string): string {
    if v == [] then []
    else if |v| >= 2 && v[0] == '\\' && v[1] in "nN,;\\" then
      [if v[1] == 'n' || v[1] == 'N' then '\n' else v[1]] + UnescapeIcsTextLeftToRight(v[2..])
    else [v[0]] + UnescapeIcsTextLeftToRight(v[1..])
  }

  /** The left-to-right decoder undoes TEXT escaping for every text. */
  lemma {:induction false} LeftToRightInvertsEscape(s: string)
    ensures UnescapeIcsTextLeftToRight(EscapeIcsText(s)) == s
  {
    if s != [] {
      LeftToRightInvertsEscape(s[1..]);
      var e := EscapeIcsText(s);
      if s[0] in "\n,;\\" {
        assert e == ['\\', EscapeLetter(s[0])] + EscapeIcsText(s[1..]);
        assert e[2..] == EscapeIcsText(s[1..]);
      } else {
        assert e == [s[0]] + EscapeIcsText(s[1..]);
        assert e[1..] == EscapeIcsText(s[1..]);
      }
    }
  }
}
