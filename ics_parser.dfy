/** The feed parser: line unfolding, the VEVENT block scanner and the final
    ordering by start time. */
module IcsParser {
  import opened Wrappers
  import opened JsText
  import opened JsDate
  import opened CalendarTypes
  import opened IcsValues
  import opened EventLinks

  // ---------------------------------------------------------------------
  // Unfolding: a line that starts with a space or a tab continues the
  // previous one, without its first character.

  predicate IsContinuation(line: string) {
    line != [] && (line[0] == ' ' || line[0] == '\t')
  }

  /** The logical lines of `raw`, built line by line from the front. */
  function Unfolded(raw: seq<string>): (r: seq<string>)
    ensures |r| <= |raw|
    ensures raw != [] ==> r != []
  {
    if raw == [] then []
    else
      var prev := Unfolded(raw[..|raw| - 1]);
      var line := raw[|raw| - 1];
      if IsContinuation(line) && prev != [] then prev[..|prev| - 1] + [prev[|prev| - 1] + line[1..]]
      else prev + [line]
  }

  /** The lines glued together. */
  function Concat(lines: seq<string>): string {
    if lines == [] then [] else Concat(lines[..|lines| - 1]) + lines[|lines| - 1]
  }

  /** The raw lines with the folding character of every continuation line
      after the first removed. */
  function Stripped(raw: seq<string>): (r: seq<string>)
    ensures |r| == |raw|
  {
    if raw == [] then []
    else
      var line := raw[|raw| - 1];
      Stripped(raw[..|raw| - 1]) + [if |raw| > 1 && IsContinuation(line) then line[1..] else line]
  }

  lemma ConcatSnoc(lines: seq<string>, x: string)
    ensures Concat(lines + [x]) == Concat(lines) + x
  {
    assert (lines + [x])[..|lines|] == lines;
  }

  /** Unfolding loses no text apart from the folding characters. */
  lemma {:induction false} UnfoldedKeepsText(raw: seq<string>)
    ensures Concat(Unfolded(raw)) == Concat(Stripped(raw))
  {
    if raw != [] {
      var init := raw[..|raw| - 1];
      var line := raw[|raw| - 1];
      var prev := Unfolded(init);
      UnfoldedKeepsText(init);
      if IsContinuation(line) && prev != [] {
        UnfoldFolded(raw);
      } else {
        UnfoldAppended(raw);
      }
    }
  }

  /** Gluing a tail onto the last line glues it onto the whole text. */
  lemma ConcatFold(front: seq<string>, last: string, tail: string)
    ensures Concat(front + [last + tail]) == Concat(front + [last]) + tail
  {
    ConcatSnoc(front, last);
    ConcatSnoc(front, last + tail);
  }

  /** The step of UnfoldedKeepsText for a continuation line. */
  lemma {:induction false} UnfoldFolded(raw: seq<string>)
    requires raw != [] && IsContinuation(raw[|raw| - 1]) && Unfolded(raw[..|raw| - 1]) != []
    requires Concat(Unfolded(raw[..|raw| - 1])) == Concat(Stripped(raw[..|raw| - 1]))
    ensures Concat(Unfolded(raw)) == Concat(Stripped(raw))
  {
    var init := raw[..|raw| - 1];
    var tail := raw[|raw| - 1][1..];
    var prev := Unfolded(init);
    var front := prev[..|prev| - 1];
    var last := prev[|prev| - 1];
    assert |raw| > 1;
    assert Unfolded(raw) == front + [last + tail];
    assert Stripped(raw) == Stripped(init) + [tail];
    assert prev == front + [last];
    ConcatFold(front, last, tail);
    ConcatSnoc(Stripped(init), tail);
  }

  /** The step of UnfoldedKeepsText for a line that starts a logical line. */
  lemma {:induction false} UnfoldAppended(raw: seq<string>)
    requires raw != [] && !(IsContinuation(raw[|raw| - 1]) && Unfolded(raw[..|raw| - 1]) != [])
    requires Concat(Unfolded(raw[..|raw| - 1])) == Concat(Stripped(raw[..|raw| - 1]))
    ensures Concat(Unfolded(raw)) == Concat(Stripped(raw))
  {
    var init := raw[..|raw| - 1];
    var line := raw[|raw| - 1];
    var prev := Unfolded(init);
    assert Unfolded(raw) == prev + [line];
    assert Stripped(raw) == Stripped(init) + [line] by {
      if IsContinuation(line) {
        assert init == [];
      }
    }
    ConcatSnoc(prev, line);
    ConcatSnoc(Stripped(init), line);
  }

  /** Text without folded lines is left as it is. */
  lemma {:induction false} UnfoldPlain(raw: seq<string>)
    requires forall k :: 1 <= k < |raw| ==> !IsContinuation(raw[k])
    ensures Unfolded(raw) == raw
  {
    if raw != [] {
      var init := raw[..|raw| - 1];
      UnfoldPlain(init);
      assert init + [raw[|raw| - 1]] == raw;
    }
  }

  /** The first loop of the parser. */
  method UnfoldLines(raw: seq<string>) returns (lines: seq<string>)
    ensures lines == Unfolded(raw)
  {
    lines := [];
    var i := 0;
    while i < |raw|
      invariant 0 <= i <= |raw|
      invariant lines == Unfolded(raw[..i])
    {
      var line := raw[i];
      assert raw[..i + 1][..i] == raw[..i];
      if IsContinuation(line) && |lines| > 0 {
        lines := lines[..|lines| - 1] + [lines[|lines| - 1] + line[1..]];
      } else {
        lines := lines + [line];
      }
      i := i + 1;
    }
    assert raw[..i] == raw;
  }

  // ---------------------------------------------------------------------
  // Scanning VEVENT blocks

  /** The event being read: the fields met so far in the open block. */
  datatype Draft = Draft(
    id: nat,
    title: Option<string>,
    start: Option<Time>,
    end: Option<Time>,
    location: Option<string>,
    description: Option<string>,
    infoLink: Option<string>)

  function EmptyDraft(id: nat): Draft {
    Draft(id, None, None, None, None, None, None)
  }

  /** A block is kept when it has a non-empty title, a start and an end;
      an invalid date still counts as present. */
  predicate Complete(d: Draft) {
    d.title.Some? && d.title.value != [] && d.start.Some? && d.end.Some?
  }

  function ToEvent(d: Draft): CalendarEvent
    requires Complete(d)
  {
    CalendarEvent(d.id, d.title.value, d.start.value, d.end.value, d.location, d.description, d.infoLink, None)
  }

  /** One `NAME;PARAMS:VALUE` content line applied to the draft. Text values
      are unescaped; dates are read from the raw value; an unknown name
      changes nothing. */
  function ApplyProperty(d: Draft, name: string, valuePart: string, offsetMs: int): (r: Draft)
    ensures r.id == d.id
    ensures r.title == if name == "SUMMARY" then Some(UnescapeIcsText(valuePart)) else d.title
    ensures r.start == if name == "DTSTART" then Some(ParseIcsDate(valuePart, offsetMs)) else d.start
    ensures r.end == if name == "DTEND" then Some(ParseIcsDate(valuePart, offsetMs)) else d.end
    ensures r.location == if name == "LOCATION" then Some(UnescapeIcsText(valuePart)) else d.location
    ensures r.description == if name == "DESCRIPTION" then Some(UnescapeIcsText(valuePart)) else d.description
    ensures r.infoLink == if name == "URL" then NormalizeUrl(Some(UnescapeIcsText(valuePart))) else d.infoLink
    ensures GoodDraft(d) ==> GoodDraft(r)
  {
    var value := UnescapeIcsText(valuePart);
    if name == "SUMMARY" then d.(title := Some(value))
    else if name == "DTSTART" then d.(start := Some(ParseIcsDate(valuePart, offsetMs)))
    else if name == "DTEND" then d.(end := Some(ParseIcsDate(valuePart, offsetMs)))
    else if name == "LOCATION" then d.(location := Some(value))
    else if name == "DESCRIPTION" then d.(description := Some(value))
    else if name == "URL" then d.(infoLink := NormalizeUrl(Some(value)))
    else d
  }

  /** A trimmed line inside a block: without a colon it is skipped;
      otherwise the name is what precedes the first colon, cut at the first
      semicolon and upper-cased, and the value is what follows. */
  function ReadProperty(d: Draft, line: string, offsetMs: int): (r: Draft)
    ensures r.id == d.id
    ensures ':' !in line ==> r == d
    ensures GoodDraft(d) ==> GoodDraft(r)
  {
    match IndexOf(line, ':')
    case None => d
    case Some(c) => ApplyProperty(d, ToUpper(BeforeFirst(line[..c], ';')), line[c + 1..], offsetMs)
  }

  /** A line `NAME;PARAMS:VALUE` sets the property named by `NAME` in
      capitals, whatever the parameters, to what follows the first colon,
      colons included. */
  lemma ReadPropertyLine(d: Draft, name: string, params: string, value: string, offsetMs: int)
    requires ':' !in name && ';' !in name
    requires ':' !in params && (params == [] || params[0] == ';')
    ensures ReadProperty(d, name + params + ":" + value, offsetMs) == ApplyProperty(d, ToUpper(name), value, offsetMs)
  {
    var head := name + params;
    var line := head + ":" + value;
    assert ':' !in head;
    assert line[..|head|] == head;
    IndexOfAt(line, ':', |head|);
    assert line[|head| + 1..] == value;
    BeforeFirstStops(name, params, ';');
  }

  /** The same for a line without parameters. */
  lemma ReadPlainLine(d: Draft, name: string, value: string, offsetMs: int)
    requires ':' !in name && ';' !in name
    ensures ReadProperty(d, name + ":" + value, offsetMs) == ApplyProperty(d, ToUpper(name), value, offsetMs)
  {
    var line := name + ":" + value;
    assert line[..|name|] == name;
    IndexOfAt(line, ':', |name|);
    assert line[|name| + 1..] == value;
  }

  /** When a property occurs twice in a block the later line wins. */
  lemma LaterLineWins(d: Draft, name: string, params1: string, value1: string,
                      params2: string, value2: string, offsetMs: int)
    requires ':' !in name && ';' !in name
    requires ':' !in params1 && (params1 == [] || params1[0] == ';')
    requires ':' !in params2 && (params2 == [] || params2[0] == ';')
    ensures var first := ReadProperty(d, name + params1 + ":" + value1, offsetMs);
            ReadProperty(first, name + params2 + ":" + value2, offsetMs)
              == ReadProperty(d, name + params2 + ":" + value2, offsetMs)
  {
    ReadPropertyLine(d, name, params1, value1, offsetMs);
    var first := ApplyProperty(d, ToUpper(name), value1, offsetMs);
    ReadPropertyLine(first, name, params2, value2, offsetMs);
    ReadPropertyLine(d, name, params2, value2, offsetMs);
  }

  /** The scanner between lines: the open block, the events kept so far and
      the identifier the next block will get. */
  datatype ScanState = ScanState(current: Option<Draft>, emitted: seq<CalendarEvent>, nextId: nat)

  const Initial := ScanState(None, [], 0)

  const BeginEvent := "BEGIN:VEVENT"
  const EndEvent := "END:VEVENT"

  /** Closing the open block keeps its event when it is complete. */
  function Close(st: ScanState): ScanState
    requires st.current.Some?
  {
    var d := st.current.value;
    ScanState(None, if Complete(d) then st.emitted + [ToEvent(d)] else st.emitted, st.nextId)
  }

  /** The scanner's reaction to one trimmed line. */
  function StepTrimmed(st: ScanState, line: string, offsetMs: int): ScanState {
    if line == BeginEvent then ScanState(Some(EmptyDraft(st.nextId)), st.emitted, st.nextId + 1)
    else if line == EndEvent && st.current.Some? then Close(st)
    else if st.current.Some? then st.(current := Some(ReadProperty(st.current.value, line, offsetMs)))
    else st
  }

  /** The scanner's reaction to one logical line. */
  function Step(st: ScanState, rawLine: string, offsetMs: int): ScanState {
    StepTrimmed(st, Trim(rawLine), offsetMs)
  }

  function ScanFrom(st: ScanState, lines: seq<string>, offsetMs: int): ScanState
    decreases |lines|
  {
    if lines == [] then st else ScanFrom(Step(st, lines[0], offsetMs), lines[1..], offsetMs)
  }

  lemma ScanCons(st: ScanState, line: string, rest: seq<string>, offsetMs: int)
    ensures ScanFrom(st, [line] + rest, offsetMs) == ScanFrom(Step(st, line, offsetMs), rest, offsetMs)
  {
    assert ([line] + rest)[1..] == rest;
  }

  lemma BeginTrimmed()
    ensures Trim(BeginEvent) == BeginEvent
  {
    TrimUnchanged(BeginEvent);
  }

  lemma StepBegin(st: ScanState, offsetMs: int)
    ensures Step(st, BeginEvent, offsetMs) == ScanState(Some(EmptyDraft(st.nextId)), st.emitted, st.nextId + 1)
  {
    BeginTrimmed();
  }

  lemma StepEnd(st: ScanState, offsetMs: int)
    requires st.current.Some?
    ensures Step(st, EndEvent, offsetMs) == Close(st)
  {
    TrimUnchanged(EndEvent);
  }

  /** What the scanner keeps between lines: every kept event has a title and
      no category yet, a link it carries has a scheme, identifiers grow
      along the list and stay below the open block's and the next one. */
  predicate GoodEvent(e: CalendarEvent) {
    && e.title != []
    && e.categoryKey.None?
    && (e.infoLink.Some? ==> HasScheme(e.infoLink.value))
  }

  predicate GoodDraft(d: Draft) {
    d.infoLink.Some? ==> HasScheme(d.infoLink.value)
  }

  predicate GoodState(st: ScanState) {
    && (forall k :: 0 <= k < |st.emitted| ==> GoodEvent(st.emitted[k]))
    && (forall k, m :: 0 <= k < m < |st.emitted| ==> st.emitted[k].id < st.emitted[m].id)
    && (forall k :: 0 <= k < |st.emitted| ==> st.emitted[k].id < st.nextId)
    && (st.current.Some? ==>
          && GoodDraft(st.current.value)
          && st.current.value.id + 1 == st.nextId
          && forall k :: 0 <= k < |st.emitted| ==> st.emitted[k].id < st.current.value.id)
  }

  /** Closing a block keeps the state good: the kept event's identifier
      is above every earlier one and below the next. */
  lemma CloseKeepsGood(st: ScanState)
    requires GoodState(st) && st.current.Some?
    ensures GoodState(Close(st))
  {
    var d := st.current.value;
    if Complete(d) {
      var e := st.emitted + [ToEvent(d)];
      assert e[|e| - 1].id == d.id;
      assert forall k :: 0 <= k < |st.emitted| ==> e[k] == st.emitted[k];
    }
  }

  lemma {:induction false} StepKeepsGood(st: ScanState, line: string, offsetMs: int)
    requires GoodState(st)
    ensures GoodState(Step(st, line, offsetMs))
  {
    var t := Trim(line);
    if t == BeginEvent {
      assert Step(st, line, offsetMs) == ScanState(Some(EmptyDraft(st.nextId)), st.emitted, st.nextId + 1);
    } else if t == EndEvent && st.current.Some? {
      CloseKeepsGood(st);
    } else if st.current.Some? {
      assert Step(st, line, offsetMs) == st.(current := Some(ReadProperty(st.current.value, t, offsetMs)));
    } else {
      assert Step(st, line, offsetMs) == st;
    }
  }

  /** Every state the scanner reaches from a good one is good. */
  lemma {:induction false} ScanKeepsGood(st: ScanState, lines: seq<string>, offsetMs: int)
    requires GoodState(st)
    ensures GoodState(ScanFrom(st, lines, offsetMs))
    decreases |lines|
  {
    if lines != [] {
      StepKeepsGood(st, lines[0], offsetMs);
      ScanKeepsGood(Step(st, lines[0], offsetMs), lines[1..], offsetMs);
    }
  }

  /** A line that opens or closes a block. */
  predicate IsMarker(line: string) {
    Trim(line) == BeginEvent || Trim(line) == EndEvent
  }

  /** Lines outside any block are ignored, properties included. */
  lemma {:induction false} OutsideBlockIgnored(st: ScanState, line: string, offsetMs: int)
    requires st.current.None? && Trim(line) != BeginEvent
    ensures Step(st, line, offsetMs) == st
  {
  }

  lemma StepProperty(st: ScanState, line: string, offsetMs: int)
    requires !IsMarker(line)
    ensures Step(st, line, offsetMs).emitted == st.emitted
    ensures Step(st, line, offsetMs).nextId == st.nextId
    ensures Step(st, line, offsetMs).current.Some? == st.current.Some?
  {
  }

  /** A name written in capitals stays as it is when upper-cased. */
  lemma UpperCaseName(name: string)
    requires forall i :: 0 <= i < |name| ==> !('a' <= name[i] <= 'z')
    ensures ToUpper(name) == name
  {
  }

  /** A content line `NAME:VALUE` with a capitalised name and nothing to
      trim sets that property of the open draft. */
  lemma StepContentLine(st: ScanState, name: string, value: string, offsetMs: int)
    requires st.current.Some?
    requires ':' !in name && ';' !in name && ToUpper(name) == name
    requires Trim(name + ":" + value) == name + ":" + value && !IsMarker(name + ":" + value)
    ensures Step(st, name + ":" + value, offsetMs)
              == st.(current := Some(ApplyProperty(st.current.value, name, value, offsetMs)))
  {
    StepInside(st, name + ":" + value, offsetMs);
    ReadPlainLine(st.current.value, name, value, offsetMs);
  }

  /** A trimmed line that is not a marker is read into the open draft. */
  lemma StepInside(st: ScanState, line: string, offsetMs: int)
    requires st.current.Some? && Trim(line) == line && !IsMarker(line)
    ensures Step(st, line, offsetMs) == st.(current := Some(ReadProperty(st.current.value, line, offsetMs)))
  {
  }

  /** The property names the example uses are already in capitals. */
  lemma CapitalName(name: string)
    requires ExampleName(name)
    ensures ToUpper(name) == name
  {
    assert forall c :: c in name ==> 'A' <= c <= 'Z';
    UpperCaseName(name);
  }

  /** A line with nothing to trim that starts with neither marker's first
      letter is not a marker. */
  lemma NotMarker(line: string)
    requires line != [] && !IsSpace(line[0]) && !IsSpace(line[|line| - 1])
    requires line[0] != 'B' && line[0] != 'E'
    ensures Trim(line) == line && !IsMarker(line)
  {
    TrimUnchanged(line);
  }

  /** A text that does not end in white space. */
  predicate EndsUntrimmed(t: string) {
    t != [] && !IsSpace(t[|t| - 1])
  }

  /** The names of a title, a start and an end. */
  predicate ExampleName(name: string) {
    name == "SUMMARY" || name == "DTSTART" || name == "DTEND"
  }

  lemma ExampleNameShape(name: string)
    requires ExampleName(name)
    ensures name != [] && !IsSpace(name[0]) && name[0] != 'B' && name[0] != 'E'
    ensures ':' !in name && ';' !in name
  {
  }

  /** Such a name followed by a colon and a value with nothing to trim at
      its end sets that property of the open draft. */
  lemma NamedLine(st: ScanState, name: string, value: string, offsetMs: int)
    requires st.current.Some? && ExampleName(name) && EndsUntrimmed(value)
    ensures !IsMarker(name + ":" + value)
    ensures Step(st, name + ":" + value, offsetMs)
              == st.(current := Some(ApplyProperty(st.current.value, name, value, offsetMs)))
  {
    var line := name + ":" + value;
    ExampleNameShape(name);
    assert line[0] == name[0] && line[|line| - 1] == value[|value| - 1];
    NotMarker(line);
    CapitalName(name);
    StepContentLine(st, name, value, offsetMs);
  }

  lemma SummaryStep(st: ScanState, title: string, offsetMs: int)
    requires st.current.Some? && EndsUntrimmed(title) && '\\' !in title
    ensures !IsMarker("SUMMARY" + ":" + title)
    ensures Step(st, "SUMMARY" + ":" + title, offsetMs)
            == st.(current := Some(st.current.value.(title := Some(title))))
  {
    NamedLine(st, "SUMMARY", title, offsetMs);
    UnescapeLeavesPlainText(title);
  }

  lemma StartStep(st: ScanState, text: string, offsetMs: int)
    requires st.current.Some? && EndsUntrimmed(text)
    ensures !IsMarker("DTSTART" + ":" + text)
    ensures Step(st, "DTSTART" + ":" + text, offsetMs)
            == st.(current := Some(st.current.value.(start := Some(ParseIcsDate(text, offsetMs)))))
  {
    NamedLine(st, "DTSTART", text, offsetMs);
  }

  lemma EndStep(st: ScanState, text: string, offsetMs: int)
    requires st.current.Some? && EndsUntrimmed(text)
    ensures !IsMarker("DTEND" + ":" + text)
    ensures Step(st, "DTEND" + ":" + text, offsetMs)
            == st.(current := Some(st.current.value.(end := Some(ParseIcsDate(text, offsetMs)))))
  {
    NamedLine(st, "DTEND", text, offsetMs);
  }

  /** The summary, start and end lines of a block. */
  function SimpleBody(title: string, startText: string, endText: string): seq<string> {
    ["SUMMARY" + ":" + title, "DTSTART" + ":" + startText, "DTEND" + ":" + endText]
  }

  /** The summary, start and end lines of a block fill in those fields of
      the open draft and leave the rest of the state as it is. */
  lemma ExampleBody(st: ScanState, title: string, startText: string, endText: string, offsetMs: int)
    requires st.current.Some?
    requires EndsUntrimmed(title) && '\\' !in title
    requires EndsUntrimmed(startText) && EndsUntrimmed(endText)
    ensures ScanFrom(st, SimpleBody(title, startText, endText), offsetMs)
            == st.(current := Some(st.current.value.(title := Some(title),
                                                      start := Some(ParseIcsDate(startText, offsetMs)),
                                                      end := Some(ParseIcsDate(endText, offsetMs)))))
  {
    var l1, l2, l3 := "SUMMARY" + ":" + title, "DTSTART" + ":" + startText, "DTEND" + ":" + endText;
    var d := st.current.value;
    SummaryStep(st, title, offsetMs);
    var st2 := st.(current := Some(d.(title := Some(title))));
    assert Step(st, l1, offsetMs) == st2;
    StartStep(st2, startText, offsetMs);
    var st3 := st.(current := Some(d.(title := Some(title), start := Some(ParseIcsDate(startText, offsetMs)))));
    assert Step(st2, l2, offsetMs) == st3;
    EndStep(st3, endText, offsetMs);
    ScanThree(st, l1, l2, l3, offsetMs);
  }

  lemma ScanThree(st: ScanState, l1: string, l2: string, l3: string, offsetMs: int)
    ensures ScanFrom(st, [l1, l2, l3], offsetMs)
            == Step(Step(Step(st, l1, offsetMs), l2, offsetMs), l3, offsetMs)
  {
    var st2 := Step(st, l1, offsetMs);
    var st3 := Step(st2, l2, offsetMs);
    ScanCons(st3, l3, [], offsetMs);
    ScanCons(st2, l2, [l3], offsetMs);
    ScanCons(st, l1, [l2, l3], offsetMs);
    assert [l1, l2, l3] == [l1] + [l2, l3];
    assert [l2, l3] == [l2] + [l3];
  }

  /** The lines of a feed holding one such block. */
  function SimpleFeedLines(title: string, startText: string, endText: string): seq<string> {
    [BeginEvent, "SUMMARY" + ":" + title, "DTSTART" + ":" + startText, "DTEND" + ":" + endText, EndEvent]
  }

  /** A block, read from its opening marker to its closing one. */
  lemma {:induction false} WholeBlock(st: ScanState, body: seq<string>, offsetMs: int)
    ensures ScanFrom(st, [BeginEvent] + (body + [EndEvent]), offsetMs)
            == Step(ScanFrom(Step(st, BeginEvent, offsetMs), body, offsetMs), EndEvent, offsetMs)
  {
    var entered := Step(st, BeginEvent, offsetMs);
    ScanCons(st, BeginEvent, body + [EndEvent], offsetMs);
    ScanSplit(entered, body, [EndEvent], offsetMs);
    ScanCons(ScanFrom(entered, body, offsetMs), EndEvent, [], offsetMs);
  }

  lemma FeedLinesSplit(title: string, startText: string, endText: string)
    ensures SimpleFeedLines(title, startText, endText)
            == [BeginEvent] + (SimpleBody(title, startText, endText) + [EndEvent])
  {
  }

  /** A block holding a summary, a start and an end, in that order, yields
      one event: that title, those dates read from the raw values, no
      location, description or link, and the next identifier. */
  lemma SimpleBlock(st: ScanState, title: string, startText: string, endText: string, offsetMs: int)
    requires EndsUntrimmed(title) && '\\' !in title
    requires EndsUntrimmed(startText) && EndsUntrimmed(endText)
    ensures ScanFrom(st, SimpleFeedLines(title, startText, endText), offsetMs).emitted
            == st.emitted + [CalendarEvent(st.nextId, title, ParseIcsDate(startText, offsetMs),
                                           ParseIcsDate(endText, offsetMs), None, None, None, None)]
  {
    var body := SimpleBody(title, startText, endText);
    var entered := Step(st, BeginEvent, offsetMs);
    StepBegin(st, offsetMs);
    ExampleBody(entered, title, startText, endText, offsetMs);
    var filled := ScanFrom(entered, body, offsetMs);
    var d := filled.current.value;
    assert d == EmptyDraft(st.nextId).(title := Some(title),
                                       start := Some(ParseIcsDate(startText, offsetMs)),
                                       end := Some(ParseIcsDate(endText, offsetMs)));
    assert Complete(d);
    assert ToEvent(d) == CalendarEvent(st.nextId, title, ParseIcsDate(startText, offsetMs),
                                       ParseIcsDate(endText, offsetMs), None, None, None, None);
    StepEnd(filled, offsetMs);
    FeedLinesSplit(title, startText, endText);
    WholeBlock(st, body, offsetMs);
  }

  /** The lines of that feed come back from splitting the text, and none of
      them continues the line before it. */
  lemma SimpleFeedLinesPlain(title: string, startText: string, endText: string)
    requires EndsUntrimmed(title) && EndsUntrimmed(startText) && EndsUntrimmed(endText)
    requires '\n' !in title && '\n' !in startText && '\n' !in endText
    ensures var lines := SimpleFeedLines(title, startText, endText);
            && SplitLines(JoinLines(lines)) == lines
            && Unfolded(SplitLines(JoinLines(lines))) == lines
  {
    var lines := SimpleFeedLines(title, startText, endText);
    NamedPlain("SUMMARY", title);
    NamedPlain("DTSTART", startText);
    NamedPlain("DTEND", endText);
    assert PlainLine(BeginEvent) && PlainLine(EndEvent) && !IsContinuation(EndEvent);
    FivePlainLines(BeginEvent, "SUMMARY" + ":" + title, "DTSTART" + ":" + startText,
                   "DTEND" + ":" + endText, EndEvent);
    SplitJoinLines(lines);
    UnfoldPlain(lines);
  }

  /** A named line holds no line feed, does not end in a carriage return
      and does not start with white space. */
  lemma NamedPlain(name: string, value: string)
    requires ExampleName(name) && EndsUntrimmed(value) && '\n' !in value
    ensures PlainLine(name + ":" + value) && !IsContinuation(name + ":" + value)
  {
    var line := name + ":" + value;
    ExampleNameShape(name);
    assert '\n' !in name;
    assert line[0] == name[0] && line[|line| - 1] == value[|value| - 1];
  }

  lemma FivePlainLines(a: string, b: string, c: string, d: string, e: string)
    requires PlainLine(a) && PlainLine(b) && PlainLine(c) && PlainLine(d) && PlainLine(e)
    requires !IsContinuation(b) && !IsContinuation(c) && !IsContinuation(d) && !IsContinuation(e)
    ensures var lines := [a, b, c, d, e];
            && (forall k :: 0 <= k < |lines| ==> PlainLine(lines[k]))
            && (forall k :: 1 <= k < |lines| ==> !IsContinuation(lines[k]))
  {
  }

  /** A feed text holding one block with a summary, a start and an end
      parses to that one event. */
  lemma SimpleFeed(title: string, startText: string, endText: string, offsetMs: int)
    requires EndsUntrimmed(title) && '\\' !in title && '\n' !in title
    requires EndsUntrimmed(startText) && EndsUntrimmed(endText)
    requires '\n' !in startText && '\n' !in endText
    ensures ParsedFeed(JoinLines(SimpleFeedLines(title, startText, endText)), offsetMs)
            == [CalendarEvent(0, title, ParseIcsDate(startText, offsetMs),
                              ParseIcsDate(endText, offsetMs), None, None, None, None)]
  {
    SimpleFeedLinesPlain(title, startText, endText);
    SimpleBlock(Initial, title, startText, endText, offsetMs);
    var e := CalendarEvent(0, title, ParseIcsDate(startText, offsetMs),
                           ParseIcsDate(endText, offsetMs), None, None, None, None);
    SortSingle(e);
  }

  lemma SortSingle(e: CalendarEvent)
    ensures SortByStart([e]) == [e]
  {
    assert [e][1..] == [];
  }

  /** The feed event of 1 December 2025, 18:00 to 20:00 UTC, titled
      "Test Show": the text parses to that one event, with the first
      identifier. */
  lemma TestShowFeed(offsetMs: int)
    ensures ParsedFeed(JoinLines(SimpleFeedLines("Test Show", "20251201T180000Z", "20251201T200000Z")), offsetMs)
            == [CalendarEvent(0, "Test Show", At(1764612000000), At(1764619200000), None, None, None, None)]
  {
    assert '\\' !in "Test Show" && '\n' !in "Test Show";
    assert '\n' !in "20251201T180000Z" && '\n' !in "20251201T200000Z";
    SimpleFeed("Test Show", "20251201T180000Z", "20251201T200000Z", offsetMs);
    ParsesUtcExample(offsetMs);
    ParsesUtcEveningExample(offsetMs);
  }

  /** Lines without markers only fill in the open draft, if any. */
  lemma {:induction false} PropertiesKeepEmitted(st: ScanState, body: seq<string>, offsetMs: int)
    requires forall k :: 0 <= k < |body| ==> !IsMarker(body[k])
    ensures ScanFrom(st, body, offsetMs).emitted == st.emitted
    ensures ScanFrom(st, body, offsetMs).nextId == st.nextId
    ensures ScanFrom(st, body, offsetMs).current.Some? == st.current.Some?
    decreases |body|
  {
    if body != [] {
      StepProperty(st, body[0], offsetMs);
      PropertiesKeepEmitted(Step(st, body[0], offsetMs), body[1..], offsetMs);
    }
  }

  /** Scanning two pieces one after the other is scanning their concatenation. */
  lemma {:induction false} ScanSplit(st: ScanState, a: seq<string>, b: seq<string>, offsetMs: int)
    ensures ScanFrom(st, a + b, offsetMs) == ScanFrom(ScanFrom(st, a, offsetMs), b, offsetMs)
    decreases |a|
  {
    if a != [] {
      assert (a + b)[1..] == a[1..] + b;
      ScanSplit(Step(st, a[0], offsetMs), a[1..], b, offsetMs);
    } else {
      assert a + b == b;
    }
  }

  /** One more line after a prefix of the lines. */
  lemma ScanSnoc(st: ScanState, lines: seq<string>, i: nat, offsetMs: int)
    requires i < |lines|
    ensures ScanFrom(st, lines[..i + 1], offsetMs) == Step(ScanFrom(st, lines[..i], offsetMs), lines[i], offsetMs)
  {
    assert lines[..i + 1] == lines[..i] + [lines[i]];
    ScanSplit(st, lines[..i], [lines[i]], offsetMs);
  }

  /** The scanner loop's state after one more line. */
  lemma Advanced(st: ScanState, next: ScanState, lines: seq<string>, i: nat, offsetMs: int)
    requires i < |lines| && st == ScanFrom(Initial, lines[..i], offsetMs)
    requires next == StepTrimmed(st, Trim(lines[i]), offsetMs)
    ensures next == ScanFrom(Initial, lines[..i + 1], offsetMs)
  {
    ScanSnoc(Initial, lines, i, offsetMs);
  }

  /** A block that is never closed yields no event. */
  lemma {:induction false} DanglingBlockDropped(st: ScanState, body: seq<string>, offsetMs: int)
    requires forall k :: 0 <= k < |body| ==> !IsMarker(body[k])
    ensures ScanFrom(st, [BeginEvent] + body, offsetMs).emitted == st.emitted
  {
    ScanCons(st, BeginEvent, body, offsetMs);
    StepBegin(st, offsetMs);
    PropertiesKeepEmitted(Step(st, BeginEvent, offsetMs), body, offsetMs);
  }

  /** A block cut short by another BEGIN line is dropped: the scan goes on
      as if the interrupted block had never been entered, apart from the
      identifier it used up. */
  lemma {:induction false} InterruptedBlockDropped(st: ScanState, body: seq<string>, rest: seq<string>, offsetMs: int)
    requires forall k :: 0 <= k < |body| ==> !IsMarker(body[k])
    ensures ScanFrom(st, [BeginEvent] + body + ([BeginEvent] + rest), offsetMs)
            == ScanFrom(ScanState(st.current, st.emitted, st.nextId + 1), [BeginEvent] + rest, offsetMs)
  {
    var entered := Step(st, BeginEvent, offsetMs);
    StepBegin(st, offsetMs);
    assert [BeginEvent] + body + ([BeginEvent] + rest) == [BeginEvent] + (body + ([BeginEvent] + rest));
    ScanCons(st, BeginEvent, body + ([BeginEvent] + rest), offsetMs);
    ScanSplit(entered, body, [BeginEvent] + rest, offsetMs);
    PropertiesKeepEmitted(entered, body, offsetMs);
    var mid := ScanFrom(entered, body, offsetMs);
    ScanCons(mid, BeginEvent, rest, offsetMs);
    StepBegin(mid, offsetMs);
    var skipped := ScanState(st.current, st.emitted, st.nextId + 1);
    ScanCons(skipped, BeginEvent, rest, offsetMs);
    StepBegin(skipped, offsetMs);
  }

  /** A closed block yields its event exactly when it is complete, after
      the events before it. */
  lemma {:induction false} ClosedBlock(st: ScanState, body: seq<string>, offsetMs: int)
    requires forall k :: 0 <= k < |body| ==> !IsMarker(body[k])
    ensures var d := ScanFrom(Step(st, BeginEvent, offsetMs), body, offsetMs).current;
            && d.Some?
            && ScanFrom(st, [BeginEvent] + body + [EndEvent], offsetMs).emitted
               == st.emitted + (if Complete(d.value) then [ToEvent(d.value)] else [])
  {
    var entered := Step(st, BeginEvent, offsetMs);
    StepBegin(st, offsetMs);
    assert [BeginEvent] + body + [EndEvent] == [BeginEvent] + (body + [EndEvent]);
    ScanCons(st, BeginEvent, body + [EndEvent], offsetMs);
    ScanSplit(entered, body, [EndEvent], offsetMs);
    PropertiesKeepEmitted(entered, body, offsetMs);
    var mid := ScanFrom(entered, body, offsetMs);
    ScanCons(mid, EndEvent, [], offsetMs);
    StepEnd(mid, offsetMs);
  }

  // ---------------------------------------------------------------------
  // Ordering: `sort` by `start.getTime()` differences. An invalid date
  // makes the difference NaN, which the sort reads as "equal".

  function StartMs(e: CalendarEvent): int {
    if e.start.At? then e.start.ms else 0
  }

  /** The comparator: negative, zero or positive. */
  function CompareStarts(a: CalendarEvent, b: CalendarEvent): int {
    if a.start.At? && b.start.At? then a.start.ms - b.start.ms else 0
  }

  /** `x` placed after every leading element that does not compare after it. */
  function Insert(x: CalendarEvent, s: seq<CalendarEvent>): (r: seq<CalendarEvent>)
    ensures multiset(r) == multiset(s) + multiset{x}
  {
    if s == [] then [x]
    else if CompareStarts(s[0], x) > 0 then [x] + s
    else
      assert s == [s[0]] + s[1..];
      [s[0]] + Insert(x, s[1..])
  }

  /** A stable insertion sort under the comparator. */
  function SortByStart(s: seq<CalendarEvent>): (r: seq<CalendarEvent>)
    ensures multiset(r) == multiset(s)
  {
    if s == [] then []
    else
      assert s == s[..|s| - 1] + [s[|s| - 1]];
      Insert(s[|s| - 1], SortByStart(s[..|s| - 1]))
  }

  predicate AllStartsValid(s: seq<CalendarEvent>) {
    forall k :: 0 <= k < |s| ==> s[k].start.At?
  }

  predicate SortedByStart(s: seq<CalendarEvent>) {
    forall k, m :: 0 <= k < m < |s| ==> StartMs(s[k]) <= StartMs(s[m])
  }

  lemma {:induction false} InsertSorted(x: CalendarEvent, s: seq<CalendarEvent>)
    requires x.start.At? && AllStartsValid(s) && SortedByStart(s)
    ensures SortedByStart(Insert(x, s))
  {
    if s != [] && CompareStarts(s[0], x) <= 0 {
      var t := Insert(x, s[1..]);
      InsertSorted(x, s[1..]);
      HeadBelowInsert(x, s);
      assert Insert(x, s) == [s[0]] + t;
    }
  }

  /** The head of a sorted list that stays in front of an inserted event
      starts no later than anything inserted behind it. */
  lemma HeadBelowInsert(x: CalendarEvent, s: seq<CalendarEvent>)
    requires s != [] && CompareStarts(s[0], x) <= 0
    requires x.start.At? && AllStartsValid(s) && SortedByStart(s)
    ensures forall k :: 0 <= k < |Insert(x, s[1..])| ==> StartMs(s[0]) <= StartMs(Insert(x, s[1..])[k])
  {
    var t := Insert(x, s[1..]);
    forall k | 0 <= k < |t| ensures StartMs(s[0]) <= StartMs(t[k]) {
      assert t[k] in multiset(t);
      assert t[k] == x || t[k] in multiset(s[1..]);
      if t[k] != x {
        var m :| 0 <= m < |s[1..]| && s[1..][m] == t[k];
        assert s[m + 1] == t[k];
      }
    }
  }

  lemma {:induction false} SortByStartSorted(s: seq<CalendarEvent>)
    requires AllStartsValid(s)
    ensures SortedByStart(SortByStart(s))
  {
    if s != [] {
      var init := s[..|s| - 1];
      SortByStartSorted(init);
      var t := SortByStart(init);
      forall k | 0 <= k < |t| ensures t[k].start.At? {
        assert t[k] in multiset(init);
      }
      InsertSorted(s[|s| - 1], t);
    }
  }

  predicate DistinctIds(s: seq<CalendarEvent>) {
    forall k, m :: 0 <= k < m < |s| ==> s[k].id != s[m].id
  }

  lemma {:induction false} InsertDistinct(x: CalendarEvent, s: seq<CalendarEvent>)
    requires DistinctIds(s) && forall k :: 0 <= k < |s| ==> s[k].id != x.id
    ensures DistinctIds(Insert(x, s))
  {
    if s != [] && CompareStarts(s[0], x) <= 0 {
      var t := Insert(x, s[1..]);
      InsertDistinct(x, s[1..]);
      forall k | 0 <= k < |t| ensures t[k].id != s[0].id {
        assert t[k] in multiset(t);
        if t[k] != x {
          var m :| 0 <= m < |s[1..]| && s[1..][m] == t[k];
          assert s[m + 1] == t[k];
        }
      }
      assert Insert(x, s) == [s[0]] + t;
    }
  }

  /** Sorting keeps identifiers distinct. */
  lemma {:induction false} SortByStartDistinct(s: seq<CalendarEvent>)
    requires DistinctIds(s)
    ensures DistinctIds(SortByStart(s))
  {
    if s != [] {
      var init := s[..|s| - 1];
      var x := s[|s| - 1];
      SortByStartDistinct(init);
      var t := SortByStart(init);
      forall k | 0 <= k < |t| ensures t[k].id != x.id {
        assert t[k] in multiset(init);
        var m :| 0 <= m < |init| && init[m] == t[k];
      }
      InsertDistinct(x, t);
    }
  }

  // ---------------------------------------------------------------------
  // The whole parser

  /** The events of a feed text, with a fixed offset standing for the local
      time zone of date-only values. */
  function ParsedFeed(text: string, offsetMs: int): seq<CalendarEvent> {
    SortByStart(ScanFrom(Initial, Unfolded(SplitLines(text)), offsetMs).emitted)
  }

  /** What the parser promises about every feed: each event has a title,
      no category yet and at most a schemed link; identifiers are distinct;
      events with valid starts come out in start order. */
  lemma ParsedFeedSound(text: string, offsetMs: int)
    ensures var events := ParsedFeed(text, offsetMs);
            && (forall k :: 0 <= k < |events| ==> GoodEvent(events[k]))
            && DistinctIds(events)
            && (AllStartsValid(events) ==> SortedByStart(events))
  {
    var emitted := ScanFrom(Initial, Unfolded(SplitLines(text)), offsetMs).emitted;
    ScanKeepsGood(Initial, Unfolded(SplitLines(text)), offsetMs);
    SortByStartDistinct(emitted);
    var events := SortByStart(emitted);
    forall k | 0 <= k < |events| ensures GoodEvent(events[k]) {
      assert events[k] in multiset(emitted);
    }
    if AllStartsValid(events) {
      forall k | 0 <= k < |emitted| ensures emitted[k].start.At? {
        assert emitted[k] in multiset(events);
      }
      SortByStartSorted(emitted);
    }
  }

  /** The body of the second loop: one trimmed line read against the open
      block, the events kept so far and the next identifier. */
  method ScanLine(current: Option<Draft>, emitted: seq<CalendarEvent>, nextId: nat, line: string, offsetMs: int)
    returns (current': Option<Draft>, emitted': seq<CalendarEvent>, nextId': nat)
    ensures ScanState(current', emitted', nextId') == StepTrimmed(ScanState(current, emitted, nextId), line, offsetMs)
  {
    current', emitted', nextId' := current, emitted, nextId;
    if line == BeginEvent {
      current' := Some(EmptyDraft(nextId));
      nextId' := nextId + 1;
    } else if line == EndEvent && current.Some? {
      if Complete(current.value) {
        emitted' := emitted + [ToEvent(current.value)];
      }
      current' := None;
    } else if current.Some? {
      var colon := IndexOf(line, ':');
      if colon.Some? {
        var name := ToUpper(BeforeFirst(line[..colon.value], ';'));
        current' := Some(ApplyProperty(current.value, name, line[colon.value + 1..], offsetMs));
      }
    }
  }

  /** The second loop of the parser: the block scanner over the logical lines. */
  method ScanLines(lines: seq<string>, offsetMs: int) returns (emitted: seq<CalendarEvent>)
    ensures emitted == ScanFrom(Initial, lines, offsetMs).emitted
  {
    var current: Option<Draft> := None;
    emitted := [];
    var nextId := 0;
    var i := 0;
    assert lines[..0] == [];
    while i < |lines|
      invariant 0 <= i <= |lines|
      invariant ScanState(current, emitted, nextId) == ScanFrom(Initial, lines[..i], offsetMs)
    {
      ghost var st := ScanState(current, emitted, nextId);
      current, emitted, nextId := ScanLine(current, emitted, nextId, Trim(lines[i]), offsetMs);
      Advanced(st, ScanState(current, emitted, nextId), lines, i, offsetMs);
      i := i + 1;
    }
    assert lines[..i] == lines;
  }

  /** parseICS: split the text into lines, unfold them, scan the blocks and
      sort the events by start. */
  method ParseIcs(text: string, offsetMs: int) returns (events: seq<CalendarEvent>)
    ensures events == ParsedFeed(text, offsetMs)
    ensures forall k :: 0 <= k < |events| ==> GoodEvent(events[k])
    ensures DistinctIds(events)
  {
    var lines := UnfoldLines(SplitLines(text));
    var emitted := ScanLines(lines, offsetMs);
    events := SortByStart(emitted);
    ParsedFeedSound(text, offsetMs);
  }
}
