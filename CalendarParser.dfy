/** `src/parser/calendarParser.ts`: the line-by-line reading of the calendar
    text into working hours, a timezone, day labels and events, together with
    the two pure helpers `parseTimeToken` and `parseFlexibleDate`.

    The regular expressions that classify a line are not modelled: a line
    arrives as a `Line` value saying which of the loop's patterns matched
    first and what its groups captured, and the numbers in the groups are the
    values `parseInt` reads from their digits. */
module CalendarParser {
  import opened Wrappers
  import opened Strings
  import opened Clock
  import opened CivilDate
  import opened Types
  import opened DateUtils

  /** An hour, optional minutes and an optional meridiem, as captured. */
  datatype TimeToken = TimeToken(hour: nat, minute: Option<nat>, meridiem: Option<Meridiem>)

  /** A trimmed, non-empty line, classified by the first pattern it matches in
      the order the loop tries them. */
  datatype Line =
    | HoursLine(from: TimeToken, to: TimeToken)
    | TimezoneLine(zone: string)
    | DayHeader(dayName: Option<string>, monthWord: string, day: nat, year: Option<nat>)
    | Bullet(start: TimeToken, end: TimeToken, title: string)
    | OtherLine

  /** The mutable locals of the loop. */
  datatype ParseState = ParseState(
    workingHours: (int, int),
    timezone: string,
    dayLabels: map<string, string>,
    events: seq<CalendarEvent>,
    currentDate: Option<string>)

  datatype ParsedCalendar = ParsedCalendar(
    weekStart: string,
    workingHours: (int, int),
    timezone: string,
    dayLabels: map<string, string>,
    events: seq<CalendarEvent>)

  const DefaultHours := (540, 1020)

  const Initial := ParseState(DefaultHours, "UTC", map[], [], None)

  /** `parseTimeToken(hour, min, meridiem)`: the 12-hour correction and then
      minutes since midnight; missing minutes count as 0. */
  function ParseTimeToken(t: TimeToken): int {
    To24Hour(t.hour, t.meridiem) * 60 + t.minute.GetOr(0)
  }

  /** The end token of a bullet borrows the start token's meridiem when it has
      none of its own (`eventMatch[6] || eventMatch[3]`). */
  function EndToken(start: TimeToken, end: TimeToken): TimeToken {
    TimeToken(end.hour, end.minute, if end.meridiem.Some? then end.meridiem else start.meridiem)
  }

  /** The keys of the month table, in month order. */
  const MonthKeys: seq<string> := ["jan", "feb", "mar", "apr", "may", "jun", "jul", "aug", "sep", "oct", "nov", "dec"]

  /** `s.slice(0, 3)`. */
  function First3(s: string): (r: string)
    ensures |r| <= 3 && |r| <= |s| && r == s[..|r|]
  {
    if |s| <= 3 then s else s[..3]
  }

  /** `months[word.toLowerCase().slice(0, 3)]`: the month index 0 to 11. */
  function MonthIndex(word: string): (r: Option<int>)
    ensures r.Some? ==> 0 <= r.value < 12 && MonthKeys[r.value] == First3(Lower(word))
    ensures r.None? ==> First3(Lower(word)) !in MonthKeys
  {
    var i := IndexOf(MonthKeys, First3(Lower(word)));
    if i >= 0 then Some(i) else None
  }

  /** A header whose month is known: it moves the current date. */
  predicate Resolves(l: Line) {
    l.DayHeader? && MonthIndex(l.monthWord).Some?
  }

  /** `format(new Date(yearNum, monthIdx, dayNum), 'yyyy-MM-dd')` for a header
      that resolves; the year defaults to the anchor's. */
  function HeaderDate(l: Line, anchor: Civil): string
    requires Resolves(l)
  {
    IsoFormat(DateFromParts(if l.year.Some? then l.year.value else anchor.year, MonthIndex(l.monthWord).value, l.day))
  }

  /** `s.replace(/\(.*\)/, '')`: from the first `(` to the last `)` after it,
      both removed. */
  function StripParenthetical(s: string): string {
    var i := FirstIndex(s, '(');
    var j := LastIndex(s, ')');
    if 0 <= i < j then s[..i] + s[j + 1..] else s
  }

  function FirstIndex(s: string, c: char): (r: int)
    ensures -1 <= r < |s|
    ensures r >= 0 ==> s[r] == c && forall k :: 0 <= k < r ==> s[k] != c
    ensures r == -1 ==> forall k :: 0 <= k < |s| ==> s[k] != c
  {
    if s == [] then -1
    else if s[0] == c then 0
    else
      var t := FirstIndex(s[1..], c);
      if t == -1 then -1 else t + 1
  }

  function LastIndex(s: string, c: char): (r: int)
    ensures -1 <= r < |s|
    ensures r >= 0 ==> s[r] == c && forall k :: r < k < |s| ==> s[k] != c
    ensures r == -1 ==> forall k :: 0 <= k < |s| ==> s[k] != c
  {
    if s == [] then -1
    else if s[|s| - 1] == c then |s| - 1
    else LastIndex(s[..|s| - 1], c)
  }

  /** Whether a bullet is stored: the title does not mention "no events" in
      any case, and the event does not end before it starts. */
  predicate Kept(start: int, end: int, title: string) {
    !Contains(Lower(title), "no events") && start < end
  }

  /** One turn of the loop. */
  function Step(st: ParseState, l: Line, anchor: Civil): ParseState
    requires Valid(anchor)
  {
    match l
    case HoursLine(a, b) => st.(workingHours := (ParseTimeToken(a), ParseTimeToken(b)))
    case TimezoneLine(z) => st.(timezone := Trim(StripParenthetical(z)))
    case DayHeader(name, _, _, _) =>
      if !Resolves(l) then st
      else
        var d := HeaderDate(l, anchor);
        st.(currentDate := Some(d),
            dayLabels := if name.Some? then st.dayLabels[d := name.value] else st.dayLabels)
    case Bullet(a, b, title) => BulletStep(st, a, b, title)
    case OtherLine => st
  }

  /** An event bullet: under a current date, its event is appended when it is
      kept. */
  function BulletStep(st: ParseState, a: TimeToken, b: TimeToken, title: string): ParseState {
    if st.currentDate.None? then st
    else
      var s, e, t := ParseTimeToken(a), ParseTimeToken(EndToken(a, b)), Trim(title);
      if Kept(s, e, t) then st.(events := st.events + [CalendarEvent(st.currentDate.value, s, e, t)])
      else st
  }

  /** The loop over the lines, as a fold. */
  function Parse(lines: seq<Line>, anchor: Civil): ParseState
    requires Valid(anchor)
  {
    if lines == [] then Initial
    else Step(Parse(lines[..|lines| - 1], anchor), lines[|lines| - 1], anchor)
  }

  function Outcome(st: ParseState, anchor: Civil): ParsedCalendar
    requires Valid(anchor)
  {
    ParsedCalendar(IsoFormat(anchor), st.workingHours, st.timezone, st.dayLabels, st.events)
  }

  /** `content.split('\n')`. */
  function SplitLines(s: string): (r: seq<string>)
    ensures |r| >= 1
    ensures forall i :: 0 <= i < |r| ==> '\n' !in r[i]
  {
    if s == [] then [""]
    else
      var p := SplitLines(s[1..]);
      if s[0] == '\n' then [""] + p else [[s[0]] + p[0]] + p[1..]
  }

  /** The pieces put back together with the separator. */
  function JoinLines(ps: seq<string>): string
    requires |ps| >= 1
  {
    if |ps| == 1 then ps[0] else ps[0] + "\n" + JoinLines(ps[1..])
  }

  /** A line with something in it and no whitespace at either end. */
  predicate TrimmedLine(x: string) {
    x != "" && !IsSpace(x[0]) && !IsSpace(x[|x| - 1])
  }

  /** `.map(l => l.trim()).filter(Boolean)`. */
  function TrimmedNonEmpty(ps: seq<string>): (r: seq<string>)
    ensures |r| <= |ps|
    ensures forall i :: 0 <= i < |r| ==> TrimmedLine(r[i])
  {
    if ps == [] then []
    else
      var t := Trim(ps[0]);
      var rest := TrimmedNonEmpty(ps[1..]);
      if t == "" then rest
      else
        assert TrimmedLine(t);
        KeptLines(t, rest);
        [t] + rest
  }

  /** Putting a trimmed non-empty line in front of trimmed non-empty lines
      gives trimmed non-empty lines. */
  lemma KeptLines(t: string, rest: seq<string>)
    requires TrimmedLine(t)
    requires forall i :: 0 <= i < |rest| ==> TrimmedLine(rest[i])
    ensures forall i :: 0 <= i < |[t] + rest| ==> TrimmedLine(([t] + rest)[i])
  {
    var r := [t] + rest;
    forall i | 0 <= i < |r| ensures TrimmedLine(r[i]) {
      if i > 0 {
        assert r[i] == rest[i - 1];
      }
    }
  }

  function TextLines(content: string): seq<string> {
    TrimmedNonEmpty(SplitLines(content))
  }

  function ClassifyAll(ls: seq<string>, classify: string -> Line): (r: seq<Line>)
    ensures |r| == |ls| && forall i :: 0 <= i < |ls| ==> r[i] == classify(ls[i])
  {
    seq(|ls|, i requires 0 <= i < |ls| => classify(ls[i]))
  }

  /** `parseCalendar(content, referenceDate)`. The anchor stands for the
      result of `extractAnchorDate`: `None` is an Invalid Date, on which
      formatting the week start throws a `RangeError` before any line is read,
      and the method then gives `None`. `classify` stands for the loop's
      pattern matching on one line. */
  method ParseCalendar(content: string, anchor: Option<Civil>, classify: string -> Line)
    returns (r: Option<ParsedCalendar>)
    requires anchor.Some? ==> Valid(anchor.value)
    ensures anchor.None? ==> r.None?
    ensures anchor.Some? ==>
      r == Some(Outcome(Parse(ClassifyAll(TextLines(content), classify), anchor.value), anchor.value))
  {
    if anchor.None? {
      return None;
    }
    var parsed := ParseFromAnchor(content, anchor.value, classify);
    r := Some(parsed);
  }

  /** The parse once the anchor is a valid date. */
  method ParseFromAnchor(content: string, anchor: Civil, classify: string -> Line) returns (r: ParsedCalendar)
    requires Valid(anchor)
    ensures r == Outcome(Parse(ClassifyAll(TextLines(content), classify), anchor), anchor)
  {
    var lines := TextLines(content);
    ghost var classified := ClassifyAll(lines, classify);
    var weekStart := IsoFormat(anchor);
    var workingHours := DefaultHours;
    var timezone := "UTC";
    var dayLabels: map<string, string> := map[];
    var events: seq<CalendarEvent> := [];
    var currentDate: Option<string> := None;
    for i := 0 to |lines|
      invariant ParseState(workingHours, timezone, dayLabels, events, currentDate) == Parse(classified[..i], anchor)
    {
      ghost var before := ParseState(workingHours, timezone, dayLabels, events, currentDate);
      var line := classify(lines[i]);
      workingHours, timezone, dayLabels, events, currentDate :=
        ApplyLine(line, anchor, workingHours, timezone, dayLabels, events, currentDate);
      FoldStep(classified, i, anchor, before);
    }
    assert classified[..|lines|] == classified;
    r := ParsedCalendar(weekStart, workingHours, timezone, dayLabels, events);
  }

  /** The body of the loop for one line. */
  method ApplyLine(line: Line, anchor: Civil, workingHours0: (int, int), timezone0: string,
                   dayLabels0: map<string, string>, events0: seq<CalendarEvent>, currentDate0: Option<string>)
    returns (workingHours: (int, int), timezone: string, dayLabels: map<string, string>,
             events: seq<CalendarEvent>, currentDate: Option<string>)
    requires Valid(anchor)
    ensures ParseState(workingHours, timezone, dayLabels, events, currentDate) ==
      Step(ParseState(workingHours0, timezone0, dayLabels0, events0, currentDate0), line, anchor)
  {
    workingHours, timezone, dayLabels, events, currentDate := workingHours0, timezone0, dayLabels0, events0, currentDate0;
    match line {
      case HoursLine(a, b) =>
        workingHours := (ParseTimeToken(a), ParseTimeToken(b));
      case TimezoneLine(z) =>
        timezone := Trim(StripParenthetical(z));
      case DayHeader(name, _, _, _) =>
        if Resolves(line) {
          var d := HeaderDate(line, anchor);
          currentDate := Some(d);
          if name.Some? {
            dayLabels := dayLabels[d := name.value];
          }
        }
      case Bullet(a, b, title) =>
        if currentDate.Some? {
          var startMin := ParseTimeToken(a);
          var endMin := ParseTimeToken(EndToken(a, b));
          var t := Trim(title);
          if Kept(startMin, endMin, t) {
            events := events + [CalendarEvent(currentDate.value, startMin, endMin, t)];
          }
        }
      case OtherLine =>
    }
  }

  /** One more line of the fold. */
  lemma FoldStep(ls: seq<Line>, i: int, anchor: Civil, st: ParseState)
    requires Valid(anchor) && 0 <= i < |ls| && st == Parse(ls[..i], anchor)
    ensures Parse(ls[..i + 1], anchor) == Step(st, ls[i], anchor)
  {
    assert ls[..i + 1][..i] == ls[..i];
  }

  /** The fold of a prefix followed by one line. */
  lemma ParseSnoc(p: seq<Line>, l: Line, anchor: Civil)
    requires Valid(anchor)
    ensures Parse(p + [l], anchor) == Step(Parse(p, anchor), l, anchor)
  {
    assert (p + [l])[..|p|] == p;
  }

  /** What one line leaves alone: each field changes only on its own kind of
      line, and events are only ever appended. */
  lemma StepFields(st: ParseState, l: Line, anchor: Civil)
    requires Valid(anchor)
    ensures !l.HoursLine? ==> Step(st, l, anchor).workingHours == st.workingHours
    ensures !l.TimezoneLine? ==> Step(st, l, anchor).timezone == st.timezone
    ensures !Resolves(l) ==> Step(st, l, anchor).currentDate == st.currentDate
    ensures !Resolves(l) ==> Step(st, l, anchor).dayLabels == st.dayLabels
  {
  }

  lemma StepEvents(st: ParseState, l: Line, anchor: Civil)
    requires Valid(anchor)
    ensures var ev := Step(st, l, anchor).events;
      |st.events| <= |ev| <= |st.events| + 1 && ev[..|st.events|] == st.events
    ensures !l.Bullet? ==> Step(st, l, anchor).events == st.events
  {
    match l
    case Bullet(a, b, title) =>
      var ev := BulletStep(st, a, b, title).events;
      assert ev == st.events || ev[..|st.events|] == st.events;
    case _ =>
  }

  /** A kept bullet under a current date appends its event. */
  lemma StepBulletKept(st: ParseState, a: TimeToken, b: TimeToken, title: string, anchor: Civil)
    requires Valid(anchor) && st.currentDate.Some?
    requires Kept(ParseTimeToken(a), ParseTimeToken(EndToken(a, b)), Trim(title))
    ensures Step(st, Bullet(a, b, title), anchor).events ==
      st.events + [CalendarEvent(st.currentDate.value, ParseTimeToken(a), ParseTimeToken(EndToken(a, b)), Trim(title))]
  {
    assert Step(st, Bullet(a, b, title), anchor) == BulletStep(st, a, b, title);
  }

  /** Any other bullet changes nothing. */
  lemma StepBulletDropped(st: ParseState, a: TimeToken, b: TimeToken, title: string, anchor: Civil)
    requires Valid(anchor)
    requires st.currentDate.None? || !Kept(ParseTimeToken(a), ParseTimeToken(EndToken(a, b)), Trim(title))
    ensures Step(st, Bullet(a, b, title), anchor) == st
  {
  }

  /** A resolving header sets the current date and, with a weekday name,
      the label of that date. */
  lemma StepHeader(st: ParseState, l: Line, anchor: Civil)
    requires Valid(anchor) && Resolves(l)
    ensures Step(st, l, anchor).currentDate == Some(HeaderDate(l, anchor))
    ensures Step(st, l, anchor).dayLabels ==
      if l.dayName.Some? then st.dayLabels[HeaderDate(l, anchor) := l.dayName.value] else st.dayLabels
  {
  }

  // ---------------------------------------------------------------------
  // parseTimeToken

  /** The 12-hour rule of `parseTimeToken`. */
  lemma ParseTimeTokenCases(t: TimeToken)
    ensures t.meridiem == Some(PM) && t.hour != 12 ==> ParseTimeToken(t) == (t.hour + 12) * 60 + t.minute.GetOr(0)
    ensures t.meridiem == Some(AM) && t.hour == 12 ==> ParseTimeToken(t) == t.minute.GetOr(0)
    ensures t.meridiem.None? ==> ParseTimeToken(t) == t.hour * 60 + t.minute.GetOr(0)
    ensures 1 <= t.hour <= 12 && t.minute.GetOr(0) < 60 && t.meridiem.Some? ==> 0 <= ParseTimeToken(t) < 1440
  {
  }

  /** A 12-hour token with two-digit minutes is shown by `formatMinutes` as
      that hour, those minutes and that meridiem again. */
  lemma TokenDisplay(h: nat, m: nat, mer: Meridiem)
    requires 1 <= h <= 12 && m < 60
    ensures FormatMinutes(ParseTimeToken(TimeToken(h, Some(m), Some(mer)))) ==
      IntToString(h) + ClockTail(m, if mer == AM then "AM" else "PM")
  {
    assert ParseTimeToken(TimeToken(h, Some(m), Some(mer))) == To24Hour(h, Some(mer)) * 60 + m;
    TwelveHourDisplay(h, m, mer);
  }

  // ---------------------------------------------------------------------
  // The fold

  /** Without hours, timezone or header lines the defaults stay: working
      hours 540 to 1020, timezone `UTC`, no labels, no events. */
  lemma {:induction false} DefaultsWithoutHeaders(lines: seq<Line>, anchor: Civil)
    requires Valid(anchor)
    requires forall i :: 0 <= i < |lines| ==> !lines[i].HoursLine? && !lines[i].TimezoneLine? && !lines[i].DayHeader?
    ensures Parse(lines, anchor) == Initial
    decreases |lines|
  {
    if lines != [] {
      DefaultsWithoutHeaders(lines[..|lines| - 1], anchor);
    }
  }

  /** Last wins for the working hours: the last hours line decides them. */
  lemma {:induction false} LastHoursWins(lines: seq<Line>, anchor: Civil, i: int)
    requires Valid(anchor) && 0 <= i < |lines| && lines[i].HoursLine?
    requires forall j :: i < j < |lines| ==> !lines[j].HoursLine?
    ensures Parse(lines, anchor).workingHours == (ParseTimeToken(lines[i].from), ParseTimeToken(lines[i].to))
    decreases |lines|
  {
    if i < |lines| - 1 {
      LastHoursWins(lines[..|lines| - 1], anchor, i);
      StepFields(Parse(lines[..|lines| - 1], anchor), lines[|lines| - 1], anchor);
    }
  }

  /** Last wins for the timezone, with the parenthesised part removed. */
  lemma {:induction false} LastTimezoneWins(lines: seq<Line>, anchor: Civil, i: int)
    requires Valid(anchor) && 0 <= i < |lines| && lines[i].TimezoneLine?
    requires forall j :: i < j < |lines| ==> !lines[j].TimezoneLine?
    ensures Parse(lines, anchor).timezone == Trim(StripParenthetical(lines[i].zone))
    decreases |lines|
  {
    if i < |lines| - 1 {
      LastTimezoneWins(lines[..|lines| - 1], anchor, i);
      StepFields(Parse(lines[..|lines| - 1], anchor), lines[|lines| - 1], anchor);
    }
  }

  /** The current date is that of the most recent header that resolved;
      headers with an unknown month are skipped. */
  lemma {:induction false} CurrentDateIsLatestHeader(lines: seq<Line>, anchor: Civil, i: int)
    requires Valid(anchor) && 0 <= i < |lines| && Resolves(lines[i])
    requires forall j :: i < j < |lines| ==> !Resolves(lines[j])
    ensures Parse(lines, anchor).currentDate == Some(HeaderDate(lines[i], anchor))
    decreases |lines|
  {
    var p := lines[..|lines| - 1];
    var l := lines[|lines| - 1];
    assert Parse(lines, anchor) == Step(Parse(p, anchor), l, anchor);
    if i < |lines| - 1 {
      assert p[i] == lines[i];
      assert forall j :: i < j < |p| ==> p[j] == lines[j];
      CurrentDateIsLatestHeader(p, anchor, i);
      StepFields(Parse(p, anchor), l, anchor);
    } else {
      StepHeader(Parse(p, anchor), l, anchor);
    }
  }

  /** Before any header resolves there is no current date. */
  lemma {:induction false} NoDateBeforeHeader(lines: seq<Line>, anchor: Civil)
    requires Valid(anchor) && forall j :: 0 <= j < |lines| ==> !Resolves(lines[j])
    ensures Parse(lines, anchor).currentDate.None? && Parse(lines, anchor).events == []
    ensures Parse(lines, anchor).dayLabels == map[]
    decreases |lines|
  {
    if lines != [] {
      NoDateBeforeHeader(lines[..|lines| - 1], anchor);
      StepFields(Parse(lines[..|lines| - 1], anchor), lines[|lines| - 1], anchor);
    }
  }

  /** A header with an unknown month changes nothing. */
  lemma UnknownMonthIgnored(st: ParseState, l: Line, anchor: Civil)
    requires Valid(anchor) && l.DayHeader? && MonthIndex(l.monthWord).None?
    ensures Step(st, l, anchor) == st
  {
  }

  /** A bullet after the prefix `p`: stored, with the date of the latest header
      of `p` that resolved and with the end borrowing the start's meridiem,
      exactly when its title does not mention "no events" and it has positive
      length; otherwise the events stay as they were. */
  lemma BulletAfterHeader(p: seq<Line>, a: TimeToken, b: TimeToken, title: string, anchor: Civil, i: int)
    requires Valid(anchor) && 0 <= i < |p| && Resolves(p[i])
    requires forall j :: i < j < |p| ==> !Resolves(p[j])
    ensures var s, e, t := ParseTimeToken(a), ParseTimeToken(EndToken(a, b)), Trim(title);
      Parse(p + [Bullet(a, b, title)], anchor).events ==
        Parse(p, anchor).events + (if Kept(s, e, t) then [CalendarEvent(HeaderDate(p[i], anchor), s, e, t)] else [])
  {
    ParseSnoc(p, Bullet(a, b, title), anchor);
    CurrentDateIsLatestHeader(p, anchor, i);
    var st := Parse(p, anchor);
    if Kept(ParseTimeToken(a), ParseTimeToken(EndToken(a, b)), Trim(title)) {
      StepBulletKept(st, a, b, title, anchor);
    } else {
      StepBulletDropped(st, a, b, title, anchor);
      assert st.events + [] == st.events;
    }
  }

  /** A bullet before any header resolved is dropped. */
  lemma BulletBeforeHeader(p: seq<Line>, l: Line, anchor: Civil)
    requires Valid(anchor) && l.Bullet? && forall j :: 0 <= j < |p| ==> !Resolves(p[j])
    ensures Parse(p + [l], anchor).events == []
  {
    ParseSnoc(p, l, anchor);
    NoDateBeforeHeader(p, anchor);
  }

  /** Every stored event has positive length and a title free of "no events". */
  lemma {:induction false} EventsKept(lines: seq<Line>, anchor: Civil)
    requires Valid(anchor)
    ensures forall e :: e in Parse(lines, anchor).events ==> Kept(e.startMin, e.endMin, e.title)
    decreases |lines|
  {
    if lines != [] {
      EventsKept(lines[..|lines| - 1], anchor);
    }
  }

  /** Events keep text order: the events of a prefix of the lines are a
      prefix of the events of all of them. */
  lemma {:induction false} EventsInTextOrder(lines: seq<Line>, anchor: Civil, k: int)
    requires Valid(anchor) && 0 <= k <= |lines|
    ensures var pre, all := Parse(lines[..k], anchor).events, Parse(lines, anchor).events;
      |pre| <= |all| && pre == all[..|pre|]
    decreases |lines|
  {
    if k < |lines| {
      var p := lines[..|lines| - 1];
      assert lines[..k] == p[..k];
      EventsInTextOrder(p, anchor, k);
      StepEvents(Parse(p, anchor), lines[|lines| - 1], anchor);
    } else {
      assert lines[..k] == lines;
    }
  }

  /** Last wins for a day label: the latest resolving header with a weekday
      name for that date gives the label. */
  lemma {:induction false} LabelLastWins(lines: seq<Line>, anchor: Civil, i: int, d: string)
    requires Valid(anchor) && 0 <= i < |lines| && Resolves(lines[i])
    requires lines[i].dayName.Some? && HeaderDate(lines[i], anchor) == d
    requires forall j :: i < j < |lines| && Resolves(lines[j]) && lines[j].dayName.Some? ==> HeaderDate(lines[j], anchor) != d
    ensures d in Parse(lines, anchor).dayLabels && Parse(lines, anchor).dayLabels[d] == lines[i].dayName.value
    decreases |lines|
  {
    var p := lines[..|lines| - 1];
    var l := lines[|lines| - 1];
    assert Parse(lines, anchor) == Step(Parse(p, anchor), l, anchor);
    if i < |lines| - 1 {
      assert p[i] == lines[i];
      assert forall j :: i < j < |p| ==> p[j] == lines[j];
      LabelLastWins(p, anchor, i, d);
      StepFields(Parse(p, anchor), l, anchor);
      if Resolves(l) {
        StepHeader(Parse(p, anchor), l, anchor);
      }
    } else {
      StepHeader(Parse(p, anchor), l, anchor);
    }
  }

  /** A date gets a label only from a resolving header with a weekday name. */
  lemma {:induction false} LabelNeedsName(lines: seq<Line>, anchor: Civil, d: string)
    requires Valid(anchor)
    requires forall j :: 0 <= j < |lines| && Resolves(lines[j]) && lines[j].dayName.Some? ==> HeaderDate(lines[j], anchor) != d
    ensures d !in Parse(lines, anchor).dayLabels
    decreases |lines|
  {
    if lines != [] {
      LabelNeedsName(lines[..|lines| - 1], anchor, d);
      var l := lines[|lines| - 1];
      StepFields(Parse(lines[..|lines| - 1], anchor), l, anchor);
      if Resolves(l) {
        StepHeader(Parse(lines[..|lines| - 1], anchor), l, anchor);
      }
    }
  }

  // ---------------------------------------------------------------------
  // Text lines and parenthesised text

  lemma {:induction false} SplitJoin(s: string)
    ensures JoinLines(SplitLines(s)) == s
  {
    if s != [] {
      SplitJoin(s[1..]);
      var p := SplitLines(s[1..]);
      if s[0] == '\n' {
        assert ([""] + p)[1..] == p;
      } else {
        var q := [[s[0]] + p[0]] + p[1..];
        assert q[1..] == p[1..];
        if |p| == 1 {
          assert JoinLines(q) == [s[0]] + p[0];
        } else {
          assert JoinLines(q) == [s[0]] + p[0] + "\n" + JoinLines(p[1..]);
          assert JoinLines(p) == p[0] + "\n" + JoinLines(p[1..]);
        }
      }
    }
  }

  /** No `(` is followed later by a `)`. */
  predicate NoParenthesis(s: string) {
    forall p, q :: 0 <= p < q < |s| && s[p] == '(' ==> s[q] != ')'
  }

  /** After the replacement no parenthesised text is left: every `)` comes
      before every `(`. */
  lemma StripLeavesNoParenthesis(s: string)
    ensures NoParenthesis(StripParenthetical(s))
  {
    var i := FirstIndex(s, '(');
    var j := LastIndex(s, ')');
    if 0 <= i < j {
      var a, b := s[..i], s[j + 1..];
      assert forall k :: 0 <= k < |a| ==> a[k] == s[k];
      assert forall k :: 0 <= k < |b| ==> b[k] == s[j + 1 + k];
      NoParenthesisConcat(a, b);
    } else if i >= 0 {
      assert forall k :: 0 <= k < |s| && s[k] == ')' ==> k < i;
    }
  }

  /** Text with no `(` followed by a `)` stays as it is. */
  lemma StripIdentity(s: string)
    requires NoParenthesis(s)
    ensures StripParenthetical(s) == s
  {
  }

  lemma NoParenthesisConcat(a: string, b: string)
    requires forall k :: 0 <= k < |a| ==> a[k] != '('
    requires forall k :: 0 <= k < |b| ==> b[k] != ')'
    ensures NoParenthesis(a + b)
  {
    var r := a + b;
    forall p, q | 0 <= p < q < |r| && r[p] == '('
      ensures r[q] != ')'
    {
      assert p >= |a|;
      assert r[q] == b[q - |a|];
    }
  }

  // ---------------------------------------------------------------------
  // parseFlexibleDate

  /** The groups of `/([A-Za-z]+)\s+(\d{1,2})(?:st|nd|rd|th)?,\s*(\d{4})/i`:
      the month word, the day digits and the year digits. */
  datatype FlexMatch = FlexMatch(monthWord: string, day: string, year: string)

  /** `.replace(/[!?;:]/g, '')`. */
  function DropPunctuation(s: string): (r: string)
    ensures |r| <= |s|
    ensures forall i :: 0 <= i < |r| ==> r[i] !in "!?;:"
  {
    if s == [] then []
    else (if s[0] in "!?;:" then [] else [s[0]]) + DropPunctuation(s[1..])
  }

  /** `parseFlexibleDate(dateStr, reference)`. `find` stands for the pattern
      match on the cleaned text and `loose` for `new Date(text)` followed by
      the date part of `toISOString()` (`None` for an Invalid Date). */
  function ParseFlexibleDate(dateStr: string, reference: string,
                             find: string -> Option<FlexMatch>, loose: string -> Option<string>): string
  {
    var clean := Trim(DropPunctuation(dateStr));
    var fm := find(clean);
    if fm.Some? && MonthIndex(fm.value.monthWord).Some? then
      fm.value.year + "-" + Pad(MonthIndex(fm.value.monthWord).value + 1, 2) + "-" + PadStart(fm.value.day, 2, '0')
    else if loose(clean).Some? then loose(clean).value
    else reference
  }

  /** A month-day-year match with a known month is the date `yyyy-MM-dd`,
      the day zero-padded; when that date exists, `parseISO` reads it back. */
  lemma FlexibleDateIso(dateStr: string, reference: string,
                        find: string -> Option<FlexMatch>, loose: string -> Option<string>)
    requires var fm := find(Trim(DropPunctuation(dateStr)));
      fm.Some? && MonthIndex(fm.value.monthWord).Some? &&
      |fm.value.year| == 4 && IsDigits(fm.value.year) && 1 <= |fm.value.day| <= 2 && IsDigits(fm.value.day)
    ensures var fm := find(Trim(DropPunctuation(dateStr)));
      var c := Civil(DigitsValue(fm.value.year), MonthIndex(fm.value.monthWord).value + 1, DigitsValue(fm.value.day));
      var r := ParseFlexibleDate(dateStr, reference, find, loose);
      IsIsoShaped(r) && (Valid(c) ==> ParseIsoDate(r) == Some(c))
  {
    var fm := find(Trim(DropPunctuation(dateStr)));
    var y, d := fm.value.year, fm.value.day;
    var m := MonthIndex(fm.value.monthWord).value + 1;
    var ms, ds := Pad(m, 2), PadStart(d, 2, '0');
    NatToStringLength(m);
    PaddedRoundTrip(m, 2);
    PadDigits(d);
    DashedParts(y, ms, ds);
    var r := y + "-" + ms + "-" + ds;
    assert r == ParseFlexibleDate(dateStr, reference, find, loose);
  }

  /** Padding one or two digits to two keeps their value. */
  lemma PadDigits(d: string)
    requires 1 <= |d| <= 2 && IsDigits(d)
    ensures |PadStart(d, 2, '0')| == 2 && IsDigits(PadStart(d, 2, '0'))
    ensures DigitsValue(PadStart(d, 2, '0')) == DigitsValue(d)
  {
    if |d| == 1 {
      assert PadStart(d, 2, '0') == "0" + d;
      DigitsValueLeadingZeros("0", d);
    } else {
      assert PadStart(d, 2, '0') == d;
    }
  }

  /** Without a usable match and without a date `new Date` accepts, the
      reference comes back unchanged. */
  lemma FlexibleDateFallback(dateStr: string, reference: string,
                             find: string -> Option<FlexMatch>, loose: string -> Option<string>)
    requires var clean := Trim(DropPunctuation(dateStr));
      (find(clean).None? || MonthIndex(find(clean).value.monthWord).None?) && loose(clean).None?
    ensures ParseFlexibleDate(dateStr, reference, find, loose) == reference
  {
  }
}
