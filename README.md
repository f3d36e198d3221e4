# Deterministic availability engine of the meeting scheduler

This project is a Dafny model of the part of the meeting-scheduling agent
that uses no language model. It models:

- the interval merger;
- the free-slot computer (buffering, the gap walk, the time-of-day window,
  discretisation and the 20-slot cap) and its ranking;
- the date-constraint resolver and its validator;
- the line-by-line calendar text parser;
- the always-forward weekday resolver;
- the reference-date manager;
- the deterministic parts of the agent nodes: `convertto24h`,
  `formatMinutes`, the bias minute, the top-five ranking of
  `findSlotsNode`, the resolve-then-validate path of `resolveIntentNode` and
  the option number of `handleSelectionNode`.

Each module mirrors one source file:

| module | source |
|---|---|
| `Intervals` | `src/scheduling/intervals.ts` |
| `SlotFinder` | `src/scheduling/slotFinder.ts` |
| `DateResolver` | `src/utils/dateResolver.ts` |
| `CalendarParser` | `src/parser/calendarParser.ts` |
| `DateUtils` | `src/utils/dateUtils.ts` |
| `ReferenceDate` | `src/utils/referenceDate.ts` |
| `Nodes` | `src/agent/nodes.ts` |
| `Types` | the record shapes of `src/types.ts` |

Shared modules:

- `Wrappers`: `Option`.
- `Strings`: digits, `padStart`, ASCII `toLowerCase`, `trim` and `includes`.
- `Sorting`: `Array.prototype.sort` with a key comparator, modelled as a
  stable insertion sort. It also has the in-place array sort and `slice(0, n)`.
- `Clock`: the 12-hour correction, JavaScript's truncating `%`, and
  `formatMinutes` with a reader that reads its output back.
- `CivilDate`: the proleptic Gregorian calendar that replaces JavaScript
  `Date` and date-fns. It has:
  - day numbers and `getDay`;
  - `addDays`;
  - `new Date(y, m, d)` with its overflow and its rule that years 0..99
    mean 1900..1999;
  - `format(d, 'yyyy-MM-dd')`;
  - `parseISO` on complete `YYYY-MM-DD` dates.

The code follows the source's own form:

- The loops that build up a result are methods with loop invariants, each
  proved equal to a specification function:
  - `mergeIntervals`;
  - the four loops of `computeFreeSlots`;
  - the calendar loop.
- `rankSlots` and the sorting in `findSlotsNode` update an `array` in place.
  The update is proved equal to the stable sort `SortBy` of the old contents.
- `resolveTargetDate` rewrites the kind of a `TimeConstraint` object, and
  `ReferenceDateManager` is a class whose `initialize` assigns its two fields.

Classification by regular expression is not modelled. A calendar line or a
clock mention in a request arrives as a datatype that records which pattern
matched and what its groups captured.

Four behaviours of the code that a reader might not expect:

- Slot bounds. An interior gap ends at the start of the next busy interval
  (src/scheduling/slotFinder.ts:42-46). Only the final gap is bounded by the
  end of the working day (lines 50-52). A busy interval that starts after
  `dayEnd` therefore gives a gap, and slots, that run past the end of the
  working day (`SlotFinder.InteriorGapPastDayEnd`).
- Constraint rewrite. `resolveTargetDate` assigns `constraint.type` in place
  (src/utils/dateResolver.ts:19-21), so a caller's constraint object is
  changed by resolving it.
- Reclassification. The test at src/utils/dateResolver.ts:19 looks only at
  the first whitespace-separated word of the value, and it looks it up in a
  plain object by truthiness. So `sunday` (value 0, falsy) is not
  reclassified, while `constructor` and `__proto__` (inherited members,
  truthy) are.
- Midnight shown as noon. The evening and any windows end at minute 1440
  (src/scheduling/slotFinder.ts:64-69), and working hours such as `17:00 -
  24:00` reach it too, so a slot can end at 1440. `formatMinutes`
  (src/scheduling/slotFinder.ts:103-109) takes hour 24 for it, which is PM
  and `24 % 12 || 12 == 12`. The end is therefore shown as `12:00 PM`, the
  same text as noon (`SlotFinder.MidnightEndShownAsNoon`).

## Model

| member | source | states |
|---|---|---|
| Intervals.MergeIntervals | src/scheduling/intervals.ts:6-24 | The merged list is the fold of the start-sorted copy. It is sorted by start and strictly separated (touching intervals merge). It is empty exactly when the input is and is no longer than the input. Every input lies inside some output, every output start is an input start and every output end an input end. No output covers a minute no input covers. |
| Intervals.Fold | src/scheduling/intervals.ts:10-21 | The loop that either extends the last merged interval or pushes the current one computes the fold over the whole sorted list. |
| Intervals.MergeProperties | src/scheduling/intervals.ts:6-24 | The merger's full promise (shape, coverage, starts and ends drawn from the input, no new minutes) holds for every input list. |
| Intervals.MergeShape | src/scheduling/intervals.ts:9-21 | Merged output is sorted by start, consecutive intervals neither overlap nor touch, and it has at most as many intervals as the input. |
| Intervals.MergeCovers | src/scheduling/intervals.ts:12-21 | Every input interval lies inside one merged interval. |
| Intervals.MergeWellFormed | src/scheduling/intervals.ts:16-20 | Merging intervals that end no earlier than they start gives intervals with the same property. |
| Intervals.MergeIdempotent | src/scheduling/intervals.ts:6-24 | Merging a merged list changes nothing. |
| Sorting.SortByFacts | src/scheduling/slotFinder.ts:17 | The key sort returns a permutation of its input, sorted by the key. |
| Sorting.SortByStable | src/agent/nodes.ts:209-216 | The sort is stable: the elements of any one key keep their input order. |
| Sorting.SortBySorted | src/scheduling/slotFinder.ts:99-101 | A list already sorted by the key is returned unchanged. |
| Sorting.SortInPlace | src/scheduling/slotFinder.ts:99-101 | The array is rearranged in place into the stable order of its old contents by the key. |
| Sorting.Take | src/agent/nodes.ts:218 | `slice(0, n)` gives the first min(n, length) elements. |
| SlotFinder.ComputeFreeSlots | src/scheduling/slotFinder.ts:4-97 | The method's slots equal the specification `FreeSlots`. There are at most 20. Each lasts exactly the duration, is on the target date with the display text of its clock times, starts on a 5-minute mark inside the time-of-day window and not before the start of the working day, overlaps no merged buffered occupied interval of the events, and is clear of every event of positive length. Starts strictly increase when the duration is zero or more. |
| SlotFinder.FreeSlotsFacts | src/scheduling/slotFinder.ts:40-94 | The specification's slots keep the whole promise stated for `ComputeFreeSlots`, for every input, including that no slot overlaps a merged buffered occupied interval. |
| SlotFinder.FreeStartsFacts | src/scheduling/slotFinder.ts:72-94 | The candidate starts before the cap keep the promise on start minutes, including that the slot from each start overlaps no merged buffered occupied interval. Exactly 20 are kept whenever at least 20 candidates exist. |
| SlotFinder.BuildOccupied | src/scheduling/slotFinder.ts:20-30 | The loop over sorted valid events produces one occupied interval per event, the specification `Occupied`. |
| SlotFinder.OccupiedBuffering | src/scheduling/slotFinder.ts:21-30 | An event's occupied end is its end plus 5 exactly when a next event starts less than 10 minutes after it ends; otherwise it is its end. The last event is never padded. |
| SlotFinder.BufferExamples | src/scheduling/slotFinder.ts:26-28 | A next event 5 minutes later pads by 5; one 10 minutes later does not. |
| SlotFinder.KeepValid | src/scheduling/slotFinder.ts:15-16 | Exactly the events with end after start are kept, none added. |
| SlotFinder.ValidEventsFacts | src/scheduling/slotFinder.ts:15-17 | The valid events are sorted by start and are exactly the input events of positive length. Their occupied intervals are well formed. |
| SlotFinder.EmptyEventIgnored | src/scheduling/slotFinder.ts:16 | Adding an event that does not end after it starts changes nothing. |
| SlotFinder.EventCovered | src/scheduling/slotFinder.ts:20-31 | Every event of positive length lies inside one merged occupied interval. |
| SlotFinder.WalkGaps | src/scheduling/slotFinder.ts:40-52 | The cursor walk over the merged intervals produces the specification's gap list. |
| SlotFinder.GapsFacts | src/scheduling/slotFinder.ts:40-52 | The gaps are in order, each starts at or after the cursor's start, is non-empty and at least the duration long, and is free of every merged interval. |
| SlotFinder.FreeGapsFacts | src/scheduling/slotFinder.ts:40-52 | The day's gaps are in order (each ends before the next starts), start at or after the working-day start and are free of the merged occupied intervals. |
| SlotFinder.InteriorGapPastDayEnd | src/scheduling/slotFinder.ts:43-46 | A gap before a busy interval is not clipped to the end of the day: hours 9:00-10:00 with a meeting at 15:00 give the gap 9:00-15:00. |
| SlotFinder.RoundUp5 | src/scheduling/slotFinder.ts:80 | The first start is the least multiple of 5 at or after the gap start. |
| SlotFinder.ClipStartsFacts | src/scheduling/slotFinder.ts:73-92 | The starts cut from one gap increase, are multiples of 5, and fit both the gap and the time-of-day window. |
| SlotFinder.GapStartsSteps | src/scheduling/slotFinder.ts:79-92 | Inside one gap the starts begin at the gap start, step by the increment, and stop when the next slot would pass the end. There are none exactly when the first slot does not fit. |
| SlotFinder.GapStartsFacts | src/scheduling/slotFinder.ts:82-92 | Inside one gap every slot fits, starts strictly increase, and they are on the 5-minute grid when the first start and the step are. |
| SlotFinder.CandidatesFacts | src/scheduling/slotFinder.ts:73-94 | Every candidate start from a list of free gaps is aligned, inside the window, not before the lower bound, and its slot is free of the occupied intervals. |
| SlotFinder.CandidatesIncreasing | src/scheduling/slotFinder.ts:73-94 | Candidate starts across gaps that each end before the next one starts strictly increase when the duration is zero or more. |
| SlotFinder.Discretize | src/scheduling/slotFinder.ts:72-94 | The gap loop with its inner `while` and both breaks at 20 yields the slots of the first 20 candidate starts. |
| SlotFinder.CutGap | src/scheduling/slotFinder.ts:74-92 | One gap's inner loop appends the gap's starts until the cap. If it stops below 20, it has consumed the gap completely. |
| SlotFinder.MakeSlotDisplay | src/scheduling/slotFinder.ts:83-89 | A slot lasts the duration, and, for a slot ending before midnight (minute 1440), its display texts read back as its start and end minutes. |
| SlotFinder.MidnightEndShownAsNoon | src/scheduling/slotFinder.ts:83-89 | A slot of 30 minutes from 23:30 ends at minute 1440, its end text is `12:00 PM`, and that text reads back as 720 (noon). |
| Clock.MidnightShownAsNoon | src/scheduling/slotFinder.ts:103-109 | Minute 1440 is shown as `12:00 PM`, which reads back as 720. |
| SlotFinder.RankSlots | src/scheduling/slotFinder.ts:99-101 | The array is sorted in place by start and returned itself. Its new contents are the stable sort of its old contents: sorted, with the same multiset of slots. |
| SlotFinder.RankAscendingIdentity | src/scheduling/slotFinder.ts:99-101 | Ranking slots that already ascend returns them unchanged. |
| Clock.To24Hour | src/parser/calendarParser.ts:110-125 | Without a meridiem the hour is kept. For an hour in 1..12: with AM the result lies in 0..11, with PM in 12..23, and in both cases it is the hour modulo 12. Outside 1..12 nothing is promised for AM and PM (13 PM gives 25, as in the source). |
| Clock.FormatMinutesRoundTrip | src/scheduling/slotFinder.ts:103-109 | For a minute of the day, the hour shown is 1..12, the meridiem is PM exactly from noon, and reading the text back gives the minute. |
| Clock.TwelveHourDisplay | src/agent/nodes.ts:233-239 | A 12-hour time with minutes below 60 is shown as its own hour, a colon, two-digit minutes and its meridiem. |
| Clock.JsRem60 | src/scheduling/slotFinder.ts:105 | JavaScript's `%` differs from the value by a multiple of 60 and takes the dividend's sign. |
| CivilDate.WeekdayAddDays | src/utils/dateResolver.ts:57-68 | Adding k days moves the weekday by k modulo 7. |
| CivilDate.AddDays | src/utils/dateResolver.ts:39 | `addDays` gives a real date k day numbers later. |
| CivilDate.AddDaysSplit | src/utils/dateUtils.ts:22 | Adding a then b days is adding a + b days. |
| CivilDate.DateFromParts | src/parser/calendarParser.ts:80 | `new Date(y, m, d)` always denotes a real date, overflowing into later months. |
| CivilDate.DateFromPartsCounts | src/parser/calendarParser.ts:80 | The day number is that of the first of the (overflowed) month plus day - 1. |
| CivilDate.DateFromPartsExact | src/utils/referenceDate.ts:80 | For a real date from year 100 on, the constructor returns that date. |
| CivilDate.ParseIsoDate | src/utils/dateResolver.ts:80-81 | A parsed date comes from a `YYYY-MM-DD` string and is a real date. |
| CivilDate.ParseIsoFormat | src/utils/dateResolver.ts:80-81 | Formatting a date of the years 1..9999 and parsing the text back gives the date. |
| CivilDate.IsoFormatShaped | src/utils/dateUtils.ts:29-31 | The formatted date of years 1..9999 has the `YYYY-MM-DD` shape. |
| DateUtils.DaysAhead | src/utils/dateUtils.ts:13-20 | `daysToAdd` is the least d in 1..7 on whose weekday the target falls. |
| DateUtils.IndexOf | src/utils/dateUtils.ts:8 | `indexOf` gives the first position holding the name, or -1 when none does. |
| DateUtils.UnknownWeekdayIsAnchor | src/utils/dateUtils.ts:8-10 | A name that is not a weekday gives the anchor date. |
| DateUtils.ResolveWeekdayAhead | src/utils/dateUtils.ts:12-22 | A weekday name resolves to the first date 1 to 7 days after the anchor with that weekday. |
| DateUtils.SameWeekdayNextWeek | src/utils/dateUtils.ts:18-20 | On the target weekday itself the result is a week later, never the anchor. |
| DateUtils.ResolveWeekdayIgnoresCase | src/utils/dateUtils.ts:8 | A name and its lower-case form resolve alike. |
| DateUtils.ResolveWeekdayIsIso | src/utils/dateUtils.ts:22-23 | For anchors in years 1..9992 the result is a valid ISO string that parses back to the resolved date. |
| DateUtils.IsValidIsoDateIff | src/utils/dateUtils.ts:29-31 | The test is true exactly for ten characters with dashes at positions 4 and 7 and ASCII digits elsewhere. |
| DateResolver.DaysMap | src/utils/dateResolver.ts:13-16 | The lookup finds an index exactly for the seven names, with the index of that name. It finds an inherited member exactly for `constructor` and `__proto__`. |
| DateResolver.ReclassifyIff | src/utils/dateResolver.ts:19-21 | The kind becomes DAY_OF_WEEK exactly when it already was, or when it is ABSOLUTE and its first lower-case word is a weekday other than sunday (or an inherited member). |
| DateResolver.ResolveTargetDate | src/utils/dateResolver.ts:8-74 | The constraint's kind is rewritten in place to its reclassified value, and the result is the resolver's date for the new kind (none where `format` throws). |
| DateResolver.AbsoluteIsoVerbatim | src/utils/dateResolver.ts:24-28 | An ABSOLUTE value of `YYYY-MM-DD` shape keeps its kind and is returned verbatim. |
| DateResolver.RelativeCases | src/utils/dateResolver.ts:34-41 | RELATIVE gives the reference date plus one day for `tomorrow` in any case, and the reference date for anything else. |
| DateResolver.DayOfWeekResolves | src/utils/dateResolver.ts:43-69 | A weekday gives the first date 0 to 6 days from the reference with that weekday, so the same weekday gives the reference itself. |
| DateResolver.DayOfWeekFallback | src/utils/dateResolver.ts:50-55 | A day text that is not a weekday gives the reference date. The inherited members give no date, because `format` throws on NaN. |
| DateResolver.BeforeOrFirst | src/utils/dateResolver.ts:50 | Of `w or rest` only the word `w` is used. |
| DateResolver.ValidateCases | src/utils/dateResolver.ts:79-90 | Validation: false for an unparsable date; true for kinds other than DAY_OF_WEEK; false when the lower-cased value is no weekday name; and when true for DAY_OF_WEEK, the date's weekday name equals the lower-cased value. |
| DateResolver.WeekdaySound | src/utils/dateResolver.ts:43-69 | For a value that lower-cases to a weekday name, the resolved date exists and passes validation. |
| DateResolver.RelativeSound | src/utils/dateResolver.ts:34-41 | A RELATIVE date always exists and passes validation. |
| DateResolver.AbsoluteNonexistentRejected | src/utils/dateResolver.ts:26-28 | A well-shaped ABSOLUTE value naming no real date is returned verbatim and then fails validation. |
| DateResolver.ContrastWithResolveWeekday | src/utils/dateUtils.ts:18-20 | The always-forward resolver agrees with this one except on the same weekday, where it is seven days later. |
| DateResolver.MondayFromJan15 | src/utils/dateResolver.ts:57-68 | Monday from Thursday 2026-01-15 resolves to 2026-01-19. |
| DateResolver.TomorrowFromJan15 | src/utils/dateResolver.ts:38-40 | Tomorrow from 2026-01-15 is 2026-01-16. |
| CalendarParser.ParseCalendar | src/parser/calendarParser.ts:17-108 | An Invalid Date anchor gives no result, because formatting the week start throws. A valid anchor gives the fold of the line step over the trimmed non-empty lines, starting from the defaults, with the anchor's date as week start. |
| CalendarParser.ParseFromAnchor | src/parser/calendarParser.ts:36-108 | From a valid anchor, the loop over the trimmed non-empty lines gives the fold of the line step over them, starting from the defaults, with the anchor's date as week start. |
| CalendarParser.ApplyLine | src/parser/calendarParser.ts:46-104 | One turn of the loop computes one step of the fold. |
| CalendarParser.ParseTimeTokenCases | src/parser/calendarParser.ts:110-125 | PM with an hour other than 12 adds 12 hours; 12 AM is hour 0; no meridiem keeps the hour; the result is hour times 60 plus the minutes (0 when absent). A 12-hour token lies within the day. |
| CalendarParser.TokenDisplay | src/parser/calendarParser.ts:110-125 | A 12-hour token displays as itself through `formatMinutes`. |
| CalendarParser.DefaultsWithoutHeaders | src/parser/calendarParser.ts:40-44 | Without hours, timezone or day-header lines the result is the defaults: 540-1020, UTC, no labels, no events, no current date. |
| CalendarParser.LastHoursWins | src/parser/calendarParser.ts:48-55 | The working hours are those of the last hours line. |
| CalendarParser.LastTimezoneWins | src/parser/calendarParser.ts:58-62 | The timezone is that of the last timezone line, parenthesised text removed and trimmed. |
| CalendarParser.StripLeavesNoParenthesis | src/parser/calendarParser.ts:60 | After the removal no `(` is followed by a later `)`. |
| CalendarParser.CurrentDateIsLatestHeader | src/parser/calendarParser.ts:65-87 | The current date is the date of the last header whose month is known. |
| CalendarParser.UnknownMonthIgnored | src/parser/calendarParser.ts:76-86 | A header with an unknown month changes nothing. |
| CalendarParser.MonthIndex | src/parser/calendarParser.ts:68-76 | The month is found exactly when the first three lower-case letters are a month key, at that key's position. |
| CalendarParser.NoDateBeforeHeader | src/parser/calendarParser.ts:91 | Before any resolving header there is no current date, no event and no label. |
| CalendarParser.BulletAfterHeader | src/parser/calendarParser.ts:89-104 | A bullet after a resolving header appends one event dated by that header when it is kept, and otherwise nothing. |
| CalendarParser.BulletBeforeHeader | src/parser/calendarParser.ts:91 | A bullet before any resolving header stores no event. |
| CalendarParser.StepBulletKept | src/parser/calendarParser.ts:92-103 | A kept bullet appends the event with the start token's minutes, the end token with the start's meridiem when it has none, and the trimmed title. |
| CalendarParser.StepBulletDropped | src/parser/calendarParser.ts:91-101 | A bullet with no current date, a "no events" title or an end not after its start leaves the state unchanged. |
| CalendarParser.EventsKept | src/parser/calendarParser.ts:96-103 | Every stored event starts before it ends and its title does not contain "no events" in any case. |
| CalendarParser.EventsInTextOrder | src/parser/calendarParser.ts:46-105 | The events of any prefix of the lines are a prefix of all events: text order is kept. |
| CalendarParser.LabelLastWins | src/parser/calendarParser.ts:83 | A date's label is the weekday name of the last resolving named header for that date. |
| CalendarParser.LabelNeedsName | src/parser/calendarParser.ts:83 | A date that no named header resolves to has no label. |
| CalendarParser.SplitJoin | src/parser/calendarParser.ts:18 | Splitting at newlines loses nothing: the pieces joined with newlines restore the text. |
| CalendarParser.TrimmedNonEmpty | src/parser/calendarParser.ts:18 | Every kept line is non-empty and has no surrounding whitespace. |
| CalendarParser.FlexibleDateIso | src/parser/calendarParser.ts:127-141 | "Month d, yyyy" with a known month becomes a `YYYY-MM-DD` string, day zero-padded, that parses back to that date when it exists. |
| CalendarParser.FlexibleDateFallback | src/parser/calendarParser.ts:127-148 | Text with neither a known month pattern nor a loose parse returns the reference. |
| CalendarParser.DropPunctuation | src/parser/calendarParser.ts:128 | The cleaned text contains none of `!?;:` and is no longer than before. |
| ReferenceDate.ReferenceDateManager.Initialize | src/utils/referenceDate.ts:19-48 | On success both fields hold the chosen date and its source. On failure the error is returned and both fields keep their old values. |
| ReferenceDate.ReferenceDateManager.GetDate | src/utils/referenceDate.ts:50-55 | `getDate` returns the stored date, and throws NotInitialized exactly when none is stored. |
| ReferenceDate.ReferenceDateManager.GetDateString | src/utils/referenceDate.ts:60-66 | The string throws exactly when `getDate` does. |
| ReferenceDate.ReferenceDateManager.GetMetadata | src/utils/referenceDate.ts:68-73 | Metadata throws exactly when no date is stored. The source is never "unknown" once a date is stored. |
| ReferenceDate.ParseDate | src/utils/referenceDate.ts:75-88 | Parsing fails only on text that is not of `YYYY-MM-DD` shape, and then with the invalid-format error naming the text. |
| ReferenceDate.CliWins | src/utils/referenceDate.ts:24-29 | A non-empty command-line date decides alone, with source cli; if it does not parse, the result is an error, not a fallback. |
| ReferenceDate.EnvNext | src/utils/referenceDate.ts:31-36 | Without a command-line date, a non-empty environment date decides, with source env, whatever the system flag. |
| ReferenceDate.SystemLast | src/utils/referenceDate.ts:38-43 | With neither, allowing the system date gives today with source system. |
| ReferenceDate.NotSetIff | src/utils/referenceDate.ts:45-47 | The not-set error arises exactly when no non-empty date is given and the system date is not allowed. |
| ReferenceDate.EmptyIsAbsent | src/utils/referenceDate.ts:24-31 | An empty string counts as absent. |
| ReferenceDate.IsoRoundTrip | src/utils/referenceDate.ts:60-88 | An existing `YYYY-MM-DD` date from year 1000 on parses to itself, and `getDateString` reproduces the text. |
| ReferenceDate.DateStringPadded | src/utils/referenceDate.ts:62-65 | The string is the unpadded year, then month and day as two digits each, read back as the date's month and day. |
| ReferenceDate.ShortYearUnpadded | src/utils/referenceDate.ts:62-80 | "0500-01-01" gives year 500, which prints back as "500-01-01". |
| ReferenceDate.TwoDigitYear | src/utils/referenceDate.ts:80 | "0050-06-15" is read as 1950-06-15. |
| ReferenceDate.FebruaryOverflow | src/utils/referenceDate.ts:80 | "2026-02-30" overflows to 2026-03-02. |
| ReferenceDate.StartUp | src/utils/referenceDate.ts:19-66 | A fresh manager initialised once yields the chosen date's string, or the initialisation's error. |
| ReferenceDate.UseBeforeInit | src/utils/referenceDate.ts:50-61 | Before initialisation, and after a failed one, the date string throws NotInitialized. |
| ReferenceDate.Reinitialize | src/utils/referenceDate.ts:24-43 | A second successful initialisation replaces both the date and the source. |
| Nodes.Convert24hRoundTrip | src/agent/nodes.ts:222-231 | The `HH:MM:00` text reads back as the corrected hour times 60 plus the minutes. |
| Nodes.Convert24hReadsBack | src/agent/nodes.ts:225-230 | The text has two-digit hour and minute fields holding the corrected hour (below 24) and the minutes, separated by colons, ending in `:00`. |
| Nodes.TimeStringRoundTrip | src/agent/nodes.ts:230 | Zero-padded hours and minutes below 100 read back as their minute count. |
| Nodes.ClockDisplay | src/agent/nodes.ts:228-239 | A converted 12-hour time displays again as that time through `formatMinutes`. |
| Nodes.FallbackBiasDisplay | src/agent/nodes.ts:199-205 | The bias of a 12-hour mention is a whole hour of the day and displays as the mention at `:00`. |
| Nodes.FallbackBiasTwelve | src/agent/nodes.ts:201-204 | 12 AM is 0, 12 PM is 720, 3 PM is 900 and 9 AM is 540. |
| Nodes.BiasTime | src/agent/nodes.ts:174-206 | The bias is the converted specific time when one was produced, else the fallback of the request's first clock mention, and absent exactly when neither exists. |
| Nodes.SettleBias | src/agent/nodes.ts:174-206 | The branchy assignment of `biasTime` computes exactly `BiasTime`. |
| Nodes.ProposalsFacts | src/agent/nodes.ts:208-219 | There are min(5, n) proposals, drawn from the free slots without repetition and sorted by the key. No slot left out has a smaller key than a kept one. |
| Nodes.ProposalsAreFree | src/agent/nodes.ts:218 | Every proposal is one of the computed slots. |
| Nodes.ProposalsKeepTies | src/agent/nodes.ts:209-218 | Among slots with equal key, the proposals are the first ones in the computed order. |
| Nodes.ChronologicalWithoutBias | src/agent/nodes.ts:215-218 | Without a bias, proposals from ascending slots are simply the first five. |
| Nodes.RankProposals | src/agent/nodes.ts:208-218 | Sorting a copy in place by the key and slicing five gives `Proposals`. |
| Nodes.TopFive | src/agent/nodes.ts:218 | The first five elements of the array, or all of them when fewer. |
| Nodes.OnDate | src/agent/nodes.ts:156 | The filter keeps exactly the events dated the resolved date. |
| Nodes.FindSlotsNode | src/agent/nodes.ts:150-220 | The node's outcome equals `FindSlots`: missing input, no slots on the date, or proposals with the bias. |
| Nodes.NoSlotsIff | src/agent/nodes.ts:150-171 | Missing input arises exactly when the intent, the calendar metadata or a non-empty resolved date is absent. The no-slots error arises exactly when the inputs are present but the day has no free slot, and it names the date. |
| Nodes.PromiseMembers | src/agent/nodes.ts:158-164 | Every free slot of the day is a valid proposal: exact length on the date, on the grid, inside the window, not before working hours, overlapping no merged buffered occupied interval of that date's events, clear of every event of that date. |
| Nodes.ProposedFacts | src/agent/nodes.ts:166-219 | Proposals carry the settled bias and number 1 to 5, min(5, free slots). They are sorted by the key, no omitted free slot is closer, and each is a free slot satisfying the slot guarantees, including freedom from every merged buffered occupied interval of the date. |
| Nodes.SpecificTimeIgnoresTimeOfDay | src/agent/nodes.ts:163 | With a specific time, the requested time of day has no effect. |
| Nodes.NoBiasFirstFive | src/agent/nodes.ts:208-219 | Without a bias and for a duration of zero or more, the proposals are the first five free slots in time order. |
| Nodes.HandleSelection | src/agent/nodes.ts:276-292 | A selection is confirmed exactly when proposals exist and the number found lies in 1..count. It then confirms index number - 1 and that proposal. |
| Nodes.MatchFromFound | src/agent/nodes.ts:280 | A number found is the digits after some "option", or the whole reply when it is all digits. |
| Nodes.LeftmostOptionSelects | src/agent/nodes.ts:280-282 | The leftmost "option N" decides. |
| Nodes.BareNumberSelects | src/agent/nodes.ts:280-282 | A reply of digits only selects its value. |
| Nodes.NoMatchRejects | src/agent/nodes.ts:280-291 | With no "option N" and not only digits, nothing is selected. |
| Nodes.OptionTwoSelects | src/agent/nodes.ts:280-287 | "Option 2" confirms the second proposal. |
| Nodes.BareThreeSelects | src/agent/nodes.ts:280-287 | "3" confirms the third proposal. |
| Nodes.OptionZeroRejected | src/agent/nodes.ts:282-291 | Number 0 is rejected. |
| Nodes.ResolveIntentNode | src/agent/nodes.ts:127-148 | No intent gives the error phase. Otherwise the constraint kind is rewritten in place and the outcome is the resolved date when resolution succeeds and validates, and RESOLVE_FAILED otherwise. |
| Nodes.ResolvedIsCheckedResolverOutput | src/agent/nodes.ts:134-143 | A resolved date is the resolver's own output and parses. For a weekday constraint, its weekday name is the lower-cased value, so a mismatch is never replaced by another date. |
| Nodes.UnknownWeekdayFails | src/agent/nodes.ts:137-141 | A weekday constraint whose value is no weekday name fails. |
| Nodes.WeekdayResolved | src/agent/nodes.ts:134-143 | A weekday name resolves to the next-or-same date with that weekday. |
| Nodes.RelativeResolved | src/agent/nodes.ts:134-143 | A RELATIVE constraint resolves to the reference date or the day after. |
| Nodes.AbsoluteResolved | src/agent/nodes.ts:134-147 | An ISO-shaped ABSOLUTE value resolves to itself when it is a real date, and otherwise fails. |
| Nodes.InheritedDayFails | src/agent/nodes.ts:144-147 | A weekday constraint naming `constructor` or `__proto__` ends in RESOLVE_FAILED. |

## Left out

- I/O and the language-model nodes: `loadCalendarNode`'s file read and hash, `extractIntentNode`, `proposeSlotsNode` and `confirmMeetingNode`, the logger and every `console.log`. The graph wiring, the checkpoint store and the CLI are not part of this model either.
- The timezone conversion in `findSlotsNode` (date-fns-tz with IANA data) is a parameter, `converted`: the local minute it produced, or none when it threw before `biasTime` was set. Line 190 refers to `dayStart` and `dayEnd`, which are not declared in the function, so it throws after `biasTime` is set. `preferredTimeWarning` is therefore always null and is not modelled.
- Regular-expression matching of calendar lines, request text and `convertto24h`'s input is not modelled. Lines arrive as `Line` values, mentions as `ClockMatch` and `ClockMention`, and `parseFlexibleDate`'s month pattern as the parameter `find`. The selection pattern of `handleSelectionNode` is modelled directly.
- `extractAnchorDate` is a parameter of `ParseCalendar` (the anchor, `None` for an Invalid Date), because it rests on date-fns `parse` and `new Date(string)`. The `RangeError` that `format` throws on an Invalid Date (src/parser/calendarParser.ts:37) is modelled as the `None` result, not as an exception.
- `new Date(string)` (the loose branch of `parseDate` and `parseFlexibleDate`) is a function parameter. `parseISO` is modelled only on complete `YYYY-MM-DD` text; its other forms count as invalid.
- Durations, start minutes and end minutes are integers (`int`). The source's `durationMin` is any JavaScript number (a `z.number()` in src/types.ts:20), so a fractional duration and the fractional end minutes and display text it gives are not modelled.
- SlotFinder.ComputeFreeSlots: ascending starts are promised only for a duration of zero or more. A negative duration lets the slots of one gap start after the gap ends (the loop test is `slotStart + durationMin <= end`), so they can pass the start of the next gap. The source does not keep its slots in order then either.
- The time of day of a `Date` (the noon of `parseDate`), local timezones and daylight saving are not modelled. Years 0 and below, years past 9999 and the precision limits of JavaScript numbers are not modelled either.
- `toLowerCase` is modelled on ASCII letters only.
- The lazily created singleton of `getInstance` is not modelled: each manager is a plain object. The `test` source is never assigned by the code and appears only as a value.
- Nodes.ResolveIntentNode: the `getDate` call that throws when the manager is not initialised is outside the try. It is not modelled; the reference date is a parameter.
- Error messages, codes' text and timestamps of the error records are not modelled; the outcome datatypes name the cases.
- Of `calendarMeta`, only `workingHours` is read; the other fields are not modelled.
- Intervals.MergeIntervals: modelled on values. In the source, `merged` starts with the caller's first object, and `last.end = ...` writes through into the caller's list. The model does not capture that aliasing.
- `Array.prototype.sort` is modelled as a stable sort by the comparator's key, as the language has guaranteed since ES2019.
- The `modifier` of a time constraint is carried but not read, as in the source.
