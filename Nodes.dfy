/** The deterministic parts of `src/agent/nodes.ts`: the 24-hour rendering
    of a requested time, the bias minute and the ranking in `findSlotsNode`,
    the option number in `handleSelectionNode` and the resolve-then-validate
    path of `resolveIntentNode`. Regular-expression matches on request text
    arrive already tokenised, as `ClockMatch` and `ClockMention` values. */
module Nodes {
  import opened Wrappers
  import opened Strings
  import opened Sorting
  import opened Clock
  import opened CivilDate
  import opened Types
  import opened DateUtils
  import opened DateResolver
  import opened SlotFinder

  // ---------------------------------------------------------------------
  // convertto24h

  /** A match of `(\d{1,2}):?(\d{0,2})\s*(AM|PM)`: the hour, the minutes
      (0 when the minute group is empty) and the meridiem. */
  datatype ClockMatch = ClockMatch(hour: nat, minute: nat, meridiem: Meridiem)

  /** `convertto24h`: `"12:00:00"` without a match, otherwise the corrected hour
      and the minutes, each zero-padded to two digits, and `:00`. */
  function Convert24h(m: Option<ClockMatch>): string {
    match m
    case None => "12:00:00"
    case Some(cm) => TimeString(To24Hour(cm.hour, Some(cm.meridiem)), cm.minute)
  }

  function TimeString(hours: int, minutes: int): string {
    PadStart(IntToString(hours), 2, '0') + ":" + PadStart(IntToString(minutes), 2, '0') + ":00"
  }

  /** Two digits zero-padded from a number below 100. */
  lemma PadTwoFacts(n: nat)
    requires n < 100
    ensures |PadStart(IntToString(n), 2, '0')| == 2
    ensures IsDigits(PadStart(IntToString(n), 2, '0')) && DigitsValue(PadStart(IntToString(n), 2, '0')) == n
  {
    NatToStringLength(n);
    PaddedRoundTrip(n, 2);
  }

  lemma ColonPieces(hh: string, mm: string)
    requires |hh| == 2 && |mm| == 2
    ensures var s := hh + ":" + mm + ":00";
      |s| == 8 && s[..2] == hh && s[2] == ':' && s[3..5] == mm && s[5] == ':' && s[6..] == "00"
  {
  }

  /** Hours and minutes below 100 sit in fixed columns of `HH:MM:00`. */
  lemma TimeStringFields(hours: nat, minutes: nat)
    requires hours < 100 && minutes < 100
    ensures var s := TimeString(hours, minutes);
      |s| == 8 && s[2] == ':' && s[5] == ':' && s[6..] == "00" &&
      IsDigits(s[..2]) && DigitsValue(s[..2]) == hours &&
      IsDigits(s[3..5]) && DigitsValue(s[3..5]) == minutes
  {
    PadTwoFacts(hours);
    PadTwoFacts(minutes);
    ColonPieces(PadStart(IntToString(hours), 2, '0'), PadStart(IntToString(minutes), 2, '0'));
  }

  /** For a 12-hour clock time the result is an `HH:MM:00` time of day whose
      fields read back as the corrected hour and the minutes. */
  lemma Convert24hReadsBack(cm: ClockMatch)
    requires 1 <= cm.hour <= 12 && cm.minute < 60
    ensures var s := Convert24h(Some(cm));
      |s| == 8 && s[2] == ':' && s[5] == ':' && s[6..] == "00" &&
      IsDigits(s[..2]) && DigitsValue(s[..2]) == To24Hour(cm.hour, Some(cm.meridiem)) < 24 &&
      IsDigits(s[3..5]) && DigitsValue(s[3..5]) == cm.minute
  {
    var hours := To24Hour(cm.hour, Some(cm.meridiem));
    assert 0 <= hours < 24;
    TimeStringFields(hours, cm.minute);
  }

  /** Reads a time of day written `HH:MM:00` back into minutes since midnight. */
  function ReadTime(s: string): Option<int> {
    if |s| == 8 && s[2] == ':' && s[5] == ':' && s[6..] == "00" && IsDigits(s[..2]) && IsDigits(s[3..5])
    then Some(DigitsValue(s[..2]) * 60 + DigitsValue(s[3..5]))
    else None
  }

  /** The round trip: the written time denotes the requested clock time. */
  lemma Convert24hRoundTrip(cm: ClockMatch)
    requires 1 <= cm.hour <= 12 && cm.minute < 60
    ensures ReadTime(Convert24h(Some(cm))) == Some(To24Hour(cm.hour, Some(cm.meridiem)) * 60 + cm.minute)
  {
    Convert24hReadsBack(cm);
    ReadTimeFields(Convert24h(Some(cm)), To24Hour(cm.hour, Some(cm.meridiem)), cm.minute);
  }

  lemma HourRange(cm: ClockMatch)
    requires 1 <= cm.hour <= 12
    ensures 0 <= To24Hour(cm.hour, Some(cm.meridiem)) < 24
  {
  }

  lemma ReadTimeFields(s: string, h: int, m: int)
    requires |s| == 8 && s[2] == ':' && s[5] == ':' && s[6..] == "00"
    requires IsDigits(s[..2]) && DigitsValue(s[..2]) == h && IsDigits(s[3..5]) && DigitsValue(s[3..5]) == m
    ensures ReadTime(s) == Some(h * 60 + m)
  {
  }

  lemma TimeStringRoundTrip(h: nat, m: nat)
    requires h < 100 && m < 100
    ensures ReadTime(TimeString(h, m)) == Some(h * 60 + m)
  {
    TimeStringFields(h, m);
    ReadTimeFields(TimeString(h, m), h, m);
  }

  /** The time it denotes is the one `formatMinutes` shows as the request's own
      `h:mm AM` or `h:mm PM` (the minute `Convert24hRoundTrip` reads back). */
  lemma ClockDisplay(cm: ClockMatch)
    requires 1 <= cm.hour <= 12 && cm.minute < 60
    ensures FormatMinutes(To24Hour(cm.hour, Some(cm.meridiem)) * 60 + cm.minute) ==
      IntToString(cm.hour) + ClockTail(cm.minute, if cm.meridiem == AM then "AM" else "PM")
  {
    TwelveHourDisplay(cm.hour, cm.minute, cm.meridiem);
  }

  // ---------------------------------------------------------------------
  // The bias minute

  /** A match of `(\d{1,2})\s*(AM|PM)` in the raw request. */
  datatype ClockMention = ClockMention(hour: nat, meridiem: Meridiem)

  /** The regex fallback: the corrected hour times 60. */
  function FallbackBias(m: ClockMention): int {
    To24Hour(m.hour, Some(m.meridiem)) * 60
  }

  /** For a 12-hour mention the bias is a whole hour of the day, and
      `formatMinutes` shows it as the mention itself at `:00`. */
  lemma FallbackBiasDisplay(m: ClockMention)
    requires 1 <= m.hour <= 12
    ensures 0 <= FallbackBias(m) < 1440 && FallbackBias(m) % 60 == 0
    ensures FormatMinutes(FallbackBias(m)) == IntToString(m.hour) + ClockTail(0, if m.meridiem == AM then "AM" else "PM")
  {
    WholeHour(To24Hour(m.hour, Some(m.meridiem)));
    TwelveHourDisplay(m.hour, 0, m.meridiem);
  }

  lemma WholeHour(h: int)
    ensures (h * 60) % 60 == 0 && (h * 60) / 60 == h
  {
  }

  /** `12 AM` is midnight and `12 PM` is noon. */
  lemma FallbackBiasTwelve()
    ensures FallbackBias(ClockMention(12, AM)) == 0 && FallbackBias(ClockMention(12, PM)) == 720
    ensures FallbackBias(ClockMention(3, PM)) == 900 && FallbackBias(ClockMention(9, AM)) == 540
  {
  }

  /** A string option that JavaScript treats as true: present and non-empty. */
  predicate Given(o: Option<string>) {
    o.Some? && o.value != ""
  }

  /** `biasTime` after lines 174-206: the converted specific time when there
      is one and its conversion produced a minute (`converted`), else the first
      clock mention of the raw request, else none. */
  function BiasTime(specificTime: Option<string>, converted: Option<int>, mention: Option<ClockMention>): (b: Option<int>)
    ensures Given(specificTime) && converted.Some? ==> b == converted
    ensures !(Given(specificTime) && converted.Some?) && mention.Some? ==> b == Some(FallbackBias(mention.value))
    ensures b.None? <==> !(Given(specificTime) && converted.Some?) && mention.None?
  {
    if Given(specificTime) && converted.Some? then converted
    else
      match mention
      case Some(m) => Some(FallbackBias(m))
      case None => None
  }

  // ---------------------------------------------------------------------
  // Ranking and the top-5 cut

  function Abs(x: int): int {
    if x < 0 then -x else x
  }

  /** The sort key of line 209: distance to the bias, or the start itself. */
  function ProposalKey(bias: Option<int>): TimeSlot -> int {
    match bias
    case Some(b) => (s: TimeSlot) => Abs(s.startMin - b)
    case None => SlotStart
  }

  const ProposalLimit: nat := 5

  /** `freeSlots.sort(...)` followed by `slice(0, 5)`. */
  function Proposals(free: seq<TimeSlot>, bias: Option<int>): seq<TimeSlot> {
    Take(SortBy(free, ProposalKey(bias)), ProposalLimit)
  }

  /** The proposals are `min(5, n)` of the free slots, closest first, and
      every free slot that is not proposed is at least as far from the bias as
      every proposal. */
  lemma ProposalsFacts(free: seq<TimeSlot>, bias: Option<int>)
    ensures var r := Proposals(free, bias);
      |r| == (if |free| <= ProposalLimit then |free| else ProposalLimit) &&
      multiset(r) <= multiset(free) &&
      SortedBy(r, ProposalKey(bias))
    ensures var r := Proposals(free, bias); var key := ProposalKey(bias);
      forall i, x :: 0 <= i < |r| && x in multiset(free) - multiset(r) ==> key(r[i]) <= key(x)
  {
    var key := ProposalKey(bias);
    var sorted := SortBy(free, key);
    SortByFacts(free, key);
    var r := Proposals(free, bias);
    var rest := sorted[|r|..];
    assert sorted == r + rest;
    assert multiset(sorted) == multiset(r) + multiset(rest);
    assert SortedBy(r, key);
    forall i, x | 0 <= i < |r| && x in multiset(free) - multiset(r)
      ensures key(r[i]) <= key(x)
    {
      assert x in multiset(rest);
      var j :| 0 <= j < |rest| && rest[j] == x;
      assert sorted[|r| + j] == x && sorted[i] == r[i];
    }
  }

  /** Every proposal is one of the free slots. */
  lemma ProposalsAreFree(free: seq<TimeSlot>, bias: Option<int>)
    ensures forall x :: x in Proposals(free, bias) ==> x in free
  {
    ProposalsFacts(free, bias);
    forall x | x in Proposals(free, bias)
      ensures x in free
    {
      assert x in multiset(Proposals(free, bias));
    }
  }

  /** Ties keep calendar order: among slots with one key, the proposals are
      the first ones in the order the slot finder produced them. */
  lemma ProposalsKeepTies(free: seq<TimeSlot>, bias: Option<int>, k: int)
    ensures var w := WithKey(free, ProposalKey(bias), k);
      var p := WithKey(Proposals(free, bias), ProposalKey(bias), k);
      |p| <= |w| && p == w[..|p|]
  {
    var key := ProposalKey(bias);
    var sorted := SortBy(free, key);
    var r := Proposals(free, bias);
    assert sorted == r + sorted[|r|..];
    WithKeyAppend(r, sorted[|r|..], key, k);
    SortByStable(free, key, k);
  }

  /** Without a bias, slots that already ascend (as the slot finder returns
      them) are proposed as the first five. */
  lemma ChronologicalWithoutBias(free: seq<TimeSlot>)
    requires Ascending(free)
    ensures Proposals(free, None) == Take(free, ProposalLimit)
  {
    RankAscendingIdentity(free);
  }

  // ---------------------------------------------------------------------
  // handleSelectionNode

  /** The length of the run of ASCII digits starting at `i`. */
  function DigitRun(s: string, i: nat): (k: nat)
    requires i <= |s|
    ensures i + k <= |s| && (i + k < |s| ==> !IsDigit(s[i + k]))
    ensures forall j :: i <= j < i + k ==> IsDigit(s[j])
    decreases |s| - i
  {
    if i < |s| && IsDigit(s[i]) then 1 + DigitRun(s, i + 1) else 0
  }

  /** `option\s*(\d+)` tried at position `i`: the number its group holds. */
  function OptionAt(s: string, i: nat): Option<nat>
    requires i <= |s|
  {
    if i + 6 <= |s| && s[i..i + 6] == "option" then
      var j := SkipSpaces(s, i + 6);
      var k := DigitRun(s, j);
      assert IsDigits(s[j..j + k]);
      if k > 0 then Some(DigitsValue(s[j..j + k])) else None
    else None
  }

  /** `^(\d+)$`: the whole text is digits. */
  predicate AllDigits(s: string) {
    s != [] && IsDigits(s)
  }

  /** The first match of `/option\s*(\d+)|^(\d+)$/` starting at or after `i`,
      as the number of its group: positions are tried from left to right, the
      first alternative before the second, and the second only at position 0. */
  function MatchFrom(s: string, i: nat): Option<nat>
    requires i <= |s|
    decreases |s| - i
  {
    if OptionAt(s, i).Some? then OptionAt(s, i)
    else if i == 0 && AllDigits(s) then Some(DigitsValue(s))
    else if i == |s| then None
    else MatchFrom(s, i + 1)
  }

  /** Whatever the search returns is a match: an "option N" at or after `i`,
      or the whole text as digits when the search starts at 0. */
  lemma {:induction false} MatchFromFound(s: string, i: nat)
    requires i <= |s| && MatchFrom(s, i).Some?
    ensures (exists j :: i <= j <= |s| && OptionAt(s, j) == MatchFrom(s, i)) ||
      (i == 0 && AllDigits(s) && MatchFrom(s, i) == Some(DigitsValue(s)))
    decreases |s| - i
  {
    if OptionAt(s, i).Some? {
      assert OptionAt(s, i) == MatchFrom(s, i);
    } else if !(i == 0 && AllDigits(s)) {
      MatchFromFound(s, i + 1);
    }
  }

  /** The number the user picked, read from the lower-cased reply. */
  function SelectedNumber(reply: string): Option<nat> {
    MatchFrom(Lower(reply), 0)
  }

  datatype Selection = Confirmed(slotIndex: nat, slot: TimeSlot) | Rejected

  /** `handleSelectionNode`: the picked number `N` confirms proposal `N - 1`
      when there are proposals and `1 <= N <= proposals.length`; everything
      else is a rejection. */
  function HandleSelection(reply: string, proposals: Option<seq<TimeSlot>>): (r: Selection)
    ensures r.Confirmed? <==>
      proposals.Some? && SelectedNumber(reply).Some? && 1 <= SelectedNumber(reply).value <= |proposals.value|
    ensures r.Confirmed? ==>
      r.slotIndex == SelectedNumber(reply).value - 1 && r.slot == proposals.value[r.slotIndex]
  {
    var n := SelectedNumber(reply);
    if n.Some? && proposals.Some? then
      var idx := n.value - 1;
      if 0 <= idx < |proposals.value| then Confirmed(idx, proposals.value[idx]) else Rejected
    else Rejected
  }

  /** A reply made only of digits is its own number. */
  lemma BareNumberSelects(s: string)
    requires AllDigits(s)
    ensures MatchFrom(s, 0) == Some(DigitsValue(s))
  {
    assert IsDigit(s[0]);
    if 6 <= |s| {
      assert s[..6][0] == s[0];
    }
  }

  /** The leftmost "option N" decides, whatever follows it. */
  lemma LeftmostOptionSelects(s: string, k: nat, i: nat)
    requires k <= i <= |s| && OptionAt(s, i).Some?
    requires forall j :: k <= j < i ==> OptionAt(s, j).None?
    ensures MatchFrom(s, k) == OptionAt(s, i)
  {
    OptionNotDigits(s, i);
    SkipToMatch(s, k, i);
  }

  /** Positions where neither alternative matches pass the search on. */
  lemma {:induction false} SkipToMatch(s: string, k: nat, i: nat)
    requires k <= i <= |s| && !AllDigits(s)
    requires forall j :: k <= j < i ==> OptionAt(s, j).None?
    ensures MatchFrom(s, k) == MatchFrom(s, i)
    decreases i - k
  {
    if k < i {
      MatchFromStep(s, k);
      SkipToMatch(s, k + 1, i);
    }
  }

  /** A position where neither alternative matches passes the search on. */
  lemma MatchFromStep(s: string, k: nat)
    requires k < |s| && OptionAt(s, k).None? && (k == 0 ==> !AllDigits(s))
    ensures MatchFrom(s, k) == MatchFrom(s, k + 1)
  {
  }

  /** A reply holding the word "option" is not all digits. */
  lemma OptionNotDigits(s: string, i: nat)
    requires i <= |s| && OptionAt(s, i).Some?
    ensures !AllDigits(s)
  {
    assert s[i..i + 6][0] == s[i];
  }

  /** Without "option" followed by a number anywhere, and unless the reply is
      all digits, nothing is selected. */
  lemma {:induction false} NoMatchRejects(s: string, k: nat)
    requires k <= |s| && forall j :: k <= j <= |s| ==> OptionAt(s, j).None?
    requires k == 0 ==> !AllDigits(s)
    ensures MatchFrom(s, k).None?
    decreases |s| - k
  {
    if k < |s| {
      MatchFromStep(s, k);
      NoMatchRejects(s, k + 1);
    }
  }

  /** "Option 2" picks the second proposal. */
  lemma OptionTwoSelects(proposals: seq<TimeSlot>)
    requires |proposals| >= 2
    ensures HandleSelection("Option 2", Some(proposals)) == Confirmed(1, proposals[1])
  {
    var s := Lower("Option 2");
    assert s == "option 2";
    assert s[0..6] == "option";
    assert SkipSpaces(s, 7) == 7;
    assert SkipSpaces(s, 6) == 7;
    assert DigitRun(s, 8) == 0;
    assert DigitRun(s, 7) == 1;
    assert s[7..8] == "2";
    assert DigitsValue("2") == 2 by {
      assert "2"[..0] == [];
    }
    assert OptionAt(s, 0) == Some(2);
    LeftmostOptionSelects(s, 0, 0);
  }

  /** A bare "3" picks the third proposal. */
  lemma BareThreeSelects(proposals: seq<TimeSlot>)
    requires |proposals| >= 3
    ensures HandleSelection("3", Some(proposals)) == Confirmed(2, proposals[2])
  {
    var s := Lower("3");
    assert s == "3";
    assert AllDigits(s);
    assert DigitsValue("3") == 3 by {
      assert "3"[..0] == [];
    }
    BareNumberSelects(s);
  }

  /** Proposal numbers start at 1: "option 0" is rejected. */
  lemma OptionZeroRejected(reply: string, proposals: Option<seq<TimeSlot>>)
    requires SelectedNumber(reply) == Some(0)
    ensures HandleSelection(reply, proposals) == Rejected
  {
  }

  // ---------------------------------------------------------------------
  // findSlotsNode

  /** `events.filter(e => e.date === resolvedDate)`. */
  function OnDate(events: seq<CalendarEvent>, date: string): (r: seq<CalendarEvent>)
    ensures |r| <= |events|
    ensures forall e :: e in r <==> e in events && e.date == date
  {
    if events == [] then []
    else (if events[0].date == date then [events[0]] else []) + OnDate(events[1..], date)
  }

  /** The time-of-day window searched: the whole day when a specific time was
      asked for, else the intent's time of day. */
  function SearchTimeframe(intent: Intent): Timeframe {
    if Given(intent.specificTime) then AnyTime else intent.timeOfDay
  }

  datatype FindOutcome =
    | MissingInput                 // phase 'error' with no error record
    | NoSlots(date: string)        // phase 'error', code NO_SLOTS
    | Proposed(proposals: seq<TimeSlot>, biasTimeMin: Option<int>)

  /** The free slots `findSlotsNode` computes for a present intent, working
      hours and date. */
  function DayFree(intent: Intent, workingHours: (int, int), events: seq<CalendarEvent>, date: string): seq<TimeSlot> {
    FreeSlots(workingHours.0, workingHours.1, OnDate(events, date), intent.durationMin, date, Some(SearchTimeframe(intent)))
  }

  /** `findSlotsNode` as a function of the state it reads. `converted` is the
      minute the time-zone conversion of the specific time produced, if it got
      that far, and `mention` the first `H AM`/`H PM` of the raw request. */
  function FindSlots(intent: Option<Intent>, workingHours: Option<(int, int)>, events: seq<CalendarEvent>,
                     resolvedDate: Option<string>, converted: Option<int>, mention: Option<ClockMention>): FindOutcome
  {
    if intent.None? || workingHours.None? || !Given(resolvedDate) then MissingInput
    else
      var free := DayFree(intent.value, workingHours.value, events, resolvedDate.value);
      if free == [] then NoSlots(resolvedDate.value)
      else
        var bias := BiasTime(intent.value.specificTime, converted, mention);
        Proposed(Proposals(free, bias), bias)
  }

  /** The node itself: filters the day's events, computes the free slots,
      settles the bias step by step, sorts a copy of the slots in place and
      cuts it to five. */
  method FindSlotsNode(intent: Option<Intent>, workingHours: Option<(int, int)>, events: seq<CalendarEvent>,
                       resolvedDate: Option<string>, converted: Option<int>, mention: Option<ClockMention>)
    returns (r: FindOutcome)
    ensures r == FindSlots(intent, workingHours, events, resolvedDate, converted, mention)
  {
    if intent.None? || workingHours.None? || !Given(resolvedDate) {
      return MissingInput;
    }
    var it := intent.value;
    var date := resolvedDate.value;
    var dayEvents := OnDate(events, date);
    var timeframe := if Given(it.specificTime) then AnyTime else it.timeOfDay;
    var free := ComputeFreeSlots(workingHours.value, dayEvents, it.durationMin, date, Some(timeframe));
    if |free| == 0 {
      return NoSlots(date);
    }
    var biasTime := SettleBias(it.specificTime, converted, mention);
    var top := RankProposals(free, biasTime);
    r := Proposed(top, biasTime);
  }

  /** Lines 174-206: the converted specific time if the conversion got as far
      as setting it, then the regular-expression fallback. */
  method SettleBias(specificTime: Option<string>, converted: Option<int>, mention: Option<ClockMention>)
    returns (biasTime: Option<int>)
    ensures biasTime == BiasTime(specificTime, converted, mention)
  {
    biasTime := None;
    if Given(specificTime) && converted.Some? {
      biasTime := converted;
    }
    if biasTime.None? && mention.Some? {
      biasTime := Some(FallbackBias(mention.value));
    }
  }

  /** Lines 208-218: sort the slots in place by the key, then keep the first
      five. */
  method RankProposals(free: seq<TimeSlot>, biasTime: Option<int>) returns (top: seq<TimeSlot>)
    ensures top == Proposals(free, biasTime)
  {
    var a := new TimeSlot[|free|](i requires 0 <= i < |free| => free[i]);
    assert a[..] == free;
    SortInPlace(a, ProposalKey(biasTime));
    top := TopFive(a);
  }

  /** `slice(0, 5)` of the sorted array. */
  method TopFive(a: array<TimeSlot>) returns (top: seq<TimeSlot>)
    ensures top == Take(a[..], ProposalLimit)
  {
    var n := if a.Length < ProposalLimit then a.Length else ProposalLimit;
    top := a[..n];
  }

  /** `NO_SLOTS` exactly when the inputs are present and the day has no free
      slot, and it names the resolved date. */
  lemma NoSlotsIff(intent: Option<Intent>, workingHours: Option<(int, int)>, events: seq<CalendarEvent>,
                   resolvedDate: Option<string>, converted: Option<int>, mention: Option<ClockMention>)
    ensures var r := FindSlots(intent, workingHours, events, resolvedDate, converted, mention);
      r.NoSlots? <==>
        (intent.Some? && workingHours.Some? && Given(resolvedDate) &&
         DayFree(intent.value, workingHours.value, events, resolvedDate.value) == [])
    ensures var r := FindSlots(intent, workingHours, events, resolvedDate, converted, mention);
      r.NoSlots? ==> r.date == resolvedDate.value
    ensures var r := FindSlots(intent, workingHours, events, resolvedDate, converted, mention);
      r.MissingInput? <==> intent.None? || workingHours.None? || !Given(resolvedDate)
  {
  }

  /** What a proposal promises: the slot of the meeting's length on the date
      at its start, on a 5-minute mark, inside the window, not before the
      working day starts, overlapping no merged buffered occupied interval of
      the events of that date and clear of every event of that date. */
  ghost predicate GoodProposal(p: TimeSlot, intent: Intent, workingHours: (int, int), events: seq<CalendarEvent>, date: string) {
    && p == MakeSlot(date, p.startMin, intent.durationMin)
    && p.startMin % 5 == 0
    && WindowStart(SearchTimeframe(intent)) <= p.startMin && p.endMin <= WindowEnd(SearchTimeframe(intent))
    && workingHours.0 <= p.startMin
    && FreeOf(p.startMin, p.endMin, MergedOccupied(OnDate(events, date)))
    && forall e :: e in events && e.date == date && PositiveLength(e) ==> ClearOf(p, e)
  }

  lemma PromiseMembers(intent: Intent, workingHours: (int, int), events: seq<CalendarEvent>, date: string)
    ensures forall p :: p in DayFree(intent, workingHours, events, date) ==> GoodProposal(p, intent, workingHours, events, date)
  {
    var day := OnDate(events, date);
    var free := DayFree(intent, workingHours, events, date);
    FreeSlotsFacts(workingHours.0, workingHours.1, day, intent.durationMin, date, Some(SearchTimeframe(intent)));
    forall p | p in free
      ensures GoodProposal(p, intent, workingHours, events, date)
    {
      var i :| 0 <= i < |free| && free[i] == p;
      forall e | e in events && e.date == date && PositiveLength(e)
        ensures ClearOf(p, e)
      {
        assert e in day;
      }
    }
  }

  /** When slots are proposed: one to five of them, as many as the day has up
      to five, each a free slot of the day with the promise above, closest to
      the bias first (or earliest first), with no free slot left out that is
      closer than a proposal, and the bias is the one settled above. */
  lemma ProposedFacts(intent: Option<Intent>, workingHours: Option<(int, int)>, events: seq<CalendarEvent>,
                      resolvedDate: Option<string>, converted: Option<int>, mention: Option<ClockMention>)
    requires FindSlots(intent, workingHours, events, resolvedDate, converted, mention).Proposed?
    ensures var r := FindSlots(intent, workingHours, events, resolvedDate, converted, mention);
      var free := DayFree(intent.value, workingHours.value, events, resolvedDate.value);
      && r.biasTimeMin == BiasTime(intent.value.specificTime, converted, mention)
      && 1 <= |r.proposals| <= ProposalLimit
      && |r.proposals| == (if |free| <= ProposalLimit then |free| else ProposalLimit)
      && SortedBy(r.proposals, ProposalKey(r.biasTimeMin))
      && (forall i, x :: 0 <= i < |r.proposals| && x in multiset(free) - multiset(r.proposals) ==>
            ProposalKey(r.biasTimeMin)(r.proposals[i]) <= ProposalKey(r.biasTimeMin)(x))
      && forall p :: p in r.proposals ==> p in free && GoodProposal(p, intent.value, workingHours.value, events, resolvedDate.value)
  {
    var free := DayFree(intent.value, workingHours.value, events, resolvedDate.value);
    var bias := BiasTime(intent.value.specificTime, converted, mention);
    ProposalsFacts(free, bias);
    ProposalsAreFree(free, bias);
    PromiseMembers(intent.value, workingHours.value, events, resolvedDate.value);
  }

  /** A specific time overrides the time of day: the outcome is the same
      whatever `timeOfDay` the intent carries. */
  lemma SpecificTimeIgnoresTimeOfDay(it: Intent, tf: Timeframe, workingHours: Option<(int, int)>, events: seq<CalendarEvent>,
                                     resolvedDate: Option<string>, converted: Option<int>, mention: Option<ClockMention>)
    requires Given(it.specificTime)
    ensures FindSlots(Some(it), workingHours, events, resolvedDate, converted, mention) ==
      FindSlots(Some(it.(timeOfDay := tf)), workingHours, events, resolvedDate, converted, mention)
  {
    assert SearchTimeframe(it) == SearchTimeframe(it.(timeOfDay := tf)) == AnyTime;
  }

  /** Without any bias and with a duration of zero or more the proposals are
      the first five free slots in calendar order. */
  lemma NoBiasFirstFive(intent: Option<Intent>, workingHours: Option<(int, int)>, events: seq<CalendarEvent>,
                        resolvedDate: Option<string>, converted: Option<int>, mention: Option<ClockMention>)
    requires FindSlots(intent, workingHours, events, resolvedDate, converted, mention).Proposed?
    requires FindSlots(intent, workingHours, events, resolvedDate, converted, mention).biasTimeMin.None?
    requires intent.value.durationMin >= 0
    ensures FindSlots(intent, workingHours, events, resolvedDate, converted, mention).proposals ==
      Take(DayFree(intent.value, workingHours.value, events, resolvedDate.value), ProposalLimit)
  {
    var it := intent.value;
    var date := resolvedDate.value;
    FreeSlotsFacts(workingHours.value.0, workingHours.value.1, OnDate(events, date), it.durationMin, date, Some(SearchTimeframe(it)));
    ChronologicalWithoutBias(DayFree(it, workingHours.value, events, date));
  }

  // ---------------------------------------------------------------------
  // resolveIntentNode

  datatype ResolveOutcome =
    | NoIntent                     // phase 'error' with no error record
    | ResolveFailed                // phase 'error', code RESOLVE_FAILED
    | Resolved(date: string)       // phase 'resolved'

  /** `resolveIntentNode` on a constraint of kind `kind` before the resolver
      rewrites it: resolve, then validate against the rewritten kind. */
  function ResolveIntent(kind: ConstraintKind, value: string, ref: Civil): ResolveOutcome
    requires Valid(ref)
  {
    var k := Reclassify(kind, value);
    match ResolveDate(k, value, ref)
    case None => ResolveFailed
    case Some(d) => if ValidateResolvedDate(d, k, value) then Resolved(d) else ResolveFailed
  }

  /** The node: the constraint object is rewritten in place by the resolver
      and the validator reads the rewritten kind. */
  method ResolveIntentNode(intent: Option<Intent>, ref: Civil) returns (r: ResolveOutcome)
    requires Valid(ref)
    modifies if intent.Some? then {intent.value.timeConstraint} else {}
    ensures intent.None? ==> r == NoIntent
    ensures intent.Some? ==>
      intent.value.timeConstraint.kind == Reclassify(old(intent.value.timeConstraint.kind), intent.value.timeConstraint.value) &&
      r == ResolveIntent(old(intent.value.timeConstraint.kind), intent.value.timeConstraint.value, ref)
  {
    if intent.None? {
      return NoIntent;
    }
    var c := intent.value.timeConstraint;
    var resolvedDate := ResolveTargetDate(c, ref);
    if resolvedDate.None? {
      return ResolveFailed;
    }
    var isValid := ValidateResolvedDate(resolvedDate.value, c.kind, c.value);
    if !isValid {
      return ResolveFailed;
    }
    r := Resolved(resolvedDate.value);
  }

  /** A resolved date is always a real calendar date written `YYYY-MM-DD`, and
      exactly the resolver's answer: a mismatch fails rather than substituting
      another date. */
  lemma ResolvedIsCheckedResolverOutput(kind: ConstraintKind, value: string, ref: Civil)
    requires Valid(ref)
    ensures var r := ResolveIntent(kind, value, ref);
      r.Resolved? ==> ParseIsoDate(r.date).Some? && ResolveDate(Reclassify(kind, value), value, ref) == Some(r.date)
    ensures var r := ResolveIntent(kind, value, ref);
      r.Resolved? && Reclassify(kind, value) == DayOfWeek ==> DayNames[Weekday(ParseIsoDate(r.date).value)] == Lower(value)
  {
  }

  /** A weekday request whose text is not exactly one weekday name (say
      "Monday or Tuesday") always fails, whatever date the resolver found. */
  lemma UnknownWeekdayFails(kind: ConstraintKind, value: string, ref: Civil)
    requires Valid(ref) && Reclassify(kind, value) == DayOfWeek && Lower(value) !in DayNames
    ensures ResolveIntent(kind, value, ref) == ResolveFailed
  {
    var k := Reclassify(kind, value);
    match ResolveDate(k, value, ref)
    case None =>
    case Some(d) => ValidateCases(d, k, value);
  }

  /** A weekday name alone, in any case, resolves to the first day from the
      reference date on that falls on that weekday. */
  lemma WeekdayResolved(kind: ConstraintKind, value: string, ref: Civil, t: int)
    requires Valid(ref) && 1 <= ref.year <= 9993
    requires 0 <= t < 7 && Lower(value) == DayNames[t] && Reclassify(kind, value) == DayOfWeek
    ensures ResolveIntent(kind, value, ref) == Resolved(IsoFormat(WeekdayDate(ref, t)))
  {
    WeekdaySound(value, ref, t);
    RawDayOfName(value, t);
    DayOfWeekResolves(value, ref, t);
  }

  /** "tomorrow" resolves to the next day, any other relative text to the
      reference date itself. */
  lemma RelativeResolved(value: string, ref: Civil)
    requires Valid(ref) && 1 <= ref.year <= 9998
    ensures ResolveIntent(Relative, value, ref) ==
      Resolved(IsoFormat(AddDays(ref, if Lower(value) == "tomorrow" then 1 else 0)))
  {
    RelativeSound(value, ref);
    RelativeCases(value, ref);
  }

  /** An absolute date that exists is kept as written; one shaped like a date
      that does not exist (30 February) fails. */
  lemma AbsoluteResolved(value: string, ref: Civil)
    requires Valid(ref) && IsIsoShaped(value)
    ensures ParseIsoDate(value).Some? ==> ResolveIntent(Absolute, value, ref) == Resolved(value)
    ensures ParseIsoDate(value).None? ==> ResolveIntent(Absolute, value, ref) == ResolveFailed
  {
    AbsoluteIsoVerbatim(value, ref);
  }

  /** A weekday request whose text starts with `constructor` or `__proto__`
      reaches an inherited member of the day map, so the date cannot be
      formatted and the node fails. */
  lemma InheritedDayFails(value: string, ref: Civil)
    requires Valid(ref) && (RawDay(value) == "constructor" || RawDay(value) == "__proto__")
    ensures ResolveIntent(DayOfWeek, value, ref) == ResolveFailed
  {
    assert DaysMap(RawDay(value)).Inherited?;
    assert Reclassify(DayOfWeek, value) == DayOfWeek;
  }
}
