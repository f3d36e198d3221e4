/** The free-slot computer (src/scheduling/slotFinder.ts): valid events are
    sorted and padded, merged into occupied intervals, the gaps between them are
    walked with a cursor, clipped to a time-of-day window and cut into aligned
    slots, at most twenty of them. */
module SlotFinder {
  import opened Wrappers
  import opened Sorting
  import opened Intervals
  import opened Types
  import opened Clock

  /** Minutes added after an event that is followed closely by the next one. */
  const Buffer := 5
  /** The largest number of slots returned. */
  const SlotCap := 20

  function Min(a: int, b: int): int {
    if a <= b then a else b
  }

  function EventStart(e: CalendarEvent): int {
    e.startMin
  }

  function SlotStart(s: TimeSlot): int {
    s.startMin
  }

  predicate PositiveLength(e: CalendarEvent) {
    e.endMin > e.startMin
  }

  /** The events that end after they start, in their original order. */
  function KeepValid(events: seq<CalendarEvent>): (r: seq<CalendarEvent>)
    ensures forall e :: e in r <==> e in events && PositiveLength(e)
    ensures multiset(r) <= multiset(events)
  {
    if events == [] then []
    else
      var p, e := events[..|events| - 1], events[|events| - 1];
      assert events == p + [e];
      KeepValid(p) + (if PositiveLength(e) then [e] else [])
  }

  /** Step 1: filter, then the stable sort by start. */
  function ValidEvents(events: seq<CalendarEvent>): seq<CalendarEvent> {
    SortBy(KeepValid(events), EventStart)
  }

  /** The occupied end of event `i`: padded by the buffer exactly when a next
      event exists and starts less than two buffers after this one ends. */
  function PaddedEnd(v: seq<CalendarEvent>, i: nat): int
    requires i < |v|
  {
    if i + 1 < |v| && v[i + 1].startMin - v[i].endMin < Buffer * 2 then v[i].endMin + Buffer
    else v[i].endMin
  }

  /** Step 2: one occupied interval per valid event. */
  function Occupied(v: seq<CalendarEvent>): (r: seq<Interval>)
    ensures |r| == |v|
  {
    seq(|v|, i requires 0 <= i < |v| => Interval(v[i].startMin, PaddedEnd(v, i)))
  }

  /** Step 3: the gaps the cursor finds from merged interval `k` on. An interior
      gap ends where the next occupied interval starts; only the tail gap is
      bounded by the end of the working day. */
  function GapsFrom(m: seq<Interval>, k: nat, cursor: int, dayEnd: int, dur: int): seq<Interval>
    requires k <= |m|
    decreases |m| - k
  {
    if k == |m| then
      if cursor < dayEnd && dayEnd - cursor >= dur then [Interval(cursor, dayEnd)] else []
    else
      (if cursor < m[k].start && m[k].start - cursor >= dur then [Interval(cursor, m[k].start)] else [])
        + GapsFrom(m, k + 1, Max(cursor, m[k].end), dayEnd, dur)
  }

  /** The window of a time of day, in minutes. */
  function WindowStart(tf: Timeframe): int {
    match tf
    case Morning => 0
    case Afternoon => 720
    case Evening => 1020
    case AnyTime => 0
  }

  function WindowEnd(tf: Timeframe): int {
    match tf
    case Morning => 720
    case Afternoon => 1020
    case Evening => 1440
    case AnyTime => 1440
  }

  /** A missing time of day means the whole day. */
  function TimeframeOrAny(tf: Option<Timeframe>): Timeframe {
    tf.GetOr(AnyTime)
  }

  /** The first slot start of a clipped gap: kept when it is a multiple of
      five, otherwise `Math.ceil(x / 5) * 5` (Dafny's `/` rounds down for a
      positive divisor, so the ceiling of a non-multiple is one more). */
  function RoundUp5(x: int): (r: int)
    ensures r % 5 == 0 && x <= r < x + 5
  {
    if x % 5 == 0 then x else (x / 5 + 1) * 5
  }

  /** Consecutive starts within one gap: 15 minutes for meetings up to half an
      hour, 30 beyond. */
  function Increment(dur: int): int {
    if dur <= 30 then 15 else 30
  }

  /** The slot of `dur` minutes from `start`, shown as 12-hour clock times. */
  function MakeSlot(date: string, start: int, dur: int): TimeSlot {
    TimeSlot(date, start, start + dur, FormatMinutes(start), FormatMinutes(start + dur))
  }

  /** Step 4, inside one clipped gap: the slot starts from `start` on, `inc`
      apart, while the slot still ends by `end`. */
  function GapStarts(start: int, end: int, dur: int, inc: int): seq<int>
    requires inc > 0
    decreases end - dur - start
  {
    if start + dur <= end then [start] + GapStarts(start + inc, end, dur, inc)
    else []
  }

  /** The slot starts of one gap after clipping it to the window; the first
      start is rounded up to a multiple of five minutes. */
  function ClipStarts(g: Interval, tf: Timeframe, dur: int): seq<int> {
    var start := Max(g.start, WindowStart(tf));
    var end := Min(g.end, WindowEnd(tf));
    if end - start < dur then []
    else GapStarts(RoundUp5(start), end, dur, Increment(dur))
  }

  /** The slot starts of gaps `k` onwards, with no cap. */
  function CandidateStarts(gaps: seq<Interval>, k: nat, tf: Timeframe, dur: int): seq<int>
    requires k <= |gaps|
    decreases |gaps| - k
  {
    if k == |gaps| then []
    else ClipStarts(gaps[k], tf, dur) + CandidateStarts(gaps, k + 1, tf, dur)
  }

  /** One slot per start, with its display text. */
  function SlotsAt(date: string, starts: seq<int>, dur: int): (r: seq<TimeSlot>)
    ensures |r| == |starts|
  {
    seq(|starts|, i requires 0 <= i < |starts| => MakeSlot(date, starts[i], dur))
  }

  /** The merged occupied intervals of a day's events. */
  function MergedOccupied(events: seq<CalendarEvent>): seq<Interval> {
    Merge(Occupied(ValidEvents(events)))
  }

  function FreeGaps(dayStart: int, dayEnd: int, events: seq<CalendarEvent>, dur: int): seq<Interval> {
    GapsFrom(MergedOccupied(events), 0, dayStart, dayEnd, dur)
  }

  /** The first twenty candidate starts. */
  function FreeStarts(dayStart: int, dayEnd: int, events: seq<CalendarEvent>, dur: int,
                      timeframe: Option<Timeframe>): seq<int>
  {
    Take(CandidateStarts(FreeGaps(dayStart, dayEnd, events, dur), 0, TimeframeOrAny(timeframe), dur), SlotCap)
  }

  /** `computeFreeSlots` as a function of its inputs. */
  function FreeSlots(dayStart: int, dayEnd: int, events: seq<CalendarEvent>, dur: int,
                     date: string, timeframe: Option<Timeframe>): seq<TimeSlot>
  {
    SlotsAt(date, FreeStarts(dayStart, dayEnd, events, dur, timeframe), dur)
  }

  // ---------------------------------------------------------------------
  // Properties of the pieces

  /** The span from `a` to `b` avoids every interval of `m`. */
  ghost predicate FreeOf(a: int, b: int, m: seq<Interval>) {
    forall j :: 0 <= j < |m| ==> b <= m[j].start || m[j].end <= a
  }

  /** Strictly increasing. */
  predicate Increasing(s: seq<int>) {
    forall i, j :: 0 <= i < j < |s| ==> s[i] < s[j]
  }

  /** Starts strictly increase along the list of slots. */
  predicate Ascending(s: seq<TimeSlot>) {
    forall i, j :: 0 <= i < j < |s| ==> s[i].startMin < s[j].startMin
  }

  /** Every gap ends before any later gap starts. */
  predicate Chained(gs: seq<Interval>) {
    forall i, j :: 0 <= i < j < |gs| ==> gs[i].end < gs[j].start
  }

  /** Every start lies in `[lo, hi - dur]`. */
  predicate Within(g: seq<int>, lo: int, hi: int, dur: int) {
    forall i :: 0 <= i < |g| ==> lo <= g[i] && g[i] + dur <= hi
  }

  /** Every start is on a 5-minute mark. */
  predicate OnGrid(g: seq<int>) {
    forall i :: 0 <= i < |g| ==> g[i] % 5 == 0
  }

  lemma {:induction false} GapStartsFacts(start: int, end: int, dur: int, inc: int)
    requires inc > 0
    ensures Within(GapStarts(start, end, dur, inc), start, end, dur)
    ensures start % 5 == 0 && inc % 5 == 0 ==> OnGrid(GapStarts(start, end, dur, inc))
    ensures Increasing(GapStarts(start, end, dur, inc))
    decreases end - dur - start
  {
    if start + dur <= end {
      GapStartsFacts(start + inc, end, dur, inc);
      ConsStart(start, GapStarts(start + inc, end, dur, inc), GapStarts(start, end, dur, inc), end, dur, inc);
    }
  }

  /** A start in front of later starts of the same gap. */
  lemma ConsStart(x: int, t: seq<int>, g: seq<int>, end: int, dur: int, inc: int)
    requires inc > 0 && g == [x] + t && x + dur <= end
    requires Within(t, x + inc, end, dur) && Increasing(t)
    requires x % 5 == 0 && inc % 5 == 0 ==> OnGrid(t)
    ensures Within(g, x, end, dur) && Increasing(g)
    ensures x % 5 == 0 && inc % 5 == 0 ==> OnGrid(g)
  {
    assert forall i :: 0 < i < |g| ==> g[i] == t[i - 1];
  }

  lemma {:induction false} GapStartsSteps(start: int, end: int, dur: int, inc: int)
    requires inc > 0
    ensures var g := GapStarts(start, end, dur, inc);
      && (g == [] <==> start + dur > end)
      && (g != [] ==> g[0] == start && g[|g| - 1] + inc + dur > end)
      && (forall i :: 0 < i < |g| ==> g[i] == g[i - 1] + inc)
    decreases end - dur - start
  {
    if start + dur <= end {
      GapStartsSteps(start + inc, end, dur, inc);
      var t := GapStarts(start + inc, end, dur, inc);
      var g := [start] + t;
      assert forall i :: 0 < i < |g| ==> g[i] == t[i - 1];
    }
  }

  /** The starts of one clipped gap are aligned, increasing, and their slots
      lie inside both the gap and the window. */
  lemma ClipStartsFacts(g: Interval, tf: Timeframe, dur: int)
    ensures var c := ClipStarts(g, tf, dur);
      && Increasing(c)
      && forall i :: 0 <= i < |c| ==>
           && c[i] % 5 == 0
           && g.start <= c[i] && c[i] + dur <= g.end
           && WindowStart(tf) <= c[i] && c[i] + dur <= WindowEnd(tf)
  {
    var start := Max(g.start, WindowStart(tf));
    var end := Min(g.end, WindowEnd(tf));
    if end - start >= dur {
      GapStartsFacts(RoundUp5(start), end, dur, Increment(dur));
    }
  }

  lemma FreeOfInside(a: int, b: int, ga: int, gb: int, m: seq<Interval>)
    requires FreeOf(ga, gb, m) && ga <= a && b <= gb
    ensures FreeOf(a, b, m)
  {
  }

  /** A slot start that is aligned, inside the window, no earlier than `lo`,
      and whose slot avoids `m`. */
  ghost predicate GoodStart(x: int, tf: Timeframe, dur: int, m: seq<Interval>, lo: int) {
    && x % 5 == 0
    && WindowStart(tf) <= x && x + dur <= WindowEnd(tf)
    && lo <= x
    && FreeOf(x, x + dur, m)
  }

  /** Every candidate of gaps `k` onwards is a good start when the gaps start
      no earlier than `lo` and avoid `m`. */
  lemma {:induction false} CandidatesFacts(gaps: seq<Interval>, k: nat, tf: Timeframe, dur: int,
                                          m: seq<Interval>, lo: int)
    requires k <= |gaps|
    requires forall j :: k <= j < |gaps| ==> lo <= gaps[j].start && FreeOf(gaps[j].start, gaps[j].end, m)
    ensures forall i :: 0 <= i < |CandidateStarts(gaps, k, tf, dur)| ==>
      GoodStart(CandidateStarts(gaps, k, tf, dur)[i], tf, dur, m, lo)
    decreases |gaps| - k
  {
    if k < |gaps| {
      CandidatesFacts(gaps, k + 1, tf, dur, m, lo);
      ClipStartsFacts(gaps[k], tf, dur);
      var a := ClipStarts(gaps[k], tf, dur);
      var b := CandidateStarts(gaps, k + 1, tf, dur);
      var c := a + b;
      assert c == CandidateStarts(gaps, k, tf, dur);
      forall i | 0 <= i < |c| ensures GoodStart(c[i], tf, dur, m, lo) {
        if i < |a| {
          assert c[i] == a[i];
          FreeOfInside(c[i], c[i] + dur, gaps[k].start, gaps[k].end, m);
        } else {
          assert c[i] == b[i - |a|];
        }
      }
    }
  }

  /** No candidate of gaps `k` onwards starts before a bound on their starts. */
  lemma {:induction false} CandidatesLowerBound(gaps: seq<Interval>, k: nat, tf: Timeframe, dur: int, b: int)
    requires k <= |gaps|
    requires forall j :: k <= j < |gaps| ==> b <= gaps[j].start
    ensures forall i :: 0 <= i < |CandidateStarts(gaps, k, tf, dur)| ==> b <= CandidateStarts(gaps, k, tf, dur)[i]
    decreases |gaps| - k
  {
    if k < |gaps| {
      CandidatesLowerBound(gaps, k + 1, tf, dur, b);
      ClipStartsFacts(gaps[k], tf, dur);
      var a := ClipStarts(gaps[k], tf, dur);
      var c := CandidateStarts(gaps, k + 1, tf, dur);
      assert forall i :: |a| <= i < |a + c| ==> (a + c)[i] == c[i - |a|];
    }
  }

  /** For a duration of zero or more the candidates of chained gaps strictly
      increase: a start of one gap is at most its end, which is before the
      next gap starts. */
  lemma {:induction false} CandidatesIncreasing(gaps: seq<Interval>, k: nat, tf: Timeframe, dur: int)
    requires k <= |gaps| && dur >= 0 && Chained(gaps)
    ensures Increasing(CandidateStarts(gaps, k, tf, dur))
    decreases |gaps| - k
  {
    if k < |gaps| {
      CandidatesIncreasing(gaps, k + 1, tf, dur);
      CandidatesLowerBound(gaps, k + 1, tf, dur, gaps[k].end + 1);
      ClipStartsFacts(gaps[k], tf, dur);
      var a := ClipStarts(gaps[k], tf, dur);
      var b := CandidateStarts(gaps, k + 1, tf, dur);
      var c := a + b;
      forall i, j | 0 <= i < j < |c| ensures c[i] < c[j] {
        if j < |a| {
          assert c[i] == a[i] && c[j] == a[j];
        } else if i >= |a| {
          assert c[i] == b[i - |a|] && c[j] == b[j - |a|];
        } else {
          assert c[i] == a[i] && c[j] == b[j - |a|];
        }
      }
    }
  }

  /** A gap that ends where interval `k` starts avoids every interval. */
  lemma GapBeforeFree(m: seq<Interval>, k: nat, cursor: int)
    requires k < |m| && SortedByStart(m)
    requires forall j :: 0 <= j < k ==> m[j].end <= cursor
    ensures FreeOf(cursor, m[k].start, m)
  {
    forall j | 0 <= j < |m| ensures m[k].start <= m[j].start || m[j].end <= cursor {
      if j >= k {
        assert StartOf(m[k]) <= StartOf(m[j]);
      }
    }
  }

  /** A gap of positive length, at least `dur` long, starting no earlier than
      `lo` and avoiding `m`. */
  ghost predicate GoodGap(g: Interval, lo: int, dur: int, m: seq<Interval>) {
    lo <= g.start < g.end && g.end - g.start >= dur && FreeOf(g.start, g.end, m)
  }

  /** Chained good gaps from `lo` on. */
  ghost predicate GoodGaps(gs: seq<Interval>, lo: int, dur: int, m: seq<Interval>) {
    Chained(gs) && forall i :: 0 <= i < |gs| ==> GoodGap(gs[i], lo, dur, m)
  }

  /** Every interval before `k + 1` ends by the advanced cursor. */
  lemma CursorAdvance(m: seq<Interval>, k: nat, cursor: int)
    requires k < |m| && forall j :: 0 <= j < k ==> m[j].end <= cursor
    ensures forall j :: 0 <= j < k + 1 ==> m[j].end <= Max(cursor, m[k].end)
  {
  }

  lemma ConcatEmptyGaps(gs: seq<Interval>, g: seq<Interval>)
    requires g == [] + gs
    ensures g == gs
  {
  }

  /** Good gaps from `hi` on are good gaps from any `lo <= hi` on. */
  lemma GoodGapsLower(gs: seq<Interval>, hi: int, lo: int, dur: int, m: seq<Interval>)
    requires lo <= hi && GoodGaps(gs, hi, dur, m)
    ensures GoodGaps(gs, lo, dur, m)
  {
    forall i | 0 <= i < |gs| ensures GoodGap(gs[i], lo, dur, m) {
      assert GoodGap(gs[i], hi, dur, m);
    }
  }

  /** A good gap that ends before `next`, put in front of chained good gaps
      from `next` on. */
  lemma ConsGap(h: Interval, gs: seq<Interval>, g: seq<Interval>, cursor: int, next: int, dur: int,
                m: seq<Interval>)
    requires GoodGap(h, cursor, dur, m) && h.end < next && cursor <= next
    requires GoodGaps(gs, next, dur, m)
    requires g == [h] + gs
    ensures GoodGaps(g, cursor, dur, m)
  {
    forall i | 0 <= i < |g| ensures GoodGap(g[i], cursor, dur, m) {
      if i > 0 {
        assert g[i] == gs[i - 1];
      }
    }
    forall i, j | 0 <= i < j < |g| ensures g[i].end < g[j].start {
      assert g[j] == gs[j - 1];
      if i > 0 {
        assert g[i] == gs[i - 1];
      } else {
        assert GoodGap(gs[j - 1], next, dur, m);
      }
    }
  }

  /** The gaps found from interval `k` on are good gaps from the cursor on, and
      they are chained. */
  lemma {:induction false} GapsFacts(m: seq<Interval>, k: nat, cursor: int, dayEnd: int, dur: int)
    requires k <= |m| && SortedByStart(m) && Proper(m)
    requires forall j :: 0 <= j < k ==> m[j].end <= cursor
    ensures GoodGaps(GapsFrom(m, k, cursor, dayEnd, dur), cursor, dur, m)
    decreases |m| - k
  {
    if k < |m| {
      CursorAdvance(m, k, cursor);
      GapsFacts(m, k + 1, Max(cursor, m[k].end), dayEnd, dur);
      GapsStep(m, k, cursor, dayEnd, dur);
    } else {
      LastGap(m, cursor, dayEnd, dur);
    }
  }

  /** The gap before interval `k`, if any, in front of the later gaps. */
  lemma GapsStep(m: seq<Interval>, k: nat, cursor: int, dayEnd: int, dur: int)
    requires k < |m| && SortedByStart(m) && m[k].start < m[k].end
    requires forall j :: 0 <= j < k ==> m[j].end <= cursor
    requires GoodGaps(GapsFrom(m, k + 1, Max(cursor, m[k].end), dayEnd, dur), Max(cursor, m[k].end), dur, m)
    ensures GoodGaps(GapsFrom(m, k, cursor, dayEnd, dur), cursor, dur, m)
  {
    var next := Max(cursor, m[k].end);
    var rest := GapsFrom(m, k + 1, next, dayEnd, dur);
    var g := GapsFrom(m, k, cursor, dayEnd, dur);
    if cursor < m[k].start && m[k].start - cursor >= dur {
      GapBeforeFree(m, k, cursor);
      ConsGap(Interval(cursor, m[k].start), rest, g, cursor, next, dur, m);
    } else {
      ConcatEmptyGaps(rest, g);
      GoodGapsLower(rest, next, cursor, dur, m);
    }
  }

  /** The gap after the last interval, if any. */
  lemma LastGap(m: seq<Interval>, cursor: int, dayEnd: int, dur: int)
    requires forall j :: 0 <= j < |m| ==> m[j].end <= cursor
    ensures GoodGaps(GapsFrom(m, |m|, cursor, dayEnd, dur), cursor, dur, m)
  {
  }

  /** The occupied interval of event `i` starts with it and ends at its end,
      plus the buffer exactly when the next event starts less than two buffers
      later; the last event is never padded. */
  lemma OccupiedBuffering(v: seq<CalendarEvent>)
    ensures forall i :: 0 <= i < |v| ==> OccupiedAt(v, i)
    ensures v != [] ==> Occupied(v)[|v| - 1].end == v[|v| - 1].endMin
  {
    forall i | 0 <= i < |v| ensures OccupiedAt(v, i) {
      OccupiedIndex(v, i);
    }
    if v != [] {
      OccupiedIndex(v, |v| - 1);
    }
  }

  /** The interval of event `i` starts with it and ends with it, or five
      minutes later exactly when the next event starts less than ten minutes
      after it ends. */
  ghost predicate OccupiedAt(v: seq<CalendarEvent>, i: int)
    requires 0 <= i < |v|
  {
    && Occupied(v)[i].start == v[i].startMin
    && (Occupied(v)[i].end == v[i].endMin + Buffer <==>
          i + 1 < |v| && v[i + 1].startMin - v[i].endMin < Buffer * 2)
    && (Occupied(v)[i].end == v[i].endMin || Occupied(v)[i].end == v[i].endMin + Buffer)
  }

  lemma OccupiedIndex(v: seq<CalendarEvent>, i: int)
    requires 0 <= i < |v|
    ensures OccupiedAt(v, i) && Occupied(v)[i] == Interval(v[i].startMin, PaddedEnd(v, i))
  {
  }

  /** The valid events come out sorted by start, are exactly the input events
      of positive length, and give well-formed occupied intervals. */
  lemma ValidEventsFacts(events: seq<CalendarEvent>)
    ensures SortedBy(ValidEvents(events), EventStart)
    ensures forall e :: e in ValidEvents(events) <==> e in events && PositiveLength(e)
    ensures WellFormed(Occupied(ValidEvents(events)))
    ensures Proper(Occupied(ValidEvents(events)))
  {
    var k := KeepValid(events);
    SortByFacts(k, EventStart);
    var v := ValidEvents(events);
    forall e ensures e in v <==> e in k {
      assert e in v <==> e in multiset(v);
      assert e in k <==> e in multiset(k);
    }
    var occ := Occupied(v);
    forall i | 0 <= i < |occ| ensures occ[i].start < occ[i].end {
      assert v[i] in v;
    }
  }

  /** Every valid event lies inside one merged occupied interval. */
  lemma EventCovered(events: seq<CalendarEvent>, e: CalendarEvent)
    requires e in events && PositiveLength(e)
    ensures exists i :: 0 <= i < |MergedOccupied(events)| && Inside(Interval(e.startMin, e.endMin), MergedOccupied(events)[i])
  {
    var v := ValidEvents(events);
    ValidEventsFacts(events);
    var occ := Occupied(v);
    var j :| 0 <= j < |v| && v[j] == e;
    MergeCovers(occ, j);
    var i :| 0 <= i < |Merge(occ)| && Inside(occ[j], Merge(occ)[i]);
    assert MergedOccupied(events) == Merge(occ);
    assert Inside(Interval(e.startMin, e.endMin), MergedOccupied(events)[i]);
  }

  /** A slot and an event do not overlap. */
  predicate ClearOf(sl: TimeSlot, e: CalendarEvent) {
    sl.endMin <= e.startMin || e.endMin <= sl.startMin
  }

  lemma ClearOfEvents(events: seq<CalendarEvent>, start: int, dur: int)
    requires FreeOf(start, start + dur, MergedOccupied(events))
    ensures forall e :: e in events && PositiveLength(e) ==> start + dur <= e.startMin || e.endMin <= start
  {
    forall e | e in events && PositiveLength(e) ensures start + dur <= e.startMin || e.endMin <= start {
      EventCovered(events, e);
    }
  }

  /** The gaps of a day are good gaps from the start of the working day on,
      against the merged occupied intervals, and they are chained. */
  lemma FreeGapsFacts(dayStart: int, dayEnd: int, events: seq<CalendarEvent>, dur: int)
    ensures Chained(FreeGaps(dayStart, dayEnd, events, dur))
    ensures forall i :: 0 <= i < |FreeGaps(dayStart, dayEnd, events, dur)| ==>
      GoodGap(FreeGaps(dayStart, dayEnd, events, dur)[i], dayStart, dur, MergedOccupied(events))
  {
    var occ := Occupied(ValidEvents(events));
    ValidEventsFacts(events);
    MergeShape(occ);
    MergeProper(occ);
    GapsFacts(MergedOccupied(events), 0, dayStart, dayEnd, dur);
  }

  /** Starts whose slots avoid the merged intervals avoid every valid event. */
  lemma StartsClear(events: seq<CalendarEvent>, r: seq<int>, dur: int)
    requires forall i :: 0 <= i < |r| ==> FreeOf(r[i], r[i] + dur, MergedOccupied(events))
    ensures forall i, e :: 0 <= i < |r| && e in events && PositiveLength(e) ==>
      r[i] + dur <= e.startMin || e.endMin <= r[i]
  {
    forall i | 0 <= i < |r|
      ensures forall e :: e in events && PositiveLength(e) ==> r[i] + dur <= e.startMin || e.endMin <= r[i]
    {
      ClearOfEvents(events, r[i], dur);
    }
  }

  /** What the slot starts of a day satisfy: at most twenty, each aligned to
      five minutes, inside the window, not before the start of the working day,
      with a slot that overlaps no merged buffered occupied interval and no
      event of positive length, and increasing when the duration is zero or more. */
  ghost predicate StartsPromise(r: seq<int>, dayStart: int, events: seq<CalendarEvent>, dur: int, tf: Timeframe) {
    && |r| <= SlotCap
    && (forall i :: 0 <= i < |r| ==>
          && r[i] % 5 == 0
          && WindowStart(tf) <= r[i] && r[i] + dur <= WindowEnd(tf)
          && dayStart <= r[i])
    && (forall i :: 0 <= i < |r| ==> FreeOf(r[i], r[i] + dur, MergedOccupied(events)))
    && (forall i, e :: 0 <= i < |r| && e in events && PositiveLength(e) ==>
          r[i] + dur <= e.startMin || e.endMin <= r[i])
    && (dur >= 0 ==> Increasing(r))
  }

  /** The candidate starts before the cap keep the promise, and there are
      twenty of them whenever there are enough candidates. */
  lemma FreeStartsFacts(dayStart: int, dayEnd: int, events: seq<CalendarEvent>, dur: int,
                        timeframe: Option<Timeframe>)
    ensures StartsPromise(FreeStarts(dayStart, dayEnd, events, dur, timeframe), dayStart, events, dur,
                          TimeframeOrAny(timeframe))
    ensures |CandidateStarts(FreeGaps(dayStart, dayEnd, events, dur), 0, TimeframeOrAny(timeframe), dur)| >= SlotCap
      ==> |FreeStarts(dayStart, dayEnd, events, dur, timeframe)| == SlotCap
  {
    var tf := TimeframeOrAny(timeframe);
    var gaps := FreeGaps(dayStart, dayEnd, events, dur);
    var m := MergedOccupied(events);
    FreeGapsFacts(dayStart, dayEnd, events, dur);
    assert forall j :: 0 <= j < |gaps| ==> GoodGap(gaps[j], dayStart, dur, m);
    CandidatesFacts(gaps, 0, tf, dur, m, dayStart);
    var c := CandidateStarts(gaps, 0, tf, dur);
    var r := FreeStarts(dayStart, dayEnd, events, dur, timeframe);
    assert forall i :: 0 <= i < |r| ==> r[i] == c[i] && GoodStart(c[i], tf, dur, m, dayStart);
    if dur >= 0 {
      CandidatesIncreasing(gaps, 0, tf, dur);
      assert forall i, j :: 0 <= i < j < |r| ==> r[i] == c[i] && r[j] == c[j];
    }
    GoodStartsPromise(r, dayStart, events, dur, tf);
  }

  /** Good starts, at most twenty and increasing for a duration of zero or more, keep
      the promise about starts. */
  lemma GoodStartsPromise(r: seq<int>, dayStart: int, events: seq<CalendarEvent>, dur: int, tf: Timeframe)
    requires |r| <= SlotCap
    requires forall i :: 0 <= i < |r| ==> GoodStart(r[i], tf, dur, MergedOccupied(events), dayStart)
    requires dur >= 0 ==> Increasing(r)
    ensures StartsPromise(r, dayStart, events, dur, tf)
  {
    StartsClear(events, r, dur);
  }

  /** Each slot is the slot of `dur` minutes on `date` at its own start, so it
      carries the date, the length and the display text of its clock times. */
  ghost predicate SlotsFormed(r: seq<TimeSlot>, date: string, dur: int) {
    forall i :: 0 <= i < |r| ==> r[i] == MakeSlot(date, r[i].startMin, dur)
  }

  /** Each slot starts on a 5-minute mark, lies inside the time-of-day window
      and starts no earlier than the working day. */
  ghost predicate SlotsPlaced(r: seq<TimeSlot>, dayStart: int, tf: Timeframe) {
    forall i :: 0 <= i < |r| ==>
      && r[i].startMin % 5 == 0
      && WindowStart(tf) <= r[i].startMin && r[i].endMin <= WindowEnd(tf)
      && dayStart <= r[i].startMin
  }

  /** No slot overlaps a merged occupied interval of the events. */
  ghost predicate SlotsFree(r: seq<TimeSlot>, events: seq<CalendarEvent>) {
    forall i :: 0 <= i < |r| ==> FreeOf(r[i].startMin, r[i].endMin, MergedOccupied(events))
  }

  /** No slot overlaps an event of positive length. */
  ghost predicate SlotsClear(r: seq<TimeSlot>, events: seq<CalendarEvent>) {
    forall i, e :: 0 <= i < |r| && e in events && PositiveLength(e) ==> ClearOf(r[i], e)
  }

  /** What `computeFreeSlots` promises: at most twenty slots, each the slot of
      `dur` minutes on the target date at its start, with a 5-minute-aligned
      start, inside the time-of-day window, not before the start of the working
      day, overlapping no merged buffered occupied interval and no event of
      positive length, with strictly increasing starts when the duration is
      zero or more. */
  ghost predicate SlotsPromise(r: seq<TimeSlot>, dayStart: int, events: seq<CalendarEvent>, dur: int,
                               date: string, tf: Timeframe) {
    && |r| <= SlotCap
    && SlotsFormed(r, date, dur)
    && SlotsPlaced(r, dayStart, tf)
    && SlotsFree(r, events)
    && SlotsClear(r, events)
    && (dur >= 0 ==> Ascending(r))
  }

  /** The times of each slot built from a start. */
  lemma SlotsAtTimes(date: string, starts: seq<int>, dur: int)
    ensures forall i :: 0 <= i < |starts| ==>
      SlotsAt(date, starts, dur)[i].startMin == starts[i] && SlotsAt(date, starts, dur)[i].endMin == starts[i] + dur
  {
    forall i | 0 <= i < |starts|
      ensures SlotsAt(date, starts, dur)[i].startMin == starts[i]
      ensures SlotsAt(date, starts, dur)[i].endMin == starts[i] + dur
    {
      SlotAtIndex(date, starts, dur, i);
    }
  }

  lemma SlotAtIndex(date: string, starts: seq<int>, dur: int, i: int)
    requires 0 <= i < |starts|
    ensures SlotsAt(date, starts, dur)[i].startMin == starts[i]
    ensures SlotsAt(date, starts, dur)[i].endMin == starts[i] + dur
    ensures SlotsAt(date, starts, dur)[i] == MakeSlot(date, starts[i], dur)
  {
  }

  lemma SlotsAtFormed(date: string, starts: seq<int>, dur: int)
    ensures SlotsFormed(SlotsAt(date, starts, dur), date, dur)
  {
    var r := SlotsAt(date, starts, dur);
    forall i | 0 <= i < |r| ensures r[i] == MakeSlot(date, r[i].startMin, dur) {
      SlotAtIndex(date, starts, dur, i);
    }
  }

  lemma SlotsAtPlaced(starts: seq<int>, dayStart: int, events: seq<CalendarEvent>, dur: int,
                      date: string, tf: Timeframe)
    requires StartsPromise(starts, dayStart, events, dur, tf)
    ensures SlotsPlaced(SlotsAt(date, starts, dur), dayStart, tf)
  {
    SlotsAtTimes(date, starts, dur);
  }

  lemma SlotsAtClear(starts: seq<int>, dayStart: int, events: seq<CalendarEvent>, dur: int,
                     date: string, tf: Timeframe)
    requires StartsPromise(starts, dayStart, events, dur, tf)
    ensures SlotsClear(SlotsAt(date, starts, dur), events)
  {
    var r := SlotsAt(date, starts, dur);
    SlotsAtTimes(date, starts, dur);
    forall i, e | 0 <= i < |r| && e in events && PositiveLength(e) ensures ClearOf(r[i], e) {
      assert starts[i] + dur <= e.startMin || e.endMin <= starts[i];
    }
  }

  lemma SlotsAtFree(starts: seq<int>, dayStart: int, events: seq<CalendarEvent>, dur: int,
                    date: string, tf: Timeframe)
    requires StartsPromise(starts, dayStart, events, dur, tf)
    ensures SlotsFree(SlotsAt(date, starts, dur), events)
  {
    var r := SlotsAt(date, starts, dur);
    forall i | 0 <= i < |r| ensures FreeOf(r[i].startMin, r[i].endMin, MergedOccupied(events)) {
      SlotAtIndex(date, starts, dur, i);
      assert FreeOf(starts[i], starts[i] + dur, MergedOccupied(events));
    }
  }

  lemma SlotsAtAscending(starts: seq<int>, dur: int, date: string)
    requires Increasing(starts)
    ensures Ascending(SlotsAt(date, starts, dur))
  {
    var r := SlotsAt(date, starts, dur);
    SlotsAtTimes(date, starts, dur);
    forall i, j | 0 <= i < j < |r| ensures r[i].startMin < r[j].startMin {
      assert starts[i] < starts[j];
    }
  }

  /** Slots built from starts that keep the promise about starts keep the
      promise about slots. */
  lemma SlotsAtPromise(starts: seq<int>, dayStart: int, events: seq<CalendarEvent>, dur: int,
                       date: string, tf: Timeframe)
    requires StartsPromise(starts, dayStart, events, dur, tf)
    ensures SlotsPromise(SlotsAt(date, starts, dur), dayStart, events, dur, date, tf)
  {
    SlotsAtFormed(date, starts, dur);
    SlotsAtPlaced(starts, dayStart, events, dur, date, tf);
    SlotsAtFree(starts, dayStart, events, dur, date, tf);
    SlotsAtClear(starts, dayStart, events, dur, date, tf);
    if dur >= 0 {
      SlotsAtAscending(starts, dur, date);
    }
  }

  lemma FreeSlotsFacts(dayStart: int, dayEnd: int, events: seq<CalendarEvent>, dur: int,
                       date: string, timeframe: Option<Timeframe>)
    ensures SlotsPromise(FreeSlots(dayStart, dayEnd, events, dur, date, timeframe), dayStart, events, dur,
                         date, TimeframeOrAny(timeframe))
  {
    FreeStartsFacts(dayStart, dayEnd, events, dur, timeframe);
    SlotsAtPromise(FreeStarts(dayStart, dayEnd, events, dur, timeframe), dayStart, events, dur,
                   date, TimeframeOrAny(timeframe));
  }

  /** The display text of a slot that ends before midnight reads back as its
      start and end minutes (see `MidnightEndShownAsNoon` for one that ends at
      midnight). */
  lemma MakeSlotDisplay(date: string, start: int, dur: int)
    requires 0 <= start && 0 <= dur && start + dur < 1440
    ensures ReadClock(MakeSlot(date, start, dur).displayStart) == Some(start)
    ensures ReadClock(MakeSlot(date, start, dur).displayEnd) == Some(start + dur)
    ensures MakeSlot(date, start, dur).endMin - MakeSlot(date, start, dur).startMin == dur
  {
    FormatMinutesRoundTrip(start);
    FormatMinutesRoundTrip(start + dur);
  }

  /** A slot that ends at midnight shows its end as noon: `formatMinutes(1440)`
      takes hour 24, which is PM and `24 % 12 || 12 == 12`, so the end text
      reads back as 720, not 1440. */
  lemma MidnightEndShownAsNoon(date: string)
    ensures MakeSlot(date, 1410, 30).endMin == 1440
    ensures MakeSlot(date, 1410, 30).displayEnd == "12:00 PM"
    ensures ReadClock(MakeSlot(date, 1410, 30).displayEnd) == Some(720)
  {
    MidnightShownAsNoon();
  }

  /** An event that does not end after it starts changes nothing. */
  lemma EmptyEventIgnored(events: seq<CalendarEvent>, e: CalendarEvent)
    requires !PositiveLength(e)
    ensures ValidEvents(events + [e]) == ValidEvents(events)
  {
    var s := events + [e];
    assert s[..|s| - 1] == events;
    assert KeepValid(s) == KeepValid(events);
  }

  /** An event followed five minutes later by the next one is padded by the
      buffer; one followed ten minutes later is not. */
  lemma BufferExamples()
    ensures PaddedEnd([CalendarEvent("d", 540, 600, "a"), CalendarEvent("d", 605, 660, "b")], 0) == 605
    ensures PaddedEnd([CalendarEvent("d", 540, 600, "a"), CalendarEvent("d", 610, 660, "b")], 0) == 600
  {
  }

  /** An interior gap runs up to the next occupied interval even when that
      lies past the end of the working day. */
  lemma InteriorGapPastDayEnd()
    ensures GapsFrom([Interval(900, 960)], 0, 540, 600, 30) == [Interval(540, 900)]
  {
  }

  // ---------------------------------------------------------------------
  // The imperative steps of computeFreeSlots

  /** Step 2: pads each valid event by the buffer when the next one is close. */
  method BuildOccupied(validEvents: seq<CalendarEvent>) returns (occupied: seq<Interval>)
    ensures occupied == Occupied(validEvents)
  {
    occupied := [];
    for i := 0 to |validEvents|
      invariant |occupied| == i
      invariant forall j :: 0 <= j < i ==> occupied[j] == Interval(validEvents[j].startMin, PaddedEnd(validEvents, j))
    {
      var event := validEvents[i];
      var end := event.endMin;
      if i + 1 < |validEvents| && validEvents[i + 1].startMin - event.endMin < Buffer * 2 {
        end := end + Buffer;
      }
      occupied := occupied + [Interval(event.startMin, end)];
    }
  }

  /** Step 3: walks the merged intervals with a cursor that starts at the
      beginning of the working day and never moves back. */
  method WalkGaps(merged: seq<Interval>, dayStart: int, dayEnd: int, dur: int) returns (gaps: seq<Interval>)
    ensures gaps == GapsFrom(merged, 0, dayStart, dayEnd, dur)
  {
    gaps := [];
    var cursor := dayStart;
    for i := 0 to |merged|
      invariant gaps + GapsFrom(merged, i, cursor, dayEnd, dur) == GapsFrom(merged, 0, dayStart, dayEnd, dur)
    {
      var e := merged[i];
      ghost var rest := GapsFrom(merged, i + 1, Max(cursor, e.end), dayEnd, dur);
      ghost var found := if cursor < e.start && e.start - cursor >= dur then [Interval(cursor, e.start)] else [];
      ghost var before := gaps;
      if cursor < e.start {
        if e.start - cursor >= dur {
          gaps := gaps + [Interval(cursor, e.start)];
        }
      }
      GapsAdvance(before, gaps, found, rest, GapsFrom(merged, 0, dayStart, dayEnd, dur));
      cursor := Max(cursor, e.end);
    }
    ghost var before := gaps;
    ghost var last := if cursor < dayEnd && dayEnd - cursor >= dur then [Interval(cursor, dayEnd)] else [];
    if cursor < dayEnd && dayEnd - cursor >= dur {
      gaps := gaps + [Interval(cursor, dayEnd)];
    }
    GapsAdvance(before, gaps, last, [], GapsFrom(merged, 0, dayStart, dayEnd, dur));
  }

  /** One step of the gap walk: the gaps found so far grow by the gap found
      at this step, if any. */
  lemma GapsAdvance(p: seq<Interval>, q: seq<Interval>, a: seq<Interval>, b: seq<Interval>, all: seq<Interval>)
    requires p + (a + b) == all
    requires q == p + a || (a == [] && q == p)
    ensures q + b == all
  {
    assert p + (a + b) == p + a + b;
    if a == [] {
      assert p + a == p;
    }
  }

  /** Step 4: clips each gap to the window and cuts it into slots, stopping as
      soon as twenty slots exist. */
  method Discretize(gaps: seq<Interval>, date: string, dur: int, timeframe: Option<Timeframe>)
    returns (slots: seq<TimeSlot>)
    ensures slots == SlotsAt(date, Take(CandidateStarts(gaps, 0, TimeframeOrAny(timeframe), dur), SlotCap), dur)
  {
    var tf := TimeframeOrAny(timeframe);
    ghost var all := CandidateStarts(gaps, 0, tf, dur);
    ghost var starts: seq<int> := [];
    slots := [];
    var gi := 0;
    while gi < |gaps|
      invariant 0 <= gi <= |gaps| && |starts| < SlotCap
      invariant starts + CandidateStarts(gaps, gi, tf, dur) == all
      invariant slots == SlotsAt(date, starts, dur)
    {
      ghost var later := CandidateStarts(gaps, gi + 1, tf, dur);
      ghost var rest;
      ConcatSplit(starts, ClipStarts(gaps[gi], tf, dur), later, all);
      slots, starts, rest := CutGap(gaps[gi], tf, dur, date, slots, starts, later, all);
      if |slots| >= SlotCap {
        TakePrefix(starts, rest, later, all);
        break;
      }
      ConcatEmpty(starts, later, all);
      gi := gi + 1;
    }
    if gi == |gaps| {
      assert starts == all;
    }
  }

  /** The body of step 4 for one gap: clip it to the window, skip it when too
      short, otherwise add slots from its rounded-up start, `Increment(dur)`
      apart, until the gap is used up or the cap is reached. The ghost
      `starts` track the slot starts so far and `rest` the starts of this gap
      that the cap cut off. */
  method CutGap(gap: Interval, tf: Timeframe, dur: int, date: string, slots0: seq<TimeSlot>,
                ghost starts0: seq<int>, ghost later: seq<int>, ghost all: seq<int>)
    returns (slots: seq<TimeSlot>, ghost starts: seq<int>, ghost rest: seq<int>)
    requires |starts0| < SlotCap && slots0 == SlotsAt(date, starts0, dur)
    requires starts0 + ClipStarts(gap, tf, dur) + later == all
    ensures slots == SlotsAt(date, starts, dur) && |starts| <= SlotCap
    ensures starts + rest + later == all
    ensures |starts| < SlotCap ==> rest == []
  {
    slots, starts, rest := slots0, starts0, [];
    var start := Max(gap.start, WindowStart(tf));
    var end := Min(gap.end, WindowEnd(tf));
    if end - start < dur {
      return;
    }
    var increment := if dur <= 30 then 15 else 30;
    var slotStart := RoundUp5(start);
    // the source breaks right after the push that reaches the cap; testing
    // the cap in the loop guard stops at the same point
    while slotStart + dur <= end && |slots| < SlotCap
      invariant starts + GapStarts(slotStart, end, dur, increment) + later == all
      invariant |starts| <= SlotCap
      invariant slots == SlotsAt(date, starts, dur)
      decreases end - dur - slotStart
    {
      ghost var next := GapStarts(slotStart + increment, end, dur, increment);
      ConcatStep(starts, slotStart, next, later, all);
      slots := PushSlot(slots, date, slotStart, dur, starts);
      starts := starts + [slotStart];
      slotStart := slotStart + increment;
    }
    rest := GapStarts(slotStart, end, dur, increment);
  }

  /** `slots.push(...)` of the slot at `x`. */
  method PushSlot(slots0: seq<TimeSlot>, date: string, x: int, dur: int, ghost starts: seq<int>)
    returns (slots: seq<TimeSlot>)
    requires slots0 == SlotsAt(date, starts, dur)
    ensures slots == SlotsAt(date, starts + [x], dur)
  {
    SlotsAtAppend(date, starts, x, dur);
    slots := slots0 + [MakeSlot(date, x, dur)];
  }

  /** `computeFreeSlots`: the four steps in order. */
  method ComputeFreeSlots(workingHours: (int, int), events: seq<CalendarEvent>, durationMin: int,
                          targetDate: string, timeframe: Option<Timeframe>) returns (slots: seq<TimeSlot>)
    ensures slots == FreeSlots(workingHours.0, workingHours.1, events, durationMin, targetDate, timeframe)
    ensures SlotsPromise(slots, workingHours.0, events, durationMin, targetDate, TimeframeOrAny(timeframe))
  {
    var (dayStart, dayEnd) := workingHours;
    var validEvents := ValidEvents(events);
    var occupied := BuildOccupied(validEvents);
    var merged := MergeIntervals(occupied);
    var gaps := WalkGaps(merged, dayStart, dayEnd, durationMin);
    slots := Discretize(gaps, targetDate, durationMin, timeframe);
    FreeSlotsFacts(dayStart, dayEnd, events, durationMin, targetDate, timeframe);
  }

  /** `rankSlots`: sorts the array in place by start, stably, and returns the
      same array. */
  method RankSlots(a: array<TimeSlot>) returns (r: array<TimeSlot>)
    modifies a
    ensures r == a
    ensures a[..] == SortBy(old(a[..]), SlotStart)
    ensures SortedBy(a[..], SlotStart) && multiset(a[..]) == multiset(old(a[..]))
  {
    SortInPlace(a, SlotStart);
    SortByFacts(old(a[..]), SlotStart);
    r := a;
  }

  /** Ranking slots that already come in increasing order of start leaves
      them as they are. */
  lemma RankAscendingIdentity(s: seq<TimeSlot>)
    requires Ascending(s)
    ensures SortBy(s, SlotStart) == s
  {
    SortBySorted(s, SlotStart);
  }

  lemma SlotsAtAppend(date: string, starts: seq<int>, x: int, dur: int)
    ensures SlotsAt(date, starts + [x], dur) == SlotsAt(date, starts, dur) + [MakeSlot(date, x, dur)]
  {
    var a, b := SlotsAt(date, starts + [x], dur), SlotsAt(date, starts, dur) + [MakeSlot(date, x, dur)];
    forall i | 0 <= i < |a| ensures a[i] == b[i] {
      SlotsAtAppendIndex(date, starts, x, dur, i);
    }
  }

  lemma SlotsAtAppendIndex(date: string, starts: seq<int>, x: int, dur: int, i: int)
    requires 0 <= i <= |starts|
    ensures SlotsAt(date, starts + [x], dur)[i] == (SlotsAt(date, starts, dur) + [MakeSlot(date, x, dur)])[i]
  {
    SlotAtIndex(date, starts + [x], dur, i);
    if i < |starts| {
      assert (starts + [x])[i] == starts[i];
      SlotAtIndex(date, starts, dur, i);
    }
  }

  lemma ConcatSplit(p: seq<int>, a: seq<int>, b: seq<int>, all: seq<int>)
    requires p + (a + b) == all
    ensures p + a + b == all
  {
    assert p + (a + b) == p + a + b;
  }

  lemma ConcatEmpty(p: seq<int>, b: seq<int>, all: seq<int>)
    requires p + [] + b == all
    ensures p + b == all
  {
    assert p + [] == p;
  }

  lemma ConcatStep(p: seq<int>, x: int, rest: seq<int>, b: seq<int>, all: seq<int>)
    requires p + ([x] + rest) + b == all
    ensures p + [x] + rest + b == all
  {
    assert p + ([x] + rest) == p + [x] + rest;
  }

  lemma TakePrefix(p: seq<int>, a: seq<int>, b: seq<int>, all: seq<int>)
    requires |p| == SlotCap && p + a + b == all
    ensures Take(all, SlotCap) == p
  {
    assert all[..|p|] == p;
  }
}
