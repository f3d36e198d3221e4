/** `src/utils/dateUtils.ts`: the weekday resolver that always rolls forward
    to a later day, and the `YYYY-MM-DD` shape test. */
module DateUtils {
  import opened Wrappers
  import opened Strings
  import opened CivilDate

  /** The weekday names in `getDay` order: position 0 is Sunday. */
  const DayNames: seq<string> :=
    ["sunday", "monday", "tuesday", "wednesday", "thursday", "friday", "saturday"]

  /** `Array.prototype.indexOf` on strings: the first position holding `x`,
      or -1 when there is none. */
  function IndexOf(s: seq<string>, x: string): (r: int)
    ensures -1 <= r < |s|
    ensures r >= 0 ==> s[r] == x && forall j :: 0 <= j < r ==> s[j] != x
    ensures r == -1 ==> forall j :: 0 <= j < |s| ==> s[j] != x
  {
    if s == [] then -1
    else if s[0] == x then 0
    else
      var t := IndexOf(s[1..], x);
      if t == -1 then -1 else t + 1
  }

  /** The weekday `k` days after weekday `w`. */
  function WeekdayAfter(w: int, k: int): int {
    (w + k) % 7
  }

  /** `daysToAdd` of `resolveWeekday`: the difference of the two weekdays,
      moved into the next week when it is zero or negative. */
  function DaysAhead(target: int, from: int): (d: int)
    requires 0 <= target < 7 && 0 <= from < 7
    ensures 1 <= d <= 7 && WeekdayAfter(from, d) == target
    ensures forall e :: 1 <= e < d ==> WeekdayAfter(from, e) != target
  {
    var diff := target - from;
    if diff <= 0 then diff + 7 else diff
  }

  /** The calendar day `resolveWeekday` settles on (before formatting). */
  function ResolvedWeekday(weekday: string, anchor: Civil): (r: Civil)
    requires Valid(anchor)
    ensures Valid(r)
  {
    var target := IndexOf(DayNames, Lower(weekday));
    if target == -1 then anchor
    else AddDays(anchor, DaysAhead(target, Weekday(anchor)))
  }

  /** `resolveWeekday(weekday, anchorDate)`. */
  function ResolveWeekday(weekday: string, anchor: Civil): string
    requires Valid(anchor)
  {
    IsoFormat(ResolvedWeekday(weekday, anchor))
  }

  /** `isValidISODate`: `/^\d{4}-\d{2}-\d{2}$/`. */
  predicate IsValidIsoDate(s: string) {
    IsIsoShaped(s)
  }

  /** The pattern position by position: ten characters, dashes at 4 and 7 and
      ASCII digits everywhere else. */
  predicate IsoPattern(s: string) {
    |s| == 10 && forall i :: 0 <= i < |s| ==> if i == 4 || i == 7 then s[i] == '-' else IsDigit(s[i])
  }

  /** The names are pairwise different, so a name's position is its weekday. */
  lemma DayNamesIndex(t: int)
    requires 0 <= t < 7
    ensures IndexOf(DayNames, DayNames[t]) == t
  {
    var i := IndexOf(DayNames, DayNames[t]);
    assert DayNames[i] == DayNames[t];
    assert |DayNames[0]| == 6 && |DayNames[1]| == 6 && |DayNames[2]| == 7 && |DayNames[3]| == 9;
    assert |DayNames[4]| == 8 && |DayNames[5]| == 6 && |DayNames[6]| == 8;
    assert DayNames[0][0] == 's' && DayNames[1][0] == 'm' && DayNames[5][0] == 'f' && DayNames[6][0] == 's';
    assert DayNames[0][1] == 'u' && DayNames[6][1] == 'a';
  }

  /** An unknown name (after lower-casing) gives the anchor date itself. */
  lemma UnknownWeekdayIsAnchor(weekday: string, anchor: Civil)
    requires Valid(anchor) && Lower(weekday) !in DayNames
    ensures ResolveWeekday(weekday, anchor) == IsoFormat(anchor)
  {
  }

  /** A known name resolves to the first day strictly after the anchor that
      falls on that weekday: one to seven days later, never the anchor. */
  lemma ResolveWeekdayAhead(weekday: string, anchor: Civil, t: int)
    requires Valid(anchor) && 0 <= t < 7 && Lower(weekday) == DayNames[t]
    ensures var r := ResolvedWeekday(weekday, anchor);
      var d := DayNumber(r) - DayNumber(anchor);
      1 <= d <= 7 && Weekday(r) == t &&
      forall e :: 1 <= e < d ==> Weekday(AddDays(anchor, e)) != t
  {
    DayNamesIndex(t);
    var d := DaysAhead(t, Weekday(anchor));
    assert ResolvedWeekday(weekday, anchor) == AddDays(anchor, d);
    FirstWeekdayFrom(anchor, 1, d, t);
  }

  /** Counting days from the anchor: when `d` is the first offset from `lo` on
      whose weekday the count lands on `t`, the dates agree. */
  lemma FirstWeekdayFrom(anchor: Civil, lo: int, d: int, t: int)
    requires Valid(anchor) && lo <= d && WeekdayAfter(Weekday(anchor), d) == t
    requires forall e :: lo <= e < d ==> WeekdayAfter(Weekday(anchor), e) != t
    ensures Weekday(AddDays(anchor, d)) == t
    ensures forall e :: lo <= e < d ==> Weekday(AddDays(anchor, e)) != t
  {
    WeekdayAddDays(anchor, d);
    forall e | lo <= e < d
      ensures Weekday(AddDays(anchor, e)) != t
    {
      WeekdayAddDays(anchor, e);
    }
  }

  /** Even on the target weekday itself the resolver moves a full week on. */
  lemma SameWeekdayNextWeek(weekday: string, anchor: Civil)
    requires Valid(anchor) && Lower(weekday) == DayNames[Weekday(anchor)]
    ensures ResolvedWeekday(weekday, anchor) == AddDays(anchor, 7)
  {
    DayNamesIndex(Weekday(anchor));
  }

  lemma LowerTwice(s: string)
    ensures Lower(Lower(s)) == Lower(s)
  {
    assert forall i :: 0 <= i < |s| ==> Lower(Lower(s))[i] == Lower(s)[i];
  }

  /** Matching ignores case: a name and its lower-case form resolve alike. */
  lemma ResolveWeekdayIgnoresCase(weekday: string, anchor: Civil)
    requires Valid(anchor)
    ensures ResolveWeekday(weekday, anchor) == ResolveWeekday(Lower(weekday), anchor)
  {
    LowerTwice(weekday);
  }

  /** For anchors in the years 1 to 9992 the result is a valid ISO date string
      that parses back to the resolved day. */
  lemma ResolveWeekdayIsIso(weekday: string, anchor: Civil)
    requires Valid(anchor) && 1 <= anchor.year <= 9992
    ensures IsValidIsoDate(ResolveWeekday(weekday, anchor))
    ensures ParseIsoDate(ResolveWeekday(weekday, anchor)) == Some(ResolvedWeekday(weekday, anchor))
  {
    var r := ResolvedWeekday(weekday, anchor);
    assert anchor.year <= r.year <= anchor.year + 7;
    IsoFormatShaped(r);
    ParseIsoFormat(r);
  }

  /** The regular expression and the position-by-position reading agree. */
  lemma IsValidIsoDateIff(s: string)
    ensures IsValidIsoDate(s) <==> IsoPattern(s)
  {
    if IsValidIsoDate(s) {
      forall i | 0 <= i < |s| && i != 4 && i != 7
        ensures IsDigit(s[i])
      {
        if i < 4 {
          assert s[..4][i] == s[i];
        } else if i < 7 {
          assert s[5..7][i - 5] == s[i];
        } else {
          assert s[8..][i - 8] == s[i];
        }
      }
    }
    if IsoPattern(s) {
      assert forall i :: 0 <= i < 4 ==> s[..4][i] == s[i];
      assert forall i :: 0 <= i < 2 ==> s[5..7][i] == s[5 + i];
      assert forall i :: 0 <= i < 2 ==> s[8..][i] == s[8 + i];
    }
  }
}
