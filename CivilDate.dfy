/** Civil dates of the proleptic Gregorian calendar. This module stands for the
    parts of JavaScript's `Date` and of date-fns that the core relies on:
    `getDay`, `addDays`, the `new Date(year, monthIndex, day)` constructor with
    its overflow rules, `format(d, 'yyyy-MM-dd')` and `parseISO` on a complete
    calendar date. Dates are local calendar days; the time of day is not kept. */
module CivilDate {
  import opened Wrappers
  import opened Strings

  datatype Civil = Civil(year: int, month: int, day: int)

  predicate IsLeapYear(y: int) {
    y % 4 == 0 && (y % 100 != 0 || y % 400 == 0)
  }

  function DaysInMonth(y: int, m: int): int
    requires 1 <= m <= 12
  {
    if m == 2 then (if IsLeapYear(y) then 29 else 28)
    else if m == 4 || m == 6 || m == 9 || m == 11 then 30
    else 31
  }

  /** A date that exists in the calendar. */
  predicate Valid(c: Civil) {
    1 <= c.month <= 12 && 1 <= c.day <= DaysInMonth(c.year, c.month)
  }

  function YearLength(y: int): int {
    if IsLeapYear(y) then 366 else 365
  }

  /** Days from 0001-01-01 to January 1st of year `y` (negative before year 1). */
  function DaysBeforeYear(y: int): int
    decreases if y >= 1 then y - 1 else 1 - y
  {
    if y == 1 then 0
    else if y > 1 then DaysBeforeYear(y - 1) + YearLength(y - 1)
    else DaysBeforeYear(y + 1) - YearLength(y)
  }

  /** Days from January 1st of year `y` to the first of month `m`. */
  function DaysBeforeMonth(y: int, m: int): int
    requires 1 <= m <= 12
  {
    var leap := if m > 2 && IsLeapYear(y) then 1 else 0;
    leap + (
      if m == 1 then 0 else if m == 2 then 31 else if m == 3 then 59
      else if m == 4 then 90 else if m == 5 then 120 else if m == 6 then 151
      else if m == 7 then 181 else if m == 8 then 212 else if m == 9 then 243
      else if m == 10 then 273 else if m == 11 then 304 else 334)
  }

  /** Days since 0001-01-01 (which has day number 0). */
  function DayNumber(c: Civil): int
    requires 1 <= c.month <= 12
  {
    DaysBeforeYear(c.year) + DaysBeforeMonth(c.year, c.month) + c.day - 1
  }

  /** `getDay`: 0 is Sunday, 6 is Saturday. 0001-01-01 was a Monday. */
  function Weekday(c: Civil): (w: int)
    requires 1 <= c.month <= 12
    ensures 0 <= w < 7
  {
    (DayNumber(c) + 1) % 7
  }

  lemma DaysBeforeNextYear(y: int)
    ensures DaysBeforeYear(y + 1) == DaysBeforeYear(y) + YearLength(y)
  {
  }

  /** The count of leap days in closed form, as the Gregorian rule gives it:
      every fourth year, except centuries not divisible by 400. */
  lemma {:induction false} DaysBeforeYearClosed(y: int)
    requires y >= 1
    ensures DaysBeforeYear(y) == 365 * (y - 1) + (y - 1) / 4 - (y - 1) / 100 + (y - 1) / 400
    decreases y
  {
    if y > 1 {
      DaysBeforeYearClosed(y - 1);
      LeapCount(y - 1);
    }
  }

  /** Going from `x - 1` to `x` adds one leap day exactly when `x` is a leap
      year. */
  lemma LeapCount(x: int)
    requires x >= 1
    ensures x / 4 - (x - 1) / 4 - x / 100 + (x - 1) / 100 + x / 400 - (x - 1) / 400 + 365 == YearLength(x)
  {
    DivStep(x);
    DivChain(x);
    if x % 4 != 0 {
      assert !IsLeapYear(x);
    } else if x % 100 != 0 {
      assert IsLeapYear(x);
    } else if x % 400 != 0 {
      assert !IsLeapYear(x);
    } else {
      assert IsLeapYear(x);
    }
  }

  lemma DivChain(x: int)
    ensures x % 400 == 0 ==> x % 100 == 0
    ensures x % 100 == 0 ==> x % 4 == 0
  {
  }

  lemma DivStep(x: int)
    requires x >= 1
    ensures x / 4 - (x - 1) / 4 == if x % 4 == 0 then 1 else 0
    ensures x / 100 - (x - 1) / 100 == if x % 100 == 0 then 1 else 0
    ensures x / 400 - (x - 1) / 400 == if x % 400 == 0 then 1 else 0
  {
  }

  /** 15 January 2026 was a Thursday. */
  lemma Weekday20260115()
    ensures Weekday(Civil(2026, 1, 15)) == 4
  {
    DaysBeforeYear2026();
    assert DayNumber(Civil(2026, 1, 15)) == 739616 + 14;
  }

  lemma DaysBeforeYear2026()
    ensures DaysBeforeYear(2026) == 739616
  {
    DaysBeforeYearClosed(2026);
  }

  /** The day after a valid date: the calendar's successor. */
  function NextDay(c: Civil): (r: Civil)
    requires Valid(c)
    ensures Valid(r) && DayNumber(r) == DayNumber(c) + 1
    ensures r.year == c.year || r.year == c.year + 1
  {
    if c.day < DaysInMonth(c.year, c.month) then Civil(c.year, c.month, c.day + 1)
    else if c.month < 12 then Civil(c.year, c.month + 1, 1)
    else
      DaysBeforeNextYear(c.year);
      Civil(c.year + 1, 1, 1)
  }

  /** The day before a valid date. */
  function PrevDay(c: Civil): (r: Civil)
    requires Valid(c)
    ensures Valid(r) && DayNumber(r) == DayNumber(c) - 1
    ensures r.year == c.year || r.year == c.year - 1
  {
    if c.day > 1 then Civil(c.year, c.month, c.day - 1)
    else if c.month > 1 then Civil(c.year, c.month - 1, DaysInMonth(c.year, c.month - 1))
    else
      DaysBeforeNextYear(c.year - 1);
      Civil(c.year - 1, 12, 31)
  }

  /** date-fns `addDays`: the valid date `k` days away. */
  function AddDays(c: Civil, k: int): (r: Civil)
    requires Valid(c)
    ensures Valid(r) && DayNumber(r) == DayNumber(c) + k
    ensures k >= 0 ==> c.year <= r.year <= c.year + k
    decreases if k >= 0 then k else -k
  {
    if k == 0 then c
    else if k > 0 then AddDays(NextDay(c), k - 1)
    else AddDays(PrevDay(c), k + 1)
  }

  lemma ModSeven(a: int, q: int, b: int)
    requires a == 7 * q + b && 0 <= b < 7
    ensures a % 7 == b
  {
  }

  /** Moving `k` days moves the weekday `k` places round the week. */
  lemma WeekdayAddDays(c: Civil, k: int)
    requires Valid(c)
    ensures Weekday(AddDays(c, k)) == (Weekday(c) + k) % 7
  {
    ModShift(DayNumber(AddDays(c, k)) + 1, DayNumber(c) + 1, k);
  }

  /** A shift by `k` moves a remainder by seven `k` places round. */
  lemma ModShift(a: int, n: int, k: int)
    requires a == n + k
    ensures a % 7 == (n % 7 + k) % 7
  {
    var x := n % 7 + k;
    ModSeven(n, n / 7, n % 7);
    ModSeven(x, x / 7, x % 7);
    ModSeven(a, n / 7 + x / 7, x % 7);
  }

  /** Counting forward inside one month only changes the day of the month. */
  lemma {:induction false} AddDaysWithinMonth(c: Civil, k: nat)
    requires Valid(c) && c.day + k <= DaysInMonth(c.year, c.month)
    ensures AddDays(c, k) == Civil(c.year, c.month, c.day + k)
    decreases k
  {
    if k > 0 {
      AddDaysWithinMonth(NextDay(c), k - 1);
    }
  }

  /** Counting on in two stretches is counting on once. */
  lemma {:induction false} AddDaysSplit(c: Civil, a: nat, b: nat)
    requires Valid(c)
    ensures AddDays(c, a + b) == AddDays(AddDays(c, a), b)
    decreases a
  {
    if a > 0 {
      AddDaysSplit(NextDay(c), a - 1, b);
    }
  }

  /** The year `new Date(y, ...)` uses: JavaScript maps years 0 to 99 onto
      1900 to 1999. */
  function FullYear(y: int): int {
    if 0 <= y <= 99 then 1900 + y else y
  }

  /** `new Date(year, monthIndex, day)`: the month index may lie outside 0..11
      and the day outside the month; both overflow into the neighbouring
      months and years, as ECMAScript's MakeDay prescribes. */
  function DateFromParts(year: int, monthIndex: int, day: int): (r: Civil)
    ensures Valid(r)
  {
    AddDays(MonthStart(year, monthIndex), day - 1)
  }

  /** The first day of the month `monthIndex` months after January of `year`
      (JavaScript years 0 to 99 mapped onto 1900 to 1999). */
  function MonthStart(year: int, monthIndex: int): (r: Civil)
    ensures Valid(r) && r.day == 1
  {
    Civil(FullYear(year) + monthIndex / 12, monthIndex % 12 + 1, 1)
  }

  /** The constructor counts `day - 1` days on from the first of the
      (normalised) month, whatever the day and the month index. */
  lemma DateFromPartsCounts(year: int, monthIndex: int, day: int)
    ensures DayNumber(DateFromParts(year, monthIndex, day)) == DayNumber(MonthStart(year, monthIndex)) + day - 1
  {
  }

  /** For a date that exists and a year of 100 or later, the constructor gives
      that very date back. */
  lemma DateFromPartsExact(c: Civil)
    requires Valid(c) && c.year >= 100
    ensures DateFromParts(c.year, c.month - 1, c.day) == c
  {
    var first := MonthStart(c.year, c.month - 1);
    assert (c.month - 1) / 12 == 0 && (c.month - 1) % 12 == c.month - 1;
    assert first == Civil(c.year, c.month, 1);
    AddDaysWithinMonth(first, c.day - 1);
  }

  /** date-fns `addLeadingZeros`. */
  function Pad(n: nat, width: nat): string {
    PadStart(NatToString(n), width, '0')
  }

  /** date-fns token `yyyy`: the era year (1 - y for years up to 0), zero-padded
      to four digits. */
  function YearToken(y: int): string {
    Pad(if y > 0 then y else 1 - y, 4)
  }

  /** `format(d, 'yyyy-MM-dd')`. */
  function IsoFormat(c: Civil): string
    requires Valid(c)
  {
    YearToken(c.year) + "-" + Pad(c.month as nat, 2) + "-" + Pad(c.day as nat, 2)
  }

  /** `/^\d{4}-\d{2}-\d{2}$/.test(s)`. */
  predicate IsIsoShaped(s: string) {
    |s| == 10 && s[4] == '-' && s[7] == '-' &&
    IsDigits(s[..4]) && IsDigits(s[5..7]) && IsDigits(s[8..])
  }

  /** date-fns `parseISO` on a complete calendar date `YYYY-MM-DD`; it yields an
      Invalid Date unless the month and day exist. Other ISO 8601 forms are not
      part of this model and give `None`. */
  function ParseIsoDate(s: string): (r: Option<Civil>)
    ensures r.Some? ==> IsIsoShaped(s) && Valid(r.value)
  {
    if !IsIsoShaped(s) then None
    else
      var c := Civil(DigitsValue(s[..4]), DigitsValue(s[5..7]), DigitsValue(s[8..]));
      if Valid(c) then Some(c) else None
  }

  lemma DashedParts(a: string, b: string, c: string)
    requires |a| == 4 && |b| == 2 && |c| == 2
    ensures var s := a + "-" + b + "-" + c;
      |s| == 10 && s[..4] == a && s[4] == '-' && s[5..7] == b && s[7] == '-' && s[8..] == c
  {
  }

  /** Formatting is always ISO-shaped for years 1 to 9999. */
  lemma IsoFormatShaped(c: Civil)
    requires Valid(c) && 1 <= c.year <= 9999
    ensures IsIsoShaped(IsoFormat(c))
  {
    var y, m, d := YearToken(c.year), Pad(c.month, 2), Pad(c.day, 2);
    NatToStringLength(c.year);
    NatToStringLength(c.month);
    NatToStringLength(c.day);
    assert |y| == 4 && |m| == 2 && |d| == 2;
    PaddedRoundTrip(c.year, 4);
    PaddedRoundTrip(c.month, 2);
    PaddedRoundTrip(c.day, 2);
    DashedParts(y, m, d);
    assert IsoFormat(c) == y + "-" + m + "-" + d;
  }

  /** Parsing a formatted date gives the date back (years 1 to 9999). */
  lemma ParseIsoFormat(c: Civil)
    requires Valid(c) && 1 <= c.year <= 9999
    ensures ParseIsoDate(IsoFormat(c)) == Some(c)
  {
    var y, m, d := YearToken(c.year), Pad(c.month, 2), Pad(c.day, 2);
    var s := IsoFormat(c);
    IsoFormatShaped(c);
    NatToStringLength(c.year);
    NatToStringLength(c.month);
    NatToStringLength(c.day);
    DashedParts(y, m, d);
    assert s == y + "-" + m + "-" + d;
    PaddedRoundTrip(c.year, 4);
    PaddedRoundTrip(c.month, 2);
    PaddedRoundTrip(c.day, 2);
    assert DigitsValue(s[..4]) == c.year;
    assert DigitsValue(s[5..7]) == c.month;
    assert DigitsValue(s[8..]) == c.day;
  }
}
