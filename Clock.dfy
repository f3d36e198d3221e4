/** Clock arithmetic shared by the calendar parser, the slot finder and the
    agent nodes: the 12-hour correction and the `h:mm AM` display form. */
module Clock {
  import opened Wrappers
  import opened Strings

  datatype Meridiem = AM | PM

  /** The 12-hour correction: PM adds 12 unless the hour is 12, 12 AM is hour 0,
      and an hour without a meridiem is already a 24-hour value. */
  function To24Hour(h: int, meridiem: Option<Meridiem>): (r: int)
    ensures meridiem == None ==> r == h
    ensures 1 <= h <= 12 && meridiem == Some(AM) ==> 0 <= r < 12 && r % 12 == h % 12
    ensures 1 <= h <= 12 && meridiem == Some(PM) ==> 12 <= r < 24 && r % 12 == h % 12
  {
    match meridiem
    case None => h
    case Some(AM) => if h == 12 then 0 else h
    case Some(PM) => if h != 12 then h + 12 else h
  }

  /** JavaScript's `%` on integers: the remainder takes the sign of the
      dividend. */
  function JsRem(a: int, n: int): int
    requires n > 0
  {
    if a >= 0 then a % n else -((-a) % n)
  }

  /** The remainder by 12 differs from the dividend by a multiple of 12 and
      lies strictly between -12 and 12 with the dividend's sign. */
  lemma JsRem12(a: int)
    ensures (a - JsRem(a, 12)) % 12 == 0
    ensures a >= 0 ==> 0 <= JsRem(a, 12) < 12
    ensures a < 0 ==> -12 < JsRem(a, 12) <= 0
  {
  }

  /** The same for 60. */
  lemma JsRem60(a: int)
    ensures (a - JsRem(a, 60)) % 60 == 0
    ensures a >= 0 ==> 0 <= JsRem(a, 60) < 60
    ensures a < 0 ==> -60 < JsRem(a, 60) <= 0
  {
  }

  function Meridiem12(h: int): string {
    if h >= 12 then "PM" else "AM"
  }

  /** `h % 12 || 12`: zero becomes 12. */
  function Hour12(h: int): int {
    if JsRem(h, 12) == 0 then 12 else JsRem(h, 12)
  }

  /** `formatMinutes`: floor division for the hour, JavaScript remainder for
      the minutes, then `h:mm AM` or `h:mm PM`. */
  function FormatMinutes(min: int): string {
    var h := min / 60;
    IntToString(Hour12(h)) + ClockTail(JsRem(min, 60), Meridiem12(h))
  }

  /** The part after the hour: `:mm AM` with the minutes padded to two digits. */
  function ClockTail(m: int, meridiem: string): string {
    ":" + PadStart(IntToString(m), 2, '0') + " " + meridiem
  }

  /** Reads a display string of the form `h:mm AM` or `hh:mm PM` back into
      minutes since midnight. */
  function ReadClock(s: string): Option<int> {
    if |s| != 7 && |s| != 8 then None
    else ReadFields(s[..|s| - 6], s[|s| - 6..])
  }

  /** The hour digits and the six-character tail `:mm AM` or `:mm PM`. */
  function ReadFields(hour: string, tail: string): Option<int>
    requires |tail| == 6
  {
    var minute := tail[1..3];
    if tail[0] != ':' || tail[3] != ' ' || !IsDigits(hour) || !IsDigits(minute) then None
    else if (tail[4] != 'A' && tail[4] != 'P') || tail[5] != 'M' then None
    else
      var h, m := DigitsValue(hour), DigitsValue(minute);
      if h < 1 || h > 12 || m >= 60 then None
      else Some(To24Hour(h, Some(if tail[4] == 'A' then AM else PM)) * 60 + m)
  }

  lemma SplitClock(hs: string, tail: string)
    requires 1 <= |hs| <= 2 && |tail| == 6
    ensures ReadClock(hs + tail) == ReadFields(hs, tail)
  {
    var s := hs + tail;
    assert s[..|s| - 6] == hs;
    assert s[|s| - 6..] == tail;
  }

  /** A tail assembled from two minute digits and a meridiem reads back as
      those minutes and that meridiem. */
  lemma ReadPieces(hs: string, ms: string, mer: string, tail: string, x: int, m: int, h: int, min: int)
    requires IsDigits(hs) && DigitsValue(hs) == x && 1 <= x <= 12
    requires |ms| == 2 && IsDigits(ms) && DigitsValue(ms) == m && m < 60
    requires |mer| == 2 && mer[0] == (if h < 12 then 'A' else 'P') && mer[1] == 'M'
    requires tail == ":" + ms + " " + mer
    requires To24Hour(x, Some(if h < 12 then AM else PM)) * 60 + m == min
    ensures |tail| == 6 && ReadFields(hs, tail) == Some(min)
  {
    assert tail[1..3] == ms;
    assert tail[0] == ':' && tail[3] == ' ' && tail[4] == mer[0] && tail[5] == mer[1];
  }

  /** The tail of a display string reads back as its minutes and meridiem. */
  lemma ReadTail(hs: string, x: int, m: int, h: int, min: int)
    requires IsDigits(hs) && DigitsValue(hs) == x && 1 <= x <= 12
    requires 0 <= m < 60 && 0 <= h < 24
    requires To24Hour(x, Some(if h < 12 then AM else PM)) * 60 + m == min
    ensures |ClockTail(m, Meridiem12(h))| == 6
    ensures ReadFields(hs, ClockTail(m, Meridiem12(h))) == Some(min)
  {
    MinuteDigits(m);
    MeridiemLetters(h);
    ReadPieces(hs, PadStart(IntToString(m), 2, '0'), Meridiem12(h), ClockTail(m, Meridiem12(h)), x, m, h, min);
  }

  /** The minutes of a display string: two digits that read back. */
  lemma MinuteDigits(m: int)
    requires 0 <= m < 60
    ensures |PadStart(IntToString(m), 2, '0')| == 2
    ensures IsDigits(PadStart(IntToString(m), 2, '0'))
    ensures DigitsValue(PadStart(IntToString(m), 2, '0')) == m
  {
    NatToStringLength(m);
    PaddedRoundTrip(m, 2);
  }

  /** The meridiem of a display string: `AM` before noon, `PM` from noon. */
  lemma MeridiemLetters(h: int)
    ensures |Meridiem12(h)| == 2 && Meridiem12(h)[1] == 'M'
    ensures Meridiem12(h)[0] == (if h < 12 then 'A' else 'P')
  {
  }

  /** The hour and meridiem `formatMinutes` shows for a minute of the day. */
  lemma HourFacts(min: int)
    requires 0 <= min < 1440
    ensures 1 <= Hour12(min / 60) <= 12
    ensures Meridiem12(min / 60)[0] == (if min >= 720 then 'P' else 'A')
    ensures 0 <= JsRem(min, 60) < 60
    ensures To24Hour(Hour12(min / 60), Some(if min / 60 < 12 then AM else PM)) * 60 + JsRem(min, 60) == min
  {
  }

  /** The hour of a display string: one or two digits that read back. */
  lemma HourDigits(x: int)
    requires 1 <= x <= 12
    ensures 1 <= |IntToString(x)| <= 2 && IsDigits(IntToString(x)) && DigitsValue(IntToString(x)) == x
  {
    NatToStringLength(x);
    NatToStringRoundTrip(x);
  }

  /** Reading back a display string assembled from an hour, minutes and a
      meridiem that denote `min`. */
  lemma ReadAssembled(min: int, h: int, x: int, m: int)
    requires 1 <= x <= 12 && 0 <= m < 60 && 0 <= h < 24
    requires To24Hour(x, Some(if h < 12 then AM else PM)) * 60 + m == min
    ensures ReadClock(IntToString(x) + ClockTail(m, Meridiem12(h))) == Some(min)
  {
    var hs := IntToString(x);
    var tail := ClockTail(m, Meridiem12(h));
    HourDigits(x);
    ReadTail(hs, x, m, h, min);
    SplitClock(hs, tail);
  }

  /** Within a day the display form names an hour from 1 to 12 and is PM
      exactly from noon on, and reading it back gives the minute it came from. */
  lemma FormatMinutesRoundTrip(min: int)
    requires 0 <= min < 1440
    ensures 1 <= Hour12(min / 60) <= 12
    ensures Meridiem12(min / 60)[0] == (if min >= 720 then 'P' else 'A')
    ensures ReadClock(FormatMinutes(min)) == Some(min)
  {
    HourFacts(min);
    ReadAssembled(min, min / 60, Hour12(min / 60), JsRem(min, 60));
  }

  /** Minute 1440 (midnight at the end of the day) is shown exactly as noon,
      so its text reads back as 720. */
  lemma MidnightShownAsNoon()
    ensures FormatMinutes(1440) == "12:00 PM"
    ensures ReadClock("12:00 PM") == Some(720)
  {
    SameClockText();
    NoonText();
    FormatMinutesRoundTrip(720);
  }

  /** Minutes 1440 and 720 share the hour text, the meridiem and the minutes. */
  lemma SameClockText()
    ensures FormatMinutes(1440) == FormatMinutes(720)
  {
    assert Hour12(1440 / 60) == 12 == Hour12(720 / 60);
    assert Meridiem12(1440 / 60) == "PM" == Meridiem12(720 / 60);
    assert JsRem(1440, 60) == 0 == JsRem(720, 60);
  }

  lemma NoonText()
    ensures FormatMinutes(720) == "12:00 PM"
  {
    assert Hour12(12) == 12 && JsRem(720, 60) == 0;
    assert ClockTail(0, "PM") == ":00 PM";
  }

  /** A 12-hour time `h:mm` with its meridiem, turned into minutes by the
      12-hour correction, is shown by `formatMinutes` as `h:mm AM` or
      `h:mm PM` again. */
  lemma TwelveHourDisplay(h: int, m: int, mer: Meridiem)
    requires 1 <= h <= 12 && 0 <= m < 60
    ensures FormatMinutes(To24Hour(h, Some(mer)) * 60 + m) ==
      IntToString(h) + ClockTail(m, if mer == AM then "AM" else "PM")
  {
    var hh := To24Hour(h, Some(mer));
    var r := hh * 60 + m;
    assert r / 60 == hh;
    JsRem60(r);
    assert JsRem(r, 60) == m;
    JsRem12(hh);
    assert Hour12(hh) == h;
  }
}
