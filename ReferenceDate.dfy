/** `src/utils/referenceDate.ts`: the object that fixes "today" for a run.
    `initialize` picks the command-line date, else the environment date, else
    the system clock, else fails; the getters read the chosen date back. */
module ReferenceDate {
  import opened Wrappers
  import opened Strings
  import opened CivilDate

  /** A calendar day that exists: what a JavaScript `Date` denotes here (the
      time of day is not modelled). */
  type Day = c: Civil | Valid(c) witness Civil(1970, 1, 1)

  /** `'cli' | 'env' | 'system' | 'test'`; nothing in the class sets `Test`. */
  datatype Source = Cli | Env | System | Test

  /** The three errors the class throws. */
  datatype DateError = NotSet | NotInitialized | InvalidDateFormat(input: string)

  /** A value or the error thrown instead of returning it. */
  datatype Outcome<+T> = Ok(value: T) | Err(error: DateError)

  /** `getMetadata`'s record. */
  datatype Metadata = Metadata(date: string, source: string)

  function SourceName(s: Source): string {
    match s
    case Cli => "cli"
    case Env => "env"
    case System => "system"
    case Test => "test"
  }

  /** An option that is present and truthy: JavaScript treats `""` as absent. */
  predicate Provided(o: Option<string>) {
    o.Some? && o.value != ""
  }

  /** `parseDate`. An exact `YYYY-MM-DD` goes through `new Date(+year,
      +month - 1, +day, 12, 0, 0)`, overflow and the 0..99 year rule included;
      any other text is handed to `new Date(text)`, given here as `loose`
      (`None` standing for an Invalid Date). */
  function ParseDate(s: string, loose: string -> Option<Day>): (r: Outcome<Day>)
    ensures r.Err? ==> !IsIsoShaped(s) && r.error == InvalidDateFormat(s)
  {
    if IsIsoShaped(s) then
      var d: Day := DateFromParts(DigitsValue(s[..4]), DigitsValue(s[5..7]) - 1, DigitsValue(s[8..]));
      Ok(d)
    else
      match loose(s)
      case Some(d) => Ok(d)
      case None => Err(InvalidDateFormat(s))
  }

  function Tagged(r: Outcome<Day>, source: Source): Outcome<(Day, Source)> {
    match r
    case Ok(d) => Ok((d, source))
    case Err(e) => Err(e)
  }

  /** What `initialize` settles on: the date with its source, or the error it
      throws. `today` is what `new Date()` reads from the clock. */
  function Chosen(cliDate: Option<string>, envDate: Option<string>, allowSystemDate: bool,
                  today: Day, loose: string -> Option<Day>): Outcome<(Day, Source)>
  {
    if Provided(cliDate) then Tagged(ParseDate(cliDate.value, loose), Cli)
    else if Provided(envDate) then Tagged(ParseDate(envDate.value, loose), Env)
    else if allowSystemDate then Ok((today, System))
    else Err(NotSet)
  }

  /** `getDateString`'s rendering: the year as `getFullYear` prints it (not
      padded), month and day zero-padded to two digits. */
  function DateString(d: Day): string {
    IntToString(d.year) + "-" + Pad(d.month, 2) + "-" + Pad(d.day, 2)
  }

  class ReferenceDateManager {
    var referenceDate: Option<Day>
    var source: Option<Source>

    /** Both fields are set together or not at all. */
    predicate Valid()
      reads this
    {
      referenceDate.Some? <==> source.Some?
    }

    constructor ()
      ensures Valid() && referenceDate.None? && source.None?
    {
      referenceDate := None;
      source := None;
    }

    /** `initialize`: on success both fields take the chosen date and its
        source; on failure (a date that does not parse, or nothing to use)
        the error is returned and both fields keep their old values. */
    method Initialize(cliDate: Option<string>, envDate: Option<string>, allowSystemDate: bool,
                      today: Day, loose: string -> Option<Day>) returns (err: Option<DateError>)
      requires Valid()
      modifies this
      ensures Valid()
      ensures var c := Chosen(cliDate, envDate, allowSystemDate, today, loose);
        match c
        case Ok(v) => err.None? && referenceDate == Some(v.0) && source == Some(v.1)
        case Err(e) => err == Some(e) && referenceDate == old(referenceDate) && source == old(source)
    {
      if Provided(cliDate) {
        var parsed := ParseDate(cliDate.value, loose);
        if parsed.Err? {
          return Some(parsed.error);
        }
        referenceDate := Some(parsed.value);
        source := Some(Cli);
        return None;
      }
      if Provided(envDate) {
        var parsed := ParseDate(envDate.value, loose);
        if parsed.Err? {
          return Some(parsed.error);
        }
        referenceDate := Some(parsed.value);
        source := Some(Env);
        return None;
      }
      if allowSystemDate {
        referenceDate := Some(today);
        source := Some(System);
        return None;
      }
      return Some(NotSet);
    }

    /** `getDate`: the stored day, or `NotInitialized` before any successful
        `initialize`. */
    function GetDate(): (r: Outcome<Day>)
      reads this
      ensures r.Ok? <==> referenceDate.Some?
      ensures r.Ok? ==> r.value == referenceDate.value
      ensures r.Err? ==> r.error == NotInitialized
    {
      match referenceDate
      case Some(d) => Ok(d)
      case None => Err(NotInitialized)
    }

    /** `getDateString`: throws exactly when `getDate` does. */
    function GetDateString(): (r: Outcome<string>)
      reads this
      ensures r.Err? <==> referenceDate.None?
    {
      match GetDate()
      case Ok(d) => Ok(DateString(d))
      case Err(e) => Err(e)
    }

    /** `getMetadata`: the date string and the source name, `"unknown"` when
        no source is recorded. */
    function GetMetadata(): (r: Outcome<Metadata>)
      reads this
      ensures r.Err? <==> referenceDate.None?
      ensures Valid() && r.Ok? ==> r.value.source != "unknown"
    {
      match GetDateString()
      case Ok(s) => Ok(Metadata(s, if source.Some? then SourceName(source.value) else "unknown"))
      case Err(e) => Err(e)
    }
  }

  /** A command-line date decides on its own: whatever the environment and the
      system flag hold, the outcome is the same, its source is `Cli`, and a
      command-line date that does not parse is an error rather than a reason to
      look further. */
  lemma CliWins(cliDate: Option<string>, env1: Option<string>, env2: Option<string>,
                allow1: bool, allow2: bool, today1: Day, today2: Day, loose: string -> Option<Day>)
    requires Provided(cliDate)
    ensures Chosen(cliDate, env1, allow1, today1, loose) == Chosen(cliDate, env2, allow2, today2, loose)
    ensures var c := Chosen(cliDate, env1, allow1, today1, loose);
      (c.Ok? ==> c.value.1 == Cli) && (c.Err? ==> c.error == InvalidDateFormat(cliDate.value))
  {
  }

  /** Without a command-line date, an environment date decides: the system
      flag and clock do not matter and the source is `Env`. */
  lemma EnvNext(cliDate: Option<string>, envDate: Option<string>,
                allow1: bool, allow2: bool, today1: Day, today2: Day, loose: string -> Option<Day>)
    requires !Provided(cliDate) && Provided(envDate)
    ensures Chosen(cliDate, envDate, allow1, today1, loose) == Chosen(cliDate, envDate, allow2, today2, loose)
    ensures var c := Chosen(cliDate, envDate, allow1, today1, loose);
      (c.Ok? ==> c.value.1 == Env) && (c.Err? ==> c.error == InvalidDateFormat(envDate.value))
  {
  }

  /** With neither, the system clock is used when allowed. */
  lemma SystemLast(cliDate: Option<string>, envDate: Option<string>, today: Day, loose: string -> Option<Day>)
    requires !Provided(cliDate) && !Provided(envDate)
    ensures Chosen(cliDate, envDate, true, today, loose) == Ok((today, System))
  {
  }

  /** `initialize` throws "REFERENCE_DATE not set" exactly when none of the
      three is available. */
  lemma NotSetIff(cliDate: Option<string>, envDate: Option<string>, allowSystemDate: bool,
                  today: Day, loose: string -> Option<Day>)
    ensures Chosen(cliDate, envDate, allowSystemDate, today, loose) == Err(NotSet) <==>
      !Provided(cliDate) && !Provided(envDate) && !allowSystemDate
  {
  }

  /** An empty string is as good as no option at all. */
  lemma EmptyIsAbsent(envDate: Option<string>, allowSystemDate: bool, today: Day, loose: string -> Option<Day>)
    ensures Chosen(Some(""), envDate, allowSystemDate, today, loose) == Chosen(None, envDate, allowSystemDate, today, loose)
    ensures Chosen(None, Some(""), allowSystemDate, today, loose) == Chosen(None, None, allowSystemDate, today, loose)
  {
  }

  lemma FourDigitYear(y: int)
    requires 1000 <= y < 10000
    ensures |NatToString(y)| == 4
  {
    NatToStringLength(y);
  }

  /** Two digits zero-padded back from their value are the same two digits. */
  lemma PadTwoDigits(t: string)
    requires |t| == 2 && IsDigits(t)
    ensures DigitsValue(t) < 100 && Pad(DigitsValue(t), 2) == t
  {
    var n := DigitsValue(t);
    DigitsBound(t);
    assert Pow10(2) == 100;
    NatToStringLength(n);
    PaddedRoundTrip(n, 2);
    DigitsInjective(Pad(n, 2), t);
  }

  /** The four year digits of a date from 1000 on are `getFullYear` printed. */
  lemma YearDigits(t: string)
    requires |t| == 4 && IsDigits(t) && DigitsValue(t) >= 1000
    ensures IntToString(DigitsValue(t)) == t
  {
    var n := DigitsValue(t);
    DigitsBound(t);
    assert Pow10(4) == 10000;
    FourDigitYear(n);
    NatToStringRoundTrip(n);
    DigitsInjective(NatToString(n), t);
  }

  lemma SplitIso(s: string)
    requires IsIsoShaped(s)
    ensures s == s[..4] + "-" + s[5..7] + "-" + s[8..]
  {
  }

  /** The round trip: a `YYYY-MM-DD` naming a day that exists, in the years
      1000 to 9999, is parsed to that very day and `getDateString` prints the
      same string back. */
  lemma IsoRoundTrip(s: string, loose: string -> Option<Day>)
    requires ParseIsoDate(s).Some? && ParseIsoDate(s).value.year >= 1000
    ensures ParseDate(s, loose) == Ok(ParseIsoDate(s).value)
    ensures DateString(ParseIsoDate(s).value) == s
  {
    var c := ParseIsoDate(s).value;
    assert c == Civil(DigitsValue(s[..4]), DigitsValue(s[5..7]), DigitsValue(s[8..]));
    DateFromPartsExact(c);
    YearDigits(s[..4]);
    PadTwoDigits(s[5..7]);
    PadTwoDigits(s[8..]);
    SplitIso(s);
  }

  /** A number below 100 zero-padded to two digits. */
  lemma PadTwo(n: nat)
    requires n < 100
    ensures |Pad(n, 2)| == 2 && IsDigits(Pad(n, 2)) && DigitsValue(Pad(n, 2)) == n
  {
    NatToStringLength(n);
    PaddedRoundTrip(n, 2);
  }

  lemma DashedPieces(y: string, m: string, d: string)
    requires |m| == 2 && |d| == 2
    ensures var s := y + "-" + m + "-" + d; var k := |y|;
      |s| == k + 6 && s[..k] == y && s[k] == '-' && s[k + 1..k + 3] == m && s[k + 3] == '-' && s[k + 4..] == d
  {
  }

  /** Month and day are always two digits in `getDateString`. */
  lemma DateStringPadded(d: Day)
    ensures var s := DateString(d); var k := |IntToString(d.year)|;
      |s| == k + 6 && s[..k] == IntToString(d.year) && s[k] == '-' && s[k + 3] == '-' &&
      IsDigits(s[k + 1..k + 3]) && DigitsValue(s[k + 1..k + 3]) == d.month &&
      IsDigits(s[k + 4..]) && DigitsValue(s[k + 4..]) == d.day
  {
    PadTwo(d.month);
    PadTwo(d.day);
    DashedPieces(IntToString(d.year), Pad(d.month, 2), Pad(d.day, 2));
  }

  /** The value of four digits, place by place. */
  lemma FourDigits(t: string)
    requires |t| == 4 && IsDigits(t)
    ensures DigitsValue(t) == 1000 * (t[0] as int - '0' as int) + 100 * (t[1] as int - '0' as int) +
      10 * (t[2] as int - '0' as int) + (t[3] as int - '0' as int)
  {
    var a, b, c := t[..1], t[..2], t[..3];
    assert a[..0] == [] && b[..1] == a && c[..2] == b && t[..3] == c;
    assert DigitsValue(a) == t[0] as int - '0' as int;
    assert DigitsValue(b) == DigitsValue(a) * 10 + (t[1] as int - '0' as int);
    assert DigitsValue(c) == DigitsValue(b) * 10 + (t[2] as int - '0' as int);
  }

  /** The value of two digits, place by place. */
  lemma TwoDigits(t: string)
    requires |t| == 2 && IsDigits(t)
    ensures DigitsValue(t) == 10 * (t[0] as int - '0' as int) + (t[1] as int - '0' as int)
  {
    var a := t[..1];
    assert a[..0] == [] && t[..1] == a;
    assert DigitsValue(a) == t[0] as int - '0' as int;
  }

  /** `parseDate` of an exact `YYYY-MM-DD` whose pieces have the given values. */
  lemma ParseDatePieces(s: string, loose: string -> Option<Day>, y: int, m: int, d: int)
    requires |s| == 10 && s[4] == '-' && s[7] == '-'
    requires IsDigits(s[..4]) && IsDigits(s[5..7]) && IsDigits(s[8..])
    requires DigitsValue(s[..4]) == y && DigitsValue(s[5..7]) == m && DigitsValue(s[8..]) == d
    ensures ParseDate(s, loose) == Ok(DateFromParts(y, m - 1, d))
  {
  }

  /** Years below 1000 break the round trip: `0500-01-01` comes back as
      `500-01-01`. */
  lemma ShortYearUnpadded(loose: string -> Option<Day>)
    ensures ParseDate("0500-01-01", loose) == Ok(Civil(500, 1, 1))
    ensures DateString(Civil(500, 1, 1)) == "500-01-01"
  {
    var s := "0500-01-01";
    assert s[..4] == "0500" && s[5..7] == "01" && s[8..] == "01";
    FourDigits("0500");
    TwoDigits("01");
    ParseDatePieces(s, loose, 500, 1, 1);
    DateFromPartsExact(Civil(500, 1, 1));
    Year500Printed();
  }

  lemma Year500Printed()
    ensures DateString(Civil(500, 1, 1)) == "500-01-01"
  {
    assert NatToString(5) == "5";
    assert NatToString(50) == "50";
    assert NatToString(500) == "500";
    assert NatToString(1) == "1";
    assert Pad(1, 2) == "01";
  }

  /** Two-digit years are read as 19xx: `0050-06-15` becomes 1950-06-15. */
  lemma TwoDigitYear(loose: string -> Option<Day>)
    ensures ParseDate("0050-06-15", loose) == Ok(Civil(1950, 6, 15))
  {
    var s := "0050-06-15";
    assert s[..4] == "0050" && s[5..7] == "06" && s[8..] == "15";
    FourDigits("0050");
    TwoDigits("06");
    TwoDigits("15");
    ParseDatePieces(s, loose, 50, 6, 15);
    assert MonthStart(50, 5) == MonthStart(1950, 5);
    DateFromPartsExact(Civil(1950, 6, 15));
  }

  /** A day past the end of the month overflows: `2026-02-30` is 2 March. */
  lemma FebruaryOverflow(loose: string -> Option<Day>)
    ensures ParseDate("2026-02-30", loose) == Ok(Civil(2026, 3, 2))
  {
    var s := "2026-02-30";
    assert s[..4] == "2026" && s[5..7] == "02" && s[8..] == "30";
    FourDigits("2026");
    TwoDigits("02");
    TwoDigits("30");
    ParseDatePieces(s, loose, 2026, 2, 30);
    FebruaryThirtieth();
  }

  lemma FebruaryThirtieth()
    ensures DateFromParts(2026, 1, 30) == Civil(2026, 3, 2)
  {
    var first := MonthStart(2026, 1);
    assert first == Civil(2026, 2, 1);
    AddDaysWithinMonth(first, 27);
    assert AddDays(first, 27) == Civil(2026, 2, 28);
    AddDaysSplit(first, 27, 2);
  }

  /** A fresh manager initialised once and then asked for its date string,
      as the command-line entry point does. */
  method StartUp(cliDate: Option<string>, envDate: Option<string>, allowSystemDate: bool,
                 today: Day, loose: string -> Option<Day>) returns (r: Outcome<string>)
    ensures var c := Chosen(cliDate, envDate, allowSystemDate, today, loose);
      match c
      case Ok(v) => r == Ok(DateString(v.0))
      case Err(e) => r == Err(e)
  {
    var manager := new ReferenceDateManager();
    var err := manager.Initialize(cliDate, envDate, allowSystemDate, today, loose);
    if err.Some? {
      return Err(err.value);
    }
    r := manager.GetDateString();
  }

  /** Before `initialize` every getter throws `NotInitialized`; a failed
      `initialize` leaves it that way. */
  method UseBeforeInit(cliDate: Option<string>, envDate: Option<string>, allowSystemDate: bool,
                       today: Day, loose: string -> Option<Day>) returns (before: Outcome<string>, after: Outcome<string>)
    ensures before == Err(NotInitialized)
    ensures Chosen(cliDate, envDate, allowSystemDate, today, loose).Err? ==> after == Err(NotInitialized)
  {
    var manager := new ReferenceDateManager();
    before := manager.GetDateString();
    var _ := manager.Initialize(cliDate, envDate, allowSystemDate, today, loose);
    after := manager.GetDateString();
  }

  /** A second successful `initialize` replaces both the date and the source. */
  method Reinitialize(first: string, second: string, today: Day, loose: string -> Option<Day>)
    returns (m: Outcome<Metadata>)
    requires second != "" && ParseDate(second, loose).Ok?
    ensures m == Ok(Metadata(DateString(ParseDate(second, loose).value), "env"))
  {
    var manager := new ReferenceDateManager();
    var _ := manager.Initialize(Some(first), None, true, today, loose);
    var d := ParseDate(second, loose).value;
    assert Chosen(None, Some(second), false, today, loose) == Ok((d, Env));
    var _ := manager.Initialize(None, Some(second), false, today, loose);
    assert manager.referenceDate == Some(d) && manager.source == Some(Env);
    m := manager.GetMetadata();
  }
}
