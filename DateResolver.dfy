/** `src/utils/dateResolver.ts`: turns a time constraint of the request into a
    concrete `yyyy-MM-dd` date relative to the reference date, and checks the
    result against the constraint. */
module DateResolver {
  import opened Wrappers
  import opened Strings
  import opened CivilDate
  import opened Types
  import opened DateUtils

  /** What `daysMap[key]` yields on the object literal: one of its seven own
      properties, a member inherited from `Object.prototype`, or `undefined`. */
  datatype Lookup = DayIndex(n: int) | Inherited | Missing

  /** `daysMap[key]`. Of the members of `Object.prototype` only `constructor`
      and `__proto__` have all-lower-case names, so they are the only inherited
      members a lower-cased key can reach. */
  function DaysMap(key: string): (r: Lookup)
    ensures r.DayIndex? <==> key in DayNames
    ensures r.DayIndex? ==> 0 <= r.n < 7 && DayNames[r.n] == key
    ensures r.Inherited? <==> key == "constructor" || key == "__proto__"
  {
    var i := IndexOf(DayNames, key);
    if i >= 0 then DayIndex(i)
    else if key == "constructor" || key == "__proto__" then Inherited
    else Missing
  }

  /** JavaScript truthiness of a lookup: `undefined` and Sunday's 0 are falsy;
      the inherited function and object are truthy. */
  predicate Truthy(l: Lookup) {
    l.Inherited? || (l.DayIndex? && l.n != 0)
  }

  /** `s.split(/\s+/)[0]`: the text before the first whitespace character. */
  function FirstWord(s: string): (r: string)
    ensures |r| <= |s| && r == s[..|r|]
    ensures forall i :: 0 <= i < |r| ==> !IsSpace(r[i])
    ensures |r| < |s| ==> IsSpace(s[|r|])
  {
    if s == [] || IsSpace(s[0]) then [] else [s[0]] + FirstWord(s[1..])
  }

  /** The rewrite of line 20: an `ABSOLUTE` constraint whose first word names
      a weekday (by a truthy lookup) becomes `DAY_OF_WEEK`. */
  function Reclassify(kind: ConstraintKind, value: string): ConstraintKind {
    if kind == Absolute && Truthy(DaysMap(FirstWord(Lower(value)))) then DayOfWeek else kind
  }

  /** The first position at or after `i` that is not whitespace. */
  function SkipSpaces(s: string, i: nat): (j: nat)
    requires i <= |s|
    ensures i <= j <= |s| && (j < |s| ==> !IsSpace(s[j]))
    ensures forall k :: i <= k < j ==> IsSpace(s[k])
    decreases |s| - i
  {
    if i < |s| && IsSpace(s[i]) then SkipSpaces(s, i + 1) else i
  }

  /** `/\s+or\s+/` matches at position `i`. The whitespace run before `or`
      must be taken whole, since `o` is not whitespace. */
  predicate OrAt(s: string, i: nat) {
    i < |s| && IsSpace(s[i]) &&
    var j := SkipSpaces(s, i);
    j + 2 < |s| && s[j] == 'o' && s[j + 1] == 'r' && IsSpace(s[j + 2])
  }

  /** The leftmost match of the separator at or after `i` (`|s|` if none). */
  function FirstOr(s: string, i: nat): (r: nat)
    requires i <= |s|
    ensures i <= r <= |s| && (r < |s| ==> OrAt(s, r))
    ensures forall k :: i <= k < r ==> !OrAt(s, k)
    decreases |s| - i
  {
    if i == |s| || OrAt(s, i) then i else FirstOr(s, i + 1)
  }

  /** `s.split(/\s+or\s+/)[0]`. */
  function BeforeOr(s: string): string {
    s[..FirstOr(s, 0)]
  }

  /** The text the `DAY_OF_WEEK` case looks up. */
  function RawDay(value: string): string {
    Trim(BeforeOr(Lower(value)))
  }

  /** `diff` of the `DAY_OF_WEEK` case: the weekday difference, moved into
      the next week only when negative, so the same weekday gives 0. */
  function DaysUntil(target: int, from: int): (d: int)
    requires 0 <= target < 7 && 0 <= from < 7
    ensures 0 <= d <= 6 && WeekdayAfter(from, d) == target
    ensures forall e :: 0 <= e < d ==> WeekdayAfter(from, e) != target
  {
    var diff := target - from;
    if diff < 0 then diff + 7 else diff
  }

  /** The day the `DAY_OF_WEEK` case settles on for weekday `t`. */
  function WeekdayDate(ref: Civil, t: int): (r: Civil)
    requires Valid(ref) && 0 <= t < 7
    ensures Valid(r)
  {
    AddDays(ref, DaysUntil(t, Weekday(ref)))
  }

  /** The `switch` of `resolveTargetDate` on the (already rewritten) kind.
      `None` is the `RangeError` that `format` throws when the lookup hit an
      inherited member: the difference is `NaN` and so is the date. */
  function ResolveDate(kind: ConstraintKind, value: string, ref: Civil): Option<string>
    requires Valid(ref)
  {
    match kind
    case Absolute =>
      // parseISO is modelled on complete dates only, which are all shaped
      // `YYYY-MM-DD`, so the fallback to the reference date is what remains
      if IsIsoShaped(value) then Some(value) else Some(IsoFormat(ref))
    case Relative =>
      var v := Lower(value);
      if v == "today" then Some(IsoFormat(ref))
      else if v == "tomorrow" then Some(IsoFormat(AddDays(ref, 1)))
      else Some(IsoFormat(ref))
    case DayOfWeek =>
      match DaysMap(RawDay(value))
      case Missing => Some(IsoFormat(ref))
      case Inherited => None
      case DayIndex(t) => Some(IsoFormat(WeekdayDate(ref, t)))
  }

  /** `resolveTargetDate(constraint, referenceDate)`: rewrites the kind of the
      constraint in place, then resolves it. */
  method ResolveTargetDate(constraint: TimeConstraint, ref: Civil) returns (r: Option<string>)
    requires Valid(ref)
    modifies constraint
    ensures constraint.kind == Reclassify(old(constraint.kind), constraint.value)
    ensures r == ResolveDate(constraint.kind, constraint.value, ref)
  {
    if constraint.kind == Absolute && Truthy(DaysMap(FirstWord(Lower(constraint.value)))) {
      constraint.kind := DayOfWeek;
    }
    r := ResolveDate(constraint.kind, constraint.value, ref);
  }

  /** `validateResolvedDate(resolvedDateStr, constraint)`. */
  function ValidateResolvedDate(resolved: string, kind: ConstraintKind, value: string): bool {
    match ParseIsoDate(resolved)
    case None => false
    case Some(d) => kind != DayOfWeek || DayNames[Weekday(d)] == Lower(value)
  }

  /** The rewrite happens exactly for an `ABSOLUTE` value whose first word is
      one of the weekday names from Monday to Saturday or an inherited member
      name; a value starting with Sunday stays `ABSOLUTE`. */
  lemma ReclassifyIff(kind: ConstraintKind, value: string)
    ensures Reclassify(kind, value) == DayOfWeek <==>
      kind == DayOfWeek ||
      (kind == Absolute && FirstWord(Lower(value)) in
        {"monday", "tuesday", "wednesday", "thursday", "friday", "saturday", "constructor", "__proto__"})
    ensures kind == Absolute && FirstWord(Lower(value)) == "sunday" ==> Reclassify(kind, value) == Absolute
  {
    var w := FirstWord(Lower(value));
    var l := DaysMap(w);
    if w == "sunday" {
      DayNamesIndex(0);
    }
    if l.DayIndex? {
      assert w == DayNames[l.n];
      DayNamesIndex(l.n);
    }
  }

  /** A value of the form `YYYY-MM-DD` is not rewritten and is returned as it
      is, whether or not it names a date that exists. */
  lemma AbsoluteIsoVerbatim(value: string, ref: Civil)
    requires Valid(ref) && IsIsoShaped(value)
    ensures Reclassify(Absolute, value) == Absolute
    ensures ResolveDate(Absolute, value, ref) == Some(value)
  {
    var w := FirstWord(Lower(value));
    assert Lower(value)[0] == value[0] && IsDigit(value[0]);
    assert |w| >= 1 && w[0] == value[0];
    assert w !in DayNames;
  }

  /** `RELATIVE`: "tomorrow" in any case is the reference date plus one day;
      "today" and every other value give the reference date. */
  lemma RelativeCases(value: string, ref: Civil)
    requires Valid(ref)
    ensures var r := ResolveDate(Relative, value, ref);
      r == Some(IsoFormat(AddDays(ref, if Lower(value) == "tomorrow" then 1 else 0)))
  {
  }

  /** `DAY_OF_WEEK` with a recognised weekday `t`: the first day from the
      reference date on (the reference date included) that falls on `t`. */
  lemma DayOfWeekResolves(value: string, ref: Civil, t: int)
    requires Valid(ref) && 0 <= t < 7 && RawDay(value) == DayNames[t]
    ensures ResolveDate(DayOfWeek, value, ref) == Some(IsoFormat(WeekdayDate(ref, t)))
    ensures var r := WeekdayDate(ref, t);
      var d := DayNumber(r) - DayNumber(ref);
      0 <= d <= 6 && Weekday(r) == t &&
      forall e :: 0 <= e < d ==> Weekday(AddDays(ref, e)) != t
  {
    DayNamesIndex(t);
    FirstWeekdayFrom(ref, 0, DaysUntil(t, Weekday(ref)), t);
  }

  /** `DAY_OF_WEEK` with text that is not a weekday falls back to the
      reference date, except that an inherited member name makes `format`
      throw. */
  lemma DayOfWeekFallback(value: string, ref: Civil)
    requires Valid(ref) && RawDay(value) !in DayNames
    ensures RawDay(value) == "constructor" || RawDay(value) == "__proto__" ==> ResolveDate(DayOfWeek, value, ref) == None
    ensures RawDay(value) != "constructor" && RawDay(value) != "__proto__" ==>
      ResolveDate(DayOfWeek, value, ref) == Some(IsoFormat(ref))
  {
  }

  /** Text after the first ` or ` is ignored: a word without whitespace
      followed by ` or ` and anything is cut back to that word. */
  lemma BeforeOrFirst(w: string, rest: string)
    requires forall i :: 0 <= i < |w| ==> !IsSpace(w[i])
    ensures BeforeOr(w + " or " + rest) == w
  {
    var s := w + " or " + rest;
    forall k | 0 <= k < |w|
      ensures !OrAt(s, k)
    {
      assert s[k] == w[k];
    }
    assert s[|w|] == ' ' && !IsSpace(s[|w| + 1]);
    assert SkipSpaces(s, |w| + 1) == |w| + 1;
    assert SkipSpaces(s, |w|) == |w| + 1;
    assert OrAt(s, |w|);
    assert FirstOr(s, 0) == |w|;
    assert s[..|w|] == w;
  }

  /** The validator fails on anything that does not parse as a calendar date
      and, for `DAY_OF_WEEK`, unless the lower-cased value is exactly the
      date's weekday name; other kinds pass whatever the value. */
  lemma ValidateCases(resolved: string, kind: ConstraintKind, value: string)
    ensures ParseIsoDate(resolved).None? ==> !ValidateResolvedDate(resolved, kind, value)
    ensures ParseIsoDate(resolved).Some? && kind != DayOfWeek ==> ValidateResolvedDate(resolved, kind, value)
    ensures kind == DayOfWeek && Lower(value) !in DayNames ==> !ValidateResolvedDate(resolved, kind, value)
    ensures kind == DayOfWeek && ValidateResolvedDate(resolved, kind, value) ==>
      DayNames[Weekday(ParseIsoDate(resolved).value)] == Lower(value)
  {
  }

  /** A name written with lower-case letters reads as itself. */
  lemma LowerName(t: int)
    requires 0 <= t < 7
    ensures Lower(DayNames[t]) == DayNames[t]
    ensures forall i :: 0 <= i < |DayNames[t]| ==> !IsSpace(DayNames[t][i])
  {
    var n := DayNames[t];
    assert forall i :: 0 <= i < |n| ==> 'a' <= n[i] <= 'z';
  }

  /** A weekday name alone, in any case, is looked up as that weekday. */
  lemma RawDayOfName(value: string, t: int)
    requires 0 <= t < 7 && Lower(value) == DayNames[t]
    ensures RawDay(value) == DayNames[t]
  {
    var n := DayNames[t];
    LowerName(t);
    forall k | 0 <= k < |n|
      ensures !OrAt(n, k)
    {
    }
    assert BeforeOr(n) == n;
    TrimNoSpace(n);
  }

  /** Soundness: a value that is a weekday name (in any case), resolved as
      `DAY_OF_WEEK`, gives a date the validator accepts, for reference dates
      from year 1 to 9993. */
  lemma WeekdaySound(value: string, ref: Civil, t: int)
    requires Valid(ref) && 1 <= ref.year <= 9993
    requires 0 <= t < 7 && Lower(value) == DayNames[t]
    ensures ResolveDate(DayOfWeek, value, ref).Some?
    ensures ValidateResolvedDate(ResolveDate(DayOfWeek, value, ref).value, DayOfWeek, value)
  {
    RawDayOfName(value, t);
    DayOfWeekResolves(value, ref, t);
    var r := WeekdayDate(ref, t);
    assert ref.year <= r.year <= ref.year + 6;
    ParseIsoFormat(r);
  }

  /** `RELATIVE` results always pass the validator (years 1 to 9998). */
  lemma RelativeSound(value: string, ref: Civil)
    requires Valid(ref) && 1 <= ref.year <= 9998
    ensures ResolveDate(Relative, value, ref).Some?
    ensures ValidateResolvedDate(ResolveDate(Relative, value, ref).value, Relative, value)
  {
    ParseIsoFormat(ref);
    ParseIsoFormat(AddDays(ref, 1));
  }

  /** An `ABSOLUTE` value shaped like a date that does not exist (30 February,
      say) is passed through and then rejected by the validator. */
  lemma AbsoluteNonexistentRejected(value: string, ref: Civil)
    requires Valid(ref) && IsIsoShaped(value) && ParseIsoDate(value).None?
    ensures ResolveDate(Reclassify(Absolute, value), value, ref) == Some(value)
    ensures !ValidateResolvedDate(value, Reclassify(Absolute, value), value)
  {
    AbsoluteIsoVerbatim(value, ref);
  }

  /** Against the resolver of `dateUtils`: both land on the next day with the
      weekday, but on that weekday itself this one keeps the reference date
      while `resolveWeekday` moves a week on. */
  lemma ContrastWithResolveWeekday(value: string, ref: Civil, t: int)
    requires Valid(ref) && 0 <= t < 7 && Lower(value) == DayNames[t]
    ensures DayNumber(ResolvedWeekday(value, ref)) ==
      DayNumber(WeekdayDate(ref, t)) + (if Weekday(ref) == t then 7 else 0)
  {
    DayNamesIndex(t);
  }

  /** The stress scenario: Monday from Thursday 2026-01-15 is 2026-01-19. */
  lemma MondayFromJan15()
    ensures ResolveDate(DayOfWeek, "Monday", Civil(2026, 1, 15)) == Some(IsoFormat(Civil(2026, 1, 19)))
  {
    var ref := Civil(2026, 1, 15);
    Weekday20260115();
    MondayLower();
    RawDayOfName("Monday", 1);
    assert DaysUntil(1, 4) == 4;
    AddDaysWithinMonth(ref, 4);
  }

  lemma MondayLower()
    ensures Lower("Monday") == DayNames[1]
  {
    var s := "Monday";
    assert Lower(s)[0] == 'm';
    assert forall i :: 1 <= i < 6 ==> Lower(s)[i] == s[i];
  }

  /** The stress scenario: "tomorrow" from 2026-01-15 is 2026-01-16. */
  lemma TomorrowFromJan15()
    ensures ResolveDate(Relative, "tomorrow", Civil(2026, 1, 15)) == Some(IsoFormat(Civil(2026, 1, 16)))
  {
    var s := "tomorrow";
    assert forall i :: 0 <= i < |s| ==> Lower(s)[i] == s[i];
    assert Lower(s) == s;
    AddDaysWithinMonth(Civil(2026, 1, 15), 1);
  }
}
