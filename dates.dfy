/**
 * The date utilities of the booking server: `parseLocalDate`, `daysInclusive`
 * and `rangesOverlap`.
 *
 * A JavaScript `Date` at local midnight is modelled as a `LocalDay`: either a
 * real calendar day or the invalid date (`NaN`) that `new Date(...)` produces
 * from text that is not a date. Every ordering comparison involving `NaN` is
 * false in JavaScript, and `LocalDay.Before` keeps that rule. Calendar days are
 * compared through their ordinal, the number of days since 0000-01-01 in the
 * proleptic Gregorian calendar.
 */
module Dates {
  import opened Wrappers

  datatype CalendarDate = CalendarDate(year: int, month: int, day: int)

  predicate IsLeapYear(y: int) {
    y % 4 == 0 && (y % 100 != 0 || y % 400 == 0)
  }

  function DaysInMonth(y: int, m: int): (n: int)
    requires 1 <= m <= 12
    ensures 28 <= n <= 31
  {
    if m == 2 then (if IsLeapYear(y) then 29 else 28)
    else if m == 4 || m == 6 || m == 9 || m == 11 then 30
    else 31
  }

  /** A date that four year digits, two month digits and two day digits can spell. */
  predicate IsValidDate(d: CalendarDate) {
    0 <= d.year <= 9999 && 1 <= d.month <= 12 && 1 <= d.day <= DaysInMonth(d.year, d.month)
  }

  type Date = d: CalendarDate | IsValidDate(d) witness CalendarDate(1970, 1, 1)

  /** Lexicographic order on (year, month, day): the order of the calendar. */
  predicate Precedes(a: CalendarDate, b: CalendarDate) {
    || a.year < b.year
    || (a.year == b.year && a.month < b.month)
    || (a.year == b.year && a.month == b.month && a.day < b.day)
  }

  // ---- Day ordinals ----

  function DaysInYear(y: int): int {
    if IsLeapYear(y) then 366 else 365
  }

  /** Number of leap years among the years 0, 1, ..., y - 1. */
  function LeapYearsBefore(y: nat): int {
    (y + 3) / 4 - (y + 99) / 100 + (y + 399) / 400
  }

  function DaysBeforeYear(y: nat): int {
    365 * y + LeapYearsBefore(y)
  }

  /** Days of year y that come before the first day of month m (m == 13: the whole year). */
  function DaysBeforeMonth(y: int, m: int): int
    requires 1 <= m <= 13
  {
    var common :=
      if m == 1 then 0 else if m == 2 then 31 else if m == 3 then 59
      else if m == 4 then 90 else if m == 5 then 120 else if m == 6 then 151
      else if m == 7 then 181 else if m == 8 then 212 else if m == 9 then 243
      else if m == 10 then 273 else if m == 11 then 304 else if m == 12 then 334
      else 365;
    common + (if m > 2 && IsLeapYear(y) then 1 else 0)
  }

  lemma DaysBeforeNextMonth(y: int, m: int)
    requires 1 <= m <= 12
    ensures DaysBeforeMonth(y, m + 1) == DaysBeforeMonth(y, m) + DaysInMonth(y, m)
    ensures DaysBeforeMonth(y, 13) == DaysInYear(y)
  {
  }

  lemma DaysBeforeMonthMonotone(y: int, m1: int, m2: int)
    requires 1 <= m1 <= m2 <= 13
    ensures DaysBeforeMonth(y, m1) <= DaysBeforeMonth(y, m2)
  {
  }

  lemma DaysBeforeNextYear(y: nat)
    ensures DaysBeforeYear(y + 1) == DaysBeforeYear(y) + DaysInYear(y)
  {
    assert (y + 4) / 4 - (y + 3) / 4 == if y % 4 == 0 then 1 else 0;
    assert (y + 100) / 100 - (y + 99) / 100 == if y % 100 == 0 then 1 else 0;
    assert (y + 400) / 400 - (y + 399) / 400 == if y % 400 == 0 then 1 else 0;
  }

  /** Whole years are laid end to end: a later year starts after an earlier one ends. */
  lemma {:induction false} DaysBeforeYearMonotone(y1: nat, y2: nat)
    requires y1 < y2
    ensures DaysBeforeYear(y1) + DaysInYear(y1) <= DaysBeforeYear(y2)
    decreases y2 - y1
  {
    DaysBeforeNextYear(y1);
    if y1 + 1 < y2 {
      DaysBeforeYearMonotone(y1 + 1, y2);
      DaysBeforeNextYear(y1 + 1);
    }
  }

  /** The number of days from 0000-01-01 to d; it lies within d's own year. */
  function Ordinal(d: Date): (n: int)
    ensures DaysBeforeYear(d.year) <= n < DaysBeforeYear(d.year) + DaysInYear(d.year)
  {
    DaysBeforeNextMonth(d.year, d.month);
    DaysBeforeMonthMonotone(d.year, d.month + 1, 13);
    DaysBeforeNextMonth(d.year, 12);
    DaysBeforeYear(d.year) + DaysBeforeMonth(d.year, d.month) + d.day - 1
  }

  /** Comparing ordinals is comparing dates on the calendar. */
  lemma OrdinalOrder(a: Date, b: Date)
    ensures Ordinal(a) < Ordinal(b) <==> Precedes(a, b)
    ensures Ordinal(a) == Ordinal(b) <==> a == b
  {
    if Precedes(a, b) {
      OrdinalPrecedes(a, b);
    } else if Precedes(b, a) {
      OrdinalPrecedes(b, a);
    }
  }

  lemma OrdinalPrecedes(a: Date, b: Date)
    requires Precedes(a, b)
    ensures Ordinal(a) < Ordinal(b)
  {
    if a.year < b.year {
      DaysBeforeYearMonotone(a.year, b.year);
    } else if a.month < b.month {
      DaysBeforeNextMonth(a.year, a.month);
      DaysBeforeMonthMonotone(a.year, a.month + 1, b.month);
    }
  }

  /** The calendar day after d (the last representable day has none). */
  function NextDate(d: Date): (r: Date)
    requires d != CalendarDate(9999, 12, 31)
  {
    if d.day < DaysInMonth(d.year, d.month) then CalendarDate(d.year, d.month, d.day + 1)
    else if d.month < 12 then CalendarDate(d.year, d.month + 1, 1)
    else CalendarDate(d.year + 1, 1, 1)
  }

  /** Consecutive calendar days have consecutive ordinals, across month and year ends. */
  lemma OrdinalNextDate(d: Date)
    requires d != CalendarDate(9999, 12, 31)
    ensures Ordinal(NextDate(d)) == Ordinal(d) + 1
  {
    DaysBeforeNextMonth(d.year, d.month);
    if d.day == DaysInMonth(d.year, d.month) && d.month == 12 {
      DaysBeforeNextYear(d.year);
    }
  }

  // ---- JavaScript Date values ----

  /** A `Date` set to local midnight: a calendar day, or `NaN` when built from a non-date. */
  datatype LocalDay = Day(date: Date) | InvalidDate {

    /** JavaScript's `this < other` on two Date objects. */
    predicate Before(other: LocalDay) {
      Day? && other.Day? && Ordinal(date) < Ordinal(other.date)
    }

    /** JavaScript's `this <= other` on two Date objects. */
    predicate NotAfter(other: LocalDay) {
      Day? && other.Day? && Ordinal(date) <= Ordinal(other.date)
    }
  }

  // ---- Text ----

  predicate IsDigit(c: char) {
    '0' <= c <= '9'
  }

  predicate AllDigits(s: string) {
    forall i :: 0 <= i < |s| ==> IsDigit(s[i])
  }

  function Pow10(k: nat): nat {
    if k == 0 then 1 else 10 * Pow10(k - 1)
  }

  /** The number a string of decimal digits denotes. */
  function DigitsValue(s: string): nat
    requires AllDigits(s)
  {
    if s == [] then 0 else DigitsValue(s[..|s| - 1]) * 10 + (s[|s| - 1] as int - '0' as int)
  }

  /** The last `width` decimal digits of n, padded with leading zeros. */
  function Digits(n: nat, width: nat): string {
    if width == 0 then [] else Digits(n / 10, width - 1) + [('0' as int + n % 10) as char]
  }

  lemma {:induction false} DigitsValueOfDigits(n: nat, width: nat)
    requires n < Pow10(width)
    ensures |Digits(n, width)| == width && AllDigits(Digits(n, width))
    ensures DigitsValue(Digits(n, width)) == n
  {
    if width > 0 {
      DigitsValueOfDigits(n / 10, width - 1);
      var s := Digits(n, width);
      assert s[..width - 1] == Digits(n / 10, width - 1);
    }
  }

  lemma {:induction false} DigitsOfDigitsValue(s: string)
    requires AllDigits(s)
    ensures DigitsValue(s) < Pow10(|s|)
    ensures Digits(DigitsValue(s), |s|) == s
  {
    if s != [] {
      var front := s[..|s| - 1];
      assert AllDigits(front);
      DigitsOfDigitsValue(front);
      var v := DigitsValue(s);
      assert v / 10 == DigitsValue(front);
      assert s == front + [s[|s| - 1]];
    }
  }

  /** The shape `YYYY-MM-DD`. */
  predicate IsDateText(t: string) {
    |t| == 10 && t[4] == '-' && t[7] == '-'
    && AllDigits(t[..4]) && AllDigits(t[5..7]) && AllDigits(t[8..])
  }

  /**
   * `parseLocalDate`: split `YYYY-MM-DD` at the dashes and build the local
   * midnight of that day. Text of any other shape, and a month or day that does
   * not exist, gives the invalid date.
   */
  function ParseLocalDate(text: string): (r: LocalDay)
    ensures !IsDateText(text) ==> r == InvalidDate
  {
    if IsDateText(text) then
      var d := CalendarDate(DigitsValue(text[..4]), DigitsValue(text[5..7]), DigitsValue(text[8..]));
      if IsValidDate(d) then Day(d) else InvalidDate
    else
      InvalidDate
  }

  /** `formatDateISO` of the booking page: the `YYYY-MM-DD` text of a day. */
  function FormatDate(d: Date): (t: string)
    ensures IsDateText(t)
  {
    DigitsValueOfDigits(d.year, 4);
    DigitsValueOfDigits(d.month, 2);
    DigitsValueOfDigits(d.day, 2);
    var t := Digits(d.year, 4) + "-" + Digits(d.month, 2) + "-" + Digits(d.day, 2);
    assert t[..4] == Digits(d.year, 4) && t[5..7] == Digits(d.month, 2) && t[8..] == Digits(d.day, 2);
    t
  }

  /** Parsing the text of a day gives that day back. */
  lemma ParseFormat(d: Date)
    ensures IsDateText(FormatDate(d))
    ensures ParseLocalDate(FormatDate(d)) == Day(d)
  {
    var t := FormatDate(d);
    DigitsValueOfDigits(d.year, 4);
    DigitsValueOfDigits(d.month, 2);
    DigitsValueOfDigits(d.day, 2);
    assert t[..4] == Digits(d.year, 4);
    assert t[5..7] == Digits(d.month, 2);
    assert t[8..] == Digits(d.day, 2);
  }

  /** Text that parses to a day is exactly that day's text: no two texts name one day. */
  lemma FormatParse(t: string)
    requires ParseLocalDate(t).Day?
    ensures FormatDate(ParseLocalDate(t).date) == t
  {
    DigitsOfDigitsValue(t[..4]);
    DigitsOfDigitsValue(t[5..7]);
    DigitsOfDigitsValue(t[8..]);
    assert t == t[..4] + "-" + t[5..7] + "-" + t[8..];
  }

  /** The date part of a timestamp: the text before the first 'T', or all of it. */
  function DateOnly(s: string): (r: string)
    ensures r <= s && 'T' !in r
    ensures |r| < |s| ==> s[|r|] == 'T'
  {
    if s == [] || s[0] == 'T' then [] else [s[0]] + DateOnly(s[1..])
  }

  /** An ISO timestamp keeps its date part, and a bare date is left as it is. */
  lemma {:induction false} DateOnlyOfTimestamp(d: Date, rest: string)
    ensures DateOnly(FormatDate(d)) == FormatDate(d)
    ensures DateOnly(FormatDate(d) + "T" + rest) == FormatDate(d)
  {
    var t := FormatDate(d);
    ParseFormat(d);
    assert forall i :: 0 <= i < |t| ==> t[i] != 'T' by {
      assert t == t[..4] + "-" + t[5..7] + "-" + t[8..];
    }
    DateOnlyOfTextWithoutT(t, []);
    DateOnlyOfTextWithoutT(t, "T" + rest);
    assert t + "T" + rest == t + ("T" + rest);
  }

  lemma {:induction false} DateOnlyOfTextWithoutT(t: string, rest: string)
    requires forall i :: 0 <= i < |t| ==> t[i] != 'T'
    requires rest == [] || rest[0] == 'T'
    ensures DateOnly(t + rest) == t
  {
    if t != [] {
      assert (t + rest)[1..] == t[1..] + rest;
      DateOnlyOfTextWithoutT(t[1..], rest);
    }
  }

  // ---- The three utilities ----

  /**
   * `daysInclusive(startISO, endISO)`: the ordinal difference plus one, or
   * `None` where JavaScript computes `NaN` because either text is not a date.
   */
  function DaysInclusive(startText: string, endText: string): (r: Option<int>)
    ensures r.Some? <==> ParseLocalDate(startText).Day? && ParseLocalDate(endText).Day?
    ensures r.Some? ==> (r.value >= 1 <==> !ParseLocalDate(endText).Before(ParseLocalDate(startText)))
  {
    var s := ParseLocalDate(startText);
    var e := ParseLocalDate(endText);
    if s.Day? && e.Day? then Some(Ordinal(e.date) - Ordinal(s.date) + 1) else None
  }

  /** A range of a single day has one day. */
  lemma DaysInclusiveSingleDay(d: Date)
    ensures DaysInclusive(FormatDate(d), FormatDate(d)) == Some(1)
  {
    ParseFormat(d);
  }

  /** Moving the end of a range one calendar day later adds exactly one day. */
  lemma DaysInclusiveNextDay(s: Date, e: Date)
    requires e != CalendarDate(9999, 12, 31)
    ensures DaysInclusive(FormatDate(s), FormatDate(e)).Some?
    ensures DaysInclusive(FormatDate(s), FormatDate(NextDate(e))).Some?
    ensures DaysInclusive(FormatDate(s), FormatDate(NextDate(e))).value
         == DaysInclusive(FormatDate(s), FormatDate(e)).value + 1
  {
    ParseFormat(s);
    ParseFormat(e);
    ParseFormat(NextDate(e));
    OrdinalNextDate(e);
  }

  // ---- Counting days on the real time line ----

  /** Milliseconds in a day of 24 hours: 24 * 60 * 60 * 1000. */
  const MS_PER_DAY: int := 86400000

  /**
   * Local midnight of `d` as milliseconds on the UTC time line, in a time zone
   * that is `offsetMs` ahead of UTC at that moment (Central European Summer
   * Time is 7200000 ahead, Central European Time 3600000).
   */
  function LocalMidnight(d: Date, offsetMs: int): int {
    Ordinal(d) * MS_PER_DAY - offsetMs
  }

  /** `Math.ceil` of a span in days: the least whole number of days that is not shorter. */
  function CeilDays(ms: int): (r: int)
    ensures (r - 1) * MS_PER_DAY < ms <= r * MS_PER_DAY
  {
    -((-ms) / MS_PER_DAY)
  }

  /** `Math.round` of a span in days: the nearest whole number of days, a half rounded up. */
  function RoundDays(ms: int): (r: int)
    ensures r * MS_PER_DAY - MS_PER_DAY / 2 <= ms < r * MS_PER_DAY + MS_PER_DAY / 2
  {
    (ms + MS_PER_DAY / 2) / MS_PER_DAY
  }

  /**
   * `daysInclusive` as written, for two real days: the time between their local
   * midnights rounded up to whole days, plus one. The offsets are the time
   * zone's distance from UTC at the start and at the end. With one offset
   * throughout, or across the spring change of clocks, this is the calendar
   * count; across the autumn change, where the offset drops, the last day is
   * 25 hours long and the count is one too many.
   */
  function DaysInclusiveAsWritten(s: Date, e: Date, offsetS: int, offsetE: int): (r: int)
    ensures -MS_PER_DAY < offsetS - offsetE < MS_PER_DAY ==>
              r == Ordinal(e) - Ordinal(s) + (if offsetS > offsetE then 2 else 1)
  {
    var k := Ordinal(e) - Ordinal(s);
    assert LocalMidnight(e, offsetE) - LocalMidnight(s, offsetS) == k * MS_PER_DAY + (offsetS - offsetE);
    CeilDays(LocalMidnight(e, offsetE) - LocalMidnight(s, offsetS)) + 1
  }

  /**
   * In Stockholm, 2024-10-26 to 2024-10-28 is three days, but summer time ends
   * on 2024-10-27 and the code as written counts four.
   */
  lemma AutumnChangeExample()
    ensures DaysInclusiveAsWritten(CalendarDate(2024, 10, 26), CalendarDate(2024, 10, 28), 7200000, 3600000) == 4
    ensures DaysInclusive(FormatDate(CalendarDate(2024, 10, 26)), FormatDate(CalendarDate(2024, 10, 28))) == Some(3)
  {
    var s := CalendarDate(2024, 10, 26);
    var e := CalendarDate(2024, 10, 28);
    assert Ordinal(e) - Ordinal(s) == 2;
    ParseFormat(s);
    ParseFormat(e);
  }

  /** The count rounded to the nearest day, as the code evidently intends. */
  function DaysInclusiveRounded(s: Date, e: Date, offsetS: int, offsetE: int): int {
    RoundDays(LocalMidnight(e, offsetE) - LocalMidnight(s, offsetS)) + 1
  }

  /**
   * Rounding counts calendar days whatever change of clocks lies inside the
   * range, as long as it moves the offset by less than half a day; that count
   * is `DaysInclusive`, which the rest of the model uses.
   */
  lemma RoundedCountsCalendarDays(s: Date, e: Date, offsetS: int, offsetE: int)
    requires -MS_PER_DAY / 2 < offsetS - offsetE < MS_PER_DAY / 2
    ensures DaysInclusiveRounded(s, e, offsetS, offsetE) == Ordinal(e) - Ordinal(s) + 1
    ensures DaysInclusive(FormatDate(s), FormatDate(e)) == Some(DaysInclusiveRounded(s, e, offsetS, offsetE))
  {
    var k := Ordinal(e) - Ordinal(s);
    assert LocalMidnight(e, offsetE) - LocalMidnight(s, offsetS) == k * MS_PER_DAY + (offsetS - offsetE);
    ParseFormat(s);
    ParseFormat(e);
  }

  /**
   * Two ranges of parsed days overlap unless one ends before the other starts.
   * On real days: each starts no later than the other ends. A range whose ends
   * are both `NaN` overlaps every range, since every comparison with it is false.
   */
  predicate DaysOverlap(a1: LocalDay, b1: LocalDay, a2: LocalDay, b2: LocalDay)
    ensures a1.Day? && b1.Day? && a2.Day? && b2.Day? ==>
              (DaysOverlap(a1, b1, a2, b2) <==>
                 Ordinal(a2.date) <= Ordinal(b1.date) && Ordinal(a1.date) <= Ordinal(b2.date))
    ensures a1.InvalidDate? && b1.InvalidDate? ==> DaysOverlap(a1, b1, a2, b2)
  {
    !(b1.Before(a2) || b2.Before(a1))
  }

  /** `rangesOverlap`: do the closed ranges [s1, e1] and [s2, e2] meet? Text that is not a date meets everything. */
  predicate RangesOverlap(s1: string, e1: string, s2: string, e2: string)
    ensures !IsDateText(s1) && !IsDateText(e1) ==> RangesOverlap(s1, e1, s2, e2)
  {
    DaysOverlap(ParseLocalDate(s1), ParseLocalDate(e1), ParseLocalDate(s2), ParseLocalDate(e2))
  }

  lemma RangesOverlapSymmetric(s1: string, e1: string, s2: string, e2: string)
    ensures RangesOverlap(s1, e1, s2, e2) == RangesOverlap(s2, e2, s1, e1)
  {
  }

  /** A range overlaps itself unless it ends before it starts. */
  lemma RangesOverlapReflexive(s: string, e: string)
    ensures RangesOverlap(s, e, s, e) <==> !ParseLocalDate(e).Before(ParseLocalDate(s))
  {
  }

  /** Ranges that only share their boundary day still overlap. */
  lemma RangesOverlapTouching(a: Date, b: Date, c: Date)
    requires Ordinal(a) <= Ordinal(b) <= Ordinal(c)
    ensures RangesOverlap(FormatDate(a), FormatDate(b), FormatDate(b), FormatDate(c))
  {
    ParseFormat(a);
    ParseFormat(b);
    ParseFormat(c);
    assert DaysOverlap(Day(a), Day(b), Day(b), Day(c));
  }

  /** On real, ordered ranges the test is exactly "some calendar day lies in both". */
  lemma RangesOverlapCommonDay(s1: Date, e1: Date, s2: Date, e2: Date)
    requires Ordinal(s1) <= Ordinal(e1) && Ordinal(s2) <= Ordinal(e2)
    ensures RangesOverlap(FormatDate(s1), FormatDate(e1), FormatDate(s2), FormatDate(e2))
       <==> exists d: Date :: Ordinal(s1) <= Ordinal(d) <= Ordinal(e1) && Ordinal(s2) <= Ordinal(d) <= Ordinal(e2)
  {
    ParseFormat(s1);
    ParseFormat(e1);
    ParseFormat(s2);
    ParseFormat(e2);
    if RangesOverlap(FormatDate(s1), FormatDate(e1), FormatDate(s2), FormatDate(e2)) {
      var d := if Ordinal(s1) <= Ordinal(s2) then s2 else s1;
      assert Ordinal(s1) <= Ordinal(d) <= Ordinal(e1) && Ordinal(s2) <= Ordinal(d) <= Ordinal(e2);
    }
  }
}
