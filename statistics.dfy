/**
 * `GET /api/statistics`: bookings and revenue per month of one year.
 *
 * A booking is counted when its start year or its end year is the target year;
 * it is attributed, with all its days, to the month it starts in. A counted
 * booking whose dates are not both real dates spoils the answer: a `NaN` start
 * month indexes no month and the handler throws, a `NaN` end makes the revenue
 * `NaN`. The model reports both as `None`.
 */
module Statistics {
  import opened Wrappers
  import opened Dates
  import opened Store

  datatype MonthStat = MonthStat(count: int, revenue: int)

  datatype YearStats = YearStats(year: int, months: seq<MonthStat>, totalBookings: int, totalRevenue: int)

  /**
   * The handler's filter: the booking starts or ends in the target year. A
   * booking neither of whose dates is a date is never counted.
   */
  predicate InYear(b: Entry, year: int)
    ensures InYear(b, year) ==> ParseLocalDate(b.startDate).Day? || ParseLocalDate(b.endDate).Day?
  {
    var s := ParseLocalDate(b.startDate);
    var e := ParseLocalDate(b.endDate);
    (s.Day? && s.date.year == year) || (e.Day? && e.date.year == year)
  }

  /** A counted booking with a date that is not a date. */
  predicate Spoils(b: Entry, year: int) {
    InYear(b, year) && DaysInclusive(b.startDate, b.endDate).None?
  }

  /** A counted booking whose days can be counted. */
  predicate Tallied(b: Entry, year: int) {
    InYear(b, year) && DaysInclusive(b.startDate, b.endDate).Some?
  }

  /** The month the booking starts in, from 0 for January to 11 for December. */
  function StartMonth(b: Entry): (m: int)
    requires ParseLocalDate(b.startDate).Day?
    ensures 0 <= m < 12
  {
    ParseLocalDate(b.startDate).date.month - 1
  }

  /** What one booking adds to the revenue: its days times the daily rate. */
  function Revenue(b: Entry, dailyRate: int): int
    requires DaysInclusive(b.startDate, b.endDate).Some?
  {
    DaysInclusive(b.startDate, b.endDate).value * dailyRate
  }

  /** The number of tallied bookings of `bs` that start in month m. */
  function MonthCount(bs: seq<Entry>, year: int, m: int): nat {
    if bs == [] then 0
    else
      var b := bs[|bs| - 1];
      MonthCount(bs[..|bs| - 1], year, m) + (if Tallied(b, year) && StartMonth(b) == m then 1 else 0)
  }

  /** The revenue of the tallied bookings of `bs` that start in month m. */
  function MonthRevenue(bs: seq<Entry>, year: int, m: int, dailyRate: int): int {
    if bs == [] then 0
    else
      var b := bs[|bs| - 1];
      MonthRevenue(bs[..|bs| - 1], year, m, dailyRate)
      + (if Tallied(b, year) && StartMonth(b) == m then Revenue(b, dailyRate) else 0)
  }

  /** The twelve months of the report. */
  function MonthsOf(bs: seq<Entry>, year: int, dailyRate: int): (months: seq<MonthStat>)
    ensures |months| == 12
  {
    seq(12, m => MonthStat(MonthCount(bs, year, m), MonthRevenue(bs, year, m, dailyRate)))
  }

  /** The number of tallied bookings, whatever their month. */
  function TalliedCount(bs: seq<Entry>, year: int): nat {
    if bs == [] then 0
    else TalliedCount(bs[..|bs| - 1], year) + (if Tallied(bs[|bs| - 1], year) then 1 else 0)
  }

  /** The revenue of all tallied bookings, whatever their month. */
  function TalliedRevenue(bs: seq<Entry>, year: int, dailyRate: int): int {
    if bs == [] then 0
    else
      var b := bs[|bs| - 1];
      TalliedRevenue(bs[..|bs| - 1], year, dailyRate) + (if Tallied(b, year) then Revenue(b, dailyRate) else 0)
  }

  /** The total count of the twelve months. */
  function SumCounts(months: seq<MonthStat>): int {
    if months == [] then 0 else SumCounts(months[..|months| - 1]) + months[|months| - 1].count
  }

  /** The total revenue of the twelve months. */
  function SumRevenue(months: seq<MonthStat>): int {
    if months == [] then 0 else SumRevenue(months[..|months| - 1]) + months[|months| - 1].revenue
  }

  /** Adding to one month adds the same to the totals. */
  lemma {:induction false} SumsAfterAdding(months: seq<MonthStat>, k: int, count: int, revenue: int)
    requires 0 <= k < |months|
    ensures var updated := months[k := MonthStat(months[k].count + count, months[k].revenue + revenue)];
            SumCounts(updated) == SumCounts(months) + count
            && SumRevenue(updated) == SumRevenue(months) + revenue
  {
    var updated := months[k := MonthStat(months[k].count + count, months[k].revenue + revenue)];
    var n := |months|;
    if k < n - 1 {
      assert updated[..n - 1] == months[..n - 1][k := MonthStat(months[k].count + count, months[k].revenue + revenue)];
      SumsAfterAdding(months[..n - 1], k, count, revenue);
    } else {
      assert updated[..n - 1] == months[..n - 1];
    }
  }

  /** A further booking adds to its start month alone, and only when it is tallied. */
  lemma MonthsOfAppend(bs: seq<Entry>, b: Entry, year: int, dailyRate: int)
    ensures var before := MonthsOf(bs, year, dailyRate);
            MonthsOf(bs + [b], year, dailyRate)
            == if Tallied(b, year)
               then before[StartMonth(b) := MonthStat(before[StartMonth(b)].count + 1,
                                                      before[StartMonth(b)].revenue + Revenue(b, dailyRate))]
               else before
  {
    assert (bs + [b])[..|bs + [b]| - 1] == bs;
  }

  lemma MonthStep(bs: seq<Entry>, b: Entry, year: int, m: int, dailyRate: int)
    ensures MonthCount(bs + [b], year, m)
            == MonthCount(bs, year, m) + (if Tallied(b, year) && StartMonth(b) == m then 1 else 0)
    ensures MonthRevenue(bs + [b], year, m, dailyRate)
            == MonthRevenue(bs, year, m, dailyRate) + (if Tallied(b, year) && StartMonth(b) == m then Revenue(b, dailyRate) else 0)
  {
    assert (bs + [b])[..|bs + [b]| - 1] == bs;
  }

  /** Each tallied booking lands in exactly one month, so the months add up to the whole. */
  lemma {:induction false} MonthsAddUp(bs: seq<Entry>, year: int, dailyRate: int)
    ensures SumCounts(MonthsOf(bs, year, dailyRate)) == TalliedCount(bs, year)
    ensures SumRevenue(MonthsOf(bs, year, dailyRate)) == TalliedRevenue(bs, year, dailyRate)
  {
    if bs == [] {
      var months := MonthsOf(bs, year, dailyRate);
      assert forall m :: 0 <= m < 12 ==> months[m] == MonthStat(0, 0);
      ZeroSums(months);
    } else {
      var front := bs[..|bs| - 1];
      MonthsAddUp(front, year, dailyRate);
      assert bs == front + [bs[|bs| - 1]];
      AddingOneBookingAddsUp(front, bs[|bs| - 1], year, dailyRate);
    }
  }

  /** One more booking adds its count and revenue to the twelve months and to the totals alike. */
  lemma AddingOneBookingAddsUp(front: seq<Entry>, b: Entry, year: int, dailyRate: int)
    requires SumCounts(MonthsOf(front, year, dailyRate)) == TalliedCount(front, year)
    requires SumRevenue(MonthsOf(front, year, dailyRate)) == TalliedRevenue(front, year, dailyRate)
    ensures SumCounts(MonthsOf(front + [b], year, dailyRate)) == TalliedCount(front + [b], year)
    ensures SumRevenue(MonthsOf(front + [b], year, dailyRate)) == TalliedRevenue(front + [b], year, dailyRate)
  {
    var bs := front + [b];
    assert bs[..|bs| - 1] == front;
    var before := MonthsOf(front, year, dailyRate);
    MonthsOfAppend(front, b, year, dailyRate);
    if Tallied(b, year) {
      var k := StartMonth(b);
      SumsAfterAdding(before, k, 1, Revenue(b, dailyRate));
      assert MonthsOf(bs, year, dailyRate)
          == before[k := MonthStat(before[k].count + 1, before[k].revenue + Revenue(b, dailyRate))];
    } else {
      assert MonthsOf(bs, year, dailyRate) == before;
    }
  }

  lemma {:induction false} ZeroSums(months: seq<MonthStat>)
    requires forall m :: 0 <= m < |months| ==> months[m] == MonthStat(0, 0)
    ensures SumCounts(months) == 0 && SumRevenue(months) == 0
  {
    if months != [] {
      ZeroSums(months[..|months| - 1]);
    }
  }

  /** Which counted bookings spoil the report and which are tallied, in terms of their two days. */
  lemma SpoilsOrTallied(b: Entry, year: int)
    ensures var s := ParseLocalDate(b.startDate);
            var e := ParseLocalDate(b.endDate);
            && (Spoils(b, year) <==> InYear(b, year) && (s.InvalidDate? || e.InvalidDate?))
            && (Tallied(b, year) <==> InYear(b, year) && s.Day? && e.Day?)
  {
  }

  /** The month and the revenue of a tallied booking, in terms of its two days. */
  lemma TalliedValues(b: Entry, year: int, dailyRate: int)
    requires Tallied(b, year)
    ensures var s := ParseLocalDate(b.startDate).date;
            var e := ParseLocalDate(b.endDate).date;
            && StartMonth(b) == s.month - 1
            && Revenue(b, dailyRate) == (Ordinal(e) - Ordinal(s) + 1) * dailyRate
  {
  }

  /**
   * The `forEach` callback on one booking. It reports `false` where the source
   * throws: a counted booking whose start is not a date has no month.
   */
  method CountBooking(months: array<MonthStat>, b: Entry, year: int, dailyRate: int) returns (completed: bool)
    requires months.Length == 12
    modifies months
    ensures completed <==> !(InYear(b, year) && ParseLocalDate(b.startDate).InvalidDate?)
    ensures forall m :: 0 <= m < 12 ==>
              months[m] == if Tallied(b, year) && StartMonth(b) == m
                           then MonthStat(old(months[m]).count + 1, old(months[m]).revenue + Revenue(b, dailyRate))
                           else old(months[m])
  {
    var start := ParseLocalDate(b.startDate);
    var end := ParseLocalDate(b.endDate);
    if !InYear(b, year) {
      return true;
    }
    if start.InvalidDate? {
      return false;
    }
    SpoilsOrTallied(b, year);
    if end.Day? {
      TalliedValues(b, year, dailyRate);
      var k := start.date.month - 1;
      var days := Ordinal(end.date) - Ordinal(start.date) + 1;
      months[k] := MonthStat(months[k].count + 1, months[k].revenue + days * dailyRate);
    }
    return true;
  }

  /**
   * The statistics of `year`, or `None` where the handler fails or reports
   * `NaN` because a counted booking has a date that is not a date.
   */
  method ComputeStatistics(bookings: seq<Entry>, year: int, dailyRate: int) returns (stats: Option<YearStats>)
    ensures stats.None? <==> exists i :: 0 <= i < |bookings| && Spoils(bookings[i], year)
    ensures stats.Some? ==>
              && stats.value.year == year
              && |stats.value.months| == 12
              && (forall m :: 0 <= m < 12 ==>
                    stats.value.months[m] == MonthStat(MonthCount(bookings, year, m), MonthRevenue(bookings, year, m, dailyRate)))
              && stats.value.totalBookings == SumCounts(stats.value.months) == TalliedCount(bookings, year)
              && stats.value.totalRevenue == SumRevenue(stats.value.months) == TalliedRevenue(bookings, year, dailyRate)
  {
    var months := new MonthStat[12](_ => MonthStat(0, 0));
    var spoiled := false;
    var i := 0;
    while i < |bookings|
      invariant 0 <= i <= |bookings|
      invariant forall m :: 0 <= m < 12 ==>
                  months[m] == MonthStat(MonthCount(bookings[..i], year, m), MonthRevenue(bookings[..i], year, m, dailyRate))
      invariant spoiled <==> exists j :: 0 <= j < i && Spoils(bookings[j], year)
    {
      var b := bookings[i];
      assert bookings[..i + 1] == bookings[..i] + [b];
      var completed := CountBooking(months, b, year, dailyRate);
      if !completed {
        return None;
      }
      if Spoils(b, year) {
        spoiled := true;
      }
      forall m | 0 <= m < 12
        ensures months[m] == MonthStat(MonthCount(bookings[..i + 1], year, m),
                                       MonthRevenue(bookings[..i + 1], year, m, dailyRate))
      {
        MonthStep(bookings[..i], b, year, m, dailyRate);
      }
      i := i + 1;
    }
    assert bookings[..i] == bookings;
    if spoiled {
      return None;
    }
    var ms := months[..];
    assert ms == MonthsOf(bookings, year, dailyRate);
    MonthsAddUp(bookings, year, dailyRate);
    stats := Some(YearStats(year, ms, SumCounts(ms), SumRevenue(ms)));
  }

  /**
   * One booking from 2024-03-10 to 2024-03-12 at the default rate: March of
   * 2024 has one booking and 3 * 550 = 1650 SEK, and nothing spoils the report.
   */
  lemma MarchExample()
    ensures var b := Entry("1", FormatDate(CalendarDate(2024, 3, 10)), FormatDate(CalendarDate(2024, 3, 12)), None);
            && !Spoils(b, 2024)
            && MonthCount([b], 2024, 2) == 1
            && MonthRevenue([b], 2024, 2, DEFAULT_DAILY_RATE_SEK) == 1650
  {
    var b := Entry("1", FormatDate(CalendarDate(2024, 3, 10)), FormatDate(CalendarDate(2024, 3, 12)), None);
    ParseFormat(CalendarDate(2024, 3, 10));
    ParseFormat(CalendarDate(2024, 3, 12));
    assert Ordinal(CalendarDate(2024, 3, 12)) - Ordinal(CalendarDate(2024, 3, 10)) == 2;
    assert [b][..0] == [];
  }
}
