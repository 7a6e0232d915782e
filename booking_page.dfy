/**
 * The calendar of the booking page: the unavailable ranges it loads from the
 * server, its overlap and "is this day taken" tests, the two-click selection of
 * a stay and the dates the booking form sends.
 *
 * The calendar widget reports a click as the `YYYY-MM-DD` text of a real day,
 * so a clicked day is a `Date`. The ranges arrive as the text the server
 * stored and are read with `ParseLocalDate`; a range whose text is not a date
 * holds the invalid date, with which every comparison is false.
 */
module BookingPage {
  import opened Wrappers
  import opened Dates
  import opened Store

  /** One entry of `unavailableRanges`: the first and last taken day, as text. */
  datatype UnavailableRange = UnavailableRange(start: string, end: string)

  /** The ranges `loadAvailability` collects: one per booking and block, in that order. */
  function RangesOf(entries: seq<Entry>): (r: seq<UnavailableRange>)
    ensures |r| == |entries|
    ensures forall i :: 0 <= i < |entries| ==> r[i].start == entries[i].startDate && r[i].end == entries[i].endDate
  {
    seq(|entries|, i requires 0 <= i < |entries| => UnavailableRange(entries[i].startDate, entries[i].endDate))
  }

  /**
   * `isOverlapping(start, end)`: does the stay [s, e] meet some unavailable
   * range? Nothing overlaps when there are no ranges, and a stay whose ends
   * are `NaN` overlaps as soon as there is one.
   */
  predicate IsOverlapping(ranges: seq<UnavailableRange>, s: LocalDay, e: LocalDay)
    ensures |ranges| == 0 ==> !IsOverlapping(ranges, s, e)
    ensures |ranges| > 0 && s.InvalidDate? && e.InvalidDate? ==> IsOverlapping(ranges, s, e)
  {
    assert |ranges| > 0 && s.InvalidDate? && e.InvalidDate? ==>
      DaysOverlap(s, e, ParseLocalDate(ranges[0].start), ParseLocalDate(ranges[0].end));
    exists i :: 0 <= i < |ranges| && DaysOverlap(s, e, ParseLocalDate(ranges[i].start), ParseLocalDate(ranges[i].end))
  }

  /**
   * The `isBooked` test of a click: does day `d` lie inside some unavailable
   * range? A taken day is a one-day stay that overlaps the ranges.
   */
  predicate IsBooked(ranges: seq<UnavailableRange>, d: Date)
    ensures IsBooked(ranges, d) ==> IsOverlapping(ranges, Day(d), Day(d))
  {
    assert forall i :: 0 <= i < |ranges| && InRange(ranges[i], d) ==>
      DaysOverlap(Day(d), Day(d), ParseLocalDate(ranges[i].start), ParseLocalDate(ranges[i].end));
    exists i :: 0 <= i < |ranges| && InRange(ranges[i], d)
  }

  /**
   * Day `d` is not before the first day of `r` and not after its last; a
   * range with an end that is not a date contains no day.
   */
  predicate InRange(r: UnavailableRange, d: Date)
    ensures InRange(r, d) ==>
              && ParseLocalDate(r.start).Day? && ParseLocalDate(r.end).Day?
              && Ordinal(ParseLocalDate(r.start).date) <= Ordinal(d) <= Ordinal(ParseLocalDate(r.end).date)
  {
    ParseLocalDate(r.start).NotAfter(Day(d)) && Day(d).NotAfter(ParseLocalDate(r.end))
  }

  /**
   * The page asks the same question as the server: a stay overlaps the loaded
   * ranges exactly when `/api/book` would find a collision with the bookings
   * and blocks they came from, as long as every stored text is a real date
   * (text with a time part is read differently by the page).
   */
  lemma OverlapAgreesWithServer(entries: seq<Entry>, s: Date, e: Date)
    requires forall i :: 0 <= i < |entries| ==>
               ParseLocalDate(entries[i].startDate).Day? && ParseLocalDate(entries[i].endDate).Day?
    ensures IsOverlapping(RangesOf(entries), Day(s), Day(e)) == HasCollision(entries, FormatDate(s), FormatDate(e))
  {
    ParseFormat(s);
    ParseFormat(e);
    var ranges := RangesOf(entries);
    forall i | 0 <= i < |entries|
      ensures DaysOverlap(Day(s), Day(e), ParseLocalDate(ranges[i].start), ParseLocalDate(ranges[i].end))
              == RangesOverlap(FormatDate(s), FormatDate(e), entries[i].startDate, entries[i].endDate)
    {
    }
  }

  /** A stay that contains a taken day overlaps the ranges. */
  lemma BookedDayOverlaps(ranges: seq<UnavailableRange>, s: Date, e: Date, d: Date)
    requires Ordinal(s) <= Ordinal(d) <= Ordinal(e)
    requires IsBooked(ranges, d)
    ensures IsOverlapping(ranges, Day(s), Day(e))
  {
    var i :| 0 <= i < |ranges| && InRange(ranges[i], d);
    assert DaysOverlap(Day(s), Day(e), ParseLocalDate(ranges[i].start), ParseLocalDate(ranges[i].end));
  }

  /** Every range is two real days in order. */
  predicate WellFormed(ranges: seq<UnavailableRange>) {
    forall i :: 0 <= i < |ranges| ==>
      var rs := ParseLocalDate(ranges[i].start);
      var re := ParseLocalDate(ranges[i].end);
      rs.Day? && re.Day? && Ordinal(rs.date) <= Ordinal(re.date)
  }

  /** On well-formed ranges, an overlapping stay contains a taken day. */
  lemma OverlapHasBookedDay(ranges: seq<UnavailableRange>, s: Date, e: Date)
    requires WellFormed(ranges)
    requires Ordinal(s) <= Ordinal(e)
    requires IsOverlapping(ranges, Day(s), Day(e))
    ensures exists d: Date :: Ordinal(s) <= Ordinal(d) <= Ordinal(e) && IsBooked(ranges, d)
  {
    var i :| 0 <= i < |ranges| && DaysOverlap(Day(s), Day(e), ParseLocalDate(ranges[i].start), ParseLocalDate(ranges[i].end));
    var rs := ParseLocalDate(ranges[i].start).date;
    var d := if Ordinal(s) <= Ordinal(rs) then rs else s;
    assert InRange(ranges[i], d);
  }

  /**
   * On well-formed ranges the overlap test is exactly "the stay contains a
   * taken day". A range that is not a date, on the other hand, overlaps every
   * stay while containing no day at all.
   */
  lemma OverlapIffBookedDay(ranges: seq<UnavailableRange>, s: Date, e: Date)
    requires WellFormed(ranges)
    requires Ordinal(s) <= Ordinal(e)
    ensures IsOverlapping(ranges, Day(s), Day(e))
        <==> exists d: Date :: Ordinal(s) <= Ordinal(d) <= Ordinal(e) && IsBooked(ranges, d)
  {
    if IsOverlapping(ranges, Day(s), Day(e)) {
      OverlapHasBookedDay(ranges, s, e);
    }
    if exists d: Date :: Ordinal(s) <= Ordinal(d) <= Ordinal(e) && IsBooked(ranges, d) {
      var d: Date :| Ordinal(s) <= Ordinal(d) <= Ordinal(e) && IsBooked(ranges, d);
      BookedDayOverlaps(ranges, s, e, d);
    }
  }

  /**
   * A range whose two texts are not dates to `ParseLocalDate` blocks every
   * stay, yet marks no day as taken.
   */
  lemma InvalidRangeBlocksEverything(ranges: seq<UnavailableRange>, i: nat, s: Date, e: Date)
    requires i < |ranges|
    requires ParseLocalDate(ranges[i].start).InvalidDate? && ParseLocalDate(ranges[i].end).InvalidDate?
    ensures IsOverlapping(ranges, Day(s), Day(e))
    ensures !InRange(ranges[i], s)
  {
    assert DaysOverlap(Day(s), Day(e), ParseLocalDate(ranges[i].start), ParseLocalDate(ranges[i].end));
  }

  /** The text of an ordered stay from today on passes the date checks of `/api/book`. */
  lemma OrderedStayPassesChecks(s: Date, e: Date, today: Date, name: string, phone: string, email: string, manual: bool)
    requires Ordinal(today) <= Ordinal(s) <= Ordinal(e)
    requires name != "" && phone != "" && email != ""
    ensures CheckBookRequest(BookRequest(FormatDate(s), FormatDate(e), name, phone, email, manual), today).None?
    ensures DaysInclusive(FormatDate(s), FormatDate(e)) == Some(Ordinal(e) - Ordinal(s) + 1)
  {
    DateOnlyOfTimestamp(s, []);
    DateOnlyOfTimestamp(e, []);
    ParseFormat(s);
    ParseFormat(e);
    assert HasAllFields(BookRequest(FormatDate(s), FormatDate(e), name, phone, email, manual));
  }

  /** The state of the booking page: the loaded ranges and the stay picked so far. */
  class DatePicker {
    var unavailableRanges: seq<UnavailableRange>
    var startDate: Option<Date>
    var endDate: Option<Date>

    /**
     * What the clicks maintain: an end only after a start, a start on a free
     * day, and an end not before the start with no taken range in between.
     */
    ghost predicate Valid()
      reads this
    {
      (endDate.Some? ==> startDate.Some?)
      && (startDate.Some? ==> !IsBooked(unavailableRanges, startDate.value))
      && (endDate.Some? ==>
            Ordinal(startDate.value) <= Ordinal(endDate.value)
            && !IsOverlapping(unavailableRanges, Day(startDate.value), Day(endDate.value)))
    }

    /** Page load: nothing picked, then `loadAvailability` with the server's lists. */
    constructor (bookings: seq<Entry>, blocks: seq<Entry>)
      ensures Valid()
      ensures startDate == None && endDate == None
      ensures unavailableRanges == RangesOf(bookings + blocks)
    {
      startDate, endDate := None, None;
      unavailableRanges := [];
      new;
      LoadAvailability(bookings, blocks);
    }

    /** `loadAvailability`: one range per booking, then one per block. */
    method LoadAvailability(bookings: seq<Entry>, blocks: seq<Entry>)
      modifies this
      ensures unavailableRanges == RangesOf(bookings + blocks)
      ensures startDate == old(startDate) && endDate == old(endDate)
    {
      var all := bookings + blocks;
      unavailableRanges := [];
      var i := 0;
      while i < |all|
        invariant 0 <= i <= |all|
        invariant unavailableRanges == RangesOf(all[..i])
        invariant startDate == old(startDate) && endDate == old(endDate)
      {
        unavailableRanges := unavailableRanges + [UnavailableRange(all[i].startDate, all[i].endDate)];
        i := i + 1;
      }
      assert all[..i] == all;
    }

    /** The days `showSelection` marks: from the start to the end, or the start alone. */
    predicate Highlighted(d: Date)
      reads this
    {
      startDate.Some?
      && var last := if endDate.Some? then endDate.value else startDate.value;
         Ordinal(startDate.value) <= Ordinal(d) <= Ordinal(last)
    }

    /** No marked day is taken. */
    lemma HighlightedDaysAreFree(d: Date)
      requires Valid()
      requires Highlighted(d)
      ensures !IsBooked(unavailableRanges, d)
    {
      if endDate.Some? && IsBooked(unavailableRanges, d) {
        BookedDayOverlaps(unavailableRanges, startDate.value, endDate.value, d);
      }
    }

    /**
     * `dateClick`: a day in the past or inside a taken range is ignored;
     * with nothing or a whole stay picked the click starts a new stay; with a
     * start picked, an earlier day moves the start, a stay that would overlap
     * a taken range is refused, and any other day becomes the end.
     */
    method DateClick(clicked: Date, today: Date)
      modifies this
      ensures unavailableRanges == old(unavailableRanges)
      ensures old(Valid()) ==> Valid()
      ensures Ordinal(clicked) < Ordinal(today) || IsBooked(unavailableRanges, clicked)
              ==> startDate == old(startDate) && endDate == old(endDate)
      ensures !(Ordinal(clicked) < Ordinal(today) || IsBooked(unavailableRanges, clicked))
              && (old(startDate).None? || old(endDate).Some?)
              ==> startDate == Some(clicked) && endDate == None
      ensures !(Ordinal(clicked) < Ordinal(today) || IsBooked(unavailableRanges, clicked))
              && old(startDate).Some? && old(endDate).None?
              ==> (if Ordinal(clicked) < Ordinal(old(startDate).value) then
                     startDate == Some(clicked) && endDate == None
                   else if IsOverlapping(unavailableRanges, Day(old(startDate).value), Day(clicked)) then
                     startDate == old(startDate) && endDate == None
                   else
                     startDate == old(startDate) && endDate == Some(clicked))
    {
      if Ordinal(clicked) < Ordinal(today) {
        return;
      }
      if IsBooked(unavailableRanges, clicked) {
        return;
      }
      if startDate.None? || endDate.Some? {
        startDate, endDate := Some(clicked), None;
      } else if Ordinal(clicked) < Ordinal(startDate.value) {
        startDate, endDate := Some(clicked), None;
      } else if IsOverlapping(unavailableRanges, Day(startDate.value), Day(clicked)) {
        return;
      } else {
        endDate := Some(clicked);
      }
    }

    /**
     * The submit handler: nothing is sent without a start; otherwise the
     * `YYYY-MM-DD` text of the start and of the end, the end defaulting to
     * the start. The server reads back exactly the picked days.
     */
    function Submission(): (r: Option<(string, string)>)
      reads this
      ensures r.Some? <==> startDate.Some?
      ensures r.Some? ==>
                ParseLocalDate(r.value.0) == Day(startDate.value)
                && ParseLocalDate(r.value.1) == Day(if endDate.Some? then endDate.value else startDate.value)
    {
      if startDate.None? then None
      else
        var last := if endDate.Some? then endDate.value else startDate.value;
        ParseFormat(startDate.value);
        ParseFormat(last);
        Some((FormatDate(startDate.value), FormatDate(last)))
    }

    /**
     * A picked stay starting today or later passes every date check of
     * `/api/book`, and its length is at least one day.
     */
    lemma SubmissionPassesServerChecks(today: Date, name: string, phone: string, email: string, manual: bool)
      requires Valid()
      requires startDate.Some? && Ordinal(today) <= Ordinal(startDate.value)
      requires name != "" && phone != "" && email != ""
      ensures var sent := Submission().value;
              CheckBookRequest(BookRequest(sent.0, sent.1, name, phone, email, manual), today).None?
              && DaysInclusive(sent.0, sent.1).Some? && DaysInclusive(sent.0, sent.1).value >= 1
    {
      var last := if endDate.Some? then endDate.value else startDate.value;
      assert Submission().value == (FormatDate(startDate.value), FormatDate(last));
      OrderedStayPassesChecks(startDate.value, last, today, name, phone, email, manual);
    }
  }
}
