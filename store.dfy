/**
 * The availability document of the booking server and the handlers that change
 * it: `/api/remove`, `/api/block`, `/api/book`, the payment provider's callback
 * and the expiry of a pending payment.
 *
 * The document `{bookings, blocks}` lives in one object, `AvailabilityStore`;
 * each handler's `loadBookings()` / `saveBookings(data)` pair is a read and a
 * reassignment of its fields. Its invariant is that no two entries of
 * `bookings ++ blocks` overlap, and every handler keeps it.
 */
module Store {
  import opened Wrappers
  import opened Dates

  type Id = string
  type PaymentId = string

  /** The status the payment provider reports for a settled payment. */
  const PAID: string := "PAID"

  datatype Guest = Guest(name: string, phone: string, email: string)

  /** A record of the document: a booking carries its guest, a block does not. */
  datatype Entry = Entry(id: Id, startDate: string, endDate: string, guest: Option<Guest>)

  /** The body of `POST /api/book`; an absent or empty field is the empty string. */
  datatype BookRequest = BookRequest(
    startDate: string, endDate: string,
    name: string, phone: string, email: string,
    manual: bool)

  /** What the payment provider's `PUT paymentrequests/{uuid}` came to. */
  datatype Gateway =
    | NotConfigured               // no client certificate was loaded
    | RequestFailed               // the provider call threw
    | RequestAccepted(token: string)

  datatype Rejection = MissingFields | DateInPast | EndBeforeStart

  /** The HTTP replies of the handlers. */
  datatype Reply =
    | Removed(bookings: int, blocks: int)   // 200 {success, removed}
    | Blocked(id: Id)                       // 200 {success, id}
    | Booked(booking: Entry)                // 200 {success, booking}
    | PaymentRequested(token: string)       // 200 {paymentRequestToken}
    | BadRequest(reason: Rejection)         // 400
    | Conflict                              // 409
    | PaymentFailed                         // 500

  predicate Overlaps(a: Entry, b: Entry) {
    RangesOverlap(a.startDate, a.endDate, b.startDate, b.endDate)
  }

  /** The collision test of the handlers: does the range overlap any of the entries? */
  function HasCollision(entries: seq<Entry>, startDate: string, endDate: string): (r: bool)
    ensures r <==> exists i :: 0 <= i < |entries| && RangesOverlap(startDate, endDate, entries[i].startDate, entries[i].endDate)
  {
    if entries == [] then false
    else RangesOverlap(startDate, endDate, entries[0].startDate, entries[0].endDate)
         || HasCollision(entries[1..], startDate, endDate)
  }

  /** No two entries of the list clash under `clash`, taken in list order. */
  ghost predicate Pairwise(entries: seq<Entry>, clash: (Entry, Entry) -> bool) {
    forall i, j :: 0 <= i < j < |entries| ==> !clash(entries[i], entries[j])
  }

  /** The document invariant: no two entries share a day. */
  ghost predicate NoOverlaps(entries: seq<Entry>) {
    Pairwise(entries, Overlaps)
  }

  /** An entry that clashes with nothing can be put anywhere in a clash-free list. */
  lemma InsertKeepsPairwise(front: seq<Entry>, back: seq<Entry>, e: Entry, clash: (Entry, Entry) -> bool)
    requires Pairwise(front + back, clash)
    requires forall k :: 0 <= k < |front + back| ==> !clash(e, (front + back)[k]) && !clash((front + back)[k], e)
    ensures Pairwise(front + [e] + back, clash)
  {
    var old_ := front + back;
    var new_ := front + [e] + back;
    var p := |front|;
    forall i, j | 0 <= i < j < |new_|
      ensures !clash(new_[i], new_[j])
    {
      var oi := if i < p then i else i - 1;
      var oj := if j < p then j else j - 1;
      if i == p {
        assert new_[j] == old_[oj];
      } else if j == p {
        assert new_[i] == old_[oi];
      } else {
        assert new_[i] == old_[oi] && new_[j] == old_[oj];
      }
    }
  }

  /** A booking or block that collides with nothing keeps the invariant wherever it is put. */
  lemma InsertKeepsNoOverlaps(front: seq<Entry>, back: seq<Entry>, e: Entry)
    requires NoOverlaps(front + back)
    requires !HasCollision(front + back, e.startDate, e.endDate)
    ensures NoOverlaps(front + [e] + back)
  {
    var entries := front + back;
    forall k | 0 <= k < |entries|
      ensures !Overlaps(e, entries[k]) && !Overlaps(entries[k], e)
    {
      RangesOverlapSymmetric(e.startDate, e.endDate, entries[k].startDate, entries[k].endDate);
    }
    InsertKeepsPairwise(front, back, e, Overlaps);
  }

  /** The entries whose id differs, in their order. */
  function WithoutId(entries: seq<Entry>, id: Id): (r: seq<Entry>)
    ensures |r| <= |entries|
  {
    if entries == [] then []
    else (if entries[0].id == id then [] else [entries[0]]) + WithoutId(entries[1..], id)
  }

  /** The filter keeps exactly the entries whose id differs. */
  lemma {:induction false} WithoutIdMembers(entries: seq<Entry>, id: Id)
    ensures forall e :: e in WithoutId(entries, id) <==> e in entries && e.id != id
  {
    if entries != [] {
      WithoutIdMembers(entries[1..], id);
      assert entries == [entries[0]] + entries[1..];
    }
  }

  /** The number of entries that carry the given id. */
  function CountId(entries: seq<Entry>, id: Id): nat {
    if entries == [] then 0
    else (if entries[0].id == id then 1 else 0) + CountId(entries[1..], id)
  }

  /** The filter removes exactly the entries with that id. */
  lemma {:induction false} WithoutIdCount(entries: seq<Entry>, id: Id)
    ensures |entries| - |WithoutId(entries, id)| == CountId(entries, id)
  {
    if entries != [] {
      WithoutIdCount(entries[1..], id);
    }
  }

  /** Filtering keeps the order: it works list by list and entry by entry. */
  lemma {:induction false} WithoutIdAppend(xs: seq<Entry>, ys: seq<Entry>, id: Id)
    ensures WithoutId(xs + ys, id) == WithoutId(xs, id) + WithoutId(ys, id)
  {
    if xs != [] {
      assert (xs + ys)[1..] == xs[1..] + ys;
      WithoutIdAppend(xs[1..], ys, id);
    } else {
      assert xs + ys == ys;
    }
  }

  /** Removing an id that no entry carries changes nothing. */
  lemma {:induction false} WithoutAbsentId(entries: seq<Entry>, id: Id)
    requires CountId(entries, id) == 0
    ensures WithoutId(entries, id) == entries
  {
    if entries != [] {
      WithoutAbsentId(entries[1..], id);
    }
  }

  /** Dropping entries never makes two of the rest clash. */
  lemma {:induction false} WithoutIdKeepsPairwise(entries: seq<Entry>, id: Id, clash: (Entry, Entry) -> bool)
    requires Pairwise(entries, clash)
    ensures Pairwise(WithoutId(entries, id), clash)
  {
    if entries != [] {
      var rest := entries[1..];
      assert Pairwise(rest, clash) by {
        forall i, j | 0 <= i < j < |rest| ensures !clash(rest[i], rest[j]) {
          assert rest[i] == entries[i + 1] && rest[j] == entries[j + 1];
        }
      }
      WithoutIdKeepsPairwise(rest, id, clash);
      WithoutIdMembers(rest, id);
      var tail := WithoutId(rest, id);
      if entries[0].id != id {
        var r := [entries[0]] + tail;
        forall i, j | 0 <= i < j < |r| ensures !clash(r[i], r[j]) {
          if i == 0 {
            assert r[j] in rest;
            var k :| 0 <= k < |rest| && rest[k] == r[j];
            assert entries[k + 1] == r[j];
          } else {
            assert r[i] == tail[i - 1] && r[j] == tail[j - 1];
          }
        }
      }
    }
  }

  /** Removing bookings and blocks keeps the invariant. */
  lemma WithoutIdKeepsNoOverlaps(entries: seq<Entry>, id: Id)
    requires NoOverlaps(entries)
    ensures NoOverlaps(WithoutId(entries, id))
  {
    WithoutIdKeepsPairwise(entries, id, Overlaps);
  }

  /**
   * What filtering both lists by an id does: the lengths drop by the number
   * of entries with that id, the invariant survives, and an id nobody
   * carries leaves both lists as they were.
   */
  lemma RemoveFromBoth(bookings: seq<Entry>, blocks: seq<Entry>, id: Id)
    ensures |bookings| - |WithoutId(bookings, id)| == CountId(bookings, id)
    ensures |blocks| - |WithoutId(blocks, id)| == CountId(blocks, id)
    ensures NoOverlaps(bookings + blocks) ==> NoOverlaps(WithoutId(bookings, id) + WithoutId(blocks, id))
    ensures CountId(bookings + blocks, id) == 0 ==> WithoutId(bookings, id) == bookings && WithoutId(blocks, id) == blocks
  {
    WithoutIdCount(bookings, id);
    WithoutIdCount(blocks, id);
    WithoutIdAppend(bookings, blocks, id);
    if NoOverlaps(bookings + blocks) {
      WithoutIdKeepsNoOverlaps(bookings + blocks, id);
    }
    CountIdAppend(bookings, blocks, id);
    if CountId(bookings + blocks, id) == 0 {
      WithoutAbsentId(bookings, id);
      WithoutAbsentId(blocks, id);
    }
  }

  /** The fields `/api/book` requires, in the order it checks them. */
  predicate HasAllFields(req: BookRequest) {
    req.startDate != "" && req.endDate != "" && req.name != "" && req.phone != "" && req.email != ""
  }

  /**
   * The 400 checks of `/api/book` on the dates cut at the first 'T': a missing
   * field, a start or end before today, an end before the start. A request
   * that passes and names real days starts today or later and ends on or
   * after its start; text that is not a date passes every date check.
   */
  function CheckBookRequest(req: BookRequest, today: Date): (r: Option<Rejection>)
    ensures r == Some(MissingFields) <==> !HasAllFields(req)
    ensures r.None? ==> HasAllFields(req)
    ensures var start := ParseLocalDate(DateOnly(req.startDate));
            var end := ParseLocalDate(DateOnly(req.endDate));
            r.None? && start.Day? && end.Day? ==> Ordinal(today) <= Ordinal(start.date) <= Ordinal(end.date)
    ensures var start := ParseLocalDate(DateOnly(req.startDate));
            var end := ParseLocalDate(DateOnly(req.endDate));
            HasAllFields(req) && start.InvalidDate? && end.InvalidDate? ==> r.None?
  {
    var start := ParseLocalDate(DateOnly(req.startDate));
    var end := ParseLocalDate(DateOnly(req.endDate));
    if !HasAllFields(req) then Some(MissingFields)
    else if start.Before(Day(today)) || end.Before(Day(today)) then Some(DateInPast)
    else if end.Before(start) then Some(EndBeforeStart)
    else None
  }

  /** The booking `/api/book` builds from a request. */
  function NewBooking(req: BookRequest, id: Id): (b: Entry)
    ensures b.id == id && b.guest == Some(Guest(req.name, req.phone, req.email))
    ensures b.startDate <= req.startDate && 'T' !in b.startDate
    ensures b.endDate <= req.endDate && 'T' !in b.endDate
  {
    Entry(id, DateOnly(req.startDate), DateOnly(req.endDate), Some(Guest(req.name, req.phone, req.email)))
  }

  /** `DAILY_RATE_SEK` when the environment does not set it. */
  const DEFAULT_DAILY_RATE_SEK: int := 550

  /**
   * The amount of the payment request for a booking: its days times the
   * daily rate, or `None` where JavaScript computes `NaN`.
   */
  function PaymentAmount(booking: Entry, dailyRate: int): (r: Option<int>)
    ensures r.Some? <==> ParseLocalDate(booking.startDate).Day? && ParseLocalDate(booking.endDate).Day?
  {
    var days := DaysInclusive(booking.startDate, booking.endDate);
    if days.Some? then Some(days.value * dailyRate) else None
  }

  /** A stay of real days in order is charged the rate for each of its days, so at least one day's rate. */
  lemma AmountOfOrderedStay(b: Entry, dailyRate: int)
    requires ParseLocalDate(b.startDate).Day? && ParseLocalDate(b.endDate).Day?
    requires Ordinal(ParseLocalDate(b.startDate).date) <= Ordinal(ParseLocalDate(b.endDate).date)
    requires dailyRate >= 0
    ensures var days := Ordinal(ParseLocalDate(b.endDate).date) - Ordinal(ParseLocalDate(b.startDate).date) + 1;
            PaymentAmount(b, dailyRate) == Some(days * dailyRate)
    ensures PaymentAmount(b, dailyRate).value >= dailyRate
  {
    var days := Ordinal(ParseLocalDate(b.endDate).date) - Ordinal(ParseLocalDate(b.startDate).date) + 1;
    AtLeastOneDaysRate(days, dailyRate);
  }

  lemma AtLeastOneDaysRate(days: int, dailyRate: int)
    requires days >= 1 && dailyRate >= 0
    ensures days * dailyRate >= dailyRate
  {
    assert days * dailyRate == (days - 1) * dailyRate + dailyRate;
  }

  /** What a request that passes the checks and names real days is asked to pay. */
  lemma AcceptedAmountCoversStay(req: BookRequest, today: Date, id: Id, dailyRate: int)
    requires CheckBookRequest(req, today).None?
    requires ParseLocalDate(DateOnly(req.startDate)).Day? && ParseLocalDate(DateOnly(req.endDate)).Day?
    requires dailyRate >= 0
    ensures PaymentAmount(NewBooking(req, id), dailyRate).Some?
    ensures PaymentAmount(NewBooking(req, id), dailyRate).value >= dailyRate
  {
    AmountOfOrderedStay(NewBooking(req, id), dailyRate);
  }

  /** Three days at the default rate: 2024-05-01 to 2024-05-03 costs 1650 SEK. */
  lemma ThreeDaysAtDefaultRate()
    ensures PaymentAmount(Entry("1", FormatDate(CalendarDate(2024, 5, 1)), FormatDate(CalendarDate(2024, 5, 3)), None),
                          DEFAULT_DAILY_RATE_SEK) == Some(1650)
  {
    var s := CalendarDate(2024, 5, 1);
    var e := CalendarDate(2024, 5, 3);
    ParseFormat(s);
    ParseFormat(e);
    assert Ordinal(e) - Ordinal(s) == 2;
    AmountOfOrderedStay(Entry("1", FormatDate(s), FormatDate(e), None), DEFAULT_DAILY_RATE_SEK);
  }

  class AvailabilityStore {
    var bookings: seq<Entry>
    var blocks: seq<Entry>
    /** `pendingBookings`: bookings waiting for payment, by payment-request UUID. */
    var pending: map<PaymentId, Entry>

    ghost predicate Valid()
      reads this
    {
      NoOverlaps(bookings + blocks)
    }

    /** Everything that occupies days: the bookings followed by the blocks. */
    function Occupied(): seq<Entry>
      reads this
    {
      bookings + blocks
    }

    /** A missing document loads as `{bookings: [], blocks: []}`, with no payment pending. */
    constructor ()
      ensures Valid()
      ensures bookings == [] && blocks == [] && pending == map[]
    {
      bookings, blocks, pending := [], [], map[];
    }

    /** `POST /api/remove`: drop every booking and block with that id. */
    method Remove(id: Id) returns (reply: Reply)
      modifies this
      ensures old(Valid()) ==> Valid()
      ensures bookings == WithoutId(old(bookings), id) && blocks == WithoutId(old(blocks), id)
      ensures pending == old(pending)
      ensures reply == Removed(CountId(old(bookings), id), CountId(old(blocks), id))
      ensures CountId(old(bookings + blocks), id) == 0 ==> bookings == old(bookings) && blocks == old(blocks)
    {
      RemoveFromBoth(bookings, blocks, id);
      reply := Removed(|bookings| - |WithoutId(bookings, id)|, |blocks| - |WithoutId(blocks, id)|);
      bookings, blocks := WithoutId(bookings, id), WithoutId(blocks, id);
    }

    /** `POST /api/block`: reserve a range for the owner, unless it is missing or taken. */
    method Block(startDate: string, endDate: string, freshId: Id) returns (reply: Reply)
      modifies this
      ensures old(Valid()) ==> Valid()
      ensures bookings == old(bookings) && pending == old(pending)
      ensures (startDate == "" || endDate == "") ==> reply == BadRequest(MissingFields) && blocks == old(blocks)
      ensures startDate != "" && endDate != "" && HasCollision(old(Occupied()), startDate, endDate)
              ==> reply == Conflict && blocks == old(blocks)
      ensures startDate != "" && endDate != "" && !HasCollision(old(Occupied()), startDate, endDate)
              ==> reply == Blocked(freshId) && blocks == old(blocks) + [Entry(freshId, startDate, endDate, None)]
    {
      if startDate == "" || endDate == "" {
        return BadRequest(MissingFields);
      }
      if HasCollision(bookings + blocks, startDate, endDate) {
        return Conflict;
      }
      var e := Entry(freshId, startDate, endDate, None);
      if Valid() {
        InsertKeepsNoOverlaps(bookings + blocks, [], e);
        assert bookings + blocks + [e] + [] == bookings + (blocks + [e]);
      }
      blocks := blocks + [e];
      reply := Blocked(freshId);
    }

    /**
     * `POST /api/book`. After the checks, an administrator's manual booking is
     * stored at once; any other booking waits in `pending` under its payment
     * UUID once the provider has accepted the payment request.
     */
    method Book(req: BookRequest, isAdmin: bool, today: Date, freshId: Id,
                paymentId: PaymentId, gateway: Gateway) returns (reply: Reply)
      modifies this
      ensures old(Valid()) ==> Valid()
      ensures blocks == old(blocks)
      ensures CheckBookRequest(req, today).Some? ==>
                reply == BadRequest(CheckBookRequest(req, today).value)
                && bookings == old(bookings) && pending == old(pending)
      ensures CheckBookRequest(req, today).None?
              && HasCollision(old(Occupied()), DateOnly(req.startDate), DateOnly(req.endDate)) ==>
                reply == Conflict && bookings == old(bookings) && pending == old(pending)
      ensures CheckBookRequest(req, today).None?
              && !HasCollision(old(Occupied()), DateOnly(req.startDate), DateOnly(req.endDate)) ==>
                if req.manual && isAdmin then
                  reply == Booked(NewBooking(req, freshId))
                  && bookings == old(bookings) + [NewBooking(req, freshId)] && pending == old(pending)
                else if gateway.RequestAccepted? then
                  reply == PaymentRequested(gateway.token)
                  && bookings == old(bookings) && pending == old(pending)[paymentId := NewBooking(req, freshId)]
                else
                  reply == PaymentFailed && bookings == old(bookings) && pending == old(pending)
    {
      var check := CheckBookRequest(req, today);
      if check.Some? {
        return BadRequest(check.value);
      }
      var cleanStart := DateOnly(req.startDate);
      var cleanEnd := DateOnly(req.endDate);
      if HasCollision(bookings + blocks, cleanStart, cleanEnd) {
        return Conflict;
      }
      var booking := NewBooking(req, freshId);
      if req.manual && isAdmin {
        if Valid() {
          InsertKeepsNoOverlaps(bookings, blocks, booking);
        }
        bookings := bookings + [booking];
        return Booked(booking);
      }
      match gateway {
        case RequestAccepted(token) =>
          pending := pending[paymentId := booking];
          reply := PaymentRequested(token);
        case _ =>
          reply := PaymentFailed;
      }
    }

    /**
     * `POST /api/swish-callback`: a payment settled as `PAID` stores its pending
     * booking if the range is still free; any callback for a pending payment
     * ends it, and one for an unknown payment does nothing.
     */
    method SwishCallback(paymentId: PaymentId, status: string)
      modifies this
      ensures old(Valid()) ==> Valid()
      ensures blocks == old(blocks)
      ensures paymentId !in old(pending) ==> bookings == old(bookings) && pending == old(pending)
      ensures paymentId in old(pending) ==>
                var b := old(pending)[paymentId];
                && pending == old(pending) - {paymentId}
                && bookings == if status == PAID && !HasCollision(old(Occupied()), b.startDate, b.endDate)
                               then old(bookings) + [b] else old(bookings)
    {
      if paymentId in pending {
        var booking := pending[paymentId];
        if status == PAID && !HasCollision(bookings + blocks, booking.startDate, booking.endDate) {
          if Valid() {
            InsertKeepsNoOverlaps(bookings, blocks, booking);
          }
          bookings := bookings + [booking];
        }
        pending := pending - {paymentId};
      }
    }

    /** The five-minute timer of a payment request: forget it if it is still pending. */
    method ExpirePending(paymentId: PaymentId)
      modifies this
      ensures old(Valid()) ==> Valid()
      ensures bookings == old(bookings) && blocks == old(blocks)
      ensures pending == old(pending) - {paymentId}
      ensures paymentId !in old(pending) ==> pending == old(pending)
    {
      if paymentId in pending {
        pending := pending - {paymentId};
      }
    }
  }

  lemma {:induction false} CountIdAppend(xs: seq<Entry>, ys: seq<Entry>, id: Id)
    ensures CountId(xs + ys, id) == CountId(xs, id) + CountId(ys, id)
  {
    if xs != [] {
      assert (xs + ys)[1..] == xs[1..] + ys;
      CountIdAppend(xs[1..], ys, id);
    } else {
      assert xs + ys == ys;
    }
  }

  /**
   * Two payments pending for overlapping ranges: whatever their callbacks
   * report, at most one of them becomes a booking.
   */
  method CallbacksNeverDoubleBook(store: AvailabilityStore, p1: PaymentId, p2: PaymentId,
                                  status1: string, status2: string)
    requires p1 != p2 && p1 in store.pending && p2 in store.pending
    requires Overlaps(store.pending[p1], store.pending[p2])
    modifies store
    ensures |store.bookings| <= |old(store.bookings)| + 1
    ensures old(store.Valid()) ==> store.Valid()
  {
    var b1 := store.pending[p1];
    store.SwishCallback(p1, status1);
    var added := |store.bookings| == |old(store.bookings)| + 1;
    if added {
      assert store.bookings[|store.bookings| - 1] == b1;
      assert store.Occupied()[|store.bookings| - 1] == b1;
    }
    store.SwishCallback(p2, status2);
  }

  /** A payment whose timer has run out: its late confirmation changes nothing. */
  method LateConfirmationIsIgnored(store: AvailabilityStore, p: PaymentId)
    modifies store
    ensures store.bookings == old(store.bookings) && store.blocks == old(store.blocks)
    ensures p !in store.pending
  {
    store.ExpirePending(p);
    store.SwishCallback(p, PAID);
  }

  /** Running out the timer twice is the same as once. */
  method ExpiryIsIdempotent(store: AvailabilityStore, p: PaymentId)
    modifies store
    ensures store.pending == old(store.pending) - {p}
    ensures store.bookings == old(store.bookings) && store.blocks == old(store.blocks)
  {
    store.ExpirePending(p);
    store.ExpirePending(p);
  }

  /**
   * A pending payment does not hold its days: `/api/book` checks only the
   * bookings and blocks, so a second guest can ask to pay for the same range
   * while the first payment is still pending.
   */
  method PendingPaymentsHoldNoDays(store: AvailabilityStore, req: BookRequest, today: Date,
                                   id1: Id, id2: Id, p1: PaymentId, p2: PaymentId, token1: string, token2: string)
    requires CheckBookRequest(req, today).None?
    requires !HasCollision(store.Occupied(), DateOnly(req.startDate), DateOnly(req.endDate))
    modifies store
    ensures store.bookings == old(store.bookings) && store.blocks == old(store.blocks)
    ensures store.pending == old(store.pending)[p1 := NewBooking(req, id1)][p2 := NewBooking(req, id2)]
    ensures p1 != p2 ==> Overlaps(store.pending[p1], store.pending[p2])
  {
    var r1 := store.Book(req, false, today, id1, p1, RequestAccepted(token1));
    var r2 := store.Book(req, false, today, id2, p2, RequestAccepted(token2));
  }
}
