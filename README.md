# Booking engine of a holiday-flat site, modelled in Dafny

The system rents out one flat by the day. A Node.js server keeps one
availability document: the guests' `bookings` and the owner's `blocks`, each
a range of days from `startDate` to `endDate` written `YYYY-MM-DD`. Next to
it, in memory, are the bookings waiting for a Swish payment. The browser
side has a calendar page where a guest picks a stay with two clicks, and a
picture gallery.

This project models the core of that system and proves what it promises:

- `wrappers.dfy` (`Wrappers`): `Option`, standing for JavaScript's `null`
  and `NaN` results.
- `dates.dfy` (`Dates`): the server's date utilities `parseLocalDate`,
  `daysInclusive` and `rangesOverlap`.
  - A calendar day is a `Date`. It is compared through its ordinal, the
    number of days since 0000-01-01.
  - A JavaScript `Date` at local midnight is a `LocalDay`: a day, or the
    invalid date (`NaN`). Every comparison with `NaN` is false.
  - The page's `formatDateISO` is `FormatDate`. The server's cut at the
    first `T` is `DateOnly`.
- `store.dfy` (`Store`): the availability document as the class
  `AvailabilityStore`.
  - Handlers: `/api/remove`, `/api/block`, `/api/book`, the payment
    callback, and the five-minute expiry of a pending payment.
  - Invariant: no two entries of `bookings ++ blocks` overlap.
- `statistics.dfy` (`Statistics`): `/api/statistics`. It is the loop that
  fills twelve months of counts and revenue, then sums them.
- `booking_page.dfy` (`BookingPage`): the booking page, as the class
  `DatePicker`.
  - `loadAvailability`, `isOverlapping`, the `dateClick` selection and the
    dates that the submit handler sends.
- `gallery.dfy` (`Gallery`): the carousel's next, previous and timer steps,
  and `showSlide`, as the class `Carousel`.

Some handler inputs are not part of the request. Each is a parameter of
the operation:

- today's date;
- the id that `Date.now()` would give;
- the payment UUID;
- whether the caller is an administrator;
- what the payment provider answered (`Gateway`);
- the daily rate.

Where the design of the system and its code disagree, the model follows
the code:

- Statistics count a booking when its start year or its end year is the
  target year, not only its start year.
- Parsing never fails. Text that is not a date gives the invalid date,
  which then takes part in every comparison.
- The reply to a booking that waits for payment holds only the payment
  request token (`PaymentRequested`), not a QR code or a booking id.
- A pending payment does not hold its days. `/api/book` checks a new range
  against the bookings and blocks only, so two guests can both be waiting
  to pay for the same days. The one who pays second is refused by the
  callback after paying (`PendingPaymentsHoldNoDays`,
  `CallbacksNeverDoubleBook`).

## Model

| member | source | states |
|---|---|---|
| Dates.Ordinal | src/server.js:51-56 | the ordinal of a day lies inside its own year: the local-midnight instants `parseLocalDate` produces, counted in days |
| Dates.OrdinalOrder | src/server.js:51-56 | comparing the `Date` objects of two days is comparing the days in calendar order, and equal instants are equal days |
| Dates.OrdinalNextDate | src/server.js:57-61 | the next calendar day has the next ordinal, across month and year ends and 29 February |
| Dates.ParseLocalDate | src/server.js:51-56 | `parseLocalDate`: text not shaped `YYYY-MM-DD` gives the invalid date; the round trip with `FormatDate` is stated by the next two rows |
| Dates.FormatDate | public/script.js:24-26 | `formatDateISO`: the text of a day always has the shape `YYYY-MM-DD` |
| Dates.ParseFormat | src/server.js:51-56 | parsing the `YYYY-MM-DD` text of a day gives back that day |
| Dates.FormatParse | src/server.js:51-56 | text that parses to a day is exactly the canonical text of that day |
| Dates.DigitsValueOfDigits | src/server.js:52 | the number read from the zero-padded digits of n is n |
| Dates.DigitsOfDigitsValue | src/server.js:52 | writing a digit string's value back with the same width gives the same string |
| Dates.DateOnly | src/server.js:252-253 | the cut is a prefix without a `T`, and it stops only at a `T` |
| Dates.DateOnlyOfTimestamp | src/server.js:252-253 | a bare date is kept, and a timestamp is cut to its date |
| Dates.DaysInclusive | src/server.js:57-61 | there is a count exactly when both texts are dates, and it is at least one exactly when the end is not before the start |
| Dates.DaysInclusiveSingleDay | src/server.js:57-61 | a range of one day counts 1 |
| Dates.DaysInclusiveNextDay | src/server.js:57-61 | moving the end one calendar day later adds exactly one day to the count |
| Dates.CeilDays | src/server.js:60 | rounding a span up gives the least whole number of days that is not shorter |
| Dates.RoundDays | src/server.js:60 | rounding a span gives the nearest whole number of days |
| Dates.DaysInclusiveAsWritten | src/server.js:60 | for an offset change of less than a day, the count as written is the calendar count plus one when the offset drops inside the range (the autumn change of clocks), and the calendar count otherwise |
| Dates.AutumnChangeExample | src/server.js:57-61 | in Stockholm, 2024-10-26 to 2024-10-28 counts 4 as written, while there are 3 calendar days |
| Dates.RoundedCountsCalendarDays | src/server.js:57-61 | rounding to the nearest day gives the calendar count, which is `DaysInclusive`, for any offset change under half a day |
| Dates.DaysOverlap | src/server.js:62-68 | on real days, two ranges meet exactly when each starts no later than the other ends; a range whose ends are both `NaN` meets every range, because every comparison with `NaN` is false |
| Dates.RangesOverlap | src/server.js:62-68 | `rangesOverlap`: a range whose two texts are not dates meets every range |
| Dates.RangesOverlapSymmetric | src/server.js:62-68 | the overlap test does not depend on which range comes first |
| Dates.RangesOverlapReflexive | src/server.js:62-68 | a range overlaps itself exactly when its end is not before its start |
| Dates.RangesOverlapTouching | src/server.js:62-68 | two ranges that share only a boundary day overlap |
| Dates.RangesOverlapCommonDay | src/server.js:62-68 | for ordered ranges of real days, the test holds exactly when some calendar day lies in both ranges |
| Store.HasCollision | src/server.js:237 | the collision test holds exactly when some booking or block overlaps the range |
| Store.InsertKeepsNoOverlaps | src/server.js:237-240 | an entry that collides with nothing keeps the invariant wherever it is inserted |
| Store.WithoutId | src/server.js:226-227 | the filter returns at most as many entries as it was given |
| Store.WithoutIdMembers | src/server.js:226-227 | the filter keeps exactly the entries whose id differs |
| Store.WithoutIdCount | src/server.js:229 | the length lost by filtering is the number of entries that carry the id |
| Store.WithoutIdAppend | src/server.js:226-227 | filtering keeps the order of the entries: filtering a concatenation concatenates the filtered parts |
| Store.WithoutAbsentId | src/server.js:226-227 | removing an id that no entry carries leaves the list unchanged |
| Store.WithoutIdKeepsNoOverlaps | src/server.js:226-227 | dropping entries keeps the invariant |
| Store.RemoveFromBoth | src/server.js:225-229 | filtering both lists: the counts reported, the invariant, and an unknown id leaving both lists as they were |
| Store.CountIdAppend | src/server.js:225-229 | the entries with an id across both lists are the sum of the two lists' |
| Store.CheckBookRequest | src/server.js:248-262 | the 400 checks: a missing field is reported exactly when a field is empty; a request that passes has every field, and when it names real days it starts today or later and ends on or after its start; text that is not a date passes every date check |
| Store.NewBooking | src/server.js:252-253 | the booking carries the fresh id and the guest's name, phone and email, and its dates are the request's dates cut before any `T` |
| Store.PaymentAmount | src/server.js:289-290 | the amount is a number exactly when both dates of the booking are dates |
| Store.AmountOfOrderedStay | src/server.js:289-290 | an ordered stay is charged the daily rate for each day, so at least one day's rate |
| Store.AcceptedAmountCoversStay | src/server.js:247-298 | an accepted request with real dates yields a payment amount of at least one day's rate |
| Store.ThreeDaysAtDefaultRate | src/server.js:24 | three days at the default rate of 550 cost 1650 |
| Store.AvailabilityStore.constructor | src/server.js:71-72 | a missing document loads as empty lists, with nothing pending |
| Store.AvailabilityStore.Remove | src/server.js:222-230 | both lists are filtered by id and the reply gives the counts removed. An unknown id changes nothing. Nothing pending changes, and the invariant is kept |
| Store.AvailabilityStore.Block | src/server.js:232-243 | a missing date gives 400 and a collision gives 409, both leaving the store unchanged. Otherwise exactly one block with the fresh id is appended and the bookings are untouched. The invariant is kept |
| Store.AvailabilityStore.Book | src/server.js:246-324 | each 400 check and the 409 check leave the store unchanged. Dates are cut at the first `T`. An administrator's manual booking is appended at once. Otherwise the booking is pending under the payment UUID when the provider accepts, and nothing changes when it fails. The invariant is kept |
| Store.AvailabilityStore.SwishCallback | src/server.js:332-357 | a `PAID` callback with no collision appends the pending booking. Any callback for a pending payment removes it. An unknown payment changes nothing. The invariant is kept |
| Store.AvailabilityStore.ExpirePending | src/server.js:317 | the timer removes the pending entry if it is there and changes nothing else |
| Store.CallbacksNeverDoubleBook | src/server.js:336-354 | of two pending payments for overlapping ranges, at most one becomes a booking, whatever their callbacks say |
| Store.LateConfirmationIsIgnored | src/server.js:317 | a `PAID` callback after the timer has run out changes nothing |
| Store.PendingPaymentsHoldNoDays | src/server.js:264-266 | a pending payment does not hold its days: two requests for the same free range both become pending, with overlapping bookings, and the lists are unchanged |
| Store.ExpiryIsIdempotent | src/server.js:317 | running out the timer twice is the same as once |
| Statistics.InYear | src/server.js:386 | a booking is counted only when one of its dates is a date |
| Statistics.StartMonth | src/server.js:388 | the month index is one of the twelve |
| Statistics.MonthsOf | src/server.js:383 | the report always has twelve months |
| Statistics.MonthsOfAppend | src/server.js:385-390 | a further booking adds one, and its revenue, to its start month alone, and only when it is counted with real dates |
| Statistics.MonthsAddUp | src/server.js:391-392 | the months' counts and revenues sum to the number and the revenue of all counted bookings |
| Statistics.AddingOneBookingAddsUp | src/server.js:385-392 | one more booking adds the same amount to the month sums and to the totals |
| Statistics.SpoilsOrTallied | src/server.js:385-389 | a counted booking either has two real dates or spoils the report |
| Statistics.TalliedValues | src/server.js:387-389 | a counted booking goes to its start month, with its inclusive day count times the rate |
| Statistics.CountBooking | src/server.js:385-390 | the callback for one booking either fails, for a counted booking with no start date, or changes only the start month of a counted booking, by one and its revenue |
| Statistics.ComputeStatistics | src/server.js:380-394 | there is no report exactly when some counted booking has a date that is not a date. Otherwise: the target year, twelve months each holding the count and revenue of the counted bookings that start in it, and totals equal to the month sums and to the whole |
| Statistics.MarchExample | src/server.js:385-390 | one booking from 2024-03-10 to 2024-03-12 at 550 gives March one booking and 1650 |
| BookingPage.RangesOf | public/script.js:51-62 | one range per booking and block, in order, each copying the start and end |
| BookingPage.IsOverlapping | public/script.js:74-82 | `isOverlapping`: with no ranges nothing overlaps, and a stay whose ends are `NaN` overlaps as soon as there is a range |
| BookingPage.InRange | public/script.js:99-102 | a day lies in a range only when both ends of the range are dates and the day lies between them |
| BookingPage.IsBooked | public/script.js:99-102 | the `isBooked` test: a taken day, as a one-day stay, overlaps the ranges |
| BookingPage.OverlapAgreesWithServer | public/script.js:74-82 | when every stored text is a real date, the page's overlap test on the loaded ranges agrees with the server's collision test on the entries they came from |
| BookingPage.BookedDayOverlaps | public/script.js:74-82 | a stay that contains a day inside some range overlaps the ranges |
| BookingPage.OverlapHasBookedDay | public/script.js:74-82 | on well-formed ranges, an overlapping stay contains a day inside some range |
| BookingPage.OverlapIffBookedDay | public/script.js:74-82 | on well-formed ranges, the overlap test holds exactly when the stay contains a taken day |
| BookingPage.InvalidRangeBlocksEverything | public/script.js:74-82 | a range whose two texts are not dates to `ParseLocalDate` blocks every stay, yet contains no clicked day |
| BookingPage.OrderedStayPassesChecks | public/script.js:149-153 | the text of an ordered stay from today on passes the server's 400 checks, and its day count is the calendar count |
| BookingPage.DatePicker.constructor | public/script.js:17 | the page starts with nothing picked and the ranges loaded |
| BookingPage.DatePicker.LoadAvailability | public/script.js:45-62 | the ranges become one per booking and then one per block, and the selection is untouched |
| BookingPage.DatePicker.HighlightedDaysAreFree | public/script.js:29-42 | no day marked as picked lies inside an unavailable range |
| BookingPage.DatePicker.DateClick | public/script.js:92-122 | a past or taken day changes nothing. With nothing picked, or a whole stay picked, the click starts a new stay. With a start picked: an earlier day moves the start, a stay that would overlap is refused, and any other day becomes the end. The selection invariant is kept |
| BookingPage.DatePicker.Submission | public/script.js:140-153 | nothing is sent without a start; otherwise the texts that are sent parse back to the start and to the end, or to the start when there is no end |
| BookingPage.DatePicker.SubmissionPassesServerChecks | public/script.js:140-153 | a valid selection starting today or later passes the server's 400 checks, with a day count of at least one |
| Gallery.NextIndex | public/bilder.js:11 | the index stays in range and wraps from the last slide to the first |
| Gallery.PrevIndex | public/bilder.js:16 | the index stays in range and wraps from the first slide to the last |
| Gallery.PrevUndoesNext | public/bilder.js:11-16 | previous after next restores the index |
| Gallery.NextUndoesPrev | public/bilder.js:11-16 | next after previous restores the index |
| Gallery.AdvanceWithinRound | public/bilder.js:11 | within one round, k steps move k slides on |
| Gallery.AdvanceAdds | public/bilder.js:11 | a steps then b steps are a + b steps |
| Gallery.FullRoundReturns | public/bilder.js:11 | n steps with n slides return to the starting index |
| Gallery.EverySlideComesRound | public/bilder.js:21-24 | within one round of the timer every slide becomes current |
| Gallery.Carousel.constructor | public/bilder.js:1-2 | the index starts at 0 |
| Gallery.Carousel.ShowSlide | public/bilder.js:4-8 | exactly the slide at the index is active |
| Gallery.Carousel.Next | public/bilder.js:10-13 | the index moves one on, wrapping round, and only that slide is active |
| Gallery.Carousel.Prev | public/bilder.js:15-18 | the index moves one back, wrapping round, and only that slide is active |
| Gallery.Carousel.Tick | public/bilder.js:21-24 | the timer does the same step as next |
| Gallery.NextThenPrev | public/bilder.js:10-18 | next and then previous show again only the slide that was current |

## Left out

- Persistence: reading and writing the JSON file, and the atomic rename. A
  handler's load and save are a read and a reassignment of the store's
  fields, and an unreadable file is not modelled.
- Web plumbing, cookie authentication, rate limiting, the backup job and
  mail. Whether the caller is an administrator is a parameter of `Book`.
- The Swish HTTPS request, its payload and the QR code. The provider's
  answer is the `Gateway` parameter. The amount is modelled on its own as
  `PaymentAmount`.
- Timers and concurrency. Handlers are atomic steps. The five-minute timer
  is the explicit event `ExpirePending`. The race between the collision
  check and the insert across `await` does not arise.
- The two-minute timer after the payment request deletes by booking id. The
  pending map is keyed by payment UUID, so that timer never removes anything
  and is not modelled.
- The lines from the payment request to the statistics route
  (src/server.js:326-377) are, read as written, still inside the
  `/api/book` handler. The stray `}, 5000);` at line 375 closes that
  handler and passes `5000` to `app.post` as a further route handler.
  Line 377 then runs at module level, where `res`, `swishUri` and `qrCode`
  are undefined. So the server as written cannot start. Even with that
  repaired, the handler would register the callback route again on every
  booking that reaches line 332, and it would read the undefined `pend`
  at line 366 after the reply has been sent. The model reads the evident
  intent instead: the callback is a handler of its own, registered once,
  and the confirmation mail is left out with the rest of the mail.
- The page polls a payment-status endpoint that the server does not have.
  Polling and cancelling are not modelled.
- Date text. `ParseLocalDate` reads only canonical `YYYY-MM-DD` text of a
  real day, with years 0 to 9999. Everything else is the invalid date.
  JavaScript splits the text at every `-` and reads each of the first three
  parts with `Number`. The list below gives the kinds of text on which it
  differs from the model; none of them is modelled:
  - it rolls an out-of-range day or month over into the next or previous
    month or year: 2024-02-30 is 1 March 2024, 2024-13-01 is 1 January
    2025, 2024-00-10 is 10 December 2023, and day `00` is the last day of
    the month before;
  - it reads an empty part as 0, so `2024--05` is 5 December 2023;
  - it maps years 0 to 99 to the 1900s;
  - it accepts years above 9999, one-digit parts, parts padded with spaces
    or a `+`, and any text after a fourth `-`;
  - a part with other trailing text, as in `2024-05-01x` or
    `2024-05-01T10`, gives `NaN`, as in the model.
- BookingPage.OverlapAgreesWithServer: the page reads the text of a range
  with `new Date(text)`, and the model reads it with the server's
  `ParseLocalDate`. The two differ on text with a time part, which
  `/api/block` stores as sent: the server reads `2024-05-01T10:00` as `NaN`
  and refuses every later booking, while the page reads a real local time
  and lets a guest pick a stay that the server then refuses. The agreement
  is therefore stated only for entries whose texts are real dates.
- BookingPage.InvalidRangeBlocksEverything: holds in the page only for
  text that `new Date` cannot read either. Text with a time part is a
  real day to the page but `NaN` to `ParseLocalDate`.
- Time zones. Days are counted in calendar days, which is what the code
  computes while the UTC offset stays the same. The effect of a change of
  clocks is shown only under "Findings". The browser's reading of
  `YYYY-MM-DD` as UTC midnight is not modelled.
- Statistics.ComputeStatistics: the source behaves differently for a
  counted booking whose start is not a date, and for one whose end is not
  a date. The model reports no statistics in both cases:
  - with a bad start, the source throws;
  - with a bad end, the source counts the booking but its revenue is `NaN`.
- Store.PaymentAmount: the daily rate is a whole number of kronor. The
  source reads it from the environment with `Number`, so a fractional rate
  or `NaN` would give a fractional or `NaN` amount; neither is modelled.
- Statistics.ComputeStatistics: the same whole-number daily rate, so every
  revenue (`Revenue`) is a whole number of kronor.
- Statistics.CountBooking: for a counted booking whose end is not a date,
  the month is left as it was, where the source adds one to its count and
  makes its revenue `NaN`. `ComputeStatistics` reports nothing in that case.
- The calendar widget's rendering: the coloured background events, the grey
  past, the text of the selection and the pay button. The days
  `showSelection` marks are modelled only as the predicate `Highlighted`.
- Ids are text; their uniqueness, which `Date.now()` gives in practice, is
  not assumed.
- An empty gallery is not modelled: the index there becomes `NaN`. The
  gallery has at least one slide.

## Findings

| source | as written | input that shows it | evidently intended | confidence | as-written member | corrected member |
|---|---|---|---|---|---|---|
| src/server.js:60 | the number of days is the time between the two local midnights divided by 24 hours, rounded up, plus one | with the server in Stockholm time, 2024-10-26 to 2024-10-28 spans 49 hours because summer time ends on 2024-10-27; this counts 4 days, so the stay is charged and its statistics are counted for 4 days | the number of calendar days, 3 here (rounding to the nearest day gives it) | medium: it depends on the server's time zone; not executed | Dates.AutumnChangeExample | Dates.RoundedCountsCalendarDays |
