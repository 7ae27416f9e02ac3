/**
 * The bookings table and the two routes that write it: book_room, which
 * derives the customer's history and inserts a new booking, and
 * cancel_booking, which cancels one of the customer's own bookings.
 *
 * The table is a map from booking_id to the row; booking_id is assigned by
 * AUTOINCREMENT, modelled by the counter nextId. The clock behind
 * CURRENT_TIMESTAMP is a parameter `now` of the operations that read it.
 */
module Bookings {
  import opened Wrappers

  /** booking_status; the table's CHECK constraint admits exactly these two. */
  datatype Status = NotCanceled | Canceled

  /** One row of the bookings table. total_nights and total_guests are the
      two nullable columns that the admin views fall back on; the price is
      carried along and never computed with. */
  datatype Booking = Booking(
    customerId: int, roomId: int, mealPlanId: int, marketSegmentId: int,
    status: Status,
    adults: int, children: int, weekendNights: int, weekNights: int,
    leadTime: int, arrivalYear: int, arrivalMonth: int, arrivalDate: int,
    avgPricePerRoom: real, specialRequests: int,
    repeatedGuest: int, previousCancellations: int, previousNotCanceled: int,
    requiredCarParking: int,
    totalNights: Option<int>, totalGuests: Option<int>,
    createdAt: int, updatedAt: int)

  /** The room row book_room reads: its id and float(price_per_night).
      None stands for every stored price that float() rejects: NULL, and the
      non-numeric TEXT (such as '') that a blank room-type form leaves in the
      column. A price stored by the rooms form may be non-integral. */
  datatype Room = Room(roomId: int, pricePerNight: Option<real>)

  /** The fields of the booking form, each already converted by int(). */
  datatype BookingForm = BookingForm(
    adults: int, children: int, weekendNights: int, weekNights: int,
    leadTime: int, arrivalYear: int, arrivalMonth: int, arrivalDate: int,
    specialRequests: int, requiredCarParking: int,
    mealPlanId: int, marketSegmentId: int)

  /** What book_room derives from the customer's earlier bookings. */
  datatype History = History(previousCancellations: nat, previousNotCanceled: nat, repeatedGuest: int)

  /** The range of a 64-bit SQLite INTEGER: binding a Python int outside it
      raises OverflowError. */
  const MinInteger: int := -0x8000_0000_0000_0000
  const MaxInteger: int := 0x7FFF_FFFF_FFFF_FFFF

  predicate IsSqliteInteger(x: int)
  {
    MinInteger <= x <= MaxInteger
  }

  /** Every integer book_room binds from the form, the two derived totals
      included, is a 64-bit SQLite INTEGER. */
  predicate FormFitsRow(f: BookingForm)
  {
    && IsSqliteInteger(f.adults) && IsSqliteInteger(f.children)
    && IsSqliteInteger(f.weekendNights) && IsSqliteInteger(f.weekNights)
    && IsSqliteInteger(f.leadTime) && IsSqliteInteger(f.arrivalYear)
    && IsSqliteInteger(f.arrivalMonth) && IsSqliteInteger(f.arrivalDate)
    && IsSqliteInteger(f.specialRequests) && IsSqliteInteger(f.requiredCarParking)
    && IsSqliteInteger(f.mealPlanId) && IsSqliteInteger(f.marketSegmentId)
    && IsSqliteInteger(f.weekendNights + f.weekNights) && IsSqliteInteger(f.adults + f.children)
  }

  /** A stay of 2^62 weekend nights and 2^62 week nights passes int() for
      each field, but its total_nights does not fit the column. */
  lemma OversizedStayRejected(f: BookingForm)
    requires f.weekendNights == 0x4000_0000_0000_0000 && f.weekNights == 0x4000_0000_0000_0000
    ensures IsSqliteInteger(f.weekendNights) && IsSqliteInteger(f.weekNights)
    ensures !FormFitsRow(f)
  {
  }

  /** RoomIdOverflow and BookingIdOverflow: the id taken from the URL does
      not fit a 64-bit INTEGER, so binding it to the route's first query
      raises an OverflowError that no handler catches (the request ends in a
      server error and nothing is written). */
  datatype BookOutcome = RoomIdOverflow | RoomNotFound | BookingFailed | Booked(bookingId: int)

  datatype CancelOutcome = BookingIdOverflow | NotFoundOrUnauthorized | AlreadyCanceled | CanceledNow

  // ---------------------------------------------------------------------
  // Customer history
  // ---------------------------------------------------------------------

  /** sum(1 for b in prev_bookings if b["booking_status"] == s). */
  function CountStatus(statuses: seq<Status>, s: Status): (n: nat)
    ensures n <= |statuses|
  {
    if |statuses| == 0 then 0
    else (if statuses[0] == s then 1 else 0) + CountStatus(statuses[1..], s)
  }

  /** The count of a status does not depend on the order of the rows. */
  lemma {:induction false} CountIsMultiplicity(statuses: seq<Status>, s: Status)
    ensures CountStatus(statuses, s) == multiset(statuses)[s]
  {
    if |statuses| > 0 {
      CountIsMultiplicity(statuses[1..], s);
      assert statuses == [statuses[0]] + statuses[1..];
    }
  }

  /** Every earlier booking is counted exactly once, as canceled or not. */
  lemma {:induction false} CountsPartition(statuses: seq<Status>)
    ensures CountStatus(statuses, Canceled) + CountStatus(statuses, NotCanceled) == |statuses|
  {
    if |statuses| > 0 {
      CountsPartition(statuses[1..]);
    }
  }

  /** The history book_room stores with a new booking. */
  function CustomerHistory(prev: seq<Status>): (h: History)
    ensures h.previousCancellations == multiset(prev)[Canceled]
    ensures h.previousNotCanceled == multiset(prev)[NotCanceled]
    ensures h.previousCancellations + h.previousNotCanceled == |prev|
    ensures (h.repeatedGuest == 1) == (|prev| > 0) && (h.repeatedGuest == 0) == (|prev| == 0)
  {
    CountIsMultiplicity(prev, Canceled);
    CountIsMultiplicity(prev, NotCanceled);
    CountsPartition(prev);
    History(CountStatus(prev, Canceled), CountStatus(prev, NotCanceled),
            if |prev| > 0 then 1 else 0)
  }

  /** The statuses of the customer's bookings with booking_id below n, in
      booking_id order. */
  function StatusesBelow(rows: map<int, Booking>, customerId: int, n: nat): (r: seq<Status>)
    ensures |r| <= n
  {
    if n == 0 then []
    else
      StatusesBelow(rows, customerId, n - 1)
      + (if n - 1 in rows && rows[n - 1].customerId == customerId then [rows[n - 1].status] else [])
  }

  /** The ids of the customer's bookings below n that have status s. */
  function IdsWith(rows: map<int, Booking>, customerId: int, n: nat, s: Status): set<int>
  {
    set id | 0 <= id < n && id in rows && rows[id].customerId == customerId && rows[id].status == s
  }

  /** Reading the customer's bookings by id misses none and counts none twice:
      each status occurs as often as the customer has bookings with it. */
  lemma {:induction false} StatusesBelowComplete(rows: map<int, Booking>, customerId: int, n: nat, s: Status)
    ensures multiset(StatusesBelow(rows, customerId, n))[s] == |IdsWith(rows, customerId, n, s)|
  {
    if n > 0 {
      StatusesBelowComplete(rows, customerId, n - 1, s);
      IdsWithStep(rows, customerId, n, s);
    }
  }

  /** Moving the bound up by one adds at most the one id n - 1. */
  lemma IdsWithStep(rows: map<int, Booking>, customerId: int, n: nat, s: Status)
    requires n > 0
    ensures var last := n - 1;
            |IdsWith(rows, customerId, n, s)|
            == |IdsWith(rows, customerId, last, s)|
               + (if last in rows && rows[last].customerId == customerId && rows[last].status == s then 1 else 0)
  {
    var last := n - 1;
    var before := IdsWith(rows, customerId, last, s);
    if last in rows && rows[last].customerId == customerId && rows[last].status == s {
      assert IdsWith(rows, customerId, n, s) == before + {last};
    } else {
      assert IdsWith(rows, customerId, n, s) == before;
    }
  }

  // ---------------------------------------------------------------------
  // The booking that book_room inserts, and what cancel_booking does
  // ---------------------------------------------------------------------

  /** Both cached totals agree with the counts they summarise. */
  predicate TotalsDerived(b: Booking)
  {
    b.totalNights == Some(b.weekendNights + b.weekNights) && b.totalGuests == Some(b.adults + b.children)
  }

  predicate AllTotalsDerived(rows: map<int, Booking>)
  {
    forall id :: id in rows ==> TotalsDerived(rows[id])
  }

  /** The row book_room inserts for a room whose price is known: a
      Not_Canceled booking of the customer for that room, at the room's
      price, with both totals derived from the form, the history stored
      alongside, and created_at and updated_at both now. */
  function NewBooking(customerId: int, room: Room, form: BookingForm, h: History, now: int): (b: Booking)
    requires room.pricePerNight.Some?
    ensures b.customerId == customerId && b.roomId == room.roomId && b.status == NotCanceled
    ensures b.avgPricePerRoom == room.pricePerNight.value
    ensures b.mealPlanId == form.mealPlanId && b.marketSegmentId == form.marketSegmentId
    ensures b.leadTime == form.leadTime && b.arrivalYear == form.arrivalYear
            && b.arrivalMonth == form.arrivalMonth && b.arrivalDate == form.arrivalDate
    ensures b.specialRequests == form.specialRequests && b.requiredCarParking == form.requiredCarParking
    ensures TotalsDerived(b) && b.adults == form.adults && b.children == form.children
            && b.weekendNights == form.weekendNights && b.weekNights == form.weekNights
    ensures b.repeatedGuest == h.repeatedGuest && b.previousCancellations == h.previousCancellations
            && b.previousNotCanceled == h.previousNotCanceled
    ensures b.createdAt == now && b.updatedAt == now
  {
    Booking(
      customerId, room.roomId, form.mealPlanId, form.marketSegmentId,
      NotCanceled,
      form.adults, form.children, form.weekendNights, form.weekNights,
      form.leadTime, form.arrivalYear, form.arrivalMonth, form.arrivalDate,
      room.pricePerNight.value, form.specialRequests,
      h.repeatedGuest, h.previousCancellations, h.previousNotCanceled,
      form.requiredCarParking,
      Some(form.weekendNights + form.weekNights), Some(form.adults + form.children),
      now, now)
  }

  /** What cancel_booking reports for a booking id and the logged-in user:
      an id outside the 64-bit range fails before any check; otherwise it
      cancels exactly a booking that exists, is the user's own, and is not
      canceled yet. */
  function CancelOutcomeOf(rows: map<int, Booking>, bookingId: int, userId: int): (o: CancelOutcome)
    ensures o == BookingIdOverflow <==> !IsSqliteInteger(bookingId)
    ensures o == CanceledNow <==>
              && IsSqliteInteger(bookingId)
              && bookingId in rows && rows[bookingId].customerId == userId && rows[bookingId].status == NotCanceled
    ensures o == AlreadyCanceled <==>
              && IsSqliteInteger(bookingId)
              && bookingId in rows && rows[bookingId].customerId == userId && rows[bookingId].status == Canceled
    ensures o == NotFoundOrUnauthorized <==>
              IsSqliteInteger(bookingId) && (bookingId !in rows || rows[bookingId].customerId != userId)
  {
    if !IsSqliteInteger(bookingId) then BookingIdOverflow
    else if bookingId !in rows || rows[bookingId].customerId != userId then NotFoundOrUnauthorized
    else if rows[bookingId].status.Canceled? then AlreadyCanceled
    else CanceledNow
  }

  /** A booking id of 2^63 in the URL is a number the route accepts but
      SQLite cannot bind: the request fails before the ownership check, and
      the table is left as it was. */
  lemma OversizedBookingIdFails(rows: map<int, Booking>, userId: int, now: int)
    ensures CancelOutcomeOf(rows, 0x8000_0000_0000_0000, userId) == BookingIdOverflow
    ensures AfterCancel(rows, 0x8000_0000_0000_0000, userId, now) == rows
  {
  }

  /** The table after cancel_booking. */
  function AfterCancel(rows: map<int, Booking>, bookingId: int, userId: int, now: int): (r: map<int, Booking>)
    ensures r.Keys == rows.Keys
    ensures forall id :: id in rows && id != bookingId ==> r[id] == rows[id]
    ensures CancelOutcomeOf(rows, bookingId, userId) != CanceledNow ==> r == rows
    ensures CancelOutcomeOf(rows, bookingId, userId) == CanceledNow ==>
              r[bookingId] == rows[bookingId].(status := Canceled, updatedAt := now)
    ensures bookingId in r ==> r[bookingId].customerId == rows[bookingId].customerId
    ensures bookingId in r && r[bookingId] != rows[bookingId] ==>
              rows[bookingId].customerId == userId && rows[bookingId].status == NotCanceled
              && r[bookingId] == rows[bookingId].(status := Canceled, updatedAt := now)
  {
    if CancelOutcomeOf(rows, bookingId, userId) == CanceledNow
    then rows[bookingId := rows[bookingId].(status := Canceled, updatedAt := now)]
    else rows
  }

  /** Canceling again changes nothing, not even updated_at: the second call
      finds the booking already canceled. */
  lemma CancelIdempotent(rows: map<int, Booking>, bookingId: int, userId: int, t1: int, t2: int)
    ensures CancelOutcomeOf(AfterCancel(rows, bookingId, userId, t1), bookingId, userId) != CanceledNow
    ensures AfterCancel(AfterCancel(rows, bookingId, userId, t1), bookingId, userId, t2)
            == AfterCancel(rows, bookingId, userId, t1)
  {
  }

  /** A canceled booking stays canceled: there is no way back. */
  lemma CanceledIsTerminal(rows: map<int, Booking>, bookingId: int, userId: int, now: int, id: int)
    requires id in rows && rows[id].status == Canceled
    ensures AfterCancel(rows, bookingId, userId, now)[id] == rows[id]
  {
  }

  // ---------------------------------------------------------------------
  // The table itself
  // ---------------------------------------------------------------------

  class BookingStore {
    var bookings: map<int, Booking>
    var nextId: nat

    /** Every booking_id in use is positive and below the next one. */
    ghost predicate Valid()
      reads this
    {
      1 <= nextId && forall id :: id in bookings ==> 1 <= id < nextId
    }

    constructor ()
      ensures Valid() && bookings == map[] && nextId == 1
    {
      bookings := map[];
      nextId := 1;
    }

    /** SELECT booking_status FROM bookings WHERE customer_id = ?, in id order. */
    function CustomerStatuses(customerId: int): (r: seq<Status>)
      reads this
      ensures |r| <= nextId
    {
      StatusesBelow(bookings, customerId, nextId)
    }

    /** The history counts exactly the customer's bookings of each status. */
    lemma HistoryCountsCustomerBookings(customerId: int)
      requires Valid()
      ensures var h := CustomerHistory(CustomerStatuses(customerId));
              && h.previousCancellations
                 == |set id | id in bookings && bookings[id].customerId == customerId && bookings[id].status == Canceled|
              && h.previousNotCanceled
                 == |set id | id in bookings && bookings[id].customerId == customerId && bookings[id].status == NotCanceled|
    {
      StatusesBelowComplete(bookings, customerId, nextId, Canceled);
      StatusesBelowComplete(bookings, customerId, nextId, NotCanceled);
      assert IdsWith(bookings, customerId, nextId, Canceled)
             == set id | id in bookings && bookings[id].customerId == customerId && bookings[id].status == Canceled;
      assert IdsWith(bookings, customerId, nextId, NotCanceled)
             == set id | id in bookings && bookings[id].customerId == customerId && bookings[id].status == NotCanceled;
    }

    /** book_room, POST: insert a Not_Canceled booking for the logged-in
        customer, carrying the history read just before. A room id from the
        URL outside the 64-bit range fails first, then a missing room is
        reported; a form field that int() rejects, a
        room without a price, or a value (a field or a derived total) that
        does not fit a 64-bit INTEGER makes the insert fail and roll back. */
    method BookRoom(customerId: int, roomId: int, room: Option<Room>, form: Option<BookingForm>, now: int)
      returns (outcome: BookOutcome)
      requires Valid()
      requires room.Some? ==> room.value.roomId == roomId
      modifies this
      ensures Valid()
      ensures outcome == RoomIdOverflow <==> !IsSqliteInteger(roomId)
      ensures outcome == RoomNotFound <==> IsSqliteInteger(roomId) && room.None?
      ensures outcome.Booked? <==>
                && IsSqliteInteger(roomId)
                && room.Some? && room.value.pricePerNight.Some? && form.Some? && FormFitsRow(form.value)
      ensures !outcome.Booked? ==> bookings == old(bookings) && nextId == old(nextId)
      ensures outcome.Booked? ==>
                && outcome.bookingId == old(nextId) && outcome.bookingId !in old(bookings)
                && nextId == old(nextId) + 1
                && bookings == old(bookings)[outcome.bookingId :=
                     NewBooking(customerId, room.value, form.value, CustomerHistory(old(CustomerStatuses(customerId))), now)]
      ensures outcome.Booked? ==>
                var b := bookings[outcome.bookingId];
                && b.customerId == customerId && b.roomId == room.value.roomId
                && b.status == NotCanceled && TotalsDerived(b)
                && b.createdAt == now && b.updatedAt == now
                && IsSqliteInteger(b.totalNights.value) && IsSqliteInteger(b.totalGuests.value)
      ensures forall id :: id in old(bookings) ==> id in bookings && bookings[id] == old(bookings)[id]
      ensures AllTotalsDerived(old(bookings)) ==> AllTotalsDerived(bookings)
    {
      if !IsSqliteInteger(roomId) {
        return RoomIdOverflow;
      }
      if room.None? {
        return RoomNotFound;
      }
      var h := CustomerHistory(CustomerStatuses(customerId));
      if form.None? || room.value.pricePerNight.None? || !FormFitsRow(form.value) {
        return BookingFailed;
      }
      var id := nextId;
      bookings := bookings[id := NewBooking(customerId, room.value, form.value, h, now)];
      nextId := nextId + 1;
      return Booked(id);
    }

    /** cancel_booking: an id outside the 64-bit range fails before any
        check; a booking that is missing or belongs to someone else is
        refused and one already canceled is left alone; otherwise that
        booking alone becomes Canceled with updated_at set to now. */
    method CancelBooking(bookingId: int, userId: int, now: int) returns (outcome: CancelOutcome)
      requires Valid()
      modifies this
      ensures Valid() && nextId == old(nextId)
      ensures outcome == CancelOutcomeOf(old(bookings), bookingId, userId)
      ensures bookings == AfterCancel(old(bookings), bookingId, userId, now)
      ensures outcome != CanceledNow ==> bookings == old(bookings)
      ensures AllTotalsDerived(old(bookings)) ==> AllTotalsDerived(bookings)
    {
      if !IsSqliteInteger(bookingId) {
        return BookingIdOverflow;
      }
      if bookingId !in bookings || bookings[bookingId].customerId != userId {
        return NotFoundOrUnauthorized;
      }
      if bookings[bookingId].status == Canceled {
        return AlreadyCanceled;
      }
      bookings := bookings[bookingId := bookings[bookingId].(status := Canceled, updatedAt := now)];
      return CanceledNow;
    }
  }
}
