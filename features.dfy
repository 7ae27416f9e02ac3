/**
 * The total_nights and total_guests values that the two admin views put
 * into a booking's feature row. The bookings list (admin_view_bookings)
 * falls back on the component counts only when the stored value is NULL;
 * the single-booking view (admin_view_booking_features) also falls back when
 * total_nights is 0, and always recomputes total_guests.
 */
module Features {
  import opened Wrappers
  import opened Bookings

  /** total_nights in the bookings list: a stored value always wins, and
      only a missing one is replaced by the component sum. */
  function ListTotalNights(b: Booking): (n: int)
    ensures b.totalNights.Some? ==> n == b.totalNights.value
    ensures n == b.weekendNights + b.weekNights || b.totalNights == Some(n)
  {
    match b.totalNights
    case Some(n) => n
    case None => b.weekendNights + b.weekNights
  }

  /** total_guests in the bookings list: a stored value always wins, and
      only a missing one is replaced by the component sum. */
  function ListTotalGuests(b: Booking): (g: int)
    ensures b.totalGuests.Some? ==> g == b.totalGuests.value
    ensures g == b.adults + b.children || b.totalGuests == Some(g)
  {
    match b.totalGuests
    case Some(g) => g
    case None => b.adults + b.children
  }

  /** total_nights in the single-booking view: the stored value unless it is
      falsy (None or 0). It is either the stored value or the component sum,
      and it is 0 only when the components add up to 0; any stored value
      other than 0, a negative one included, is kept. */
  function DetailTotalNights(b: Booking): (n: int)
    ensures n == b.weekendNights + b.weekNights || b.totalNights == Some(n)
    ensures n == 0 ==> b.weekendNights + b.weekNights == 0
    ensures b.totalNights.Some? && b.totalNights.value != 0 ==> n == b.totalNights.value
  {
    if b.totalNights.Some? && b.totalNights.value != 0 then b.totalNights.value
    else b.weekendNights + b.weekNights
  }

  /** total_guests in the single-booking view: always recomputed, so the
      stored value never shows. It agrees with a stored value that was
      derived from the components. */
  function DetailTotalGuests(b: Booking): (g: int)
    ensures b.totalGuests.Some? && b.totalGuests.value == b.adults + b.children ==> g == b.totalGuests.value
    ensures g == ListTotalGuests(b.(totalGuests := None))
  {
    b.adults + b.children
  }

  /** The two views report different nights exactly for a stored 0 whose
      components do not add up to 0. */
  lemma NightsViewsDisagreeIff(b: Booking)
    ensures ListTotalNights(b) != DetailTotalNights(b)
            <==> b.totalNights == Some(0) && b.weekendNights + b.weekNights != 0
  {
  }

  /** The two views report different guests exactly for a stored total that
      is not the sum of adults and children. */
  lemma GuestsViewsDisagreeIff(b: Booking)
    ensures ListTotalGuests(b) != DetailTotalGuests(b)
            <==> b.totalGuests.Some? && b.totalGuests.value != b.adults + b.children
  {
  }

  /** For a booking whose cached totals were derived when it was inserted,
      as book_room does, both views give the component sums. */
  lemma DerivedTotalsAgree(b: Booking)
    requires TotalsDerived(b)
    ensures ListTotalNights(b) == DetailTotalNights(b) == b.weekendNights + b.weekNights
    ensures ListTotalGuests(b) == DetailTotalGuests(b) == b.adults + b.children
  {
  }
}
