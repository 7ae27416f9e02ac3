# Hotel booking core, modelled in Dafny

This project models the parts of the hotel room-booking web application
(`app.py`) whose behaviour can be stated exactly:

- **Category encoding** (`map_and_encode`): a meal plan, room type or market
  segment name read from the database is mapped to the category string the
  cancellation model was trained on, by exact dictionary key, then by a
  case-insensitive and whitespace-stripped key match, then by the caller's
  default. That category is then encoded by a LabelEncoder: by its own index
  when it is one of the encoder's classes, otherwise by the first class that
  contains it or is contained in it, otherwise -1. `encoding.dfy` holds the
  specification (`Encode`), the step-by-step method (`MapAndEncode`) proved
  equal to it, and lemmas stating each step of the lookup chain. `text.dfy`
  models the string operations it uses: `str.strip`, `str.lower` and `in`.
- **Upload whitelist** (`allowed_file`), in `uploads.dfy`.
- **The bookings table** (`bookings.dfy`): a class holding the table as a
  map from `booking_id` to the row, with an AUTOINCREMENT counter.
  `BookRoom` derives the customer's history and inserts a `Not_Canceled`
  booking with derived `total_nights` and `total_guests`; a form value or
  derived total outside SQLite's 64-bit INTEGER range makes the insert fail.
  A room or booking id in the URL outside that range makes the route fail
  with an uncaught OverflowError before it checks anything
  (`RoomIdOverflow`, `BookingIdOverflow`).
  `CancelBooking` is scoped to the owner. A booking that is already canceled
  is reported as such (`AlreadyCanceled`, `app.py:473-476`) and left alone.
  Pure counting functions give the history (`previous_cancellations`,
  `previous_bookings_not_canceled`, `repeated_guest`).
- **Feature-row fallbacks** (`features.dfy`): the `total_nights` /
  `total_guests` values that the two admin views compute, and exactly when
  they disagree. The bookings list (`app.py:824-825`) falls back on the
  component sums only when the stored value is NULL. The single-booking view
  (`app.py:892`) also falls back when the stored `total_nights` is 0 and keeps
  a negative one, and `app.py:893` ignores the stored `total_guests`
  altogether.

The `LabelEncoder` is represented by its `classes_` list (`None` when there is
no encoder or it has no `classes_`). `transform([c])` is taken to be the
position of `c` in `classes_`. That is an assumption about the library: a
fitted encoder's classes are distinct, and the lemmas that speak of indices
require `DistinctClasses`.

## Model

| member | source | states |
|---|---|---|
| Encoding.Encode | app.py:216-252 | The result is -1 when the database value or the encoder is missing, always lies in [-1, number of classes), and a non-negative result is the index of a class that equals the chosen category or approximately matches it |
| Encoding.MapAndEncode | app.py:216-252 | The function as written, with its early exits, returns exactly `Encode` for every input |
| Encoding.ChooseCategory | app.py:224-237 | The direct lookup, the case-insensitive loop that stops at its first match, and the default fallback choose exactly `ModelCategory` |
| Encoding.EncodeChosen | app.py:239-252 | The class-membership test and the loop over the classes that returns at the first approximate match give exactly `EncodeCategory` |
| Encoding.EncodeCategory | app.py:239-252 | No category or no encoder gives -1; any other result is an index of the classes whose class equals the category or approximately matches it |
| Encoding.Transform | app.py:243 | `transform` of a class gives a position holding that class, and no earlier position holds it |
| Encoding.Get | app.py:225 | `dict.get` gives None exactly when the value is not a key, and otherwise a value paired with that key |
| Encoding.Fold | app.py:229 | The comparison key `strip().lower()` is no longer than the value and holds no upper-case letter |
| Encoding.ModelCategory | app.py:224-237 | The category chosen for a value is the caller's default or a value of the dictionary, and there is always one when a default is given |
| Encoding.Approx | app.py:247 | The approximate match holds for a class equal to the category up to case, and for every class when the lower-cased category is empty (the empty string is in every string) |
| Encoding.ExactKeyWins | app.py:224-225 | If the value is a key of the dictionary, that key's value is the category, even when other keys match it case-insensitively |
| Encoding.FoldedKeyFallback | app.py:227-233 | With no exact key, the first key in insertion order whose stripped lower-case form equals the value's supplies the category |
| Encoding.DefaultWhenNoKeyMatches | app.py:235-237 | When no key matches even case-insensitively, the caller's default is the category |
| Encoding.NoCodeWithoutCategoryOrClasses | app.py:236-241 | No category (default None too), no encoder, or an encoder with no classes gives -1 |
| Encoding.ExactClassCode | app.py:242-243 | A category that is one of the classes is encoded as its index in the classes |
| Encoding.ApproxFallbackCode | app.py:244-252 | For a category that is not a class, the code is the index of the first class in class order that contains the lower-cased category or is contained in it, and it is -1 exactly when no class does |
| Encoding.RenamedSegmentExample | app.py:207-214 | "Airline Guest" is encoded as the index of "Aviation" among the segment classes |
| Encoding.MealPlanExample | app.py:192-197 | "Half Board" is encoded as the index of "Meal Plan 3" among the meal plan classes |
| Encoding.RoomTypeExample | app.py:198-206 | "Deluxe" is encoded as the index of "Room_Type 2" among the room type classes |
| Text.SkipSpaces | app.py:229 | The leading scan of `strip` stops at the first character from its start that is not whitespace, or at the end, having passed only whitespace |
| Text.SkipSpacesBack | app.py:229 | The trailing scan of `strip` stops just after the last character before its end that is not whitespace, having passed only whitespace |
| Text.Strip | app.py:229 | The result is the slice of the input from its first non-whitespace character, only whitespace follows it in the input, and it neither starts nor ends with whitespace |
| Text.Lower | app.py:229 | `lower()` keeps the length, turns each upper-case ASCII letter into the lower-case letter at the same place in the alphabet, leaves no upper-case ASCII letter, and keeps every other character |
| Text.Contains | app.py:247 | `a in b`: the empty string is in every string, and a longer string is in no shorter one |
| Text.ContainsIff | app.py:247 | `a in b` holds exactly when `a` occurs in `b` at some offset |
| Uploads.AfterLastDot | app.py:131 | There is an extension exactly when the name contains '.'; it is the suffix after a '.' and contains no '.' itself |
| Uploads.AllowedFile | app.py:130-131 | An allowed name contains a '.', does not end with one, and has at least four characters |
| Uploads.LastDotIsUnique | app.py:131 | The text after any '.' that has no '.' after it is the extension `rsplit` returns |
| Uploads.AllowedFileIff | app.py:130-131 | A file is allowed exactly when its name has a '.' and the lower-cased text after the last '.' is png, jpg, jpeg or gif |
| Uploads.UpperCaseExtensionAllowed | app.py:130-131 | "suite.PNG" is allowed |
| Uploads.OnlyLastExtensionCounts | app.py:130-131 | "photo.png.exe" is not allowed |
| Bookings.CountIsMultiplicity | app.py:356-360 | Each count is the number of occurrences of its status, whatever the order of the rows |
| Bookings.CountsPartition | app.py:354-360 | The canceled and not-canceled counts add up to the number of earlier bookings |
| Bookings.CountStatus | app.py:357-360 | The generator sum counting one status is at most the number of earlier bookings |
| Bookings.CustomerHistory | app.py:354-363 | previous_cancellations and previous_bookings_not_canceled count the statuses and add up to the number of earlier bookings; repeated_guest is 1 exactly when there is an earlier booking and 0 otherwise |
| Bookings.StatusesBelowComplete | app.py:347-352 | Reading the customer's rows by id yields each status once per booking of the customer with that status |
| Bookings.BookingStore.CustomerStatuses | app.py:347-352 | The customer's statuses read by id number at most `nextId`, one more than the number of ids issued (1 to `nextId` - 1); `HistoryCountsCustomerBookings` states that they are exactly the customer's bookings |
| Bookings.BookingStore.HistoryCountsCustomerBookings | app.py:347-360 | The history counts exactly the customer's canceled and not-canceled bookings in the table |
| Bookings.NewBooking | app.py:382-401 | The inserted row is Not_Canceled, belongs to the customer and the room, carries the room's price, every value the form supplies (guests, nights, lead time, arrival date, special requests, parking, meal plan, market segment) with both totals derived from them, the history, and created_at = updated_at = now |
| Bookings.OversizedStayRejected | app.py:370-409 | Week and weekend nights of 2^62 each pass `int()` but their total does not fit a 64-bit INTEGER, so the insert fails |
| Bookings.OversizedBookingIdFails | app.py:456-466 | A booking id of 2^63 fails before the ownership check and leaves the table unchanged |
| Bookings.CancelOutcomeOf | app.py:456-476 | The outcome is BookingIdOverflow exactly when the id from the URL is outside the 64-bit range; for any other id it is NotFoundOrUnauthorized exactly when the booking is missing or someone else's, AlreadyCanceled exactly when it is the user's own and canceled, and CanceledNow exactly when it is the user's own and not canceled |
| Bookings.AfterCancel | app.py:463-482 | Canceling keeps the set of booking ids, changes no other booking, changes nothing unless the booking is the user's own and not canceled, and in that case sets its status to Canceled and its updated_at to now and changes nothing else in it |
| Bookings.CancelIdempotent | app.py:473-476 | Canceling a second time finds the booking not cancelable and changes nothing, updated_at included |
| Bookings.CanceledIsTerminal | app.py:473-482 | A canceled booking is never changed by a cancel |
| Bookings.BookingStore.BookRoom | app.py:326-409 | A room id from the URL outside the 64-bit range fails first and a missing room is reported next, both leaving the table unchanged; a rejected form field or a room without a price leaves the table unchanged; a form value or derived total outside the 64-bit INTEGER range makes the insert fail and leaves the table unchanged; otherwise exactly one booking is added under a new id, Not_Canceled, owned by the customer, with derived totals and the history read just before, and no existing booking changes |
| Bookings.BookingStore.CancelBooking | app.py:456-487 | The outcome and the new table are those of `CancelOutcomeOf` and `AfterCancel`; an id outside the 64-bit range, a missing, foreign or already canceled booking leaves the table unchanged |
| Bookings.BookingStore.constructor | app.py:85-116 | The table starts empty and AUTOINCREMENT starts at 1 |
| Features.NightsViewsDisagreeIff | app.py:892 | The two admin views give different total_nights exactly when the stored value is 0 and the night counts do not add up to 0 |
| Features.GuestsViewsDisagreeIff | app.py:893 | The two admin views give different total_guests exactly when a stored value differs from adults plus children |
| Features.DerivedTotalsAgree | app.py:824-825 | For a booking as book_room stores it, both views give weekend plus week nights and adults plus children |
| Features.ListTotalNights | app.py:824 | The bookings list shows a stored total_nights whenever there is one, and otherwise the component sum |
| Features.ListTotalGuests | app.py:825 | The bookings list shows a stored total_guests whenever there is one, and otherwise adults plus children |
| Features.DetailTotalNights | app.py:892 | The single-booking view shows the stored value or the component sum, shows 0 only when the components add up to 0, and keeps every stored value other than 0 |
| Features.DetailTotalGuests | app.py:893 | The single-booking view ignores the stored total_guests: it is what the bookings list shows for the same booking with no stored total, and it agrees with a stored total derived the same way |

## Left out

- Text.Lower: lower-cases ASCII letters only, while Python's `str.lower` covers all of Unicode. No non-ASCII character lowers to the letters of the allowed extensions, so `allowed_file` is unaffected. The case-insensitive key match and the approximate class match are modelled for ASCII names only.
- `str(...)` on non-string values and the `isinstance(k, str)` test: the database columns are text and the dictionaries have string keys and values, so the model takes strings.
- The `try`/`except` around the encoding step: with string classes no exception can be raised, so it is not modelled.
- The LabelEncoder is its `classes_` list; `transform` is the first position of the class. Its real implementation (a binary search over sorted classes) is not modelled.
- Bookings.BookingStore.BookRoom: the form is given already converted; `None` stands for any field that `int()` rejects. A value that `int()` accepts but SQLite cannot store is modelled by `FormFitsRow`, which covers the form's integers and the two derived totals. Which field failed, and the default 0 of the two optional fields, are not modelled. A GET request only renders the form and is not modelled.
- Bookings.Room: the price is `float(price_per_night)` as a `real`, which may be non-integral (the rooms form stores a float). `None` stands for every stored price that `float()` rejects: NULL, and the non-numeric TEXT such as '' that a blank room-type price leaves in the column; `book_room` then fails. NaN and infinite prices, which `float()` accepts from TEXT such as 'nan', are not represented: the model books such a room, while SQLite stores a bound NaN as NULL and the NOT NULL `avg_price_per_room` column makes the insert fail. Floating-point rounding of the price is not modelled.
- `created_at` and `updated_at` come from the database clock, which is a parameter `now` here.
- The history query orders rows by `created_at`; the model reads them in id order. `Bookings.CountIsMultiplicity` shows that the counts do not depend on order.
- Integers are unbounded here. The 64-bit INTEGER range is checked where a route binds a value a user supplies: the room id and the form values of `book_room`, and the booking id of `cancel_booking`. The other stored integers come from the database or are counts of its rows. The route converters accept no negative id, so only the upper bound is reachable there.
- SQLite connections, schema creation, SQL text, Flask routing, sessions, flash messages, templates, login and admin checks, and password hashing are framework glue.
- Each route is modelled as one atomic step. In the source, cancel_booking's ownership SELECT runs outside the transaction that its UPDATE opens, and book_room reads the history before its INSERT; the development server handles requests on threads. Two overlapping cancels of one booking can both pass the check and both set updated_at, so `CancelIdempotent` holds for requests that do not overlap, and the history of a booking made while another of the same customer is being inserted may miss that one.
- Room-image uploads and deletions on disk are file-system I/O.
- Loading the pickled model and encoders, building the pandas feature row, `predict_proba`, and the probability rounding and thresholds are foreign library calls on floating point.
