# BusTrak frontend logic, modelled in Dafny

BusTrak is a bus ticket booking site whose browser code keeps buses, routes,
bookings and users in `localStorage`. This project models the logic under
that glue and proves properties of it. The logic covers five pages:

- **Seat booking page** (module `SeatBooking`):
  - the 8 x 5 seat grid, with the driver at row 0, column 2;
  - twelve seats booked at random;
  - the click toggle, which refuses booked seats;
  - the fare panel: 1200 per seat, 5 % tax and a fee of 20;
  - the booking record appended to the stored bookings;
  - `formatTime` and `formatDuration`.
- **Customer dashboard** (`CustomerDashboard`):
  - the user's bookings, newest travel date first, split into upcoming and past trips;
  - the condition for showing the cancel button;
  - in-place cancellation;
  - the profile's booking count.
- **Admin dashboard** (`AdminDashboard`):
  - guarded deletes of buses, routes, bookings and users;
  - the bus and route forms, which edit an entry or append one with a fresh id;
  - the booking-status and user-role forms;
  - the dashboard counters.
- **Registration form** (`Register`): `validateForm`, with its email pattern, phone-digit rule, password length and confirmation.
- **Login page** (`Login`): the empty-field check, the simulated credential check, the stored session record and the redirect of a signed-in user.

Supporting modules:

- `Records` holds the stored records.
- `JsText` holds the JavaScript behaviour the formatters rely on:
  - `split`;
  - `parseInt`, including leading white space, a sign and NaN;
  - the truncating `%`;
  - number-to-string conversion.
- `Seqs` holds `filter`, `findIndex` and `some`.
- `Wrappers` holds `Option`.

Modelling choices:

- **Storage.** Each page function reads a fresh copy of a stored list, changes it and writes it back. A function that edits one entry of that copy in place (`cancelBooking`, `saveBooking`, `saveUser`) is a method on an `array` that it `modifies`. One that filters the copy or may append to it is a function or method from the stored sequence to the new one.
- **Seat panel.** Its state persists across clicks in the DOM, so it is a class, `SeatMap`, with a `slots` field and a `Click` method.
- **Dialogs.** `confirm` results are boolean parameters.
- **Clock and randomness.** `Date.now()`, today's date and the random draws are parameters.
- **Ids.** An id is `JsId` (`Undefined`, `Num`, `Str`). Datatype equality on `JsId` is JavaScript's `===`.
- **Dates.** They are the millisecond instants `new Date(...)` yields.
- **Money.** Amounts are reals.

Behaviour of the code worth knowing:

- The driver occupies grid position row 0, column 2, which would be seat number 3, not the first seat.
- No check stops two bookings from holding the same seat.
- Cancelling neither checks the booking's owner nor refuses a booking that is already cancelled. Re-cancelling just leaves it cancelled.
- Bus 1, "BUS-001", "Mumbai to Delhi", the fixed times and a fare of 1200 are hard-coded in every booking.
- Login stores its record under the key `user`. The redirect reads `currentUser`.

## Model

| member | source | states |
|---|---|---|
| JsText.Split | frontend/js/booking.js:99 | `split(':')` yields at least one field, and no field contains the separator |
| JsText.SplitThenJoin | frontend/js/booking.js:99 | joining the fields of `split(':')` with ':' gives back the string, so no character is lost |
| JsText.SplitAtSeparator | frontend/js/booking.js:99 | splitting `a + ':' + b`, with `a` colon-free, gives `a` followed by the fields of `b` |
| JsText.ParseInt | frontend/js/booking.js:100 | `parseInt` is NaN exactly when no digit follows the leading white space and optional sign; otherwise it is the value of that digit run, negated after a minus sign |
| JsText.ParseIntOfDigits | frontend/js/booking.js:100 | `parseInt` of a digit run followed by anything else is the value of that run |
| JsText.ParseIntOfSigned | frontend/js/booking.js:100 | after leading white space and an explicit `+` or `-`, `parseInt` reads the digit run and applies the sign; later characters are ignored |
| JsText.ParseIntOfIntToString | frontend/js/booking.js:100-107 | `parseInt` reads back every integer that a template literal renders |
| JsText.JsRem | frontend/js/booking.js:104 | JavaScript's `%` by a positive divisor lies in 0..b-1 for a non-negative dividend, where it is the mathematical remainder, and in -(b-1)..0 for a negative one; in both cases the dividend minus the result is a multiple of the divisor |
| JsText.NatToString | frontend/js/booking.js:107 | `${n}` gives at least one digit with no leading zero, and the digits' value is n |
| Seqs.Filter | frontend/js/customer_dashboard.js:49 | `filter` keeps exactly the elements satisfying the predicate, in their original order |
| Seqs.FilterPartition | frontend/js/customer_dashboard.js:69-70 | filters by complementary predicates split the list's multiset between them |
| Seqs.FilterLengthIsPositionCount | frontend/js/customer_dashboard.js:215-216 | a filter's length is the number of positions satisfying the predicate |
| Seqs.FindIndex | frontend/js/customer_dashboard.js:181 | `findIndex` returns the first position satisfying the predicate, or -1 exactly when none does |
| SeatBooking.Hour12 | frontend/js/booking.js:104-105 | for a non-negative hour the shown hour lies in 1..12 and equals the hour modulo 12 |
| SeatBooking.Meridiem | frontend/js/booking.js:102 | the suffix is "PM" exactly when the parsed hour is at least 12; NaN gives "AM" |
| SeatBooking.FormatTime | frontend/js/booking.js:98-108 | every formatted time ends in " AM" or " PM" |
| SeatBooking.FormatTimeOfClock | frontend/js/booking.js:98-108 | on "HH:MM" or "HH:MM:SS" the hour is shown as HH % 12, with 0 shown as 12; the minutes are copied; the seconds are dropped; the suffix is PM iff HH >= 12 |
| SeatBooking.Clock24To12 | frontend/js/booking.js:102-105 | for hours 0..23 the shown hour is in 1..12, and with its suffix it determines the hour |
| SeatBooking.StoredDepartureFormattedTwice | frontend/js/customer_dashboard.js:99 | the stored departure "08:00 AM" is shown as "8:00 AM AM" |
| SeatBooking.StoredArrivalFormattedTwice | frontend/js/customer_dashboard.js:100 | the stored arrival "06:00 PM" is shown as "6:00 PM AM" |
| SeatBooking.ClockDepartureFormatted | frontend/js/booking.js:382 | stored as the clock string "08:00", the departure is shown as "8:00 AM" |
| SeatBooking.ClockArrivalFormatted | frontend/js/booking.js:383 | stored as the clock string "18:00", the arrival is shown as "6:00 PM" |
| SeatBooking.FormatDuration | frontend/js/booking.js:111-114 | a formatted duration ends in 'm' |
| SeatBooking.FormatDurationOfClock | frontend/js/booking.js:111-114 | the first two ':'-fields are copied verbatim into "<H>h <M>m" and the rest is dropped |
| SeatBooking.DrawnSeats | frontend/js/booking.js:215-220 | the seats booked by a run of draws are pairwise distinct, one per distinct draw, and seat x is booked iff x - 1 was drawn |
| SeatBooking.DrawnSeatsInRange | frontend/js/booking.js:216 | draws in 0..totalSeats-1 book seats in 1..totalSeats |
| SeatBooking.GenerateRandomBookedSeats | frontend/js/booking.js:211-223 | the loop returns exactly totalSeats - availableSeats seats, pairwise distinct and in 1..totalSeats, namely those booked by the draws it consumed |
| SeatBooking.GridCovers | frontend/js/booking.js:131-135 | every seat number 1..40 is `row * 5 + col + 1` for a row in 0..7 and a column in 0..4 |
| SeatBooking.GridCellOfNumber | frontend/js/booking.js:135 | a seat number determines its row and column, so each number appears once |
| SeatBooking.LayoutSeats | frontend/js/booking.js:131-181 | the nested loops emit 40 grid elements: the driver at position 2, and at every other position i the seat numbered i + 1, booked iff its number was drawn, and not selected |
| SeatBooking.Toggled | frontend/js/booking.js:160-177 | a click flips `selected` on a free seat and leaves the driver and booked seats unchanged |
| SeatBooking.ToggledTwice | frontend/js/booking.js:168 | two clicks restore a grid element |
| SeatBooking.SelectedNumbers | frontend/js/booking.js:338-342 | the numbers of the selected seats in document order; its properties are the three lemmas below |
| SeatBooking.SelectedNumbersSound | frontend/js/booking.js:338-342 | every listed seat number belongs to a selected seat at the position its number gives |
| SeatBooking.SelectedNumbersComplete | frontend/js/booking.js:338-342 | every selected seat is listed |
| SeatBooking.SelectedNumbersAscending | frontend/js/booking.js:338-342 | selected seats come out in document order, so their numbers are strictly increasing |
| SeatBooking.NothingSelected | frontend/js/booking.js:338-342 | with no seat selected the selection is empty |
| SeatBooking.SelectionOfWellFormed | frontend/js/booking.js:338-342 | on a well-formed grid the selection is ascending and complete, and holds only free seats in 1..40 other than 3 |
| SeatBooking.LayoutIsWellFormed | frontend/js/booking.js:133-181 | a fresh layout is well formed, with the driver in place, seats numbered by position and nothing selected |
| SeatBooking.SeatMap.constructor | frontend/js/booking.js:117-181 | `generateSeatLayout` books 12 distinct seats in 1..40, each one more than a draw taken from the random sequence in order, and lays out a well-formed grid from them with nothing selected. Row 0, column 2 always holds the driver, so a draw of 2 books seat 3, which never appears, and the grid then shows only 11 booked seats |
| SeatBooking.SeatMap.SelectedSeats | frontend/js/booking.js:338-342 | the selected seats are ascending, free, never the driver's place, and every selected seat is included |
| SeatBooking.SeatMap.Click | frontend/js/booking.js:160-177 | a click replaces one grid element by its toggled form and keeps the grid well formed, so no booked seat ever becomes selected |
| SeatBooking.Fare | frontend/js/booking.js:369-373 | base = 1200 n, tax = base / 20 (5 %), fee = 20, total = 1260 n + 20 |
| SeatBooking.FareIncreases | frontend/js/booking.js:369-373 | the total strictly increases with the seat count |
| SeatBooking.SeatCountFromTotal | frontend/js/booking.js:369-373 | the seat count can be recovered from the total |
| SeatBooking.FarePanelFor | frontend/js/booking.js:245-280 | with seats selected, the panel shows their fare and enables booking; with none, it shows zeros and disables booking |
| SeatBooking.SeatLabels | frontend/js/booking.js:339-342 | one `data-seat-number` string per seat, in selection order |
| SeatBooking.ProcessSeatBooking | frontend/js/booking.js:328-414 | the seats booked are those selected on the seat map, so they are ascending, free and not the driver's. Without a user, without seats or with a blank passenger field, the matching refusal is returned and nothing is saved; otherwise exactly one booking is appended and earlier entries are unchanged. That booking has the clock as id, one passenger per seat in selection order carrying its seat label, the seat count, the fare for that many seats, and status "confirmed" and payment "paid" |
| CustomerDashboard.MayOpen | frontend/js/customer_dashboard.js:5-10 | the page opens only for a stored current user whose `userType` is exactly "customer" |
| CustomerDashboard.UserBookings | frontend/js/customer_dashboard.js:49 | the user's bookings are exactly the stored bookings with that `userId`, in stored order |
| CustomerDashboard.InsertByDatePermutes | frontend/js/customer_dashboard.js:60 | inserting adds exactly the inserted booking |
| CustomerDashboard.InsertByDateSorted | frontend/js/customer_dashboard.js:60 | inserting into a list sorted newest first keeps it sorted |
| CustomerDashboard.SortByTravelDate | frontend/js/customer_dashboard.js:60 | a stable insertion sort on travel date, newest first; its properties are `SortByTravelDateSorts` and `SortIsStable` |
| CustomerDashboard.SortByTravelDateSorts | frontend/js/customer_dashboard.js:60 | the sorted list has non-increasing travel dates and is a permutation of the input |
| CustomerDashboard.OnDateOfInsert | frontend/js/customer_dashboard.js:60 | inserting a booking puts it first among the bookings on its own date |
| CustomerDashboard.SortIsStable | frontend/js/customer_dashboard.js:60 | bookings on the same travel date keep their relative order |
| CustomerDashboard.Upcoming | frontend/js/customer_dashboard.js:69 | upcoming trips are exactly those on or after today |
| CustomerDashboard.Past | frontend/js/customer_dashboard.js:70 | past trips are exactly those before today |
| CustomerDashboard.UpcomingAndPastPartition | frontend/js/customer_dashboard.js:66-70 | every booking is in exactly one of upcoming and past, as often as it is in the list |
| CustomerDashboard.UpcomingThenPast | frontend/js/customer_dashboard.js:60-70 | on a list sorted newest first, the upcoming trips followed by the past trips are the whole list |
| CustomerDashboard.LoadUserBookings | frontend/js/customer_dashboard.js:47-85 | the "all" tab is the user's bookings as a multiset, sorted newest first. It is the upcoming tab followed by the past tab, and these hold exactly the trips on or after, respectively before, today |
| CustomerDashboard.CanCancel | frontend/js/customer_dashboard.js:150-151 | the cancel button is offered iff the travel date is later than now and the status is exactly "confirmed" |
| CustomerDashboard.CancellableIsUpcoming | frontend/js/customer_dashboard.js:150-151 | a booking offering the cancel button is in the upcoming tab and not in the past tab |
| CustomerDashboard.BookingIndex | frontend/js/customer_dashboard.js:181 | the first booking with the id, or -1 exactly when there is none |
| CustomerDashboard.Cancelled | frontend/js/customer_dashboard.js:181-185 | only the first booking with the id changes, only in its status, which becomes "cancelled"; with no match nothing changes |
| CustomerDashboard.IndexAfterCancel | frontend/js/customer_dashboard.js:181 | after a cancellation the same booking is found again |
| CustomerDashboard.CancelIsIdempotent | frontend/js/customer_dashboard.js:185 | cancelling twice is cancelling once |
| CustomerDashboard.CancelOfCancelled | frontend/js/customer_dashboard.js:185 | cancelling an already-cancelled booking leaves the list unchanged |
| CustomerDashboard.CancelledIsNotCancellable | frontend/js/customer_dashboard.js:150-151 | a cancelled booking no longer offers the cancel button |
| CustomerDashboard.CancelBooking | frontend/js/customer_dashboard.js:178-195 | in place on the parsed array: a confirmed dialog leaves it as `Cancelled` of its old contents; a declined dialog or an unknown id leaves it unchanged |
| CustomerDashboard.ProfileBookingCount | frontend/js/customer_dashboard.js:214-216 | the profile count is the number of stored positions holding a booking with the user's `userId` |
| CustomerDashboard.ProfileCountMatchesTabs | frontend/js/customer_dashboard.js:215-216 | the profile counts as many bookings as the "all" tab lists |
| AdminDashboard.MayOpen | frontend/js/admin_dashboard.js:3-8 | the page opens only for a stored current user whose `userType` is exactly "admin" |
| AdminDashboard.DeleteBus | frontend/js/admin_dashboard.js:164-177 | a confirmed delete keeps exactly the buses with another id, in their original order; a declined one keeps everything. A confirmed delete keeps as many entries as there are positions holding a kept one, so an entry listed twice stays twice |
| AdminDashboard.DeleteRoute | frontend/js/admin_dashboard.js:257-279 | while some bus uses the route, the delete is refused before the dialog and nothing changes. Otherwise a confirmed delete keeps exactly the routes with another id in order, and a declined one keeps everything. A confirmed delete keeps as many entries as there are positions holding a kept one, so an entry listed twice stays twice |
| AdminDashboard.DeleteBooking | frontend/js/admin_dashboard.js:364-377 | a confirmed delete keeps exactly the bookings whose `bookingId` and `id` both differ, in order; a declined one keeps everything. A confirmed delete keeps as many entries as there are positions holding a kept one, so an entry listed twice stays twice |
| AdminDashboard.DeleteUser | frontend/js/admin_dashboard.js:449-479 | the admin's own account is refused first, then a user owning bookings, both before the dialog, and neither changes anything. Otherwise a confirmed delete keeps exactly the users whose `id` and `userId` both differ, in order. A confirmed delete keeps as many entries as there are positions holding a kept one, so an entry listed twice stays twice |
| AdminDashboard.AdminKeepsOwnRecord | frontend/js/admin_dashboard.js:451-456 | the signed-in admin's record survives every delete request |
| AdminDashboard.DeleteUserKeepsOwners | frontend/js/admin_dashboard.js:458-469 | when every user's `id` is its `userId`, no user who owns a booking is removed |
| AdminDashboard.DashboardStats | frontend/js/admin_dashboard.js:50-62 | the four counters are the lengths of the stored bus, route, booking and user lists |
| AdminDashboard.BusCounterAfterDelete | frontend/js/admin_dashboard.js:50-62 | after a confirmed bus delete the bus counter drops by the number of buses with that id; the other counters equal their lists' lengths |
| AdminDashboard.MergedBus | frontend/js/admin_dashboard.js:569-585 | the merge takes every form field, keeps `id` and `routeId`, and sets `isActive` iff status is "Active" |
| AdminDashboard.NewBus | frontend/js/admin_dashboard.js:569-592 | a new bus carries the fresh id, the form fields, no route, and `isActive` iff status is "Active" |
| AdminDashboard.BusIndex | frontend/js/admin_dashboard.js:579 | the first bus with the id, or -1 exactly when there is none |
| AdminDashboard.SaveBus | frontend/js/admin_dashboard.js:557-606 | an invalid form changes nothing. An edit merges the form into the first bus with the id; the length and every other bus stay, and nothing changes if the id is unknown. An add appends exactly one new bus. Consistency of `isActive` with status is preserved |
| AdminDashboard.MergedRoute | frontend/js/admin_dashboard.js:621-642 | the merge takes the form fields, writes each end into both of its fields, and keeps `id` |
| AdminDashboard.NewRoute | frontend/js/admin_dashboard.js:621-646 | a new route carries the fresh id and the form fields, each end in both of its fields |
| AdminDashboard.RouteIndex | frontend/js/admin_dashboard.js:633 | the first route with the id, or -1 exactly when there is none |
| AdminDashboard.SaveRoute | frontend/js/admin_dashboard.js:609-660 | as for `SaveBus`; the agreement of `source` with `from` and of `destination` with `to` is preserved |
| AdminDashboard.BookingIndex | frontend/js/admin_dashboard.js:666 | the first booking whose `bookingId` or `id` is the id, or -1 exactly when there is none |
| AdminDashboard.SaveBooking | frontend/js/admin_dashboard.js:663-683 | in place on the parsed array: only the first matching booking changes, only in status; with no match nothing changes |
| AdminDashboard.UserIndex | frontend/js/admin_dashboard.js:689 | the first user whose `id` or `userId` is the id, or -1 exactly when there is none |
| AdminDashboard.SaveUser | frontend/js/admin_dashboard.js:686-708 | in place on the parsed array: only the first matching user changes, with both `userType` and `role` set to the new role; with no match nothing changes; agreement of the two fields is preserved |
| AdminDashboard.DeleteBookingMissesPageBookings | frontend/js/admin_dashboard.js:367 | a booking built by the seat page survives a confirmed delete through its own button |
| AdminDashboard.SaveBookingMissesPageBookings | frontend/js/admin_dashboard.js:666 | on bookings with a numeric `bookingId` and no `id`, as the seat page builds them, the status form finds no booking for any button id |
| AdminDashboard.IdText | frontend/js/admin_dashboard.js:310-311 | an id rendered into the `data-id` attribute: a string id as itself, a number as digits that `parseInt` reads back to that number |
| AdminDashboard.BookingDataId | frontend/js/admin_dashboard.js:310-311 | the rendered `bookingId`, or the rendered `id` when `bookingId` is falsy: a non-empty string `bookingId` is the button id itself, a non-zero numeric one renders to text that parses back to it, and a falsy `bookingId` (undefined, 0 or "") falls back to the rendered `id`; `DataIdFindsEveryBooking` and `DeleteByDataIdAgreesOnStringIds` are its properties |
| AdminDashboard.DeleteBookingByDataId | frontend/js/admin_dashboard.js:310-311 | a confirmed delete keeps exactly the bookings whose button id differs, in order. A confirmed delete keeps as many entries as there are positions holding a kept one, so an entry listed twice stays twice |
| AdminDashboard.DeleteByDataIdRemovesClicked | frontend/js/admin_dashboard.js:311 | the booking whose button was clicked is removed |
| AdminDashboard.DeleteByDataIdAgreesOnStringIds | frontend/js/admin_dashboard.js:364-377 | on bookings with equal non-empty string ids, such as the demo data, the corrected delete is the written one |
| AdminDashboard.BookingIndexByDataId | frontend/js/admin_dashboard.js:310 | the first booking with the button id, or -1 exactly when there is none |
| AdminDashboard.SaveBookingByDataId | frontend/js/admin_dashboard.js:663-683 | in place on the parsed array, the status form matching by button id changes only the status of the first booking with that id; with no match nothing changes |
| AdminDashboard.DataIdFindsEveryBooking | frontend/js/admin_dashboard.js:310 | every listed booking is found by its own button id |
| Register.IndexOf | frontend/js/register.js:36-37 | the first position of a character, or -1 exactly when absent |
| Register.EmailMatchesIsSound | frontend/js/register.js:36-37 | what the one-pass email check accepts matches the pattern |
| Register.EmailMatchesIsComplete | frontend/js/register.js:36-37 | everything matching the pattern is accepted |
| Register.EmailMatchesIsPattern | frontend/js/register.js:36-40 | the email check accepts exactly the pattern's language: a non-empty local part, '@', and a domain with a '.' neither first nor last, nowhere white space or a second '@' |
| Register.EmailPatternHasOneAt | frontend/js/register.js:36 | a matching address holds exactly one '@' and no white space |
| Register.PhoneDigits | frontend/js/register.js:44 | deleting non-digits leaves exactly the phone's digits, in their original order (a subsequence of the input), one per digit position of the input |
| Register.FormattingIsIgnored | frontend/js/register.js:43-47 | inserting a non-digit anywhere changes neither the digits nor the verdict |
| Register.ValidateForm | frontend/js/register.js:28-62 | the form passes iff every check passes; checks run in the order empty, email, phone, length, match, and the first failure's message is reported |
| Register.EmptyFieldWins | frontend/js/register.js:30-33 | an empty email or password is reported as an empty field |
| Login.SubmitLogin | frontend/js/login.js:14-53 | an empty field is refused before any attempt. Login succeeds iff the email contains '@' and the password has at least 6 characters, and then the stored record holds that email, `isLoggedIn` true and the clock. Otherwise it fails and nothing is stored |
| Login.RegisteredCredentialsLogIn | frontend/js/login.js:34 | every email and password accepted at registration pass the login check |
| Login.RedirectTarget | frontend/js/login.js:84-91 | no stored user, no redirect; otherwise the admin dashboard iff `userType` is "admin", and the customer dashboard otherwise |
| Login.RedirectAdmitsAdminsAndCustomers | frontend/js/login.js:84-91 | admins and customers are sent to a dashboard that admits them |
| Login.RedirectRefusedForOtherTypes | frontend/js/login.js:84-91 | any other user type is sent to the customer dashboard, which refuses it |
| Login.CheckedRedirectTarget | frontend/js/login.js:84-91 | the corrected redirect only targets a dashboard that admits the user; it agrees with the written one for admins and customers |

The customer dashboard's `formatTime` (frontend/js/customer_dashboard.js:227-237) is the same function as the booking page's, so it is modelled once as `SeatBooking.FormatTime`. The redirect of a signed-in user on the registration page (frontend/js/register.js:135-144) is the same as the login page's.

## Left out

- DOM rendering, messages, alerts, animations, timers and page navigation are left out. Only the values these pages compute and store are modelled.
- `localStorage` and JSON (de)serialisation are left out. Lists are passed in and returned.
- `confirm` dialogs and `checkValidity` are left out. Their results are boolean parameters.
- `Math.random` is left out. The seat draws are an oracle sequence, and `generateId` values are a `freshId` parameter.
- `GenerateRandomBookedSeats`: requires the oracle to offer enough distinct draws, because the loop terminates only then.
- `Date.now()`, `new Date()`, `getCurrentDate()` and date parsing are left out. Instants are integers passed in. An unparsable date (NaN) is not modelled.
- Floating point is left out. Fares, prices and distances are exact reals, and rounding by `toFixed` for display is not modelled.
- `parseFloat` of the route form is left out. Its values enter as reals.
- `AdminDashboard.BusForm`: the bus capacity enters as the integer `parseInt` yields, because the form's number input is validated first. A NaN capacity is not modelled.
- `JsText.ParseInt`: does not model hexadecimal prefixes, which `parseInt` without a radix accepts. It also does not model the precision loss beyond 2^53.
- String lengths count characters, not UTF-16 code units. This matters only outside the Basic Multilingual Plane.
- `AdminDashboard.SaveBus`, `AdminDashboard.SaveRoute`: `saveBus` and `saveRoute` either edit an entry of the freshly parsed array in place or push a new one onto it. A Dafny array cannot grow, so both are modelled as returning the new sequence; the in-place update of the parsed array is not captured.
- `CustomerDashboard.CancelBooking`: the loose `==` of `cancelBooking` is modelled as strict equality. Stored `bookingId`s may be strings (the demo data's "BK-1001") or numbers (`Date.now()` from the seat page). `==` and `===` differ only for a string that renders a number equal to the other id, or for `null` against `undefined`, and no page writes such a pair.
- `SeatBooking.ProcessSeatBooking`: passenger input is taken per seat, as the form `generatePassengerForm` builds. A booking submitted before that form exists, after its 300 ms delay, is not modelled.
- The admin and customer dashboards' table rendering, their `editBus`/`editRoute`/`editBooking`/`editUser` form fillers, and `loadUserProfile`'s display fields are not modelled. They are display only.
- The registration page's simulated email-exists check and `registerUser` are left out. The check is random and `registerUser` only simulates a request.
- backend/server.js, frontend/js/main.js, frontend/js/script.js and frontend/js/booking_confirmation.js are not part of this model.

## Findings

| source | as written | input that shows it | evidently intended | confidence | as-written member | corrected member |
|---|---|---|---|---|---|---|
| frontend/js/booking.js:382-383 with frontend/js/customer_dashboard.js:99-100 | every booking stores the already formatted times "08:00 AM" and "06:00 PM", and the dashboard passes them through `formatTime` again | any booking made on the seat page | the trip is shown departing at "8:00 AM" and arriving at "6:00 PM" | high, not executed | SeatBooking.StoredDepartureFormattedTwice, SeatBooking.StoredArrivalFormattedTwice | SeatBooking.ClockDepartureFormatted, SeatBooking.ClockArrivalFormatted |
| frontend/js/admin_dashboard.js:367 and 666 | `deleteBooking` and `saveBooking` compare the button's string id with `===` against `bookingId`, which the seat page stores as the number `Date.now()` | a booking with `bookingId` 1700000000000 and no `id`; its button carries "1700000000000" | the clicked booking is deleted, or has its status updated | high, not executed | AdminDashboard.DeleteBookingMissesPageBookings, AdminDashboard.SaveBookingMissesPageBookings | AdminDashboard.DeleteBookingByDataId, AdminDashboard.SaveBookingByDataId |
| frontend/js/login.js:84-91 with frontend/js/customer_dashboard.js:5-10 | a stored user whose `userType` is neither "admin" nor "customer" is sent to the customer dashboard, which refuses them and sends them back to the login page, and so on | a current user with `userType` "user" | such a user stays on the login page | medium, not executed | Login.RedirectRefusedForOtherTypes | Login.CheckedRedirectTarget |

The model of `processSeatBooking`, `deleteBooking` and `saveBooking` keeps the behaviour as written. The corrected members stand beside them.
