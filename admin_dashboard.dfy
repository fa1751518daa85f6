/**
 * The admin dashboard: guarded, filter-based deletes of buses, routes,
 * bookings and users; the bus and route forms, which edit an entry in place
 * or append a new one; the booking-status and user-role forms; and the
 * dashboard counters.
 *
 * Ids reach these operations from `data-id` attributes and form inputs, so
 * in the page they are always strings, `Str(...)`; equality is `===`.
 */
module AdminDashboard {
  import opened Wrappers
  import opened JsText
  import opened Seqs
  import opened Records
  import SeatBooking

  /** The page opens only for a stored current user whose `userType` is exactly "admin". */
  predicate MayOpen(currentUser: Option<User>) {
    currentUser.Some? && currentUser.value.userType == "admin"
  }

  // ---------------------------------------------------------------------
  // Deletes

  /** How a delete request ended: done, declined in the dialog, or refused by a guard. */
  datatype DeleteOutcome = Deleted | Declined | RouteInUse | OwnAccount | HasBookings

  datatype Deletion<T> = Deletion(outcome: DeleteOutcome, remaining: seq<T>)

  /** The filter `deleteBus` applies: `bus => bus.id !== busId`. */
  function KeepsBus(busId: JsId): Bus -> bool {
    (b: Bus) => b.id != busId
  }

  /** `deleteBus(busId)`: after confirmation keep exactly the buses whose `id` differs. */
  function DeleteBus(buses: seq<Bus>, busId: JsId, confirmed: bool): (d: Deletion<Bus>)
    ensures d.outcome == (if confirmed then Deleted else Declined)
    ensures !confirmed ==> d.remaining == buses
    ensures confirmed ==> forall b :: b in d.remaining <==> b in buses && b.id != busId
    ensures confirmed ==> |d.remaining| == |set i: nat | i < |buses| && buses[i].id != busId|
    ensures IsSubsequence(d.remaining, buses)
  {
    if confirmed then
      var keep := KeepsBus(busId);
      FilterLengthIsPositionCount(keep, buses);
      assert Positions(keep, buses) == set i: nat | i < |buses| && buses[i].id != busId;
      Deletion(Deleted, Filter(keep, buses))
    else
      SubsequenceOfItself(buses);
      Deletion(Declined, buses)
  }

  /**
   * `deleteRoute(routeId)`: refused, before any dialog, while some bus has
   * that `routeId`; otherwise, after confirmation, keep the routes whose
   * `id` differs.
   */
  function DeleteRoute(routes: seq<Route>, buses: seq<Bus>, routeId: JsId, confirmed: bool): (d: Deletion<Route>)
    ensures (exists b :: b in buses && b.routeId == routeId) ==> d.outcome == RouteInUse && d.remaining == routes
    ensures (forall b :: b in buses ==> b.routeId != routeId) ==>
      d.outcome == (if confirmed then Deleted else Declined)
    ensures d.outcome != Deleted ==> d.remaining == routes
    ensures d.outcome == Deleted ==> forall r :: r in d.remaining <==> r in routes && r.id != routeId
    ensures d.outcome == Deleted ==> |d.remaining| == |set i: nat | i < |routes| && routes[i].id != routeId|
    ensures IsSubsequence(d.remaining, routes)
  {
    SubsequenceOfItself(routes);
    if SomeMatch((b: Bus) => b.routeId == routeId, buses) then Deletion(RouteInUse, routes)
    else if confirmed then
      var keep := (r: Route) => r.id != routeId;
      FilterLengthIsPositionCount(keep, routes);
      assert Positions(keep, routes) == set i: nat | i < |routes| && routes[i].id != routeId;
      Deletion(Deleted, Filter(keep, routes))
    else Deletion(Declined, routes)
  }

  /** `deleteBooking(bookingId)`: after confirmation keep the bookings whose `bookingId` and `id` both differ. */
  function DeleteBooking(bookings: seq<Booking>, bookingId: JsId, confirmed: bool): (d: Deletion<Booking>)
    ensures d.outcome == (if confirmed then Deleted else Declined)
    ensures !confirmed ==> d.remaining == bookings
    ensures confirmed ==> forall b :: b in d.remaining <==> b in bookings && b.bookingId != bookingId && b.id != bookingId
    ensures confirmed ==>
      |d.remaining| == |set i: nat | i < |bookings| && bookings[i].bookingId != bookingId && bookings[i].id != bookingId|
    ensures IsSubsequence(d.remaining, bookings)
  {
    if confirmed then
      var keep := (b: Booking) => b.bookingId != bookingId && b.id != bookingId;
      FilterLengthIsPositionCount(keep, bookings);
      assert Positions(keep, bookings)
          == set i: nat | i < |bookings| && bookings[i].bookingId != bookingId && bookings[i].id != bookingId;
      Deletion(Deleted, Filter(keep, bookings))
    else
      SubsequenceOfItself(bookings);
      Deletion(Declined, bookings)
  }

  /** The delete request names the signed-in admin, by `id` or by `userId`. */
  predicate IsOwnAccount(currentUser: User, userId: JsId) {
    currentUser.id == userId || currentUser.userId == userId
  }

  /** Some booking belongs to `userId`. */
  predicate OwnsBookings(bookings: seq<Booking>, userId: JsId) {
    exists b :: b in bookings && b.userId == userId
  }

  /**
   * `deleteUser(userId)`: refused for the admin's own account, then for a
   * user who owns bookings, both before any dialog; otherwise, after
   * confirmation, keep the users whose `id` and `userId` both differ.
   */
  function DeleteUser(users: seq<User>, bookings: seq<Booking>, currentUser: User, userId: JsId, confirmed: bool)
    : (d: Deletion<User>)
    ensures IsOwnAccount(currentUser, userId) ==> d.outcome == OwnAccount
    ensures !IsOwnAccount(currentUser, userId) && OwnsBookings(bookings, userId) ==> d.outcome == HasBookings
    ensures !IsOwnAccount(currentUser, userId) && !OwnsBookings(bookings, userId) ==>
      d.outcome == (if confirmed then Deleted else Declined)
    ensures d.outcome != Deleted ==> d.remaining == users
    ensures d.outcome == Deleted ==> forall u :: u in d.remaining <==> u in users && u.id != userId && u.userId != userId
    ensures d.outcome == Deleted ==>
      |d.remaining| == |set i: nat | i < |users| && users[i].id != userId && users[i].userId != userId|
    ensures IsSubsequence(d.remaining, users)
  {
    SubsequenceOfItself(users);
    if IsOwnAccount(currentUser, userId) then Deletion(OwnAccount, users)
    else if SomeMatch((b: Booking) => b.userId == userId, bookings) then Deletion(HasBookings, users)
    else if confirmed then
      var keep := (u: User) => u.id != userId && u.userId != userId;
      FilterLengthIsPositionCount(keep, users);
      assert Positions(keep, users) == set i: nat | i < |users| && users[i].id != userId && users[i].userId != userId;
      Deletion(Deleted, Filter(keep, users))
    else Deletion(Declined, users)
  }

  /** Whatever is asked, the signed-in admin's own record stays. */
  lemma AdminKeepsOwnRecord(users: seq<User>, bookings: seq<Booking>, currentUser: User, userId: JsId, confirmed: bool)
    requires currentUser in users
    ensures currentUser in DeleteUser(users, bookings, currentUser, userId, confirmed).remaining
  {
  }

  /**
   * With every user's `id` equal to its `userId`, a deletion removes no user
   * that owns a booking: every booking's owner is still there.
   */
  lemma DeleteUserKeepsOwners(users: seq<User>, bookings: seq<Booking>, currentUser: User, userId: JsId,
                              confirmed: bool, b: Booking, owner: User)
    requires forall u :: u in users ==> u.id == u.userId
    requires b in bookings && owner in users && owner.userId == b.userId
    ensures owner in DeleteUser(users, bookings, currentUser, userId, confirmed).remaining
  {
    var d := DeleteUser(users, bookings, currentUser, userId, confirmed);
    if d.outcome == Deleted {
      assert !OwnsBookings(bookings, userId);
    }
  }

  // ---------------------------------------------------------------------
  // Counters

  /** What `loadDashboardStats` shows. */
  datatype Stats = Stats(totalBuses: nat, totalRoutes: nat, totalBookings: nat, totalUsers: nat)

  function DashboardStats(buses: seq<Bus>, routes: seq<Route>, bookings: seq<Booking>, users: seq<User>): Stats {
    Stats(|buses|, |routes|, |bookings|, |users|)
  }

  /** A confirmed bus delete lowers the bus counter by the number of buses carrying that id, and by nothing else. */
  lemma BusCounterAfterDelete(buses: seq<Bus>, routes: seq<Route>, bookings: seq<Booking>, users: seq<User>, busId: JsId)
    ensures var after := DashboardStats(DeleteBus(buses, busId, true).remaining, routes, bookings, users);
      && after.totalBuses == |buses| - |set i: nat | i < |buses| && buses[i].id == busId|
      && after.totalRoutes == |routes| && after.totalBookings == |bookings| && after.totalUsers == |users|
  {
    var keep := KeepsBus(busId);
    var drop := (b: Bus) => b.id == busId;
    FilterPartitionLength(keep, drop, buses);
    FilterLengthIsPositionCount(drop, buses);
    assert Positions(drop, buses) == set i: nat | i < |buses| && buses[i].id == busId;
  }

  // ---------------------------------------------------------------------
  // The bus and route forms

  /** The bus form's values; `capacity` is `parseInt` of its number input. */
  datatype BusForm = BusForm(busNumber: string, busType: string, capacity: int, status: string)

  /** A bus is consistent when `isActive` says exactly whether `status` is "Active". */
  predicate StatusConsistent(b: Bus) {
    b.isActive <==> b.status == "Active"
  }

  /** `{...bus, ...busData}`: the form's fields over the stored bus; `id` and `routeId` stay. */
  function MergedBus(bus: Bus, form: BusForm): (r: Bus)
    ensures r.id == bus.id && r.routeId == bus.routeId
    ensures r.busNumber == form.busNumber && r.busType == form.busType
    ensures r.totalSeats == form.capacity && r.status == form.status
    ensures StatusConsistent(r)
  {
    bus.(busNumber := form.busNumber, busType := form.busType, totalSeats := form.capacity,
         status := form.status, isActive := form.status == "Active")
  }

  /** `busData` with `id = generateId()`; such a bus has no route. */
  function NewBus(freshId: string, form: BusForm): (r: Bus)
    ensures r.id == Str(freshId) && r.routeId == Undefined
    ensures r.busNumber == form.busNumber && r.busType == form.busType
    ensures r.totalSeats == form.capacity && r.status == form.status
    ensures StatusConsistent(r)
  {
    Bus(Str(freshId), form.busNumber, form.busType, form.capacity, form.status, form.status == "Active", Undefined)
  }

  /** `buses.findIndex(bus => bus.id === busId)`. */
  function BusIndex(buses: seq<Bus>, busId: JsId): (i: int)
    ensures -1 <= i < |buses|
    ensures i == -1 <==> forall j :: 0 <= j < |buses| ==> buses[j].id != busId
    ensures i >= 0 ==> buses[i].id == busId && forall j :: 0 <= j < i ==> buses[j].id != busId
  {
    FindIndex((b: Bus) => b.id == busId, buses)
  }

  /**
   * `saveBus()`: nothing when the form is invalid; with a (non-empty) hidden
   * id, merge the form into the first bus with that id, if any; without
   * one, append a new bus under `freshId`. Every saved bus is consistent.
   */
  method SaveBus(stored: seq<Bus>, formValid: bool, busId: string, form: BusForm, freshId: string)
    returns (buses: seq<Bus>)
    ensures !formValid ==> buses == stored
    ensures formValid && busId != "" ==> |buses| == |stored|
    ensures formValid && busId != "" && BusIndex(stored, Str(busId)) == -1 ==> buses == stored
    ensures formValid && busId != "" ==> var i := BusIndex(stored, Str(busId));
      i >= 0 ==> (buses[i] == MergedBus(stored[i], form)
                  && forall j :: 0 <= j < |buses| && j != i ==> buses[j] == stored[j])
    ensures formValid && busId == "" ==> buses == stored + [NewBus(freshId, form)]
    ensures (forall b :: b in stored ==> StatusConsistent(b)) ==> forall b :: b in buses ==> StatusConsistent(b)
  {
    buses := stored;
    if !formValid {
      return;
    }
    if busId != "" {
      var busIndex := BusIndex(buses, Str(busId));
      if busIndex != -1 {
        buses := buses[busIndex := MergedBus(buses[busIndex], form)];
      }
    } else {
      buses := buses + [NewBus(freshId, form)];
    }
  }

  /** The route form's values; the numbers are `parseFloat` of its inputs. */
  datatype RouteForm = RouteForm(from: string, to: string, distance: real, duration: real, price: real)

  /** A route whose duplicated end fields agree: `source` is `from` and `destination` is `to`. */
  predicate EndsAgree(r: Route) {
    r.source == r.from && r.destination == r.to
  }

  /** `{...route, ...routeData}`: the form's fields over the stored route; `id` stays. */
  function MergedRoute(route: Route, form: RouteForm): (r: Route)
    ensures r.id == route.id
    ensures r.from == form.from && r.to == form.to && EndsAgree(r)
    ensures r.distance == form.distance && r.duration == form.duration && r.price == form.price
  {
    route.(source := form.from, from := form.from, destination := form.to, to := form.to,
           distance := form.distance, duration := form.duration, price := form.price)
  }

  /** `routeData` with `id = generateId()`. */
  function NewRoute(freshId: string, form: RouteForm): (r: Route)
    ensures r.id == Str(freshId)
    ensures r.from == form.from && r.to == form.to && EndsAgree(r)
    ensures r.distance == form.distance && r.duration == form.duration && r.price == form.price
  {
    Route(Str(freshId), form.from, form.from, form.to, form.to, form.distance, form.duration, form.price)
  }

  /** `routes.findIndex(route => route.id === routeId)`. */
  function RouteIndex(routes: seq<Route>, routeId: JsId): (i: int)
    ensures -1 <= i < |routes|
    ensures i == -1 <==> forall j :: 0 <= j < |routes| ==> routes[j].id != routeId
    ensures i >= 0 ==> routes[i].id == routeId && forall j :: 0 <= j < i ==> routes[j].id != routeId
  {
    FindIndex((r: Route) => r.id == routeId, routes)
  }

  /** `saveRoute()`, shaped like `saveBus()`. Every saved route has agreeing end fields. */
  method SaveRoute(stored: seq<Route>, formValid: bool, routeId: string, form: RouteForm, freshId: string)
    returns (routes: seq<Route>)
    ensures !formValid ==> routes == stored
    ensures formValid && routeId != "" ==> |routes| == |stored|
    ensures formValid && routeId != "" && RouteIndex(stored, Str(routeId)) == -1 ==> routes == stored
    ensures formValid && routeId != "" ==> var i := RouteIndex(stored, Str(routeId));
      i >= 0 ==> (routes[i] == MergedRoute(stored[i], form)
                  && forall j :: 0 <= j < |routes| && j != i ==> routes[j] == stored[j])
    ensures formValid && routeId == "" ==> routes == stored + [NewRoute(freshId, form)]
    ensures (forall r :: r in stored ==> EndsAgree(r)) ==> forall r :: r in routes ==> EndsAgree(r)
  {
    routes := stored;
    if !formValid {
      return;
    }
    if routeId != "" {
      var routeIndex := RouteIndex(routes, Str(routeId));
      if routeIndex != -1 {
        routes := routes[routeIndex := MergedRoute(routes[routeIndex], form)];
      }
    } else {
      routes := routes + [NewRoute(freshId, form)];
    }
  }

  // ---------------------------------------------------------------------
  // The booking-status and user-role forms

  /** `bookings.findIndex(b => b.bookingId === bookingId || b.id === bookingId)`. */
  function BookingIndex(bookings: seq<Booking>, bookingId: JsId): (i: int)
    ensures -1 <= i < |bookings|
    ensures i == -1 <==> forall j :: 0 <= j < |bookings| ==> bookings[j].bookingId != bookingId && bookings[j].id != bookingId
    ensures i >= 0 ==> (bookings[i].bookingId == bookingId || bookings[i].id == bookingId)
    ensures i >= 0 ==> forall j :: 0 <= j < i ==> bookings[j].bookingId != bookingId && bookings[j].id != bookingId
  {
    FindIndex((b: Booking) => b.bookingId == bookingId || b.id == bookingId, bookings)
  }

  /** `saveBooking()`: set the status of the first booking matching by `bookingId` or `id`; nothing else changes. */
  method SaveBooking(bookings: array<Booking>, bookingId: string, newStatus: string)
    modifies bookings
    ensures BookingIndex(old(bookings[..]), Str(bookingId)) == -1 ==> bookings[..] == old(bookings[..])
    ensures var i := BookingIndex(old(bookings[..]), Str(bookingId));
      i >= 0 ==> (bookings[i] == old(bookings[i]).(status := newStatus)
                  && forall j :: 0 <= j < bookings.Length && j != i ==> bookings[j] == old(bookings[j]))
  {
    var bookingIndex := BookingIndex(bookings[..], Str(bookingId));
    if bookingIndex == -1 {
      return;
    }
    bookings[bookingIndex] := bookings[bookingIndex].(status := newStatus);
  }

  /** `users.findIndex(u => u.id === userId || u.userId === userId)`. */
  function UserIndex(users: seq<User>, userId: JsId): (i: int)
    ensures -1 <= i < |users|
    ensures i == -1 <==> forall j :: 0 <= j < |users| ==> users[j].id != userId && users[j].userId != userId
    ensures i >= 0 ==> (users[i].id == userId || users[i].userId == userId)
    ensures i >= 0 ==> forall j :: 0 <= j < i ==> users[j].id != userId && users[j].userId != userId
  {
    FindIndex((u: User) => u.id == userId || u.userId == userId, users)
  }

  /** `userType` and `role` name the same role. */
  predicate RoleAgrees(u: User) {
    u.userType == u.role
  }

  /**
   * `saveUser()`: give the first user matching by `id` or `userId` the new
   * role in both `userType` and `role`; nothing else changes.
   */
  method SaveUser(users: array<User>, userId: string, newRole: string)
    modifies users
    ensures UserIndex(old(users[..]), Str(userId)) == -1 ==> users[..] == old(users[..])
    ensures var i := UserIndex(old(users[..]), Str(userId));
      i >= 0 ==> (users[i] == old(users[i]).(userType := newRole, role := newRole)
                  && RoleAgrees(users[i])
                  && forall j :: 0 <= j < users.Length && j != i ==> users[j] == old(users[j]))
    ensures (forall u :: u in old(users[..]) ==> RoleAgrees(u)) ==> forall u :: u in users[..] ==> RoleAgrees(u)
  {
    var userIndex := UserIndex(users[..], Str(userId));
    if userIndex == -1 {
      return;
    }
    users[userIndex] := users[userIndex].(userType := newRole, role := newRole);
  }

  // ---------------------------------------------------------------------
  // The ids the booking table hands to its buttons

  /** `${x}`: how an id is rendered into an attribute; a rendered number parses back to itself. */
  function IdText(x: JsId): (t: string)
    ensures x.Num? ==> ParseInt(t) == Some(x.n)
    ensures x.Str? ==> t == x.s
  {
    ParseIntOfIntToString(if x.Num? then x.n else 0);
    match x
    case Undefined => "undefined"
    case Num(n) => IntToString(n)
    case Str(s) => s
  }

  /** JavaScript truthiness of an id. */
  predicate Truthy(x: JsId) {
    match x
    case Undefined => false
    case Num(n) => n != 0
    case Str(s) => s != ""
  }

  /** `data-id="${booking.bookingId || booking.id}"` on the booking table's buttons. */
  function BookingDataId(b: Booking): (r: string)
    ensures b.bookingId.Str? && b.bookingId.s != "" ==> r == b.bookingId.s
    ensures b.bookingId.Num? && b.bookingId.n != 0 ==> ParseInt(r) == Some(b.bookingId.n)
    ensures !Truthy(b.bookingId) ==> r == IdText(b.id)
  {
    IdText(if Truthy(b.bookingId) then b.bookingId else b.id)
  }

  /**
   * As written: a booking made on the seat page has a numeric `bookingId`
   * and no `id`, so the strict comparison against the button's string never
   * matches it and the confirmed delete keeps it.
   */
  lemma DeleteBookingMissesPageBookings(bookings: seq<Booking>, b: Booking, user: User,
                                        seats: seq<nat>, inputs: seq<SeatBooking.PassengerInput>, now: int, today: int)
    requires |inputs| == |seats|
    requires SeatBooking.IsNewBooking(b, user, seats, inputs, now, today) && b in bookings
    ensures var d := DeleteBooking(bookings, Str(BookingDataId(b)), true);
      d.outcome == Deleted && b in d.remaining
  {
  }

  /** As written: for the same reason the status form finds no booking and changes nothing. */
  lemma SaveBookingMissesPageBookings(bookings: seq<Booking>, dataId: string)
    requires forall x :: x in bookings ==> x.bookingId.Num? && x.id == Undefined
    ensures BookingIndex(bookings, Str(dataId)) == -1
  {
  }

  /** Corrected: match a booking by the id its button carries. */
  function DeleteBookingByDataId(bookings: seq<Booking>, dataId: string, confirmed: bool): (d: Deletion<Booking>)
    ensures d.outcome == (if confirmed then Deleted else Declined)
    ensures !confirmed ==> d.remaining == bookings
    ensures confirmed ==> forall x :: x in d.remaining <==> x in bookings && BookingDataId(x) != dataId
    ensures confirmed ==> |d.remaining| == |set i: nat | i < |bookings| && BookingDataId(bookings[i]) != dataId|
    ensures IsSubsequence(d.remaining, bookings)
  {
    if confirmed then
      var keep := (x: Booking) => BookingDataId(x) != dataId;
      FilterLengthIsPositionCount(keep, bookings);
      assert Positions(keep, bookings) == set i: nat | i < |bookings| && BookingDataId(bookings[i]) != dataId;
      Deletion(Deleted, Filter(keep, bookings))
    else
      SubsequenceOfItself(bookings);
      Deletion(Declined, bookings)
  }

  /** Corrected: the booking whose button was clicked is gone, whatever kind of id it has. */
  lemma DeleteByDataIdRemovesClicked(bookings: seq<Booking>, b: Booking)
    ensures b !in DeleteBookingByDataId(bookings, BookingDataId(b), true).remaining
  {
  }

  /**
   * Corrected: on bookings whose `bookingId` and `id` are the same non-empty
   * string, as in the demo data, the corrected delete is the written one.
   */
  lemma DeleteByDataIdAgreesOnStringIds(bookings: seq<Booking>, dataId: string, confirmed: bool)
    requires forall x :: x in bookings ==> x.bookingId.Str? && x.bookingId.s != "" && x.id == x.bookingId
    ensures DeleteBookingByDataId(bookings, dataId, confirmed) == DeleteBooking(bookings, Str(dataId), confirmed)
  {
    if confirmed {
      FilterAgrees((x: Booking) => BookingDataId(x) != dataId,
                   (x: Booking) => x.bookingId != Str(dataId) && x.id != Str(dataId), bookings);
    }
  }

  /** Corrected: `saveBooking` matching by the button's id. */
  function BookingIndexByDataId(bookings: seq<Booking>, dataId: string): (i: int)
    ensures -1 <= i < |bookings|
    ensures i == -1 <==> forall j :: 0 <= j < |bookings| ==> BookingDataId(bookings[j]) != dataId
    ensures i >= 0 ==> BookingDataId(bookings[i]) == dataId
    ensures i >= 0 ==> forall j :: 0 <= j < i ==> BookingDataId(bookings[j]) != dataId
  {
    FindIndex((x: Booking) => BookingDataId(x) == dataId, bookings)
  }

  method SaveBookingByDataId(bookings: array<Booking>, dataId: string, newStatus: string)
    modifies bookings
    ensures BookingIndexByDataId(old(bookings[..]), dataId) == -1 ==> bookings[..] == old(bookings[..])
    ensures var i := BookingIndexByDataId(old(bookings[..]), dataId);
      i >= 0 ==> (bookings[i] == old(bookings[i]).(status := newStatus)
                  && forall j :: 0 <= j < bookings.Length && j != i ==> bookings[j] == old(bookings[j]))
  {
    var bookingIndex := BookingIndexByDataId(bookings[..], dataId);
    if bookingIndex == -1 {
      return;
    }
    bookings[bookingIndex] := bookings[bookingIndex].(status := newStatus);
  }

  /** Corrected: a booking in the list is always found by the id its own button carries. */
  lemma DataIdFindsEveryBooking(bookings: seq<Booking>, b: Booking)
    requires b in bookings
    ensures BookingIndexByDataId(bookings, BookingDataId(b)) >= 0
  {
  }
}
