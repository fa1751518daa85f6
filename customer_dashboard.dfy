/**
 * The customer dashboard: the signed-in customer's bookings, newest travel
 * date first and split into upcoming and past trips, the cancel button's
 * condition, cancellation, and the profile's booking count.
 */
module CustomerDashboard {
  import opened Wrappers
  import opened Seqs
  import opened Records

  /** The page opens only for a stored current user whose `userType` is exactly "customer". */
  predicate MayOpen(currentUser: Option<User>) {
    currentUser.Some? && currentUser.value.userType == "customer"
  }

  // ---------------------------------------------------------------------
  // loadUserBookings

  /** The stored bookings whose `userId` is `userId` (strict `===`), in stored order. */
  function UserBookings(bookings: seq<Booking>, userId: JsId): (r: seq<Booking>)
    ensures forall b :: b in r <==> b in bookings && b.userId == userId
    ensures IsSubsequence(r, bookings)
  {
    Filter((b: Booking) => b.userId == userId, bookings)
  }

  /** Travel dates never increase along `s`. */
  predicate NonIncreasing(s: seq<Booking>) {
    forall i, j :: 0 <= i < j < |s| ==> s[i].travelDate >= s[j].travelDate
  }

  /** The bookings of `s` travelling on instant `d`, in their order in `s`. */
  function OnDate(s: seq<Booking>, d: int): seq<Booking>
    decreases |s|
  {
    if s == [] then []
    else (if s[0].travelDate == d then [s[0]] else []) + OnDate(s[1..], d)
  }

  /** Puts `b` before the first booking of `s` whose travel date is not later than its own. */
  function InsertByDate(b: Booking, s: seq<Booking>): seq<Booking>
    decreases |s|
  {
    if s == [] || s[0].travelDate <= b.travelDate then [b] + s
    else [s[0]] + InsertByDate(b, s[1..])
  }

  lemma {:induction false} InsertByDatePermutes(b: Booking, s: seq<Booking>)
    ensures multiset(InsertByDate(b, s)) == multiset(s) + multiset{b}
    decreases |s|
  {
    if !(s == [] || s[0].travelDate <= b.travelDate) {
      InsertByDatePermutes(b, s[1..]);
      assert s == [s[0]] + s[1..];
    }
  }

  /** No booking of `s` travels later than `m`. */
  predicate NoLaterThan(s: seq<Booking>, m: int) {
    forall i :: 0 <= i < |s| ==> s[i].travelDate <= m
  }

  /** Inserting a booking no later than `m` into bookings no later than `m` keeps that bound. */
  lemma {:induction false} InsertByDateBounded(b: Booking, s: seq<Booking>, m: int)
    requires NoLaterThan(s, m) && b.travelDate <= m
    ensures NoLaterThan(InsertByDate(b, s), m)
    decreases |s|
  {
    if !(s == [] || s[0].travelDate <= b.travelDate) {
      var rest := InsertByDate(b, s[1..]);
      InsertByDateBounded(b, s[1..], m);
      var r := [s[0]] + rest;
      forall i | 0 <= i < |r| ensures r[i].travelDate <= m {
        if i > 0 {
          assert r[i] == rest[i - 1];
        }
      }
    }
  }

  /** A booking put in front of bookings that travel no later than it keeps the order. */
  lemma ConsNonIncreasing(x: Booking, t: seq<Booking>)
    requires NonIncreasing(t) && NoLaterThan(t, x.travelDate)
    ensures NonIncreasing([x] + t)
  {
    var r := [x] + t;
    forall i, j | 0 <= i < j < |r| ensures r[i].travelDate >= r[j].travelDate {
      assert r[j] == t[j - 1];
      if i > 0 {
        assert r[i] == t[i - 1];
      }
    }
  }

  lemma {:induction false} InsertByDateSorted(b: Booking, s: seq<Booking>)
    requires NonIncreasing(s)
    ensures NonIncreasing(InsertByDate(b, s))
    decreases |s|
  {
    if s == [] || s[0].travelDate <= b.travelDate {
      ConsNonIncreasing(b, s);
    } else {
      var tail := s[1..];
      assert NonIncreasing(tail) by {
        forall i, j | 0 <= i < j < |tail| ensures tail[i].travelDate >= tail[j].travelDate {
          assert tail[i] == s[i + 1] && tail[j] == s[j + 1];
        }
      }
      assert NoLaterThan(tail, s[0].travelDate) by {
        forall i | 0 <= i < |tail| ensures tail[i].travelDate <= s[0].travelDate {
          assert tail[i] == s[i + 1];
        }
      }
      InsertByDateSorted(b, tail);
      InsertByDateBounded(b, tail, s[0].travelDate);
      ConsNonIncreasing(s[0], InsertByDate(b, tail));
    }
  }

  /**
   * `userBookings.sort((a, b) => new Date(b.travelDate) - new Date(a.travelDate))`:
   * newest travel date first; `Array.prototype.sort` is stable, so bookings
   * on the same date keep their order.
   */
  function SortByTravelDate(s: seq<Booking>): seq<Booking>
    decreases |s|
  {
    if s == [] then [] else InsertByDate(s[0], SortByTravelDate(s[1..]))
  }

  /** The sorted list has travel dates newest first and holds the same bookings. */
  lemma {:induction false} SortByTravelDateSorts(s: seq<Booking>)
    ensures NonIncreasing(SortByTravelDate(s))
    ensures multiset(SortByTravelDate(s)) == multiset(s)
    decreases |s|
  {
    if s != [] {
      var rest := SortByTravelDate(s[1..]);
      SortByTravelDateSorts(s[1..]);
      InsertByDateSorted(s[0], rest);
      InsertByDatePermutes(s[0], rest);
      assert s == [s[0]] + s[1..];
      assert multiset(s) == multiset(s[1..]) + multiset{s[0]};
    }
  }

  /** `OnDate` of a booking put in front. */
  lemma OnDateCons(x: Booking, t: seq<Booking>, d: int)
    ensures OnDate([x] + t, d) == (if x.travelDate == d then [x] else []) + OnDate(t, d)
  {
    assert ([x] + t)[1..] == t;
  }

  /** Inserting a booking adds it in front of the other bookings on its own date. */
  lemma {:induction false} OnDateOfInsert(b: Booking, s: seq<Booking>, d: int)
    ensures OnDate(InsertByDate(b, s), d) == (if b.travelDate == d then [b] else []) + OnDate(s, d)
    decreases |s|
  {
    if s == [] || s[0].travelDate <= b.travelDate {
      OnDateCons(b, s, d);
    } else {
      var tail := s[1..];
      OnDateOfInsert(b, tail, d);
      OnDateCons(s[0], InsertByDate(b, tail), d);
      OnDateCons(s[0], tail, d);
      assert s == [s[0]] + tail;
    }
  }

  /** The sort is stable: on each travel date the bookings keep their relative order. */
  lemma {:induction false} SortIsStable(s: seq<Booking>, d: int)
    ensures OnDate(SortByTravelDate(s), d) == OnDate(s, d)
    decreases |s|
  {
    if s != [] {
      SortIsStable(s[1..], d);
      SortByTravelDateSorts(s[1..]);
      OnDateOfInsert(s[0], SortByTravelDate(s[1..]), d);
    }
  }

  /** Trips on or after `today` (midnight of the current day). */
  function Upcoming(s: seq<Booking>, today: int): (r: seq<Booking>)
    ensures forall b :: b in r <==> b in s && b.travelDate >= today
  {
    Filter((b: Booking) => b.travelDate >= today, s)
  }

  /** Trips before `today`. */
  function Past(s: seq<Booking>, today: int): (r: seq<Booking>)
    ensures forall b :: b in r <==> b in s && b.travelDate < today
  {
    Filter((b: Booking) => b.travelDate < today, s)
  }

  /** Every booking is in exactly one of the two lists, as often as it is in `s`. */
  lemma UpcomingAndPastPartition(s: seq<Booking>, today: int)
    ensures multiset(Upcoming(s, today)) + multiset(Past(s, today)) == multiset(s)
  {
    FilterPartition((b: Booking) => b.travelDate >= today, (b: Booking) => b.travelDate < today, s);
  }

  /** On a list sorted newest first, the upcoming trips are a prefix and the past trips the rest. */
  lemma {:induction false} UpcomingThenPast(s: seq<Booking>, today: int)
    requires NonIncreasing(s)
    ensures Upcoming(s, today) + Past(s, today) == s
    decreases |s|
  {
    if s != [] {
      if s[0].travelDate >= today {
        UpcomingThenPast(s[1..], today);
        assert s == [s[0]] + s[1..];
      } else {
        FilterNone((b: Booking) => b.travelDate >= today, s);
        FilterAll((b: Booking) => b.travelDate < today, s);
      }
    }
  }

  /** The three tabs of the dashboard. */
  datatype BookingTabs = BookingTabs(all: seq<Booking>, upcoming: seq<Booking>, past: seq<Booking>)

  /**
   * `loadUserBookings(userId)`: the user's bookings sorted newest first, and
   * that list split at `today`. Without bookings all three tabs are empty.
   */
  function LoadUserBookings(bookings: seq<Booking>, userId: JsId, today: int): (tabs: BookingTabs)
    ensures multiset(tabs.all) == multiset(UserBookings(bookings, userId))
    ensures forall b :: b in tabs.all <==> b in bookings && b.userId == userId
    ensures NonIncreasing(tabs.all)
    ensures tabs.all == tabs.upcoming + tabs.past
    ensures forall b :: b in tabs.upcoming <==> b in tabs.all && b.travelDate >= today
    ensures forall b :: b in tabs.past <==> b in tabs.all && b.travelDate < today
  {
    var userBookings := UserBookings(bookings, userId);
    var sorted := SortByTravelDate(userBookings);
    SortByTravelDateSorts(userBookings);
    assert forall b :: b in sorted <==> b in multiset(sorted);
    UpcomingThenPast(sorted, today);
    BookingTabs(sorted, Upcoming(sorted, today), Past(sorted, today))
  }

  // ---------------------------------------------------------------------
  // Cancellation

  /** The cancel button is shown when the travel date is after `now` and the status is exactly "confirmed". */
  predicate CanCancel(b: Booking, now: int) {
    b.travelDate > now && b.status == "confirmed"
  }

  /** A booking that can be cancelled sits in the upcoming tab. */
  lemma CancellableIsUpcoming(bookings: seq<Booking>, userId: JsId, today: int, now: int, b: Booking)
    requires today <= now
    requires b in LoadUserBookings(bookings, userId, today).all && CanCancel(b, now)
    ensures b in LoadUserBookings(bookings, userId, today).upcoming
    ensures b !in LoadUserBookings(bookings, userId, today).past
  {
  }

  /** `bookings.findIndex(b => b.bookingId == bookingId)`. */
  function BookingIndex(bookings: seq<Booking>, bookingId: JsId): (i: int)
    ensures -1 <= i < |bookings|
    ensures i == -1 <==> forall j :: 0 <= j < |bookings| ==> bookings[j].bookingId != bookingId
    ensures i >= 0 ==> bookings[i].bookingId == bookingId
    ensures i >= 0 ==> forall j :: 0 <= j < i ==> bookings[j].bookingId != bookingId
  {
    FindIndex((b: Booking) => b.bookingId == bookingId, bookings)
  }

  /** The first booking with `bookingId` gets status "cancelled"; nothing else changes. */
  function Cancelled(bookings: seq<Booking>, bookingId: JsId): (r: seq<Booking>)
    ensures |r| == |bookings|
    ensures BookingIndex(bookings, bookingId) == -1 ==> r == bookings
    ensures var i := BookingIndex(bookings, bookingId);
      i >= 0 ==> (r[i] == bookings[i].(status := "cancelled")
                  && forall j :: 0 <= j < |r| && j != i ==> r[j] == bookings[j])
  {
    var i := BookingIndex(bookings, bookingId);
    if i == -1 then bookings else bookings[i := bookings[i].(status := "cancelled")]
  }

  /** Cancelling changes no booking id, so the same booking is found again. */
  lemma IndexAfterCancel(bookings: seq<Booking>, bookingId: JsId)
    ensures BookingIndex(Cancelled(bookings, bookingId), bookingId) == BookingIndex(bookings, bookingId)
  {
    var i := BookingIndex(bookings, bookingId);
    var after := Cancelled(bookings, bookingId);
    var k := BookingIndex(after, bookingId);
    if i == -1 {
      assert after == bookings;
    } else {
      assert after[i].bookingId == bookingId;
    }
  }

  /** Cancelling twice is cancelling once. */
  lemma CancelIsIdempotent(bookings: seq<Booking>, bookingId: JsId)
    ensures Cancelled(Cancelled(bookings, bookingId), bookingId) == Cancelled(bookings, bookingId)
  {
    IndexAfterCancel(bookings, bookingId);
    var once := Cancelled(bookings, bookingId);
    var twice := Cancelled(once, bookingId);
    var i := BookingIndex(bookings, bookingId);
    if i >= 0 {
      assert forall j :: 0 <= j < |twice| ==> twice[j] == once[j];
    }
  }

  /** Cancelling a booking whose first match is already cancelled leaves the list as it was. */
  lemma CancelOfCancelled(bookings: seq<Booking>, bookingId: JsId)
    requires var i := BookingIndex(bookings, bookingId); i >= 0 && bookings[i].status == "cancelled"
    ensures Cancelled(bookings, bookingId) == bookings
  {
    var i := BookingIndex(bookings, bookingId);
    assert bookings[i].(status := "cancelled") == bookings[i];
    assert forall j :: 0 <= j < |bookings| ==> Cancelled(bookings, bookingId)[j] == bookings[j];
  }

  /** After a cancellation the booking no longer offers the cancel button. */
  lemma CancelledIsNotCancellable(bookings: seq<Booking>, bookingId: JsId, now: int)
    requires BookingIndex(bookings, bookingId) >= 0
    ensures !CanCancel(Cancelled(bookings, bookingId)[BookingIndex(bookings, bookingId)], now)
  {
  }

  /**
   * `cancelBooking(bookingId)` on the stored list: when the dialog is
   * confirmed, mark the first booking with that id cancelled; a declined
   * dialog or an unknown id leaves the list as it was.
   */
  method CancelBooking(bookings: array<Booking>, bookingId: JsId, confirmed: bool)
    modifies bookings
    ensures bookings[..] == if confirmed then Cancelled(old(bookings[..]), bookingId) else old(bookings[..])
    ensures !confirmed || BookingIndex(old(bookings[..]), bookingId) == -1 ==> bookings[..] == old(bookings[..])
  {
    if confirmed {
      var bookingIndex := BookingIndex(bookings[..], bookingId);
      if bookingIndex != -1 {
        bookings[bookingIndex] := bookings[bookingIndex].(status := "cancelled");
      }
    }
  }

  // ---------------------------------------------------------------------
  // loadUserProfile

  /** The profile's "total bookings": one for every stored booking with the user's `userId`. */
  function ProfileBookingCount(bookings: seq<Booking>, userId: JsId): (n: nat)
    ensures n == |set i: nat | i < |bookings| && bookings[i].userId == userId|
  {
    var p := (b: Booking) => b.userId == userId;
    FilterLengthIsPositionCount(p, bookings);
    assert Positions(p, bookings) == set i: nat | i < |bookings| && bookings[i].userId == userId;
    |UserBookings(bookings, userId)|
  }

  /** The profile counts the same bookings the dashboard lists. */
  lemma ProfileCountMatchesTabs(bookings: seq<Booking>, userId: JsId, today: int)
    ensures ProfileBookingCount(bookings, userId) == |LoadUserBookings(bookings, userId, today).all|
  {
    var tabs := LoadUserBookings(bookings, userId, today);
    assert |multiset(tabs.all)| == |multiset(UserBookings(bookings, userId))|;
  }
}
