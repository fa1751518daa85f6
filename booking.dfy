/**
 * The seat-selection and booking page: time and duration formatting, the
 * 8 x 5 seat grid with its driver slot, the randomly pre-booked seats, the
 * click toggle, the fare panel and the booking record that is appended to
 * the stored bookings.
 */
module SeatBooking {
  import opened Wrappers
  import opened JsText
  import opened Seqs
  import opened Records

  // ---------------------------------------------------------------------
  // formatTime and formatDuration

  /** The hour a 12-hour clock shows for `h`: JavaScript's `h % 12`, with 0 shown as 12. */
  function Hour12(h: int): (r: int)
    ensures h >= 0 ==> 1 <= r <= 12 && r % 12 == h % 12
    ensures h < 0 ==> -12 < r < 0 || r == 12
  {
    var rem := JsRem(h, 12);
    if rem == 0 then 12 else rem
  }

  /** "PM" exactly for a parsed hour of at least 12; NaN compares false, so it gives "AM". */
  function Meridiem(hours: Option<int>): (m: string)
    ensures m == "PM" <==> hours.Some? && hours.value >= 12
    ensures m == "AM" || m == "PM"
  {
    if hours.Some? && hours.value >= 12 then "PM" else "AM"
  }

  /**
   * `formatTime(time)`: split at ':', parse the first field as the hour,
   * copy the second field as the minutes (`undefined` when there is none),
   * and render "<hour12>:<minutes> <AM|PM>". A NaN hour is falsy after
   * `% 12`, so it is shown as 12.
   */
  function FormatTime(time: string): (r: string)
    ensures |r| >= 3 && (r[|r| - 3..] == " AM" || r[|r| - 3..] == " PM")
  {
    var parts := Split(time, ':');
    var hours := ParseInt(parts[0]);
    var minutes := if |parts| > 1 then parts[1] else "undefined";
    var shown := if hours.Some? then Hour12(hours.value) else 12;
    var clock := IntToString(shown) + ":" + minutes;
    var suffix := Meridiem(hours);
    SuffixAfterSpace(clock, suffix);
    clock + " " + suffix
  }

  /** `clock + " " + suffix` ends in " AM" or " PM" when the suffix is "AM" or "PM". */
  lemma SuffixAfterSpace(clock: string, suffix: string)
    requires suffix == "AM" || suffix == "PM"
    ensures var r := clock + " " + suffix; |r| >= 3 && (r[|r| - 3..] == " AM" || r[|r| - 3..] == " PM")
  {
    var r := clock + " " + suffix;
    assert r[|r| - 3..] == " " + suffix;
  }

  /** The second ':'-field of `hh:mm...` is `mm`, whatever follows it. */
  lemma SecondField(hh: string, mm: string, rest: string)
    requires ':' !in hh && ':' !in mm
    requires rest == [] || rest[0] == ':'
    ensures var parts := Split(hh + ":" + mm + rest, ':'); |parts| >= 2 && parts[0] == hh && parts[1] == mm
  {
    assert hh + ":" + mm + rest == hh + [':'] + (mm + rest);
    SplitAtSeparator(hh, mm + rest, ':');
    if rest == [] {
      assert mm + rest == mm;
      SplitWithoutSeparator(mm, ':');
    } else {
      assert mm + rest == mm + [':'] + rest[1..];
      SplitAtSeparator(mm, rest[1..], ':');
    }
  }

  /**
   * On a clock string "HH:MM" or "HH:MM:SS" the hour is shown as `HH % 12`
   * (0 as 12), the minutes field is copied verbatim, any seconds field is
   * dropped, and the suffix is PM exactly when HH is at least 12.
   */
  lemma FormatTimeOfClock(hh: string, mm: string, rest: string)
    requires |hh| >= 1 && AllDigits(hh) && ':' !in mm
    requires rest == [] || rest[0] == ':'
    ensures var h := DigitsValue(hh);
      FormatTime(hh + ":" + mm + rest)
        == NatToString(Hour12(h)) + ":" + mm + " " + (if h >= 12 then "PM" else "AM")
  {
    assert ':' !in hh by {
      forall i | 0 <= i < |hh| ensures hh[i] != ':' {
        assert IsDigit(hh[i]);
      }
    }
    var time := hh + ":" + mm + rest;
    SecondField(hh, mm, rest);
    var parts := Split(time, ':');
    ParseIntOfDigits(hh, []);
    assert hh + [] == hh;
    var h := DigitsValue(hh);
    var hours := ParseInt(parts[0]);
    assert hours == Some(h);
    assert IntToString(Hour12(h)) == NatToString(Hour12(h));
    assert Meridiem(hours) == (if h >= 12 then "PM" else "AM");
  }

  /** For hours 0..23 the 12-hour form is in 1..12 and, with its suffix, gives back the hour. */
  lemma Clock24To12(h: int)
    requires 0 <= h < 24
    ensures 1 <= Hour12(h) <= 12
    ensures Hour12(h) % 12 + (if h >= 12 then 12 else 0) == h
  {
  }

  /** `DigitsValue` of a two-digit string. */
  lemma TwoDigitsValue(s: string)
    requires |s| == 2 && AllDigits(s)
    ensures DigitsValue(s) == 10 * DigitValue(s[0]) + DigitValue(s[1])
  {
    var p := s[..1];
    assert DigitsValue(s) == 10 * DigitsValue(p) + DigitValue(s[1]);
    assert p[..0] == [];
    assert DigitsValue(p) == 10 * DigitsValue(p[..0]) + DigitValue(p[0]);
  }

  /**
   * The departure and arrival times `processSeatBooking` stores in every
   * booking. They already carry a meridiem, and the dashboards pass them
   * through `formatTime` again.
   */
  const StoredDeparture: string := "08:00 AM"
  const StoredArrival: string := "06:00 PM"

  /** The same times written as the "HH:MM" clock strings `formatTime` expects. */
  const ClockDeparture: string := "08:00"
  const ClockArrival: string := "18:00"

  lemma DigitsOf08() ensures DigitsValue("08") == 8 { TwoDigitsValue("08"); }
  lemma DigitsOf06() ensures DigitsValue("06") == 6 { TwoDigitsValue("06"); }
  lemma DigitsOf18() ensures DigitsValue("18") == 18 { TwoDigitsValue("18"); }

  lemma SplitStoredDeparture()
    ensures FormatTime(StoredDeparture) == FormatTime("08" + ":" + "00 AM" + [])
  {
    assert StoredDeparture == "08" + ":" + "00 AM" + [];
  }

  lemma SplitStoredArrival()
    ensures FormatTime(StoredArrival) == FormatTime("06" + ":" + "00 PM" + [])
  {
    assert StoredArrival == "06" + ":" + "00 PM" + [];
  }

  lemma SplitClockDeparture()
    ensures FormatTime(ClockDeparture) == FormatTime("08" + ":" + "00" + [])
  {
    assert ClockDeparture == "08" + ":" + "00" + [];
  }

  lemma SplitClockArrival()
    ensures FormatTime(ClockArrival) == FormatTime("18" + ":" + "00" + [])
  {
    assert ClockArrival == "18" + ":" + "00" + [];
  }

  lemma RenderDoubled()
    ensures NatToString(8) + ":" + "00 AM" + " " + "AM" == "8:00 AM AM"
    ensures NatToString(6) + ":" + "00 PM" + " " + "AM" == "6:00 PM AM"
  {
    assert NatToString(8) == "8";
    assert NatToString(6) == "6";
  }

  lemma RenderClock()
    ensures NatToString(8) + ":" + "00" + " " + "AM" == "8:00 AM"
    ensures NatToString(6) + ":" + "00" + " " + "PM" == "6:00 PM"
  {
    assert NatToString(8) == "8";
    assert NatToString(6) == "6";
  }

  /** As written: the stored departure time is shown with a doubled suffix. */
  lemma StoredDepartureFormattedTwice()
    ensures FormatTime(StoredDeparture) == "8:00 AM AM"
  {
    calc {
      FormatTime(StoredDeparture);
    == { SplitStoredDeparture(); }
      FormatTime("08" + ":" + "00 AM" + []);
    == { FormatTimeOfClock("08", "00 AM", []); }
      NatToString(Hour12(DigitsValue("08"))) + ":" + "00 AM" + " " + (if DigitsValue("08") >= 12 then "PM" else "AM");
    == { DigitsOf08(); }
      NatToString(Hour12(8)) + ":" + "00 AM" + " " + "AM";
    == { assert Hour12(8) == 8; }
      NatToString(8) + ":" + "00 AM" + " " + "AM";
    == { RenderDoubled(); }
      "8:00 AM AM";
    }
  }

  /** As written: the stored arrival time is shown doubled, and as a morning time. */
  lemma StoredArrivalFormattedTwice()
    ensures FormatTime(StoredArrival) == "6:00 PM AM"
  {
    calc {
      FormatTime(StoredArrival);
    == { SplitStoredArrival(); }
      FormatTime("06" + ":" + "00 PM" + []);
    == { FormatTimeOfClock("06", "00 PM", []); }
      NatToString(Hour12(DigitsValue("06"))) + ":" + "00 PM" + " " + (if DigitsValue("06") >= 12 then "PM" else "AM");
    == { DigitsOf06(); }
      NatToString(Hour12(6)) + ":" + "00 PM" + " " + "AM";
    == { assert Hour12(6) == 6; }
      NatToString(6) + ":" + "00 PM" + " " + "AM";
    == { RenderDoubled(); }
      "6:00 PM AM";
    }
  }

  /** Stored as a clock string, the departure time is shown as intended. */
  lemma ClockDepartureFormatted()
    ensures FormatTime(ClockDeparture) == "8:00 AM"
  {
    calc {
      FormatTime(ClockDeparture);
    == { SplitClockDeparture(); }
      FormatTime("08" + ":" + "00" + []);
    == { FormatTimeOfClock("08", "00", []); }
      NatToString(Hour12(DigitsValue("08"))) + ":" + "00" + " " + (if DigitsValue("08") >= 12 then "PM" else "AM");
    == { DigitsOf08(); }
      NatToString(Hour12(8)) + ":" + "00" + " " + "AM";
    == { assert Hour12(8) == 8; }
      NatToString(8) + ":" + "00" + " " + "AM";
    == { RenderClock(); }
      "8:00 AM";
    }
  }

  /** Stored as a clock string, the arrival time is shown as intended. */
  lemma ClockArrivalFormatted()
    ensures FormatTime(ClockArrival) == "6:00 PM"
  {
    calc {
      FormatTime(ClockArrival);
    == { SplitClockArrival(); }
      FormatTime("18" + ":" + "00" + []);
    == { FormatTimeOfClock("18", "00", []); }
      NatToString(Hour12(DigitsValue("18"))) + ":" + "00" + " " + (if DigitsValue("18") >= 12 then "PM" else "AM");
    == { DigitsOf18(); }
      NatToString(Hour12(18)) + ":" + "00" + " " + "PM";
    == { assert Hour12(18) == 6; }
      NatToString(6) + ":" + "00" + " " + "PM";
    == { RenderClock(); }
      "6:00 PM";
    }
  }

  /** `formatDuration(duration)`: "<first field>h <second field>m". */
  function FormatDuration(duration: string): (r: string)
    ensures |r| >= 3 && r[|r| - 1] == 'm'
  {
    var parts := Split(duration, ':');
    var minutes := if |parts| > 1 then parts[1] else "undefined";
    parts[0] + "h " + minutes + "m"
  }

  /** The first two ':'-fields are copied verbatim and the rest is dropped. */
  lemma FormatDurationOfClock(hh: string, mm: string, rest: string)
    requires ':' !in hh && ':' !in mm
    requires rest == [] || rest[0] == ':'
    ensures FormatDuration(hh + ":" + mm + rest) == hh + "h " + mm + "m"
  {
    SecondField(hh, mm, rest);
  }

  // ---------------------------------------------------------------------
  // Randomly pre-booked seats

  /**
   * The seats a run of draws books: each draw `d` is
   * `Math.floor(Math.random() * totalSeats)` and books seat `d + 1` unless
   * that seat was drawn before.
   */
  function DrawnSeats(draws: seq<int>): (seats: seq<int>)
    ensures forall x :: x in seats <==> x - 1 in draws
    ensures forall i, j :: 0 <= i < j < |seats| ==> seats[i] != seats[j]
    ensures |seats| == |set d | d in draws|
    decreases |draws|
  {
    if draws == [] then []
    else
      var init, last := draws[..|draws| - 1], draws[|draws| - 1];
      assert draws == init + [last];
      assert (set d | d in draws) == (set d | d in init) + {last};
      var earlier := DrawnSeats(init);
      if last + 1 in earlier then
        assert last in init;
        assert (set d | d in draws) == (set d | d in init);
        earlier
      else
        assert last !in (set d | d in init);
        earlier + [last + 1]
  }

  /** One more draw books its seat unless that seat is already booked. */
  lemma DrawnSeatsStep(draws: seq<int>, k: nat)
    requires k < |draws|
    ensures DrawnSeats(draws[..k + 1]) ==
      if draws[k] + 1 in DrawnSeats(draws[..k]) then DrawnSeats(draws[..k])
      else DrawnSeats(draws[..k]) + [draws[k] + 1]
  {
    assert draws[..k + 1][..k] == draws[..k];
  }

  /** Once every draw is used, one seat is booked per distinct draw. */
  lemma AllDrawsUsed(draws: seq<int>, k: nat)
    ensures k == |draws| ==> |DrawnSeats(draws[..k])| == |set d | d in draws|
  {
    if k == |draws| {
      assert draws[..k] == draws;
    }
  }

  /** Draws in `0..totalSeats - 1` book seats in `1..totalSeats`. */
  lemma DrawnSeatsInRange(draws: seq<int>, totalSeats: int)
    requires forall k :: 0 <= k < |draws| ==> 0 <= draws[k] < totalSeats
    ensures forall x :: x in DrawnSeats(draws) ==> 1 <= x <= totalSeats
  {
    forall x | x in DrawnSeats(draws) ensures 1 <= x <= totalSeats {
      var m :| 0 <= m < |draws| && draws[m] == x - 1;
    }
  }

  /**
   * `generateRandomBookedSeats(totalSeats, availableSeats)`: draw until
   * `totalSeats - availableSeats` distinct seats are booked. The random
   * source is the sequence `draws`; the loop ends only if it offers enough
   * distinct values.
   */
  method GenerateRandomBookedSeats(totalSeats: int, availableSeats: int, draws: seq<int>)
    returns (bookedSeats: seq<int>, ghost used: nat)
    requires forall k :: 0 <= k < |draws| ==> 0 <= draws[k] < totalSeats
    requires totalSeats - availableSeats <= |set d | d in draws|
    ensures |bookedSeats| == if totalSeats - availableSeats > 0 then totalSeats - availableSeats else 0
    ensures forall i, j :: 0 <= i < j < |bookedSeats| ==> bookedSeats[i] != bookedSeats[j]
    ensures forall x :: x in bookedSeats ==> 1 <= x <= totalSeats
    ensures used <= |draws| && bookedSeats == DrawnSeats(draws[..used])
  {
    var bookedCount := totalSeats - availableSeats;
    bookedSeats := [];
    var k := 0;
    while |bookedSeats| < bookedCount
      invariant k <= |draws|
      invariant bookedSeats == DrawnSeats(draws[..k])
      invariant |bookedSeats| <= if bookedCount > 0 then bookedCount else 0
      decreases |draws| - k
    {
      AllDrawsUsed(draws, k);
      DrawnSeatsStep(draws, k);
      var randomSeat := draws[k] + 1;
      if randomSeat !in bookedSeats {
        bookedSeats := bookedSeats + [randomSeat];
      }
      k := k + 1;
    }
    used := k;
    DrawnSeatsInRange(draws[..k], totalSeats);
  }

  // ---------------------------------------------------------------------
  // The seat grid

  const TotalSeats: nat := 40
  const SeatsPerRow: nat := 5
  /** `Math.floor(TotalSeats * 0.7)`: the page leaves 28 seats free and books the other 12. */
  const AvailableSeats: nat := 28
  /** Grid row 0, column 2 is the driver's place; its seat number would be 3. */
  const DriverRow: nat := 0
  const DriverColumn: nat := 2
  const DriverPosition: nat := DriverRow * SeatsPerRow + DriverColumn

  /** One grid element: the driver, or a numbered seat with its `booked` and `selected` classes. */
  datatype Slot = Driver | Seat(number: nat, booked: bool, selected: bool)

  /** Grid position `row * 5 + col` carries seat number `row * 5 + col + 1`, the driver's excepted. */
  function LayoutSlot(position: nat, bookedSeats: seq<int>): Slot {
    if position == DriverPosition then Driver
    else Seat(position + 1, (position + 1) in bookedSeats, false)
  }

  /** Seat numbers `row * 5 + col + 1` over 8 rows and 5 columns cover 1..40. */
  lemma GridCovers(n: int)
    requires 1 <= n <= TotalSeats
    ensures var row, col := (n - 1) / SeatsPerRow, (n - 1) % SeatsPerRow;
      row < TotalSeats / SeatsPerRow && col < SeatsPerRow && row * SeatsPerRow + col + 1 == n
  {
  }

  /** ... and each seat number belongs to one grid cell only. */
  lemma GridCellOfNumber(row: nat, col: nat)
    requires col < SeatsPerRow
    ensures (row * SeatsPerRow + col) / SeatsPerRow == row
    ensures (row * SeatsPerRow + col) % SeatsPerRow == col
  {
  }

  /** The nested row/column loop of `generateSeatLayout`, emitting the grid elements in document order. */
  method LayoutSeats(bookedSeats: seq<int>) returns (slots: seq<Slot>)
    ensures |slots| == TotalSeats
    ensures forall i :: 0 <= i < |slots| ==> slots[i] == LayoutSlot(i, bookedSeats)
  {
    slots := [];
    var rows := TotalSeats / SeatsPerRow;
    var row := 0;
    while row < rows
      invariant 0 <= row <= rows
      invariant |slots| == row * SeatsPerRow
      invariant forall i :: 0 <= i < |slots| ==> slots[i] == LayoutSlot(i, bookedSeats)
    {
      var col := 0;
      while col < SeatsPerRow
        invariant 0 <= col <= SeatsPerRow
        invariant |slots| == row * SeatsPerRow + col
        invariant forall i :: 0 <= i < |slots| ==> slots[i] == LayoutSlot(i, bookedSeats)
      {
        var seatNumber := row * SeatsPerRow + col + 1;
        if col == DriverColumn && row == DriverRow {
          slots := slots + [Driver];
        } else {
          slots := slots + [Seat(seatNumber, seatNumber in bookedSeats, false)];
        }
        col := col + 1;
      }
      row := row + 1;
    }
  }

  /** The effect of a click: only a seat that is not booked changes, and only its `selected` class. */
  function Toggled(s: Slot): (r: Slot)
    ensures s.Seat? ==> r.Seat? && r.number == s.number && r.booked == s.booked
    ensures s.Seat? && !s.booked ==> r.selected != s.selected
    ensures s.Driver? || s.booked ==> r == s
  {
    if s.Seat? && !s.booked then s.(selected := !s.selected) else s
  }

  /** Two clicks on the same seat restore it. */
  lemma ToggledTwice(s: Slot)
    ensures Toggled(Toggled(s)) == s
  {
  }

  /** Every seat in `slots` carries the number of its position, counting from `first + 1`. */
  ghost predicate NumberedFrom(slots: seq<Slot>, first: nat) {
    forall i :: 0 <= i < |slots| && slots[i].Seat? ==> slots[i].number == first + i + 1
  }

  /** `document.querySelectorAll('.seat.selected')`: the selected seat numbers in document order. */
  function SelectedNumbers(slots: seq<Slot>): seq<nat>
    decreases |slots|
  {
    if slots == [] then []
    else (if slots[0].Seat? && slots[0].selected then [slots[0].number] else []) + SelectedNumbers(slots[1..])
  }

  /** Every selected number belongs to a selected seat of `slots`, at the position its number gives. */
  lemma {:induction false} SelectedNumbersSound(slots: seq<Slot>, first: nat)
    requires NumberedFrom(slots, first)
    ensures forall x :: x in SelectedNumbers(slots) ==>
      (first < x <= first + |slots| && slots[x - first - 1].Seat? && slots[x - first - 1].selected)
    decreases |slots|
  {
    if slots != [] {
      var tail := slots[1..];
      assert NumberedFrom(tail, first + 1) by {
        forall i | 0 <= i < |tail| && tail[i].Seat? ensures tail[i].number == first + 1 + i + 1 {
          assert tail[i] == slots[i + 1];
        }
      }
      SelectedNumbersSound(tail, first + 1);
      var head := if slots[0].Seat? && slots[0].selected then [slots[0].number] else [];
      assert SelectedNumbers(slots) == head + SelectedNumbers(tail);
      forall x | x in SelectedNumbers(slots)
        ensures first < x <= first + |slots| && slots[x - first - 1].Seat? && slots[x - first - 1].selected
      {
        if x in head {
          assert x == first + 1;
        } else {
          assert x in SelectedNumbers(tail);
          assert tail[x - (first + 1) - 1] == slots[x - first - 1];
        }
      }
    }
  }

  /** Every selected seat of `slots` is listed. */
  lemma {:induction false} SelectedNumbersComplete(slots: seq<Slot>)
    ensures forall i :: 0 <= i < |slots| && slots[i].Seat? && slots[i].selected ==> slots[i].number in SelectedNumbers(slots)
    decreases |slots|
  {
    if slots != [] {
      var tail := slots[1..];
      SelectedNumbersComplete(tail);
      forall i | 0 <= i < |slots| && slots[i].Seat? && slots[i].selected
        ensures slots[i].number in SelectedNumbers(slots)
      {
        if i > 0 {
          assert tail[i - 1] == slots[i];
        }
      }
    }
  }

  predicate Ascending(r: seq<nat>) {
    forall i, j :: 0 <= i < j < |r| ==> r[i] < r[j]
  }

  /** The numbers come out in strictly increasing order. */
  lemma {:induction false} SelectedNumbersAscending(slots: seq<Slot>, first: nat)
    requires NumberedFrom(slots, first)
    ensures Ascending(SelectedNumbers(slots))
    decreases |slots|
  {
    if slots != [] {
      var tail := slots[1..];
      assert NumberedFrom(tail, first + 1) by {
        forall i | 0 <= i < |tail| && tail[i].Seat? ensures tail[i].number == first + 1 + i + 1 {
          assert tail[i] == slots[i + 1];
        }
      }
      SelectedNumbersAscending(tail, first + 1);
      SelectedNumbersSound(tail, first + 1);
      var rest := SelectedNumbers(tail);
      var r := SelectedNumbers(slots);
      if slots[0].Seat? && slots[0].selected {
        assert r == [first + 1] + rest;
        forall i, j | 0 <= i < j < |r| ensures r[i] < r[j] {
          if i == 0 {
            assert r[j] == rest[j - 1] && rest[j - 1] in rest;
          } else {
            assert r[i] == rest[i - 1] && r[j] == rest[j - 1];
          }
        }
      } else {
        assert r == rest;
      }
    }
  }

  /** 40 grid elements numbered by position, the driver at row 0 column 2, no booked seat selected. */
  ghost predicate WellFormed(slots: seq<Slot>) {
    && |slots| == TotalSeats
    && slots[DriverPosition] == Driver
    && (forall i :: 0 <= i < |slots| && i != DriverPosition ==> slots[i].Seat? && slots[i].number == i + 1)
    && (forall i :: 0 <= i < |slots| && slots[i].Seat? && slots[i].booked ==> !slots[i].selected)
  }

  /** On a well-formed grid the selection is ascending, free seats only, and complete. */
  lemma SelectionOfWellFormed(slots: seq<Slot>)
    requires WellFormed(slots)
    ensures Ascending(SelectedNumbers(slots))
    ensures forall x :: x in SelectedNumbers(slots) ==>
      (1 <= x <= TotalSeats && x != DriverPosition + 1 && slots[x - 1] == Seat(x, false, true))
    ensures forall i :: 0 <= i < |slots| && slots[i].Seat? && slots[i].selected ==> slots[i].number in SelectedNumbers(slots)
  {
    assert NumberedFrom(slots, 0);
    SelectedNumbersSound(slots, 0);
    SelectedNumbersComplete(slots);
    SelectedNumbersAscending(slots, 0);
    var r := SelectedNumbers(slots);
    forall x | x in r
      ensures 1 <= x <= TotalSeats && x != DriverPosition + 1 && slots[x - 1] == Seat(x, false, true)
    {
      var s := slots[x - 1];
      assert s.Seat? && s.selected;
      assert x - 1 != DriverPosition;
      assert s.number == x && !s.booked;
    }
  }

  /** A freshly laid-out grid is well formed and has nothing selected. */
  lemma LayoutIsWellFormed(slots: seq<Slot>, bookedSeats: seq<int>)
    requires |slots| == TotalSeats
    requires forall i :: 0 <= i < |slots| ==> slots[i] == LayoutSlot(i, bookedSeats)
    ensures WellFormed(slots)
    ensures SelectedNumbers(slots) == []
  {
    NothingSelected(slots);
  }

  /** Without a selected seat the selection is empty. */
  lemma {:induction false} NothingSelected(slots: seq<Slot>)
    requires forall i :: 0 <= i < |slots| && slots[i].Seat? ==> !slots[i].selected
    ensures SelectedNumbers(slots) == []
    decreases |slots|
  {
    if slots != [] {
      assert forall i :: 0 <= i < |slots[1..]| && slots[1..][i].Seat? ==> !slots[1..][i].selected by {
        forall i | 0 <= i < |slots[1..]| ensures slots[1..][i] == slots[i + 1] {}
      }
      NothingSelected(slots[1..]);
    }
  }

  /** The seats of the page, with the state their `booked` and `selected` classes hold. */
  class SeatMap {
    var slots: seq<Slot>

    ghost predicate Valid()
      reads this
    {
      WellFormed(slots)
    }

    /**
     * `generateSeatLayout()`: book 12 random seats, then lay out the grid
     * with nothing selected.
     */
    constructor (draws: seq<int>)
      requires forall k :: 0 <= k < |draws| ==> 0 <= draws[k] < TotalSeats
      requires TotalSeats - AvailableSeats <= |set d | d in draws|
      ensures Valid()
      ensures SelectedSeats() == []
      ensures exists bookedSeats: seq<int>, used: nat ::
        && used <= |draws| && bookedSeats == DrawnSeats(draws[..used])
        && |bookedSeats| == TotalSeats - AvailableSeats
        && (forall k :: 0 <= k < |bookedSeats| ==> 1 <= bookedSeats[k] <= TotalSeats)
        && (forall i, j :: 0 <= i < j < |bookedSeats| ==> bookedSeats[i] != bookedSeats[j])
        && forall i :: 0 <= i < |slots| ==> slots[i] == LayoutSlot(i, bookedSeats)
    {
      var bookedSeats, used := GenerateRandomBookedSeats(TotalSeats, AvailableSeats, draws);
      var layout := LayoutSeats(bookedSeats);
      LayoutIsWellFormed(layout, bookedSeats);
      slots := layout;
      assert forall k :: 0 <= k < |bookedSeats| ==> 1 <= bookedSeats[k] <= TotalSeats by {
        forall k | 0 <= k < |bookedSeats|
          ensures 1 <= bookedSeats[k] <= TotalSeats
        {
          assert bookedSeats[k] in bookedSeats;
        }
      }
    }

    /** The selected seat numbers in document order (ascending); none is booked and none is the driver's. */
    function SelectedSeats(): (r: seq<nat>)
      reads this
      requires Valid()
      ensures Ascending(r)
      ensures forall x :: x in r ==> 1 <= x <= TotalSeats && x != DriverPosition + 1 && slots[x - 1] == Seat(x, false, true)
      ensures forall i :: 0 <= i < |slots| && slots[i].Seat? && slots[i].selected ==> slots[i].number in r
    {
      SelectionOfWellFormed(slots);
      SelectedNumbers(slots)
    }

    /** A click on grid element `position`: toggles `selected` on a seat that is not booked, and nothing else. */
    method Click(position: nat)
      requires Valid() && position < |slots|
      modifies this
      ensures Valid()
      ensures slots == old(slots)[position := Toggled(old(slots)[position])]
    {
      slots := slots[position := Toggled(slots[position])];
    }
  }

  // ---------------------------------------------------------------------
  // Fares

  /** Hard-coded on the page in place of the bus's own fare. */
  const FarePerSeat: real := 1200.0
  const TaxRate: real := 0.05
  const BookingFee: real := 20.0

  datatype FareBreakdown = FareBreakdown(base: real, tax: real, fee: real, total: real)

  /** The fare for `seatCount` seats: 1200 each, 5 % tax on that, and a fixed fee of 20. */
  function Fare(seatCount: nat): (f: FareBreakdown)
    ensures f.base == 1200.0 * seatCount as real
    ensures 20.0 * f.tax == f.base
    ensures f.fee == 20.0
    ensures f.total == 1260.0 * seatCount as real + 20.0
  {
    var base := FarePerSeat * seatCount as real;
    var tax := base * TaxRate;
    FareBreakdown(base, tax, BookingFee, base + tax + BookingFee)
  }

  /** The total strictly increases with the number of seats. */
  lemma FareIncreases(m: nat, n: nat)
    requires m < n
    ensures Fare(m).total < Fare(n).total
  {
  }

  /** The seat count can be read back from the total. */
  lemma SeatCountFromTotal(n: nat)
    ensures (Fare(n).total - BookingFee) / (FarePerSeat + FarePerSeat * TaxRate) == n as real
  {
  }

  /** What `updateSelectedSeats` shows: the counts and fares, and whether booking is enabled. */
  datatype FarePanel = FarePanel(seatCount: nat, baseFare: real, tax: real, totalFare: real, bookEnabled: bool)

  function FarePanelFor(selected: seq<nat>): (panel: FarePanel)
    ensures panel.seatCount == |selected|
    ensures panel.bookEnabled <==> |selected| > 0
    ensures |selected| == 0 ==> panel.baseFare == 0.0 && panel.tax == 0.0 && panel.totalFare == 0.0
    ensures |selected| > 0 ==> var f := Fare(|selected|);
      panel.baseFare == f.base && panel.tax == f.tax && panel.totalFare == f.total
  {
    if |selected| > 0 then
      var f := Fare(|selected|);
      FarePanel(|selected|, f.base, f.tax, f.total, true)
    else
      FarePanel(0, 0.0, 0.0, 0.0, false)
  }

  // ---------------------------------------------------------------------
  // processSeatBooking

  /** The values of one passenger's form fields. */
  datatype PassengerInput = PassengerInput(name: string, age: string, gender: string)

  datatype BookingOutcome = LoginRequired | NoSeatSelected | MissingPassengerDetails | Booked(bookingId: int)

  /** Every required field of one passenger (name, age and gender) has a value. */
  predicate Filled(p: PassengerInput) {
    p.name != "" && p.age != "" && p.gender != ""
  }

  /** Every passenger's required fields have values. */
  predicate DetailsComplete(inputs: seq<PassengerInput>) {
    forall i :: 0 <= i < |inputs| ==> Filled(inputs[i])
  }

  /** The seats' `data-seat-number` attributes. */
  function SeatLabels(seats: seq<nat>): (labels: seq<string>)
    ensures |labels| == |seats|
    ensures forall i :: 0 <= i < |seats| ==> labels[i] == NatToString(seats[i])
  {
    seq(|seats|, i requires 0 <= i < |seats| => NatToString(seats[i]))
  }

  /**
   * The record `processSeatBooking` builds: the id is the clock, bus 1 and
   * its mock details are fixed, both dates are today, one passenger per
   * seat in selection order, the fare for that many seats, confirmed and paid.
   */
  ghost predicate IsNewBooking(b: Booking, user: User, seats: seq<nat>, inputs: seq<PassengerInput>, now: int, today: int)
    requires |inputs| == |seats|
  {
    var fare := Fare(|seats|);
    && b.bookingId == Num(now) && b.id == Undefined && b.userId == user.userId
    && b.busId == Num(1) && b.busNumber == "BUS-001" && b.route == "Mumbai to Delhi"
    && b.departureTime == StoredDeparture && b.arrivalTime == StoredArrival
    && b.bookingDate == today && b.travelDate == today
    && b.seatNumbers == SeatLabels(seats) && b.totalSeats == |seats|
    && b.baseFare == fare.base && b.tax == fare.tax && b.bookingFee == fare.fee && b.totalFare == fare.total
    && b.status == "confirmed" && b.paymentStatus == "paid"
    && |b.passengers| == |seats|
    && forall k :: 0 <= k < |seats| ==>
         b.passengers[k] == Passenger(inputs[k].name, inputs[k].age, inputs[k].gender, NatToString(seats[k]))
  }

  /**
   * `processSeatBooking()`: refuse without a logged-in user, without a
   * selected seat, or with a blank passenger field; otherwise build the
   * booking for the seats selected on `seatMap` and append it to the
   * stored list. `inputs` are the passenger forms, one per selected seat;
   * `now` is `Date.now()` and `today` the instant of today's date.
   */
  method ProcessSeatBooking(currentUser: Option<User>, seatMap: SeatMap, inputs: seq<PassengerInput>,
                            stored: seq<Booking>, now: int, today: int)
    returns (outcome: BookingOutcome, bookings: seq<Booking>)
    requires seatMap.Valid() && |inputs| == |seatMap.SelectedSeats()|
    ensures currentUser.None? ==> outcome == LoginRequired
    ensures currentUser.Some? && seatMap.SelectedSeats() == [] ==> outcome == NoSeatSelected
    ensures currentUser.Some? && seatMap.SelectedSeats() != [] && !DetailsComplete(inputs) ==>
      outcome == MissingPassengerDetails
    ensures outcome.Booked? <==> currentUser.Some? && seatMap.SelectedSeats() != [] && DetailsComplete(inputs)
    ensures !outcome.Booked? ==> bookings == stored
    ensures outcome.Booked? ==>
      && outcome.bookingId == now
      && |bookings| == |stored| + 1 && bookings[..|stored|] == stored
      && IsNewBooking(bookings[|stored|], currentUser.value, seatMap.SelectedSeats(), inputs, now, today)
  {
    var seats := seatMap.SelectedSeats();
    bookings := stored;
    if currentUser.None? {
      return LoginRequired, bookings;
    }
    if |seats| == 0 {
      return NoSeatSelected, bookings;
    }
    var isValid := true;
    var k := 0;
    while k < |inputs|
      invariant 0 <= k <= |inputs|
      invariant isValid <==> forall i :: 0 <= i < k ==> Filled(inputs[i])
    {
      if inputs[k].name == "" || inputs[k].age == "" || inputs[k].gender == "" {
        isValid := false;
      }
      k := k + 1;
    }
    if !isValid {
      return MissingPassengerDetails, bookings;
    }
    var fare := Fare(|seats|);
    var passengers: seq<Passenger> := [];
    var j := 0;
    while j < |seats|
      invariant 0 <= j <= |seats|
      invariant |passengers| == j
      invariant forall i :: 0 <= i < j ==>
        passengers[i] == Passenger(inputs[i].name, inputs[i].age, inputs[i].gender, NatToString(seats[i]))
    {
      passengers := passengers + [Passenger(inputs[j].name, inputs[j].age, inputs[j].gender, NatToString(seats[j]))];
      j := j + 1;
    }
    var booking := Booking(Num(now), Undefined, currentUser.value.userId, Num(1), "BUS-001", "Mumbai to Delhi",
                           StoredDeparture, StoredArrival, today, today, SeatLabels(seats), |seats|,
                           fare.base, fare.tax, fare.fee, fare.total, "confirmed", "paid", passengers);
    assert IsNewBooking(booking, currentUser.value, seats, inputs, now, today);
    bookings := stored + [booking];
    assert bookings[..|stored|] == stored && bookings[|stored|] == booking;
    outcome := Booked(now);
  }
}
