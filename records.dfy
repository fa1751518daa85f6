/**
 * The records the frontend keeps in browser storage under the keys
 * `buses`, `routes`, `bookings`, `users` and `currentUser`.
 */
module Records {

  /**
   * An identifier as JavaScript holds it: absent, a number (`Date.now()`)
   * or a string (`generateId()`, demo data, any `data-id` attribute or form
   * input). Equality of these values is exactly JavaScript's `===`.
   */
  datatype JsId = Undefined | Num(n: int) | Str(s: string)

  /** One passenger of a booking: the form's values, as strings, and the seat label. */
  datatype Passenger = Passenger(name: string, age: string, gender: string, seatNumber: string)

  /**
   * A stored booking. `bookingDate` and `travelDate` are the instants, in
   * milliseconds, that `new Date(...)` gives for the stored date strings.
   */
  datatype Booking = Booking(
    bookingId: JsId,
    id: JsId,
    userId: JsId,
    busId: JsId,
    busNumber: string,
    route: string,
    departureTime: string,
    arrivalTime: string,
    bookingDate: int,
    travelDate: int,
    seatNumbers: seq<string>,
    totalSeats: int,
    baseFare: real,
    tax: real,
    bookingFee: real,
    totalFare: real,
    status: string,
    paymentStatus: string,
    passengers: seq<Passenger>)

  datatype Bus = Bus(
    id: JsId,
    busNumber: string,
    busType: string,
    totalSeats: int,
    status: string,
    isActive: bool,
    routeId: JsId)

  /** A route carries each end twice, as `source`/`from` and as `destination`/`to`. */
  datatype Route = Route(
    id: JsId,
    source: string,
    from: string,
    destination: string,
    to: string,
    distance: real,
    duration: real,
    price: real)

  datatype User = User(
    id: JsId,
    userId: JsId,
    fullName: string,
    email: string,
    userType: string,
    role: string)
}
