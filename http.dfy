/** The responses the handlers send: an HTTP status and the JSON body, one
    constructor per body shape. */
module Http {
  import opened Base
  import opened Schema
  import opened Crypto

  /** The errors services/authService.js lets escape, each with the message the
      controller reports: its own two messages, and errors thrown by bcrypt (an
      `undefined` argument) or by Mongoose validation, whose texts are the libraries'. */
  datatype ServiceError = UserExists | InvalidCredentials | BcryptArgumentMissing | ValidationFailed

  datatype Body =
    | Message(text: string)                                // { message }
    | Error(text: string)                                  // { error }
    | BookingSaved(text: string, booking: Entry<Booking>)  // { message, booking }
    | BookingDoc(booking: Entry<Booking>)
    | BookingDocs(bookings: seq<Entry<Booking>>)
    | RideCreated(text: string, ride: Entry<Ride>)         // { message, ride }
    | RideDoc(ride: Entry<Ride>)
    | RideDocs(rides: seq<Entry<Ride>>)
    | DriverDoc(driver: Entry<Driver>)
    | DriverDocs(drivers: seq<Entry<Driver>>)
    | TokenIssued(token: string)                           // { token }
    | CustomerData(user: Entry<UserView>, recentRides: seq<Entry<Ride>>)
    | ProtectedEcho(text: string, claims: Claims)          // { message, user }
    | ServiceFailure(error: ServiceError)                  // { message: error.message }

  datatype Response = Response(status: int, body: Body)
}
