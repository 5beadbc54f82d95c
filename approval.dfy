/** The approval transition shared by routes/adminDashboardRoutes.js and
    routes/adminBookingRoutes.js: look the booking up, refuse one that is not
    pending, save a new ride built from it, then save the booking as approved.
    The ride is saved first, so a ride the schema rejects leaves the booking pending. */
module Approval {
  import opened Base
  import opened Schema
  import opened Http
  import opened Store

  const ApprovedMessage: string := "Booking approved and ride created successfully"

  /** The ride both handlers build, as written: the booking's name goes to a `name`
      path the Ride schema does not have, which the strict schema drops, so the
      required `customerName` is missing and no such ride can be saved. */
  function RideFromBookingAsWritten(b: Booking): (r: Ride)
    ensures r.customerName.None?
    ensures r.email == b.email && r.phone == b.phone
    ensures r.pickupLocation == b.pickupLocation && r.dropoffLocation == b.dropoffLocation
    ensures r.pickupTime == b.pickupTime
    ensures !RideValid(r)
  {
    NewRide(None, b.phone, b.email, b.pickupLocation, b.dropoffLocation, b.pickupTime)
  }

  /** The ride the handlers evidently mean to build: the booking's six fields, with
      the name under `customerName`. Every booking the store can hold gives a ride
      the schema accepts, pending and with no driver. */
  function RideFromBooking(b: Booking): (r: Ride)
    ensures r.customerName == Some(b.name)
    ensures r.email == b.email && r.phone == b.phone
    ensures r.pickupLocation == b.pickupLocation && r.dropoffLocation == b.dropoffLocation
    ensures r.pickupTime == b.pickupTime
    ensures r.driverName.None? && r.status == RidePending
    ensures BookingFieldsPresent(b) ==> RideValid(r)
  {
    NewRide(Some(b.name), b.phone, b.email, b.pickupLocation, b.dropoffLocation, b.pickupTime)
  }

  /** The booking is one approval may act on. */
  predicate Approvable(bookings: map<Id, Booking>, ref: Ref) {
    ref.Oid? && ref.id in bookings && bookings[ref.id].status == Pending
  }

  /** Approve the booking `ref` with the ride builder `build`: 500 for an id that cannot
      be cast, 404 for an unknown booking, 400 for one already processed, 500 when the
      ride is rejected; in each of those cases nothing changes. Otherwise one ride is
      inserted, the booking alone becomes "approved", and the answer is 201 with the
      ride. After a 201 the booking just approved is no longer approvable; only a later
      change of its status back to "pending" makes it approvable again. */
  method Approve(db: Store, ref: Ref, now: Time, build: Booking -> Ride) returns (resp: Response)
    requires db.Valid()
    modifies db
    ensures db.Valid()
    ensures db.drivers == old(db.drivers) && db.users == old(db.users)
    ensures ref.Malformed? ==> resp.status == 500
    ensures ref.Oid? && ref.id !in old(db.bookings) ==> resp.status == 404
    ensures ref.Oid? && ref.id in old(db.bookings) && old(db.bookings)[ref.id].status != Pending ==>
      resp.status == 400
    ensures resp.status == 201 <==> Approvable(old(db.bookings), ref) && RideValid(build(old(db.bookings)[ref.id]))
    ensures Approvable(old(db.bookings), ref) && !RideValid(build(old(db.bookings)[ref.id])) ==>
      resp.status == 500
    ensures resp.status != 201 ==>
      db.bookings == old(db.bookings) && db.rides == old(db.rides) && db.nextId == old(db.nextId)
    ensures resp.status == 201 ==>
      var b := old(db.bookings)[ref.id];
      && db.rides == old(db.rides)[old(db.nextId) := build(b)]
      && db.nextId == old(db.nextId) + 1
      && db.bookings == old(db.bookings)[ref.id := b.(status := Approved, updatedAt := now)]
      && resp.body == RideCreated(ApprovedMessage, (old(db.nextId), build(b)))
      && !Approvable(db.bookings, ref)
  {
    if ref.Malformed? {
      resp := Response(500, Message("Server error. Please try again later."));
      return;
    }
    var id := ref.id;
    if id !in db.bookings {
      resp := Response(404, Message("Booking not found"));
      return;
    }
    var booking := db.bookings[id];
    if booking.status != Pending {
      resp := Response(400, Message("Booking is already processed"));
      return;
    }
    var ride := build(booking);
    var rideId := db.InsertRide(ride);
    if rideId.None? {
      resp := Response(500, Message("Server error. Please try again later."));
      return;
    }
    // a pending booking has every required path, so this save is accepted
    var ok := db.SaveBooking(id, booking.(status := Approved, updatedAt := now));
    resp := if ok then Response(201, RideCreated(ApprovedMessage, (rideId.value, ride)))
            else Response(500, Message("Server error. Please try again later."));
  }
}
