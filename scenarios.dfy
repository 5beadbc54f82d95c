/** The booking → ride lifecycle end to end, with the ride builder the approval
    handlers evidently intend: a guest books, an admin approves once (a second
    approval is refused), but anyone can set the booking back to "pending" and have it
    approved again, giving a second ride; then a driver is assigned by name, and the
    ride's status moves forwards and then backwards, which nothing forbids. */
module Scenarios {
  import opened Base
  import opened Schema
  import opened Crypto
  import opened Store
  import opened Auth
  import BookingRoutes
  import Approval
  import RideRoutes

  /** A booking made with every field and no status can be approved once, giving a ride
      with the booking's details, pending and without a driver; approving it again
      answers 400. */
  method ApproveOnce(castDate: string -> Option<Time>, f: BookingRoutes.BookingForm, now: Time)
    returns (created: int, approved: int, again: int, ride: Ride)
    requires BookingRoutes.AllRequiredPresent(f) && f.status.None?
    requires castDate(f.pickupTime.value).Some?
    ensures created == 201 && approved == 201 && again == 400
    ensures ride.customerName == f.name && ride.email == f.email.value && ride.phone == f.phone.value
    ensures ride.pickupLocation == f.pickupLocation.value && ride.dropoffLocation == f.dropoffLocation.value
    ensures ride.pickupTime == castDate(f.pickupTime.value).value
    ensures ride.driverName.None? && ride.status == RidePending
  {
    var db := new Store(map[], map[], map[], map[], 0, castDate, true);
    var b := BookingRoutes.NewBooking(f, castDate, now);
    assert b.Some? && BookingValid(b.value);
    var resp, mails := BookingRoutes.Create(db, f, now);
    created := resp.status;
    assert db.bookings == map[0 := b.value];
    assert Approval.Approvable(db.bookings, Oid(0));

    resp := Approval.Approve(db, Oid(0), now, Approval.RideFromBooking);
    approved := resp.status;
    ride := resp.body.ride.1;
    assert db.bookings[0].status == Approved;

    resp := Approval.Approve(db, Oid(0), now + 1, Approval.RideFromBooking);
    again := resp.status;
  }

  /** Approval is not once per booking: PATCH /bookings/:id/status needs no token and
      its validators accept "pending", so an approved booking can be reopened and
      approved again, and one booking then has two rides. */
  method ReapproveAfterReopen(castDate: string -> Option<Time>, f: BookingRoutes.BookingForm, now: Time)
    returns (approved: int, reopened: int, approvedAgain: int, rides: nat)
    requires BookingRoutes.AllRequiredPresent(f) && f.status.None?
    requires castDate(f.pickupTime.value).Some?
    ensures approved == 201 && reopened == 200 && approvedAgain == 201
    ensures rides == 2
  {
    var db := new Store(map[], map[], map[], map[], 0, castDate, true);
    var b := BookingRoutes.NewBooking(f, castDate, now);
    assert b.Some? && BookingValid(b.value);
    var resp, mails := BookingRoutes.Create(db, f, now);
    assert db.bookings == map[0 := b.value] && db.rides == map[];
    var ride := Approval.RideFromBooking(b.value);

    ghost var first := db.nextId;
    resp := Approval.Approve(db, Oid(0), now, Approval.RideFromBooking);
    approved := resp.status;
    assert db.rides == map[first := ride];

    resp := BookingRoutes.UpdateStatus(db, Oid(0), Some(Pending), now + 1);
    reopened := resp.status;
    assert Approval.RideFromBooking(db.bookings[0]) == ride;

    ghost var second := db.nextId;
    resp := Approval.Approve(db, Oid(0), now + 2, Approval.RideFromBooking);
    approvedAgain := resp.status;
    ghost var once := map[first := ride];
    assert |once| == 1 && second !in once;
    assert db.rides == once[second := ride];
    rides := |db.rides|;
  }

  /** Past authMiddleware, a stored ride can be given a driver and taken from
      "In Progress" to "Completed" and back to "Pending": every step answers 200. */
  method StatusRoundTrip(castDate: string -> Option<Time>, r: Ride,
                         header: Option<string>, verify: string -> Verified, driver: string)
    returns (withDriver: int, started: int, completed: int, reopened: int, ride: Ride)
    requires RideValid(r)
    requires AuthMiddleware(header, verify).Next?
    requires driver != ""
    ensures withDriver == 200 && started == 200 && completed == 200 && reopened == 200
    ensures ride == r.(driverName := Some(driver), status := RidePending)
  {
    var db := new Store(map[], map[0 := r], map[], map[], 1, castDate, true);
    var resp := RideRoutes.AssignDriver(db, header, verify, Oid(0), Some(driver));
    withDriver := resp.status;
    resp := RideRoutes.UpdateStatus(db, header, verify, Oid(0), Some("In Progress"));
    started := resp.status;
    resp := RideRoutes.UpdateStatus(db, header, verify, Oid(0), Some("Completed"));
    completed := resp.status;
    resp := RideRoutes.UpdateStatus(db, header, verify, Oid(0), Some(RidePending));
    reopened := resp.status;
    ride := db.rides[0];
  }
}
