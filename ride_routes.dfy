/** routes/rideRoutes.js: guest ride booking, and the admin operations behind
    `authMiddleware` (admin registration, listing, lookup, driver assignment and
    status changes). Neither the assignment nor the status change looks at the
    ride's current state. */
module RideRoutes {
  import opened Base
  import opened Schema
  import opened Text
  import opened Queries
  import opened Crypto
  import opened Http
  import opened Store
  import opened Auth
  import Registration

  /** POST /admin-register: behind authMiddleware; 400 when the email or password is
      missing or the email is taken; otherwise the new admin, whose schema-required
      `name` is missing, is rejected and the answer is 500. No user is ever added. */
  method AdminRegister(db: Store, header: Option<string>, verify: string -> Verified,
                       email: Option<string>, password: Option<string>, pw: Passwords, now: Time)
    returns (resp: Response)
    requires db.Valid()
    modifies db
    ensures db.Valid()
    ensures db.bookings == old(db.bookings) && db.rides == old(db.rides) && db.drivers == old(db.drivers)
    ensures db.users == old(db.users) && db.nextId == old(db.nextId)
    ensures AuthMiddleware(header, verify).Answer? ==> resp == AuthMiddleware(header, verify).response
    ensures AuthMiddleware(header, verify).Next? ==>
      && (resp.status == 400 <==> !Present(email) || !Present(password) || old(db.EmailTaken(email.value)))
      && (resp.status == 500 <==> Present(email) && Present(password) && !old(db.EmailTaken(email.value)))
  {
    var g := AuthMiddleware(header, verify);
    if g.Answer? {
      return g.response;
    }
    if !Present(email) || !Present(password) {
      return Response(400, Error("Email and password are required."));
    }
    var r := Registration.Register(db, email.value, pw.hash(password.value), Some(AdminRole), now);
    resp := match r
      case AlreadyExists => Response(400, Error("User already exists."))
      case SaveRejected => Response(500, Error("Internal server error."))
      case Registered(_) => Response(201, Message("Admin registered successfully."));
  }

  /** GET /: behind authMiddleware; every ride, in natural order. */
  method List(db: Store, header: Option<string>, verify: string -> Verified) returns (resp: Response)
    requires db.Valid()
    ensures AuthMiddleware(header, verify).Answer? ==> resp == AuthMiddleware(header, verify).response
    ensures AuthMiddleware(header, verify).Next? ==> resp == Response(200, RideDocs(Entries(db.rides, db.nextId)))
    ensures resp.status == 200 ==> forall e :: e in resp.body.rides <==> e.0 in db.rides && db.rides[e.0] == e.1
  {
    var g := AuthMiddleware(header, verify);
    if g.Answer? {
      return g.response;
    }
    resp := Response(200, RideDocs(Entries(db.rides, db.nextId)));
  }

  /** GET /:id: behind authMiddleware; the ride, 404 when there is none, 500 when the
      id cannot be cast. */
  method Get(db: Store, header: Option<string>, verify: string -> Verified, ref: Ref) returns (resp: Response)
    requires db.Valid()
    ensures AuthMiddleware(header, verify).Answer? ==> resp == AuthMiddleware(header, verify).response
    ensures AuthMiddleware(header, verify).Next? ==>
      && (ref.Malformed? ==> resp.status == 500)
      && (ref.Oid? && ref.id !in db.rides ==> resp.status == 404)
      && (ref.Oid? && ref.id in db.rides ==> resp == Response(200, RideDoc((ref.id, db.rides[ref.id]))))
  {
    var g := AuthMiddleware(header, verify);
    if g.Answer? {
      return g.response;
    }
    match ref
    case Malformed =>
      resp := Response(500, Error("Could not fetch ride details. Please try again later."));
    case Oid(id) =>
      resp := if id in db.rides then Response(200, RideDoc((id, db.rides[id])))
              else Response(404, Error("Ride not found."));
  }

  /** The body of POST /. */
  datatype RideForm = RideForm(
    customerName: Option<string>, phone: Option<string>, email: Option<string>,
    pickupLocation: Option<string>, dropoffLocation: Option<string>, pickupTime: Option<string>)

  predicate RideFormComplete(f: RideForm) {
    Present(f.customerName) && Present(f.phone) && Present(f.email) &&
    Present(f.pickupLocation) && Present(f.dropoffLocation) && Present(f.pickupTime)
  }

  /** POST /: no token needed; 400 and nothing saved when a field is missing, 500 when
      `pickupTime` is not a date; otherwise one ride with the given fields, no driver
      and status "Pending" is inserted, and the answer is 201 with it. */
  method Create(db: Store, f: RideForm) returns (resp: Response)
    requires db.Valid()
    modifies db
    ensures db.Valid()
    ensures db.bookings == old(db.bookings) && db.drivers == old(db.drivers) && db.users == old(db.users)
    ensures resp.status in {201, 400, 500}
    ensures resp.status == 400 <==> !RideFormComplete(f)
    ensures resp.status == 201 <==> RideFormComplete(f) && db.castDate(f.pickupTime.value).Some?
    ensures resp.status == 201 ==>
      RideFormComplete(f) &&
      var r := NewRide(f.customerName, f.phone.value, f.email.value, f.pickupLocation.value,
                       f.dropoffLocation.value, db.castDate(f.pickupTime.value).value);
      && r.driverName.None? && r.status == RidePending
      && db.rides == old(db.rides)[old(db.nextId) := r]
      && resp.body == RideDoc((old(db.nextId), r))
    ensures resp.status != 201 ==> db.rides == old(db.rides) && db.nextId == old(db.nextId)
  {
    if !RideFormComplete(f) {
      return Response(400, Error("All fields are required."));
    }
    var time := db.castDate(f.pickupTime.value);
    if time.None? {
      return Response(500, Error("Failed to book ride. Please try again later."));
    }
    var ride := NewRide(f.customerName, f.phone.value, f.email.value, f.pickupLocation.value,
                        f.dropoffLocation.value, time.value);
    var id := db.InsertRide(ride);
    // every field is present and the status is the default, so the schema accepts the ride
    resp := match id
      case Some(i) => Response(201, RideDoc((i, ride)))
      case None => Response(500, Error("Failed to book ride. Please try again later."));
  }

  /** PUT /:id/assign-driver: behind authMiddleware; a missing `driverName` answers 400
      before any lookup; then 500 for an id that cannot be cast and 404 for an unknown
      ride; otherwise only that ride's `driverName` changes, to the name as given,
      whatever the ride's status and whether or not such a driver exists. */
  method AssignDriver(db: Store, header: Option<string>, verify: string -> Verified,
                      ref: Ref, driverName: Option<string>) returns (resp: Response)
    requires db.Valid()
    modifies db
    ensures db.Valid()
    ensures db.bookings == old(db.bookings) && db.drivers == old(db.drivers) && db.users == old(db.users)
    ensures db.nextId == old(db.nextId)
    ensures AuthMiddleware(header, verify).Answer? ==> resp == AuthMiddleware(header, verify).response
    ensures AuthMiddleware(header, verify).Next? && !Present(driverName) ==> resp.status == 400
    ensures AuthMiddleware(header, verify).Next? && Present(driverName) ==>
      && (ref.Malformed? ==> resp.status == 500)
      && (ref.Oid? && ref.id !in old(db.rides) ==> resp.status == 404)
      && (ref.Oid? && ref.id in old(db.rides) ==>
            var r := old(db.rides)[ref.id].(driverName := driverName);
            resp == Response(200, RideDoc((ref.id, r))) && db.rides == old(db.rides)[ref.id := r])
    ensures resp.status != 200 ==> db.rides == old(db.rides)
  {
    var g := AuthMiddleware(header, verify);
    if g.Answer? {
      return g.response;
    }
    if !Present(driverName) {
      return Response(400, Error("Driver name is required."));
    }
    if ref.Malformed? {
      return Response(500, Error("Failed to assign driver."));
    }
    var id := ref.id;
    if id !in db.rides {
      return Response(404, Error("Ride not found."));
    }
    var r := db.rides[id].(driverName := driverName);
    db.rides := db.rides[id := r];
    resp := Response(200, RideDoc((id, r)));
  }

  /** The check of PUT /:id/status: the value is one of the three ride statuses. */
  predicate StatusAllowed(status: Option<string>) {
    status.Some? && status.value in RideStatuses
  }

  /** PUT /:id/status: behind authMiddleware; a status outside the three answers 400
      before any lookup; then 500 for an id that cannot be cast and 404 for an unknown
      ride; otherwise only that ride's status changes, from whatever it was. */
  method UpdateStatus(db: Store, header: Option<string>, verify: string -> Verified,
                      ref: Ref, status: Option<string>) returns (resp: Response)
    requires db.Valid()
    modifies db
    ensures db.Valid()
    ensures db.bookings == old(db.bookings) && db.drivers == old(db.drivers) && db.users == old(db.users)
    ensures db.nextId == old(db.nextId)
    ensures AuthMiddleware(header, verify).Answer? ==> resp == AuthMiddleware(header, verify).response
    ensures AuthMiddleware(header, verify).Next? && !StatusAllowed(status) ==> resp.status == 400
    ensures AuthMiddleware(header, verify).Next? && StatusAllowed(status) ==>
      && (ref.Malformed? ==> resp.status == 500)
      && (ref.Oid? && ref.id !in old(db.rides) ==> resp.status == 404)
      && (ref.Oid? && ref.id in old(db.rides) ==>
            var r := old(db.rides)[ref.id].(status := status.value);
            resp == Response(200, RideDoc((ref.id, r))) && db.rides == old(db.rides)[ref.id := r])
    ensures resp.status != 200 ==> db.rides == old(db.rides)
  {
    var g := AuthMiddleware(header, verify);
    if g.Answer? {
      return g.response;
    }
    if !StatusAllowed(status) {
      return Response(400, Error("Invalid status value."));
    }
    if ref.Malformed? {
      return Response(500, Error("Failed to update ride status."));
    }
    var id := ref.id;
    if id !in db.rides {
      return Response(404, Error("Ride not found."));
    }
    var r := db.rides[id].(status := status.value);
    db.rides := db.rides[id := r];
    resp := Response(200, RideDoc((id, r)));
  }
}
