/** routes/driverRoutes.js: the driver registry. None of its routes is authenticated. */
module DriverRoutes {
  import opened Base
  import opened Schema
  import opened Text
  import opened Queries
  import opened Http
  import opened Store

  predicate IsAvailable(e: Entry<Driver>) {
    e.1.isAvailable
  }

  /** `Driver.find({ isAvailable: true })`: exactly the available drivers. */
  function AvailableDrivers(drivers: map<Id, Driver>, n: nat): (r: seq<Entry<Driver>>)
    requires IdsBelow(drivers, n)
    ensures forall e :: e in r <==> e.0 in drivers && drivers[e.0] == e.1 && e.1.isAvailable
    ensures multiset(r) <= multiset(Entries(drivers, n))
    // natural order
    ensures forall i, j :: 0 <= i < j < |r| ==> r[i].0 < r[j].0
  {
    var es := Entries(drivers, n);
    var r := Filter(es, IsAvailable);
    assert forall i, j :: 0 <= i < j < |r| ==> r[i].0 < r[j].0 by {
      SubsequenceKeepsIdOrder(r, es);
    }
    r
  }

  /** GET /. */
  method ListAvailable(db: Store) returns (resp: Response)
    requires db.Valid()
    ensures resp == Response(200, DriverDocs(AvailableDrivers(db.drivers, db.nextId)))
  {
    resp := Response(200, DriverDocs(AvailableDrivers(db.drivers, db.nextId)));
  }

  /** POST /: 400 and nothing saved when the name, phone or email is missing; otherwise
      one driver with those three fields and the schema's default availability is
      inserted, and the answer is 201 with it. */
  method Add(db: Store, name: Option<string>, phone: Option<string>, email: Option<string>)
    returns (resp: Response)
    requires db.Valid()
    modifies db
    ensures db.Valid()
    ensures db.bookings == old(db.bookings) && db.rides == old(db.rides) && db.users == old(db.users)
    ensures resp.status == 400 <==> !Present(name) || !Present(phone) || !Present(email)
    ensures resp.status == 400 ==> db.drivers == old(db.drivers) && db.nextId == old(db.nextId)
    ensures resp.status != 400 ==>
      Present(name) && Present(phone) && Present(email) &&
      var d := Driver(name.value, phone.value, email.value, db.availableByDefault);
      resp == Response(201, DriverDoc((old(db.nextId), d))) && db.drivers == old(db.drivers)[old(db.nextId) := d]
  {
    if !Present(name) || !Present(phone) || !Present(email) {
      return Response(400, Error("Name, phone, and email are required."));
    }
    var d := Driver(name.value, phone.value, email.value, db.availableByDefault);
    var id := db.InsertDriver(d);
    resp := Response(201, DriverDoc((id, d)));
  }

  /** PUT /:id/availability: a value that is not a boolean (None here) answers 400 before
      any lookup; then 500 for an id that cannot be cast and 404 for an unknown driver;
      otherwise only that driver's availability changes. */
  method SetAvailability(db: Store, ref: Ref, isAvailable: Option<bool>) returns (resp: Response)
    requires db.Valid()
    modifies db
    ensures db.Valid()
    ensures db.bookings == old(db.bookings) && db.rides == old(db.rides) && db.users == old(db.users)
    ensures db.nextId == old(db.nextId)
    ensures isAvailable.None? ==> resp.status == 400
    ensures isAvailable.Some? && ref.Malformed? ==> resp.status == 500
    ensures isAvailable.Some? && ref.Oid? && ref.id !in old(db.drivers) ==> resp.status == 404
    ensures isAvailable.Some? && ref.Oid? && ref.id in old(db.drivers) ==>
      var d := old(db.drivers)[ref.id].(isAvailable := isAvailable.value);
      resp == Response(200, DriverDoc((ref.id, d))) && db.drivers == old(db.drivers)[ref.id := d]
    ensures resp.status != 200 ==> db.drivers == old(db.drivers)
  {
    if isAvailable.None? {
      return Response(400, Error("Invalid availability value."));
    }
    if ref.Malformed? {
      return Response(500, Error("Failed to update driver availability."));
    }
    var id := ref.id;
    if id !in db.drivers {
      return Response(404, Error("Driver not found."));
    }
    var d := db.drivers[id].(isAvailable := isAvailable.value);
    db.drivers := db.drivers[id := d];
    resp := Response(200, DriverDoc((id, d)));
  }
}
