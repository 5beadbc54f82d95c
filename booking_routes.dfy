/** routes/bookingRoutes.js: the public Booking handlers. Create checks that
    the fields are present, saves, then sends two notifications whose failures are
    only logged; the PATCH and PUT updates run the schema's validators on the
    values they are given, while POST /:id writes "transformed" with none. */
module BookingRoutes {
  import opened Base
  import opened Schema
  import opened Text
  import opened Queries
  import opened Http
  import opened Store

  /** The body of POST / and PUT /:id: each field absent (`undefined`) or a string. */
  datatype BookingForm = BookingForm(
    name: Option<string>, email: Option<string>, phone: Option<string>,
    pickupLocation: Option<string>, dropoffLocation: Option<string>,
    pickupTime: Option<string>, status: Option<string>)

  /** The check at the top of POST /: every field but `status` is truthy. */
  predicate AllRequiredPresent(f: BookingForm) {
    Present(f.name) && Present(f.email) && Present(f.phone) &&
    Present(f.pickupLocation) && Present(f.dropoffLocation) && Present(f.pickupTime)
  }

  /** `new Booking({...})` from a form that passed that check, at time `now`; None when
      `pickupTime` does not cast to a Date. The status is the one given, else "pending",
      and `save()` accepts the document exactly when that status is in the enumeration. */
  function NewBooking(f: BookingForm, castDate: string -> Option<Time>, now: Time): (b: Option<Booking>)
    requires AllRequiredPresent(f)
    ensures b.Some? <==> castDate(f.pickupTime.value).Some?
    ensures b.Some? ==>
      && b.value.name == f.name.value && b.value.email == f.email.value && b.value.phone == f.phone.value
      && b.value.pickupLocation == f.pickupLocation.value && b.value.dropoffLocation == f.dropoffLocation.value
      && b.value.pickupTime == castDate(f.pickupTime.value).value
      && b.value.status == InitialBookingStatus(f.status)
      && b.value.createdAt == now && b.value.updatedAt == now
    ensures b.Some? ==> (BookingValid(b.value) <==> f.status.None? || f.status.value in BookingStatuses)
  {
    match castDate(f.pickupTime.value)
    case None => None
    case Some(t) =>
      Some(Booking(f.name.value, f.email.value, f.phone.value, f.pickupLocation.value,
                   f.dropoffLocation.value, t, InitialBookingStatus(f.status), now, now))
  }

  /** The notifications POST / sends once the booking is saved. */
  datatype Mail = Confirmation(to: string, booking: Id) | AdminNotification

  /** POST /: 400 and nothing saved when a required field is missing; 500 and nothing
      saved when `save()` rejects the document; otherwise exactly one booking inserted,
      both notifications sent, and 201 whatever becomes of them. */
  method Create(db: Store, f: BookingForm, now: Time) returns (resp: Response, mails: seq<Mail>)
    requires db.Valid()
    modifies db
    ensures db.Valid()
    ensures db.rides == old(db.rides) && db.drivers == old(db.drivers) && db.users == old(db.users)
    ensures resp.status in {201, 400, 500}
    ensures resp.status == 400 <==> !AllRequiredPresent(f)
    ensures resp.status == 201 <==>
      AllRequiredPresent(f) && NewBooking(f, db.castDate, now).Some? &&
      BookingValid(NewBooking(f, db.castDate, now).value)
    ensures resp.status == 201 ==>
      AllRequiredPresent(f) &&
      var b := NewBooking(f, db.castDate, now).value;
      && db.bookings == old(db.bookings)[old(db.nextId) := b]
      && resp.body == BookingSaved("Booking created successfully!", (old(db.nextId), b))
      && mails == [Confirmation(b.email, old(db.nextId)), AdminNotification]
    ensures resp.status != 201 ==> db.bookings == old(db.bookings) && mails == []
  {
    mails := [];
    if !AllRequiredPresent(f) {
      resp := Response(400, Message("All fields except status are required."));
      return;
    }
    var doc := NewBooking(f, db.castDate, now);
    if doc.None? {
      resp := Response(500, Message("Server error. Please try again later."));
      return;
    }
    var id := db.InsertBooking(doc.value);
    if id.None? {
      resp := Response(500, Message("Server error. Please try again later."));
      return;
    }
    // a failed send is caught and logged; the answer does not depend on it
    mails := [Confirmation(doc.value.email, id.value), AdminNotification];
    resp := Response(201, BookingSaved("Booking created successfully!", (id.value, doc.value)));
  }

  function CreatedAt(e: Entry<Booking>): int {
    e.1.createdAt
  }

  /** `Booking.find().sort({ createdAt: -1 })`: every stored booking, newest first. */
  function NewestFirst(bookings: map<Id, Booking>, n: nat): (r: seq<Entry<Booking>>)
    requires IdsBelow(bookings, n)
    ensures SortedDesc(r, CreatedAt)
    ensures forall e :: e in r <==> e.0 in bookings && bookings[e.0] == e.1
    ensures multiset(r) == multiset(Entries(bookings, n))
  {
    var all := Entries(bookings, n);
    var r := SortDesc(all, CreatedAt);
    assert forall e :: e in r <==> e in all by {
      forall e ensures e in r <==> e in all {
        assert e in r <==> e in multiset(r);
        assert e in all <==> e in multiset(all);
      }
    }
    r
  }

  /** GET /. */
  method List(db: Store) returns (resp: Response)
    requires db.Valid()
    ensures resp == Response(200, BookingDocs(NewestFirst(db.bookings, db.nextId)))
  {
    resp := Response(200, BookingDocs(NewestFirst(db.bookings, db.nextId)));
  }

  /** GET /:id: the booking, 404 when no booking has that id, 500 when the id cannot be cast. */
  method Get(db: Store, ref: Ref) returns (resp: Response)
    requires db.Valid()
    ensures ref.Malformed? ==> resp.status == 500
    ensures ref.Oid? ==> (resp.status == 200 <==> ref.id in db.bookings)
    ensures ref.Oid? && ref.id !in db.bookings ==> resp.status == 404
    ensures resp.status == 200 ==> ref.Oid? && resp.body == BookingDoc((ref.id, db.bookings[ref.id]))
  {
    match ref
    case Malformed =>
      resp := Response(500, Message("Server error. Unable to fetch the booking."));
    case Oid(id) =>
      if id !in db.bookings {
        resp := Response(404, Message("Booking not found."));
      } else {
        resp := Response(200, BookingDoc((id, db.bookings[id])));
      }
  }

  /** The value an update writes to a path: the given one, or the current one when the
      key is `undefined` (Mongoose drops undefined keys from an update). */
  function Given(v: Option<string>, current: string): (r: string)
    ensures v.None? ==> r == current
    ensures v.Some? ==> r == v.value
  {
    if v.Some? then v.value else current
  }

  /** The enum validator on `status`, as `runValidators` applies it to an update. */
  predicate StatusAccepted(status: Option<string>) {
    status.None? || status.value in BookingStatuses
  }

  /** PATCH /:id/status: the validators run first, so a status outside the enumeration
      answers 500 whatever the id; then 404 for an unknown booking; otherwise only that
      booking's status (and `updatedAt`) changes. */
  method UpdateStatus(db: Store, ref: Ref, status: Option<string>, now: Time) returns (resp: Response)
    requires db.Valid()
    modifies db
    ensures db.Valid()
    ensures db.rides == old(db.rides) && db.drivers == old(db.drivers) && db.users == old(db.users)
    ensures db.nextId == old(db.nextId)
    ensures !StatusAccepted(status) || ref.Malformed? ==>
      resp.status == 500 && db.bookings == old(db.bookings)
    ensures StatusAccepted(status) && ref.Oid? && ref.id !in old(db.bookings) ==>
      resp.status == 404 && db.bookings == old(db.bookings)
    ensures StatusAccepted(status) && ref.Oid? && ref.id in old(db.bookings) ==>
      var was := old(db.bookings)[ref.id];
      var b := was.(status := Given(status, was.status), updatedAt := now);
      resp.status == 200 && db.bookings == old(db.bookings)[ref.id := b] &&
      resp.body == BookingSaved("Booking status updated successfully!", (ref.id, b))
  {
    if !StatusAccepted(status) || ref.Malformed? {
      resp := Response(500, Message("Server error. Unable to update booking status."));
      return;
    }
    var id := ref.id;
    if id !in db.bookings {
      resp := Response(404, Message("Booking not found."));
      return;
    }
    var b := db.bookings[id].(status := Given(status, db.bookings[id].status), updatedAt := now);
    db.bookings := db.bookings[id := b];
    resp := Response(200, BookingSaved("Booking status updated successfully!", (id, b)));
  }

  /** POST /:id: the status becomes "transformed", with no validators and no look at the
      current status; no ride is created, and the stored booking is then one the schema
      would reject. 404 for an unknown booking. */
  method Transform(db: Store, ref: Ref, now: Time) returns (resp: Response)
    requires db.Valid()
    modifies db
    ensures db.Valid()
    ensures db.rides == old(db.rides) && db.drivers == old(db.drivers) && db.users == old(db.users)
    ensures db.nextId == old(db.nextId)
    ensures ref.Malformed? ==> resp.status == 500 && db.bookings == old(db.bookings)
    ensures ref.Oid? && ref.id !in old(db.bookings) ==> resp.status == 404 && db.bookings == old(db.bookings)
    ensures ref.Oid? && ref.id in old(db.bookings) ==>
      var b := old(db.bookings)[ref.id].(status := Transformed, updatedAt := now);
      && resp.status == 200 && db.bookings == old(db.bookings)[ref.id := b]
      && resp.body == BookingSaved("Booking successfully transformed into a ride.", (ref.id, b))
      && !BookingValid(db.bookings[ref.id])
  {
    match ref
    case Malformed =>
      resp := Response(500, Message("Server error. Please try again later."));
    case Oid(id) =>
      if id !in db.bookings {
        resp := Response(404, Message("Booking not found."));
      } else {
        var b := db.bookings[id].(status := Transformed, updatedAt := now);
        db.bookings := db.bookings[id := b];
        resp := Response(200, BookingSaved("Booking successfully transformed into a ride.", (id, b)));
      }
  }

  /** A given string value passes the `required` validator. */
  predicate TextAccepted(v: Option<string>) {
    v.None? || v.value != ""
  }

  /** `runValidators` on PUT /:id: every given value passes its path's validators (a
      required string is non-empty, `pickupTime` casts to a Date, `status` is in the enumeration). */
  predicate UpdateAccepted(f: BookingForm, castDate: string -> Option<Time>) {
    && TextAccepted(f.name) && TextAccepted(f.email) && TextAccepted(f.phone)
    && TextAccepted(f.pickupLocation) && TextAccepted(f.dropoffLocation)
    && (f.pickupTime.None? || (f.pickupTime.value != "" && castDate(f.pickupTime.value).Some?))
    && StatusAccepted(f.status)
  }

  /** The booking after PUT /:id writes the given fields: each of the seven listed
      paths takes its given value or keeps its own, `createdAt` never changes, and the
      result is still one the store can hold. Writing the same form twice changes
      nothing more than writing it once. */
  function Overwrite(b: Booking, f: BookingForm, castDate: string -> Option<Time>, now: Time): (r: Booking)
    requires UpdateAccepted(f, castDate)
    ensures r.name == Given(f.name, b.name) && r.email == Given(f.email, b.email)
    ensures r.phone == Given(f.phone, b.phone)
    ensures r.pickupLocation == Given(f.pickupLocation, b.pickupLocation)
    ensures r.dropoffLocation == Given(f.dropoffLocation, b.dropoffLocation)
    ensures r.pickupTime == (if f.pickupTime.Some? then castDate(f.pickupTime.value).value else b.pickupTime)
    ensures r.status == Given(f.status, b.status)
    ensures r.createdAt == b.createdAt && r.updatedAt == now
    ensures BookingStored(b) ==> BookingStored(r)
    ensures BookingValid(b) ==> BookingValid(r)
  {
    Booking(
      Given(f.name, b.name), Given(f.email, b.email), Given(f.phone, b.phone),
      Given(f.pickupLocation, b.pickupLocation), Given(f.dropoffLocation, b.dropoffLocation),
      if f.pickupTime.Some? then castDate(f.pickupTime.value).value else b.pickupTime,
      Given(f.status, b.status), b.createdAt, now)
  }

  /** Applying the same accepted form twice gives what applying it once gives. */
  lemma OverwriteIdempotent(b: Booking, f: BookingForm, castDate: string -> Option<Time>, now: Time)
    requires UpdateAccepted(f, castDate)
    ensures Overwrite(Overwrite(b, f, castDate, now), f, castDate, now) == Overwrite(b, f, castDate, now)
  {
  }

  /** PUT /:id: 500 when a given value fails its validator or the id cannot be cast,
      404 for an unknown booking, otherwise that booking's given fields overwritten and
      nothing else changed. */
  method Update(db: Store, ref: Ref, f: BookingForm, now: Time) returns (resp: Response)
    requires db.Valid()
    modifies db
    ensures db.Valid()
    ensures db.rides == old(db.rides) && db.drivers == old(db.drivers) && db.users == old(db.users)
    ensures db.nextId == old(db.nextId)
    ensures !UpdateAccepted(f, db.castDate) || ref.Malformed? ==>
      resp.status == 500 && db.bookings == old(db.bookings)
    ensures UpdateAccepted(f, db.castDate) && ref.Oid? && ref.id !in old(db.bookings) ==>
      resp.status == 404 && db.bookings == old(db.bookings)
    ensures UpdateAccepted(f, db.castDate) && ref.Oid? && ref.id in old(db.bookings) ==>
      var b := Overwrite(old(db.bookings)[ref.id], f, db.castDate, now);
      resp.status == 200 && db.bookings == old(db.bookings)[ref.id := b] &&
      resp.body == BookingSaved("Booking updated successfully!", (ref.id, b))
  {
    if !UpdateAccepted(f, db.castDate) || ref.Malformed? {
      resp := Response(500, Message("Server error. Unable to update the booking."));
      return;
    }
    var id := ref.id;
    if id !in db.bookings {
      resp := Response(404, Message("Booking not found."));
      return;
    }
    var b := Overwrite(db.bookings[id], f, db.castDate, now);
    db.bookings := db.bookings[id := b];
    resp := Response(200, BookingSaved("Booking updated successfully!", (id, b)));
  }

  /** DELETE /:id: exactly that booking removed, or 404 when there is none. */
  method Delete(db: Store, ref: Ref) returns (resp: Response)
    requires db.Valid()
    modifies db
    ensures db.Valid()
    ensures db.rides == old(db.rides) && db.drivers == old(db.drivers) && db.users == old(db.users)
    ensures db.nextId == old(db.nextId)
    ensures ref.Malformed? ==> resp.status == 500 && db.bookings == old(db.bookings)
    ensures ref.Oid? && ref.id !in old(db.bookings) ==> resp.status == 404 && db.bookings == old(db.bookings)
    ensures ref.Oid? && ref.id in old(db.bookings) ==>
      resp.status == 200 && db.bookings == old(db.bookings) - {ref.id}
  {
    match ref
    case Malformed =>
      resp := Response(500, Message("Server error. Unable to delete the booking."));
    case Oid(id) =>
      if id !in db.bookings {
        resp := Response(404, Message("Booking not found."));
      } else {
        db.bookings := db.bookings - {id};
        resp := Response(200, Message("Booking deleted successfully!"));
      }
  }
}
