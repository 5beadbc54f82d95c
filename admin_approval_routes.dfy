/** routes/adminDashboardRoutes.js: the pending-bookings list and the approval,
    both behind `verifyToken('admin')`. */
module AdminDashboardRoutes {
  import opened Base
  import opened Schema
  import opened Queries
  import opened Crypto
  import opened Http
  import opened Store
  import opened Auth
  import Approval

  predicate IsPending(e: Entry<Booking>) {
    e.1.status == Pending
  }

  /** `Booking.find({ status: 'pending' })`: exactly the stored bookings that are pending. */
  function PendingBookings(bookings: map<Id, Booking>, n: nat): (r: seq<Entry<Booking>>)
    requires IdsBelow(bookings, n)
    ensures forall e :: e in r <==> e.0 in bookings && bookings[e.0] == e.1 && e.1.status == Pending
    ensures multiset(r) <= multiset(Entries(bookings, n))
    // natural order
    ensures forall i, j :: 0 <= i < j < |r| ==> r[i].0 < r[j].0
  {
    var es := Entries(bookings, n);
    var r := Filter(es, IsPending);
    assert forall i, j :: 0 <= i < j < |r| ==> r[i].0 < r[j].0 by {
      SubsequenceKeepsIdOrder(r, es);
    }
    r
  }

  /** GET /bookings/pending: the admin gate's answer, or 200 with the pending bookings. */
  method ListPending(db: Store, header: Option<string>, verify: string -> Verified) returns (resp: Response)
    requires db.Valid()
    ensures var g := VerifyToken(Some(AdminRole), header, verify, db.users);
            if g.Answer? then resp == g.response
            else resp == Response(200, BookingDocs(PendingBookings(db.bookings, db.nextId)))
  {
    var g := VerifyToken(Some(AdminRole), header, verify, db.users);
    if g.Answer? {
      resp := g.response;
      return;
    }
    resp := Response(200, BookingDocs(PendingBookings(db.bookings, db.nextId)));
  }

  /** POST /bookings/:id/approve as written: past the admin gate, the ride it builds
      never passes the Ride schema, so a pending booking answers 500, stays pending,
      and no ride is created; the route never answers 201. */
  method Approve(db: Store, header: Option<string>, verify: string -> Verified, ref: Ref, now: Time)
    returns (resp: Response)
    requires db.Valid()
    modifies db
    ensures db.Valid()
    ensures db.bookings == old(db.bookings) && db.rides == old(db.rides)
    ensures db.drivers == old(db.drivers) && db.users == old(db.users)
    ensures VerifyToken(Some(AdminRole), header, verify, old(db.users)).Answer? ==>
      resp == VerifyToken(Some(AdminRole), header, verify, old(db.users)).response
    ensures VerifyToken(Some(AdminRole), header, verify, old(db.users)).Next? ==>
      && (ref.Oid? && ref.id !in old(db.bookings) ==> resp.status == 404)
      && (ref.Oid? && ref.id in old(db.bookings) && old(db.bookings)[ref.id].status != Pending ==> resp.status == 400)
      && (Approval.Approvable(old(db.bookings), ref) || ref.Malformed? ==> resp.status == 500)
      && resp.status in {400, 404, 500}
    ensures resp.status != 201
  {
    var g := VerifyToken(Some(AdminRole), header, verify, db.users);
    if g.Answer? {
      resp := g.response;
      return;
    }
    resp := Approval.Approve(db, ref, now, Approval.RideFromBookingAsWritten);
  }
}

/** routes/adminBookingRoutes.js: the same approval with no authentication at all. */
module AdminBookingRoutes {
  import opened Base
  import opened Schema
  import opened Http
  import opened Store
  import Approval

  /** POST /:id/approve as written: anyone may call it; 404 for an unknown booking,
      400 for one already processed, and 500 for a pending one, whose ride the Ride
      schema rejects; nothing changes and the route never answers 201. */
  method Approve(db: Store, ref: Ref, now: Time) returns (resp: Response)
    requires db.Valid()
    modifies db
    ensures db.Valid()
    ensures db.bookings == old(db.bookings) && db.rides == old(db.rides)
    ensures db.drivers == old(db.drivers) && db.users == old(db.users)
    ensures ref.Oid? && ref.id !in old(db.bookings) ==> resp.status == 404
    ensures ref.Oid? && ref.id in old(db.bookings) && old(db.bookings)[ref.id].status != Pending ==> resp.status == 400
    ensures Approval.Approvable(old(db.bookings), ref) || ref.Malformed? ==> resp.status == 500
    ensures resp.status in {400, 404, 500}
  {
    resp := Approval.Approve(db, ref, now, Approval.RideFromBookingAsWritten);
  }
}
