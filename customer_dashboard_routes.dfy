/** routes/customerDashboardRoutes.js: behind `verifyToken('user')`, the caller's own
    record without its password, with the rides booked under their email, the five
    latest pickups first. */
module CustomerDashboardRoutes {
  import opened Base
  import opened Schema
  import opened Queries
  import opened Crypto
  import opened Http
  import opened Store
  import opened Auth

  const RecentLimit: nat := 5

  function PickupTime(e: Entry<Ride>): int {
    e.1.pickupTime
  }

  /** The filter `{ email }`. */
  function HasEmail(email: string): Entry<Ride> -> bool {
    (e: Entry<Ride>) => e.1.email == email
  }

  /** `Ride.find({ email }).sort({ pickupTime: -1 }).limit(5)`. */
  function RecentRides(rides: map<Id, Ride>, n: nat, email: string): (r: seq<Entry<Ride>>)
    requires IdsBelow(rides, n)
    ensures |r| <= RecentLimit
    ensures forall e :: e in r ==> e.0 in rides && rides[e.0] == e.1 && e.1.email == email
    ensures SortedDesc(r, PickupTime)
    // each stored ride at most once
    ensures multiset(r) <= multiset(Entries(rides, n))
  {
    var matching := Filter(Entries(rides, n), HasEmail(email));
    var sorted := SortDesc(matching, PickupTime);
    var r := Take(sorted, RecentLimit);
    PrefixOfSorted(sorted, |r|, PickupTime);
    forall e | e in r ensures e in matching {
      assert e in multiset(r);
    }
    r
  }

  /** The rides left out are never later than the rides returned, and fewer than five
      are returned only when every matching ride is. */
  lemma RecentRidesAreTheLatest(rides: map<Id, Ride>, n: nat, email: string)
    requires IdsBelow(rides, n)
    ensures var r := RecentRides(rides, n, email);
            forall k, e | k in rides && rides[k].email == email && (k, rides[k]) !in r && e in r ::
              e.1.pickupTime >= rides[k].pickupTime
    ensures var r := RecentRides(rides, n, email);
            |r| < RecentLimit ==> forall k | k in rides && rides[k].email == email :: (k, rides[k]) in r
  {
    var matching := Filter(Entries(rides, n), HasEmail(email));
    var sorted := SortDesc(matching, PickupTime);
    var r := RecentRides(rides, n, email);
    assert r == Take(sorted, RecentLimit);
    forall k | k in rides && rides[k].email == email
      ensures (k, rides[k]) in sorted
      ensures (k, rides[k]) !in r ==> forall e | e in r :: e.1.pickupTime >= rides[k].pickupTime
    {
      var x := (k, rides[k]);
      assert x in matching;
      assert x in multiset(sorted);
      if x !in r {
        PrefixHoldsTheLargest(sorted, |r|, PickupTime, x);
      }
    }
  }

  /** GET /: the user gate's answer; otherwise 200 with the caller's record, without
      its password, and their recent rides. */
  method Dashboard(db: Store, header: Option<string>, verify: string -> Verified) returns (resp: Response)
    requires db.Valid()
    ensures var g := VerifyToken(Some(UserRole), header, verify, db.users);
            && (g.Answer? ==> resp == g.response)
            && (g.Next? ==>
                  var (id, u) := g.details.value;
                  id in db.users && u == db.users[id] && u.role == UserRole &&
                  resp == Response(200, CustomerData((id, WithoutPassword(u)), RecentRides(db.rides, db.nextId, u.email))))
  {
    var g := VerifyToken(Some(UserRole), header, verify, db.users);
    if g.Answer? {
      return g.response;
    }
    // User.findById(req.user.id) finds the same user the gate found
    var (id, u) := g.details.value;
    resp := Response(200, CustomerData((id, WithoutPassword(u)), RecentRides(db.rides, db.nextId, u.email)));
  }
}
