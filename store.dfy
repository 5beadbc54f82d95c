/** The entity store: the four Mongoose collections the handlers read and write,
    held as maps from id to document, with what `save()` of a new document does. */
module Store {
  import opened Base
  import opened Schema
  import opened Queries

  /** What the handlers can leave in the Booking collection: a document the schema
      accepts, or one whose status `POST /bookings/:id` overwrote with "transformed"
      (that update runs no validators). */
  predicate BookingStored(b: Booking) {
    BookingFieldsPresent(b) && (b.status in BookingStatuses || b.status == Transformed)
  }

  /** The invariant of the collections: every id is below the next one to hand out,
      every document is one the handlers can leave there, and emails are unique. */
  ghost predicate Consistent(bookings: map<Id, Booking>, rides: map<Id, Ride>, drivers: map<Id, Driver>,
                             users: map<Id, User>, nextId: Id)
  {
    && IdsBelow(bookings, nextId) && IdsBelow(rides, nextId)
    && IdsBelow(drivers, nextId) && IdsBelow(users, nextId)
    && (forall k :: k in bookings ==> BookingStored(bookings[k]))
    && (forall k :: k in rides ==> RideValid(rides[k]))
    && (forall k :: k in users ==> UserValid(users[k]))
    && UniqueEmails(users)
  }

  /** The filter `{ email }`. */
  function WithEmail(email: string): User -> bool {
    (u: User) => u.email == email
  }

  class Store {
    var bookings: map<Id, Booking>
    var rides: map<Id, Ride>
    var drivers: map<Id, Driver>
    var users: map<Id, User>
    /** The id the next inserted document gets, in whichever collection. */
    var nextId: Id
    /** Mongoose's cast of a request value to a Date; None when it is not a date. */
    const castDate: string -> Option<Time>
    /** The default of `isAvailable` in the Driver schema, whose file is not part of this model. */
    const availableByDefault: bool

    ghost predicate Valid()
      reads this
    {
      Consistent(bookings, rides, drivers, users, nextId)
    }

    /** A store holding the given collections. No handler ever adds a user, so stored
        users stand for documents created outside the handlers (seedAdmin.js's own
        `save()` omits the required name too, and is rejected like theirs). */
    constructor (bookings0: map<Id, Booking>, rides0: map<Id, Ride>, drivers0: map<Id, Driver>,
                 users0: map<Id, User>, nextId0: Id,
                 castDate: string -> Option<Time>, availableByDefault: bool)
      requires Consistent(bookings0, rides0, drivers0, users0, nextId0)
      ensures Valid()
      ensures bookings == bookings0 && rides == rides0 && drivers == drivers0 && users == users0
      ensures nextId == nextId0 && this.castDate == castDate && this.availableByDefault == availableByDefault
    {
      bookings, rides, drivers, users, nextId := bookings0, rides0, drivers0, users0, nextId0;
      this.castDate := castDate;
      this.availableByDefault := availableByDefault;
    }

    /** Some user's email is `email` (what the unique index checks). */
    predicate EmailTaken(email: string)
      reads this
    {
      exists k | k in users :: users[k].email == email
    }

    /** `User.findOne(filter)`: the first user, in natural order, that satisfies `p`. */
    function FindUser(p: User -> bool): (r: Option<Entry<User>>)
      reads this
      requires IdsBelow(users, nextId)
      ensures r.Some? <==> exists k :: k in users && p(users[k])
      ensures r.Some? ==> r.value.0 in users && users[r.value.0] == r.value.1 && p(r.value.1)
      // no user inserted earlier satisfies the filter
      ensures r.Some? ==> forall k :: k in users && k < r.value.0 ==> !p(users[k])
    {
      FindOne(users, nextId, p)
    }

    /** `User.findOne({ email })` finds the one user with that email, if there is one. */
    lemma FindByEmail(email: string)
      requires IdsBelow(users, nextId) && UniqueEmails(users)
      ensures FindUser(WithEmail(email)).Some? <==> EmailTaken(email)
      ensures forall k :: k in users && users[k].email == email ==>
                FindUser(WithEmail(email)) == Some((k, users[k]))
    {
      var found := FindUser(WithEmail(email));
      if found.Some? {
        assert users[found.value.0].email == email;
      }
      forall k | k in users && users[k].email == email
        ensures found == Some((k, users[k]))
      {
        assert WithEmail(email)(users[k]);
        assert users[found.value.0].email == email;
      }
    }

    /** `save()` of a new booking: inserted under a fresh id when the schema accepts it. */
    method InsertBooking(b: Booking) returns (id: Option<Id>)
      requires Valid()
      modifies this
      ensures Valid()
      ensures id.Some? <==> BookingValid(b)
      ensures id.Some? ==> id.value == old(nextId) && bookings == old(bookings)[id.value := b]
      ensures id.Some? ==> nextId == old(nextId) + 1
      ensures id.None? ==> bookings == old(bookings) && nextId == old(nextId)
      ensures rides == old(rides) && drivers == old(drivers) && users == old(users)
    {
      if BookingValid(b) {
        id := Some(nextId);
        bookings := bookings[nextId := b];
        nextId := nextId + 1;
      } else {
        id := None;
      }
    }

    /** `save()` of a booking read from the store: written back when the schema accepts it. */
    method SaveBooking(id: Id, b: Booking) returns (ok: bool)
      requires Valid()
      modifies this
      ensures Valid()
      ensures ok <==> id in old(bookings) && BookingValid(b)
      ensures bookings == if ok then old(bookings)[id := b] else old(bookings)
      ensures rides == old(rides) && drivers == old(drivers) && users == old(users)
      ensures nextId == old(nextId)
    {
      ok := id in bookings && BookingValid(b);
      if ok {
        bookings := bookings[id := b];
      }
    }

    /** `save()` of a new ride: inserted under a fresh id when the schema accepts it. */
    method InsertRide(r: Ride) returns (id: Option<Id>)
      requires Valid()
      modifies this
      ensures Valid()
      ensures id.Some? <==> RideValid(r)
      ensures id.Some? ==> id.value == old(nextId) && rides == old(rides)[id.value := r]
      ensures id.Some? ==> nextId == old(nextId) + 1
      ensures id.None? ==> rides == old(rides) && nextId == old(nextId)
      ensures bookings == old(bookings) && drivers == old(drivers) && users == old(users)
    {
      if RideValid(r) {
        id := Some(nextId);
        rides := rides[nextId := r];
        nextId := nextId + 1;
      } else {
        id := None;
      }
    }

    /** `save()` of a new driver; the Driver schema is not part of this model, so every driver is accepted. */
    method InsertDriver(d: Driver) returns (id: Id)
      requires Valid()
      modifies this
      ensures Valid()
      ensures id == old(nextId) && drivers == old(drivers)[id := d] && nextId == old(nextId) + 1
      ensures bookings == old(bookings) && rides == old(rides) && users == old(users)
    {
      id := nextId;
      drivers := drivers[nextId := d];
      nextId := nextId + 1;
    }

    /** `save()` of a new user: inserted when the schema accepts it and the unique
        index on `email` has no entry for its email. */
    method InsertUser(u: User) returns (id: Option<Id>)
      requires Valid()
      modifies this
      ensures Valid()
      ensures id.Some? <==> UserValid(u) && !old(EmailTaken(u.email))
      ensures id.Some? ==> id.value == old(nextId) && users == old(users)[id.value := u]
      ensures id.Some? ==> nextId == old(nextId) + 1
      ensures id.None? ==> users == old(users) && nextId == old(nextId)
      ensures bookings == old(bookings) && rides == old(rides) && drivers == old(drivers)
    {
      if UserValid(u) && !EmailTaken(u.email) {
        id := Some(nextId);
        users := users[nextId := u];
        nextId := nextId + 1;
      } else {
        id := None;
      }
    }
  }
}
