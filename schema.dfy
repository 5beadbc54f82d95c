/** The Mongoose schemas of models/Booking.js, models/Ride.js and models/User.js:
    the record types, their enumerations and defaults, and what `save()` and an
    update with `runValidators` accept. A required String path rejects a missing
    value and the empty string alike. */
module Schema {
  import opened Base

  // ----- Booking (models/Booking.js) -----

  const BookingStatuses: set<string> := {"pending", "approved", "rejected"}
  const Pending: string := "pending"
  const Approved: string := "approved"
  /** Written by `POST /bookings/:id`, which runs no validators; outside the enumeration. */
  const Transformed: string := "transformed"

  /** A booking document; `createdAt` and `updatedAt` are the schema's timestamps. */
  datatype Booking = Booking(
    name: string, email: string, phone: string,
    pickupLocation: string, dropoffLocation: string,
    pickupTime: Time, status: string,
    createdAt: Time, updatedAt: Time)

  /** The five required string paths (`name`, `email`, `phone`, `pickupLocation`,
      `dropoffLocation`) are non-empty. */
  predicate BookingFieldsPresent(b: Booking) {
    b.name != "" && b.email != "" && b.phone != "" &&
    b.pickupLocation != "" && b.dropoffLocation != ""
  }

  /** What `save()` of a booking accepts. */
  predicate BookingValid(b: Booking) {
    BookingFieldsPresent(b) && b.status in BookingStatuses
  }

  /** The status a new booking gets: the one given, or the schema default. */
  function InitialBookingStatus(given: Option<string>): (s: string)
    ensures given.None? ==> s == Pending
    ensures given.Some? ==> s == given.value
    // the default passes the enum validator; a given status passes exactly when it is listed
    ensures s in BookingStatuses <==> given.None? || given.value in BookingStatuses
  {
    if given.Some? then given.value else Pending
  }

  // ----- Ride (models/Ride.js) -----

  const RideStatuses: set<string> := {"Pending", "In Progress", "Completed"}
  const RidePending: string := "Pending"

  /** A ride document. The schema has no timestamps. `customerName` is optional here
      only because one handler builds a ride without it; the schema requires it. */
  datatype Ride = Ride(
    customerName: Option<string>, phone: string, email: string,
    pickupLocation: string, dropoffLocation: string,
    pickupTime: Time, driverName: Option<string>, status: string)

  /** What `save()` of a ride accepts. */
  predicate RideValid(r: Ride) {
    r.customerName.Some? && r.customerName.value != "" &&
    r.phone != "" && r.email != "" &&
    r.pickupLocation != "" && r.dropoffLocation != "" &&
    r.status in RideStatuses
  }

  /** `new Ride({...})` with the given paths: `driverName` defaults to null and `status` to "Pending". */
  function NewRide(customerName: Option<string>, phone: string, email: string,
                   pickupLocation: string, dropoffLocation: string, pickupTime: Time): (r: Ride)
    ensures r.driverName.None? && r.status == RidePending
    ensures r.customerName == customerName && r.phone == phone && r.email == email
    ensures r.pickupLocation == pickupLocation && r.dropoffLocation == dropoffLocation
    ensures r.pickupTime == pickupTime
    // the defaults always pass, so `save()` accepts the ride exactly when the six required paths hold values
    ensures RideValid(r) <==>
      customerName.Some? && customerName.value != "" && phone != "" && email != "" &&
      pickupLocation != "" && dropoffLocation != ""
  {
    Ride(customerName, phone, email, pickupLocation, dropoffLocation, pickupTime, None, RidePending)
  }

  // ----- User (models/User.js) -----

  const Roles: set<string> := {"admin", "user"}
  const AdminRole: string := "admin"
  const UserRole: string := "user"

  datatype Profile = Profile(phone: Option<string>, address: Option<string>)

  /** A user document. `name` is required by the schema, yet no registration handler
      supplies it, so it is optional here to let those documents be built. */
  datatype User = User(
    email: string, password: string, role: string,
    name: Option<string>, profile: Profile,
    createdAt: Time, updatedAt: Time)

  /** What `save()` of a user accepts, apart from the unique index on `email`. */
  predicate UserValid(u: User) {
    u.email != "" && u.password != "" && u.role in Roles &&
    u.name.Some? && u.name.value != ""
  }

  /** `new User({ email, password, role })` at time `now`: no name, an empty profile,
      and the role defaulting to "user". Whatever the arguments, `save()` rejects it:
      the required `name` is missing. With a name added it would be accepted exactly
      when the email and password are non-empty and the role is listed. */
  function NewUser(email: string, password: string, role: Option<string>, now: Time): (u: User)
    ensures u.email == email && u.password == password
    ensures u.role == (if role.Some? then role.value else UserRole)
    ensures u.name.None? && u.profile == Profile(None, None)
    ensures !UserValid(u)
    ensures UserValid(u.(name := Some("name"))) <==>
      email != "" && password != "" && (role.None? || role.value in Roles)
  {
    User(email, password, if role.Some? then role.value else UserRole, None, Profile(None, None), now, now)
  }

  /** A user as `select('-password')` returns it. */
  datatype UserView = UserView(
    email: string, role: string, name: Option<string>, profile: Profile,
    createdAt: Time, updatedAt: Time)

  function WithoutPassword(u: User): UserView {
    UserView(u.email, u.role, u.name, u.profile, u.createdAt, u.updatedAt)
  }

  /** The unique index on `email`. */
  ghost predicate UniqueEmails(users: map<Id, User>) {
    forall a, b :: a in users && b in users && users[a].email == users[b].email ==> a == b
  }

  // ----- Driver (models/Driver.js is not part of this model) -----

  /** A driver as the driver routes use it. */
  datatype Driver = Driver(name: string, phone: string, email: string, isAvailable: bool)
}
