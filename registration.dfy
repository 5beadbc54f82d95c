/** The step every registration handler ends with: `User.findOne({ email })`, and
    when nobody has that email, `save()` of `new User({ email, password, role })`.
    The User schema requires a `name` that no registration supplies, so that save
    is always rejected: no registration in the system ever adds a user. */
module Registration {
  import opened Base
  import opened Schema
  import opened Store

  datatype Registration = AlreadyExists | SaveRejected | Registered(id: Id)

  /** Register `email` with the stored password `password` and the given role: refused
      when the email is taken, rejected when the schema refuses the new user, and
      otherwise inserted under a fresh id. Only the Users collection can change. */
  method Register(db: Store, email: string, password: string, role: Option<string>, now: Time)
    returns (r: Registration)
    requires db.Valid()
    modifies db
    ensures db.Valid()
    ensures db.bookings == old(db.bookings) && db.rides == old(db.rides) && db.drivers == old(db.drivers)
    ensures r.AlreadyExists? <==> old(db.EmailTaken(email))
    ensures r.Registered? <==> !old(db.EmailTaken(email)) && UserValid(NewUser(email, password, role, now))
    ensures r.Registered? ==>
      r.id == old(db.nextId) && db.users == old(db.users)[r.id := NewUser(email, password, role, now)]
    ensures !r.Registered? ==> db.users == old(db.users) && db.nextId == old(db.nextId)
  {
    db.FindByEmail(email);
    var existing := db.FindUser(WithEmail(email));
    if existing.Some? {
      return AlreadyExists;
    }
    var id := db.InsertUser(NewUser(email, password, role, now));
    r := match id case Some(i) => Registered(i) case None => SaveRejected;
  }
}
