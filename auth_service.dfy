/** services/authService.js: `registerUser` and `loginUser`, which report failure by
    throwing. Neither checks its arguments, so an `undefined` email makes
    `findOne({ email })` match any user (Mongoose drops the undefined key), and an
    `undefined` password makes bcrypt throw. */
module AuthService {
  import opened Base
  import opened Schema
  import opened Crypto
  import opened Http
  import opened Store

  /** What a service call returns, or the error it throws. */
  datatype Outcome = Done(message: string) | Failed(error: ServiceError)

  /** The filter `{ email }`: with the email undefined it keeps no condition at all. */
  function EmailFilter(email: Option<string>): User -> bool {
    match email
    case Some(e) => WithEmail(e)
    case None => (u: User) => true
  }

  /** `k` is the first user in natural order. */
  predicate FirstUser(users: map<Id, User>, k: Id) {
    k in users && forall k' :: k' in users ==> k <= k'
  }

  /** Some user passes the filter `{ email }`. */
  predicate EmailMatches(users: map<Id, User>, email: Option<string>) {
    exists k | k in users :: email.None? || users[k].email == email.value
  }

  /** `registerUser(email, password)`: `User already exists` when a user matches, nothing
      inserted; then bcrypt throws when the password is undefined; otherwise the new
      user, with no role given so the schema default "user" applies, is saved when the
      schema accepts it. It never does (no `name`), so every call throws and no user is
      ever added. */
  method RegisterUser(db: Store, email: Option<string>, password: Option<string>, pw: Passwords, now: Time)
    returns (o: Outcome)
    requires db.Valid()
    modifies db
    ensures db.Valid()
    ensures db.bookings == old(db.bookings) && db.rides == old(db.rides) && db.drivers == old(db.drivers)
    ensures o == Failed(UserExists) <==> EmailMatches(old(db.users), email)
    ensures o == Failed(BcryptArgumentMissing) <==> !EmailMatches(old(db.users), email) && password.None?
    ensures o == Failed(ValidationFailed) <==> !EmailMatches(old(db.users), email) && password.Some?
    ensures o.Failed? && db.users == old(db.users) && db.nextId == old(db.nextId)
  {
    var existing := db.FindUser(EmailFilter(email));
    if existing.Some? {
      return Failed(UserExists);
    }
    if password.None? {
      return Failed(BcryptArgumentMissing);
    }
    // an undefined email is absent from the document, which `required` rejects as it does ""
    var u := NewUser(if email.Some? then email.value else "", pw.hash(password.value), None, now);
    var id := db.InsertUser(u);
    o := match id
      case Some(_) => Done("User registered successfully")
      case None => Failed(ValidationFailed);
  }

  /** `loginUser(email, password)`: the first user matching `{ email }` (with the email
      undefined, the first user of all); with none, or when the password does not
      match, the same `Invalid email or password`; bcrypt throws on an undefined
      password; otherwise a message only: no token, and no change. */
  function LoginUser(db: Store, email: Option<string>, password: Option<string>, pw: Passwords): (o: Outcome)
    reads db
    requires db.Valid()
    ensures o.Done? ==> o.message == "Login successful"
    ensures o.Failed? ==> o.error in {InvalidCredentials, BcryptArgumentMissing}
    ensures o == Failed(BcryptArgumentMissing) ==> password.None? && EmailMatches(db.users, email)
    ensures !EmailMatches(db.users, email) ==> o == Failed(InvalidCredentials)
    ensures email.Some? && password.Some? ==>
      (o.Done? <==> exists k | k in db.users && db.users[k].email == email.value ::
                      pw.compare(password.value, db.users[k].password))
    ensures email.None? && password.Some? ==>
      (o.Done? <==> exists k | FirstUser(db.users, k) :: pw.compare(password.value, db.users[k].password))
    ensures password.Some? && !o.Done? ==> o == Failed(InvalidCredentials)
    ensures password.None? ==> o.Failed?
  {
    var found := db.FindUser(EmailFilter(email));
    if email.Some? then
      db.FindByEmail(email.value);
      LoginWith(found, password, pw)
    else
      assert found.Some? ==> FirstUser(db.users, found.value.0);
      assert forall k | FirstUser(db.users, k) :: found.Some? && k == found.value.0;
      LoginWith(found, password, pw)
  }

  /** The steps of `loginUser` after the lookup. */
  function LoginWith(found: Option<Entry<User>>, password: Option<string>, pw: Passwords): Outcome {
    match found
    case None => Failed(InvalidCredentials)
    case Some((_, u)) =>
      if password.None? then Failed(BcryptArgumentMissing)
      else if !pw.compare(password.value, u.password) then Failed(InvalidCredentials)
      else Done("Login successful")
  }
}

/** controllers/authController.js: the service's outcome as an HTTP answer. */
module AuthController {
  import opened Base
  import opened Crypto
  import opened Http
  import opened Store
  import AuthService

  /** A registration answers 201 with the service's result, or 400 with the error thrown. */
  function RegisterResponse(o: AuthService.Outcome): (resp: Response)
    ensures resp.status == 201 <==> o.Done?
    ensures resp.status == 400 <==> o.Failed?
    ensures o.Done? ==> resp.body == Message(o.message)
    ensures o.Failed? ==> resp.body == ServiceFailure(o.error)
  {
    match o
    case Done(m) => Response(201, Message(m))
    case Failed(e) => Response(400, ServiceFailure(e))
  }

  /** A login answers 200 with the service's result, or 401 with the error thrown. */
  function LoginResponse(o: AuthService.Outcome): (resp: Response)
    ensures resp.status == 200 <==> o.Done?
    ensures resp.status == 401 <==> o.Failed?
    ensures o.Done? ==> resp.body == Message(o.message)
    ensures o.Failed? ==> resp.body == ServiceFailure(o.error)
  {
    match o
    case Done(m) => Response(200, Message(m))
    case Failed(e) => Response(401, ServiceFailure(e))
  }

  /** `registerUser`: every call answers 400 with the error the service throws, since
      it always throws. */
  method RegisterUser(db: Store, email: Option<string>, password: Option<string>, pw: Passwords, now: Time)
    returns (resp: Response)
    requires db.Valid()
    modifies db
    ensures db.Valid()
    ensures db.bookings == old(db.bookings) && db.rides == old(db.rides) && db.drivers == old(db.drivers)
    ensures db.users == old(db.users) && db.nextId == old(db.nextId)
    ensures resp.status == 400
    ensures AuthService.EmailMatches(old(db.users), email) ==> resp.body == ServiceFailure(UserExists)
    ensures !AuthService.EmailMatches(old(db.users), email) ==>
      resp.body == ServiceFailure(if password.None? then BcryptArgumentMissing else ValidationFailed)
  {
    var o := AuthService.RegisterUser(db, email, password, pw, now);
    resp := RegisterResponse(o);
  }

  /** `loginUser`: 200 exactly when the password matches the user with that email,
      otherwise 401; the store is only read. */
  function LoginUser(db: Store, email: Option<string>, password: Option<string>, pw: Passwords): (resp: Response)
    reads db
    requires db.Valid()
    ensures resp.status in {200, 401}
    ensures email.Some? && password.Some? ==>
      (resp.status == 200 <==> exists k | k in db.users && db.users[k].email == email.value ::
                                 pw.compare(password.value, db.users[k].password))
    ensures email.None? && password.Some? ==>
      (resp.status == 200 <==> exists k | AuthService.FirstUser(db.users, k) ::
                                 pw.compare(password.value, db.users[k].password))
    ensures password.Some? && resp.status == 401 ==> resp.body == ServiceFailure(InvalidCredentials)
    ensures password.None? ==> resp.status == 401
  {
    LoginResponse(AuthService.LoginUser(db, email, password, pw))
  }
}
