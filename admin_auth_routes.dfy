/** routes/adminRoutes.js: admin registration with a hashed password, and admin
    login, which checks the password before the role and signs `{ id, role }`. */
module AdminRoutes {
  import opened Base
  import opened Schema
  import opened Text
  import opened Crypto
  import opened Http
  import opened Store
  import opened Auth
  import Registration

  const BadCredentials: string := "Invalid email or password."

  /** The token request of a successful admin login. */
  function AdminToken(id: Id, role: string): (req: TokenRequest)
    ensures req.claims.id == Some(Oid(id)) && req.claims.role == Some(role)
    ensures req.claims.userId.None? && req.claims.email.None? && req.expiresIn == "1h"
  {
    TokenRequest(Claims(Some(Oid(id)), None, None, Some(role)), "1h")
  }

  /** POST /register: 400 when the email or password is missing or the email is taken;
      otherwise the new admin (password hashed), whose schema-required `name` is
      missing, is rejected and the answer is 500. No user is ever added. */
  method Register(db: Store, email: Option<string>, password: Option<string>, pw: Passwords, now: Time)
    returns (resp: Response)
    requires db.Valid()
    modifies db
    ensures db.Valid()
    ensures db.bookings == old(db.bookings) && db.rides == old(db.rides) && db.drivers == old(db.drivers)
    ensures db.users == old(db.users) && db.nextId == old(db.nextId)
    ensures resp.status == 400 <==> !Present(email) || !Present(password) || old(db.EmailTaken(email.value))
    ensures resp.status == 500 <==> Present(email) && Present(password) && !old(db.EmailTaken(email.value))
  {
    if !Present(email) || !Present(password) {
      return Response(400, Error("Email and password are required."));
    }
    var r := Registration.Register(db, email.value, pw.hash(password.value), Some(AdminRole), now);
    resp := match r
      case AlreadyExists => Response(400, Error("User already exists."))
      case SaveRejected => Response(500, Error("Internal server error."))
      case Registered(_) => Response(201, Message("Admin registered successfully."));
  }

  /** The user `id` has this email and `password` matches their stored hash. */
  predicate Authenticates(users: map<Id, User>, id: Id, email: string, password: string, pw: Passwords) {
    id in users && users[id].email == email && pw.compare(password, users[id].password)
  }

  /** POST /login: 400 when the email or password is missing; 401, with one message,
      for an unknown email and for a wrong password alike; 403 for a user who is not an
      admin, only once the password has matched; otherwise 200 with a token for
      `{ id, role }` that expires in an hour. */
  function Login(db: Store, email: Option<string>, password: Option<string>, pw: Passwords,
                 sign: TokenRequest -> string): (resp: Response)
    reads db
    requires db.Valid()
    ensures resp.status in {200, 400, 401, 403}
    ensures resp.status == 400 <==> !Present(email) || !Present(password)
    ensures resp.status == 401 <==>
      Present(email) && Present(password) &&
      forall id | id in db.users :: !Authenticates(db.users, id, email.value, password.value, pw)
    ensures resp.status == 401 ==> resp.body == Error(BadCredentials)
    ensures resp.status == 403 <==>
      Present(email) && Present(password) &&
      exists id | Authenticates(db.users, id, email.value, password.value, pw) :: db.users[id].role != AdminRole
    ensures resp.status == 200 <==>
      Present(email) && Present(password) &&
      exists id | Authenticates(db.users, id, email.value, password.value, pw) :: db.users[id].role == AdminRole
    ensures resp.status == 200 ==>
      exists id | Authenticates(db.users, id, email.value, password.value, pw) ::
        resp.body == TokenIssued(sign(AdminToken(id, AdminRole)))
  {
    if !Present(email) || !Present(password) then
      Response(400, Error("Email and password are required."))
    else
      db.FindByEmail(email.value);
      match db.FindUser(WithEmail(email.value))
      case None => Response(401, Error(BadCredentials))
      case Some((id, u)) =>
        if !pw.compare(password.value, u.password) then Response(401, Error(BadCredentials))
        else if u.role != AdminRole then Response(403, Error("Access denied. Admins only."))
        else Response(200, TokenIssued(sign(AdminToken(id, u.role))))
  }

  /** An admin who gives their email and password is answered 200 with the token for
      their own `{ id, role }`; presented as "Bearer <token>", that token gets past
      `verifyToken('admin')` as long as jsonwebtoken gives back the payload it signed. */
  lemma LoginTokenPassesAdminGate(db: Store, id: Id, password: string, pw: Passwords,
                                  sign: TokenRequest -> string, verify: string -> Verified)
    requires db.Valid()
    requires password != ""
    requires id in db.users && db.users[id].role == AdminRole
    requires pw.compare(password, db.users[id].password)
    requires forall req :: verify(sign(req)) == Decoded(req.claims)
    requires ' ' !in sign(AdminToken(id, AdminRole))
    ensures var token := sign(AdminToken(id, AdminRole));
            && Login(db, Some(db.users[id].email), Some(password), pw, sign) == Response(200, TokenIssued(token))
            && VerifyToken(Some(AdminRole), Some(BearerPrefix + token), verify, db.users).Next?
  {
    var email := db.users[id].email;
    var resp := Login(db, Some(email), Some(password), pw, sign);
    assert resp.status == 200;
    var other :| Authenticates(db.users, other, email, password, pw) &&
                 resp.body == TokenIssued(sign(AdminToken(other, AdminRole)));
    assert db.users[other].email == db.users[id].email;
    var req := AdminToken(id, AdminRole);
    assert verify(sign(req)) == Decoded(req.claims);
    GateAdmitsToken(db.users, id, AdminRole, sign(req), verify);
  }
}

/** routes/authRoutes.js: admin registration storing the password as given, and a
    login that only admins can pass, signing `{ userId, email, role }`. */
module AuthRoutes {
  import opened Base
  import opened Schema
  import opened Text
  import opened Crypto
  import opened Http
  import opened Store
  import opened Auth
  import Registration
  import AdminRoutes

  /** The token request of a successful login here. */
  function UserIdToken(id: Id, email: string, role: string): (req: TokenRequest)
    ensures req.claims.id.None?
    ensures req.claims.userId == Some(Oid(id)) && req.claims.email == Some(email) && req.claims.role == Some(role)
    ensures req.expiresIn == "1h"
  {
    TokenRequest(Claims(None, Some(Oid(id)), Some(email), Some(role)), "1h")
  }

  /** POST /register: as routes/adminRoutes.js, but the password would be stored
      unhashed; 400 for a missing field or a taken email, otherwise 500. */
  method Register(db: Store, email: Option<string>, password: Option<string>, now: Time)
    returns (resp: Response)
    requires db.Valid()
    modifies db
    ensures db.Valid()
    ensures db.bookings == old(db.bookings) && db.rides == old(db.rides) && db.drivers == old(db.drivers)
    ensures db.users == old(db.users) && db.nextId == old(db.nextId)
    ensures resp.status == 400 <==> !Present(email) || !Present(password) || old(db.EmailTaken(email.value))
    ensures resp.status == 500 <==> Present(email) && Present(password) && !old(db.EmailTaken(email.value))
  {
    if !Present(email) || !Present(password) {
      return Response(400, Error("Email and password are required."));
    }
    var r := Registration.Register(db, email.value, password.value, Some(AdminRole), now);
    resp := match r
      case AlreadyExists => Response(400, Error("User already exists."))
      case SaveRejected => Response(500, Error("Registration failed."))
      case Registered(_) => Response(201, Message("Admin registered successfully."));
  }

  /** The filter `{ email, role: 'admin' }`. */
  function AdminWithEmail(email: string): User -> bool {
    (u: User) => u.email == email && u.role == AdminRole
  }

  /** `findOne({ email, role: 'admin' })` finds the one user with that email when that
      user is an admin, and nothing otherwise. */
  lemma AdminLookup(db: Store, email: string)
    requires db.Valid()
    ensures var found := db.FindUser(AdminWithEmail(email));
            forall k | k in db.users && db.users[k].email == email ::
              (found.Some? <==> db.users[k].role == AdminRole) &&
              (found.Some? ==> found.value == (k, db.users[k]))
  {
  }

  /** The admin `id` has this email and `password` matches their stored password. */
  predicate AdminAuthenticates(users: map<Id, User>, id: Id, email: string, password: string, pw: Passwords) {
    AdminRoutes.Authenticates(users, id, email, password, pw) && users[id].role == AdminRole
  }

  /** POST /login: 400 when the email or password is missing; `User.findOne({ email,
      role: 'admin' })`, so a user who is not an admin is treated as unknown; 401 for
      no such admin or a wrong password; otherwise 200 with a token for
      `{ userId, email, role }` that expires in an hour. */
  function Login(db: Store, email: Option<string>, password: Option<string>, pw: Passwords,
                 sign: TokenRequest -> string): (resp: Response)
    reads db
    requires db.Valid()
    ensures resp.status in {200, 400, 401}
    ensures resp.status == 400 <==> !Present(email) || !Present(password)
    ensures resp.status == 200 <==>
      Present(email) && Present(password) &&
      exists id :: AdminAuthenticates(db.users, id, email.value, password.value, pw)
    ensures resp.status == 200 ==>
      exists id | AdminAuthenticates(db.users, id, email.value, password.value, pw) ::
        resp.body == TokenIssued(sign(UserIdToken(id, email.value, AdminRole)))
  {
    if !Present(email) || !Present(password) then
      Response(400, Error("Email and password are required."))
    else
      var found := db.FindUser(AdminWithEmail(email.value));
      AdminLookup(db, email.value);
      if found.None? || !pw.compare(password.value, found.value.1.password) then
        Response(401, Error("Invalid email or password."))
      else
        var (id, u) := found.value;
        assert AdminAuthenticates(db.users, id, email.value, password.value, pw);
        Response(200, TokenIssued(sign(UserIdToken(id, u.email, u.role))))
  }

  /** An admin who gives their email and password is answered 200 with a token for
      `{ userId, email, role }`. That token carries no `id`, so `verifyToken` turns it
      away with 404 whatever role it asks for, even though jsonwebtoken accepts it;
      `authMiddleware`, which looks no further than the signature, lets it through. */
  lemma LoginTokenFailsVerifyToken(db: Store, id: Id, password: string, pw: Passwords,
                                   sign: TokenRequest -> string, verify: string -> Verified,
                                   requiredRole: Option<string>)
    requires db.Valid()
    requires password != ""
    requires id in db.users && db.users[id].role == AdminRole
    requires pw.compare(password, db.users[id].password)
    requires forall req :: verify(sign(req)) == Decoded(req.claims)
    requires var token := sign(UserIdToken(id, db.users[id].email, AdminRole)); ' ' !in token && token != ""
    ensures var token := sign(UserIdToken(id, db.users[id].email, AdminRole));
            && Login(db, Some(db.users[id].email), Some(password), pw, sign) == Response(200, TokenIssued(token))
            && var g := VerifyToken(requiredRole, Some(BearerPrefix + token), verify, db.users);
               g.Answer? && g.response.status == 404
    ensures var token := sign(UserIdToken(id, db.users[id].email, AdminRole));
            AuthMiddleware(Some(BearerPrefix + token), verify).Next?
  {
    var email := db.users[id].email;
    var resp := Login(db, Some(email), Some(password), pw, sign);
    assert resp.status == 200;
    var other :| AdminAuthenticates(db.users, other, email, password, pw) &&
                 resp.body == TokenIssued(sign(UserIdToken(other, email, AdminRole)));
    assert db.users[other].email == db.users[id].email;
    var req := UserIdToken(id, email, AdminRole);
    assert verify(sign(req)) == Decoded(req.claims);
    NoIdClaimIsNotFound(requiredRole, sign(req), verify, db.users);
  }
}

/** authRoutes.js: admin registration gated by a shared secret key, and a protected
    route mounted after `authMiddleware`, which echoes the decoded payload. */
module SecretAuthRoutes {
  import opened Base
  import opened Schema
  import opened Text
  import opened Crypto
  import opened Http
  import opened Store
  import opened Auth
  import Registration

  const FallbackSecret: string := "hardcoded_fallback_secret"

  /** `process.env.ADMIN_SECRET || 'hardcoded_fallback_secret'`. */
  function AdminSecret(env: Option<string>): (secret: string)
    ensures Present(env) ==> secret == env.value
    ensures !Present(env) ==> secret == FallbackSecret
    ensures secret != ""
  {
    if Present(env) then env.value else FallbackSecret
  }

  /** POST /register (before `authMiddleware`, so no token is needed): 400 when a field
      is missing, 403 for a wrong secret key before any lookup, 400 for a taken email,
      otherwise the new admin (password hashed) is rejected for its missing `name` and
      the answer is 500. No user is ever added. */
  method Register(db: Store, env: Option<string>, email: Option<string>, password: Option<string>,
                  secretKey: Option<string>, pw: Passwords, now: Time)
    returns (resp: Response)
    requires db.Valid()
    modifies db
    ensures db.Valid()
    ensures db.bookings == old(db.bookings) && db.rides == old(db.rides) && db.drivers == old(db.drivers)
    ensures db.users == old(db.users) && db.nextId == old(db.nextId)
    ensures resp.status in {400, 403, 500}
    ensures !Present(email) || !Present(password) || !Present(secretKey) ==> resp.status == 400
    ensures Present(email) && Present(password) && Present(secretKey) ==>
      && (resp.status == 403 <==> secretKey.value != AdminSecret(env))
      && (secretKey.value == AdminSecret(env) ==>
            (resp.status == 400 <==> old(db.EmailTaken(email.value))))
  {
    if !Present(email) || !Present(password) || !Present(secretKey) {
      return Response(400, Error("Email, password, and secret key are required."));
    }
    if secretKey.value != AdminSecret(env) {
      return Response(403, Error("Invalid secret key. Registration denied."));
    }
    var r := Registration.Register(db, email.value, pw.hash(password.value), Some(AdminRole), now);
    resp := match r
      case AlreadyExists => Response(400, Error("User already exists."))
      case SaveRejected => Response(500, Error("Registration failed."))
      case Registered(_) => Response(201, Message("Admin registered successfully."));
  }

  /** GET /protected-route: authMiddleware's 401, or 200 echoing exactly the payload
      jsonwebtoken decoded from the token. */
  function ProtectedRoute(header: Option<string>, verify: string -> Verified): (resp: Response)
    ensures resp.status in {200, 401}
    ensures resp.status == 200 <==> AuthMiddleware(header, verify).Next?
    ensures resp.status == 200 ==>
      resp.body == ProtectedEcho("You have accessed a protected route.", verify(Piece(header.value, 1).value).claims)
  {
    match AuthMiddleware(header, verify)
    case Answer(r) => r
    case Next(claims, _) => Response(200, ProtectedEcho("You have accessed a protected route.", claims))
  }
}
