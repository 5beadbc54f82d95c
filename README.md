# faire-ride-backend: a verified model of the booking → ride lifecycle

This project models the core of the faire-ride backend, an Express/Mongoose service. Guests book rides there, admins approve those bookings into rides, and rides get drivers and statuses. The model covers:

- **The entity store.** The four Mongoose collections (Booking, Ride, Driver, User) are the class `Store.Store`: four maps from id to document and one counter for fresh ids. The counter order stands for MongoDB's natural (insertion) order.
  - `save()` of a new or changed document is a method that checks the schema's validity predicate (`Schema.BookingValid`, `RideValid`, `UserValid`) and the unique index on user emails.
  - The class invariant `Valid()` holds after every handler. It says that every booking and ride is one the handlers can leave there, that every user passes the User schema, that ids are below the counter, and that emails are unique. No handler can add a user, so the stored users stand for documents created outside the handlers.
- **The schemas** of models/Booking.js, models/Ride.js and models/User.js, with their enumerations, defaults and required paths, as datatypes and predicates.
- **Every route handler** of the booking, ride, driver, admin-dashboard, admin-booking and customer-dashboard routers. Each is a method over the store that returns the HTTP status and body.
- **The two authentication middlewares**, `verifyToken(role)` and `authMiddleware`, as decision functions over the request header and the Users collection.
- **The four user-registry variants**:
  - routes/adminRoutes.js;
  - routes/authRoutes.js;
  - the secret-key router in authRoutes.js;
  - services/authService.js with controllers/authController.js.

Opaque services are parameters of the model:

- `castDate`: Mongoose's cast of a request string to a Date.
- `Passwords(hash, compare)`: bcrypt.
- `sign` and `verify`: jsonwebtoken. `verify` returns a decoded payload or an error kind (expired, invalid, other).
- `now`: the clock that fills the timestamps.

Two schema mismatches in the code shape what the handlers can actually do, and the model keeps both:

- The User schema requires a `name` that no registration handler supplies. Every registration that reaches `save()` is rejected, so no user is ever added (`Schema.NewUser`).
- Both approval handlers build the Ride with `name` instead of `customerName`. That ride is always rejected, so approval as written never succeeds (see Findings).

The code also behaves as follows, which a reader might not expect:

- Driver assignment takes any non-empty name, whether or not such a driver exists, and whatever the ride's status.
- Ride status changes may go backwards.
- With the ride built as intended (`Approval.RideFromBooking`), approval can happen more than once per booking. PATCH /bookings/:id/status needs no token and accepts "pending", so an approved booking can be reopened and approved again, giving a second ride (`Scenarios.ReapproveAfterReopen`).
- Approval is not atomic: the ride is saved before the booking.
- The booking, driver and admin-booking routes are not authenticated.

## Model

| member | source | states |
|---|---|---|
| Schema.BookingFieldsPresent | models/Booking.js:4-8 | the five required string paths of a booking are non-empty |
| Schema.BookingValid | models/Booking.js:3-11 | `save()` accepts a booking exactly when its required paths are present and its status is one of "pending", "approved", "rejected" |
| Schema.InitialBookingStatus | models/Booking.js:10 | a new booking's status is the given one, or "pending" when none is given; it passes the enumeration exactly when none is given or the given one is listed |
| Schema.RideValid | models/Ride.js:3-12 | `save()` accepts a ride exactly when `customerName` and the four other required strings are non-empty and the status is one of "Pending", "In Progress", "Completed" |
| Schema.NewRide | models/Ride.js:3-12 | a new ride holds exactly the given fields, with `driverName` null and status "Pending"; `RideValid` accepts it exactly when a non-empty `customerName` and the four other strings are given |
| Schema.UserValid | models/User.js:3-15 | `save()` accepts a user (apart from the unique index) exactly when email, password and name are non-empty and the role is "admin" or "user" |
| Schema.NewUser | models/User.js:3-15 | a new user holds the given email and password, the role given or else "user", no name and an empty profile. `UserValid` always rejects it for the missing name; with a name it would accept it exactly when email and password are non-empty and the role is listed |
| Schema.WithoutPassword | middlewares/verifyToken.js:19 | `select('-password')`: every path of the user except the password |
| Queries.Entries | routes/rideRoutes.js:44 | `find()` returns every document of the collection exactly once, in id (natural) order |
| Queries.Filter | routes/driverRoutes.js:8 | a filtered query holds exactly the documents that satisfy the filter, each at most as often as in the collection, in the collection's order |
| Queries.SubsequenceKeepsIdOrder | routes/driverRoutes.js:8 | leaving documents out of a listing in natural order keeps the rest in natural order, and adds none |
| Queries.InsertSorted | routes/customerDashboardRoutes.js:12 | inserting into a sequence ordered largest first keeps it ordered |
| Queries.SortDesc | routes/customerDashboardRoutes.js:12 | `sort({ key: -1 })` is a permutation of its input, ordered by the key with the largest first |
| Queries.Take | routes/customerDashboardRoutes.js:13 | `limit(n)` is a prefix of the input, adding no element: the whole input when it is no longer than n, and exactly n elements otherwise |
| Queries.PrefixOfSorted | routes/customerDashboardRoutes.js:12-13 | a prefix of an ordered sequence is ordered and holds only elements of the sequence |
| Queries.PrefixHoldsTheLargest | routes/customerDashboardRoutes.js:12-13 | an element a prefix of an ordered sequence leaves out is no larger than any element it keeps |
| Queries.FirstWhere | routes/adminRoutes.js:46 | `findOne` over a listing finds an element exactly when one satisfies the filter; what it finds satisfies it, and no earlier element does |
| Queries.FirstMatchIsEarliest | routes/adminRoutes.js:46 | the first match in the listing of a collection has the smallest id among the matching documents |
| Queries.FindOne | routes/adminRoutes.js:46 | `findOne` on a collection finds a document exactly when one satisfies the filter; it is stored under its id, satisfies the filter, and no document earlier in natural order does |
| Text.Present | routes/bookingRoutes.js:12 | a request field is truthy exactly when it is given and not the empty string |
| Text.Piece | middleware/authMiddleware.js:6 | `split(' ')[i]` is the i-th piece, or undefined past the last one |
| Text.Split | middleware/authMiddleware.js:6 | `split(' ')` gives at least one piece, and no piece holds a space |
| Text.JoinSplit | middleware/authMiddleware.js:6 | joining the pieces of `split(' ')` with single spaces gives the header back |
| Text.SplitJoin | middleware/authMiddleware.js:6 | splitting space-free pieces joined by single spaces gives the pieces back |
| Text.SecondPiece | middlewares/verifyToken.js:12 | in "scheme token", with neither part holding a space, `split(' ')[1]` is the token |
| Store.BookingStored | routes/bookingRoutes.js:108-112 | a stored booking has its required paths and a listed status, or the status "transformed" that POST /:id writes without validators |
| Store.Consistent | models/User.js:5 | the collections' invariant: ids below the counter, every booking storable, every ride and user valid, and emails unique |
| Store.Store.Valid | models/User.js:5 | the store's collections satisfy `Consistent`; every handler keeps it |
| Store.Store.EmailTaken | routes/adminRoutes.js:18-21 | some stored user has the email |
| Store.Store.FindUser | routes/adminRoutes.js:46 | `User.findOne(filter)` finds a stored user exactly when some stored user satisfies the filter, and it finds the first in natural order |
| Store.Store.FindByEmail | models/User.js:5 | with unique emails, `findOne({ email })` finds the one user with that email, exactly when the email is taken |
| Store.Store.InsertBooking | models/Booking.js:3-11 | a new booking is inserted under a fresh id exactly when the schema accepts it; nothing else changes |
| Store.Store.SaveBooking | routes/adminDashboardRoutes.js:40-41 | a changed booking is written back exactly when it is stored and the schema accepts it |
| Store.Store.InsertRide | models/Ride.js:3-12 | a new ride is inserted under a fresh id exactly when the schema accepts it; nothing else changes |
| Store.Store.InsertDriver | routes/driverRoutes.js:25-26 | a new driver is inserted under a fresh id, and the other collections are unchanged |
| Store.Store.InsertUser | models/User.js:3-15 | a new user is inserted exactly when the schema accepts it and its email is not taken, so emails stay unique |
| Auth.BearerHeaderHasToken | middlewares/verifyToken.js:8-12 | a header that starts with "Bearer " splits into at least two pieces |
| Auth.BearerToken | middlewares/verifyToken.js:12 | the token is the second space-separated piece of the header |
| Auth.VerifyToken | middlewares/verifyToken.js:5-45 | `next()` happens exactly when the header is Bearer, the token verifies, its `id` names a stored user, and that user has the required role if one is given; the stored user is passed on. 401 exactly when the header is not Bearer or the token is expired or invalid; 404 exactly when a verified token has no `id` or one naming no stored user; 403 exactly when that user lacks the required role; 500 exactly when verification fails otherwise or the `id` cannot be cast |
| Auth.TokenRoleIsIgnored | middlewares/verifyToken.js:19-30 | the role claimed in the token changes neither the outcome nor the user passed on; only the stored role is compared |
| Auth.NoRequiredRoleAdmitsAnyRole | middlewares/verifyToken.js:28 | without a required role, every stored user named by a valid token passes |
| Auth.AuthMiddleware | middleware/authMiddleware.js:5-18 | `next()` with the decoded payload exactly when the second piece of the header is a token that verifies; 401 otherwise |
| Auth.SchemeIsNotChecked | middleware/authMiddleware.js:6 | any scheme word in place of "Bearer" gives the same outcome |
| Auth.EmptyBearerToken | middleware/authMiddleware.js:6-9 | the header "Bearer " passes verifyToken's scheme check but gives authMiddleware no token, so it answers 401 |
| Auth.GateAdmitsToken | middlewares/verifyToken.js:12-32 | a Bearer token that decodes to the id of a stored user with the required role reaches `next()` |
| Auth.NoIdClaimIsNotFound | middlewares/verifyToken.js:19-22 | a valid token whose payload has no `id` gets 404 from verifyToken, yet passes authMiddleware |
| BookingRoutes.NewBooking | routes/bookingRoutes.js:17-26 | the new booking copies the six request fields, takes the given status or "pending", and is valid exactly when that status is in the enumeration |
| BookingRoutes.Create | routes/bookingRoutes.js:7-55 | 400 exactly when a required field is missing; 201 exactly when the booking is valid, inserting exactly that one booking and sending both notifications whatever becomes of them; otherwise 500 with nothing inserted |
| BookingRoutes.NewestFirst | routes/bookingRoutes.js:60 | the listing holds every stored booking exactly once, ordered by `createdAt`, newest first |
| BookingRoutes.List | routes/bookingRoutes.js:58-66 | GET / answers 200 with every booking, newest first |
| BookingRoutes.Get | routes/bookingRoutes.js:69-80 | 200 with the booking exactly when the id is stored; 404 otherwise, and 500 for an id that cannot be cast |
| BookingRoutes.StatusAccepted | routes/bookingRoutes.js:87-91 | `runValidators` accepts a status update exactly when the status is undefined or one of the enumeration |
| BookingRoutes.UpdateStatus | routes/bookingRoutes.js:83-102 | a status outside the enumeration answers 500 before the lookup; 404 for an unknown id; otherwise only that booking's status and `updatedAt` change |
| BookingRoutes.Transform | routes/bookingRoutes.js:105-126 | the status becomes "transformed" whatever it was, no ride is created, and the stored booking then fails the schema; 404 for an unknown id |
| BookingRoutes.TextAccepted | routes/bookingRoutes.js:134-138 | a given string value passes `required` exactly when it is non-empty |
| BookingRoutes.UpdateAccepted | routes/bookingRoutes.js:134-138 | `runValidators` accepts an update exactly when every given string is non-empty, a given pickup time casts to a Date, and a given status is listed |
| BookingRoutes.Overwrite | routes/bookingRoutes.js:134-144 | each of the seven listed paths takes its given value or keeps its own when the key is undefined (`BookingRoutes.Given`), `createdAt` never changes, and a storable (or valid) booking stays storable (or valid) |
| BookingRoutes.OverwriteIdempotent | routes/bookingRoutes.js:134-144 | applying the same accepted update twice gives what applying it once gives |
| BookingRoutes.Update | routes/bookingRoutes.js:130-149 | a value failing its validator answers 500; an unknown id 404; otherwise exactly that booking is overwritten and nothing else changes |
| BookingRoutes.Delete | routes/bookingRoutes.js:152-163 | exactly that booking is removed, or 404 when there is none |
| Approval.RideFromBookingAsWritten | routes/adminDashboardRoutes.js:30-37 | the ride as written copies five of the booking's fields but has no `customerName`, so the Ride schema rejects it |
| Approval.RideFromBooking | routes/adminBookingRoutes.js:20-27 | the intended ride copies all six of the booking's fields, with the name as `customerName`, and every stored booking gives a valid ride |
| Approval.Approve | routes/adminDashboardRoutes.js:21-47 | 404 for an unknown booking and 400 for one not pending. 201 exactly when the booking is pending and its ride is valid: one ride is inserted, only that booking becomes "approved", and it is no longer approvable. Any other outcome changes nothing |
| AdminDashboardRoutes.PendingBookings | routes/adminDashboardRoutes.js:10 | the pending list is exactly the stored bookings whose status is "pending", in natural order |
| AdminDashboardRoutes.ListPending | routes/adminDashboardRoutes.js:8-16 | the admin gate's answer, or 200 with the pending bookings |
| AdminDashboardRoutes.Approve | routes/adminDashboardRoutes.js:19-48 | the admin gate's answer, else 404 for an unknown booking, 400 for one not pending, and 500 for a pending one or an id that cannot be cast; nothing changes and the route never answers 201 |
| AdminBookingRoutes.Approve | routes/adminBookingRoutes.js:7-40 | with no gate: 404, 400, or 500 for a pending booking; nothing changes and the route never answers 201 |
| Registration.Register | routes/adminRoutes.js:18-26 | refused exactly when the email is taken; a user is inserted exactly when the email is free and the schema accepts the new user; otherwise nothing changes |
| RideRoutes.AdminRegister | routes/rideRoutes.js:14-39 | authMiddleware's answer; else 400 exactly when a field is missing or the email is taken, and 500 otherwise; no user is ever added |
| RideRoutes.List | routes/rideRoutes.js:42-50 | authMiddleware's answer, or 200 with every ride exactly once |
| RideRoutes.Get | routes/rideRoutes.js:53-64 | authMiddleware's answer, or the ride, 404 or 500 |
| RideRoutes.Create | routes/rideRoutes.js:67-83 | no token needed. 400 exactly when a field is missing. 201 exactly when the pickup time is a date, inserting one ride with the given fields, no driver and status "Pending". Otherwise 500 with nothing inserted |
| RideRoutes.AssignDriver | routes/rideRoutes.js:86-109 | authMiddleware's answer; else 400 for a missing name, even for an unknown ride; then 500 or 404; otherwise only that ride's `driverName` changes, whatever its status |
| RideRoutes.StatusAllowed | routes/rideRoutes.js:116-118 | the status check passes exactly when the status is one of "Pending", "In Progress", "Completed" |
| RideRoutes.UpdateStatus | routes/rideRoutes.js:112-135 | authMiddleware's answer; else 400 for a status outside the three, before the lookup; then 500 or 404; otherwise only that ride's status changes, from any status to any |
| DriverRoutes.AvailableDrivers | routes/driverRoutes.js:8 | the listing is exactly the drivers whose `isAvailable` is true, in natural order |
| DriverRoutes.ListAvailable | routes/driverRoutes.js:6-14 | GET / answers 200 with the available drivers |
| DriverRoutes.Add | routes/driverRoutes.js:17-33 | 400 exactly when the name, phone or email is missing, with nothing inserted; otherwise exactly one driver with those fields is inserted and the answer is 201 |
| DriverRoutes.SetAvailability | routes/driverRoutes.js:36-59 | a non-boolean value answers 400 before any lookup; then 500 or 404; otherwise only that driver's `isAvailable` changes |
| CustomerDashboardRoutes.RecentRides | routes/customerDashboardRoutes.js:11-13 | at most five rides, each a stored ride with the caller's email and each at most once, ordered by pickup time with the latest first |
| CustomerDashboardRoutes.RecentRidesAreTheLatest | routes/customerDashboardRoutes.js:11-13 | no matching ride left out is later than a returned one, and fewer than five are returned only when every match is |
| CustomerDashboardRoutes.Dashboard | routes/customerDashboardRoutes.js:8-20 | the user gate's answer, or 200 with the stored record of the user the token names, without its password, paired with their recent rides |
| AdminRoutes.Register | routes/adminRoutes.js:8-33 | 400 exactly when a field is missing or the email is taken, and 500 otherwise; no user is ever added |
| AdminRoutes.Login | routes/adminRoutes.js:36-70 | 400 for a missing field; 401 with one message exactly when no user has that email and password; 403 exactly when the matching user is not an admin, checked only after the password; otherwise 200 with a token for that user |
| AdminRoutes.LoginTokenPassesAdminGate | routes/adminRoutes.js:46-65 | an admin giving their email and password gets 200 with the token `AdminRoutes.AdminToken` builds for their own `{ id, role }`, expiring in an hour, and that token passes `verifyToken('admin')` |
| AuthRoutes.Register | routes/authRoutes.js:11-35 | 400 exactly when a field is missing or the email is taken, and 500 otherwise; no user is ever added |
| AuthRoutes.AdminLookup | routes/authRoutes.js:48 | `findOne({ email, role: 'admin' })` finds the user with that email exactly when that user is an admin |
| AuthRoutes.Login | routes/authRoutes.js:38-62 | 400 for a missing field; 200 with a token exactly when an admin has that email and password; 401 otherwise |
| AuthRoutes.LoginTokenFailsVerifyToken | routes/authRoutes.js:48-57 | an admin giving their email and password gets 200 with the token `AuthRoutes.UserIdToken` builds for `{ userId, email, role }`, with no `id`; that token gets 404 from `verifyToken` with any role, yet passes `authMiddleware` |
| SecretAuthRoutes.Register | authRoutes.js:9-46 | 400 for a missing field; 403 exactly when the key differs from `SecretAuthRoutes.AdminSecret` (the environment's value when set, else the hard-coded fallback), before any lookup; then 400 exactly when the email is taken, and 500 otherwise; no user is ever added |
| SecretAuthRoutes.ProtectedRoute | authRoutes.js:49-54 | 200 exactly when authMiddleware admits the request, echoing the decoded payload; 401 otherwise |
| AuthService.EmailFilter | services/authService.js:5 | the filter `{ email }` keeps the users with that email, and every user when the email is undefined |
| AuthService.RegisterUser | services/authService.js:4-15 | throws "User already exists" exactly when a user matches `{ email }`; bcrypt's error exactly when none does and the password is missing; the schema's rejection exactly when none does and the password is given. No user is ever added |
| AuthService.LoginUser | services/authService.js:17-29 | an unknown email and a wrong password fail alike; with the password given, success exactly when it matches the user with that email, or the first user of all when the email is undefined; an undefined password always fails; no state changes and no token |
| AuthService.LoginWith | services/authService.js:19-28 | after the lookup: no user or a wrong password gives "Invalid email or password", an undefined password bcrypt's error, otherwise success |
| AuthController.RegisterUser | controllers/authController.js:3-12 | every registration answers 400 and adds no user, with the thrown error as the body: "User already exists" exactly when the email matches, else bcrypt's error without a password, else the schema's rejection (`AuthController.RegisterResponse`: 201 exactly for a result, 400 exactly for an error) |
| AuthController.LoginUser | controllers/authController.js:14-23 | 200 or 401 only (`AuthController.LoginResponse`: 200 exactly for a result, 401 exactly for an error); with the password given, 200 exactly when it matches the user with that email, or the first user when the email is undefined; an undefined password answers 401 |
| Scenarios.ApproveOnce | routes/adminBookingRoutes.js:29-38 | with the intended ride builder, a fresh booking is approved once (201) into a pending ride with its details, and a second approval answers 400 |
| Scenarios.ReapproveAfterReopen | routes/bookingRoutes.js:83-97 | with the intended ride builder, a booking approved (201), set back to "pending" by PATCH status (200) and approved again (201) leaves two rides |
| Scenarios.StatusRoundTrip | routes/rideRoutes.js:86-135 | past authMiddleware, a ride can be given a driver and moved forward to "Completed" and back to "Pending", every step answering 200 |

## Left out

- server.js and config/db.js (app wiring, CORS, static files, the database connection) are not part of this model.
- routes/contactRoutes.js, routes/dashboardRoutes.js and seedAdmin.js are not part of this model. The users a store starts with stand for documents created outside the handlers; seedAdmin.js's own `new User` has no name either, so its `save()` would be rejected too.
- Email delivery (services/sendEmail.js, utils/sendEmail.js, templates/emailTemplate.js) is not modelled. Booking creation records the two notifications it sends as a list, because any failure is only logged.
- bcrypt and jsonwebtoken are opaque functions: no hashing, salting, signing keys or expiry arithmetic.
- The model assumes `jwt.sign` always succeeds. An unset `JWT_SECRET` in routes/adminRoutes.js would make it throw (500).
- models/Driver.js is not part of this model. The default of `isAvailable` is the store constant `availableByDefault`, and saving a driver is assumed always to succeed.
- Dates are integers, and the cast from a request string to a Date is the opaque `castDate`. A `pickupTime` that is present but not a date answers 500.
- Request fields are absent or strings. JSON `null`, numbers and objects in string fields are not modelled.
- ObjectIds are natural numbers. An id that cannot be cast is `Ref.Malformed` and answers 500. MongoDB natural order is the order of ids.
- Concurrency is not modelled: each handler runs to completion on its own. A race between two approvals of the same booking is therefore not captured.
- Updates assume Mongoose 6 or later, which drops keys whose value is `undefined` from a `findByIdAndUpdate` update (`BookingRoutes.Given`). The Mongoose version is not part of this model.
- One opaque `verify` serves both middlewares, so the lemmas relating them assume both use the same secret. middleware/authMiddleware.js:3 falls back to 'your_secret_key' when `JWT_SECRET` is unset, and middlewares/verifyToken.js has no fallback.
- Database errors other than validation are not modelled (the 500 answers of every catch block beyond those above).
- `req.userDetails`, the user attached by verifyToken, is modelled with its password. No route returns it. The customer dashboard re-reads the user by the token's id with `select('-password')` (routes/customerDashboardRoutes.js:10); the model applies `Schema.WithoutPassword` to the same stored user.
- DriverRoutes.Add: the Driver schema's own validation is not modelled, because models/Driver.js is not part of this model.

## Findings

| source | as written | input that shows it | evidently intended | confidence | as-written member | corrected member |
|---|---|---|---|---|---|---|
| routes/adminDashboardRoutes.js:30-39 and routes/adminBookingRoutes.js:20-29 | the approved booking's name is passed as `name`, a path the Ride schema lacks, so the required `customerName` is missing and `newRide.save()` throws: every approval of a pending booking answers 500 and the booking stays pending | any pending booking, e.g. name "Ann", all fields present | the name goes to `customerName`, so the ride saves, the booking becomes approved and the answer is 201 | not executed | Approval.RideFromBookingAsWritten | Approval.RideFromBooking |
