/** The two authentication middlewares: `verifyToken(requiredRole)` of
    middlewares/verifyToken.js, which checks the header scheme, the token, the
    user record and its role, and `authMiddleware` of middleware/authMiddleware.js,
    which only checks the token. Both are decisions over the request header and
    the Users collection; `jwt.verify` is the opaque `verify` parameter. */
module Auth {
  import opened Base
  import opened Schema
  import opened Text
  import opened Crypto
  import opened Http

  const BearerScheme: string := "Bearer"
  const BearerPrefix: string := "Bearer "

  /** What a middleware does with a request: call `next()` with what it attached
      (`req.user`, and for verifyToken `req.userDetails`), or answer it itself. */
  datatype Gate = Next(claims: Claims, details: Option<Entry<User>>) | Answer(response: Response)

  /** A header that starts with "Bearer " splits into at least two pieces. */
  lemma BearerHeaderHasToken(header: string)
    requires StartsWith(header, BearerPrefix)
    ensures |Split(header)| >= 2
  {
    var rest := header[|BearerPrefix|..];
    assert header == BearerScheme + " " + rest;
    SplitAfterWord(BearerScheme, rest);
  }

  /** `authHeader.split(' ')[1]` for a header that starts with "Bearer ". */
  function BearerToken(header: string): (token: string)
    requires StartsWith(header, BearerPrefix)
    ensures Piece(header, 1) == Some(token)
  {
    BearerHeaderHasToken(header);
    Split(header)[1]
  }

  /** The header carries the Bearer scheme. */
  predicate HasBearer(header: Option<string>) {
    header.Some? && StartsWith(header.value, BearerPrefix)
  }

  /** `verifyToken(requiredRole)`: 401 without a Bearer header or with an expired or
      invalid token, 404 when the payload's `id` names no user, 403 when a role is
      required and the stored user's role differs, 500 on any other error (including
      an `id` Mongoose cannot cast); otherwise `next()` with the payload and the user. */
  function VerifyToken(requiredRole: Option<string>, header: Option<string>,
                       verify: string -> Verified, users: map<Id, User>): (g: Gate)
    // next() is reached exactly when every check passes, and carries the stored user
    ensures g.Next? <==>
      && HasBearer(header)
      && verify(BearerToken(header.value)).Decoded?
      && var c := verify(BearerToken(header.value)).claims;
         c.id.Some? && c.id.value.Oid? && c.id.value.id in users &&
         (Present(requiredRole) ==> users[c.id.value.id].role == requiredRole.value)
    ensures g.Next? ==>
      var c := verify(BearerToken(header.value)).claims;
      g.claims == c && g.details == Some((c.id.value.id, users[c.id.value.id]))
    // the order of the answers: 401 first, then 404, then 403
    ensures g.Answer? && g.response.status == 401 <==>
      !HasBearer(header) || verify(BearerToken(header.value)) in {TokenExpired, TokenInvalid}
    ensures g.Answer? && g.response.status == 404 <==>
      HasBearer(header) && verify(BearerToken(header.value)).Decoded? &&
      var id := verify(BearerToken(header.value)).claims.id;
      id.None? || (id.value.Oid? && id.value.id !in users)
    ensures g.Answer? && g.response.status == 403 <==>
      HasBearer(header) && verify(BearerToken(header.value)).Decoded? &&
      var id := verify(BearerToken(header.value)).claims.id;
      id.Some? && id.value.Oid? && id.value.id in users &&
      Present(requiredRole) && users[id.value.id].role != requiredRole.value
    ensures g.Answer? && g.response.status == 500 <==>
      HasBearer(header) &&
      (verify(BearerToken(header.value)) == VerifyError ||
       (verify(BearerToken(header.value)).Decoded? &&
        verify(BearerToken(header.value)).claims.id == Some(Malformed)))
    ensures g.Answer? ==> g.response.status in {401, 403, 404, 500}
  {
    if !HasBearer(header) then
      Answer(Response(401, Message("Unauthorized: No token provided")))
    else
      match verify(BearerToken(header.value))
      case TokenExpired => Answer(Response(401, Message("Unauthorized: Token has expired")))
      case TokenInvalid => Answer(Response(401, Message("Unauthorized: Invalid token")))
      case VerifyError => Answer(Response(500, Message("Server error during authentication")))
      case Decoded(claims) =>
        // User.findById(decoded.id): findById(undefined) finds nothing
        match claims.id
        case None => Answer(Response(404, Message("User not found")))
        case Some(Malformed) => Answer(Response(500, Message("Server error during authentication")))
        case Some(Oid(id)) =>
          if id !in users then
            Answer(Response(404, Message("User not found")))
          else if Present(requiredRole) && users[id].role != requiredRole.value then
            Answer(Response(403, Message("Access denied: " + requiredRole.value + " role required")))
          else
            Next(claims, Some((id, users[id])))
  }

  /** `jwt.verify` with the payload's `role` claim replaced. */
  function WithRoleClaim(verify: string -> Verified, role: Option<string>): string -> Verified {
    (token: string) =>
      match verify(token)
      case Decoded(c) => Decoded(c.(role := role))
      case other => other
  }

  /** verifyToken compares the role of the stored user, never the role claimed in the
      token: changing that claim changes neither the status nor the user let through. */
  lemma TokenRoleIsIgnored(requiredRole: Option<string>, header: Option<string>,
                           verify: string -> Verified, users: map<Id, User>, role: Option<string>)
    ensures var g := VerifyToken(requiredRole, header, verify, users);
            var g' := VerifyToken(requiredRole, header, WithRoleClaim(verify, role), users);
            g.Next? == g'.Next? &&
            (g.Next? ==> g'.details == g.details) &&
            (g.Answer? ==> g'.response == g.response)
  {
  }

  /** Without a required role, every stored user passes: the role check is skipped. */
  lemma NoRequiredRoleAdmitsAnyRole(header: Option<string>, verify: string -> Verified,
                                    users: map<Id, User>, id: Id)
    requires HasBearer(header)
    requires verify(BearerToken(header.value)).Decoded?
    requires verify(BearerToken(header.value)).claims.id == Some(Oid(id))
    requires id in users
    ensures VerifyToken(None, header, verify, users).Next?
  {
  }

  /** `authMiddleware`: the token is the second space-separated piece of the header,
      whatever the first one says; no token, or one `jwt.verify` rejects, answers 401;
      otherwise `next()` with `req.user` set to the decoded payload. */
  function AuthMiddleware(header: Option<string>, verify: string -> Verified): (g: Gate)
    ensures g.Next? <==>
      header.Some? && Present(Piece(header.value, 1)) && verify(Piece(header.value, 1).value).Decoded?
    ensures g.Next? ==> g.claims == verify(Piece(header.value, 1).value).claims && g.details.None?
    ensures g.Answer? ==> g.response.status == 401
  {
    var token := if header.Some? then Piece(header.value, 1) else None;
    if !Present(token) then
      Answer(Response(401, Error("Access denied. No token provided.")))
    else
      match verify(token.value)
      case Decoded(claims) => Next(claims, None)
      case _ => Answer(Response(401, Error("Invalid token.")))
  }

  /** authMiddleware never looks at the scheme word: any word in place of "Bearer"
      gives the same outcome. */
  lemma SchemeIsNotChecked(scheme: string, token: string, verify: string -> Verified)
    requires ' ' !in scheme && ' ' !in token
    ensures AuthMiddleware(Some(scheme + " " + token), verify)
         == AuthMiddleware(Some(BearerScheme + " " + token), verify)
  {
    SecondPiece(scheme, token);
    SecondPiece(BearerScheme, token);
  }

  /** A header that is only "Bearer " passes verifyToken's scheme check but gives
      authMiddleware no token at all. */
  lemma EmptyBearerToken(verify: string -> Verified)
    ensures AuthMiddleware(Some(BearerPrefix), verify).Answer?
    ensures HasBearer(Some(BearerPrefix)) && BearerToken(BearerPrefix) == ""
  {
    assert BearerPrefix == BearerScheme + " " + "";
    SecondPiece(BearerScheme, "");
  }

  /** `verifyToken(role)` admits a Bearer header whose token decodes to a payload
      naming a stored user with that role. */
  lemma GateAdmitsToken(users: map<Id, User>, id: Id, role: string, token: string, verify: string -> Verified)
    requires ' ' !in token
    requires id in users && users[id].role == role
    requires verify(token).Decoded? && verify(token).claims.id == Some(Oid(id))
    ensures VerifyToken(Some(role), Some(BearerPrefix + token), verify, users).Next?
  {
    assert BearerPrefix + token == BearerScheme + " " + token;
    SecondPiece(BearerScheme, token);
    assert BearerToken(BearerPrefix + token) == token;
  }

  /** A Bearer token whose payload has no `id` claim gets 404 from `verifyToken` and
      passes `authMiddleware`. */
  lemma NoIdClaimIsNotFound(requiredRole: Option<string>, token: string, verify: string -> Verified,
                            users: map<Id, User>)
    requires ' ' !in token && token != ""
    requires verify(token).Decoded? && verify(token).claims.id.None?
    ensures var g := VerifyToken(requiredRole, Some(BearerPrefix + token), verify, users);
            g.Answer? && g.response.status == 404
    ensures AuthMiddleware(Some(BearerPrefix + token), verify).Next?
  {
    assert BearerPrefix + token == BearerScheme + " " + token;
    SecondPiece(BearerScheme, token);
    assert BearerToken(BearerPrefix + token) == token;
  }
}
