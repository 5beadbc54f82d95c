/** The libraries the handlers call for credentials, kept opaque: bcrypt's `hash` and
    `compare`, and jsonwebtoken's `sign` and `verify`. Each becomes a function
    parameter of the operations that use it; no cryptography is modelled. */
module Crypto {
  import opened Base

  /** bcrypt: `hash(password)` and `compare(candidate, storedHash)`. */
  datatype Passwords = Passwords(hash: string -> string, compare: (string, string) -> bool)

  /** The claims of a JWT payload that some handler writes or reads. */
  datatype Claims = Claims(id: Option<Ref>, userId: Option<Ref>, email: Option<string>, role: Option<string>)

  /** What `jwt.sign` is asked to sign: a payload and an `expiresIn` setting. */
  datatype TokenRequest = TokenRequest(claims: Claims, expiresIn: string)

  /** What `jwt.verify` yields: the decoded payload, or the error it throws
      (`TokenExpiredError`, `JsonWebTokenError`, or any other error). */
  datatype Verified = Decoded(claims: Claims) | TokenExpired | TokenInvalid | VerifyError
}
