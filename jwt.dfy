/**
 * JSON Web Tokens as the portal uses them (RFC 7519): the claims the login route
 * signs, and the outcome of verifying a token with the `jsonwebtoken` library,
 * whose error classes form a small hierarchy. Signature checking itself is a
 * parameter of the routes (`verify`), not modelled here.
 */
module Jwt {
  import opened Wrappers

  /**
   * The payload of a portal token. `iat` and `exp` are NumericDates: seconds since
   * the epoch (sections 2 and 4.1.4 of RFC 7519). A payload decoded on the client
   * may lack `exp`, hence the option.
   */
  datatype Claims = Claims(id: string, email: string, name: string, iat: int, exp: Option<int>)

  /**
   * What `jwt.verify` throws. `TokenExpiredError` and `NotBeforeError` are
   * subclasses of `JsonWebTokenError`; `OtherError` is any other exception.
   */
  datatype VerifyError =
    | JsonWebTokenError(message: string)
    | TokenExpiredError(expiredAt: int)
    | NotBeforeError(date: int)
    | OtherError(message: string)

  /** `error instanceof jwt.JsonWebTokenError`: true for the class and both subclasses. */
  predicate IsJsonWebTokenError(e: VerifyError) {
    e.JsonWebTokenError? || e.TokenExpiredError? || e.NotBeforeError?
  }

  /** `error instanceof jwt.TokenExpiredError`. */
  predicate IsTokenExpiredError(e: VerifyError) {
    e.TokenExpiredError?
  }

  /** `jwt.verify(token, secret)`: the decoded claims, or the error it throws. */
  datatype VerifyOutcome = Verified(claims: Claims) | Rejected(error: VerifyError)

  /** The `expiresIn: "24h"` lifetime, in seconds. */
  const TokenLifetime: int := 24 * 60 * 60

  /**
   * The claims `jwt.sign({ id, email, name }, secret, { expiresIn: "24h" })` writes
   * at clock `nowMs` (milliseconds): `iat` is the current second, `exp` a day later.
   */
  function SignedClaims(id: string, email: string, name: string, nowMs: int): (c: Claims)
    ensures c.id == id && c.email == email && c.name == name
    ensures c.iat * 1000 <= nowMs < c.iat * 1000 + 1000
    ensures c.exp == Some(c.iat + 86400)
  {
    var iat := nowMs / 1000;
    Claims(id, email, name, iat, Some(iat + TokenLifetime))
  }
}
