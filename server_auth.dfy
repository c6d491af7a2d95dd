/**
 * `src/lib/serverAuth.ts`: reading the caller's identity off a request's
 * `Authorization` header. A bearer token (section 2.1 of RFC 6750, with the scheme
 * matched case-sensitively) is verified with `verify`, standing for
 * `jwt.verify(token, NEXTAUTH_SECRET)`, and its `id` claim parsed as an integer.
 */
module ServerAuth {
  import opened Wrappers
  import opened Js
  import opened Jwt

  const BearerPrefix: string := "Bearer "

  /**
   * The token of an `Authorization: Bearer <token>` header: the header without its
   * first seven characters. `None` when the header is absent, empty or lacks the prefix.
   */
  function BearerToken(header: Option<string>): (token: Option<string>)
    ensures token.Some? <==> header.Some? && StartsWith(header.value, BearerPrefix)
    ensures token.Some? ==> header.value == BearerPrefix + token.value
  {
    if !Truthy(header) || !StartsWith(header.value, BearerPrefix) then None
    else
      assert header.value == header.value[..7] + header.value[7..];
      Some(header.value[7..])
  }

  /** Prefixing a token with the scheme and reading it back gives the token. */
  lemma BearerTokenOfHeader(token: string)
    ensures BearerToken(Some(BearerPrefix + token)) == Some(token)
  {
    assert (BearerPrefix + token)[..7] == BearerPrefix;
    assert (BearerPrefix + token)[7..] == token;
  }

  /**
   * `verifyAuthToken(request)`: the verified claims, or `None` when the header is
   * unusable or verification throws anything at all. `verify` sees only the token.
   */
  function VerifyAuthToken(header: Option<string>, verify: string -> VerifyOutcome): (r: Option<Claims>)
    ensures BearerToken(header).None? ==> r.None?
    ensures BearerToken(header).Some? ==>
      match verify(BearerToken(header).value)
      case Verified(claims) => r == Some(claims)
      case Rejected(_) => r.None?
  {
    match BearerToken(header)
    case None => None
    case Some(token) =>
      match verify(token)
      case Verified(claims) => Some(claims)
      case Rejected(_) => None
  }

  /** `getUserIdFromRequest(request)`: `parseInt` of the `id` claim, `NaN` when it has no digits. */
  function GetUserIdFromRequest(header: Option<string>, verify: string -> VerifyOutcome): (r: Option<JsNumber>)
    ensures r.None? <==> VerifyAuthToken(header, verify).None?
    ensures r.Some? ==> r.value == ParseInt(VerifyAuthToken(header, verify).value.id)
  {
    match VerifyAuthToken(header, verify)
    case None => None
    case Some(payload) => Some(ParseInt(payload.id))
  }

  /**
   * The routes' `if (!userId)` test: the caller is authenticated only for a truthy
   * number, so an `id` claim without digits (`NaN`) and the id `0` both count as
   * unauthenticated.
   */
  predicate Authenticated(userId: Option<JsNumber>) {
    userId.Some? && NumberTruthy(userId.value)
  }

  /**
   * A token whose `id` claim is `n.toString()`, as the login route signs it,
   * identifies the caller as `n`; the caller is authenticated unless `n` is 0.
   */
  lemma UserIdRoundTrip(header: Option<string>, verify: string -> VerifyOutcome, n: int, email: string, name: string, nowMs: int)
    requires BearerToken(header).Some?
    requires verify(BearerToken(header).value) == Verified(SignedClaims(IntToString(n), email, name, nowMs))
    ensures GetUserIdFromRequest(header, verify) == Some(Int(n))
    ensures Authenticated(GetUserIdFromRequest(header, verify)) <==> n != 0
  {
    ParseIntOfIntToString(n);
  }

  /** A header that is not a bearer header never authenticates, whatever the verifier. */
  lemma NoBearerNoCaller(header: Option<string>, verify: string -> VerifyOutcome)
    requires header.None? || !StartsWith(header.value, BearerPrefix)
    ensures !Authenticated(GetUserIdFromRequest(header, verify))
  {
  }
}
