/**
 * `GET /api/auth/session` (`src/app/api/auth/session/route.ts`): returns the
 * verified claims of the bearer token, or classifies the verification error.
 */
module SessionRoute {
  import opened Wrappers
  import opened Js
  import opened Jwt
  import opened ServerAuth

  datatype SessionResponse =
    | Session(user: Claims)
    | SessionError(status: int, error: string)

  const MissingHeader: string := "Missing or invalid Authorization header"
  const InvalidOrExpired: string := "Invalid or expired token"
  const Expired: string := "Token expired"
  const SessionFailed: string := "An error occurred while retrieving session"

  /**
   * The `catch` block as written: a `JsonWebTokenError` is tested first, then a
   * `TokenExpiredError`, then anything else is a 500.
   */
  function ClassifyError(e: VerifyError): (r: SessionResponse)
    ensures r.SessionError?
    ensures IsJsonWebTokenError(e) ==> r == SessionError(401, InvalidOrExpired)
    ensures !IsJsonWebTokenError(e) ==> r == SessionError(500, SessionFailed)
  {
    if IsJsonWebTokenError(e) then SessionError(401, InvalidOrExpired)
    else if IsTokenExpiredError(e) then SessionError(401, Expired)
    else SessionError(500, SessionFailed)
  }

  /** `GET(request)`, given the `authorization` header and the verifier. */
  function Get(header: Option<string>, verify: string -> VerifyOutcome): (r: SessionResponse)
    ensures BearerToken(header).None? ==> r == SessionError(401, MissingHeader)
    ensures BearerToken(header).Some? && verify(BearerToken(header).value).Verified? ==>
      r == Session(verify(BearerToken(header).value).claims)
    ensures BearerToken(header).Some? && verify(BearerToken(header).value).Rejected? ==>
      r == ClassifyError(verify(BearerToken(header).value).error)
    ensures r.Session? <==> VerifyAuthToken(header, verify).Some?
    ensures r.Session? ==> r.user == VerifyAuthToken(header, verify).value
  {
    match BearerToken(header)
    case None => SessionError(401, MissingHeader)
    case Some(token) =>
      match verify(token)
      case Verified(claims) => Session(claims)
      case Rejected(e) => ClassifyError(e)
  }

  /**
   * The "Token expired" response is never produced: `TokenExpiredError` is a
   * subclass of `JsonWebTokenError`, so an expired token takes the first branch
   * and is reported as "Invalid or expired token".
   */
  lemma {:induction false} TokenExpiredBranchUnreachable(header: Option<string>, verify: string -> VerifyOutcome)
    ensures Get(header, verify) != SessionError(401, Expired)
    ensures forall at :: ClassifyError(TokenExpiredError(at)) == SessionError(401, InvalidOrExpired)
  {
    match BearerToken(header)
    case None =>
    case Some(token) =>
      match verify(token)
      case Verified(_) =>
      case Rejected(e) =>
        assert IsTokenExpiredError(e) ==> IsJsonWebTokenError(e);
  }
}
