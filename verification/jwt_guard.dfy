/**
 * `JwtAuthGuard`: a request passes when its bearer token verifies, and the
 * decoded payload becomes `req.user`. The guard and its passport strategy
 * are not part of this model beyond that; both a missing and a bad token
 * end in one 401.
 */
module JwtGuard {
  import opened Wrappers
  import opened Errors
  import opened AuthService

  /** The guard on a request whose `Authorization: Bearer` token is `bearer`, if any. */
  function Authenticate(s: Signer, bearer: Option<string>): (r: Result<Claims, Error>)
    ensures r.Success? <==> bearer.Some? && s.verify(bearer.value).Some?
    ensures r.Success? ==> Some(r.value) == s.verify(bearer.value)
    ensures r.Failure? ==> r.error == Unauthenticated && Status(r.error) == 401
  {
    if bearer.None? then Failure(Unauthenticated)
    else
      match s.verify(bearer.value)
      case None => Failure(Unauthenticated)
      case Some(c) => Success(c)
  }

  /** A token the service issued gets through the guard carrying its user's payload. */
  lemma IssuedTokenPasses(s: Signer, u: User, now: int)
    requires SignerSound(s)
    ensures Authenticate(s, Some(GenerateToken(s, u, now))) == Success(Payload(u))
  {
  }
}
