/**
 * JSON Web Tokens (RFC 7519) as the authentication slice issues and checks
 * them. Signing and verification are library code: the model keeps what a
 * token carries and the outcomes of verification, not the cryptography.
 */
module Tokens {

  /** The payload the slice signs: the user's id and e-mail. */
  datatype Claims = Claims(userId: string, email: string)

  const Issuer := "your-app-name"
  const Audience := "your-app-users"
  /** `expiresIn: "7d"`, in seconds. */
  const LifetimeSeconds := 7 * 24 * 60 * 60

  /**
   * A signed token. The signature and the compact encoding are not modelled;
   * the claims, the registered `iat`/`exp` times (in seconds) and the fixed
   * issuer and audience are.
   */
  datatype Token = Token(claims: Claims, issuedAt: int, expiresAt: int, issuer: string, audience: string)

  /**
   * `jwt.sign(claims, secret, { expiresIn: "7d", issuer, audience })` at the
   * instant `nowMs` (milliseconds): `iat` is the current time in whole seconds.
   */
  function Sign(claims: Claims, nowMs: int): (t: Token)
    ensures t.claims == claims && t.issuer == Issuer && t.audience == Audience
    ensures t.issuedAt * 1000 <= nowMs < t.issuedAt * 1000 + 1000
    ensures t.expiresAt - t.issuedAt == 604800
  {
    var iat := nowMs / 1000;
    Token(claims, iat, iat + LifetimeSeconds, Issuer, Audience)
  }

  /**
   * What `jwt.verify(token, secret)` can do: return the decoded claims, or
   * throw `TokenExpiredError`, another `JsonWebTokenError` (a malformed token,
   * a bad signature, a token not yet valid), or some other error.
   */
  datatype VerifyOutcome = Verified(claims: Claims) | Expired | Malformed | OtherError
}
