/**
 * `authenticateToken`, the gate in front of the private routes: it takes the
 * bearer token from the `Authorization` header, has it verified, and either
 * records the caller's identity on the request and passes it on, or answers
 * with 401 or 403 itself.
 */
module AuthMiddleware {
  import opened Wrappers
  import opened JsString
  import opened Tokens

  const TokenRequired := "Access token is required"
  const TokenExpired := "Token has expired"
  const TokenInvalid := "Invalid token"
  const VerificationFailed := "Token verification failed"

  /**
   * `authHeader && authHeader.split(" ")[1]`: the second space-separated
   * word of the header, or nothing when the header is absent or empty or has
   * no space. The first word is never looked at, so it need not be "Bearer".
   */
  function BearerToken(header: Option<string>): (token: Option<string>)
    ensures token.Some? ==> header.Some? && ' ' in header.value && ' ' !in token.value
    ensures header.Some? && header.value != "" && ' ' in header.value ==> token.Some?
  {
    if !Truthy(header) then None
    else
      var words := Split(header.value, ' ');
      JoinSplit(header.value, ' ');
      if |words| < 2 then
        assert header.value == words[0];
        None
      else Some(words[1])
  }

  /** `Split` of a word followed by a space. */
  lemma {:induction false} SplitAfterWord(word: string, rest: string)
    requires ' ' !in word
    ensures Split(word + " " + rest, ' ') == [word] + Split(rest, ' ')
  {
    SplitFreePrefix(word, " " + rest, ' ');
    assert (" " + rest)[1..] == rest;
    assert Split(" " + rest, ' ') == [""] + Split(rest, ' ');
    assert word + "" == word;
    assert word + " " + rest == word + (" " + rest);
  }

  /** A header `<scheme> <token>`, optionally followed by a space and anything, yields `<token>`. */
  lemma {:induction false} BearerTokenOfHeader(scheme: string, token: string, rest: string)
    requires ' ' !in scheme && ' ' !in token
    requires rest == [] || rest[0] == ' '
    ensures BearerToken(Some(scheme + " " + token + rest)) == Some(token)
  {
    var h := scheme + " " + token + rest;
    assert h == scheme + " " + (token + rest);
    SplitAfterWord(scheme, token + rest);
    SplitFreePrefix(token, rest, ' ');
    if rest == [] {
      assert Split(rest, ' ')[0] == "";
    } else {
      assert rest == " " + rest[1..];
      SplitAfterWord("", rest[1..]);
      assert "" + " " + rest[1..] == rest;
    }
    assert token + Split(rest, ' ')[0] == token;
  }

  /** Conversely, the token is the word right after the first space, ended by a space or by the end of the header. */
  lemma {:induction false} BearerTokenIsSecondWord(h: string, token: string)
    requires BearerToken(Some(h)) == Some(token)
    ensures var n := |Split(h, ' ')[0]|;
      && n + 1 + |token| <= |h|
      && ' ' !in h[..n] && h[n] == ' '
      && h[n + 1..n + 1 + |token|] == token
      && (n + 1 + |token| == |h| || h[n + 1 + |token|] == ' ')
  {
    var words := Split(h, ' ');
    JoinSplit(h, ' ');
    var tail := Join(words[1..], ' ');
    assert h == words[0] + [' '] + tail;
    var n := |words[0]|;
    assert h[..n] == words[0];
    assert h[n + 1..] == tail;
    if |words| == 2 {
      assert tail == token;
    } else {
      assert tail == token + [' '] + Join(words[2..], ' ');
      assert h[n + 1 + |token|] == tail[|token|];
    }
    assert h[n + 1..n + 1 + |token|] == tail[..|token|];
  }

  /** The gate's decision: let the request through with the token's claims, or answer it. */
  datatype Decision = Admit(claims: Claims) | Reject(status: int, message: string)

  /** `auth.middleware.ts` lines 22-57, with `jwt.verify` given as `verify`. */
  function Gate(header: Option<string>, verify: string -> VerifyOutcome): (d: Decision)
    ensures !Truthy(BearerToken(header)) ==> d == Reject(401, TokenRequired)
    ensures d.Admit? <==> Truthy(BearerToken(header)) && verify(BearerToken(header).value).Verified?
    ensures d.Admit? ==> d.claims == verify(BearerToken(header).value).claims
    // an expired token is told apart from a bad one: 401 invites a refresh, 403 does not
    ensures d.Reject? && d.status == 401 <==>
      !Truthy(BearerToken(header)) || verify(BearerToken(header).value).Expired?
    ensures d.Reject? ==> d.status == 401 || d.status == 403
    // each verification failure has its own message
    ensures Truthy(BearerToken(header)) && verify(BearerToken(header).value).Expired? ==> d == Reject(401, TokenExpired)
    ensures Truthy(BearerToken(header)) && verify(BearerToken(header).value).Malformed? ==> d == Reject(403, TokenInvalid)
    ensures Truthy(BearerToken(header)) && verify(BearerToken(header).value).OtherError? ==> d == Reject(403, VerificationFailed)
  {
    var token := BearerToken(header);
    if !Truthy(token) then Reject(401, TokenRequired)
    else
      match verify(token.value)
      case Verified(claims) => Admit(claims)
      case Expired => Reject(401, TokenExpired)
      case Malformed => Reject(403, TokenInvalid)
      case OtherError => Reject(403, VerificationFailed)
  }

  /** The request as the private handlers see it: the header, and the identity the gate records. */
  class AuthenticatedRequest {
    const authorization: Option<string>
    var userId: Option<string>
    var userEmail: Option<string>

    constructor (authorization: Option<string>)
      ensures this.authorization == authorization && userId.None? && userEmail.None?
    {
      this.authorization := authorization;
      userId := None;
      userEmail := None;
    }
  }

  /** What the middleware does with the request: hand it on, or answer it. */
  datatype Outcome = CallNext | Respond(status: int, message: string)

  /**
   * `authenticateToken`: on an admitted token, records its user id and
   * e-mail on the request and calls the next handler; otherwise answers and
   * leaves the request untouched.
   */
  method AuthenticateToken(req: AuthenticatedRequest, verify: string -> VerifyOutcome) returns (outcome: Outcome)
    modifies req
    ensures Gate(req.authorization, verify).Admit? ==>
      var claims := Gate(req.authorization, verify).claims;
      && outcome == CallNext
      && req.userId == Some(claims.userId) && req.userEmail == Some(claims.email)
    ensures Gate(req.authorization, verify).Reject? ==>
      var d := Gate(req.authorization, verify);
      && outcome == Respond(d.status, d.message)
      && req.userId == old(req.userId) && req.userEmail == old(req.userEmail)
  {
    match Gate(req.authorization, verify)
    case Admit(claims) =>
      req.userId := Some(claims.userId);
      req.userEmail := Some(claims.email);
      outcome := CallNext;
    case Reject(status, message) =>
      outcome := Respond(status, message);
  }
}
