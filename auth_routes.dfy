/**
 * The routes of the authentication slice. `/register` and `/login` are
 * public. `/profile`, `/logout` and `/refresh` first run `authenticateToken`,
 * and their handler runs only when the gate calls the next handler. The
 * handlers read the identity the gate recorded on the request.
 */
module AuthRoutes {
  import opened Wrappers
  import opened Tokens
  import opened AuthMiddleware
  import opened AuthController

  /** The answer when the gate rejects the request. */
  function Rejected(d: Decision): (r: Response)
    requires d.Reject?
    ensures r.Failure? && r.Status() == d.status && r.Message() == d.message
  {
    Failure(d.status, d.message)
  }

  /** `GET /profile`: the gate, then `profile` with the token's user id. */
  function ProfileRoute(users: map<string, User>, header: Option<string>, verify: string -> VerifyOutcome): (r: Response)
    ensures Gate(header, verify).Reject? ==> r == Rejected(Gate(header, verify))
    ensures Gate(header, verify).Admit? ==> r == ProfileResponse(users, Some(Gate(header, verify).claims.userId))
  {
    match Gate(header, verify)
    case Reject(_, _) => Rejected(Gate(header, verify))
    case Admit(claims) => ProfileResponse(users, Some(claims.userId))
  }

  /** `POST /logout`: the gate, then `logout`. */
  function LogoutRoute(header: Option<string>, verify: string -> VerifyOutcome): (r: Response)
    ensures r == LoggedOut <==> Gate(header, verify).Admit?
    ensures r != LoggedOut ==> r == Rejected(Gate(header, verify))
  {
    match Gate(header, verify)
    case Reject(_, _) => Rejected(Gate(header, verify))
    case Admit(_) => LoggedOut
  }

  /** `POST /refresh`: the gate, then `refresh` with the token's user id and e-mail. */
  function RefreshRoute(users: map<string, User>, header: Option<string>, verify: string -> VerifyOutcome, now: int): (r: Response)
    ensures Gate(header, verify).Reject? ==> r == Rejected(Gate(header, verify))
    ensures Gate(header, verify).Admit? ==>
      var claims := Gate(header, verify).claims;
      r == RefreshResponse(users, Some(claims.userId), Some(claims.email), now)
  {
    match Gate(header, verify)
    case Reject(_, _) => Rejected(Gate(header, verify))
    case Admit(claims) => RefreshResponse(users, Some(claims.userId), Some(claims.email), now)
  }

  /** Without a bearer token, no private route reaches its handler: each answers 401. */
  lemma PrivateRoutesNeedToken(users: map<string, User>, header: Option<string>, verify: string -> VerifyOutcome, now: int)
    requires BearerToken(header).None? || BearerToken(header) == Some("")
    ensures ProfileRoute(users, header, verify) == Failure(401, TokenRequired)
    ensures LogoutRoute(header, verify) == Failure(401, TokenRequired)
    ensures RefreshRoute(users, header, verify, now) == Failure(401, TokenRequired)
  {
  }

  /**
   * A token that still verifies is not enough once the account is deleted:
   * the profile answers "Account has been deactivated" and refresh issues no
   * new token.
   */
  lemma {:induction false} DeletedAccountIsLockedOut(
    users: map<string, User>, header: Option<string>, verify: string -> VerifyOutcome, now: int, id: string, email: string)
    requires BearerToken(header).Some? && BearerToken(header).value != ""
    requires verify(BearerToken(header).value) == Verified(Claims(id, email))
    requires id != "" && email != ""
    requires id in users && IsDeleted(users[id])
    ensures ProfileRoute(users, header, verify) == Failure(401, AccountDeactivated)
    ensures RefreshRoute(users, header, verify, now) == Failure(401, AccountInactive)
  {
  }

  /**
   * After a successful login, a refresh carrying the login token's claims,
   * made while the account is neither deleted nor banned, issues a token for
   * the same user and the same e-mail, only later.
   */
  lemma {:induction false} LoginTokenRefreshes(
    users: map<string, User>, id: string, signInTime: int, header: Option<string>,
    verify: string -> VerifyOutcome, later: int)
    requires id in users && id != "" && users[id].email != ""
    requires var t := LoggedInResponse(id, users[id], signInTime).token;
      BearerToken(header).Some? && BearerToken(header).value != "" && verify(BearerToken(header).value) == Verified(t.claims)
    requires var after := users[id := SignedIn(users[id], signInTime)];
      !IsDeleted(after[id]) && !IsBanned(after[id], later)
    ensures var after := users[id := SignedIn(users[id], signInTime)];
      RefreshRoute(after, header, verify, later) == Refreshed(Sign(LoggedInResponse(id, users[id], signInTime).token.claims, later))
  {
  }

  /** `GET /profile` as it runs: the middleware writes the identity on the request, then the handler reads it. */
  method Profile(table: UserTable, req: AuthenticatedRequest, verify: string -> VerifyOutcome) returns (resp: Response)
    modifies req
    ensures resp == ProfileRoute(table.users, req.authorization, verify)
    ensures Gate(req.authorization, verify).Admit? ==>
      var claims := Gate(req.authorization, verify).claims;
      req.userId == Some(claims.userId) && req.userEmail == Some(claims.email)
    ensures Gate(req.authorization, verify).Reject? ==>
      req.userId == old(req.userId) && req.userEmail == old(req.userEmail)
  {
    var outcome := AuthenticateToken(req, verify);
    if outcome.Respond? {
      return Failure(outcome.status, outcome.message);
    }
    resp := table.Profile(req.userId);
  }

  /** `POST /logout` as it runs. */
  method Logout(table: UserTable, req: AuthenticatedRequest, verify: string -> VerifyOutcome) returns (resp: Response)
    modifies req
    ensures resp == LogoutRoute(req.authorization, verify)
    ensures Gate(req.authorization, verify).Admit? ==>
      var claims := Gate(req.authorization, verify).claims;
      req.userId == Some(claims.userId) && req.userEmail == Some(claims.email)
    ensures Gate(req.authorization, verify).Reject? ==>
      req.userId == old(req.userId) && req.userEmail == old(req.userEmail)
  {
    var outcome := AuthenticateToken(req, verify);
    if outcome.Respond? {
      return Failure(outcome.status, outcome.message);
    }
    resp := table.Logout();
  }

  /** `POST /refresh` as it runs. */
  method Refresh(table: UserTable, req: AuthenticatedRequest, verify: string -> VerifyOutcome, now: int) returns (resp: Response)
    modifies req
    ensures resp == RefreshRoute(table.users, req.authorization, verify, now)
    ensures Gate(req.authorization, verify).Admit? ==>
      var claims := Gate(req.authorization, verify).claims;
      req.userId == Some(claims.userId) && req.userEmail == Some(claims.email)
    ensures Gate(req.authorization, verify).Reject? ==>
      req.userId == old(req.userId) && req.userEmail == old(req.userEmail)
  {
    var outcome := AuthenticateToken(req, verify);
    if outcome.Respond? {
      return Failure(outcome.status, outcome.message);
    }
    resp := table.Refresh(req.userId, req.userEmail, now);
  }
}
