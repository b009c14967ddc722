/**
 * The authentication controller: register, login, profile, logout and
 * refresh. Each handler runs a fixed ladder of checks, and each check can stop
 * the request with its own status and message. The ladders are pure
 * functions. The `users` table is a map from id to row, owned by `UserTable`,
 * whose `Register` and `Login` are the only operations that write it.
 */
module AuthController {
  import opened Wrappers
  import opened JsString
  import opened Validation
  import opened Tokens

  /** A row of the `users` table, restricted to the columns the slice reads or writes. Times are milliseconds. */
  datatype User = User(
    email: string,
    encryptedPassword: Option<string>,
    name: Option<string>,             // `raw_user_meta_data.name`
    phone: Option<string>,
    emailConfirmedAt: Option<int>,
    phoneConfirmedAt: Option<int>,
    createdAt: Option<int>,
    updatedAt: Option<int>,
    lastSignInAt: Option<int>,
    deletedAt: Option<int>,
    bannedUntil: Option<int>)

  predicate HasPasswordHash(u: User) { Truthy(u.encryptedPassword) }

  /** A soft-deleted account: any `deleted_at` timestamp counts. */
  predicate IsDeleted(u: User) { u.deletedAt.Some? }

  /** A ban is in force while `banned_until` lies strictly after `now`. */
  predicate IsBanned(u: User, now: int) { u.bannedUntil.Some? && u.bannedUntil.value > now }

  /** Request bodies: each field is absent or a string. */
  datatype RegisterRequest = RegisterRequest(email: Option<string>, password: Option<string>, name: Option<string>)
  datatype LoginRequest = LoginRequest(email: Option<string>, password: Option<string>)

  /** The `user` object of the register and login responses. */
  datatype UserSummary = UserSummary(id: string, email: string, name: Option<string>)

  /** The `user` object of the profile response. */
  datatype ProfileView = ProfileView(
    id: string, email: string, name: Option<string>, phone: Option<string>,
    emailVerified: bool, phoneVerified: bool, createdAt: Option<int>, lastSignInAt: Option<int>)

  /** The JSON responses of the five handlers; every failure carries `success: false` and a message. */
  datatype Response =
    | Failure(status: int, message: string)
    | Registered(token: Token, user: UserSummary)
    | LoggedIn(token: Token, user: UserSummary)
    | ProfileFound(profile: ProfileView)
    | LoggedOut
    | Refreshed(token: Token)
  {
    function Status(): int {
      match this
      case Failure(status, _) => status
      case Registered(_, _) => 201
      case _ => 200
    }

    function Message(): string {
      match this
      case Failure(_, message) => message
      case Registered(_, _) => "User registered successfully"
      case LoggedIn(_, _) => "Login successful"
      case ProfileFound(_) => "Profile retrieved successfully"
      case LoggedOut => "Logout successful"
      case Refreshed(_) => "Token refreshed successfully"
    }
  }

  const RegisterFieldsRequired := "Email, password, and name are required"
  const LoginFieldsRequired := "Email and password are required"
  const InvalidEmailAddress := "Please provide a valid email address"
  const InvalidName := "Name must be between 2 and 50 characters"
  const EmailAlreadyRegistered := "User with this email already exists"
  const InvalidCredentials := "Invalid email or password"
  const AccountDeactivated := "Account has been deactivated"
  const AccountSuspended := "Account is temporarily suspended"
  const UserIdMissing := "User ID not found in token"
  const UserNotFound := "User not found"
  const InvalidTokenData := "Invalid token data"
  const AccountInactive := "User account is no longer active"

  /** The library calls whose code is not part of this model: `validator.isEmail` and `bcrypt.compare`. */
  datatype Library = Library(isEmail: string -> bool, passwordMatches: (string, string) -> bool)

  // ---------------------------------------------------------------- the table

  predicate EmailTaken(users: map<string, User>, email: string) {
    exists id :: id in users && users[id].email == email
  }

  /** Stored e-mails are lower-case and no two users share one. */
  predicate EmailsNormalized(users: map<string, User>) {
    && (forall id :: id in users ==> IsLowerCase(users[id].email))
    && (forall a, b :: a in users && b in users && users[a].email == users[b].email ==> a == b)
  }

  /**
   * What `prisma.users.findFirst({ where: { email } })` may return: nothing
   * when no row has that e-mail, otherwise some row that has it (no order is
   * given, so which one is left open).
   */
  predicate FindFirst(users: map<string, User>, email: string, found: Option<(string, User)>) {
    match found
    case None => !EmailTaken(users, email)
    case Some(row) => row.0 in users && users[row.0] == row.1 && row.1.email == email
  }

  /** When e-mails are distinct, `findFirst` by e-mail has exactly one possible answer. */
  lemma {:induction false} FindFirstIsDetermined(users: map<string, User>, email: string, f: Option<(string, User)>, g: Option<(string, User)>)
    requires EmailsNormalized(users)
    requires FindFirst(users, email, f) && FindFirst(users, email, g)
    ensures f == g
  {
  }

  // ----------------------------------------------------------------- register

  /** The validated fields of a registration. */
  datatype NewAccount = NewAccount(email: string, password: string, name: string)

  /** `auth.controller.ts` lines 38-72: presence, e-mail syntax, password policy, name length, in that order. */
  function RegisterInput(req: RegisterRequest, isEmail: string -> bool): (r: Result<NewAccount, Response>)
    ensures !(Truthy(req.email) && Truthy(req.password) && Truthy(req.name)) ==>
      r == Err(Failure(400, RegisterFieldsRequired))
    ensures Truthy(req.email) && Truthy(req.password) && Truthy(req.name) && !isEmail(req.email.value) ==>
      r == Err(Failure(400, InvalidEmailAddress))
    ensures (Truthy(req.email) && Truthy(req.password) && Truthy(req.name) && isEmail(req.email.value)
             && !ValidatePassword(req.password.value).isValid) ==>
      r == Err(Failure(400, ValidatePassword(req.password.value).message.value))
    ensures (Truthy(req.email) && Truthy(req.password) && Truthy(req.name) && isEmail(req.email.value)
             && ValidatePassword(req.password.value).isValid && !ValidateName(req.name.value)) ==>
      r == Err(Failure(400, InvalidName))
    ensures r.Ok? <==>
      Truthy(req.email) && Truthy(req.password) && Truthy(req.name) && isEmail(req.email.value)
      && StrongPassword(req.password.value) && ValidateName(req.name.value)
    ensures r.Ok? ==> r.value == NewAccount(req.email.value, req.password.value, req.name.value)
    ensures r.Err? ==> r.error.Failure? && r.error.status == 400
  {
    if !(Truthy(req.email) && Truthy(req.password) && Truthy(req.name)) then
      Err(Failure(400, RegisterFieldsRequired))
    else if !isEmail(req.email.value) then
      Err(Failure(400, InvalidEmailAddress))
    else
      var verdict := ValidatePassword(req.password.value);
      if !verdict.isValid then Err(Failure(400, verdict.message.value))
      else if !ValidateName(req.name.value) then Err(Failure(400, InvalidName))
      else Ok(NewAccount(req.email.value, req.password.value, req.name.value))
  }

  /** `auth.controller.ts` lines 38-85: the input checks, then the duplicate check on the lower-cased e-mail. */
  function RegisterDecision(users: map<string, User>, req: RegisterRequest, isEmail: string -> bool): (r: Result<NewAccount, Response>)
    ensures RegisterInput(req, isEmail).Err? ==> r == RegisterInput(req, isEmail)
    ensures r.Ok? <==> RegisterInput(req, isEmail).Ok? && !EmailTaken(users, Lower(req.email.value))
    ensures r == Err(Failure(409, EmailAlreadyRegistered)) <==>
      RegisterInput(req, isEmail).Ok? && EmailTaken(users, Lower(req.email.value))
  {
    match RegisterInput(req, isEmail)
    case Err(failure) => Err(failure)
    case Ok(account) =>
      if EmailTaken(users, Lower(account.email)) then Err(Failure(409, EmailAlreadyRegistered))
      else Ok(account)
  }

  /** `auth.controller.ts` lines 94-106: the row a successful registration inserts (columns it does not set stay empty). */
  function NewUser(account: NewAccount, hashed: string, now: int): User {
    User(Lower(account.email), Some(hashed), Some(Trim(account.name)), None,
         Some(now), None, Some(now), Some(now), None, None, None)
  }

  /** `auth.controller.ts` lines 108-128: the token and user object of the 201 response. */
  function RegisteredResponse(id: string, account: NewAccount, hashed: string, now: int): (r: Response)
    requires ValidateName(account.name)
    ensures r.Status() == 201
    ensures r.Registered? && r.token.claims == Claims(id, Lower(account.email))
    ensures r.token == Sign(Claims(id, Lower(account.email)), now)
    ensures r.user == UserSummary(id, Lower(account.email), Some(Trim(account.name)))
  {
    var user := NewUser(account, hashed, now);
    var shownName := if Truthy(user.name) then user.name.value else account.name;
    Registered(Sign(Claims(id, user.email), now), UserSummary(id, user.email, Some(shownName)))
  }

  /** A successful registration keeps stored e-mails lower-case and distinct. */
  lemma {:induction false} RegisterKeepsEmailsNormalized(
    users: map<string, User>, req: RegisterRequest, isEmail: string -> bool, id: string, hashed: string, now: int)
    requires EmailsNormalized(users) && id !in users
    requires RegisterDecision(users, req, isEmail).Ok?
    ensures EmailsNormalized(users[id := NewUser(RegisterDecision(users, req, isEmail).value, hashed, now)])
  {
  }

  /** Once an e-mail is registered, registering it again in any letter case is refused with 409. */
  lemma {:induction false} RegisterAgainConflicts(
    users: map<string, User>, first: RegisterRequest, second: RegisterRequest, isEmail: string -> bool,
    id: string, hashed: string, now: int)
    requires id !in users && RegisterDecision(users, first, isEmail).Ok?
    requires RegisterInput(second, isEmail).Ok?
    requires Lower(second.email.value) == Lower(first.email.value)
    ensures var after := users[id := NewUser(RegisterDecision(users, first, isEmail).value, hashed, now)];
      RegisterDecision(after, second, isEmail) == Err(Failure(409, EmailAlreadyRegistered))
  {
    var account := RegisterDecision(users, first, isEmail).value;
    var after := users[id := NewUser(account, hashed, now)];
    assert id in after && after[id].email == Lower(second.email.value);
  }

  // -------------------------------------------------------------------- login

  datatype Credentials = Credentials(email: string, password: string)

  /** `auth.controller.ts` lines 153-168: presence, then e-mail syntax. */
  function LoginInput(req: LoginRequest, isEmail: string -> bool): (r: Result<Credentials, Response>)
    ensures !(Truthy(req.email) && Truthy(req.password)) ==> r == Err(Failure(400, LoginFieldsRequired))
    ensures Truthy(req.email) && Truthy(req.password) && !isEmail(req.email.value) ==>
      r == Err(Failure(400, InvalidEmailAddress))
    ensures r.Ok? <==> Truthy(req.email) && Truthy(req.password) && isEmail(req.email.value)
    ensures r.Ok? ==> r.value == Credentials(req.email.value, req.password.value)
  {
    if !(Truthy(req.email) && Truthy(req.password)) then Err(Failure(400, LoginFieldsRequired))
    else if !isEmail(req.email.value) then Err(Failure(400, InvalidEmailAddress))
    else Ok(Credentials(req.email.value, req.password.value))
  }

  /**
   * `auth.controller.ts` lines 176-214: given the row `findFirst` returned, the account checks in
   * order: a usable row, not deleted, not banned, and then the password.
   */
  function SignInDecision(creds: Credentials, found: Option<(string, User)>, now: int,
                          passwordMatches: (string, string) -> bool): (r: Result<(string, User), Response>)
    // enumeration resistance: no row, no hash and a wrong password are told apart by nothing
    ensures found.None? ==> r == Err(Failure(401, InvalidCredentials))
    ensures found.Some? && !HasPasswordHash(found.value.1) ==> r == Err(Failure(401, InvalidCredentials))
    ensures (found.Some? && HasPasswordHash(found.value.1) && !IsDeleted(found.value.1) && !IsBanned(found.value.1, now)
             && !passwordMatches(creds.password, found.value.1.encryptedPassword.value)) ==>
      r == Err(Failure(401, InvalidCredentials))
    // deletion is checked before the ban, and the ban before the password
    ensures found.Some? && HasPasswordHash(found.value.1) && IsDeleted(found.value.1) ==>
      r == Err(Failure(401, AccountDeactivated))
    ensures found.Some? && HasPasswordHash(found.value.1) && !IsDeleted(found.value.1) && IsBanned(found.value.1, now) ==>
      r == Err(Failure(403, AccountSuspended))
    ensures r.Ok? <==>
      found.Some? && HasPasswordHash(found.value.1) && !IsDeleted(found.value.1) && !IsBanned(found.value.1, now)
      && passwordMatches(creds.password, found.value.1.encryptedPassword.value)
    ensures r.Ok? ==> r.value == found.value
  {
    match found
    case None => Err(Failure(401, InvalidCredentials))
    case Some(row) =>
      var user := row.1;
      if !HasPasswordHash(user) then Err(Failure(401, InvalidCredentials))
      else if IsDeleted(user) then Err(Failure(401, AccountDeactivated))
      else if IsBanned(user, now) then Err(Failure(403, AccountSuspended))
      else if !passwordMatches(creds.password, user.encryptedPassword.value) then Err(Failure(401, InvalidCredentials))
      else Ok(row)
  }

  /** `auth.controller.ts` lines 217-223: the only columns a successful login writes. */
  function SignedIn(u: User, now: int): User {
    u.(lastSignInAt := Some(now), updatedAt := Some(now))
  }

  /** `auth.controller.ts` lines 226-245: the token and user object of the 200 response. */
  function LoggedInResponse(id: string, u: User, now: int): (r: Response)
    ensures r.Status() == 200 && r.LoggedIn?
    ensures r.token.claims == Claims(id, u.email)
    ensures r.token == Sign(Claims(id, u.email), now)
    ensures r.user == UserSummary(id, u.email, u.name)
  {
    LoggedIn(Sign(Claims(id, u.email), now), UserSummary(id, u.email, u.name))
  }

  /** The caller of an unknown e-mail and the caller of a wrong password see the same response. */
  lemma LoginHidesWhetherEmailExists(creds: Credentials, row: (string, User), now: int,
                                     passwordMatches: (string, string) -> bool)
    requires HasPasswordHash(row.1) && !IsDeleted(row.1) && !IsBanned(row.1, now)
    requires !passwordMatches(creds.password, row.1.encryptedPassword.value)
    ensures SignInDecision(creds, None, now, passwordMatches) == SignInDecision(creds, Some(row), now, passwordMatches)
  {
  }

  /**
   * The limit of that: a deleted or banned account is disclosed to anyone who
   * knows its e-mail, since its answer differs from the unknown-e-mail answer
   * and does not depend on the password tried.
   */
  lemma LoginDisclosesInactiveAccounts(creds: Credentials, guess: Credentials, row: (string, User), now: int,
                                       passwordMatches: (string, string) -> bool, otherMatches: (string, string) -> bool)
    requires HasPasswordHash(row.1) && (IsDeleted(row.1) || IsBanned(row.1, now))
    ensures SignInDecision(creds, Some(row), now, passwordMatches) != SignInDecision(creds, None, now, passwordMatches)
    ensures SignInDecision(creds, Some(row), now, passwordMatches) == SignInDecision(guess, Some(row), now, otherMatches)
  {
  }

  /** A successful login leaves stored e-mails lower-case and distinct. */
  lemma {:induction false} LoginKeepsEmailsNormalized(users: map<string, User>, id: string, now: int)
    requires EmailsNormalized(users) && id in users
    ensures EmailsNormalized(users[id := SignedIn(users[id], now)])
  {
  }

  /**
   * Registration followed by a login with the same password and any letter
   * case of the same e-mail signs in the new user, provided `bcrypt.compare`
   * accepts the password against the hash `bcrypt.hash` produced for it.
   */
  lemma {:induction false} RegisteredUserCanSignIn(
    users: map<string, User>, req: RegisterRequest, lib: Library, id: string, hashed: string, now: int,
    login: LoginRequest, later: int, found: Option<(string, User)>)
    requires EmailsNormalized(users) && id !in users
    requires RegisterDecision(users, req, lib.isEmail).Ok?
    requires hashed != "" && lib.passwordMatches(req.password.value, hashed)
    requires login.password == req.password && Truthy(login.email) && lib.isEmail(login.email.value)
    requires Lower(login.email.value) == Lower(req.email.value)
    requires FindFirst(users[id := NewUser(RegisterDecision(users, req, lib.isEmail).value, hashed, now)],
                       Lower(login.email.value), found)
    ensures LoginInput(login, lib.isEmail).Ok?
    ensures SignInDecision(LoginInput(login, lib.isEmail).value, found, later, lib.passwordMatches) ==
      Ok((id, NewUser(RegisterDecision(users, req, lib.isEmail).value, hashed, now)))
  {
    var account := RegisterDecision(users, req, lib.isEmail).value;
    var user := NewUser(account, hashed, now);
    var after := users[id := user];
    RegisterKeepsEmailsNormalized(users, req, lib.isEmail, id, hashed, now);
    assert FindFirst(after, Lower(login.email.value), Some((id, user)));
    FindFirstIsDetermined(after, Lower(login.email.value), found, Some((id, user)));
  }

  // ------------------------------------------------------ profile and refresh

  /** `auth.controller.ts` lines 267-326: the profile of the authenticated user; nothing is written. */
  function ProfileResponse(users: map<string, User>, userId: Option<string>): (r: Response)
    ensures !Truthy(userId) ==> r == Failure(401, UserIdMissing)
    ensures Truthy(userId) && userId.value !in users ==> r == Failure(404, UserNotFound)
    ensures Truthy(userId) && userId.value in users && IsDeleted(users[userId.value]) ==>
      r == Failure(401, AccountDeactivated)
    ensures r.ProfileFound? <==> Truthy(userId) && userId.value in users && !IsDeleted(users[userId.value])
    ensures r.ProfileFound? ==>
      var u := users[userId.value];
      && r.profile.id == userId.value && r.profile.email == u.email && r.profile.name == u.name
      && r.profile.phone == u.phone && r.profile.createdAt == u.createdAt && r.profile.lastSignInAt == u.lastSignInAt
      && (r.profile.emailVerified <==> u.emailConfirmedAt.Some?)
      && (r.profile.phoneVerified <==> u.phoneConfirmedAt.Some?)
  {
    if !Truthy(userId) then Failure(401, UserIdMissing)
    else if userId.value !in users then Failure(404, UserNotFound)
    else
      var u := users[userId.value];
      if IsDeleted(u) then Failure(401, AccountDeactivated)
      else ProfileFound(ProfileView(userId.value, u.email, u.name, u.phone,
                                    u.emailConfirmedAt.Some?, u.phoneConfirmedAt.Some?, u.createdAt, u.lastSignInAt))
  }

  /** `auth.controller.ts` lines 367-417: a fresh token for an account that still exists and is active; nothing is written. */
  function RefreshResponse(users: map<string, User>, userId: Option<string>, userEmail: Option<string>, now: int): (r: Response)
    ensures !(Truthy(userId) && Truthy(userEmail)) ==> r == Failure(401, InvalidTokenData)
    ensures r.Refreshed? <==>
      Truthy(userId) && Truthy(userEmail) && userId.value in users
      && !IsDeleted(users[userId.value]) && !IsBanned(users[userId.value], now)
    ensures Truthy(userId) && Truthy(userEmail) && !r.Refreshed? ==> r == Failure(401, AccountInactive)
    // the new token names the stored e-mail, whatever e-mail the old token carried
    ensures r.Refreshed? ==> r.token == Sign(Claims(userId.value, users[userId.value].email), now)
    ensures r.Status() == 200 || r.Status() == 401
  {
    if !(Truthy(userId) && Truthy(userEmail)) then Failure(401, InvalidTokenData)
    else if userId.value !in users || IsDeleted(users[userId.value]) || IsBanned(users[userId.value], now) then
      Failure(401, AccountInactive)
    else Refreshed(Sign(Claims(userId.value, users[userId.value].email), now))
  }

  // ------------------------------------------------------------ the handlers

  /** The `users` table as the handlers see it. */
  class UserTable {
    var users: map<string, User>

    ghost predicate Valid()
      reads this
    {
      EmailsNormalized(users)
    }

    constructor ()
      ensures users == map[] && Valid()
    {
      users := map[];
    }

    /**
     * `register`: on success inserts exactly one row under the fresh `id`
     * (a `uuidv4()` result); `hashed` is the `bcrypt.hash` of the password
     * and `now` the current time. Every failure leaves the table as it was.
     */
    method Register(req: RegisterRequest, isEmail: string -> bool, id: string, hashed: string, now: int)
      returns (resp: Response)
      requires id !in users
      modifies this
      ensures RegisterDecision(old(users), req, isEmail).Err? ==>
        resp == RegisterDecision(old(users), req, isEmail).error && users == old(users)
      ensures RegisterDecision(old(users), req, isEmail).Ok? ==>
        var account := RegisterDecision(old(users), req, isEmail).value;
        && users == old(users)[id := NewUser(account, hashed, now)]
        && resp == RegisteredResponse(id, account, hashed, now)
      ensures old(Valid()) ==> Valid()
    {
      var input := RegisterInput(req, isEmail);
      if input.Err? {
        return input.error;
      }
      var account := input.value;
      var taken := exists other :: other in users && users[other].email == Lower(account.email);
      if taken {
        return Failure(409, EmailAlreadyRegistered);
      }
      ghost var before := users;
      users := users[id := NewUser(account, hashed, now)];
      resp := RegisteredResponse(id, account, hashed, now);
      if EmailsNormalized(before) {
        RegisterKeepsEmailsNormalized(before, req, isEmail, id, hashed, now);
      }
    }

    /**
     * `login`: `found` is the row `findFirst` picked for the lower-cased
     * e-mail. On success only that row's sign-in and update times change;
     * every failure leaves the table as it was.
     */
    method Login(req: LoginRequest, lib: Library, now: int)
      returns (resp: Response, ghost found: Option<(string, User)>)
      modifies this
      ensures LoginInput(req, lib.isEmail).Err? ==>
        resp == LoginInput(req, lib.isEmail).error && users == old(users)
      ensures LoginInput(req, lib.isEmail).Ok? ==>
        var creds := LoginInput(req, lib.isEmail).value;
        var decision := SignInDecision(creds, found, now, lib.passwordMatches);
        && FindFirst(old(users), Lower(creds.email), found)
        && (decision.Err? ==> resp == decision.error && users == old(users))
        && (decision.Ok? ==>
              var id := decision.value.0;
              && users == old(users)[id := SignedIn(old(users)[id], now)]
              && resp == LoggedInResponse(id, old(users)[id], now))
      ensures old(Valid()) ==> Valid()
    {
      found := None;
      var input := LoginInput(req, lib.isEmail);
      if input.Err? {
        return input.error, found;
      }
      var creds := input.value;
      var key := Lower(creds.email);
      var row: Option<(string, User)> := None;
      if exists id :: id in users && users[id].email == key {
        var id :| id in users && users[id].email == key;
        row := Some((id, users[id]));
      }
      found := row;
      var decision := SignInDecision(creds, row, now, lib.passwordMatches);
      if decision.Err? {
        return decision.error, found;
      }
      var id := decision.value.0;
      var user := decision.value.1;
      ghost var before := users;
      users := users[id := SignedIn(user, now)];
      resp := LoggedInResponse(id, user, now);
      if EmailsNormalized(before) {
        LoginKeepsEmailsNormalized(before, id, now);
      }
    }

    /** `profile`: reads the table only. */
    method Profile(userId: Option<string>) returns (resp: Response)
      ensures resp == ProfileResponse(users, userId)
    {
      resp := ProfileResponse(users, userId);
    }

    /** `refresh`: reads the table only. */
    method Refresh(userId: Option<string>, userEmail: Option<string>, now: int) returns (resp: Response)
      ensures resp == RefreshResponse(users, userId, userEmail, now)
    {
      resp := RefreshResponse(users, userId, userEmail, now);
    }

    /** `logout`: tokens are stateless, so there is nothing to revoke; it always succeeds. */
    method Logout() returns (resp: Response)
      ensures resp == LoggedOut && resp.Status() == 200
    {
      resp := LoggedOut;
    }
  }
}
