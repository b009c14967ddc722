# Authentication slice of the Express/Prisma backend, in Dafny

This project models the part of the backend that authenticates users. It has three parts:

- **The input validators** (`src/utils/validation.ts`):
  - the password policy, an ordered ladder of five rules where the first broken rule decides the message;
  - the display-name bound on the trimmed length;
  - the e-mail syntax check, which is library code and is a parameter here.
- **The five handlers of `/api/auth`** (`src/controllers/auth.controller.ts`): `register`, `login`, `profile`, `logout` and `refresh`.
  - Each runs a fixed sequence of checks, and each check can stop the request with its own status and message.
  - The ladders are pure functions over a snapshot of the `users` table.
  - The table is a class, `AuthController.UserTable`, holding a map from user id to row.
  - Its `Register` and `Login` are the only methods that write it. Every other method and every failure path leaves it unchanged.
- **The bearer-token gate `authenticateToken`** (`src/middlewares/auth.middleware.ts`).
  - It takes the second space-separated word of the `Authorization` header and has it verified.
  - On success it records the token's user id and e-mail on the request and calls the next handler.
  - Otherwise it answers 401 or 403 itself.
  - `AuthRoutes` composes it with the three private handlers, as `src/routes/auth.routes.ts` wires them.

Modules:

| file | module | contents |
|---|---|---|
| `wrappers.dfy` | `Wrappers` | `Option`, `Result` |
| `js_string.dfy` | `JsString` | JavaScript truthiness of strings, `trim`, ASCII `toLowerCase`, `split` on one character, with their lemmas |
| `validation.dfy` | `Validation` | `validatePassword`, `validateName` |
| `tokens.dfy` | `Tokens` | the claims of a token, `jwt.sign` with the slice's options, the outcomes of `jwt.verify` |
| `auth_controller.dfy` | `AuthController` | users, requests, responses, the five decision ladders, the `UserTable` class, invariant and scenario lemmas |
| `auth_middleware.dfy` | `AuthMiddleware` | bearer-token extraction, the gate decision, the request object and `AuthenticateToken` |
| `auth_routes.dfy` | `AuthRoutes` | the private routes: the gate followed by the handler |

Code the model cannot see becomes parameters:

- `validator.isEmail` and `bcrypt.compare` are function-valued parameters (`AuthController.Library`).
- `jwt.verify` is a function from the token text to a `Tokens.VerifyOutcome`.
- The result of `bcrypt.hash` is the parameter `hashed`.
- The result of `uuidv4()` is the parameter `id`, with the precondition that it is not yet a key of the table.
- The current time is the parameter `now`, in milliseconds.
- `findFirst` without an ordering is a choice: any row with the e-mail may come back. `AuthController.FindFirst` states what it may return. `UserTable.Login` chooses with `:|` and reports its choice as the ghost result `found`. While the table keeps e-mails distinct, `FindFirstIsDetermined` shows the choice is forced.

## Model

| member | source | states |
|---|---|---|
| Validation.ValidatePassword | src/utils/validation.ts:8-30 | valid exactly when the password has at least 8 characters and an ASCII lower-case letter, an upper-case letter and a digit; a message is present exactly when invalid; the empty password gets "Password is required"; a non-empty password under 8 characters gets the length message whatever it contains |
| Validation.FirstBroken | src/utils/validation.ts:9-27 | the index of the first rule, in checking order, that a password breaks: all earlier rules hold and that one does not |
| Validation.PasswordFirstBrokenRuleDecides | src/utils/validation.ts:9-29 | the verdict is invalid with the message of the first broken rule in the order required, length, lower-case, upper-case, digit, and valid when none is broken |
| Validation.AllLowercaseEightCharsNeedsUppercase | src/utils/validation.ts:21-23 | "abcdefgh" is refused with the upper-case message |
| Validation.ValidateName | src/utils/validation.ts:32-34 | an accepted name has at least 2 characters and is not all whitespace; for a name without surrounding whitespace, accepted exactly when its length is between 2 and 50 |
| Validation.ValidateNameIgnoresPadding | src/utils/validation.ts:33 | adding whitespace before or after a name never changes the verdict |
| JsString.Trim | src/utils/validation.ts:33 | the result has no whitespace at either end and is no longer than the input; it is empty exactly when the input is all whitespace; an input with no surrounding whitespace is returned as it is |
| JsString.TrimIgnoresPadding | src/utils/validation.ts:33 | whitespace added around a string does not change its trimmed form |
| JsString.Lower | src/controllers/auth.controller.ts:76 | same length, no upper-case ASCII letter left, every other character kept; a string that is already lower-case is returned as it is |
| JsString.JoinSplit | src/middlewares/auth.middleware.ts:23 | joining the pieces of a split with the separator gives the header back, and no piece contains the separator |
| Tokens.Sign | src/controllers/auth.controller.ts:109-118 | the token carries the given claims, the fixed issuer and audience, an issue time equal to the current time in whole seconds and an expiry 7 days later |
| AuthController.FindFirstIsDetermined | src/controllers/auth.controller.ts:171-173 | while stored e-mails are distinct, the lookup by e-mail has only one possible answer |
| AuthController.RegisterInput | src/controllers/auth.controller.ts:38-72 | a missing or empty field gives 400 "Email, password, and name are required"; then a rejected e-mail gives 400 "Please provide a valid email address"; then a weak password gives 400 with the policy's message; then a bad name gives 400 "Name must be between 2 and 50 characters"; it passes exactly when all four checks pass, and returns the three fields |
| AuthController.RegisterDecision | src/controllers/auth.controller.ts:74-85 | after the input checks, 409 "User with this email already exists" exactly when some stored user has the lower-cased e-mail; otherwise it passes |
| AuthController.RegisteredResponse | src/controllers/auth.controller.ts:108-133 | status 201; the token is the one signed now for the new id and the lower-cased e-mail, with the 7-day lifetime, issuer and audience; the user object shows the id, the lower-cased e-mail and the trimmed name |
| AuthController.RegisterKeepsEmailsNormalized | src/controllers/auth.controller.ts:75-106 | inserting the new row keeps every stored e-mail lower-case and no two users sharing one |
| AuthController.RegisterAgainConflicts | src/controllers/auth.controller.ts:75-85 | after a registration, a second one with any letter case of the same e-mail is refused with 409 |
| AuthController.UserTable.Register | src/controllers/auth.controller.ts:33-133 | every failure answers as the ladder says and leaves the table unchanged; a success adds exactly the new row under the fresh id and answers 201; the e-mail invariant is kept |
| AuthController.LoginInput | src/controllers/auth.controller.ts:153-168 | a missing or empty field gives 400 "Email and password are required", then a rejected e-mail gives 400 "Please provide a valid email address"; it passes exactly when both checks pass |
| AuthController.SignInDecision | src/controllers/auth.controller.ts:175-214 | no row, a row without a password hash and a wrong password all give the same 401 "Invalid email or password"; a deleted account gives 401 "Account has been deactivated" before the ban is looked at; a ban still in force gives 403 "Account is temporarily suspended" before the password is compared; success exactly when the row is usable, active and the password matches |
| AuthController.LoggedInResponse | src/controllers/auth.controller.ts:225-250 | status 200; the token is the one signed now for the row's id and e-mail, with the 7-day lifetime, issuer and audience; the user object shows the id, the e-mail and the stored name |
| AuthController.LoginHidesWhetherEmailExists | src/controllers/auth.controller.ts:176-214 | for an active account, a wrong password gets exactly the answer an unknown e-mail gets |
| AuthController.LoginDisclosesInactiveAccounts | src/controllers/auth.controller.ts:185-200 | a deleted or banned account answers differently from an unknown e-mail, whatever password is tried |
| AuthController.LoginKeepsEmailsNormalized | src/controllers/auth.controller.ts:217-223 | stamping the sign-in time keeps every stored e-mail lower-case and distinct |
| AuthController.RegisteredUserCanSignIn | src/controllers/auth.controller.ts:75-214 | after a registration, a login with the same password and any letter case of the e-mail signs in exactly the new row, provided the password matches its hash |
| AuthController.UserTable.Login | src/controllers/auth.controller.ts:148-250 | the row consulted is one the lookup by the lower-cased e-mail may return; every failure answers as the ladder says and leaves the table unchanged; a success changes only that row's sign-in and update times and answers 200 with a token for its id and e-mail; the e-mail invariant is kept |
| AuthController.ProfileResponse | src/controllers/auth.controller.ts:267-326 | no user id gives 401 "User ID not found in token", an unknown id gives 404 "User not found", a deleted user gives 401 "Account has been deactivated"; otherwise 200 with the stored columns, and e-mail or phone shown verified exactly when its confirmation time is set |
| AuthController.UserTable.Profile | src/controllers/auth.controller.ts:265-334 | answers as the profile ladder says and writes nothing |
| AuthController.RefreshResponse | src/controllers/auth.controller.ts:367-417 | a missing user id or e-mail gives 401 "Invalid token data"; a new token exactly when the user exists, is not deleted and is not banned at that time, otherwise 401 "User account is no longer active"; the new token carries the stored e-mail; the status is always 200 or 401 |
| AuthController.UserTable.Refresh | src/controllers/auth.controller.ts:365-425 | answers as the refresh ladder says and writes nothing |
| AuthController.UserTable.Logout | src/controllers/auth.controller.ts:341-358 | always answers 200 "Logout successful" and writes nothing |
| AuthMiddleware.BearerToken | src/middlewares/auth.middleware.ts:22-23 | a token is found only in a header that contains a space, and it contains no space; every non-empty header with a space yields a token |
| AuthMiddleware.BearerTokenOfHeader | src/middlewares/auth.middleware.ts:23 | any header made of a space-free first word, a space and a space-free token, ended or followed by a space, yields that token whatever the first word is |
| AuthMiddleware.BearerTokenIsSecondWord | src/middlewares/auth.middleware.ts:23 | a token found is exactly the text after the first space, up to the next space or the end |
| AuthMiddleware.Gate | src/middlewares/auth.middleware.ts:22-57 | no token or an empty one gives 401 "Access token is required"; the request is admitted exactly when the token verifies, with its claims; 401 exactly for a missing or expired token, 403 for every other failure; an expired token gets "Token has expired", a malformed or badly signed one "Invalid token", any other failure "Token verification failed" |
| AuthMiddleware.AuthenticateToken | src/middlewares/auth.middleware.ts:17-59 | on admission records the claims' user id and e-mail on the request and calls the next handler; on rejection answers with the gate's status and message and leaves the request's identity as it was |
| AuthRoutes.ProfileRoute | src/routes/auth.routes.ts:13 | a rejected request gets the gate's answer; an admitted one gets the profile of the token's user id |
| AuthRoutes.LogoutRoute | src/routes/auth.routes.ts:14 | 200 "Logout successful" exactly when the gate admits the request; otherwise the gate's answer |
| AuthRoutes.RefreshRoute | src/routes/auth.routes.ts:15 | a rejected request gets the gate's answer; an admitted one gets the refresh answer for the token's user id and e-mail |
| AuthRoutes.PrivateRoutesNeedToken | src/middlewares/auth.middleware.ts:25-31 | without a bearer token, profile, logout and refresh all answer 401 "Access token is required" |
| AuthRoutes.DeletedAccountIsLockedOut | src/controllers/auth.controller.ts:300-311 | with a token that still verifies, a deleted user gets 401 from profile and no new token from refresh |
| AuthRoutes.LoginTokenRefreshes | src/controllers/auth.controller.ts:389-411 | the claims of a login token, presented while the account is active, are refreshed into a token for the same user id and e-mail |
| AuthRoutes.Profile | src/routes/auth.routes.ts:13 | running the middleware and then the handler on the request answers as `ProfileRoute` says; the request then carries the token's user id and e-mail when the gate admits it, and its identity is unchanged when the gate rejects it |
| AuthRoutes.Logout | src/routes/auth.routes.ts:14 | running the middleware and then the handler answers as `LogoutRoute` says; the request's identity is set from the token on admission and unchanged on rejection |
| AuthRoutes.Refresh | src/routes/auth.routes.ts:15 | running the middleware and then the handler answers as `RefreshRoute` says; the request's identity is set from the token on admission and unchanged on rejection |

## Left out

- The library calls are parameters, and their internals are not modelled: `validator.isEmail`, `bcrypt.hash`/`bcrypt.compare`, `uuidv4`, `jwt.verify` and `new Date()`. The cryptography of `jwt.sign` and the compact token encoding are not modelled either. Nothing ties `jwt.verify` of a signed token back to its claims or checks the expiry arithmetic; `AuthRoutes.LoginTokenRefreshes` takes that round trip as its hypothesis.
- JsString.Lower: lower-cases ASCII letters only; JavaScript's `toLowerCase` also maps non-ASCII letters, which the e-mail invariant then would have to cover.
- Lengths count Unicode scalar values; JavaScript counts UTF-16 code units, so a name or password with characters outside the Basic Multilingual Plane has a larger length in the source.
- Request body fields are either absent or strings. A truthy non-string JSON value (a number, an array, an object) is not modelled. In the source, such a value takes these paths:
  - `email` goes to `validator.isEmail` (src/utils/validation.ts:5), which refuses non-strings by throwing, so the request ends in the 500 branch before `toLowerCase` is reached.
  - `password` in `register` goes through `validatePassword`. Its length test and regular expressions coerce the value (src/utils/validation.ts:13-27). It gets a 400 policy message, or it passes and reaches `bcrypt.hash`, where it can end in the 500 branch.
  - `password` in `login` skips the policy (src/controllers/auth.controller.ts:153-168). It stops at the 401 or 403 account checks, or it reaches `bcrypt.compare`, which refuses a non-string, so the request ends in the 500 branch (src/controllers/auth.controller.ts:176-214, 251-256).
  - `name` fails the `typeof name === "string"` test (src/utils/validation.ts:33) and gets 400 "Name must be between 2 and 50 characters".
- The `catch` branches answering 500 and the `console.error` logging are not modelled. Neither are datastore failures.
- Each handler reads one `now` for all its `new Date()` calls. In the source, `email_confirmed_at`, `created_at` and `updated_at`, and `last_sign_in_at` and `updated_at`, can differ by the milliseconds between calls.
- `profile` reads the row twice, the second read only for `deleted_at`. The model reads one snapshot, so a deletion between the two reads is not captured.
- AuthController.RegisterKeepsEmailsNormalized: the invariant `EmailsNormalized` (stored e-mails lower-case and pairwise distinct) is proved for one request at a time. Register looks up the e-mail and then inserts, with no transaction between the lookup and the insert (src/controllers/auth.controller.ts:75-106). Two concurrent registrations of one e-mail can both pass the 409 check. The source does not show the schema, so whether the second insert succeeds depends on the database: without a unique index on `email` it succeeds, and with one it fails and the request ends in the 500 branch. Interleaved requests are not modelled.
- A verified token whose payload lacks `userId` or `email` is modelled as one with an empty string there. Both are falsy, and the handlers only test them for truthiness.
- The `email` column is nullable in the schema. Every row the slice creates has one, so the model's `User.email` is a plain string.
- `src/services/auth.service.ts` is not part of this model: it is an unrouted second login with a different policy. Neither are the product and category controllers and services, the Express wiring in `src/index.ts` and `src/routes/api.ts`, or the start-up check that `JWT_SECRET` is set.
