# Authentication controller — a verified model

This project models the authentication core of a multi-role back end: the four
handlers of `controllers/authController.js`.

- **register** resolves the new user's permissions (an explicit non-empty list, else the
  role's default row, else nothing), refuses the wildcard `*` for every role but
  `admin`, requires an agent to name an existing manager whose role is `manager` or
  `admin`, then writes one user and one `register_user` audit entry.
- **login** finds the user by email, checks the password, gives admins the universal
  permission list (in the token and the returned view only, never saved), signs the
  claims `{id, role, permissions}` for 8 hours and writes one `login` audit entry.
- **requestPasswordReset** stores a six-digit code `100000 + r` and an expiry ten
  minutes ahead on the user, overwriting any earlier code, then sends the email.
- **resetPasswordWithOTP** accepts the stored code up to and including its expiry
  instant, replaces the password and clears both reset fields.

The directory is the class `AuthController.AuthService`: a map from user id to user
record, an email index (the store's `findOne({email})` and its unique email index), the
audit log as a sequence, and the next fresh id. `Valid()` is the directory invariant the
four handlers preserve: the index and the records agree, reset code and expiry are
present together, only admins hold `*`, only agents have a manager, and every agent's
manager exists with role `manager` or `admin`.

External effects are parameters: the clock reading `now` (milliseconds), the random
draw `r` with `0 <= r < 900000`, the draw for which the code is `100000 + r`, and
a flag `delivered` whose `false` stands for `sendEmail` rejecting. The role table and the universal permission list are
constructor parameters. Password hashing is an injective wrapper `Hashed(secret)`.

Two details of the code that the model keeps:
- the reset guard accepts a code whose expiry equals `now`, because it tests `expires < now`;
- the code is the decimal rendering of `100000 + r`, which always has six digits.

Files: `wrappers.dfy` (Option, Result), `decimal.dfy` (decimal rendering and its
inverse), `users.dfy` (records, errors), `permissions.dfy` (register's validation),
`otp.dfy` (the reset code), `tokens.dfy` (claims and signing), `auth_controller.dfy`
(the handlers), `scenarios.dfy` (end-to-end runs on a fresh directory).

## Model

| member | source | states |
|---|---|---|
| Users.FindById | controllers/authController.js:37 | `findById` as a map lookup: `Some(users[id])` when the id is in the directory, else `None` |
| Users.PasswordMatches | controllers/authController.js:78 | `comparePassword`: a presented password matches exactly when it is the one stored (hashing is an injective wrapper) |
| Permissions.GrantAllowed | controllers/authController.js:22 | the grant test: allowed when the role is admin or the list holds no `*` |
| Permissions.ManagerValid | controllers/authController.js:38 | the manager test: a user was found and its role is manager or admin |
| Permissions.ValidateRegistration | controllers/authController.js:15-41 | with `ResolvePermissions` (lines 15-20: the explicit list when present and non-empty, else the role's row, else empty) as the resolved list: InvalidGrant exactly when a non-admin's resolved list holds `*`; MissingManager exactly for an agent without manager id; InvalidManager exactly for an agent whose manager is absent or neither manager nor admin; on success the permissions are the resolved ones, hold no `*` unless admin, and a manager reference is present exactly for agents and is valid |
| Permissions.DefaultWildcardRefused | controllers/authController.js:17-26 | a `*` that comes from the role's default row is refused for a non-admin just like an explicit one |
| Decimal.DecimalString | controllers/authController.js:126 | the rendering of a number is a non-empty string of digits without a leading zero |
| Decimal.DecimalRoundTrip | controllers/authController.js:126 | reading back the rendering of n gives n |
| Decimal.DecimalStringInjective | controllers/authController.js:126 | two numbers have the same rendering exactly when they are equal |
| Decimal.DecimalLength | controllers/authController.js:126 | a number between 10^k and 10^(k+1) - 1 is rendered with k + 1 digits |
| Otp.OtpCode | controllers/authController.js:126 | the code for a draw is six digits, does not start with 0, and denotes 100000 + r, so it lies in 100000..999999 |
| Otp.OtpExpiry | controllers/authController.js:127 | the expiry stored with a code is ten minutes (600000 ms) after the request |
| Otp.OtpAcceptedAsWritten | controllers/authController.js:154 | the guard as written: refused when the stored code differs from the presented one (either may be absent) or a present expiry is earlier than now |
| Otp.OtpAccepted | controllers/authController.js:154 | the guard as intended: a code is presented and the guard as written accepts it |
| Otp.AsWrittenAcceptsMissingCode | controllers/authController.js:154 | the guard as written accepts a request without a code for any account with both reset fields absent |
| Otp.OtpAcceptedRefusesMissingCode | controllers/authController.js:154 | the intended guard refuses a request without a code whatever is stored |
| Otp.OtpAcceptedAgreesWhenPresented | controllers/authController.js:154 | for a presented code the intended guard and the guard as written agree |
| Otp.OtpCodeInjective | controllers/authController.js:126 | two draws give the same code exactly when they are the same draw |
| Otp.OtpAcceptedWhenPaired | controllers/authController.js:154 | with code and expiry stored together, `OtpAccepted` holds exactly when a code is presented, equals the stored one and now is at most the expiry (equal is accepted) |
| Otp.IssuedCodeAccepted | controllers/authController.js:126-154 | a freshly issued code is accepted at any time up to ten minutes after issue |
| Otp.ExpiredCodeRejected | controllers/authController.js:154 | once the ten minutes are over no code is accepted, the right one included |
| Otp.ClearedCodeRejected | controllers/authController.js:154-161 | after the fields are cleared no presented code is accepted, so a second reset with the same code fails |
| Otp.OnlyNewestCodeAccepted | controllers/authController.js:126-154 | after a newer request overwrote the code, an older draw's code is accepted only if it is the same draw and the newer code has not expired |
| Tokens.Project | controllers/authController.js:104-110 | the returned view of a user: id, name, email, role and permissions; it has no field for the password or the reset code |
| Tokens.Sign | controllers/authController.js:85-89 | the token carries the given claims, its issue time is now in whole seconds and it expires 8 hours (28800 s) later |
| AuthController.InsertKeepsInvariant | controllers/authController.js:43-52 | saving a fresh user with an unused email, no reset fields and valid role rules keeps the directory invariant |
| AuthController.UpdateKeepsInvariant | controllers/authController.js:129-162 | saving a user with the same id, email, role, permissions and manager and paired reset fields keeps the directory invariant |
| AuthController.AuthService.Register | controllers/authController.js:11-70 | on a validation failure or a taken email nothing changes and that error is returned; otherwise exactly one user (fresh id, resolved permissions, manager only for agents, hashed password, no reset fields) and exactly one `register_user` entry are added, the actor being the caller if any, else the new user, with the created id, email and role as details; the invariant is kept |
| AuthController.AuthService.Login | controllers/authController.js:72-115 | unknown email or wrong password returns that error and changes nothing; on success the directory is unchanged, the token signs `{id, role, permissions}` with the universal list for admins and the stored list otherwise, the returned view holds id, name, email, role and those permissions, and one `login` entry is appended |
| AuthController.AuthService.RequestPasswordReset | controllers/authController.js:117-143 | unknown email changes nothing; otherwise only that user's code becomes the code of draw r and its expiry now + 600000 ms, the log is unchanged, and an undelivered email is reported with the fields left set |
| AuthController.AuthService.ResetPasswordWithOtp | controllers/authController.js:145-168 | unknown email changes nothing; success happens exactly when a code is presented, equals the stored one and now is at most the expiry; then only that user changes, with the new password and both reset fields absent; otherwise InvalidOrExpiredOtp and nothing changes |
| Scenarios.RegisterAgentThenLogin | controllers/authController.js:11-115 | a manager, then an agent under it, register; the agent's login token carries the agent's default permissions, not the universal list; the log holds the two register entries and the login entry in order |
| Scenarios.ResetThenLogin | controllers/authController.js:72-168 | request then confirm within ten minutes succeeds, a second confirm with the same code fails, login with the old password fails and with the new one succeeds |
| Scenarios.OverwrittenCode | controllers/authController.js:117-168 | after two requests, the first request's code resets the password exactly when both draws coincide and the second code has not expired |

## Left out

- HTTP transport: `req`/`res`, status codes and the Portuguese messages; only the kind of error is kept.
- The `try/catch` paths (lines 67-68, 112-113, 140-141, 165-166) for errors the store or the mailer throw, except two that the model names: a taken email on save (DuplicateEmail) and a failed email (DeliveryFailed).
- DuplicateEmail comes from the unique email index of the User model, which is not part of this model; the model's store refuses a taken email when register saves, after all validation.
- A presented reset code sent as JSON `null` (refused by the code, since `undefined !== null`) is not distinguished from a missing one; `None` stands for a missing field.
- Schema validation of the User model (required fields, allowed roles, malformed ids passed to `findById`) is not part of this model; ids are naturals and a missing manager id is `None`.
- Password hashing and `comparePassword` live in the User model: the model treats the stored password as an injective wrapper, so collisions and salts are not modelled.
- JWT signing and `config.jwtSecret`: a token is its claims, issue time and expiry; the cryptography is not modelled.
- `Math.random()` and `Date.now()`: the draw and the clock are parameters; the floating-point arithmetic producing the draw is not modelled.
- `sendEmail` (`utils/emailUtil` is not part of this model): `delivered == false` stands for the call rejecting, which the catch at lines 140-141 reports; a mailer that swallowed its own errors would report success. The subject and text of the message are not modelled.
- The audit entry's `ip` detail, the login message text and the timestamps the audit store adds.
- The role table and the universal permission list are parameters; their contents are configuration. JavaScript property lookups on the role table for names inherited from `Object.prototype` are not modelled.
- Concurrent requests on the same account: each handler runs atomically.
- AuthController.AuthService.ResetPasswordWithOtp: uses the corrected guard `OtpAccepted`, so it refuses a request without a code where the code as written accepts one (see Findings); for a presented code it behaves as written.

## Findings

| source | as written | input that shows it | evidently intended | confidence | as-written member | corrected member |
|---|---|---|---|---|---|---|
| controllers/authController.js:154 | `user.resetPasswordOTP !== otp \|\| user.resetPasswordExpires < Date.now()` refuses only on a differing code or a passed expiry | a reset request with no `otp` field for an account with no pending reset (for example right after a completed reset): the absent stored code equals the absent presented one and an absent expiry is not earlier than now, so the password is replaced | a request without a code is refused | high, not executed | Otp.AsWrittenAcceptsMissingCode | Otp.OtpAcceptedRefusesMissingCode |
