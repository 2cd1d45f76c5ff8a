# Account and session core of a NestJS backend, in Dafny

This project models the account and session core of a NestJS backend.

**The user store.** The `users` table is a map from the generated id to a `User` row, plus the id sequence. The table carries its storage constraints:

- ids are positive and unique;
- usernames are unique;
- non-null emails are unique;
- nicknames carry no constraint.

Each row has one refresh-token slot: the `refreshToken` column with its `refreshTokenExpiresAt` companion.

**The services, as in the source.**

- `UserCreationService`: `create`, `createForSignup`.
- `UserUpdateService`: `update`, `updateRefreshToken`.
- `UsersService`: lookups, `findAll`, `remove`, delegations.
- `TokenService`: claim sets, refresh lifetime, expiry computation, the `type === 'refresh'` gate.
- `AuthService`: credential check, availability checks, register, sign-up, and the session state machine (login, refresh, logout).
- `ProfileService`: profile projections.
- `JwtAuthGuard`: token source, `Bearer` extraction, identity.
- `AuthController`: cookie options, and the `login`, `refresh` and `logout` routes.

**How they are modelled.** Each service operation that changes the store is two members. A pure step function maps the old table to the result and the new table; the lemmas are stated over these step functions. A method on the repository object (`Users.UserRepository`) follows the source's statements and is proved to have exactly that step's effect. The corrected variants under "Findings" are step functions only.

**Abstractions.**

- JSON Web Tokens (RFC 7519) are a datatype: a claim set with its `iat`/`exp` seconds, or foreign text that never verifies.
- bcrypt hashes record the cost (10), a salt and the key stream they accept. The stream is built as bcrypt builds it from the password's UTF-8 encoding: the first 72 bytes, or, for a shorter encoding, the bytes and their NUL terminator repeated to 72 bytes.
- Time is an integer number of milliseconds passed in as `now`.
- Errors form a closed enumeration: `Unauthorized`, `BadRequest`, `Conflict`, `NotFound`, `StorageFailure` for a database error, and `SigningFailure` for the token library's error on an unreadable lifetime.
- Dates are ECMAScript time values: an instant is valid only within 100 000 000 days of the epoch, and date arithmetic that leaves that range gives an invalid date.

**JavaScript semantics written out:**

- truthiness;
- `x || null`;
- `trim`;
- `parseInt`;
- `replace` of the first match;
- `split` on one character;
- `Object.assign` copying explicit `undefined`;
- the repository's `save` skipping `undefined` properties and moving the update-date column only when something changed.

**Behaviour of the code that the model keeps:**

- `logout` can fail. With neither a user id nor a truthy token it raises `BadRequest`. A token that does not match the slot raises `Unauthorized`. A `userId` unknown to the store raises `NotFound`. In each case the store is unchanged.
- The stored refresh expiry is read from the lifetime string in days. When the string contains a `d`, the day count is `parseInt` of the string with its first `d` removed. When it has no `d` (`"12h"`), the count is seven. A string such as `".5d"` gives an invalid date, and so does a count that takes the date out of range (`"300000000d"`); the slot write then fails and `login` raises `BadRequest`.
- `login` turns every failure into `BadRequest`: an unreadable lifetime, an unknown user id and a failed slot write alike.
- `register` creates the row before it signs the token, so when signing fails the row stays and the signing error propagates.

## Model

| member | source | states |
|---|---|---|
| Jwt.Sign | src/auth/services/token.service.ts:18-31 | a signed token carries exactly the given claims and expires the given number of seconds after it was issued (`Jwt.VerifySigned` and `Jwt.Verify` pin what verification makes of it) |
| Bcrypt.Compare | src/auth/auth.service.ts:114 | a hash accepts a password iff their key streams agree (`Bcrypt.CompareExact`, `Bcrypt.LongPasswordsCollide` and `Bcrypt.NulRepeatCollides` pin which passwords that is) |
| Bcrypt.HashPassword | src/users/services/user-creation.service.ts:38-40 | a hash uses cost 10 and the caller's salt, and accepts the password it was made from |
| Bcrypt.Key | src/users/services/user-creation.service.ts:38-40 | the 72 bytes bcrypt keys on: the first 72 bytes of the UTF-8 encoding, or a shorter encoding followed by its NUL terminator (and repeated) |
| Bcrypt.CompareExact | src/auth/auth.service.ts:113-117 | a hash accepts exactly the passwords with the key stream of its own; among passwords of at most 72 bytes without a NUL character, its own and no other |
| Bcrypt.NulRepeatCollides | src/auth/auth.service.ts:113-117 | a short password `p`, followed by NUL and `p` again, is accepted by the hash of `p` |
| Bcrypt.LongPasswordsCollide | src/auth/auth.service.ts:113-117 | two passwords that share a prefix of 72 or more UTF-8 bytes are each accepted by the other's hash |
| Jwt.Verify | src/auth/services/token.service.ts:49-50 | verification yields the signed claims exactly while `exp` lies ahead, and fails for foreign text |
| UserEntity.Save | src/users/entities/user.entity.ts:44-45 | a save writes the edited columns; the update date moves to `now` only if some column changed |
| Users.TableValid | src/users/entities/user.entity.ts:12-21 | ids are positive, below the next id and key their rows; usernames are unique; non-null emails are unique (`Users.FindByUnique`, `UserCreation.InsertKeepsValid` and `UserUpdate.UpdateKeepsValid` rely on and preserve it) |
| Users.FindBy | src/users/users.service.ts:41-51 | a lookup finds a row with exactly that column value iff one exists; the row is the stored one |
| Users.FindByUnique | src/users/entities/user.entity.ts:15-21 | on the unique username and email columns, the lookup returns the one row holding the value |
| Users.FindOne | src/users/users.service.ts:28-39 | `NotFound` iff the id is absent; otherwise the row without its password, slot kept, empty `bio` as null |
| Users.FindAll | src/users/users.service.ts:23-26 | every stored row appears once, password removed, and nothing else appears |
| Users.RemoveStep | src/users/users.service.ts:69-75 | `NotFound` with the table unchanged for an unknown id; otherwise exactly that row is gone and the constraints hold |
| Users.Remove | src/users/users.service.ts:69-75 | the method has exactly `RemoveStep`'s effect and keeps the table valid |
| UserCreation.NewRow | src/users/services/user-creation.service.ts:42-48 | an inserted row has the given columns, null slot and other nullable columns, and both timestamps at `now` |
| UserCreation.InsertKeepsValid | src/users/entities/user.entity.ts:12-21 | adding a row under the next id with a free username and free email keeps every constraint |
| UserCreation.CreateStep | src/users/services/user-creation.service.ts:21-53 | `Conflict` (table unchanged) when the email is taken, else when the username is; otherwise exactly one row is added, a fresh row with the email, username and password hash, no nickname, image, bio or slot, and both dates at `now`, and it is returned without its password |
| UserCreation.Create | src/users/services/user-creation.service.ts:21-53 | the method's effect and result are `CreateStep`'s |
| UserCreation.CreateForSignupStep | src/users/services/user-creation.service.ts:58-93 | `Conflict` when the username (the sign-up id) is taken, else when the nickname is; otherwise exactly one fresh row with a null email, the hashed password, the nickname, the image URL or null, no bio or slot, and both dates at `now` |
| UserCreation.CreateForSignup | src/users/services/user-creation.service.ts:58-93 | the method's effect and result are `CreateForSignupStep`'s |
| UserUpdate.InMemory | src/users/services/user-update.service.ts:59 | in memory, an assigned property is the stored column unless it was assigned `undefined`, and then it reads as null |
| UserUpdate.Assign | src/users/services/user-update.service.ts:59-60 | given fields replace columns, absent or `undefined` ones keep them, the slot and timestamps are untouched |
| UserUpdate.UpdateStep | src/users/services/user-update.service.ts:21-64 | `NotFound`, then an email `Conflict`, then a username `Conflict`, each only on a real change to a taken value; otherwise only that row changes, a new password is stored hashed, and uniqueness is kept |
| UserUpdate.UpdateKeepsValid | src/users/services/user-update.service.ts:30-48 | replacing a row whose username and email are its own or free keeps every constraint |
| UserUpdate.UpdateIgnoresNicknames | src/users/services/user-update.service.ts:30-48 | without email or username in the payload, `update` fails only with `NotFound`, whatever the nickname |
| UserUpdate.Update | src/users/services/user-update.service.ts:21-64 | the method's effect and result are `UpdateStep`'s |
| UserUpdate.WriteSlot | src/users/services/user-update.service.ts:69-89 | `NotFound` for an unknown id and a database failure for an invalid date, table unchanged; otherwise both slot columns take exactly the given values and nothing else in the table changes |
| UserUpdate.ClearSlotSucceeds | src/users/services/user-update.service.ts:75-83 | clearing the slot of a stored user always succeeds and empties it |
| UserUpdate.UpdateRefreshToken | src/users/services/user-update.service.ts:69-89 | the method's effect and result are `WriteSlot`'s |
| TokenService.RefreshLifetime | src/auth/services/token.service.ts:26 | the configured lifetime when truthy, otherwise `"7d"` |
| TokenService.GenerateAccessToken | src/auth/services/token.service.ts:18-20 | the token carries exactly the given payload and verifies to it within the access lifetime; none when the library rejects that lifetime |
| TokenService.GenerateRefreshToken | src/auth/services/token.service.ts:25-31 | the claims are exactly `{ sub: userId, type: 'refresh' }`, signed for the refresh lifetime; none when the library rejects that lifetime |
| TokenService.VerifyRefreshToken | src/auth/services/token.service.ts:49-55 | accepts iff the token verifies and its `type` is exactly `refresh`, returning the payload unchanged |
| TokenService.CalculateRefreshTokenExpiresAt | src/auth/services/token.service.ts:36-44 | a `NaN` count gives an invalid date; a valid expiry lies in the date range and a whole number of days from `now` (the expiry lemmas below give the exact count) |
| TokenService.DefaultExpiry | src/auth/services/token.service.ts:36-44 | with the lifetime unset, the expiry is seven days after `now`, or an invalid date when that is out of range |
| TokenService.DayCountExpiry | src/auth/services/token.service.ts:38-43 | a lifetime `<n>d` (or `<n>d` plus a non-digit tail) gives an expiry `n` days after `now`, or an invalid date when that is out of range |
| TokenService.ExpiryDaysAt | src/auth/services/token.service.ts:39-41 | a lifetime whose first `d` follows `p` is read as `parseInt` of the lifetime with that `d` removed |
| TokenService.LifetimeDays | src/auth/services/token.service.ts:37-41 | a configured lifetime `p + "d" + q` is read as `parseInt(p + q)` days |
| TokenService.DayStringExpiry | src/auth/services/token.service.ts:37-43 | when `p + q` parses as `k`, the lifetime `p + "d" + q` gives an expiry `k` days after `now`, or an invalid date when that is out of range |
| TokenService.NoDigitDayExpiry | src/auth/services/token.service.ts:39-43 | a lifetime whose part before the first `d` starts with no digit, sign or space gives an invalid date |
| TokenService.NonDayLifetimeExpiry | src/auth/services/token.service.ts:38-41 | a lifetime with no `d` gives seven days, whatever it says |
| TokenService.LargeDayCountInvalid | src/auth/services/token.service.ts:42 | from a valid date, a count of more than 200 000 000 days either way gives an invalid date |
| TokenService.FractionalDayExpiry | src/auth/services/token.service.ts:38-42 | the lifetime `".5d"` gives an invalid date |
| TokenService.RefreshTokenVerifies | src/auth/services/token.service.ts:49-55 | a fresh refresh token passes the refresh check with its own claims while valid |
| TokenService.AccessTokenIsNotRefresh | src/auth/services/token.service.ts:49-53 | no access token ever passes the refresh check |
| JsText.ParseIntDecimal | src/auth/services/token.service.ts:38-40 | `parseInt` reads back the decimal digits of `n` followed by a non-digit tail as `n` |
| JsText.Split | src/common/guards/jwt-auth.guard.ts:85 | no piece contains the separator, the first piece is the prefix up to the first separator, and there is one piece iff no separator occurs |
| JsText.SplitJoin | src/common/guards/jwt-auth.guard.ts:85 | the pieces of a split join back, with the separator, to the string |
| AuthService.ValidateUser | src/auth/auth.service.ts:106-122 | a user comes back iff some row has that username and its hash accepts the password; one `None` for both failures; no password in the result |
| AuthService.ValidateUserExact | src/auth/auth.service.ts:106-122 | a stored user is accepted exactly with the passwords whose key stream is that of the one it was hashed from (for passwords of at most 72 bytes without a NUL character, that one alone), and the result is that user |
| AuthService.CheckUsernameAvailability | src/auth/auth.service.ts:132-138 | available iff given, not blank after trimming, and held by no row |
| AuthService.CheckNicknameAvailability | src/auth/auth.service.ts:140-146 | available iff given, not blank after trimming, and held by no row |
| AuthService.AvailableNamesSignUp | src/auth/auth.service.ts:132-146 | when both names are reported available, sign-up with them succeeds |
| AuthService.RegisterStep | src/auth/auth.service.ts:19-33 | creation conflicts propagate with the table unchanged; a signing failure propagates after the row was created; otherwise the token carries `{ email, sub, username }` of the new row, returned without its password |
| AuthService.Register | src/auth/auth.service.ts:19-33 | the method's effect and result are `RegisterStep`'s |
| AuthService.SignupStep | src/auth/auth.service.ts:89-104 | `true` exactly when the login id and the nickname are free; `Conflict` with the table unchanged otherwise; after success `validateUser` accepts the sign-up's id and password and returns the new row |
| AuthService.Signup | src/auth/auth.service.ts:89-104 | the method's effect and result are `SignupStep`'s |
| AuthService.LoginUserOf | src/auth/auth.service.ts:62-70 | the login projection keeps id and username, turns empty nickname, image and email into null, and has no password or slot |
| AuthService.LoginStep | src/auth/auth.service.ts:40-87 | every failure is `BadRequest` with the table unchanged; success iff both lifetimes are readable, the user is stored and the expiry is a valid date; then the slot holds exactly the returned refresh token and the computed expiry, no other column of the row but the update date changes, no other row changes, and the access token carries `{ sub, username, email }` with an empty email as null |
| AuthService.Login | src/auth/auth.service.ts:40-87 | the method's effect and result are `LoginStep`'s |
| AuthService.RefreshStep | src/auth/auth.service.ts:148-183 | every failure is `Unauthorized`; success iff the token is the unexpired one in its subject's slot and the access lifetime is readable, with the table untouched; an expired match clears that slot and changes nothing else but the row's update date |
| AuthService.RefreshAccessToken | src/auth/auth.service.ts:148-183 | the method's effect and result are `RefreshStep`'s |
| AuthService.LogoutStep | src/auth/auth.service.ts:185-222 | a non-zero id clears that slot (`NotFound` if unknown); else a truthy token must match its slot (`Unauthorized` if not); else `BadRequest`; failures change nothing |
| AuthService.Logout | src/auth/auth.service.ts:185-222 | the method, with its reassigned `targetUserId`, has exactly `LogoutStep`'s effect |
| AuthService.ExpiredTokenStaysRejected | src/auth/auth.service.ts:159-164 | an expired match is rejected, and every later refresh with the same token is rejected too |
| AuthService.LogoutRevokes | src/auth/auth.service.ts:192-218 | after a logout with a refresh token, that token never refreshes again |
| AuthService.LaterLoginSupersedes | src/auth/auth.service.ts:50-55 | a second login in a later second issues a different token, and the first one stops refreshing |
| AuthService.AccessTokenCannotRefresh | src/auth/auth.service.ts:150-156 | refresh with an access token is `Unauthorized` with the table unchanged |
| AuthService.SessionLifecycle | src/auth/auth.service.ts:40-222 | login, a refresh within the day, logout, then a refresh with the same token, which is rejected |
| AuthService.DefaultSlotOutlivesToken | src/auth/auth.service.ts:159-164 | with the default lifetimes, a refresh token that still verifies never meets an expired slot |
| AuthService.HugeDayCountLoginFails | src/auth/auth.service.ts:51-58 | a lifetime of more than 200 000 000 days makes `login` fail with `BadRequest` and the table unchanged |
| ProfileService.ProfileOf | src/auth/services/profile.service.ts:16-25 | the profile projection never shows an empty `bio` and has no password or slot |
| ProfileService.GetProfile | src/auth/services/profile.service.ts:14-26 | `NotFound` iff the id is absent; otherwise the stored public columns with `bio` null when empty |
| ProfileService.Explicit | src/auth/services/profile.service.ts:35-39 | a forwarded field is always present: the sent value when sent, `undefined` exactly when not |
| ProfileService.Forwarded | src/auth/services/profile.service.ts:35-39 | the forwarded payload has no email, username or password, and each of the three profile fields written out explicitly |
| ProfileService.UpdateProfileStep | src/auth/services/profile.service.ts:31-51 | only `NotFound` can fail, with the table unchanged; only that row changes, and in it only the three profile fields and the update date; sent fields are stored and unsent ones keep their value; the response has the saved row's id, username, email and dates, the sent fields (`bio` null when empty) and null for unsent ones |
| ProfileService.UpdateProfile | src/auth/services/profile.service.ts:31-51 | the method's effect and result are `UpdateProfileStep`'s |
| ProfileService.UpdateProfileHidesUnsentFields | src/auth/services/profile.service.ts:35-44 | an update without a nickname reports none, while the stored nickname is unchanged |
| ProfileService.PresentOnly | src/auth/services/profile.service.ts:35-39 | only sent fields are forwarded, with the sent value |
| ProfileService.UpdateProfileCorrectedStep | src/auth/services/profile.service.ts:31-51 | same failures and same stored row as the written version; the response is the stored row's profile |
| JwtAuthGuard.TokenOf | src/common/guards/jwt-auth.guard.ts:63-65 | a string the service issued stands for that token; any other string is foreign text |
| JwtAuthGuard.ExtractTokenFromHeader | src/common/guards/jwt-auth.guard.ts:84-87 | an extracted token comes from a header and contains no space |
| JwtAuthGuard.ExtractBearer | src/common/guards/jwt-auth.guard.ts:84-87 | a token comes out iff the header starts with `Bearer `; it is the maximal space-free run after the prefix |
| JwtAuthGuard.BearerToken | src/common/guards/jwt-auth.guard.ts:85-86 | after a `Bearer ` prefix, the token is the run up to the next space |
| JwtAuthGuard.BearerSplit | src/common/guards/jwt-auth.guard.ts:85 | splitting a `Bearer ` header yields `Bearer` followed by the pieces of the rest |
| JwtAuthGuard.SplitBearer | src/common/guards/jwt-auth.guard.ts:85-86 | a split starting with `Bearer` and having a second piece comes from a `Bearer ` header |
| JwtAuthGuard.BearerCredential | src/common/guards/jwt-auth.guard.ts:80-87 | `Bearer <token>` (RFC 6750 section 2.1) yields the token |
| JwtAuthGuard.Authenticate | src/common/guards/jwt-auth.guard.ts:48-77 | `Unauthorized` unless a truthy token is found and verifies; the identity is `{ sub, username, email }` of its claims |
| JwtAuthGuard.CookieTakesPrecedence | src/common/guards/jwt-auth.guard.ts:48-53 | with a truthy cookie, the header does not affect the outcome |
| JwtAuthGuard.NoCredentialsRejected | src/common/guards/jwt-auth.guard.ts:57-59 | no cookie and no `Bearer` header gives `Unauthorized` |
| JwtAuthGuard.IssuedAccessTokenAdmits | src/common/guards/jwt-auth.guard.ts:61-72 | a valid issued access token sent as `Bearer` admits its subject with username and email |
| JwtAuthGuard.RefreshTokenPassesGuard | src/common/guards/jwt-auth.guard.ts:61-72 | a valid refresh token is admitted as an access token |
| JwtAuthGuard.AuthenticateAccessOnly | src/common/guards/jwt-auth.guard.ts:61-77 | accepts what the written guard accepts minus tokens with a `type` claim, with the same identity |
| JwtAuthGuard.AccessOnlyRejectsRefreshTokens | src/common/guards/jwt-auth.guard.ts:61-77 | the corrected guard rejects every issued refresh token |
| JwtAuthGuard.CanActivate | src/common/guards/jwt-auth.guard.ts:33-78 | on success `request.user` is the identity and the answer is `true`; on failure the request is untouched |
| AuthController.GetCookieOptions | src/auth/auth.controller.ts:15-24 | HTTP-only on `/`; secure and `SameSite=None` exactly in production, `Lax` otherwise; one hour unless told |
| AuthController.CrossSiteCookiesAreSecure | src/auth/auth.controller.ts:18-19 | a `SameSite=None` cookie is always secure |
| AuthController.RefreshCookieMatchesDefaultExpiry | src/auth/auth.controller.ts:47-48 | the refresh cookie's lifetime equals the default slot expiry offset |
| AuthController.LoginRoute | src/auth/auth.controller.ts:36-52 | `Unauthorized`, table unchanged, on bad credentials; otherwise success iff `login` succeeds, with its store effect, and its failure as `BadRequest`; on success the access cookie holds the login's access token with the default options, the refresh cookie the slot's refresh token with seven-day options, and the body is the login user projection alone |
| AuthController.RefreshRoute | src/auth/auth.controller.ts:76-88 | `BadRequest` without a truthy cookie before the service runs; otherwise `refreshAccessToken`'s outcome and store effect; on success only the access cookie is set, with the default options, to the issued access token, never a refresh token |
| AuthController.LogoutRoute | src/auth/auth.controller.ts:90-102 | succeeds iff the cookie matches its slot; no cookie is `BadRequest`, a stale one `Unauthorized`; cookies are cleared only on success |
| AuthController.CookieSession | src/auth/auth.controller.ts:36-102 | a login cookie refreshes, logs out, and is then refused |
| AuthController.Login | src/auth/auth.controller.ts:36-52 | the handler's store effect and response are `LoginRoute`'s; on failure the response is untouched |
| AuthController.Refresh | src/auth/auth.controller.ts:76-88 | the handler's store effect and response are `RefreshRoute`'s |
| AuthController.Logout | src/auth/auth.controller.ts:90-102 | the handler's store effect and response are `LogoutRoute`'s |

## Left out

- Cryptography: JWT signing, verification and bcrypt are foreign library calls. They are abstract datatypes here. A token signed with another key, or malformed, is foreign text.
- Lifetime strings: the signing library's reading of `JWT_EXPIRES_IN` and `JWT_REFRESH_EXPIRES_IN` (`"1h"`, `"7d"`) is a configuration input in seconds. An unreadable lifetime makes signing with it fail.
- JsText.ParseIntDecimal: `parseInt` is modelled on exact integers, while JavaScript rounds its result to the nearest double above 2^53. That only changes day counts beyond 2^53, which give an invalid date either way (`TokenService.LargeDayCountInvalid`).
- Bcrypt.CompareExact: bcrypt digests are modelled as injective on the 72-byte key stream. Collisions of the underlying hash function are not modelled. "Its own password and no other" is promised only for passwords of at most 72 bytes without a NUL character; longer passwords and passwords containing U+0000 do collide (`Bcrypt.LongPasswordsCollide`, `Bcrypt.NulRepeatCollides`). JavaScript strings holding lone surrogate halves are not modelled; passwords are sequences of Unicode scalar values.
- Clock and calendar: `new Date()` is the `now` parameter. `Date.setDate` adds local calendar days; the model adds 24-hour days, so daylight-saving shifts are not modelled.
- Persistence:
  - TypeORM repositories are a map.
  - `findOne` with several matching rows (only possible on nicknames) is taken to return the lowest id.
  - `find()` lists rows in id order.
  - Database errors other than an invalid timestamp are not modelled. This includes unique-index violations between a check and an insert.
- Concurrency: interleaved requests, for example two logins racing on one slot, are not modelled. Each operation is atomic.
- Entity objects: `update` and `updateRefreshToken` mutate the loaded entity in place and then save it. Here the entity is a value that is edited and written back; no other reference to it exists in the source.
- Validation rules in the DTO files apply only as preconditions. `UserUpdate.UpdateStep` requires non-empty email, username and password when they are given. An explicit `null` for those three fields is not modelled.
- `login` falls back to `new Date()` for missing `createdAt`/`updatedAt`. This is not modelled, because those columns are always set.
- `logout`'s final `Unauthorized` branch is not modelled, because the selected id is always truthy there.
- Console logging, message texts, HTTP status codes and the Express response beyond cookie operations and body kind are not modelled.
- Thin delegations are not separate members:
  - `UsersService` delegating to the creation and update services;
  - `AuthService.getProfile` and `updateProfile`;
  - the controller's `register`, `signup`, `profile` and availability routes.

## Findings

| source | as written | input that shows it | evidently intended | confidence | as-written member | corrected member |
|---|---|---|---|---|---|---|
| src/common/guards/jwt-auth.guard.ts:61-72 | the guard checks signature and expiry only, not the `type` claim; refresh tokens share the access tokens' secret | a valid refresh token sent as the `access_token` cookie or as `Bearer` credentials | only access tokens (no `type` claim) admit a request; refresh tokens only mint access tokens | medium, not executed | JwtAuthGuard.RefreshTokenPassesGuard | JwtAuthGuard.AuthenticateAccessOnly |
| src/auth/services/profile.service.ts:35-39 | fields missing from the payload are forwarded as explicit `undefined`; `Object.assign` copies them, `save` skips them, so the response shows null for values still stored | a profile update with only `bio` for a user with a nickname | the response shows the row as stored | medium, not executed | ProfileService.UpdateProfileHidesUnsentFields | ProfileService.UpdateProfileCorrectedStep |
