# BackServices auth and posts core in Dafny

This project models the logic at the core of a two-service backend. One
service handles authentication: it registers users, logs them in, issues
access and refresh tokens, rotates refresh tokens and validates access
tokens. The other is a posts service. It stores user-authored posts, lets
only a post's owner change or delete it, and checks each request's bearer
token by calling the auth service.

What is modelled:

- **Refresh-token allowlist** (`AuthModel`, `Auth`, `AuthProperties`).
  - The store holds a users table with unique emails, the next user id and
    the refresh-token rows `(token, user_id, expires_at)`. The clock reading
    `now`, in milliseconds, is a parameter of every operation.
  - `AuthModel` gives register, login, refresh and validate as functions
    from the old store to an outcome and the new store.
  - `Auth.AuthService` is a class whose tables are updated in place, step by
    step as the source does it: delete the consumed row, look the user up,
    save the new row. Each method is proved to produce exactly the function's
    outcome and store.
  - JWT signing and verification (RFC 7519) and bcrypt are not interpreted.
    The service receives them as function values (`Env`). The ghost predicate
    `AuthModel.Sound` states the only facts some lemmas assume of them: a
    token decodes to the claims it was signed with, a fresh access or
    refresh token is live when issued, and a password matches its own hash.
- **Duration parser** (`Expiry`): `parseExpiry` and the part of `parseInt`
  it relies on, including the `0x` prefix that switches it to base 16.
- **Controller of the auth service** (`AuthController`): the bearer header
  check and `split(' ')[1]` token extraction of `validate`, and the three
  delegating handlers.
- **Posts table with ownership** (`Posts.PostsService`): a class over a map
  from id to post, with create, findAll (newest first), findOne, update and
  remove.
- **Guard of the posts service** (`AuthGuard`): the local header checks,
  the mapping of the remote outcome to errors, and the `request.user`
  assignment. The HTTP call is a function parameter from the forwarded
  header to an outcome: a response, an error status, or no response.
- **Validation DTOs** (`CreatePostDto`, `UpdatePostDto`, `RegisterDto`,
  over the decorators in `ClassValidator`).
- **The two services wired together** (`Deployment`): the guard's remote call
  is the auth controller's `validate`.

In three places the model follows the code where a reader might expect otherwise:

- A refresh of an expired row fails with the same `Unvalid token` error as
  every other refresh failure. It has no distinct "expired" message,
  because the catch block at auth-service/src/auth/auth.service.ts:100-103
  replaces it.
- An update may set `content` to the empty string. `UpdatePostDto` declares
  no `IsNotEmpty` on `content`, unlike `CreatePostDto`. This is stated by
  `Posts.PatchMayEmptyContent`.
- Both bearer checks compare the exact, case-sensitive prefix `"Bearer "`.
  Section 2.1 of RFC 6750 treats the scheme name case-insensitively, so
  `"bearer x"` is refused here (`AuthController.BearerRefusals`).

The refresh rotation is single-use only when the presented token is on
exactly one row. Tokens are signed deterministically from the claims, the
lifetime and the issuing instant. So two logins by the same user within the
same instant store two rows with the same token string. A refresh consumes
only the first of them, and the same token can then be exchanged once more.
`AuthProperties.RefreshConsumesOneMatch` states the exact count, and
`AuthProperties.RefreshIsSingleUse` assumes a single matching row.

## Model

| member | source | states |
|---|---|---|
| Tables.IndexWhere | auth-service/src/auth/auth.service.ts:72-74 | `findOne` with a filter yields the first row satisfying it, and none exactly when no row does |
| Tables.RemoveAt | auth-service/src/auth/auth.service.ts:83 | removing the found row keeps every other row, in order |
| Text.StartsWith | auth-service/src/auth/auth.controller.ts:87 | `startsWith` holds exactly when the prefix fits and agrees character by character (case-sensitive) |
| Text.Split | auth-service/src/auth/auth.controller.ts:91 | `split(' ')` yields at least one piece, none containing the separator, the first a prefix ending at the first separator |
| Text.JoinSplit | auth-service/src/auth/auth.controller.ts:91 | joining the pieces of a split gives back the header |
| Text.SplitJoin | auth-service/src/auth/auth.controller.ts:91 | splitting a join of separator-free pieces gives back the pieces |
| Text.SplitAfterPrefix | auth-service/src/auth/auth.controller.ts:91 | a header `"Bearer " + rest` splits into `"Bearer"` followed by the pieces of `rest` |
| Expiry.DecimalValue | auth-service/src/auth/auth.service.ts:163 | the value `parseInt` reads from the numeral of `n` is `n` |
| Expiry.ParseInt | auth-service/src/auth/auth.service.ts:163 | `parseInt` yields a number only when a digit follows the optional sign, a negative one only after `-`, and a non-negative one for text opening with a digit and no `0x` |
| Expiry.DigitRunStops | auth-service/src/auth/auth.service.ts:163 | in base 10 and in base 16 alike, `parseInt` reads digits up to the first character that is not a digit of that base |
| Expiry.ParseIntDecimal | auth-service/src/auth/auth.service.ts:163 | `parseInt` of a numeral followed by non-digit text is the numeral's value, except `0` followed by `x` or `X` |
| Expiry.HexPrefix | auth-service/src/auth/auth.service.ts:163-164 | `0x` with no hexadecimal digit is NaN; `"0x1d"` is 29 days, the `d` being a hexadecimal digit; `"-0X1h"` is minus one hour |
| Expiry.ParseExpiry | auth-service/src/auth/auth.service.ts:162-168 | a duration exists exactly when `parseInt` reads a number, and is that number times the milliseconds of the unit named by the last character |
| Expiry.ParseExpiryWithUnit | auth-service/src/auth/auth.service.ts:162-168 | `n` followed by `d`, `h`, `m` or any other non-digit (other than `x`/`X` after `0`) is `n` times 86 400 000, 3 600 000, 60 000 or 1000 milliseconds |
| Expiry.ParseExpiryBare | auth-service/src/auth/auth.service.ts:167 | a bare numeral is read as seconds |
| Expiry.SevenDays | auth-service/src/auth/auth.service.ts:164 | `"7d"` is 604 800 000 milliseconds |
| Expiry.NoLeadingInteger | auth-service/src/auth/auth.service.ts:163 | text that does not start with a sign or a digit has no duration (NaN) |
| AuthModel.Verify | auth-service/src/auth/auth.service.ts:68-70 | verification yields claims only for a live token, and then the claims it decodes to |
| AuthModel.FindByEmail | auth-service/src/auth/auth.service.ts:41 | yields a stored user with that email, and nothing exactly when no user has it |
| AuthModel.FindById | auth-service/src/auth/auth.service.ts:89 | yields a stored user with that id, and nothing exactly when no user has it |
| AuthModel.GenerateTokens | auth-service/src/auth/auth.service.ts:132-146 | with sound libraries, both tokens verify at the instant of issue to exactly the claims `{ sub: userId, email }` |
| AuthModel.Register | auth-service/src/auth/auth.service.ts:24-36 | fails with Conflict, store unchanged, exactly when the email is taken; otherwise adds one user with the next id and the salted hash, and exactly one refresh row for the returned refresh token, leaving existing rows unchanged |
| AuthModel.Login | auth-service/src/auth/auth.service.ts:38-62 | every failure is `Wrong email or password` with the store unchanged; a success is for a user with that email whose hash matches, and adds exactly one refresh row for that user |
| AuthModel.Refresh | auth-service/src/auth/auth.service.ts:64-104 | every failure is the single `Unvalid token` error; users are never touched; at most one row is removed and at most one added |
| AuthModel.ValidateToken | auth-service/src/auth/auth.service.ts:106-130 | every failure is the one Unauthorized error; a success is `valid = true` for a token that verifies, with the token's `sub` as user id and the email of the stored user with that id |
| AuthProperties.EmailDeterminesUser | auth-service/src/users/entities/user.entity.ts:16 | in a valid store an email identifies at most one user |
| AuthProperties.LoginFailsAlike | auth-service/src/auth/auth.service.ts:41-54 | login fails exactly when no user with the email has a hash matching the password, and then with the same error and no change |
| AuthProperties.UnknownEmailLikeWrongPassword | auth-service/src/auth/auth.service.ts:41-54 | an unknown email and a wrong password give identical results |
| AuthProperties.RegisterPreservesValid | auth-service/src/auth/auth.service.ts:27-28 | registration keeps user ids and emails unique |
| AuthProperties.LoginRefreshPreserveValid | auth-service/src/auth/auth.service.ts:58-59 | login and refresh keep the store valid |
| AuthProperties.RefreshUnmatchedChangesNothing | auth-service/src/auth/auth.service.ts:72-79 | with no row for `(token, sub)` the refresh fails and the store is unchanged |
| AuthProperties.RefreshPurgesExpired | auth-service/src/auth/auth.service.ts:81-85 | a row presented strictly after `expires_at` is deleted and nothing is added |
| AuthProperties.RefreshRotates | auth-service/src/auth/auth.service.ts:87-97 | a live row (including one at exactly `expires_at`) is consumed; with its user gone it stays deleted and nothing is added, otherwise exactly one new row for the new refresh token replaces it |
| AuthProperties.RefreshConsumesOneMatch | auth-service/src/auth/auth.service.ts:87-97 | a successful refresh lowers the number of rows for `(token, sub)` by one, unless the reissued token is the same string |
| AuthProperties.RefreshIsSingleUse | auth-service/src/auth/auth.service.ts:72-97 | after a token on one row is exchanged for a different one, presenting it again fails at any later time and changes nothing |
| AuthProperties.ValidateRejects | auth-service/src/auth/auth.service.ts:106-129 | validation fails exactly when the token does not verify or its user no longer exists |
| AuthProperties.RegisterThenValidate | auth-service/src/auth/auth.service.ts:24-36 | the access token of a registration validates at once as the new user |
| AuthProperties.LoginThenValidate | auth-service/src/auth/auth.service.ts:38-62 | the access token of a login validates at once as the user who logged in |
| AuthProperties.FindByIdStored | auth-service/src/auth/auth.service.ts:89 | in a valid store, `findById` of a stored user's id finds that user |
| AuthProperties.IssueThenRefresh | auth-service/src/auth/auth.service.ts:64-104 | a freshly issued refresh token, on the only row for it, is accepted at the instant of issue: its row is rotated and the same pair issued again (for a non-negative refresh lifetime) |
| AuthProperties.LoginThenRefresh | auth-service/test/auth.e2e-spec.ts:129-141 | the refresh token returned by a login is accepted at once, rotating the row the login saved |
| AuthProperties.RegisterThenRefresh | auth-service/src/auth/auth.service.ts:24-36 | the refresh token returned by a registration is accepted at once, rotating the row the registration saved |
| Auth.AuthService.constructor | auth-service/src/auth/auth.service.ts:16-22 | a service starts with empty tables |
| Auth.AuthService.CreateUser | auth-service/src/auth/auth.service.ts:28 | a taken email creates nothing; otherwise one user with the next id is appended |
| Auth.AuthService.SaveRefreshToken | auth-service/src/auth/auth.service.ts:148-160 | appends exactly the issued row and nothing else |
| Auth.AuthService.RemoveRefreshToken | auth-service/src/auth/auth.service.ts:87 | deletes exactly the found row |
| Auth.AuthService.Register | auth-service/src/auth/auth.service.ts:24-36 | in-place register: outcome and new tables are those of `AuthModel.Register` on the old tables |
| Auth.AuthService.Login | auth-service/src/auth/auth.service.ts:38-62 | in-place login: outcome and new tables are those of `AuthModel.Login` |
| Auth.AuthService.RefreshTokens | auth-service/src/auth/auth.service.ts:64-104 | delete-then-save refresh: outcome and new tables are those of `AuthModel.Refresh` |
| Auth.AuthService.ValidateToken | auth-service/src/auth/auth.service.ts:106-130 | reads only; answers as `AuthModel.ValidateToken`, with the record of the table's user whose id is the token's `sub` |
| AuthController.BearerToken | auth-service/src/auth/auth.controller.ts:87-91 | a token is extracted exactly when the header starts with `"Bearer "`; it is the space-free text after the prefix up to the next space or the end |
| AuthController.BearerExact | auth-service/src/auth/auth.controller.ts:91-92 | `"Bearer t"` with a space-free `t` yields exactly `t` |
| AuthController.BearerFirstPiece | auth-service/src/auth/auth.controller.ts:91 | `"Bearer a b"` yields `a` |
| AuthController.BearerRefusals | auth-service/src/auth/auth.controller.ts:87 | a missing, empty or lower-case `bearer` header is refused |
| AuthController.Register | auth-service/src/auth/auth.controller.ts:40-44 | passes the body to the service unchanged and returns its result |
| AuthController.Login | auth-service/src/auth/auth.controller.ts:55-57 | passes the body to the service unchanged and returns its result |
| AuthController.Refresh | auth-service/src/auth/auth.controller.ts:69-73 | passes `refresh_token` to the service unchanged and returns its result |
| AuthController.Validate | auth-service/src/auth/auth.controller.ts:84-93 | a refused header answers Unauthorized independent of the store; otherwise the answer is the service's validation of the extracted token |
| CreatePostDto.Validate | todo-service/src/posts/dto/create-post.dto.ts:9-20 | a body passes exactly when title is a string of three or more characters and content a non-empty string |
| CreatePostDto.Rejections | todo-service/src/posts/dto/create-post.dto.ts:9-19 | empty title, `"ab"`, empty content, absent or non-string fields are rejected |
| UpdatePostDto.Validate | todo-service/src/posts/dto/update-post.dto.ts:9-20 | a patch passes exactly when each field is absent or a string and a present title has three or more characters |
| UpdatePostDto.Examples | todo-service/src/posts/dto/update-post.dto.ts:9-20 | the empty patch passes; a short title fails; a long one passes; any content, even empty, passes |
| RegisterDto.Validate | auth-service/src/auth/dto/register.dto.ts:9-19 | a body passes exactly when the email is a well-formed string and the password a string of six or more characters |
| RegisterDto.PasswordLength | auth-service/src/auth/dto/register.dto.ts:17-18 | with a good email, passing is equivalent to a password of at least six characters; six passes; a non-string fails |
| RegisterDto.BadEmailRejected | auth-service/src/auth/dto/register.dto.ts:9 | a malformed email is rejected whatever the password |
| Posts.Assign | todo-service/src/posts/posts.service.ts:72-73 | a present patch field overwrites the post's, an absent one keeps it; id, owner and creation time are kept and `updated_at` becomes `now` |
| Posts.PatchIdempotent | todo-service/src/posts/posts.service.ts:72-73 | sending the same patch twice equals sending it once, up to `updated_at`; the empty patch changes only `updated_at` |
| Posts.NewestExists | todo-service/src/posts/posts.service.ts:38-40 | a non-empty set of posts has a newest one |
| Posts.ListNewest | todo-service/src/posts/posts.service.ts:38-40 | appending the newest remaining post keeps the listing complete, duplicate-free and newest first |
| Posts.PatchKeepsTitleLength | todo-service/src/posts/posts.service.ts:72 | applying a validated patch keeps a title of at least three characters |
| Posts.PatchMayEmptyContent | todo-service/src/posts/posts.service.ts:72 | a validated patch can empty a post's content |
| Posts.PostsService.Create | todo-service/src/posts/posts.service.ts:22-34 | stores one new post with the dto's title and content, the caller as owner, under a fresh id; nothing else changes |
| Posts.PostsService.FindAll | todo-service/src/posts/posts.service.ts:36-41 | returns every stored post exactly once, with `created_at` non-increasing |
| Posts.PostsService.FindOne | todo-service/src/posts/posts.service.ts:43-54 | returns the stored post, or NotFound exactly when the id is absent |
| Posts.PostsService.Update | todo-service/src/posts/posts.service.ts:56-77 | NotFound before the ownership check, Forbidden for a non-owner, both with the table unchanged; the owner's patch overwrites only its present fields, keeping id, owner, creation time and all other posts |
| Posts.PostsService.Remove | todo-service/src/posts/posts.service.ts:79-93 | NotFound, then Forbidden for a non-owner, both deleting nothing; the owner's call deletes exactly that post |
| AuthGuard.Activate | todo-service/src/guards/auth-guard.ts:21-58 | a request is admitted exactly when its header is present with the exact `"Bearer "` prefix and the remote call answers with a response, and then with that response's data |
| AuthGuard.CheckHeader | todo-service/src/guards/auth-guard.ts:25-33 | a missing or empty header is `Token is missing`, one without the exact `"Bearer "` prefix `Invalid token format`; otherwise the header is forwarded as is |
| AuthGuard.MapOutcome | todo-service/src/guards/auth-guard.ts:45-56 | a response admits with its data; status 401 is `Invalid token`; any other status or no response is `Token validation failed` |
| AuthGuard.NoRemoteCallOnBadHeader | todo-service/src/guards/auth-guard.ts:25-33 | a refused header is answered without depending on the remote call |
| AuthGuard.ForwardsHeaderUnchanged | todo-service/src/guards/auth-guard.ts:39-43 | the remote call receives the incoming header unchanged and its outcome decides |
| AuthGuard.OnlyUnauthorized | todo-service/src/guards/auth-guard.ts:21-58 | every refusal is one of the four Unauthorized errors |
| AuthGuard.CanActivate | todo-service/src/guards/auth-guard.ts:21-58 | returns `true` and sets `request.user` to the response data, or an Unauthorized error with `request.user` untouched; never `false` |
| Deployment.ValidateEndpoint | auth-service/src/auth/auth.controller.ts:84-93 | over HTTP the endpoint answers either a response or status 401, and a response exactly for a bearer header whose token validates |
| Deployment.GuardAdmitsValidatedUsers | todo-service/src/guards/auth-guard.ts:39-56 | against the real validate endpoint the guard admits exactly bearer headers whose token validates, with the token's `sub` as user id and the current email of that user |
| Deployment.RegisteredUserAdmitted | todo-service/src/guards/auth-guard.ts:39-48 | the access token from a registration is admitted by the guard as the new user |

## Left out

- JWT signing, verification and expiry checks (RFC 7519, HMAC, the `ms` reading of `expiresIn`) and bcrypt hashing are function values. Only `AuthModel.Sound` is assumed of them, and only where a lemma says so.
- The clock is one reading `now` per request. The source reads the time separately for the expiry comparison, for the row's `expires_at` and inside the JWT library.
- The bcrypt salt is random and is passed in as a parameter.
- Expiry.ParseInt: modelled without leading white space, and its values are exact integers, while JavaScript numbers lose precision above 2^53.
- Expiry.ParseExpiry: the products are exact integers as well; in JavaScript they are floating-point numbers, exact only up to 2^53.
- A refresh lifetime that does not parse (NaN) is excluded by a precondition on the service (`AuthModel.ConfigValid`).
- The `UsersService` implementation is not part of this model. A duplicate email is refused as `Conflict` with nothing created, standing for the unique column, and users are never deleted by the model's operations.
- Database failures, and the catch-all of `refreshTokens` that turns them into `Unvalid token`, are not modelled: the store cannot fail.
- When several rows match `(token, user_id)`, the database's choice for `findOne` is unspecified. The model takes the earliest saved one.
- Among posts with equal `created_at`, `findAll` leaves the order unspecified, as the database does.
- The post entity file (post.entity.ts) is not part of this model. The post fields are the ones the service uses, plus `updated_at`, which each save sets to `now`.
- Concurrency between requests is not modelled, nor is the window between deleting and saving a refresh row.
- The HTTP call of the guard is the parameter `remote`. Logging, Swagger decorators, module wiring, routing in posts.controller.ts, the seed scripts and the test suites are left out.
- `ValidationPipe` and `ParseIntPipe` plumbing is left out. So are whitelisting and extra body properties reaching `Object.assign`.
- JSON `null` field values, which `IsOptional` also skips, are not modelled.
- The `IsEmail` format test is a parameter.
- String lengths count Dafny characters, not UTF-16 code units.
- AuthProperties.RefreshIsSingleUse: assumes the presented token was on exactly one row. Identical tokens issued within the same instant make duplicate rows, and then one more exchange succeeds (AuthProperties.RefreshConsumesOneMatch gives the exact count).
