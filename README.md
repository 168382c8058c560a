# Sessions, the auth gate and owner-scoped items of go_auction_api

A Dafny model of the core of an auction REST backend written in Go. The core covers:

- **Accounts and tokens.** Users are created with a bcrypt hash of their password. Login issues an HS256-signed access token and a refresh token that carry the user's id and email. The refresh token is stored in a `refresh_tokens` table keyed by user id, so at any time one refresh token per user is accepted by the refresh endpoint. A superseded refresh token is refused there, but it still opens the auth gate until it expires.
- **Refresh with rotation.** `getNewAccessToken` checks the presented refresh token, looks up its holder in the store, cross-checks the holder against the claims and issues a new pair. The new refresh token replaces the old one in the store.
- **The auth gate.** `AuthMiddleware` reads the `Auth-Token` header, verifies the token and resolves the user by the email claim. It then sets `"user"` on the request context and calls the next handler.
- **Items.** `canUserAddItem` lets a user create items when their type id equals the id of the last `SELLER` entry in the user-type list. When the list has no `SELLER` entry, that id is 0, so users whose type id is 0 may create items. Every per-item query is scoped to its owner (`WHERE id = .. AND user_id = ..`). An uploaded file is stored as `<itemId>_<filename>` under `./uploads`.

Modules and files:

| file | module | models |
|---|---|---|
| `wrappers.dfy` | `Wrappers` | `Option`, `Result` |
| `errors.dfy` | `Errors`, `Http` | the error values; statuses, bodies, the request context |
| `settings.dfy` | `Settings` | configuration; clock, salt and foreign failures as inputs |
| `models.dfy` | `Models` | `User`, `UserType`, `Item`, `ItemComment`, Go's `int32()` |
| `jwt.dfy` | `Jwt` | signing and `ParseWithClaims` of golang-jwt v5 |
| `bcrypt.dfy` | `Bcrypt` | `GenerateFromPassword`, `CompareHashAndPassword` |
| `user_repository.dfy` | `UserStore` | `repository/repositories/user-repository.go` |
| `users_service.dfy` | `UsersService` | `services/users-service.go` |
| `users_routes.dfy` | `UsersRoutes` | login and refresh handlers of `server/routes/users-routes.go` |
| `auth_middleware.dfy` | `Middleware` | `server/middleware/auth-middleware.go` |
| `sessions.dfy` | `Sessions` | properties of login, refresh and the gate together |
| `item_repository.dfy` | `ItemStore` | `repository/repositories/item-repository.go` |
| `items_service.dfy` | `ItemsService` | `services/items-service.go` |

Modelling choices:

- **Time** is Unix seconds. A token issued at `now` with a lifetime of `m` minutes expires at `now + 60*m`. The handlers pass the configured lifetime to the four-argument `GetJWT` as `time.Duration(minutes)` (users-routes.go:122, 178). As a bare Duration that value is that many nanoseconds. The model assumes the unseen four-argument `GetJWT` multiplies it by `time.Minute`, as the shown form does with its 5 (users-service.go:67). It is valid while `now < exp`, which is jwt v5's check.
- **Clock readings.** Each `time.Now()` in the source is its own reading, so a request carries one per issuance. `Env.now` is used for the token check, the access token and a new account's `LastLoginUtc`. `Env.refreshNow` is used for the refresh token, which `GetRefreshToken` signs after a later `time.Now()` that can fall in a later second. `Env.dbNow` is the database's `now()`, which stamps `created_at` on the stored refresh token at the database's own precision.
- **Tokens.** A token string is either a compact signed token or some other text. A signed token is kept as its algorithm, its claims and the key its MAC was computed with. The MAC itself is ideal: it verifies under a key exactly when it was made with that very key. "## Left out" gives what this does not capture. The parser checks the signature before the expiry. HS256, HS384 and HS512 verify with a byte key; `none` and RSA tokens do not.
- **bcrypt.** The hash is `$2a$10$` followed by a 22-character salt and a 31-character digest. The salt is drawn per request (`Env.salt`). The digest function is fixed for the server's lifetime (`Config.bcrypt`), so a hash made at sign-up checks at every later login. The digest sees only the first 72 bytes of the password (`Bcrypt.KeyBytes`), because bcrypt's key schedule reads no further. Hashing fails for passwords over 72 bytes, but comparing does not check the length. Every comparison error counts as "no match".
- **Strings and numbers.** Go strings are `string` with one character per byte. `float64` prices are `real`. `int32(x)` wraps modulo 2^32.
- **Tables.** The users table is a sequence of rows; a single-row query returns the first match, and emails are unique. `refresh_tokens` is a map from user id to token. `items` and `item_comments` are maps from serial id to row.
- **Foreign failures.** A failure of the signing call or of the refresh-token write is an input flag (`Env.signingFails`, `Env.storeFails`). The file-system steps of an upload are passed in as their outcomes.
- **Handlers.** Each handler is a function from the request and the tables to the response and the new refresh-token table. A method runs the same chain against the repository and is proved equal to that function.

Behaviour of the code that a client of such a service might not expect. The model keeps each one as written:

- The auth gate reads a bare `Auth-Token` header. It does not read an `Authorization: Bearer` header.
- The auth gate answers 500 to every token that fails to parse, an expired one included. An expired token gets no answer of its own that would send the client to the refresh endpoint.
- Signing failures are answered as client errors. Login returns 401 when signing the access token fails (users-routes.go:123-128), and so does refresh (users-routes.go:179-184). Neither is reported as a server fault.
- The refresh cross-check rejects only when both the email and the id differ (`&&`), not when either differs. `UsersRoutes.CrossCheckNeverFires` shows it cannot fire while stored tokens name their owners.
- Nothing in a token marks it as an access or a refresh token. A refresh token therefore passes the auth gate (`Sessions.RefreshTokenOpensGate`).
- Tokens do not always rotate. HS256 signing is deterministic and `exp` has whole seconds. A token therefore depends only on the user, the key, its lifetime and the second in which its own issuance read the clock.
  - A second login whose two issuances fall in the same seconds as the first login's returns the first login's tokens again. The store keeps the same token, and only its `created_at` moves. The first refresh token stays usable (`Sessions.SameSecondLoginRepeatsTokens`).
  - A refresh whose issuances fall in the same seconds as the login's returns the same pair and stores the same token (`Sessions.SameSecondRefreshRepeatsTokens`).
  - With equal access and refresh lifetimes, one login's two tokens are identical exactly when its two issuances read the clock in the same second (`Sessions.EqualLifetimesGiveOneToken`).
  - Rotation holds only when the refresh issuances fall in different seconds. So does the refusal of the earlier login's refresh token (`Sessions.SecondLoginSupersedesFirst`, `Sessions.RotationScenario`). The refresh endpoint accepts at most one refresh token per user at any time, since `refresh_tokens` holds one token per user id. In the same second, though, the new token is the old one.
- A password longer than 72 bytes cannot be set at sign-up. At login, though, only its first 72 bytes are compared. An account whose password is exactly 72 bytes also logs in with that password followed by anything (`Sessions.LongerPasswordLogsIn`).
- The shown `GetJWT` takes two arguments and hard-codes five minutes. Its callers in `users-routes.go` pass a lifetime and a skip-password flag. `GetRefreshToken` (users-routes.go:130, 186) and the service's `GetUserByRefreshToken` (users-routes.go:164) are called but not shown. So is `userService.GetUserByEmail`, which the auth middleware calls (auth-middleware.go:32); `services/users-service.go` defines no such method. The model uses the four-argument form. The two-argument form is the case `minutes = 5, skip = false`. `GetRefreshToken` is modelled as issuing like `GetJWT` with the refresh lifetime, then calling `AddOrUpdateRefreshToken` for the user. The service's `GetUserByRefreshToken` is modelled as the repository's join of the same name (user-repository.go:106-118), returning an error exactly when the join finds no row. The middleware's `GetUserByEmail` is modelled as the repository's `GetUserByEmail` (user-repository.go:76-87), with no user exactly when no row has the email.
- The signing secret is spelt two ways. The refresh handler reads `cfg.SecretKey` (users-routes.go:150). The service and the middleware read `cfg.SECRET_KEY` (users-service.go:78, auth-middleware.go:25). The `Config` in `internal/config/config.go` has neither field, nor any token lifetime. The model reads one `Config.secretKey` everywhere.
- `repository/models/user.go` has no `PasswordHash` or `UserTypeId` field, and `internal/errors/errors.go` lacks some of the errors the handlers return. The model gives `User` the fields the services read, and takes the error values the handlers name.

## Model

| member | source | states |
|---|---|---|
| Models.ToInt32 | services/items-service.go:92 | the conversion is the identity on the int32 range and is congruent to its input modulo 2^32 |
| Jwt.ParseWithClaims | server/routes/users-routes.go:147-161 | a token is valid iff it is an HMAC token whose MAC was made with the key and it has not reached its exp (or has none); it is expired iff correctly signed but exp <= now; valid claims are the token's own |
| Jwt.SignedThenParsed | services/users-service.go:67-84 | a token signed here with expiry exp reads back its claims while now < exp and is expired from then on |
| Jwt.ForeignKeyIsInvalid | server/middleware/auth-middleware.go:23-30 | a token signed with another key is Invalid at every time, never Expired |
| Bcrypt.KeyBytes | services/users-service.go:95-98 | the bytes the key schedule reads are a prefix of the password of at most 72 bytes: the whole password when it has at most 72 bytes, otherwise exactly its first 72 |
| Bcrypt.GenerateFromPassword | services/users-service.go:87-93 | fails with PasswordTooLong iff the password exceeds 72 bytes; otherwise the hash is 60 characters with prefix $2a$10$, the drawn salt and the digest of salt and password |
| Bcrypt.CompareHashAndPassword | services/users-service.go:95-98 | no error iff the hash is well formed and the digest of its salt and the password's first 72 bytes equals its stored digest; no length check |
| Bcrypt.ComparisonIgnoresBytesPast72 | services/users-service.go:95-98 | a password over 72 bytes matches exactly the hashes its 72-byte prefix matches |
| Bcrypt.LongerPasswordMatches | services/users-service.go:87-98 | a hash made from a 72-byte password accepts that password with anything appended |
| Bcrypt.GeneratedHashMatches | services/users-service.go:87-98 | a password compares equal to any hash generated from it |
| Bcrypt.GeneratedHashDiffers | services/users-service.go:42-51 | a generated hash has 60 characters and differs from the password unless the password itself has a hash's shape |
| UserStore.GetUserByEmail | repository/repositories/user-repository.go:76-87 | a found user is in the table with that email; no result means no user has that email |
| UserStore.GetUserByRefreshToken | repository/repositories/user-repository.go:106-118 | a found user is in the table and holds the token in refresh_tokens; no result means no user holds it |
| UserStore.EmailLookupFindsTheUser | repository/repositories/user-repository.go:76-87 | with unique emails, looking up a stored user's email returns that user |
| UserStore.UpsertThenLookup | repository/repositories/user-repository.go:89-118 | after the upsert stores a token for a user, the join finds that user by the token (ids distinct, no other holder) |
| UserStore.UpsertSupersedes | repository/repositories/user-repository.go:89-104 | after a second upsert for a user, the token it replaced no longer leads to that user |
| UserStore.UserRepository.CreateUser | repository/repositories/user-repository.go:45-74 | stamps LastLoginUtc on the caller's record; a duplicate email fails and changes nothing; otherwise the row is appended with a fresh id; the table invariant is kept |
| UserStore.UserRepository.AddOrUpdateRefreshToken | repository/repositories/user-repository.go:89-104 | inserts or replaces the user's token and leaves every other user's row alone; a driver failure is returned and changes nothing |
| UsersService.HashPassword | services/users-service.go:87-93 | fails iff the password exceeds 72 bytes; a produced hash is non-empty and checks against the password |
| UsersService.CheckPasswordHash | services/users-service.go:95-98 | true iff the hash is well formed and the digest of the password's first 72 bytes under its salt matches |
| UsersService.SignedIsIssuedFor | services/users-service.go:69-78 | the signed claims of a user with expiry exp parse as that user's id and email until exp, then as expired |
| UsersService.GetJWT | services/users-service.go:57-85 | NotFound iff no user has the email; Unauthorized iff the user exists, the check is not skipped and the password does not match; InternalServer only on a signing failure; on success the token names the stored user and expires minutes*60 seconds after issuance |
| UsersService.ShownGetJWTLivesFiveMinutes | services/users-service.go:67 | the shown GetJWT's token is valid 299 seconds after issuance and expired at 300 |
| UsersService.IssueRefreshToken | server/routes/users-routes.go:130-135 | on success the token names the user for the refresh lifetime counted from the refresh issuance's own clock reading, and becomes the user's stored token with the database's now() as created_at; on any failure the token is empty and the store unchanged |
| UsersService.GetRefreshToken | server/routes/users-routes.go:186-191 | its result and the new store are those of IssueRefreshToken |
| UsersService.CreateUser | services/users-service.go:42-51 | a password over 72 bytes fails and changes nothing; otherwise the caller's record gets a non-empty hash that checks against the old password, and the repository's CreateUser outcome follows |
| UsersRoutes.LoginFlow | server/routes/users-routes.go:111-141 | the status is one of 200, 400, 401, 500; the answer is 400 BadRequest exactly when the body cannot be bound; a failed login stores nothing |
| UsersRoutes.RefreshFlow | server/routes/users-routes.go:143-197 | the status is one of 200, 401, 500, and a failed refresh stores nothing |
| UsersRoutes.LoginUser | server/routes/users-routes.go:111-141 | the response and the new store are those of LoginFlow |
| UsersRoutes.GetNewAccessToken | server/routes/users-routes.go:143-197 | reads the Refresh-Token header; the response and the new store are those of RefreshFlow |
| UsersRoutes.LoginHidesWhichCheckFailed | server/routes/users-routes.go:122-128 | an unknown email and a wrong password get the identical 401 response and store nothing |
| UsersRoutes.LoginSucceeds | server/routes/users-routes.go:111-141 | login succeeds iff the email is stored, the password matches and neither signing nor the store fails; then the access token names the user for its lifetime from the access issuance's clock reading, the refresh token for its lifetime from the refresh issuance's reading, and the refresh token is stored for that user with the database's now() |
| UsersRoutes.LoginServerErrors | server/routes/users-routes.go:130-135 | a 500 happens iff the credentials are good, signing works and the store write fails; a signing failure gives the same 401 as bad credentials |
| UsersRoutes.RefreshParseFailures | server/routes/users-routes.go:147-161 | an expired token gets 401 TokenExpired; every other parse failure, an empty header included, gets 401 Unauthorized; nothing is stored |
| UsersRoutes.RefreshRejectsUnheldToken | server/routes/users-routes.go:163-169 | a valid token that no user holds in the store gets 401 and stores nothing |
| UsersRoutes.RefreshSucceeds | server/routes/users-routes.go:143-197 | refresh succeeds iff the token parses, some user holds it, the email or the id matches, and neither signing nor the store fails; the new tokens name the holder, each with its lifetime from its own issuance's clock reading, and the new refresh token replaces the old one |
| UsersRoutes.CrossCheckNeedsBothToDiffer | server/routes/users-routes.go:171-176 | a held token is rejected by the cross-check when both email and id differ from the holder's; if either matches and nothing fails, the refresh succeeds |
| UsersRoutes.RefreshServerErrors | server/routes/users-routes.go:178-191 | after the token checks pass, a 500 happens iff signing works and the refresh-token write fails; a signing failure of a valid token's refresh is 401; neither stores anything |
| UsersRoutes.IssuedForNamesUser | services/users-service.go:69-78 | an issued token is the HMAC-signed form of the user's id, email and expiry under the key |
| UsersRoutes.LoginKeepsTokensNamingOwners | server/routes/users-routes.go:130-140 | login keeps the invariant that every stored refresh token names the user it is stored for |
| UsersRoutes.RefreshKeepsTokensNamingOwners | server/routes/users-routes.go:186-196 | refresh keeps the same invariant |
| UsersRoutes.CrossCheckNeverFires | server/routes/users-routes.go:171-176 | while the invariant holds, the cross-check never rejects a held token |
| UsersRoutes.SupersededTokenRefused | server/routes/users-routes.go:163-169 | a token naming a user that is not that user's stored token gets 401 and stores nothing |
| Middleware.AuthGate | server/middleware/auth-middleware.go:15-40 | admits only a non-empty token that parses as valid, and then the admitted user is in the table with the token's email; a valid token whose email matches no user is 401 Unauthorized |
| Middleware.AuthMiddleware | server/middleware/auth-middleware.go:15-40 | a rejection is returned and the context is unchanged; on admission "user" is set to the resolved user and the next handler runs once |
| Middleware.GateChecksTokenBeforeLookup | server/middleware/auth-middleware.go:16-30 | an empty header is 401 and any parse failure, expired included, is 500, whatever the users table holds |
| Middleware.GateResolvesByEmailOnly | server/middleware/auth-middleware.go:32-37 | the id claim plays no part; with unique emails a valid token admits exactly the user with its email |
| Sessions.SecondLoginSupersedesFirst | repository/repositories/user-repository.go:89-104 | after two logins by the same user whose refresh issuances read different seconds, the first refresh token is refused at any later time and stores nothing |
| Sessions.StoredTokenFindsOwner | repository/repositories/user-repository.go:106-118 | a token naming a user that was just stored for that user finds that user |
| Sessions.RotationScenario | server/routes/users-routes.go:143-197 | login, then a refresh before the login's refresh token expires whose access and refresh issuances each read a later second than the login's, gives a new, different pair; the old refresh token is then refused; the new one works while alive; the new access token passes the auth gate as the same user |
| Sessions.SameSecondLoginRepeatsTokens | services/users-service.go:67-84 | a second login whose issuances read the same seconds as the first's returns the first login's response and stores the same token, only created_at moving; the first refresh token keeps working while it lives |
| Sessions.SameSecondRefreshRepeatsTokens | server/routes/users-routes.go:178-196 | a refresh whose issuances read the same seconds as the login's returns the login's response again and stores the same token, only created_at moving |
| Sessions.EqualLifetimesGiveOneToken | server/routes/users-routes.go:122-140 | with equal access and refresh lifetimes, a login's access token and refresh token are the same iff its two issuances read the same second |
| Sessions.LoginAfterSignup | services/users-service.go:42-51 | a user whose stored hash was made from a password at sign-up logs in with that password at any later request, unless signing or the store fails |
| Sessions.LongerPasswordLogsIn | services/users-service.go:87-98 | an account whose sign-up password had 72 bytes logs in with that password followed by anything, though sign-up refuses such a password |
| Sessions.RefreshTokenOpensGate | server/middleware/auth-middleware.go:23-37 | a refresh token from a successful login passes the auth gate as its user until it expires, superseded or not |
| ItemStore.UpdateRow | repository/repositories/item-repository.go:93-121 | only the caller's own row changes: title, price and description are replaced, owner and sold price kept, and the returned row reports a nil sold price as 0; for any other (id, user) nothing changes and the zero item comes back |
| ItemStore.DeleteRow | repository/repositories/item-repository.go:123-147 | the row is removed iff the caller owns it; otherwise NotFound and the table is unchanged |
| ItemStore.OwnerScopedWrites | repository/repositories/item-repository.go:93-147 | updates and deletes by a user never change or remove another user's rows |
| ItemStore.ItemRepository.GetItemsList | repository/repositories/item-repository.go:34-45 | returns exactly the rows the user owns, each once |
| ItemStore.ItemRepository.GetAllItems | repository/repositories/item-repository.go:149-160 | returns every row, each once |
| ItemStore.ItemRepository.CreateItem | repository/repositories/item-repository.go:47-78 | stores the caller's user id, title, price and description under a fresh id with a null sold price; the returned item reports it as 0 |
| ItemStore.ItemRepository.GetItemById | repository/repositories/item-repository.go:80-91 | returns the stored row iff both the id and the owner match, otherwise no rows |
| ItemStore.ItemRepository.UpdateItem | repository/repositories/item-repository.go:93-121 | the new table and the returned row are those of UpdateRow |
| ItemStore.ItemRepository.DeleteItem | repository/repositories/item-repository.go:123-147 | the new table and the error are those of DeleteRow |
| ItemStore.ItemRepository.CreateItemComment | repository/repositories/item-repository.go:162-190 | stamps CreatedAt on the caller's comment, then inserts it under a fresh id and returns the new row |
| ItemsService.LastSellerWins | services/items-service.go:88-97 | the seller type id is the int32 of the last SELLER entry, or 0 when there is none |
| ItemsService.CanUserAddItem | services/items-service.go:88-97 | true iff the user's type id equals the seller type id |
| ItemsService.CreateItem | services/items-service.go:61-74 | a user-type listing error is passed on and a non-seller gets IncorrectUserRole, both without touching the item table; a seller's item is created by the repository under the next id, which then advances by one |
| ItemsService.GetItemsList | services/items-service.go:53-55 | passes on exactly the caller's rows |
| ItemsService.GetAllItems | services/items-service.go:57-59 | passes on every row |
| ItemsService.GetItemById | services/items-service.go:76-78 | passes arguments and result through unchanged |
| ItemsService.UpdateItem | services/items-service.go:80-82 | passes arguments and result through unchanged |
| ItemsService.DeleteItem | services/items-service.go:84-86 | passes arguments and result through unchanged |
| ItemsService.CreateItemComment | services/items-service.go:99-101 | passes arguments and result through unchanged |
| ItemsService.NatToStringInjective | services/items-service.go:119 | distinct natural numbers have distinct %d renderings |
| ItemsService.IntToStringInjective | services/items-service.go:119 | distinct integers have distinct %d renderings |
| ItemsService.StoredFileNameInjective | services/items-service.go:119 | the stored name <itemId>_<filename> determines both the item id and the original filename |
| ItemsService.AttachFileToItem | services/items-service.go:103-144 | open, ensure-dir, create, copy and attach run in that order, and the first failing step's error is returned; it succeeds iff every step does, and then returns ./uploads/ followed by the stored name |
| ItemsService.AttachedPathsDiffer | services/items-service.go:119-120 | successful uploads for different (item, filename) pairs return different paths |

## Left out

- `CreateBid` (services/items-service.go:146-155) sends on a channel. Concurrency is not modelled.
- Each handler is modelled as one atomic step from the old tables to the new ones. In the source, `getNewAccessToken` looks up the token's holder (users-routes.go:163-169) and writes the new token (users-routes.go:186) in separate statements, with no lock. Interleavings of concurrent requests are not covered. For example, two refreshes with the same token can both get 200, and one of the two new refresh tokens then silently stops working.
- The file I/O of `AttachFileToItem` (`file.Open`, `utils.EnsureDir`, `os.Create`, `io.Copy`) and the repository's `AttachFileToItem` are represented only by their outcomes. `internal/utils/utils.go` is not part of this model.
- Database driver failures are modelled only for the refresh-token upsert. Query errors of the item repository, the user insert and `RowsAffected` are not modelled.
- When `CreateItem`'s insert returns no row, the source returns a nil item with a nil error (item-repository.go:66-71). An insert always returns its row here, so that path is not modelled.
- `GetUsersList`, `GetUserType` and `userType-service.go` are plain queries with no logic. The user-type list reaches `ItemsService.CreateItem` as an input `Result`.
- The `createUser` handler and the item handlers in `server/routes` are binding and JSON plumbing. Only login and refresh are modelled as handlers.
- The server sets none of the registered claims `nbf`, `iat`, `aud` and `iss`. `Jwt.Claims` has no field for them. jwt v5 rejects a token whose `nbf` is still in the future, so `Jwt.ParseWithClaims` states its if-and-only-if only for tokens without `nbf`. `iat`, `aud` and `iss` are checked only under parser options the source does not pass. Clock leeway is not modelled.
- The HMAC computation and base64url encoding are abstract: a token records the key its MAC was made with.
- `Jwt.ParseWithClaims` and `Jwt.ForeignKeyIsInvalid`: the MAC is ideal. Keys that HMAC treats as equal are distinct here. Under section 2 of RFC 2104, a key shorter than the 64-byte block is padded with zero bytes, so `key` and `key` followed by zero bytes sign alike. A key longer than the block is replaced by its SHA-256 digest, so it signs like that digest. A token signed under such an equivalent key verifies in the source, but it is Invalid here. Every token the server issues is signed with `Config.secretKey`, so no flow of the model depends on this.
- `UsersRoutes.RefreshFlow`: the token check and the access issuance of one refresh request share one clock reading, `Env.now`. In the source they are separate `time.Now()` calls. A check in one second followed by an issuance in the next cannot be represented.
- Bcrypt's Blowfish core, costs other than 10 and versions other than `$2a$` are not modelled. For passwords of 72 bytes or fewer, the digest is an abstract function of the salt and the password. The Go code appends a NUL byte and cycles the key, and that is folded into the abstract function.
- Configuration loading, logging and the server start-up are not modelled.
- `UsersService.GetJWT`: does not model the two-argument form's own body separately. It is the four-argument form with 5 minutes and no skipped check, as `ShownGetJWTLivesFiveMinutes` states.
- `UsersService.CreateUser`: proves `hash != password` only when the password does not already have a hash's shape. Nothing stronger follows from an abstract digest.
- `ItemStore.ItemRepository.GetItemsList` and `ItemStore.ItemRepository.GetAllItems`: do not state the order of the rows, which SQL leaves unspecified.
