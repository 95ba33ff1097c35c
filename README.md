# Token-version revocation in jwt-graphql-auth, modelled in Dafny

The server registers users with bcrypt-hashed passwords. A login issues two tokens: an
access token, returned in the response, and a refresh token, set as the `jid` cookie.
Each user row carries a `tokenVersion` counter, and every refresh token holds a snapshot
of it. The `/refresh_token` route serves a new token pair only when the presented
cookie's snapshot still equals the row's current version. The mutation
`revokeRefreshTokensForUser` adds one to the counter, which outdates every refresh
token issued before it.

Modules, one file each:

- `wrappers.dfy` (`Wrappers`): `Option` and `Result`.
- `js.dfy` (`Js`): covers three things.
  - The JavaScript values a decoded payload can hold.
  - Reading a property that may be missing, which gives `undefined`.
  - The string conversion a template literal applies, together with its decimal round trip.
- `user_store.dfy` (`UserStore`): covers the user table.
  - The `User` row, the table as a value (`Store`), and its invariant: ids come from a serial counter and emails are unique.
  - The insert and the increment.
  - Sequences of mutations, with the lemmas that versions only grow.
  - The `UserTable` class that the resolvers update in place.
- `auth.dfy` (`Auth`): bcrypt and jsonwebtoken as uninterpreted function values (`Crypto`), plus the payloads of the two token kinds.
- `http.dfy` (`Http`): the response object, recording the `jid` cookie that was set and the body that was sent.
- `user_resolver.dfy` (`UserResolver`): `register`, `login`, `revokeRefreshTokensForUser` and `bye`.
- `refresh_route.dfy` (`RefreshRoute`): the guard chain of `/refresh_token` and its handler.
- `revocation.dfy` (`Revocation`): lemmas that span several operations (rotation, revocation, non-interference).

The version check at `server/src/index.ts:44` reads `payload.tokenVerion`, which is
misspelt. `Decide` and the handler `RefreshToken` take the payload key as a parameter. With
the misspelt key they model the route as written. With `tokenVersion` they model the
evidently intended check, which the cross-operation lemmas in `Revocation` use (see
Findings).

## Model

| member | source | states |
|---|---|---|
| `UserStore.Insert` | server/src/UserResolver.ts:42-45 | The insert adds exactly one row, under the next serial id, with version 0 and the given hash. Existing rows are kept and the table invariant is preserved. |
| `UserStore.Increment` | server/src/UserResolver.ts:83 | The matching row's `tokenVersion` goes up by exactly 1. Every other row and every other field stays the same. A missing id leaves the table unchanged. |
| `UserStore.FindById` | server/src/index.ts:37 | A row is found exactly when the payload's `userId` is a number that keys a row, and the result is that row. |
| `UserStore.FindByEmail` | server/src/UserResolver.ts:60 | A row is found exactly when some row has that email, and the result is such a row. |
| `UserStore.Apply` | server/src/UserResolver.ts:34-86 | Each mutation, including a failed insert, keeps the table invariant. It keeps every row's id, email and password and never lowers a version. |
| `UserStore.Run` | server/src/UserResolver.ts:34-86 | Any sequence of mutations keeps the table invariant. |
| `UserStore.VersionsNeverDecrease` | server/src/UserResolver.ts:83 | Across any sequence of mutations, no row is deleted or has its account fields altered, and no `tokenVersion` decreases. |
| `UserStore.RevokeOutdatesSnapshot` | server/src/UserResolver.ts:80-86 | After a revoke of a user, that user's version is above its pre-revoke value whatever follows, so an earlier snapshot never matches again. |
| `UserStore.UntouchedWithoutRevoke` | server/src/UserResolver.ts:34-86 | A row changes only through a revoke of its own id. |
| `Auth.AccessClaims` | server/src/UserResolver.ts:75 | An access-token payload carries the user id and no version. |
| `Auth.RefreshClaims` | server/src/UserResolver.ts:72 | A refresh-token payload carries the user id and a snapshot of its version, and has no `tokenVerion` key. |
| `UserResolver.Authenticate` | server/src/UserResolver.ts:60-70 | The result is 'could not find user' exactly when no row has the email. It is 'invalid password' exactly when the row exists and `compare` rejects. Otherwise it is that row, and its stored hash accepts the password. |
| `UserResolver.Register` | server/src/UserResolver.ts:34-52 | Returns true exactly when the insert succeeds (no duplicate email, no storage fault). The table is unchanged on false. On true the new row stores `hash(password, 12)`. |
| `UserResolver.Login` | server/src/UserResolver.ts:54-77 | On failure it raises the `Authenticate` error, whose message is 'could not find user' when no row has the email and 'invalid password' otherwise, and sets no cookie. On success it sets the refresh cookie and returns the access token, both built from the found user. The table is never written. |
| `UserResolver.RegisteredUserCanLogIn` | server/src/UserResolver.ts:39-70 | After a successful register, logging in with the same credentials finds exactly the inserted row, provided bcrypt accepts a password against its own hash. |
| `UserResolver.RevokeRefreshTokensForUser` | server/src/UserResolver.ts:79-86 | Always returns true. The user's version goes up by 1 and every other row stays the same, including when no row has that id. |
| `UserResolver.Bye` | server/src/UserResolver.ts:23-27 | Requires the payload that isAuth provides. The message starts with `your user id is `. |
| `UserResolver.ByeNamesUser` | server/src/UserResolver.ts:26 | For an access-token payload, the rest of the `bye` message reads back as the user's id. |
| `Js.TemplateString` | server/src/UserResolver.ts:26 | A number renders in decimal and a string renders as itself. |
| `RefreshRoute.Decide` | server/src/index.ts:20-47 | Grants exactly when all four checks pass: the cookie is present and non-empty, `verify` succeeds, the payload's `userId` is a number keying a row, and the payload field under the given key equals that row's version. A grant is for that row. A missing or empty cookie, or a failed `verify`, denies. |
| `RefreshRoute.Respond` | server/src/index.ts:23-50 | `ok` is true exactly on a grant. A denial sets no cookie and sends `{ok:false, accessToken:''}`. A grant sets a refresh cookie and returns an access token for the granted user. |
| `RefreshRoute.RefreshToken` | server/src/index.ts:19-51 | For the payload key it is given, the handler's body and cookie are exactly what `Respond` gives for `Decide` with that key, and the user table is left unchanged. With `tokenVerion` this is the handler as written. |
| `RefreshRoute.DenialsIndistinguishable` | server/src/index.ts:23-46 | Any two denials give the same reply, whichever check failed. |
| `RefreshRoute.AsWrittenNeedsMisspeltKey` | server/src/index.ts:44-46 | As written, any cookie whose verified payload lacks the `tokenVerion` key is denied, whatever the table holds. |
| `RefreshRoute.AsWrittenDeniesIssuedTokens` | server/src/index.ts:44-46 | As written, the route denies every token whose payload is a refresh-token payload, whatever the table holds. |
| `RefreshRoute.GrantsExactlyCurrentSnapshot` | server/src/index.ts:37-50 | With the intended key, a refresh token is granted exactly when its user exists and its snapshot equals the current version, and then for that row. |
| `RefreshRoute.MisspeltClaimRefusesFreshToken` | server/src/index.ts:44-45 | Concrete case: user 1 at version 0 presents its own refresh token. The route as written refuses it and the corrected route grants it. |
| `Revocation.IssuedTokenRotates` | server/src/index.ts:49-50 | With the corrected key, a still-verifying refresh token for a current row yields a refresh cookie built from the current row and an access token for that row. |
| `Revocation.LoginCookieRedeemable` | server/src/UserResolver.ts:72 | The cookie that a successful login sets is granted by the refresh route with the corrected key, on the same table. |
| `Revocation.RevokedTokenRefused` | server/src/UserResolver.ts:83 | With the corrected key, a refresh token with a snapshot taken before a revoke of its user is refused after it, even though it still verifies. |
| `Revocation.OtherMutationsKeepToken` | server/src/index.ts:44 | With the corrected key, registrations and revokes of other users do not invalidate a user's refresh token. |

## Findings

| source | as written | input that shows it | evidently intended | confidence | as-written member | corrected member |
|---|---|---|---|---|---|---|
| server/src/index.ts:44 | `user.tokenVersion !== payload.tokenVerion` reads a key that refresh tokens do not carry, so the value is `undefined` and the route always fails | user 1 at version 0 presents its own refresh token `{userId: 1, tokenVersion: 0}` | compare with `payload.tokenVersion`, as the log line on line 45 does | high; not executed | `RefreshRoute.MisspeltClaimRefusesFreshToken` | `RefreshRoute.GrantsExactlyCurrentSnapshot` |

`RefreshRoute.AsWrittenNeedsMisspeltKey` and `RefreshRoute.AsWrittenDeniesIssuedTokens`
generalise the as-written half to every payload without that key, and so to every token
the server issues. The handler `RefreshRoute.RefreshToken` takes the key as a parameter;
the lemmas in `Revocation` use the corrected key.

## Left out

- JWT signing, verification and the expiry clock are opaque. `Crypto.sign` and `Crypto.verify` are function values, and `verify` stands for a check at one moment in time. The `./auth` token module is not part of this model. The two payloads follow its documented shapes; `iat` and `exp` are omitted.
- bcrypt internals are opaque: `hash` (with cost 12) and `compare` are function values. bcrypt's random salt is folded into the `hash` value that the caller supplies.
- The `User` entity file is not part of this model. `tokenVersion` is an unbounded natural number starting at 0, so the database integer column's overflow is not modelled. Email uniqueness is taken to be a database constraint.
- Storage failures other than the email uniqueness violation appear only as the `storageFault` parameter of `Register`. The increment's atomicity under concurrent requests is not modelled: operations run one at a time.
- `UserStore.FindById`: the lookup treats a `userId` that is not a number as matching no row. TypeORM's treatment of an `undefined` criterion is not modelled.
- `UserResolver.Login`: the order between setting the cookie and returning the access token is not observable in the model.
- The `sendRefreshToken` cookie attributes and the `isAuth` middleware are not part of this model. For `bye`, isAuth appears only as the precondition that a payload is present.
- JavaScript numbers are modelled as integers. Without NaN or floats, `!==` on payload values is structural inequality.
- Left out as framework wiring: the Express and Apollo bootstrapping, the `/` route, the listen port, the database connection, console logging, and the `hello` and `users` queries.
