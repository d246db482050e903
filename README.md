# Token lifecycle and rate limiting of axiomatrix-org/toolchain, in Dafny

This project models two Go packages, and proves properties of the model.

- `jwt`: issues HS256-signed JSON Web Tokens (RFC 7519, signature per
  section 3.2 of RFC 7518), keeps each live token in a redis store, and
  validates bearer tokens in a gin middleware. Validation covers liveness
  against the store, a role hierarchy, single-use `temp` tokens, and
  refresh on expiry.
- `rate`: a per-IP fixed-window rate limiter.

The signing library is an oracle:
- `Jwt.Signer` turns claims and the secret into a string, or fails.
- `Jwt.Verifier` gives jwt-go's verdict on a token string at the current
  time: parsed claims, a `ValidationError` bit set, or another error. The
  `exp`, `iat` and `nbf` checks happen inside it.

Everything the package decides around the oracle is written out. The
redis package is reduced to its contract:
- a client created at most once (`SetRedisClient` returns `true` only on
  the call that creates it, and the token code reads that `true` as "no
  redis connections");
- a string map with optional per-key expiry;
- a flag saying whether the server answers.

## Layout

- `wrappers.dfy`: module `Wrappers`, the `Option` type.
- `decimal.dfy`: module `Decimal`. `strconv.FormatInt(n, 10)` and its
  inverse, with a round-trip proof. A store key is an email followed by a
  millisecond timestamp.
- `redis.dfy`: module `Redis`.
  - `StoreState` and pure functions for the store commands.
  - Class `Store`, whose methods are proved to have exactly those effects
    and keep the store consistent (`StoreState.Valid`: only stored keys
    have an expiry, and every expiry is positive).
- `jwt.dfy`: module `Jwt`.
  - Claims, errors, oracle verdicts and middleware outcomes.
  - `ClaimToRole`, the classification of error bits, and the
    Authorization-header split.
  - Functions giving the result and the new store state of GenToken,
    ParseToken, Kickoff and one middleware run.
- `jwt_auth.dfy`: module `JwtAuth`, class `Auth`.
  - Holds the package variables `ACCESS_TIME` and `REFRESH_TIME` and a
    reference to the store.
  - Its methods run the statements of jwt.go in order and are proved equal
    to the functions of `Jwt`.
- `jwt_lemmas.dfy`: module `JwtLemmas`, the token properties.
- `rate.dfy`: module `Rate`.
  - The step function `Next`.
  - Class `RateLimitConfig`, whose method updates its map in place and is
    proved equal to `Next`.
- `rate_lemmas.dfy`: module `RateLemmas`, the limiter properties.

## Behaviour kept as the code has it

Where the code and a plain reading of its design differ, the model follows
the code.

- **Store failures read as expiry.** `GetValue` returns `""` with every
  error (redis/redis.go:86-89). An unreadable store therefore reads as an
  expired token (`ErrCodeExpired`), not as a separate "store unavailable"
  error. The `err != nil` test at jwt/jwt.go:131 can never fire, and
  `ParseToken` asserts this.
- **Write errors are dropped.** `SetValue` recovers from and discards the
  store's error (redis/redis.go:72-81). `GenToken` can return a token that
  was never registered; that token then reads as expired.
- **The first call reports "no redis connections".** It is the call that
  creates the client. In the middleware that error is not a `*TokenError`,
  so control falls to jwt/jwt.go:268 with nil claims and crashes
  (`JwtLemmas.FreshProcessCrashes`).
- **A successful refresh crashes.** It mints two tokens, registers both and
  sets both response headers. Then it dereferences the nil claims of the
  expired token at jwt/jwt.go:236 (`JwtLemmas.SuccessfulRefreshCrashes`).
  No request is ever admitted through a refresh.
- **The refresh 500 does not abort.** When the first reissue fails, the
  handler writes a 500 body and returns without `c.Abort()`
  (jwt/jwt.go:226-231), so the chain goes on (`Unaborted`).
- **The second reissue's error is ignored.** The header then carries `""`
  (jwt/jwt.go:233-234).
- **Refreshed keys grow.** The claims' `Email` field holds the store key,
  the email with a timestamp appended. A refreshed token's key is that key
  with one more timestamp appended (jwt/jwt.go:78, 225).
- **A failed `iat` check is an invalid token.** jwt-go sets a separate
  `ValidationErrorIssuedAt` bit for it, which the classification maps to
  `ErrCodeInvalidToken`. Only the `nbf` bit gives `ErrCodeNotValidYet`.
- **Keys of different users can collide.** The key is the email followed
  by the millisecond timestamp with no separator (jwt/jwt.go:78), so
  "a1" at 23 ms and "a" at 123 ms share a key
  (`JwtLemmas.KeysCollideAcrossEmails`). The later issuance then
  overwrites the earlier user's record, whose token reads as an invalid
  token (`JwtLemmas.CollidingIssuanceInvalidates`). For one email, keys
  are distinct per instant (`JwtLemmas.DistinctInstantsDistinctKeys`).
- **Identity is the key alone.** The middleware stores only `email` in the
  request context, and that value is the store key, not the bare email.
- **`DeleteValue` is assumed to remove the key.** It is called at
  jwt/jwt.go:166 but not defined in redis/redis.go. It is modelled as
  removing the key when the server answers, and doing nothing otherwise.
- **A non-positive lifetime means no expiry.** A token issued with
  `exp <= 0` is stored without a TTL, because the go-redis `Set` command
  drops an expiration that is not positive.
- **The limit window follows the last admitted request.** Admitted
  requests move the anchor to `now`. Rejected requests still increment the
  count and leave the anchor unchanged (rate/rate.go:49-57), so a request
  shortly after a rejection can still reset the record
  (`RateLemmas.RejectionKeepsTheAnchor`). A gap of
  exactly `timeWindow` does not reset. Entries are never removed.

## Model

| member | source | states |
|---|---|---|
| `Decimal.FormatNat` | jwt/jwt.go:78 | the decimal rendering is a non-empty run of digits, and only zero starts with '0' (no leading zeros) |
| `Decimal.FormatInt` | jwt/jwt.go:78 | `strconv.FormatInt(n, 10)` is digits optionally preceded by '-', and starts with '-' iff n < 0 |
| `Decimal.FormatNatRoundTrip` | jwt/jwt.go:78 | reading the digits of a natural number back gives the number |
| `Decimal.FormatIntRoundTrip` | jwt/jwt.go:78 | parsing the rendering of any integer gives the integer back |
| `Decimal.FormatIntInjective` | jwt/jwt.go:78 | two timestamps have the same rendering iff they are equal |
| `Redis.Get` | redis/redis.go:85-91 | an error occurs exactly when the key is missing or the server is unreachable, and every error comes with ""; without an error the value is the stored one |
| `Redis.Connect` | redis/redis.go:46-68 | defining function of the client's creation: afterwards a client exists and the server and its contents are as before (stated for the class by `Redis.Store.SetRedisClient`) |
| `Redis.Put` | redis/redis.go:71-82 | defining function of `SetValue`: with the server up the key holds the value, with an expiry of exactly the given seconds iff they are positive; with it down nothing changes; no other key's value or expiry is added or changed, and the client and server flags stay; consistency is kept |
| `Redis.Delete` | jwt/jwt.go:166 | defining function of `DeleteValue`: with the server up exactly the key and its expiry go; no other value or expiry changes, and the client and server flags stay; consistency is kept |
| `Redis.CommandsPreserveValid` | redis/redis.go:46-91 | connecting, setting, deleting and the passing of time keep only stored keys with positive expiries |
| `Redis.ExpiryIsExact` | redis/redis.go:78 | a key set with a positive expiry of s seconds is present, with its value, exactly while less than s seconds have elapsed; with a non-positive expiry it never lapses |
| `Redis.ElapseKeepsOtherKeysOrDrops` | redis/redis.go:78 | the passing of time only drops keys, never changes a value, and never drops a key without an expiry |
| `Redis.Store.constructor` | redis/redis.go:10 | a process starts with no client (nil client pointer) and an empty, consistent store |
| `Redis.Store.SetRedisClient` | redis/redis.go:46-68 | returns true exactly when no client existed before; afterwards a client exists and the contents are unchanged |
| `Redis.Store.SetValue` | redis/redis.go:71-82 | stores the value with its expiry when the server answers; an error is swallowed and nothing changes |
| `Redis.Store.GetValue` | redis/redis.go:85-91 | returns the stored value, or "" together with an error |
| `Redis.Store.DeleteValue` | jwt/jwt.go:166 | removes the key and its expiry when the server answers |
| `Redis.Store.Expire` | redis/redis.go:78 | the passing of time drops exactly the keys whose expiry has run out and shortens the others |
| `Redis.Store.SetAvailable` | redis/redis.go:86-89 | the server becomes reachable or unreachable; contents unchanged |
| `Jwt.ClaimToRole` | jwt/jwt.go:56-69 | the ordinal is between 0 and 4, and it is 0 exactly for strings other than "root", "admin", "user" and "temp" |
| `Jwt.Classify` | jwt/jwt.go:109-118 | a ValidationError always maps to one of Malformed, Expired, NotValidYet or InvalidToken |
| `Jwt.TokenKey` | jwt/jwt.go:78 | the store key is the email followed by a decimal rendering that parses back to the millisecond instant; with `JwtLemmas.DistinctInstantsDistinctKeys` and `JwtLemmas.KeysCollideAcrossEmails` |
| `Jwt.NewClaims` | jwt/jwt.go:79-88 | the claims are keyed by `TokenKey(email, nowMs)`, carry the given role, lifetime and issuer, are issued at the Unix second of the instant, and expire exp*60 seconds later; with `JwtLemmas.SignedLifetimeMatchesTtl` |
| `Jwt.GenTokenSpec` | jwt/jwt.go:77-102 | defining function of GenToken: a success means a client existed and the string is the signature of the new claims; only the new key is added or changed; consistency is kept. Properties in `JwtLemmas.GenTokenRegisters`, `JwtLemmas.GenTokenFailureWritesNothing` and `JwtLemmas.IssueThenValidate` |
| `Jwt.KickoffSpec` | jwt/jwt.go:155-171 | defining function of Kickoff: a client exists afterwards, keys are only removed and values never changed, consistency is kept. Properties in `JwtLemmas.KickoffContract` and `JwtLemmas.KickoffThenExpired` |
| `Jwt.ParseTokenSpec` | jwt/jwt.go:104-152 | defining function of ParseToken: accepted claims are exactly those the library verified as valid; keys are only removed; consistency is kept. Properties in `JwtLemmas.AcceptedMeansLive`, `JwtLemmas.RoleGate`, `JwtLemmas.TempTokenIsSingleUse` and `JwtLemmas.ParseTouchesOnlyItsKey` |
| `Jwt.ResponseForCode` | jwt/jwt.go:199-265 | the codes 1001, 1003, 1004 and 1005, and only they, are rejected with 400 and the code plus 3000; any other code falls through to the nil-claims crash |
| `Jwt.MiddlewareSpec` | jwt/jwt.go:173-271 | defining function of one middleware run: an admission or a rejection never adds a key; consistency is kept. Properties in the `JwtLemmas` middleware lemmas from `MissingAuthorizationHeader` to `FreshProcessCrashes` |
| `Jwt.SplitFirstSpace` | jwt/jwt.go:185 | `strings.SplitN(h, " ", 2)`: one part equal to h when h has no space, otherwise a space-free head and the rest, joined by the first space |
| `Jwt.BearerToken` | jwt/jwt.go:185-186 | the header passes iff it starts with "Bearer ", and then it is "Bearer " followed by the token |
| `Jwt.FirstSpaceSplit` | jwt/jwt.go:185 | a header that starts with a space-free word and a space splits into that word and the rest |
| `JwtAuth.Auth.constructor` | jwt/jwt.go:41-44 | ACCESS_TIME starts at 1440 minutes and REFRESH_TIME at 2160 |
| `JwtAuth.Auth.SetTime` | jwt/jwt.go:71-74 | assigns both package lifetimes |
| `JwtAuth.Auth.GenToken` | jwt/jwt.go:77-102 | signs claims keyed by email + UnixMilli and registers the signed string for exp*60 seconds only when the client already exists; the result and the store are those of `GenTokenSpec` |
| `JwtAuth.Auth.Kickoff` | jwt/jwt.go:155-171 | reads the key, fails on a read error or an empty value, and otherwise deletes it; the result and the store are those of `KickoffSpec` |
| `JwtAuth.Auth.ParseToken` | jwt/jwt.go:104-152 | classification, then liveness, then the role gate, then consumption of a temp token, in the order of jwt.go; the result and the store are those of `ParseTokenSpec` |
| `JwtAuth.Auth.JWTAuthMiddleware` | jwt/jwt.go:173-271 | one request through the middleware, parses and reissues included; the outcome and the store are those of `MiddlewareSpec` |
| `JwtLemmas.RoleOrdinals` | jwt/jwt.go:34-39 | temp, user, admin and root have ordinals 1, 2, 3 and 4 |
| `JwtLemmas.RoleHierarchyIsStrict` | jwt/jwt.go:56-69 | a higher known role meets a lower requirement and a lower one never meets a higher one |
| `JwtLemmas.UnknownRoles` | jwt/jwt.go:66-67 | an unknown token role fails every known requirement; an unknown required role (0) is met by every token |
| `JwtLemmas.MalformedBeatsEverything` | jwt/jwt.go:110-111 | with the malformed bit set the code is ErrCodeMalformed whatever else is set |
| `JwtLemmas.ExpiredBeatsNotValidYet` | jwt/jwt.go:112-113 | without the malformed bit, the expired bit gives ErrCodeExpired whatever else is set |
| `JwtLemmas.NotValidYetBeatsTheRest` | jwt/jwt.go:114-115 | without malformed and expired bits, the nbf bit gives ErrCodeNotValidYet |
| `JwtLemmas.OtherBitsAreInvalidToken` | jwt/jwt.go:116-117 | any other validation error, an iat failure included, is ErrCodeInvalidToken |
| `JwtLemmas.LibraryErrorsPassThrough` | jwt/jwt.go:108-120 | validation errors are classified and other errors returned unchanged, without touching the store |
| `JwtLemmas.MissingRecordIsExpired` | jwt/jwt.go:124-127 | a verified token with no readable non-empty record, including an unreachable store, is ErrCodeExpired |
| `JwtLemmas.StaleRecordIsInvalid` | jwt/jwt.go:128-129 | a verified token whose stored value differs from the presented string is ErrCodeInvalidToken |
| `JwtLemmas.AcceptedMeansLive` | jwt/jwt.go:123-145 | an accepted token was verified, its exact string is stored under its key, and its role meets the requirement |
| `JwtLemmas.RoleGate` | jwt/jwt.go:138-148 | after liveness the token is accepted iff its role ordinal is at least the requirement, otherwise ErrCodeInvalidRole; only a temp token changes the store (its key is deleted) |
| `JwtLemmas.TempTokenIsSingleUse` | jwt/jwt.go:139-145 | after one acceptance of a temp token, parsing the same string again yields ErrCodeExpired |
| `JwtLemmas.ParseTouchesOnlyItsKey` | jwt/jwt.go:104-152 | ParseToken changes no value and removes at most the accepted temp token's key |
| `JwtLemmas.ParseErrorCodes` | jwt/jwt.go:26-32 | ParseToken only ever produces the five package error codes |
| `JwtLemmas.FirstUseConnects` | jwt/jwt.go:124-135 | with no client yet, a verified token fails with "no redis connections" and the client is created |
| `JwtLemmas.DistinctInstantsDistinctKeys` | jwt/jwt.go:78 | keys for one email differ iff their millisecond instants differ, and each key extends the email |
| `JwtLemmas.KeysCollideAcrossEmails` | jwt/jwt.go:78 | the email "a1" at 23 ms and the email "a" at 123 ms get the same key |
| `JwtLemmas.CollidingIssuanceInvalidates` | jwt/jwt.go:77-129 | when a new token's key equals the key of another user's verified token, issuing it makes that token read as ErrCodeInvalidToken |
| `JwtLemmas.SignedLifetimeMatchesTtl` | jwt/jwt.go:79-88 | ExpiresAt - IssuedAt is exp*60 seconds, the TTL given to the store; the key, role and issuer are as set |
| `JwtLemmas.GenTokenRegisters` | jwt/jwt.go:95-96 | with a client, the signed string is returned and stored under email++timestamp with TTL exp*60 (no TTL when that is not positive); an unreachable store keeps nothing |
| `JwtLemmas.GenTokenFailureWritesNothing` | jwt/jwt.go:91-99 | GenToken fails iff signing fails or the client is created by this call; a failure writes nothing, and the connect case returns "no redis connections" |
| `JwtLemmas.IssueThenValidate` | jwt/jwt.go:77-148 | a token just issued with a reachable store validates against any requirement its role meets and fails a higher one with ErrCodeInvalidRole |
| `JwtLemmas.TokenLapsesWithItsTtl` | jwt/jwt.go:96-127 | once exp*60 seconds have passed the token is ErrCodeExpired even if its signature still verifies; before that it is still accepted |
| `JwtLemmas.KickoffContract` | jwt/jwt.go:155-171 | Kickoff succeeds and removes the key iff a client exists, the store answers and a non-empty value is stored; otherwise no key changes |
| `JwtLemmas.KickoffThenExpired` | jwt/jwt.go:124-171 | after a successful kickoff of its key a token reads as ErrCodeExpired |
| `JwtLemmas.MissingAuthorizationHeader` | jwt/jwt.go:175-183 | an empty Authorization header gives 401/4007 and touches nothing |
| `JwtLemmas.WrongAuthorizationHeader` | jwt/jwt.go:185-193 | a header not of the form "Bearer <token>" gives 400/4008 before any parse |
| `JwtLemmas.ParseErrorsMapToResponses` | jwt/jwt.go:196-259 | parse codes 1001, 1003, 1004 and 1005 give 400 with 4001, 4003, 4004 and 4005 |
| `JwtLemmas.ExpiredWithoutUsableRefresh` | jwt/jwt.go:206-224 | an expired token with a missing or failing Refresh-Token gives 400/4002 |
| `JwtLemmas.SuccessfulRefreshCrashes` | jwt/jwt.go:225-237 | a successful refresh registers an ACCESS_TIME token and a REFRESH_TIME token, built from the refresh claims' key and role, sets both headers, and then crashes |
| `JwtLemmas.RefreshSigningFailureDoesNotAbort` | jwt/jwt.go:225-231 | when the first reissue of a refresh fails to sign, the outcome is a 500 body without abort |
| `JwtLemmas.AdmitOnlyWhenParsed` | jwt/jwt.go:195-269 | a request is admitted iff its bearer token parses, with the claims' key as the identity |
| `JwtLemmas.BareCrashMeansForeignError` | jwt/jwt.go:197-268 | a crash without new tokens comes only from a non-TokenError error, so the default branch is never taken |
| `JwtLemmas.FreshProcessCrashes` | jwt/jwt.go:195-268 | before the client exists, a verified bearer token crashes the middleware (nil claims) |
| `Rate.Run` | rate/rate.go:31-58 | a series of requests yields one verdict per request |
| `Rate.Next` | rate/rate.go:31-58 | defining function of one request: the IP has a record afterwards; an admission sets its LastAccessTime to now; a rejection happens only on an existing record inside the window, keeps its LastAccessTime and leaves the incremented count above the limit. Properties in the `RateLemmas` |
| `Rate.RateLimitConfig.constructor` | rate/rate.go:23-29 | a new limiter keeps its limit and window and has no records |
| `Rate.RateLimitConfig.RateLimitMiddleware` | rate/rate.go:31-58 | updates the record in place, step by step, keeps every count at least 1, and returns the verdict and map that `Next` gives |
| `Rate.FourRapidRequests` | rate/rate.go:31-58 | with a limit of 3 per second, four rapid requests from one IP are admitted, admitted, admitted, rejected |
| `RateLemmas.UnseenIpIsAdmitted` | rate/rate.go:38-41 | a first request is admitted and recorded with count 1 at now |
| `RateLemmas.GapBeyondWindowResets` | rate/rate.go:43-47 | a gap strictly over the window resets to count 1 at now and admits; a gap of exactly the window does not reset |
| `RateLemmas.InWindowCounts` | rate/rate.go:49-57 | inside the window the count rises by exactly 1; rejection iff it exceeds the limit; rejection keeps LastAccessTime, admission sets it to now |
| `RateLemmas.OnlyOwnRecordChanges` | rate/rate.go:36-57 | only the requesting IP's record is created or changed; the key set only grows |
| `RateLemmas.FreshOrResetAlwaysAdmitted` | rate/rate.go:39-46 | first and reset requests are admitted whatever maxRequests is, even <= 0 |
| `RateLemmas.CountsStayPositive` | rate/rate.go:39-49 | every stored count stays at least 1 |
| `RateLemmas.AnchoredRun` | rate/rate.go:43-57 | while every request comes within the window of the record's last admitted access at that moment, the i-th request is admitted iff the count it reaches is within the limit |
| `RateLemmas.BurstAdmitsExactlyLimit` | rate/rate.go:38-57 | from a fresh or reset record with limit N >= 1, while each of the first N requests comes within the window of the one before it and each later one within the window of the N-th, exactly the first N are admitted and the rest rejected |
| `RateLemmas.RejectionKeepsTheAnchor` | rate/rate.go:43-57 | with limit 2 and window 10, requests at 0, 5, 14 and 16 are admitted, admitted, rejected, admitted: the last one is measured from the admission at 5, not from the rejection at 14 |
| `RateLemmas.AdmittedPrefix` | rate/rate.go:51-55 | verdicts that admit exactly the first n requests admit n in all |
| `RateLemmas.TwiceTheLimitAdmitsHalf` | rate/rate.go:38-57 | 2N requests that keep within the window of the last admission admit exactly N |

## Left out

- HS256 signing and claim parsing in jwt-go (jwt/jwt.go:90-91, 105-107):
  the foreign cryptographic library is the `Signer`/`Verifier` oracle, and
  the `exp`/`iat`/`nbf` time checks are inside it.
- The redis client code (options, address, go-redis calls): only its
  contract is modelled. A store error is a state of the server (`up`), not
  a fault of one command, so two reads within one call always agree.
- rsa/rsa.go, email/email.go and uuid/uuid.go: thin wrappers over crypto,
  SMTP and random digits, outside the token and rate logic.
- The gin context: the JSON bodies, their `msg` texts, `c.Abort`/`c.Next`
  and header I/O are returned as `Outcome` values.
- The package-global mutex in rate/rate.go:15, 33-34: the model is
  sequential.
- The 2 ms `time.Sleep` in jwt/jwt.go:100. Its effect is that the two
  GenToken calls of a refresh read different instants. These arrive as the
  two parameters `nowAccess` and `nowRefresh`.
- Wall-clock reads: every time is an integer parameter. GenToken's three
  `time.Now()` calls are one instant in milliseconds.
- The rate limiter keeps record values in its map, where rate.go keeps
  pointers. No pointer is ever shared, so nothing is lost.
- Go's 64-bit integers: timestamps, `exp*60`, the nanosecond duration of
  `exp` minutes, and the request counter are unbounded integers. Overflow,
  and the saturation of `time.Since`, are not modelled.
- The `message` field of `*TokenError` and the text of library errors.
