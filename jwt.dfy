/**
 * The token rules of jwt/jwt.go as functions over the store state.
 *
 * The signing library (jwt-go, HS256) is not modelled: signing is a
 * `Signer` oracle and parsing a `Verifier` oracle that, for a token string,
 * gives the library's verdict at the current time (the exp, iat and nbf
 * checks happen inside it).  Everything the package decides around those
 * oracles is written out here: the role ordinal, the classification of the
 * library's error bits, the liveness check against the store, the role
 * gate, the consumption of `temp` tokens, and the middleware's decision.
 */
module Jwt {
  import opened Wrappers
  import opened Redis
  import Decimal

  // Error codes of *TokenError (jwt/jwt.go:26-32).
  const ErrCodeMalformed := 1001
  const ErrCodeExpired := 1002
  const ErrCodeNotValidYet := 1003
  const ErrCodeInvalidToken := 1004
  const ErrCodeInvalidRole := 1005

  // Role ordinals (jwt/jwt.go:34-39).
  const RootRole := 4
  const AdminRole := 3
  const UserRole := 2
  const TempRole := 1

  const KnownRoles: set<string> := {"root", "admin", "user", "temp"}

  // Initial values of ACCESS_TIME and REFRESH_TIME, in minutes (jwt/jwt.go:41-44).
  const DefaultAccessTime := 1440
  const DefaultRefreshTime := 2160

  const Secret := "ROMANCETILLDEATH"
  const Issuer := "org.axiomatrix.toolchain"

  const NoRedisConnections := "no redis connections"
  const InvalidTokenText := "invalid token"

  // Bits of jwt-go v3's ValidationError.Errors used by the classification.
  const ValidationErrorMalformed: bv32 := 1
  const ValidationErrorExpired: bv32 := 16
  const ValidationErrorIssuedAt: bv32 := 32
  const ValidationErrorNotValidYet: bv32 := 128

  /** TokenClaims (jwt/jwt.go:15-20) with the StandardClaims fields the package sets. */
  datatype TokenClaims = TokenClaims(
    email: string,      // the store key: the caller's email followed by a timestamp
    role: string,
    exp: int,           // lifetime in minutes
    expiresAt: int,     // Unix seconds
    issuer: string,
    issuedAt: int)      // Unix seconds

  /** The errors the package returns, by origin. */
  datatype Error =
    | TokenError(code: int)   // *TokenError
    | LibraryError            // an error of jwt-go that is not a *ValidationError, or a signing error
    | Message(text: string)   // errors.New(text)
    | StoreError              // the error of redis.GetValue

  datatype Result<+T> = Ok(value: T) | Err(error: Error)

  /** What jwt.ParseWithClaims reports for a token string. */
  datatype Verdict =
    | Parsed(claims: TokenClaims, valid: bool)   // no error; `valid` is token.Valid
    | ValidationFailed(errors: bv32)             // a *jwt.ValidationError
    | OtherFailure                               // any other error

  type Verifier = string -> Verdict
  type Signer = (TokenClaims, string) -> Option<string>

  /** A result together with the store state after the call. */
  datatype Step<+T> = Step(result: T, store: StoreState)

  /** What one run of the middleware does to the request. */
  datatype Outcome =
    | Reject(status: int, code: int)              // JSON error body and c.Abort()
    | Unaborted(status: int, code: int)           // JSON error body, but the handler chain goes on
    | Admit(email: string)                        // c.Set("email", ...) and c.Next()
    | Crash(headers: map<string, string>)         // nil-pointer dereference, after setting these headers

  /** The two headers the middleware reads; an absent header reads as "". */
  datatype Request = Request(authorization: string, refreshToken: string)

  /** claimToRole (jwt/jwt.go:56-69). */
  function ClaimToRole(claim: string): (r: int)
    ensures 0 <= r <= RootRole
    ensures r == 0 <==> claim !in KnownRoles
  {
    if claim == "root" then RootRole
    else if claim == "admin" then AdminRole
    else if claim == "user" then UserRole
    else if claim == "temp" then TempRole
    else 0
  }

  /** The classification of a ValidationError's bits (jwt/jwt.go:109-118). */
  function Classify(errors: bv32): (code: int)
    ensures code in {ErrCodeMalformed, ErrCodeExpired, ErrCodeNotValidYet, ErrCodeInvalidToken}
  {
    if errors & ValidationErrorMalformed != 0 then ErrCodeMalformed
    else if errors & ValidationErrorExpired != 0 then ErrCodeExpired
    else if errors & ValidationErrorNotValidYet != 0 then ErrCodeNotValidYet
    else ErrCodeInvalidToken
  }

  /** Unix seconds of an instant given in Unix milliseconds (both floor). */
  function UnixSeconds(ms: int): int {
    ms / 1000
  }

  /** The store key GenToken registers (jwt/jwt.go:78). */
  function TokenKey(email: string, nowMs: int): (key: string)
    ensures |key| > |email| && key[..|email|] == email
    ensures Decimal.IsDecimal(key[|email|..]) && Decimal.ParseInt(key[|email|..]) == nowMs
  {
    assert (email + Decimal.FormatInt(nowMs))[|email|..] == Decimal.FormatInt(nowMs);
    Decimal.FormatIntRoundTrip(nowMs);
    email + Decimal.FormatInt(nowMs)
  }

  /** The claims GenToken signs at instant `nowMs` (jwt/jwt.go:79-88). */
  function NewClaims(email: string, role: string, exp: int, nowMs: int): (c: TokenClaims)
    ensures c.issuedAt == UnixSeconds(nowMs) && c.expiresAt - c.issuedAt == exp * 60
    ensures c.role == role && c.exp == exp && c.issuer == Issuer
    ensures c.email == TokenKey(email, nowMs) && |c.email| > |email| && c.email[..|email|] == email
  {
    TokenClaims(TokenKey(email, nowMs), role, exp,
                UnixSeconds(nowMs) + exp * 60, Issuer, UnixSeconds(nowMs))
  }

  /** GenToken (jwt/jwt.go:77-102), at instant `nowMs`. */
  function GenTokenSpec(s: StoreState, email: string, role: string, exp: int, nowMs: int, sign: Signer)
    : (r: Step<Result<string>>)
    ensures r.result.Ok? ==> s.connected && sign(NewClaims(email, role, exp, nowMs), Secret) == Some(r.result.value)
    ensures r.store.kv.Keys <= s.kv.Keys + {TokenKey(email, nowMs)}
    ensures forall k :: k in s.kv && k != TokenKey(email, nowMs) ==> k in r.store.kv && r.store.kv[k] == s.kv[k]
    ensures s.Valid() ==> r.store.Valid()
  {
    var c := NewClaims(email, role, exp, nowMs);
    match sign(c, Secret)
    case None => Step(Err(LibraryError), s)
    case Some(str) =>
      if s.connected then Step(Ok(str), Put(Connect(s), c.email, str, exp * 60))
      else Step(Err(Message(NoRedisConnections)), Connect(s))
  }

  /** Kickoff (jwt/jwt.go:155-171); the result is Go's (true, nil) or an error. */
  function KickoffSpec(s: StoreState, key: string): (r: Step<Result<bool>>)
    ensures r.store.connected && r.store.up == s.up
    ensures r.store.kv.Keys <= s.kv.Keys && forall k :: k in r.store.kv ==> r.store.kv[k] == s.kv[k]
    ensures s.Valid() ==> r.store.Valid()
  {
    if !s.connected then Step(Err(Message(NoRedisConnections)), Connect(s))
    else
      var reply := Get(s, key);
      if reply.failed then Step(Err(StoreError), s)
      else if reply.value == "" then Step(Err(Message(InvalidTokenText)), s)
      else Step(Ok(true), Delete(s, key))
  }

  /** ParseToken (jwt/jwt.go:104-152). */
  function ParseTokenSpec(s: StoreState, tokenString: string, role: int, verify: Verifier)
    : (r: Step<Result<TokenClaims>>)
    ensures r.result.Ok? ==> verify(tokenString) == Parsed(r.result.value, true)
    ensures r.store.up == s.up && r.store.kv.Keys <= s.kv.Keys
    ensures s.Valid() ==> r.store.Valid()
  {
    match verify(tokenString)
    case ValidationFailed(errors) => Step(Err(TokenError(Classify(errors))), s)
    case OtherFailure => Step(Err(LibraryError), s)
    case Parsed(claims, valid) =>
      if !valid then Step(Err(Message(InvalidTokenText)), s)
      else if !s.connected then Step(Err(Message(NoRedisConnections)), Connect(s))
      else
        var reply := Get(s, claims.email);
        if reply.value == "" then Step(Err(TokenError(ErrCodeExpired)), s)
        else if reply.value != tokenString then Step(Err(TokenError(ErrCodeInvalidToken)), s)
        else if reply.failed then Step(Err(StoreError), s)
        else if ClaimToRole(claims.role) >= role then
          if claims.role == "temp" then
            var k := KickoffSpec(s, claims.email);
            match k.result
            case Err(e) => Step(Err(e), k.store)
            case Ok(_) => Step(Ok(claims), k.store)
          else Step(Ok(claims), s)
        else Step(Err(TokenError(ErrCodeInvalidRole)), s)
  }

  /** strings.SplitN(h, " ", 2). */
  function SplitFirstSpace(h: string): (parts: seq<string>)
    ensures 1 <= |parts| <= 2
    ensures |parts| == 1 ==> parts[0] == h && ' ' !in h
    ensures |parts| == 2 ==> h == parts[0] + " " + parts[1] && ' ' !in parts[0]
    decreases |h|
  {
    if h == [] then [h]
    else if h[0] == ' ' then ["", h[1..]]
    else
      var rest := SplitFirstSpace(h[1..]);
      assert h == [h[0]] + h[1..];
      [[h[0]] + rest[0]] + rest[1..]
  }

  /** The token of an Authorization header of the form "Bearer <token>" (jwt/jwt.go:185-186). */
  function BearerToken(h: string): (t: Option<string>)
    ensures t.Some? <==> |h| >= 7 && h[..7] == "Bearer "
    ensures t.Some? ==> h == "Bearer " + t.value
  {
    var parts := SplitFirstSpace(h);
    assert |h| >= 7 && h[..7] == "Bearer " ==> |parts| == 2 && parts[0] == "Bearer" by {
      if |h| >= 7 && h[..7] == "Bearer " {
        FirstSpaceSplit(h, "Bearer", h[7..], parts);
      }
    }
    if |parts| == 2 && parts[0] == "Bearer" then Some(parts[1]) else None
  }

  /** A string that starts with a space-free word and a space splits at that space. */
  lemma FirstSpaceSplit(h: string, word: string, rest: string, parts: seq<string>)
    requires ' ' !in word && h == word + " " + rest
    requires parts == SplitFirstSpace(h)
    ensures |parts| == 2 && parts[0] == word && parts[1] == rest
  {
    assert h[|word|] == ' ';
    assert |parts| == 2;
    assert forall j :: 0 <= j < |word| ==> h[j] == word[j];
    assert forall j :: 0 <= j < |parts[0]| ==> h[j] == parts[0][j];
    assert h[|parts[0]|] == ' ';
    assert |parts[0]| == |word|;
    assert parts[0] == h[..|word|] == word;
    assert parts[1] == h[|word| + 1..] == rest;
  }

  /** The response for a parse error code other than ErrCodeExpired (jwt/jwt.go:199-205, 239-265). */
  function ResponseForCode(code: int): (o: Outcome)
    ensures o.Reject? <==> code in {ErrCodeMalformed, ErrCodeNotValidYet, ErrCodeInvalidToken, ErrCodeInvalidRole}
    ensures o.Reject? ==> o.status == 400 && o.code == code + 3000
    ensures !o.Reject? ==> o == Crash(map[])
  {
    if code == ErrCodeMalformed then Reject(400, 4001)
    else if code == ErrCodeNotValidYet then Reject(400, 4003)
    else if code == ErrCodeInvalidToken then Reject(400, 4004)
    else if code == ErrCodeInvalidRole then Reject(400, 4005)
    else Crash(map[])   // the default branch writes a 500 body and then dereferences nil claims
  }

  /** The string Go binds from a (string, error) result. */
  function StringOf(r: Result<string>): string {
    if r.Ok? then r.value else ""
  }

  /**
   * One run of the closure JWTAuthMiddleware(role) returns (jwt/jwt.go:173-271).
   * `accessTime` and `refreshTime` are the current ACCESS_TIME and REFRESH_TIME;
   * `nowAccess` and `nowRefresh` are the instants of the two GenToken calls of a refresh.
   */
  function MiddlewareSpec(s: StoreState, accessTime: int, refreshTime: int, role: string, req: Request,
                          verify: Verifier, sign: Signer, nowAccess: int, nowRefresh: int): (r: Step<Outcome>)
    ensures r.result.Admit? ==> r.store.kv.Keys <= s.kv.Keys
    ensures r.result.Reject? ==> r.store.kv.Keys <= s.kv.Keys
    ensures s.Valid() ==> r.store.Valid()
  {
    if req.authorization == "" then Step(Reject(401, 4007), s)
    else match BearerToken(req.authorization)
      case None => Step(Reject(400, 4008), s)
      case Some(tok) =>
        var p := ParseTokenSpec(s, tok, ClaimToRole(role), verify);
        match p.result
        case Ok(claims) => Step(Admit(claims.email), p.store)
        case Err(e) =>
          if !e.TokenError? then Step(Crash(map[]), p.store)
          else if e.code != ErrCodeExpired then Step(ResponseForCode(e.code), p.store)
          else if req.refreshToken == "" then Step(Reject(400, 4002), p.store)
          else
            var q := ParseTokenSpec(p.store, req.refreshToken, ClaimToRole(role), verify);
            match q.result
            case Err(_) => Step(Reject(400, 4002), q.store)
            case Ok(mt) =>
              var access := GenTokenSpec(q.store, mt.email, mt.role, accessTime, nowAccess, sign);
              match access.result
              case Err(_) => Step(Unaborted(500, 500), access.store)
              case Ok(token) =>
                var refresh := GenTokenSpec(access.store, mt.email, mt.role, refreshTime, nowRefresh, sign);
                Step(Crash(map["Refresh-Token" := StringOf(refresh.result), "Access-Token" := token]),
                     refresh.store)
  }
}
