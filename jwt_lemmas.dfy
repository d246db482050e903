/**
 * Properties of the token rules of module `Jwt`: the role order, the
 * precedence of the error classification, liveness, the role gate,
 * single-use `temp` tokens, registration by GenToken, Kickoff, and the
 * middleware's outcomes.
 */
module JwtLemmas {
  import opened Wrappers
  import opened Redis
  import opened Jwt
  import Decimal

  // ---------------------------------------------------------------- roles

  /** The known roles from lowest to highest. */
  const RolesAscending: seq<string> := ["temp", "user", "admin", "root"]

  /** Each known role's ordinal is its position in the hierarchy, counted from 1. */
  lemma RoleOrdinals()
    ensures forall i :: 0 <= i < |RolesAscending| ==> ClaimToRole(RolesAscending[i]) == i + 1
  {
  }

  /** A higher role meets a lower requirement, and a lower role never meets a higher one. */
  lemma RoleHierarchyIsStrict(i: int, j: int)
    requires 0 <= i < j < |RolesAscending|
    ensures ClaimToRole(RolesAscending[j]) >= ClaimToRole(RolesAscending[i])
    ensures !(ClaimToRole(RolesAscending[i]) >= ClaimToRole(RolesAscending[j]))
  {
    RoleOrdinals();
  }

  /** An unknown token role fails every known requirement; an unknown requirement is met by every role. */
  lemma UnknownRoles(actual: string, required: string)
    ensures actual !in KnownRoles && required in KnownRoles ==> ClaimToRole(actual) < ClaimToRole(required)
    ensures required !in KnownRoles ==> ClaimToRole(actual) >= ClaimToRole(required)
  {
  }

  // ------------------------------------------------------- classification

  lemma MalformedBeatsEverything(errors: bv32)
    ensures Classify(errors | ValidationErrorMalformed) == ErrCodeMalformed
  {
  }

  lemma ExpiredBeatsNotValidYet(errors: bv32)
    requires errors & ValidationErrorMalformed == 0
    ensures Classify(errors | ValidationErrorExpired) == ErrCodeExpired
  {
  }

  lemma NotValidYetBeatsTheRest(errors: bv32)
    requires errors & (ValidationErrorMalformed | ValidationErrorExpired) == 0
    ensures Classify(errors | ValidationErrorNotValidYet) == ErrCodeNotValidYet
  {
  }

  /** Every other bit, such as a bad signature or a failed iat check, is an invalid token. */
  lemma OtherBitsAreInvalidToken(errors: bv32)
    requires errors & (ValidationErrorMalformed | ValidationErrorExpired | ValidationErrorNotValidYet) == 0
    ensures Classify(errors) == ErrCodeInvalidToken
    ensures Classify(ValidationErrorIssuedAt) == ErrCodeInvalidToken
  {
  }

  /** Errors of the library are classified or passed on, and the store is not consulted. */
  lemma LibraryErrorsPassThrough(s: StoreState, tok: string, role: int, verify: Verifier)
    ensures verify(tok).ValidationFailed? ==>
      ParseTokenSpec(s, tok, role, verify) == Step(Err(TokenError(Classify(verify(tok).errors))), s)
    ensures verify(tok).OtherFailure? ==> ParseTokenSpec(s, tok, role, verify) == Step(Err(LibraryError), s)
  {
  }

  // ------------------------------------------------------------- liveness

  /** No stored value, whether absent, empty or unreadable, reads as an expired token. */
  lemma MissingRecordIsExpired(s: StoreState, tok: string, role: int, verify: Verifier, c: TokenClaims)
    requires verify(tok) == Parsed(c, true) && s.connected
    requires !s.up || c.email !in s.kv || s.kv[c.email] == ""
    ensures ParseTokenSpec(s, tok, role, verify) == Step(Err(TokenError(ErrCodeExpired)), s)
  {
  }

  /** A stored value other than the presented string makes the token invalid. */
  lemma StaleRecordIsInvalid(s: StoreState, tok: string, role: int, verify: Verifier, c: TokenClaims)
    requires verify(tok) == Parsed(c, true) && s.connected && s.up && c.email in s.kv
    requires s.kv[c.email] != "" && s.kv[c.email] != tok
    ensures ParseTokenSpec(s, tok, role, verify) == Step(Err(TokenError(ErrCodeInvalidToken)), s)
  {
  }

  /** Only a verified token whose exact string is stored under its key, with a sufficient role, is accepted. */
  lemma AcceptedMeansLive(s: StoreState, tok: string, role: int, verify: Verifier)
    ensures var p := ParseTokenSpec(s, tok, role, verify);
      p.result.Ok? ==>
        && verify(tok) == Parsed(p.result.value, true)
        && s.connected && s.up
        && p.result.value.email in s.kv && s.kv[p.result.value.email] == tok
        && ClaimToRole(p.result.value.role) >= role
  {
  }

  /** Once liveness holds, the role gate alone decides, and only a `temp` token changes the store. */
  lemma RoleGate(s: StoreState, tok: string, role: int, verify: Verifier, c: TokenClaims)
    requires verify(tok) == Parsed(c, true) && s.connected && s.up
    requires c.email in s.kv && s.kv[c.email] == tok && tok != ""
    ensures var p := ParseTokenSpec(s, tok, role, verify);
      && (p.result == Ok(c) <==> ClaimToRole(c.role) >= role)
      && (ClaimToRole(c.role) < role ==> p == Step(Err(TokenError(ErrCodeInvalidRole)), s))
      && (ClaimToRole(c.role) >= role && c.role != "temp" ==> p.store == s)
      && (ClaimToRole(c.role) >= role && c.role == "temp" ==> p.store == Delete(s, c.email))
  {
  }

  /** A `temp` token that is accepted once is expired on every later parse. */
  lemma TempTokenIsSingleUse(s: StoreState, tok: string, role: int, laterRole: int, verify: Verifier)
    requires ParseTokenSpec(s, tok, role, verify).result.Ok?
    requires ParseTokenSpec(s, tok, role, verify).result.value.role == "temp"
    ensures ParseTokenSpec(ParseTokenSpec(s, tok, role, verify).store, tok, laterRole, verify).result
         == Err(TokenError(ErrCodeExpired))
  {
    AcceptedMeansLive(s, tok, role, verify);
  }

  /** ParseToken deletes at most one key, the accepted `temp` token's, and changes no value. */
  lemma ParseTouchesOnlyItsKey(s: StoreState, tok: string, role: int, verify: Verifier)
    ensures var p := ParseTokenSpec(s, tok, role, verify);
      && p.store.up == s.up && p.store.ttl.Keys <= s.ttl.Keys
      && p.store.kv.Keys <= s.kv.Keys
      && (forall k :: k in p.store.kv ==> p.store.kv[k] == s.kv[k])
      && (p.store.kv != s.kv ==>
            p.result.Ok? && p.result.value.role == "temp" && p.store.kv == s.kv - {p.result.value.email})
  {
  }

  /** ParseToken's own error codes are the five codes of the package. */
  lemma ParseErrorCodes(s: StoreState, tok: string, role: int, verify: Verifier)
    ensures var r := ParseTokenSpec(s, tok, role, verify).result;
      r.Err? && r.error.TokenError? ==>
        r.error.code in {ErrCodeMalformed, ErrCodeExpired, ErrCodeNotValidYet, ErrCodeInvalidToken, ErrCodeInvalidRole}
  {
  }

  /** On a process whose client does not exist yet, the first verified token fails with "no redis connections". */
  lemma FirstUseConnects(s: StoreState, tok: string, role: int, verify: Verifier, c: TokenClaims)
    requires !s.connected && verify(tok) == Parsed(c, true)
    ensures ParseTokenSpec(s, tok, role, verify) == Step(Err(Message(NoRedisConnections)), Connect(s))
  {
  }

  // ------------------------------------------------------------- issuance

  /** The key appends the decimal timestamp to the email, and two instants give two keys. */
  lemma DistinctInstantsDistinctKeys(email: string, a: int, b: int)
    ensures TokenKey(email, a) == TokenKey(email, b) <==> a == b
    ensures |TokenKey(email, a)| > |email| && TokenKey(email, a)[..|email|] == email
  {
    if TokenKey(email, a) == TokenKey(email, b) {
      assert Decimal.FormatInt(a) == TokenKey(email, a)[|email|..];
      assert Decimal.FormatInt(b) == TokenKey(email, b)[|email|..];
      Decimal.FormatIntInjective(a, b);
    }
  }

  /**
   * The key does not separate the email from the timestamp, so two users
   * can be given the same key: "a1" at 23 ms and "a" at 123 ms.
   */
  lemma KeysCollideAcrossEmails()
    ensures "a1" != "a" && 23 != 123 && TokenKey("a1", 23) == TokenKey("a", 123)
  {
    assert Decimal.FormatInt(23) == "23";
    assert Decimal.FormatInt(123) == "123";
  }

  /**
   * So one user's issuance overwrites another's live record, and the
   * other's token, still verifying, then reads as an invalid token.
   */
  lemma CollidingIssuanceInvalidates(s: StoreState, email: string, nowMs: int, other: string, otherMs: int,
                                     role: string, exp: int, sign: Signer, verify: Verifier, tok: string,
                                     mine: string, c: TokenClaims, required: int)
    requires s.connected && s.up && TokenKey(email, nowMs) == TokenKey(other, otherMs)
    requires sign(NewClaims(email, role, exp, nowMs), Secret) == Some(tok)
    requires verify(mine) == Parsed(c, true) && c.email == TokenKey(other, otherMs) && mine != tok && tok != ""
    ensures var g := GenTokenSpec(s, email, role, exp, nowMs, sign);
      ParseTokenSpec(g.store, mine, required, verify).result == Err(TokenError(ErrCodeInvalidToken))
  {
    GenTokenRegisters(s, email, role, exp, nowMs, sign, tok);
  }

  /** The signed lifetime is `exp` minutes, the same span as the store TTL of `exp*60` seconds. */
  lemma SignedLifetimeMatchesTtl(email: string, role: string, exp: int, nowMs: int)
    ensures var c := NewClaims(email, role, exp, nowMs);
      && c.expiresAt - c.issuedAt == exp * 60
      && c.email == TokenKey(email, nowMs) && c.role == role && c.exp == exp && c.issuer == Issuer
  {
  }

  /** With a client, GenToken returns the signed string and stores it under email++timestamp for exp*60 seconds. */
  lemma GenTokenRegisters(s: StoreState, email: string, role: string, exp: int, nowMs: int, sign: Signer, tok: string)
    requires s.connected && sign(NewClaims(email, role, exp, nowMs), Secret) == Some(tok)
    ensures var g := GenTokenSpec(s, email, role, exp, nowMs, sign);
      var key := TokenKey(email, nowMs);
      && g.result == Ok(tok)
      && (s.up ==> g.store.kv == s.kv[key := tok])
      && (s.up && exp > 0 ==> g.store.ttl == s.ttl[key := exp * 60])
      && (s.up && exp <= 0 ==> g.store.ttl == s.ttl - {key})
      && (!s.up ==> g.store == s)
  {
  }

  /** GenToken fails exactly when signing fails or the client is created by this call; then it writes nothing. */
  lemma GenTokenFailureWritesNothing(s: StoreState, email: string, role: string, exp: int, nowMs: int, sign: Signer)
    ensures var g := GenTokenSpec(s, email, role, exp, nowMs, sign);
      && (g.result.Err? <==> !s.connected || sign(NewClaims(email, role, exp, nowMs), Secret).None?)
      && (g.result.Err? ==> g.store.kv == s.kv && g.store.ttl == s.ttl && g.store.up == s.up)
      && (!s.connected && sign(NewClaims(email, role, exp, nowMs), Secret).Some? ==>
            g.result == Err(Message(NoRedisConnections)) && g.store == Connect(s))
  {
  }

  /** A freshly issued token validates at once, and fails a requirement above its role with InvalidRole. */
  lemma IssueThenValidate(s: StoreState, email: string, role: string, exp: int, nowMs: int, sign: Signer,
                          verify: Verifier, tok: string, required: int)
    requires s.connected && s.up
    requires sign(NewClaims(email, role, exp, nowMs), Secret) == Some(tok) && tok != ""
    requires verify(tok) == Parsed(NewClaims(email, role, exp, nowMs), true)
    ensures var g := GenTokenSpec(s, email, role, exp, nowMs, sign);
      var p := ParseTokenSpec(g.store, tok, required, verify);
      && (ClaimToRole(role) >= required ==> p.result == Ok(NewClaims(email, role, exp, nowMs)))
      && (ClaimToRole(role) < required ==> p.result == Err(TokenError(ErrCodeInvalidRole)))
  {
    var g := GenTokenSpec(s, email, role, exp, nowMs, sign);
    GenTokenRegisters(s, email, role, exp, nowMs, sign, tok);
    RoleGate(g.store, tok, required, verify, NewClaims(email, role, exp, nowMs));
  }

  /**
   * Once the store TTL has run out the token reads as expired, even while the
   * library still accepts its signature; before that it is still accepted.
   */
  lemma TokenLapsesWithItsTtl(s: StoreState, email: string, role: string, exp: int, nowMs: int, sign: Signer,
                              verify: Verifier, tok: string, elapsed: nat, required: int)
    requires s.connected && s.up && exp > 0
    requires sign(NewClaims(email, role, exp, nowMs), Secret) == Some(tok) && tok != ""
    requires verify(tok) == Parsed(NewClaims(email, role, exp, nowMs), true)
    ensures var later := Elapse(GenTokenSpec(s, email, role, exp, nowMs, sign).store, elapsed);
      var p := ParseTokenSpec(later, tok, required, verify);
      && (elapsed >= exp * 60 ==> p.result == Err(TokenError(ErrCodeExpired)))
      && (elapsed < exp * 60 && ClaimToRole(role) >= required ==> p.result == Ok(NewClaims(email, role, exp, nowMs)))
  {
    var c := NewClaims(email, role, exp, nowMs);
    var g := GenTokenSpec(s, email, role, exp, nowMs, sign);
    GenTokenRegisters(s, email, role, exp, nowMs, sign, tok);
    ExpiryIsExact(s, c.email, tok, exp * 60, elapsed);
    var later := Elapse(g.store, elapsed);
    if elapsed >= exp * 60 {
      MissingRecordIsExpired(later, tok, required, verify, c);
    } else if ClaimToRole(role) >= required {
      RoleGate(later, tok, required, verify, c);
    }
  }

  // -------------------------------------------------------------- kickoff

  /** Kickoff succeeds and removes the key exactly when a non-empty value is stored; nothing else changes. */
  lemma KickoffContract(s: StoreState, key: string)
    ensures var k := KickoffSpec(s, key);
      && (k.result == Ok(true) <==> s.connected && s.up && key in s.kv && s.kv[key] != "")
      && (k.result.Ok? ==> k.result == Ok(true) && k.store.kv == s.kv - {key} && k.store.ttl == s.ttl - {key})
      && (k.result.Err? ==> k.store.kv == s.kv && k.store.ttl == s.ttl)
      && k.store.connected && k.store.up == s.up
  {
  }

  /** A token whose record was kicked off reads as expired afterwards. */
  lemma KickoffThenExpired(s: StoreState, tok: string, c: TokenClaims, role: int, verify: Verifier)
    requires verify(tok) == Parsed(c, true)
    requires KickoffSpec(s, c.email).result.Ok?
    ensures ParseTokenSpec(KickoffSpec(s, c.email).store, tok, role, verify).result == Err(TokenError(ErrCodeExpired))
  {
  }

  // ----------------------------------------------------------- middleware

  lemma MissingAuthorizationHeader(s: StoreState, accessTime: int, refreshTime: int, role: string, req: Request,
                                   verify: Verifier, sign: Signer, nowAccess: int, nowRefresh: int)
    requires req.authorization == ""
    ensures MiddlewareSpec(s, accessTime, refreshTime, role, req, verify, sign, nowAccess, nowRefresh)
         == Step(Reject(401, 4007), s)
  {
  }

  /** A header that does not start with "Bearer " is refused before any token is parsed. */
  lemma WrongAuthorizationHeader(s: StoreState, accessTime: int, refreshTime: int, role: string, req: Request,
                                 verify: Verifier, sign: Signer, nowAccess: int, nowRefresh: int)
    requires req.authorization != ""
    requires !(|req.authorization| >= 7 && req.authorization[..7] == "Bearer ")
    ensures MiddlewareSpec(s, accessTime, refreshTime, role, req, verify, sign, nowAccess, nowRefresh)
         == Step(Reject(400, 4008), s)
  {
  }

  /** The parse errors other than expiry map one to one onto 400 responses. */
  lemma ParseErrorsMapToResponses(s: StoreState, accessTime: int, refreshTime: int, role: string, req: Request,
                                  verify: Verifier, sign: Signer, nowAccess: int, nowRefresh: int, tok: string)
    requires req.authorization == "Bearer " + tok
    ensures var p := ParseTokenSpec(s, tok, ClaimToRole(role), verify);
      var m := MiddlewareSpec(s, accessTime, refreshTime, role, req, verify, sign, nowAccess, nowRefresh);
      && (p.result == Err(TokenError(ErrCodeMalformed)) ==> m == Step(Reject(400, 4001), p.store))
      && (p.result == Err(TokenError(ErrCodeNotValidYet)) ==> m == Step(Reject(400, 4003), p.store))
      && (p.result == Err(TokenError(ErrCodeInvalidToken)) ==> m == Step(Reject(400, 4004), p.store))
      && (p.result == Err(TokenError(ErrCodeInvalidRole)) ==> m == Step(Reject(400, 4005), p.store))
  {
    assert BearerToken(req.authorization) == Some(tok);
  }

  /** An expired token with a missing or unacceptable refresh token is refused with 4002. */
  lemma ExpiredWithoutUsableRefresh(s: StoreState, accessTime: int, refreshTime: int, role: string, req: Request,
                                    verify: Verifier, sign: Signer, nowAccess: int, nowRefresh: int, tok: string)
    requires req.authorization == "Bearer " + tok
    requires ParseTokenSpec(s, tok, ClaimToRole(role), verify).result == Err(TokenError(ErrCodeExpired))
    ensures var p := ParseTokenSpec(s, tok, ClaimToRole(role), verify);
      var m := MiddlewareSpec(s, accessTime, refreshTime, role, req, verify, sign, nowAccess, nowRefresh);
      && (req.refreshToken == "" ==> m == Step(Reject(400, 4002), p.store))
      && ((req.refreshToken != "" && ParseTokenSpec(p.store, req.refreshToken, ClaimToRole(role), verify).result.Err?)
          ==> m.result == Reject(400, 4002))
  {
    assert BearerToken(req.authorization) == Some(tok);
  }

  /**
   * A successful refresh mints an access token of ACCESS_TIME minutes and a
   * refresh token of REFRESH_TIME minutes from the refresh claims' key and
   * role, registers both under that key extended by each instant, sets both
   * headers, and then crashes on the nil claims of the expired token.
   */
  lemma SuccessfulRefreshCrashes(s: StoreState, accessTime: int, refreshTime: int, role: string, req: Request,
                                 verify: Verifier, sign: Signer, nowAccess: int, nowRefresh: int,
                                 tok: string, mt: TokenClaims, access: string, refresh: string)
    requires req.authorization == "Bearer " + tok && req.refreshToken != ""
    requires ParseTokenSpec(s, tok, ClaimToRole(role), verify).result == Err(TokenError(ErrCodeExpired))
    requires ParseTokenSpec(ParseTokenSpec(s, tok, ClaimToRole(role), verify).store, req.refreshToken,
                            ClaimToRole(role), verify).result == Ok(mt)
    requires sign(NewClaims(mt.email, mt.role, accessTime, nowAccess), Secret) == Some(access)
    requires sign(NewClaims(mt.email, mt.role, refreshTime, nowRefresh), Secret) == Some(refresh)
    requires nowAccess != nowRefresh
    ensures var m := MiddlewareSpec(s, accessTime, refreshTime, role, req, verify, sign, nowAccess, nowRefresh);
      && m.result == Crash(map["Refresh-Token" := refresh, "Access-Token" := access])
      && TokenKey(mt.email, nowAccess) in m.store.kv && m.store.kv[TokenKey(mt.email, nowAccess)] == access
      && TokenKey(mt.email, nowRefresh) in m.store.kv && m.store.kv[TokenKey(mt.email, nowRefresh)] == refresh
  {
    var p := ParseTokenSpec(s, tok, ClaimToRole(role), verify);
    var q := ParseTokenSpec(p.store, req.refreshToken, ClaimToRole(role), verify);
    assert BearerToken(req.authorization) == Some(tok);
    AcceptedMeansLive(p.store, req.refreshToken, ClaimToRole(role), verify);
    ParseTouchesOnlyItsKey(p.store, req.refreshToken, ClaimToRole(role), verify);
    var a := GenTokenSpec(q.store, mt.email, mt.role, accessTime, nowAccess, sign);
    GenTokenRegisters(q.store, mt.email, mt.role, accessTime, nowAccess, sign, access);
    GenTokenRegisters(a.store, mt.email, mt.role, refreshTime, nowRefresh, sign, refresh);
    DistinctInstantsDistinctKeys(mt.email, nowAccess, nowRefresh);
  }

  /**
   * When the first reissue of a refresh fails to sign, the handler writes
   * a 500 body and returns without aborting the chain.
   */
  lemma RefreshSigningFailureDoesNotAbort(s: StoreState, accessTime: int, refreshTime: int, role: string,
                                          req: Request, verify: Verifier, sign: Signer, nowAccess: int,
                                          nowRefresh: int, tok: string, mt: TokenClaims)
    requires req.authorization == "Bearer " + tok && req.refreshToken != ""
    requires ParseTokenSpec(s, tok, ClaimToRole(role), verify).result == Err(TokenError(ErrCodeExpired))
    requires ParseTokenSpec(ParseTokenSpec(s, tok, ClaimToRole(role), verify).store, req.refreshToken,
                            ClaimToRole(role), verify).result == Ok(mt)
    requires sign(NewClaims(mt.email, mt.role, accessTime, nowAccess), Secret) == None
    ensures MiddlewareSpec(s, accessTime, refreshTime, role, req, verify, sign, nowAccess, nowRefresh).result
         == Unaborted(500, 500)
  {
    assert BearerToken(req.authorization) == Some(tok);
  }

  /** A request is admitted exactly when its bearer token parses, with the claims' key as identity. */
  lemma AdmitOnlyWhenParsed(s: StoreState, accessTime: int, refreshTime: int, role: string, req: Request,
                            verify: Verifier, sign: Signer, nowAccess: int, nowRefresh: int)
    ensures var m := MiddlewareSpec(s, accessTime, refreshTime, role, req, verify, sign, nowAccess, nowRefresh);
      var b := BearerToken(req.authorization);
      && (m.result.Admit? <==>
            req.authorization != "" && b.Some? && ParseTokenSpec(s, b.value, ClaimToRole(role), verify).result.Ok?)
      && (m.result.Admit? ==> m.result.email == ParseTokenSpec(s, b.value, ClaimToRole(role), verify).result.value.email)
  {
    var b := BearerToken(req.authorization);
    if req.authorization != "" && b.Some? {
      ParseErrorCodes(s, b.value, ClaimToRole(role), verify);
    }
  }

  /** A crash without new tokens comes only from an error that is not a *TokenError; the default branch is dead. */
  lemma BareCrashMeansForeignError(s: StoreState, accessTime: int, refreshTime: int, role: string, req: Request,
                                   verify: Verifier, sign: Signer, nowAccess: int, nowRefresh: int)
    ensures var m := MiddlewareSpec(s, accessTime, refreshTime, role, req, verify, sign, nowAccess, nowRefresh);
      var b := BearerToken(req.authorization);
      m.result.Crash? && "Access-Token" !in m.result.headers ==>
        && req.authorization != "" && b.Some?
        && ParseTokenSpec(s, b.value, ClaimToRole(role), verify).result.Err?
        && !ParseTokenSpec(s, b.value, ClaimToRole(role), verify).result.error.TokenError?
  {
    if req.authorization != "" && BearerToken(req.authorization).Some? {
      ParseErrorCodes(s, BearerToken(req.authorization).value, ClaimToRole(role), verify);
    }
  }

  /** Before the client exists, a verified bearer token makes the middleware crash, and connects the client. */
  lemma FreshProcessCrashes(s: StoreState, accessTime: int, refreshTime: int, role: string, req: Request,
                            verify: Verifier, sign: Signer, nowAccess: int, nowRefresh: int, tok: string, c: TokenClaims)
    requires !s.connected && req.authorization == "Bearer " + tok && verify(tok) == Parsed(c, true)
    ensures MiddlewareSpec(s, accessTime, refreshTime, role, req, verify, sign, nowAccess, nowRefresh)
         == Step(Crash(map[]), Connect(s))
  {
    assert BearerToken(req.authorization) == Some(tok);
  }
}
