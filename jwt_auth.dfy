/**
 * The state and the statements of jwt/jwt.go: the package variables
 * ACCESS_TIME and REFRESH_TIME, and the functions that read, write and
 * delete store entries through the connect-once client.  Each method runs
 * the statements of jwt.go in order against a `Redis.Store` and is proved to
 * return, and to leave the store in, exactly what the functions of module
 * `Jwt` say.
 */
module JwtAuth {
  import opened Wrappers
  import opened Redis
  import opened Jwt
  import Decimal

  class Auth {
    var accessTime: int     // ACCESS_TIME, minutes
    var refreshTime: int    // REFRESH_TIME, minutes
    const store: Store

    constructor (store: Store)
      ensures this.store == store
      ensures accessTime == DefaultAccessTime && refreshTime == DefaultRefreshTime
    {
      this.store := store;
      accessTime, refreshTime := DefaultAccessTime, DefaultRefreshTime;
    }

    /** SetTime (jwt/jwt.go:71-74). */
    method SetTime(access: int, refresh: int)
      modifies this
      ensures accessTime == access && refreshTime == refresh
    {
      accessTime := access;
      refreshTime := refresh;
    }

    /** GenToken (jwt/jwt.go:77-102); `nowMs` is the instant of time.Now(). */
    method GenToken(email: string, role: string, exp: int, nowMs: int, sign: Signer)
      returns (r: Result<string>)
      requires store.State().Valid()
      modifies store
      ensures store.State().Valid()
      ensures Step(r, store.State()) == GenTokenSpec(old(store.State()), email, role, exp, nowMs, sign)
    {
      var key := email + Decimal.FormatInt(nowMs);
      var c := TokenClaims(key, role, exp, UnixSeconds(nowMs) + exp * 60, Issuer, UnixSeconds(nowMs));
      var signed := sign(c, Secret);
      if signed.None? {
        return Err(LibraryError);
      }
      var created := store.SetRedisClient();
      if !created {
        store.SetValue(key, signed.value, exp * 60);
      } else {
        return Err(Message(NoRedisConnections));
      }
      return Ok(signed.value);
    }

    /** Kickoff (jwt/jwt.go:155-171). */
    method Kickoff(email: string) returns (r: Result<bool>)
      requires store.State().Valid()
      modifies store
      ensures store.State().Valid()
      ensures Step(r, store.State()) == KickoffSpec(old(store.State()), email)
    {
      var created := store.SetRedisClient();
      if !created {
        var str, failed := store.GetValue(email);
        if failed {
          return Err(StoreError);
        }
        if str == "" {
          return Err(Message(InvalidTokenText));
        }
        store.DeleteValue(email);
        return Ok(true);
      } else {
        return Err(Message(NoRedisConnections));
      }
    }

    /** ParseToken (jwt/jwt.go:104-152); `verify` is jwt.ParseWithClaims at the current time. */
    method ParseToken(tokenString: string, role: int, verify: Verifier) returns (r: Result<TokenClaims>)
      requires store.State().Valid()
      modifies store
      ensures store.State().Valid()
      ensures Step(r, store.State()) == ParseTokenSpec(old(store.State()), tokenString, role, verify)
    {
      var verdict := verify(tokenString);
      match verdict {
        case ValidationFailed(errors) =>
          return Err(TokenError(Classify(errors)));
        case OtherFailure =>
          return Err(LibraryError);
        case Parsed(claims, valid) =>
          if !valid {
            return Err(Message(InvalidTokenText));
          }
          var created := store.SetRedisClient();
          if created {
            return Err(Message(NoRedisConnections));
          }
          var str, failed := store.GetValue(claims.email);
          if str == "" {
            return Err(TokenError(ErrCodeExpired));
          } else if str != tokenString {
            return Err(TokenError(ErrCodeInvalidToken));
          }
          // GetValue pairs every error with "", so the error check at jwt.go:131 never fires here.
          assert !failed;
          if ClaimToRole(claims.role) >= role {
            if claims.role == "temp" {
              var k := Kickoff(claims.email);
              // The value just read is non-empty and the client exists, so Kickoff succeeds.
              assert k.Ok?;
            }
            return Ok(claims);
          } else {
            return Err(TokenError(ErrCodeInvalidRole));
          }
      }
    }

    /**
     * One request through the closure JWTAuthMiddleware(role) returns
     * (jwt/jwt.go:173-271); `nowAccess` and `nowRefresh` are the instants of
     * the two GenToken calls of a refresh.
     */
    method JWTAuthMiddleware(role: string, req: Request, verify: Verifier, sign: Signer,
                             nowAccess: int, nowRefresh: int) returns (out: Outcome)
      requires store.State().Valid()
      modifies store
      ensures store.State().Valid()
      ensures Step(out, store.State())
           == MiddlewareSpec(old(store.State()), accessTime, refreshTime, role, req, verify, sign,
                             nowAccess, nowRefresh)
    {
      if req.authorization == "" {
        return Reject(401, 4007);
      }
      var bearer := BearerToken(req.authorization);
      if bearer.None? {
        return Reject(400, 4008);
      }
      var r := ParseToken(bearer.value, ClaimToRole(role), verify);
      if r.Ok? {
        return Admit(r.value.email);
      }
      if !r.error.TokenError? {
        // Falls through to c.Set("email", claims.Email) with nil claims.
        return Crash(map[]);
      }
      if r.error.code != ErrCodeExpired {
        return ResponseForCode(r.error.code);
      }
      if req.refreshToken == "" {
        return Reject(400, 4002);
      }
      var mt := ParseToken(req.refreshToken, ClaimToRole(role), verify);
      if mt.Err? {
        return Reject(400, 4002);
      }
      var token := GenToken(mt.value.email, mt.value.role, accessTime, nowAccess, sign);
      if token.Err? {
        return Unaborted(500, 500);
      }
      var refresh := GenToken(mt.value.email, mt.value.role, refreshTime, nowRefresh, sign);
      var headers := map["Refresh-Token" := StringOf(refresh), "Access-Token" := token.value];
      // c.Set("email", claims.Email) dereferences the nil claims of the first ParseToken.
      return Crash(headers);
    }
  }
}
