/**
 * server/routes/users-routes.go: the login handler and the refresh handler
 * (getNewAccessToken). Each is a spec function from the request and the tables to the
 * response and the new refresh-token table, and a method that runs the same chain
 * against the repository.
 */
module UsersRoutes {
  import opened Wrappers
  import opened Errors
  import opened Http
  import opened Models
  import opened Jwt
  import opened Settings
  import opened UserStore
  import opened UsersService

  /** The login request body. */
  datatype Credentials = Credentials(password: string, email: string)

  const RefreshTokenHeader := "Refresh-Token"

  /**
   * LoginUser: an unbindable body is 400; any failure of the access token (unknown
   * email, wrong password, signing) is the same 401; a failure of the refresh token after
   * that is 500; otherwise both tokens are returned.
   */
  function LoginFlow(cfg: Config, env: Env, users: seq<User>, tokens: TokenTable, body: Option<Credentials>): (res: (Response, TokenTable))
    ensures res.0.status in {StatusOK, StatusBadRequest, StatusUnauthorized, StatusInternalServerError}
    ensures res.0.status != StatusOK ==> res.1 == tokens
    ensures body.None? <==> res.0 == Fail(StatusBadRequest, BadRequest)
    ensures body.None? ==> res.1 == tokens
  {
    match body
    case None => (Fail(StatusBadRequest, BadRequest), tokens)
    case Some(creds) =>
      var access := GetJWT(users, cfg, env, creds.email, creds.password, cfg.accessTokenLifetimeMinutes, false);
      if access.err.Some? then (Fail(StatusUnauthorized, Unauthorized), tokens)
      else
        var (refresh, stored) := IssueRefreshToken(users, tokens, cfg, env, creds.email, creds.password, false);
        if refresh.err.Some? then (Fail(StatusInternalServerError, InternalServer), stored)
        else (Response(StatusOK, TokenResponse(access.token, refresh.token)), stored)
  }

  /** The cross-check of getNewAccessToken, as written with &&. */
  predicate OwnerMismatch(user: User, claims: Claims) {
    user.email != claims.email && user.id != claims.id
  }

  /**
   * getNewAccessToken: an expired token is 401 TokenExpired, any other parse failure 401
   * Unauthorized; a token no user holds in the store is 401; so is a failed cross-check;
   * then a new access token and a new refresh token are issued for the owner's email
   * without any password check (a failure of the access token is 401, of the refresh
   * token 500).
   */
  function RefreshFlow(cfg: Config, env: Env, users: seq<User>, tokens: TokenTable, refreshToken: TokenString): (res: (Response, TokenTable))
    ensures res.0.status in {StatusOK, StatusUnauthorized, StatusInternalServerError}
    ensures res.0.status != StatusOK ==> res.1 == tokens
  {
    match ParseWithClaims(refreshToken, cfg.secretKey, env.now)
    case Expired => (Fail(StatusUnauthorized, TokenExpired), tokens)
    case Invalid => (Fail(StatusUnauthorized, Unauthorized), tokens)
    case Valid(claims) =>
      match GetUserByRefreshToken(users, tokens, refreshToken)
      case None => (Fail(StatusUnauthorized, Unauthorized), tokens)
      case Some(user) =>
        if OwnerMismatch(user, claims) then (Fail(StatusUnauthorized, Unauthorized), tokens)
        else
          var access := GetJWT(users, cfg, env, user.email, "", cfg.accessTokenLifetimeMinutes, true);
          if access.err.Some? then (Fail(StatusUnauthorized, Unauthorized), tokens)
          else
            var (refresh, stored) := IssueRefreshToken(users, tokens, cfg, env, user.email, "", true);
            if refresh.err.Some? then (Fail(StatusInternalServerError, InternalServer), stored)
            else (Response(StatusOK, TokenResponse(access.token, refresh.token)), stored)
  }

  /** LoginUser against the repository. */
  method LoginUser(repo: UserRepository, cfg: Config, env: Env, body: Option<Credentials>) returns (resp: Response)
    modifies repo`refreshTokens
    ensures (resp, repo.refreshTokens) == LoginFlow(cfg, env, repo.users, old(repo.refreshTokens), body)
  {
    if body.None? {
      return Fail(StatusBadRequest, BadRequest);
    }
    var creds := body.value;
    var access := GetJWT(repo.users, cfg, env, creds.email, creds.password, cfg.accessTokenLifetimeMinutes, false);
    if access.err.Some? {
      return Fail(StatusUnauthorized, Unauthorized);
    }
    var refresh := GetRefreshToken(repo, cfg, env, creds.email, creds.password, false);
    if refresh.err.Some? {
      return Fail(StatusInternalServerError, InternalServer);
    }
    resp := Response(StatusOK, TokenResponse(access.token, refresh.token));
  }

  /** getNewAccessToken against the repository; the token comes from the Refresh-Token header. */
  method GetNewAccessToken(c: RequestContext, repo: UserRepository, cfg: Config, env: Env) returns (resp: Response)
    modifies repo`refreshTokens
    ensures (resp, repo.refreshTokens)
            == RefreshFlow(cfg, env, repo.users, old(repo.refreshTokens), c.Header(RefreshTokenHeader))
  {
    var refreshToken := c.Header(RefreshTokenHeader);
    var parsed := ParseWithClaims(refreshToken, cfg.secretKey, env.now);
    if parsed.Expired? {
      return Fail(StatusUnauthorized, TokenExpired);
    } else if parsed.Invalid? {
      return Fail(StatusUnauthorized, Unauthorized);
    }
    var claims := parsed.claims;
    var owner := GetUserByRefreshToken(repo.users, repo.refreshTokens, refreshToken);
    if owner.None? {
      return Fail(StatusUnauthorized, Unauthorized);
    }
    var user := owner.value;
    if OwnerMismatch(user, claims) {
      return Fail(StatusUnauthorized, Unauthorized);
    }
    var access := GetJWT(repo.users, cfg, env, user.email, "", cfg.accessTokenLifetimeMinutes, true);
    if access.err.Some? {
      return Fail(StatusUnauthorized, Unauthorized);
    }
    var refresh := GetRefreshToken(repo, cfg, env, user.email, "", true);
    if refresh.err.Some? {
      return Fail(StatusInternalServerError, InternalServer);
    }
    resp := Response(StatusOK, TokenResponse(access.token, refresh.token));
  }

  // ----- Login -----

  /** An unknown email and a wrong password for a known one get the very same response, and nothing is stored. */
  lemma LoginHidesWhichCheckFailed(cfg: Config, env: Env, users: seq<User>, tokens: TokenTable,
                                   unknown: Credentials, wrong: Credentials)
    requires GetUserByEmail(users, unknown.email).None?
    requires GetUserByEmail(users, wrong.email).Some?
    requires !CheckPasswordHash(wrong.password, GetUserByEmail(users, wrong.email).value.passwordHash, cfg)
    ensures LoginFlow(cfg, env, users, tokens, Some(unknown)) == LoginFlow(cfg, env, users, tokens, Some(wrong))
            == (Fail(StatusUnauthorized, Unauthorized), tokens)
  {
  }

  /**
   * Login succeeds exactly when the email is stored, the password matches its hash and
   * neither signing nor the store fails; then the access token names the stored user
   * (whose email is the one given) for the access lifetime from the access issuance's
   * clock reading, and the refresh token, which names the same user for the refresh
   * lifetime from the refresh issuance's own reading, is now that user's stored token,
   * stamped with the database's clock.
   */
  lemma LoginSucceeds(cfg: Config, env: Env, users: seq<User>, tokens: TokenTable, creds: Credentials)
    ensures var (resp, stored) := LoginFlow(cfg, env, users, tokens, Some(creds));
            var found := GetUserByEmail(users, creds.email);
            && (resp.status == StatusOK <==>
                  found.Some? && CheckPasswordHash(creds.password, found.value.passwordHash, cfg)
                  && !env.signingFails && !env.storeFails)
            && (resp.status == StatusOK ==>
                  && resp.body.TokenResponse?
                  && found.value.email == creds.email
                  && IssuedFor(resp.body.accessToken, cfg.secretKey, found.value,
                               ExpiresIn(env.now, cfg.accessTokenLifetimeMinutes))
                  && IssuedFor(resp.body.refreshToken, cfg.secretKey, found.value,
                               ExpiresIn(env.refreshNow, cfg.refreshTokenLifetimeMinutes))
                  && stored == tokens[found.value.id := RefreshTokenRow(resp.body.refreshToken, env.dbNow)])
  {
  }

  /**
   * After a successful access token, login fails only through the refresh token's store
   * write, and that is a 500; a signing failure shows as the same 401 as bad credentials.
   */
  lemma LoginServerErrors(cfg: Config, env: Env, users: seq<User>, tokens: TokenTable, creds: Credentials)
    ensures var resp := LoginFlow(cfg, env, users, tokens, Some(creds)).0;
            var found := GetUserByEmail(users, creds.email);
            && (resp.status == StatusInternalServerError <==>
                  found.Some? && CheckPasswordHash(creds.password, found.value.passwordHash, cfg)
                  && !env.signingFails && env.storeFails)
            && (env.signingFails ==> resp == Fail(StatusUnauthorized, Unauthorized))
  {
  }

  // ----- Refresh -----

  /** An expired token gets TokenExpired; every other parse or signature failure gets Unauthorized; both are 401. */
  lemma RefreshParseFailures(cfg: Config, env: Env, users: seq<User>, tokens: TokenTable, t: TokenString)
    ensures ParseWithClaims(t, cfg.secretKey, env.now).Expired? ==>
              RefreshFlow(cfg, env, users, tokens, t) == (Fail(StatusUnauthorized, TokenExpired), tokens)
    ensures ParseWithClaims(t, cfg.secretKey, env.now).Invalid? ==>
              RefreshFlow(cfg, env, users, tokens, t) == (Fail(StatusUnauthorized, Unauthorized), tokens)
    ensures RefreshFlow(cfg, env, users, tokens, Empty) == (Fail(StatusUnauthorized, Unauthorized), tokens)
  {
  }

  /** A correctly signed, unexpired token that no user holds in the store is rejected. */
  lemma RefreshRejectsUnheldToken(cfg: Config, env: Env, users: seq<User>, tokens: TokenTable, t: TokenString)
    requires ParseWithClaims(t, cfg.secretKey, env.now).Valid?
    requires forall u :: u in users && u.id in tokens ==> tokens[u.id].token != t
    ensures RefreshFlow(cfg, env, users, tokens, t) == (Fail(StatusUnauthorized, Unauthorized), tokens)
  {
    assert GetUserByRefreshToken(users, tokens, t).None?;
  }

  /**
   * With distinct emails, refresh succeeds exactly when the token parses, some user holds
   * it, the cross-check passes (the email OR the id matches) and neither signing nor the
   * store fails: no password enters. The new tokens name the token's holder, each with
   * its own issuance's clock reading, and the new refresh token replaces the presented one.
   */
  lemma RefreshSucceeds(cfg: Config, env: Env, users: seq<User>, tokens: TokenTable, t: TokenString)
    requires EmailsDistinct(users)
    ensures var (resp, stored) := RefreshFlow(cfg, env, users, tokens, t);
            var parsed := ParseWithClaims(t, cfg.secretKey, env.now);
            var owner := GetUserByRefreshToken(users, tokens, t);
            && (resp.status == StatusOK <==>
                  && parsed.Valid? && owner.Some?
                  && (owner.value.email == parsed.claims.email || owner.value.id == parsed.claims.id)
                  && !env.signingFails && !env.storeFails)
            && (resp.status == StatusOK ==>
                  && resp.body.TokenResponse?
                  && IssuedFor(resp.body.accessToken, cfg.secretKey, owner.value,
                               ExpiresIn(env.now, cfg.accessTokenLifetimeMinutes))
                  && IssuedFor(resp.body.refreshToken, cfg.secretKey, owner.value,
                               ExpiresIn(env.refreshNow, cfg.refreshTokenLifetimeMinutes))
                  && stored == tokens[owner.value.id := RefreshTokenRow(resp.body.refreshToken, env.dbNow)])
  {
    var parsed := ParseWithClaims(t, cfg.secretKey, env.now);
    var owner := GetUserByRefreshToken(users, tokens, t);
    if parsed.Valid? && owner.Some? {
      EmailLookupFindsTheUser(users, owner.value);
    }
  }

  /** The cross-check rejects a held token only when its claims differ from the holder in both email and id. */
  lemma CrossCheckNeedsBothToDiffer(cfg: Config, env: Env, users: seq<User>, tokens: TokenTable, t: TokenString)
    requires ParseWithClaims(t, cfg.secretKey, env.now).Valid?
    requires GetUserByRefreshToken(users, tokens, t).Some?
    ensures var claims := ParseWithClaims(t, cfg.secretKey, env.now).claims;
            var holder := GetUserByRefreshToken(users, tokens, t).value;
            RefreshFlow(cfg, env, users, tokens, t).0 == Fail(StatusUnauthorized, Unauthorized)
            <== holder.email != claims.email && holder.id != claims.id
    ensures var claims := ParseWithClaims(t, cfg.secretKey, env.now).claims;
            var holder := GetUserByRefreshToken(users, tokens, t).value;
            (holder.email == claims.email || holder.id == claims.id) && !env.signingFails && !env.storeFails
            ==> RefreshFlow(cfg, env, users, tokens, t).0.status == StatusOK
  {
    var holder := GetUserByRefreshToken(users, tokens, t).value;
    assert GetUserByEmail(users, holder.email).Some?;
  }

  /**
   * Once the token is valid, held and passes the cross-check, refresh can fail only at
   * issuance: a signing failure of the new access token is 401, a failed store write of
   * the new refresh token is 500, and neither stores anything.
   */
  lemma RefreshServerErrors(cfg: Config, env: Env, users: seq<User>, tokens: TokenTable, t: TokenString)
    ensures var parsed := ParseWithClaims(t, cfg.secretKey, env.now);
            var owner := GetUserByRefreshToken(users, tokens, t);
            var res := RefreshFlow(cfg, env, users, tokens, t);
            && (res.0.status == StatusInternalServerError <==>
                  && parsed.Valid? && owner.Some? && !OwnerMismatch(owner.value, parsed.claims)
                  && !env.signingFails && env.storeFails)
            && (res.0.status == StatusInternalServerError ==> res == (Fail(StatusInternalServerError, InternalServer), tokens))
            && (parsed.Valid? && env.signingFails ==> res == (Fail(StatusUnauthorized, Unauthorized), tokens))
  {
    var owner := GetUserByRefreshToken(users, tokens, t);
    if owner.Some? {
      assert GetUserByEmail(users, owner.value.email).Some?;
    }
  }

  // ----- The single-session invariant -----

  /** Every stored refresh token is a signed token whose claims name the user it is stored for. */
  ghost predicate TokensNameOwners(tokens: TokenTable) {
    forall id :: id in tokens ==> tokens[id].token.Compact? && tokens[id].token.claims.id == id
  }

  /** An issued token is the signed form of the user's id and email with its expiry. */
  lemma IssuedForNamesUser(t: TokenString, key: string, u: User, exp: int)
    requires IssuedFor(t, key, u, exp)
    ensures t.Compact? && t.claims == Claims(u.id, u.email, Some(exp)) && t.macKey == key && IsHmac(t.alg)
  {
    assert ParseWithClaims(t, key, exp - 1) == Valid(Claims(u.id, u.email, Some(exp)));
  }

  /** Login keeps every stored token naming its owner. */
  lemma LoginKeepsTokensNamingOwners(cfg: Config, env: Env, users: seq<User>, tokens: TokenTable, body: Option<Credentials>)
    requires TokensNameOwners(tokens)
    ensures TokensNameOwners(LoginFlow(cfg, env, users, tokens, body).1)
  {
    var (resp, stored) := LoginFlow(cfg, env, users, tokens, body);
    if resp.status == StatusOK {
      var creds := body.value;
      LoginSucceeds(cfg, env, users, tokens, creds);
      IssuedForNamesUser(resp.body.refreshToken, cfg.secretKey, GetUserByEmail(users, creds.email).value,
                         ExpiresIn(env.refreshNow, cfg.refreshTokenLifetimeMinutes));
    }
  }

  /** Refresh keeps every stored token naming its owner. */
  lemma RefreshKeepsTokensNamingOwners(cfg: Config, env: Env, users: seq<User>, tokens: TokenTable, t: TokenString)
    requires EmailsDistinct(users) && TokensNameOwners(tokens)
    ensures TokensNameOwners(RefreshFlow(cfg, env, users, tokens, t).1)
  {
    var (resp, stored) := RefreshFlow(cfg, env, users, tokens, t);
    if resp.status == StatusOK {
      RefreshSucceeds(cfg, env, users, tokens, t);
      IssuedForNamesUser(resp.body.refreshToken, cfg.secretKey, GetUserByRefreshToken(users, tokens, t).value,
                         ExpiresIn(env.refreshNow, cfg.refreshTokenLifetimeMinutes));
    }
  }

  /** While stored tokens name their owners, the cross-check never rejects: a held token names its holder's id. */
  lemma CrossCheckNeverFires(cfg: Config, env: Env, users: seq<User>, tokens: TokenTable, t: TokenString)
    requires TokensNameOwners(tokens)
    requires ParseWithClaims(t, cfg.secretKey, env.now).Valid?
    requires GetUserByRefreshToken(users, tokens, t).Some?
    ensures !OwnerMismatch(GetUserByRefreshToken(users, tokens, t).value, ParseWithClaims(t, cfg.secretKey, env.now).claims)
  {
  }

  /**
   * A token naming user `u` that is not `u`'s stored token is refused (401, nothing
   * stored): no other user can hold it, since their tokens name them.
   */
  lemma SupersededTokenRefused(cfg: Config, env: Env, users: seq<User>, tokens: TokenTable, u: User, t: TokenString)
    requires TokensNameOwners(tokens)
    requires t.Compact? && t.claims.id == u.id
    requires u.id in tokens ==> tokens[u.id].token != t
    ensures RefreshFlow(cfg, env, users, tokens, t).0.status == StatusUnauthorized
    ensures RefreshFlow(cfg, env, users, tokens, t).1 == tokens
  {
    if ParseWithClaims(t, cfg.secretKey, env.now).Valid? {
      forall v | v in users && v.id in tokens
        ensures tokens[v.id].token != t
      {
      }
      RefreshRejectsUnheldToken(cfg, env, users, tokens, t);
    }
  }
}
