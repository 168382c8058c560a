/**
 * Properties of login, refresh and the auth gate taken together: one refresh token per
 * user that the refresh handler accepts, rotation on refresh, and refresh tokens passing
 * the gate (no claim tells the two kinds of token apart), each token's expiry counted
 * from its own issuance's clock reading.
 */
module Sessions {
  import opened Wrappers
  import opened Errors
  import opened Http
  import opened Models
  import opened Jwt
  import opened Settings
  import opened UserStore
  import opened UsersService
  import opened UsersRoutes
  import opened Middleware

  /**
   * Logging in twice, with the two refresh issuances in different seconds, leaves only the
   * second refresh token usable: the first is refused with 401 at any later time and the
   * store is left as it was.
   */
  lemma SecondLoginSupersedesFirst(cfg: Config, e1: Env, e2: Env, e3: Env, users: seq<User>, tokens: TokenTable, creds: Credentials)
    requires TokensNameOwners(tokens)
    requires e1.refreshNow != e2.refreshNow
    requires LoginFlow(cfg, e1, users, tokens, Some(creds)).0.status == StatusOK
    requires LoginFlow(cfg, e2, users, LoginFlow(cfg, e1, users, tokens, Some(creds)).1, Some(creds)).0.status == StatusOK
    ensures var (r1, s1) := LoginFlow(cfg, e1, users, tokens, Some(creds));
            var (r2, s2) := LoginFlow(cfg, e2, users, s1, Some(creds));
            && RefreshFlow(cfg, e3, users, s2, r1.body.refreshToken).0.status == StatusUnauthorized
            && RefreshFlow(cfg, e3, users, s2, r1.body.refreshToken).1 == s2
  {
    var (r1, s1) := LoginFlow(cfg, e1, users, tokens, Some(creds));
    var (r2, s2) := LoginFlow(cfg, e2, users, s1, Some(creds));
    LoginSucceeds(cfg, e1, users, tokens, creds);
    LoginSucceeds(cfg, e2, users, s1, creds);
    LoginKeepsTokensNamingOwners(cfg, e1, users, tokens, Some(creds));
    LoginKeepsTokensNamingOwners(cfg, e2, users, s1, Some(creds));
    var u := GetUserByEmail(users, creds.email).value;
    IssuedForNamesUser(r1.body.refreshToken, cfg.secretKey, u, ExpiresIn(e1.refreshNow, cfg.refreshTokenLifetimeMinutes));
    IssuedForNamesUser(r2.body.refreshToken, cfg.secretKey, u, ExpiresIn(e2.refreshNow, cfg.refreshTokenLifetimeMinutes));
    SupersededTokenRefused(cfg, e3, users, s2, u, r1.body.refreshToken);
  }

  /** After a refresh token is stored for `u`, presenting it finds `u` (tokens name their owners, ids are distinct). */
  lemma StoredTokenFindsOwner(users: seq<User>, tokens: TokenTable, u: User, t: TokenString, now: int)
    requires IdsDistinct(users) && u in users && TokensNameOwners(tokens)
    requires t.Compact? && t.claims.id == u.id
    ensures GetUserByRefreshToken(users, tokens[u.id := RefreshTokenRow(t, now)], t) == Some(u)
  {
    UpsertThenLookup(users, tokens, u, t, now);
  }

  /**
   * Login, then refresh with the issued token before it expires, each issuance of the
   * refresh falling in a later second than the login's: the refresh succeeds with a new
   * pair different from the first; the first refresh token is refused from then on; the
   * new one is accepted while it lives; the new access token passes the auth gate as the
   * same user.
   */
  lemma RotationScenario(cfg: Config, e1: Env, e2: Env, e3: Env, users: seq<User>, tokens: TokenTable, creds: Credentials)
    requires IdsDistinct(users) && EmailsDistinct(users) && TokensNameOwners(tokens)
    requires LoginFlow(cfg, e1, users, tokens, Some(creds)).0.status == StatusOK
    requires e1.now < e2.now && e1.refreshNow < e2.refreshNow
    requires e2.now < ExpiresIn(e1.refreshNow, cfg.refreshTokenLifetimeMinutes)
    requires !e2.signingFails && !e2.storeFails
    ensures var (r1, s1) := LoginFlow(cfg, e1, users, tokens, Some(creds));
            var (r2, s2) := RefreshFlow(cfg, e2, users, s1, r1.body.refreshToken);
            var u := GetUserByEmail(users, creds.email).value;
            && r2.status == StatusOK
            && r2.body.accessToken != r1.body.accessToken
            && r2.body.refreshToken != r1.body.refreshToken
            && RefreshFlow(cfg, e3, users, s2, r1.body.refreshToken).0.status == StatusUnauthorized
            && (e3.now < ExpiresIn(e2.refreshNow, cfg.refreshTokenLifetimeMinutes) && !e3.signingFails && !e3.storeFails
                ==> RefreshFlow(cfg, e3, users, s2, r2.body.refreshToken).0.status == StatusOK)
            && (e3.now < ExpiresIn(e2.now, cfg.accessTokenLifetimeMinutes)
                ==> AuthGate(cfg, e3.now, users, r2.body.accessToken) == Admit(u))
  {
    var (r1, s1) := LoginFlow(cfg, e1, users, tokens, Some(creds));
    LoginSucceeds(cfg, e1, users, tokens, creds);
    LoginKeepsTokensNamingOwners(cfg, e1, users, tokens, Some(creds));
    var u := GetUserByEmail(users, creds.email).value;
    var refreshExp1 := ExpiresIn(e1.refreshNow, cfg.refreshTokenLifetimeMinutes);
    var accessExp1 := ExpiresIn(e1.now, cfg.accessTokenLifetimeMinutes);
    IssuedForNamesUser(r1.body.refreshToken, cfg.secretKey, u, refreshExp1);
    IssuedForNamesUser(r1.body.accessToken, cfg.secretKey, u, accessExp1);
    StoredTokenFindsOwner(users, tokens, u, r1.body.refreshToken, e1.dbNow);

    var (r2, s2) := RefreshFlow(cfg, e2, users, s1, r1.body.refreshToken);
    RefreshSucceeds(cfg, e2, users, s1, r1.body.refreshToken);
    RefreshKeepsTokensNamingOwners(cfg, e2, users, s1, r1.body.refreshToken);
    var refreshExp2 := ExpiresIn(e2.refreshNow, cfg.refreshTokenLifetimeMinutes);
    var accessExp2 := ExpiresIn(e2.now, cfg.accessTokenLifetimeMinutes);
    IssuedForNamesUser(r2.body.refreshToken, cfg.secretKey, u, refreshExp2);
    IssuedForNamesUser(r2.body.accessToken, cfg.secretKey, u, accessExp2);

    SupersededTokenRefused(cfg, e3, users, s2, u, r1.body.refreshToken);
    StoredTokenFindsOwner(users, s1, u, r2.body.refreshToken, e2.dbNow);
    RefreshSucceeds(cfg, e3, users, s2, r2.body.refreshToken);
    EmailLookupFindsTheUser(users, u);
  }

  /**
   * A refresh token from a successful login passes the auth gate as its user until it
   * expires: nothing in a token says whether it is an access or a refresh token.
   */
  lemma RefreshTokenOpensGate(cfg: Config, env: Env, now: int, users: seq<User>, tokens: TokenTable, creds: Credentials)
    requires EmailsDistinct(users)
    requires LoginFlow(cfg, env, users, tokens, Some(creds)).0.status == StatusOK
    requires now < ExpiresIn(env.refreshNow, cfg.refreshTokenLifetimeMinutes)
    ensures AuthGate(cfg, now, users, LoginFlow(cfg, env, users, tokens, Some(creds)).0.body.refreshToken)
            == Admit(GetUserByEmail(users, creds.email).value)
  {
    var r := LoginFlow(cfg, env, users, tokens, Some(creds)).0;
    LoginSucceeds(cfg, env, users, tokens, creds);
    var u := GetUserByEmail(users, creds.email).value;
    IssuedForNamesUser(r.body.refreshToken, cfg.secretKey, u, ExpiresIn(env.refreshNow, cfg.refreshTokenLifetimeMinutes));
    EmailLookupFindsTheUser(users, u);
  }

  // ----- Tokens are deterministic in the second of issuance -----

  /**
   * A second login whose two issuances fall in the same seconds as the first login's
   * repeats it: HS256 signing is deterministic and "exp" has whole seconds, so the second
   * login returns the very same tokens and stores the same refresh token again, only the
   * row's creation time moving to the database's new reading. The first refresh token is
   * then not superseded and keeps working while it lives.
   */
  lemma SameSecondLoginRepeatsTokens(cfg: Config, e1: Env, e2: Env, e3: Env, users: seq<User>, tokens: TokenTable, creds: Credentials)
    requires IdsDistinct(users) && EmailsDistinct(users) && TokensNameOwners(tokens)
    requires LoginFlow(cfg, e1, users, tokens, Some(creds)).0.status == StatusOK
    requires e2.now == e1.now && e2.refreshNow == e1.refreshNow && !e2.signingFails && !e2.storeFails
    ensures var (r1, s1) := LoginFlow(cfg, e1, users, tokens, Some(creds));
            var (r2, s2) := LoginFlow(cfg, e2, users, s1, Some(creds));
            var u := GetUserByEmail(users, creds.email).value;
            && r2 == r1
            && s2 == s1[u.id := RefreshTokenRow(r1.body.refreshToken, e2.dbNow)]
            && (e3.now < ExpiresIn(e1.refreshNow, cfg.refreshTokenLifetimeMinutes) && !e3.signingFails && !e3.storeFails
                ==> RefreshFlow(cfg, e3, users, s2, r1.body.refreshToken).0.status == StatusOK)
  {
    var (r1, s1) := LoginFlow(cfg, e1, users, tokens, Some(creds));
    LoginSucceeds(cfg, e1, users, tokens, creds);
    LoginSucceeds(cfg, e2, users, s1, creds);
    var u := GetUserByEmail(users, creds.email).value;
    IssuedForNamesUser(r1.body.refreshToken, cfg.secretKey, u, ExpiresIn(e1.refreshNow, cfg.refreshTokenLifetimeMinutes));
    StoredTokenFindsOwner(users, tokens[u.id := RefreshTokenRow(r1.body.refreshToken, e1.dbNow)],
                          u, r1.body.refreshToken, e2.dbNow);
    var s2 := LoginFlow(cfg, e2, users, s1, Some(creds)).1;
    RefreshSucceeds(cfg, e3, users, s2, r1.body.refreshToken);
    EmailLookupFindsTheUser(users, u);
  }

  /**
   * A refresh whose issuances fall in the same seconds as the login's returns the login's
   * own tokens again and stores the same refresh token, only its creation time moving:
   * nothing rotates.
   */
  lemma SameSecondRefreshRepeatsTokens(cfg: Config, e1: Env, e2: Env, users: seq<User>, tokens: TokenTable, creds: Credentials)
    requires IdsDistinct(users) && EmailsDistinct(users) && TokensNameOwners(tokens)
    requires LoginFlow(cfg, e1, users, tokens, Some(creds)).0.status == StatusOK
    requires e2.now == e1.now && e2.refreshNow == e1.refreshNow
    requires e2.now < ExpiresIn(e1.refreshNow, cfg.refreshTokenLifetimeMinutes)
    requires !e2.signingFails && !e2.storeFails
    ensures var (r1, s1) := LoginFlow(cfg, e1, users, tokens, Some(creds));
            var (r2, s2) := RefreshFlow(cfg, e2, users, s1, r1.body.refreshToken);
            var u := GetUserByEmail(users, creds.email).value;
            r2 == r1 && s2 == s1[u.id := RefreshTokenRow(r1.body.refreshToken, e2.dbNow)]
  {
    var (r1, s1) := LoginFlow(cfg, e1, users, tokens, Some(creds));
    LoginSucceeds(cfg, e1, users, tokens, creds);
    var u := GetUserByEmail(users, creds.email).value;
    IssuedForNamesUser(r1.body.refreshToken, cfg.secretKey, u, ExpiresIn(e1.refreshNow, cfg.refreshTokenLifetimeMinutes));
    StoredTokenFindsOwner(users, tokens, u, r1.body.refreshToken, e1.dbNow);
    RefreshSucceeds(cfg, e2, users, s1, r1.body.refreshToken);
    EmailLookupFindsTheUser(users, u);
  }

  /**
   * With equal access and refresh lifetimes, one login returns the same token twice
   * exactly when its two issuances read the clock in the same second.
   */
  lemma EqualLifetimesGiveOneToken(cfg: Config, env: Env, users: seq<User>, tokens: TokenTable, creds: Credentials)
    requires cfg.accessTokenLifetimeMinutes == cfg.refreshTokenLifetimeMinutes
    requires LoginFlow(cfg, env, users, tokens, Some(creds)).0.status == StatusOK
    ensures var r := LoginFlow(cfg, env, users, tokens, Some(creds)).0;
            r.body.accessToken == r.body.refreshToken <==> env.now == env.refreshNow
  {
    var r := LoginFlow(cfg, env, users, tokens, Some(creds)).0;
    LoginSucceeds(cfg, env, users, tokens, creds);
    var u := GetUserByEmail(users, creds.email).value;
    IssuedForNamesUser(r.body.accessToken, cfg.secretKey, u, ExpiresIn(env.now, cfg.accessTokenLifetimeMinutes));
    IssuedForNamesUser(r.body.refreshToken, cfg.secretKey, u, ExpiresIn(env.refreshNow, cfg.refreshTokenLifetimeMinutes));
  }

  // ----- Across requests -----

  /**
   * A password hashed when an account was created opens a login at any later request:
   * the digest core is fixed by the configuration, so the stored hash checks.
   */
  lemma LoginAfterSignup(cfg: Config, e1: Env, e2: Env, users: seq<User>, tokens: TokenTable, u: User, password: string)
    requires EmailsDistinct(users) && u in users
    requires HashPassword(password, cfg, e1).Success? && u.passwordHash == HashPassword(password, cfg, e1).value
    requires !e2.signingFails && !e2.storeFails
    ensures LoginFlow(cfg, e2, users, tokens, Some(Credentials(password, u.email))).0.status == StatusOK
  {
    EmailLookupFindsTheUser(users, u);
    LoginSucceeds(cfg, e2, users, tokens, Credentials(password, u.email));
  }

  /**
   * Bytes past the 72nd do not count at login: an account whose password was 72 bytes at
   * sign-up also logs in with that password followed by anything, though sign-up itself
   * refuses any password over 72 bytes.
   */
  lemma LongerPasswordLogsIn(cfg: Config, e1: Env, e2: Env, users: seq<User>, tokens: TokenTable, u: User,
                             password: string, extra: string)
    requires EmailsDistinct(users) && u in users
    requires |password| == Bcrypt.MaxPasswordBytes
    requires u.passwordHash == HashPassword(password, cfg, e1).value
    requires !e2.signingFails && !e2.storeFails
    ensures LoginFlow(cfg, e2, users, tokens, Some(Credentials(password + extra, u.email))).0.status == StatusOK
    ensures extra != "" ==> HashPassword(password + extra, cfg, e1).Failure?
  {
    Bcrypt.LongerPasswordMatches(password, extra, e1.salt, cfg.bcrypt);
    EmailLookupFindsTheUser(users, u);
    LoginSucceeds(cfg, e2, users, tokens, Credentials(password + extra, u.email));
  }
}
