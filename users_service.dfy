/**
 * services/users-service.go: account creation with bcrypt hashing, and token issuance.
 * GetJWT has the four-argument form its callers in users-routes.go use (a lifetime in
 * minutes and a flag that skips the password check). GetRefreshToken is the issuer the
 * refresh flow relies on: it signs like GetJWT with the refresh lifetime and persists the
 * result with AddOrUpdateRefreshToken.
 */
module UsersService {
  import opened Wrappers
  import opened Errors
  import opened Models
  import opened Jwt
  import opened Settings
  import opened UserStore
  import Bcrypt

  /** Go's (string, error) pair: on an error the token is the empty string. */
  datatype TokenOrError = TokenOrError(token: TokenString, err: Option<ErrorKind>)

  /** The lifetime the shown two-argument GetJWT hard-codes. */
  const DefaultAccessMinutes := 5

  /** hashPassword */
  function HashPassword(password: string, cfg: Config, env: Env): (r: Result<string, ErrorKind>)
    ensures r.Failure? <==> |password| > Bcrypt.MaxPasswordBytes
    ensures r.Success? ==> r.value != "" && CheckPasswordHash(password, r.value, cfg)
  {
    Bcrypt.GenerateFromPassword(password, env.salt, cfg.bcrypt)
  }

  /** checkPasswordHash: every comparison error, a malformed hash included, reads as "no match". */
  function CheckPasswordHash(password: string, hash: string, cfg: Config): (ok: bool)
    ensures ok <==> Bcrypt.WellFormed(hash)
                    && cfg.bcrypt(Bcrypt.SaltOf(hash), Bcrypt.KeyBytes(password)) == Bcrypt.DigestOf(hash)
  {
    Bcrypt.CompareHashAndPassword(hash, password, cfg.bcrypt).None?
  }

  /** A token that parses under `key` as the claims of `u` with expiry `exp` until `exp`, and as expired after. */
  ghost predicate IssuedFor(token: TokenString, key: string, u: User, exp: int) {
    forall now :: ParseWithClaims(token, key, now)
                  == if now < exp then Valid(Claims(u.id, u.email, Some(exp))) else Expired
  }

  lemma SignedIsIssuedFor(u: User, key: string, exp: int)
    ensures IssuedFor(SignedString(Claims(u.id, u.email, Some(exp)), key), key, u, exp)
  {
    forall now {
      SignedThenParsed(Claims(u.id, u.email, Some(exp)), key, exp, now);
    }
  }

  /**
   * GetJWT(email, password, minutes, skipPasswordCheck): an unknown email is NotFound
   * before any password check; a wrong password is Unauthorized unless the check is
   * skipped; a signing failure is InternalServer. Otherwise the token carries the stored
   * user's id and email and expires `minutes` after issuance.
   */
  function GetJWT(users: seq<User>, cfg: Config, env: Env, email: string, password: string,
                  minutes: int, skipPasswordCheck: bool): (r: TokenOrError)
    ensures r.err.Some? ==> r.token == Empty
    ensures r.err == Some(NotFound) <==> GetUserByEmail(users, email).None?
    ensures r.err == Some(Unauthorized) <==>
              && GetUserByEmail(users, email).Some? && !skipPasswordCheck
              && !CheckPasswordHash(password, GetUserByEmail(users, email).value.passwordHash, cfg)
    ensures r.err.Some? ==> r.err.value in {NotFound, Unauthorized, InternalServer}
    ensures r.err == Some(InternalServer) ==> env.signingFails
    ensures r.err.None? ==>
              && GetUserByEmail(users, email).Some? && !env.signingFails
              && (skipPasswordCheck || CheckPasswordHash(password, GetUserByEmail(users, email).value.passwordHash, cfg))
              && IssuedFor(r.token, cfg.secretKey, GetUserByEmail(users, email).value, ExpiresIn(env.now, minutes))
  {
    match GetUserByEmail(users, email)
    case None => TokenOrError(Empty, Some(NotFound))
    case Some(user) =>
      if !skipPasswordCheck && !CheckPasswordHash(password, user.passwordHash, cfg) then
        TokenOrError(Empty, Some(Unauthorized))
      else if env.signingFails then
        TokenOrError(Empty, Some(InternalServer))
      else
        var exp := ExpiresIn(env.now, minutes);
        SignedIsIssuedFor(user, cfg.secretKey, exp);
        TokenOrError(SignedString(Claims(user.id, user.email, Some(exp)), cfg.secretKey), None)
  }

  /** The shown two-argument GetJWT: its token reads back for exactly five minutes (300 seconds). */
  lemma ShownGetJWTLivesFiveMinutes(users: seq<User>, cfg: Config, env: Env, email: string, password: string)
    requires GetJWT(users, cfg, env, email, password, DefaultAccessMinutes, false).err.None?
    ensures var t := GetJWT(users, cfg, env, email, password, DefaultAccessMinutes, false).token;
            && ParseWithClaims(t, cfg.secretKey, env.now + 299).Valid?
            && ParseWithClaims(t, cfg.secretKey, env.now + 299).claims.expiresAt == Some(env.now + 300)
            && ParseWithClaims(t, cfg.secretKey, env.now + 300).Expired?
  {
  }

  /**
   * The refresh-token issuer: a token made as GetJWT makes it, with the refresh lifetime
   * and at the request's own time.Now() reading for this issuance (`env.refreshNow`),
   * then stored for the user it names with the database's now() as its creation time;
   * a store failure is reported and stores nothing.
   */
  function IssueRefreshToken(users: seq<User>, tokens: TokenTable, cfg: Config, env: Env,
                             email: string, password: string, skipPasswordCheck: bool): (res: (TokenOrError, TokenTable))
    ensures res.0.err.Some? ==> res.0.token == Empty && res.1 == tokens
    ensures res.0.err.None? ==>
              && GetUserByEmail(users, email).Some?
              && res.1 == tokens[GetUserByEmail(users, email).value.id := RefreshTokenRow(res.0.token, env.dbNow)]
              && IssuedFor(res.0.token, cfg.secretKey, GetUserByEmail(users, email).value,
                           ExpiresIn(env.refreshNow, cfg.refreshTokenLifetimeMinutes))
  {
    var jwt := GetJWT(users, cfg, env.(now := env.refreshNow), email, password,
                      cfg.refreshTokenLifetimeMinutes, skipPasswordCheck);
    if jwt.err.Some? then (jwt, tokens)
    else if env.storeFails then (TokenOrError(Empty, Some(Database)), tokens)
    else (jwt, tokens[GetUserByEmail(users, email).value.id := RefreshTokenRow(jwt.token, env.dbNow)])
  }

  /** GetRefreshToken(email, password, skipPasswordCheck) */
  method GetRefreshToken(repo: UserRepository, cfg: Config, env: Env,
                         email: string, password: string, skipPasswordCheck: bool) returns (r: TokenOrError)
    modifies repo`refreshTokens
    ensures (r, repo.refreshTokens)
            == IssueRefreshToken(repo.users, old(repo.refreshTokens), cfg, env, email, password, skipPasswordCheck)
  {
    r := GetJWT(repo.users, cfg, env.(now := env.refreshNow), email, password,
                cfg.refreshTokenLifetimeMinutes, skipPasswordCheck);
    if r.err.Some? {
      return;
    }
    var user := GetUserByEmail(repo.users, email).value;
    var err := repo.AddOrUpdateRefreshToken(user.id, r.token, env.dbNow, env.storeFails);
    if err.Some? {
      r := TokenOrError(Empty, err);
    }
  }

  /**
   * CreateUser: the plaintext in PasswordHash is replaced by its hash in the caller's
   * record before the repository stores it; if hashing fails, the error is returned and
   * neither the record nor the repository is touched.
   */
  method CreateUser(repo: UserRepository, src: UserRef, cfg: Config, env: Env) returns (r: Result<User, ErrorKind>)
    requires repo.Valid()
    modifies repo, src
    ensures repo.Valid() && repo.refreshTokens == old(repo.refreshTokens)
    ensures |old(src.user.passwordHash)| > Bcrypt.MaxPasswordBytes ==>
              && r == Failure(PasswordTooLong) && src.user == old(src.user)
              && repo.users == old(repo.users) && repo.nextUserId == old(repo.nextUserId)
    ensures |old(src.user.passwordHash)| <= Bcrypt.MaxPasswordBytes ==>
              && src.user == old(src.user).(passwordHash := src.user.passwordHash, lastLoginUtc := env.now)
              && src.user.passwordHash != ""
              && (!Bcrypt.WellFormed(old(src.user.passwordHash)) ==> src.user.passwordHash != old(src.user.passwordHash))
              && CheckPasswordHash(old(src.user.passwordHash), src.user.passwordHash, cfg)
              && (r.Success? <==> GetUserByEmail(old(repo.users), src.user.email).None?)
              && (r.Success? ==> r.value == src.user.(id := old(repo.nextUserId)) && repo.users == old(repo.users) + [r.value])
              && (r.Failure? ==> r.error == UniqueViolation && repo.users == old(repo.users))
  {
    var hash := HashPassword(src.user.passwordHash, cfg, env);
    if hash.Failure? {
      return Failure(hash.error);
    }
    src.user := src.user.(passwordHash := hash.value);
    r := repo.CreateUser(src, env.now);
  }
}
