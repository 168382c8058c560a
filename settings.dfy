/** Configuration values and the inputs a request receives from outside the core. */
module Settings {
  import Bcrypt

  /**
   * What stays fixed for the server's lifetime: the HS256 signing secret, the two token
   * lifetimes, and bcrypt's digest core (one function for every request, so a hash made
   * when an account is created verifies at every later login).
   */
  datatype Config = Config(
    secretKey: string,
    accessTokenLifetimeMinutes: int,
    refreshTokenLifetimeMinutes: int,
    bcrypt: Bcrypt.Digest)

  /**
   * What a request gets from outside the modelled code, and each clock reading it takes:
   * `now` (Unix seconds) when the request checks a token, issues its access token or
   * stamps a new account; `refreshNow` (Unix seconds) when it issues its refresh token,
   * a later time.Now() that may fall in a later second; `dbNow`, the database's now()
   * at the refresh-token write, at the database's own precision. Then the random salt
   * bcrypt would draw, and whether the foreign signing call or the refresh-token
   * database write fails.
   */
  datatype Env = Env(
    now: int,
    refreshNow: int,
    dbNow: int,
    salt: Bcrypt.Salt,
    signingFails: bool,
    storeFails: bool)
}
