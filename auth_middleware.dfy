/**
 * server/middleware/auth-middleware.go: the gate in front of protected routes. The
 * decision is a function of the Auth-Token header, the secret, the clock and the users
 * table; the middleware method applies it to a request context.
 */
module Middleware {
  import opened Wrappers
  import opened Errors
  import opened Http
  import opened Models
  import opened Jwt
  import opened Settings
  import opened UserStore

  const AuthTokenHeader := "Auth-Token"
  const UserKey := "user"

  datatype GateResult = Reject(response: Response) | Admit(user: User)

  /**
   * An empty header is 401; a token that does not parse or verify, an expired one
   * included, is 500; the user is resolved by the email claim alone, and a missing user
   * is 401.
   */
  function AuthGate(cfg: Config, now: int, users: seq<User>, authToken: TokenString): (g: GateResult)
    ensures g.Admit? ==> authToken != Empty && ParseWithClaims(authToken, cfg.secretKey, now).Valid?
                         && g.user in users
                         && g.user.email == ParseWithClaims(authToken, cfg.secretKey, now).claims.email
    ensures authToken != Empty && ParseWithClaims(authToken, cfg.secretKey, now).Valid?
            && GetUserByEmail(users, ParseWithClaims(authToken, cfg.secretKey, now).claims.email).None?
            ==> g == Reject(Fail(StatusUnauthorized, Unauthorized))
  {
    if authToken == Empty then Reject(Fail(StatusUnauthorized, Unauthorized))
    else
      match ParseWithClaims(authToken, cfg.secretKey, now)
      case Valid(claims) =>
        (match GetUserByEmail(users, claims.email)
         case None => Reject(Fail(StatusUnauthorized, Unauthorized))
         case Some(user) => Admit(user))
      case _ => Reject(Fail(StatusInternalServerError, InternalServer))
  }

  /**
   * The inner handler of AuthMiddleware. `next` is what the next handler would return;
   * running it is recorded in the context's call count, after "user" is set.
   */
  method AuthMiddleware(c: RequestContext, repo: UserRepository, cfg: Config, now: int, next: Response)
    returns (resp: Response)
    modifies c
    ensures match AuthGate(cfg, now, repo.users, c.Header(AuthTokenHeader))
            case Reject(r) => resp == r && c.values == old(c.values) && c.nextCalls == old(c.nextCalls)
            case Admit(u) => resp == next && c.values == old(c.values)[UserKey := u]
                             && c.nextCalls == old(c.nextCalls) + 1
  {
    var authToken := c.Header(AuthTokenHeader);
    if authToken == Empty {
      return Fail(StatusUnauthorized, Unauthorized);
    }
    var parsed := ParseWithClaims(authToken, cfg.secretKey, now);
    if !parsed.Valid? {
      return Fail(StatusInternalServerError, InternalServer);
    }
    var user := GetUserByEmail(repo.users, parsed.claims.email);
    if user.None? {
      return Fail(StatusUnauthorized, Unauthorized);
    }
    c.values := c.values[UserKey := user.value];
    c.nextCalls := c.nextCalls + 1;
    resp := next;
  }

  /**
   * The checks run in order: with an empty header or a token that fails to parse, the
   * outcome is the same whatever the users table holds (no lookup happens), and a parse
   * failure, expiry included, is 500 rather than 401.
   */
  lemma GateChecksTokenBeforeLookup(cfg: Config, now: int, users: seq<User>, others: seq<User>, t: TokenString)
    requires t == Empty || !ParseWithClaims(t, cfg.secretKey, now).Valid?
    ensures AuthGate(cfg, now, users, t) == AuthGate(cfg, now, others, t)
    ensures t == Empty ==> AuthGate(cfg, now, users, t) == Reject(Fail(StatusUnauthorized, Unauthorized))
    ensures t != Empty ==> AuthGate(cfg, now, users, t) == Reject(Fail(StatusInternalServerError, InternalServer))
  {
  }

  /**
   * The id claim plays no part: two tokens that differ only in the id they name get the
   * same outcome, and with distinct emails a valid token admits exactly the user holding
   * its email claim.
   */
  lemma GateResolvesByEmailOnly(cfg: Config, now: int, users: seq<User>, alg: Alg, claims: Claims, otherId: int, key: string)
    requires EmailsDistinct(users)
    ensures AuthGate(cfg, now, users, Compact(alg, claims, key))
            == AuthGate(cfg, now, users, Compact(alg, claims.(id := otherId), key))
    ensures forall u :: u in users && u.email == claims.email && ParseWithClaims(Compact(alg, claims, key), cfg.secretKey, now).Valid?
                       ==> AuthGate(cfg, now, users, Compact(alg, claims, key)) == Admit(u)
  {
    forall u | u in users && u.email == claims.email
      ensures GetUserByEmail(users, claims.email) == Some(u)
    {
      EmailLookupFindsTheUser(users, u);
    }
  }
}
