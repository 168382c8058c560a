/**
 * repository/repositories/user-repository.go over in-memory tables: the users table as
 * its rows in order (a single-row query returns the first match) and the refresh_tokens
 * table keyed by user id, so that a user holds at most one refresh token.
 */
module UserStore {
  import opened Wrappers
  import opened Errors
  import opened Models
  import opened Jwt

  /** A row of refresh_tokens (its user_id is the map key). */
  datatype RefreshTokenRow = RefreshTokenRow(token: TokenString, createdAt: int)

  type TokenTable = map<int, RefreshTokenRow>

  ghost predicate IdsDistinct(users: seq<User>) {
    forall i, j :: 0 <= i < j < |users| ==> users[i].id != users[j].id
  }

  ghost predicate EmailsDistinct(users: seq<User>) {
    forall i, j :: 0 <= i < j < |users| ==> users[i].email != users[j].email
  }

  /** SELECT * FROM users WHERE email = $1; no row is nil, not an error. */
  function GetUserByEmail(users: seq<User>, email: string): (r: Option<User>)
    ensures r.Some? ==> r.value in users && r.value.email == email
    ensures r.None? ==> forall u :: u in users ==> u.email != email
  {
    if users == [] then None
    else if users[0].email == email then Some(users[0])
    else GetUserByEmail(users[1..], email)
  }

  /** SELECT u.* FROM users u JOIN refresh_tokens rt ON u.id = rt.user_id WHERE rt.token = $1 */
  function GetUserByRefreshToken(users: seq<User>, tokens: TokenTable, token: TokenString): (r: Option<User>)
    ensures r.Some? ==> r.value in users && r.value.id in tokens && tokens[r.value.id].token == token
    ensures r.None? ==> forall u :: u in users && u.id in tokens ==> tokens[u.id].token != token
  {
    if users == [] then None
    else if users[0].id in tokens && tokens[users[0].id].token == token then Some(users[0])
    else GetUserByRefreshToken(users[1..], tokens, token)
  }

  /** With distinct emails, the lookup finds the one user that has the email. */
  lemma {:induction false} EmailLookupFindsTheUser(users: seq<User>, u: User)
    requires EmailsDistinct(users) && u in users
    ensures GetUserByEmail(users, u.email) == Some(u)
  {
    if users[0] != u {
      assert users == [users[0]] + users[1..];
      assert u in users[1..];
      assert users[0].email != u.email by {
        var k :| 0 <= k < |users| && users[k] == u;
      }
      EmailLookupFindsTheUser(users[1..], u);
    }
  }

  /**
   * The upsert's partner: after storing `token` for the user `u`, looking the token up
   * finds `u`, provided ids are distinct and no other user holds the same token.
   */
  lemma {:induction false} UpsertThenLookup(users: seq<User>, tokens: TokenTable, u: User, token: TokenString, now: int)
    requires IdsDistinct(users) && u in users
    requires forall v :: v in users && v.id != u.id && v.id in tokens ==> tokens[v.id].token != token
    ensures GetUserByRefreshToken(users, tokens[u.id := RefreshTokenRow(token, now)], token) == Some(u)
  {
    if users[0] != u {
      assert users == [users[0]] + users[1..];
      assert users[0].id != u.id by {
        var k :| 0 <= k < |users| && users[k] == u;
      }
      UpsertThenLookup(users[1..], tokens, u, token, now);
    }
  }

  /** After a second upsert for the same user, the token it replaced no longer leads to that user. */
  lemma UpsertSupersedes(users: seq<User>, tokens: TokenTable, userId: int, old_: TokenString, new_: TokenString, now: int)
    requires old_ != new_
    ensures var r := GetUserByRefreshToken(users, tokens[userId := RefreshTokenRow(new_, now)], old_);
            r.Some? ==> r.value.id != userId
  {
  }

  class UserRepository {
    var users: seq<User>
    var nextUserId: int
    var refreshTokens: TokenTable

    /** Serial ids below nextUserId, distinct ids, and the unique constraint on email. */
    ghost predicate Valid()
      reads this
    {
      && 1 <= nextUserId
      && (forall u :: u in users ==> 1 <= u.id < nextUserId)
      && IdsDistinct(users)
      && EmailsDistinct(users)
    }

    constructor ()
      ensures Valid() && users == [] && refreshTokens == map[] && nextUserId == 1
    {
      users := [];
      nextUserId := 1;
      refreshTokens := map[];
    }

    /**
     * Stamps LastLoginUtc on the caller's record, then inserts it; the row comes back
     * with its new serial id. An email already in the table violates its unique constraint.
     */
    method CreateUser(src: UserRef, now: int) returns (r: Result<User, ErrorKind>)
      requires Valid()
      modifies this, src
      ensures Valid() && refreshTokens == old(refreshTokens)
      ensures src.user == old(src.user).(lastLoginUtc := now)
      ensures GetUserByEmail(old(users), src.user.email).Some? ==>
                r == Failure(UniqueViolation) && users == old(users) && nextUserId == old(nextUserId)
      ensures GetUserByEmail(old(users), src.user.email).None? ==>
                && r == Success(src.user.(id := old(nextUserId)))
                && users == old(users) + [r.value] && nextUserId == old(nextUserId) + 1
    {
      src.user := src.user.(lastLoginUtc := now);
      if GetUserByEmail(users, src.user.email).Some? {
        return Failure(UniqueViolation);
      }
      var row := src.user.(id := nextUserId);
      users := users + [row];
      nextUserId := nextUserId + 1;
      r := Success(row);
    }

    /**
     * INSERT ... ON CONFLICT (user_id) DO UPDATE: the user's row is created or its token
     * replaced; every other user's row stays as it was. `dbFault` is a failure reported
     * by the driver, which leaves the table unchanged.
     */
    method AddOrUpdateRefreshToken(userId: int, token: TokenString, now: int, dbFault: bool) returns (err: Option<ErrorKind>)
      modifies this`refreshTokens
      ensures dbFault ==> err == Some(Database) && refreshTokens == old(refreshTokens)
      ensures !dbFault ==> err == None && refreshTokens == old(refreshTokens)[userId := RefreshTokenRow(token, now)]
      ensures refreshTokens.Keys <= old(refreshTokens.Keys) + {userId}
      ensures forall id :: id in old(refreshTokens) && id != userId ==> id in refreshTokens && refreshTokens[id] == old(refreshTokens)[id]
    {
      if dbFault {
        return Some(Database);
      }
      refreshTokens := refreshTokens[userId := RefreshTokenRow(token, now)];
      err := None;
    }
  }
}
