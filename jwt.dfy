/**
 * The part of JSON Web Tokens (RFC 7519) the core relies on: HMAC-signed compact
 * tokens carrying the services.Claims payload, parsed with one shared secret.
 *
 * A token string is either the compact serialization of a signed token, kept as its
 * algorithm, its claims and the key its MAC was computed with (the MAC itself is
 * abstracted: it verifies under a key exactly when it was computed with that key), or
 * any other text. The empty header value is `Empty`.
 */
module Jwt {
  import opened Wrappers

  /** The "alg" header values a presented token may carry. */
  datatype Alg = HS256 | HS384 | HS512 | Unsigned | RS256

  /** The HMAC family (section 3.2 of RFC 7518), the only one a byte-slice key verifies. */
  predicate IsHmac(alg: Alg) {
    alg.HS256? || alg.HS384? || alg.HS512?
  }

  /** services.Claims: the user's id and email and the registered "exp" claim in Unix seconds. */
  datatype Claims = Claims(id: int, email: string, expiresAt: Option<int>)

  datatype TokenString =
    | Compact(alg: Alg, claims: Claims, macKey: string)
    | Text(raw: string)

  const Empty: TokenString := Text("")

  /** jwt.NewWithClaims(jwt.SigningMethodHS256, claims).SignedString(key) */
  function SignedString(claims: Claims, key: string): TokenString {
    Compact(HS256, claims, key)
  }

  /** The expiry NumericDate for a token issued at `now` with a lifetime of `minutes`. */
  function ExpiresIn(now: int, minutes: int): int {
    now + minutes * 60
  }

  datatype Parsed = Valid(claims: Claims) | Expired | Invalid

  /**
   * jwt.ParseWithClaims with a key function that always returns `key`: the token must be
   * well formed and its MAC must verify under `key` (signature first), and only then is
   * "exp" checked (section 4.1.4 of RFC 7519): the token is expired once `now` reaches it.
   * A token without "exp" never expires.
   */
  function ParseWithClaims(token: TokenString, key: string, now: int): (p: Parsed)
    ensures p.Valid? <==> token.Compact? && IsHmac(token.alg) && token.macKey == key
                          && (token.claims.expiresAt.Some? ==> now < token.claims.expiresAt.value)
    ensures p.Valid? ==> p.claims == token.claims
    ensures p.Expired? <==> token.Compact? && IsHmac(token.alg) && token.macKey == key
                            && token.claims.expiresAt.Some? && token.claims.expiresAt.value <= now
  {
    match token
    case Text(_) => Invalid
    case Compact(alg, claims, macKey) =>
      if !IsHmac(alg) || macKey != key then Invalid
      else if claims.expiresAt.Some? && now >= claims.expiresAt.value then Expired
      else Valid(claims)
  }

  /** A token signed here with `key` and expiry `exp` reads back its claims until `exp`, and is expired from then on. */
  lemma SignedThenParsed(claims: Claims, key: string, exp: int, now: int)
    requires claims.expiresAt == Some(exp)
    ensures ParseWithClaims(SignedString(claims, key), key, now)
            == if now < exp then Valid(claims) else Expired
  {
  }

  /** A token whose MAC was computed with another key is invalid, never merely expired, at every time. */
  lemma ForeignKeyIsInvalid(claims: Claims, other: string, key: string, now: int)
    requires other != key
    ensures ParseWithClaims(SignedString(claims, other), key, now) == Invalid
  {
  }
}
