/**
 * The bcrypt operations the users service calls. The cost is the default (10), so a hash
 * is "$2a$10$", a 22-character salt and a 31-character digest. The digest core (Blowfish
 * key expansion) is not modelled: it is a parameter, any function of the salt and the
 * key bytes that yields 31 characters. The key schedule cycles through 72 bytes of the
 * password, so bytes past the 72nd never reach the digest; hashing refuses such a password,
 * comparing does not.
 */
module Bcrypt {
  import opened Wrappers
  import opened Errors

  const MaxPasswordBytes := 72
  const MinHashSize := 59
  const Prefix := "$2a$10$"
  const SaltLength := 22
  const DigestLength := 31
  const HashLength := 60

  type Salt = s: string | |s| == SaltLength witness "......................"

  type Digest = f: (string, string) -> string | forall salt, password :: |f(salt, password)| == DigestLength
    witness (salt: string, password: string) => "..............................."

  /** The part of the password the key schedule reads. */
  function KeyBytes(password: string): (k: string)
    ensures |k| <= MaxPasswordBytes && k <= password
    ensures |password| <= MaxPasswordBytes ==> k == password
    ensures |password| > MaxPasswordBytes ==> k == password[..MaxPasswordBytes]
  {
    if |password| > MaxPasswordBytes then password[..MaxPasswordBytes] else password
  }

  /** The shape every hash made here has. */
  predicate WellFormed(hash: string) {
    |hash| == HashLength && hash[..|Prefix|] == Prefix
  }

  function SaltOf(hash: string): string
    requires WellFormed(hash)
  {
    hash[|Prefix|..|Prefix| + SaltLength]
  }

  function DigestOf(hash: string): string
    requires WellFormed(hash)
  {
    hash[|Prefix| + SaltLength..]
  }

  /** bcrypt.GenerateFromPassword(password, DefaultCost) with the salt it would draw. */
  function GenerateFromPassword(password: string, salt: Salt, digest: Digest): (r: Result<string, ErrorKind>)
    ensures r.Failure? <==> |password| > MaxPasswordBytes
    ensures r.Failure? ==> r.error == PasswordTooLong
    ensures r.Success? ==> WellFormed(r.value) && SaltOf(r.value) == salt
                           && DigestOf(r.value) == digest(salt, KeyBytes(password))
  {
    if |password| > MaxPasswordBytes then Failure(PasswordTooLong)
    else
      var h := Prefix + salt + digest(salt, KeyBytes(password));
      assert h[..|Prefix|] == Prefix;
      assert h[|Prefix|..|Prefix| + SaltLength] == salt;
      assert h[|Prefix| + SaltLength..] == digest(salt, KeyBytes(password));
      Success(h)
  }

  datatype CompareError = HashTooShort | MalformedHash | MismatchedHashAndPassword

  /**
   * bcrypt.CompareHashAndPassword: recompute the digest with the hash's own salt. There is
   * no length check here, so a password longer than 72 bytes is compared by its first 72.
   */
  function CompareHashAndPassword(hash: string, password: string, digest: Digest): (r: Option<CompareError>)
    ensures r.None? <==> WellFormed(hash) && digest(SaltOf(hash), KeyBytes(password)) == DigestOf(hash)
  {
    if |hash| < MinHashSize then Some(HashTooShort)
    else if !WellFormed(hash) then Some(MalformedHash)
    else if digest(SaltOf(hash), KeyBytes(password)) != DigestOf(hash) then Some(MismatchedHashAndPassword)
    else None
  }

  /** A password compares equal to the hash made from it. */
  lemma GeneratedHashMatches(password: string, salt: Salt, digest: Digest)
    requires |password| <= MaxPasswordBytes
    ensures CompareHashAndPassword(GenerateFromPassword(password, salt, digest).value, password, digest).None?
  {
  }

  /** A hash is never empty, and differs from the password unless the password itself has a hash's shape. */
  lemma GeneratedHashDiffers(password: string, salt: Salt, digest: Digest)
    requires |password| <= MaxPasswordBytes
    ensures var h := GenerateFromPassword(password, salt, digest).value;
            |h| == HashLength && (!WellFormed(password) ==> h != password)
  {
  }

  /**
   * Only the first 72 bytes take part in a comparison: a longer password matches exactly
   * the hashes its 72-byte prefix matches.
   */
  lemma ComparisonIgnoresBytesPast72(hash: string, password: string, digest: Digest)
    requires |password| > MaxPasswordBytes
    ensures CompareHashAndPassword(hash, password, digest).None?
            <==> CompareHashAndPassword(hash, password[..MaxPasswordBytes], digest).None?
  {
  }

  /** A hash made from a 72-byte password also accepts that password with anything appended. */
  lemma LongerPasswordMatches(password: string, extra: string, salt: Salt, digest: Digest)
    requires |password| == MaxPasswordBytes
    ensures CompareHashAndPassword(GenerateFromPassword(password, salt, digest).value, password + extra, digest).None?
  {
    assert (password + extra)[..MaxPasswordBytes] == password;
    assert KeyBytes(password + extra) == KeyBytes(password);
  }
}
