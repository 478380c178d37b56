/**
 * Salted password hashing as the service uses it: a one-way key-derivation
 * function applied to a per-record salt and the password. The derivation
 * itself (PBKDF2-HMAC-SHA256) is foreign code and is a function parameter
 * `kdf` here, of which nothing is assumed.
 */
module Security {

  /** kdf(scheme, salt, password) is the digest of `password` under `salt`. */
  type Kdf = (string, string, string) -> string

  /** The method name the service asks for when it hashes a password. */
  const METHOD: string := "pbkdf2:sha256"

  /** Length of the random salt the service asks for. */
  const SALT_LENGTH: nat := 16

  /** The stored form of a password: scheme, salt and digest, never the password. */
  datatype PasswordHash = PasswordHash(scheme: string, salt: string, digest: string)

  /**
   * Hashes `password` with the configured method and the freshly drawn `salt`
   * (randomness is a parameter here). The record keeps the method and the
   * salt, so that the password can be checked against it later.
   */
  function GeneratePasswordHash(kdf: Kdf, password: string, salt: string): (h: PasswordHash)
    requires |salt| == SALT_LENGTH
    ensures h.scheme == METHOD && h.salt == salt
  {
    PasswordHash(METHOD, salt, kdf(METHOD, salt, password))
  }

  /**
   * Re-derives the digest of `password` with the stored scheme and salt and
   * compares it with the stored digest. For a record in the service's own
   * form, the password is accepted exactly when hashing it afresh with the
   * record's salt reproduces the record.
   */
  function CheckPasswordHash(kdf: Kdf, stored: PasswordHash, password: string): (ok: bool)
    ensures stored.scheme == METHOD && |stored.salt| == SALT_LENGTH ==>
      (ok <==> GeneratePasswordHash(kdf, password, stored.salt) == stored)
  {
    kdf(stored.scheme, stored.salt, password) == stored.digest
  }

  /**
   * A freshly hashed record accepts the password it was made from, and
   * exactly the passwords whose digest under the same salt is the same.
   */
  lemma HashAcceptsItsPassword(kdf: Kdf, password: string, salt: string)
    requires |salt| == SALT_LENGTH
    ensures CheckPasswordHash(kdf, GeneratePasswordHash(kdf, password, salt), password)
    ensures forall other ::
      (CheckPasswordHash(kdf, GeneratePasswordHash(kdf, password, salt), other) <==> kdf(METHOD, salt, other) == kdf(METHOD, salt, password))
  {
  }
}
