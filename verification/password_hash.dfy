/**
 * The application's password hashing (a BCrypt encoder), reduced to what the login relies on:
 * `encode` draws a salt and produces a hash, and `matches` accepts exactly the password that
 * was encoded. The salt is a parameter of the model, since it comes from a random source.
 */
module PasswordHash {

  /** A BCrypt hash: the salt drawn when it was made and the (collision-free) digest of the password. */
  datatype Hash = BCrypt(salt: nat, digest: string)

  /** BCryptPasswordEncoder.encode. */
  function Encode(raw: string, salt: nat): Hash {
    BCrypt(salt, raw)
  }

  /** BCryptPasswordEncoder.matches. */
  predicate Matches(raw: string, hash: Hash) {
    hash.digest == raw
  }

  /** A freshly encoded hash verifies the password it was made from, and no other password. */
  lemma EncodeThenMatches(raw: string, other: string, salt: nat)
    ensures Matches(raw, Encode(raw, salt))
    ensures Matches(other, Encode(raw, salt)) <==> other == raw
  {
  }
}
