/**
 * The credential hasher of the auth service (`hash` and `compare`, bcrypt
 * with work factor 10). bcrypt reads at most the first 72 bytes of its input
 * and ignores the rest; the model keeps exactly that. A digest is an abstract
 * value that remembers the (at most 72) characters bcrypt read, so `Matches`
 * accepts exactly the inputs that agree on them. Salt, work factor and the
 * encoding of the digest are left out; characters stand for bytes (ASCII).
 */
module Hashing {

  /** bcrypt ignores everything after the 72nd byte of its input. */
  const BcryptInputLimit: nat := 72

  /** The part of a secret bcrypt reads: its first 72 characters. */
  function BcryptInput(s: string): (r: string)
    ensures |r| == if |s| <= BcryptInputLimit then |s| else BcryptInputLimit
    ensures r == s[..|r|]
  {
    if |s| <= BcryptInputLimit then s else s[..BcryptInputLimit]
  }

  /** A bcrypt digest, abstracted to the input bcrypt read. */
  datatype Digest = Digest(input: string)

  /**
   * bcrypt.compare(raw, digest): a digest of at most 72 characters' input is
   * matched by a shorter secret equal to that input, or by a longer one that
   * starts with exactly 72 characters of it.
   */
  predicate Matches(raw: string, digest: Digest): (ok: bool)
    ensures ok ==> |digest.input| <= BcryptInputLimit && |digest.input| <= |raw| && digest.input == raw[..|digest.input|]
    ensures |raw| < BcryptInputLimit ==> (ok <==> raw == digest.input)
    ensures BcryptInputLimit <= |raw| ==> (ok <==> digest.input == raw[..BcryptInputLimit])
  {
    BcryptInput(raw) == digest.input
  }

  /** bcrypt.hash(secret, 10): a digest that `Matches` accepts for `secret`. */
  function Hash(secret: string): (digest: Digest)
    ensures Matches(secret, digest)
  {
    Digest(BcryptInput(secret))
  }

  /** compare(x, hash(y)) holds exactly when x and y agree on their first 72 characters. */
  lemma MatchesIffSameFirst72(x: string, y: string)
    ensures Matches(x, Hash(y)) <==> BcryptInput(x) == BcryptInput(y)
  {
  }

  /** A secret shorter than 72 characters matches only its own digest. */
  lemma ShortSecretMatchesOnlyItself(x: string, y: string)
    requires |x| < BcryptInputLimit
    ensures Matches(x, Hash(y)) <==> x == y
  {
    if |y| > BcryptInputLimit {
      assert |BcryptInput(y)| != |BcryptInput(x)|;
    }
  }

  /** Two secrets of 72 characters or more that share their first 72 match each other's digest. */
  lemma LongSecretsShareDigest(x: string, y: string)
    requires BcryptInputLimit <= |x| && BcryptInputLimit <= |y|
    requires x[..BcryptInputLimit] == y[..BcryptInputLimit]
    ensures Matches(x, Hash(y)) && Matches(y, Hash(x))
  {
  }
}
