/** The password-hashing primitive (bcryptjs) as the handlers use it: `hash` and `compare`.
    A bcrypt hash is the header naming the variant and cost factor, a 22-character salt
    and the digest. Salt generation is not modelled (every hash uses one fixed salt) and
    the digest is the first 72 characters of the password, which keeps the facts the
    handlers depend on: every hash starts with "$2", a hash accepts exactly the passwords
    that agree with the hashed one on their first 72 characters, and a text too short to
    hold a header and a salt accepts nothing. */
module Bcrypt {
  import opened Text

  /** The header of a bcrypt hash with cost factor 10 (`genSalt(10)`). */
  const Header: string := "$2a$10$"

  /** The salt every hash of the model carries. */
  const Salt: string := "N9qo8uLOickgx2ZMRZoMye"

  /** The test the student login uses to tell a hash from a legacy plain-text password. */
  predicate IsHashed(stored: string) {
    StartsWith(stored, "$2")
  }

  /** bcrypt reads at most this many leading characters of a password. */
  const KeyLength: nat := 72

  /** The part of a password the key schedule reads: its first 72 characters. */
  function Key(password: string): (k: string)
    ensures |k| <= KeyLength && |k| <= |password| && k == password[..|k|]
    ensures |password| <= KeyLength ==> k == password
    ensures |password| > KeyLength ==> k == password[..KeyLength]
  {
    if |password| <= KeyLength then password else password[..KeyLength]
  }

  /** `bcrypt.compare(password, hash)`: true only for a complete hash made from the key of
      `password`, so only texts that start with "$2" and hold a header and a salt. */
  predicate Compare(password: string, hash: string): (ok: bool)
    ensures ok ==> IsHashed(hash) && |hash| >= |Header| + |Salt|
  {
    hash == Header + Salt + Key(password)
  }

  /** `bcrypt.hash(password, salt)`: the result looks like a hash and compares equal to the
      password it was made from. */
  function Hash(password: string): (h: string)
    ensures IsHashed(h)
    ensures |h| == |Header| + |Salt| + |Key(password)|
    ensures Compare(password, h)
  {
    Header + Salt + Key(password)
  }

  /** A hash accepts exactly the passwords that share their first 72 characters. */
  lemma CompareSameKey(p: string, q: string, hash: string)
    requires Compare(p, hash)
    ensures Compare(q, hash) <==> Key(q) == Key(p)
  {
    if Compare(q, hash) {
      assert Key(p) == hash[|Header| + |Salt|..];
      assert Key(q) == hash[|Header| + |Salt|..];
    }
  }

  /** Two passwords that agree on their first 72 characters are accepted by each other's
      hash, whatever follows. */
  lemma {:induction false} LongPasswordsShareHash(p: string, a: string, b: string)
    requires |p| >= KeyLength
    ensures Compare(p + a, Hash(p + b))
  {
    assert (p + a)[..KeyLength] == p[..KeyLength] == (p + b)[..KeyLength];
  }

  /** Hashing a hash gives a text the original password does not match, unless the
      password is 72 characters or longer and itself begins with the header and the salt. */
  lemma DoubleHashRejected(p: string)
    requires |p| < KeyLength || !StartsWith(p, Header + Salt)
    ensures !Compare(p, Hash(Hash(p)))
  {
    if |p| >= KeyLength {
      var h, n := Hash(p), |Header| + |Salt|;
      assert Key(h)[..n] == h[..n] == Header + Salt;
      assert Key(p)[..n] == p[..n];
      assert Key(h) != Key(p);
      assert Hash(h)[n..] == Key(h);
    }
  }
}
