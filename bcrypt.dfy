/** bcrypt as the core uses it: genSalt(10), hash(password, salt) and compare(candidate, hash).

    The digest is modelled as an injective encoding, "$2b$10$" followed by the 22-character salt and
    then the hashed string. It stands for an ideal salted hash: compare accepts exactly the string
    that was hashed, whatever the salt, and two salts give two different digests. A digest is itself
    a string, so it can be hashed again, as the reset-password handler ends up doing. */
module Bcrypt {

  /** Version 2b, cost factor 10, as genSalt(10) produces. */
  const Prefix: string := "$2b$10$"

  const SaltLength: nat := 22

  /** What bcrypt.genSalt returns, beyond the prefix: 22 characters. */
  type Salt = s: string | |s| == SaltLength witness "......................"

  /** The length of the prefix and the salt, before the hashed part. */
  const HeaderLength: nat := |Prefix| + SaltLength

  predicate IsHash(h: string) {
    |h| >= HeaderLength && h[..|Prefix|] == Prefix
  }

  function Hash(password: string, salt: Salt): (h: string)
    ensures IsHash(h) && |h| == HeaderLength + |password|
    ensures h[|Prefix|..HeaderLength] == salt
  {
    Prefix + salt + password
  }

  /** bcrypt.compare: false (never an error) when the stored value is not a digest. */
  predicate Compare(candidate: string, h: string) {
    IsHash(h) && h[HeaderLength..] == candidate
  }

  /** compare accepts the password that was hashed, under any salt. */
  lemma CompareHash(password: string, salt: Salt)
    ensures Compare(password, Hash(password, salt))
  {
    var h := Hash(password, salt);
    assert h[HeaderLength..] == password;
  }

  /** compare accepts nothing but the password that was hashed. */
  lemma CompareOnlyHashed(candidate: string, password: string, salt: Salt)
    requires Compare(candidate, Hash(password, salt))
    ensures candidate == password
  {
    var h := Hash(password, salt);
    assert h[HeaderLength..] == password;
  }

  /** Salted: the same password under two salts gives two digests. */
  lemma HashSalted(password: string, s1: Salt, s2: Salt)
    requires s1 != s2
    ensures Hash(password, s1) != Hash(password, s2)
  {
    var h1, h2 := Hash(password, s1), Hash(password, s2);
    assert h1[|Prefix|..HeaderLength] == s1;
    assert h2[|Prefix|..HeaderLength] == s2;
  }

  /** A digest of a digest: compare accepts only the inner digest as a password, never the
      original password. */
  lemma CompareDoubleHash(candidate: string, password: string, s1: Salt, s2: Salt)
    ensures Compare(candidate, Hash(Hash(password, s1), s2)) <==> candidate == Hash(password, s1)
    ensures !Compare(password, Hash(Hash(password, s1), s2))
  {
    var inner := Hash(password, s1);
    CompareHash(inner, s2);
    if Compare(candidate, Hash(inner, s2)) {
      CompareOnlyHashed(candidate, inner, s2);
    }
    assert |inner| > |password|;
  }
}
