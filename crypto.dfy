/** The two cryptographic libraries the API calls, modelled symbolically.

    bcrypt: a stored password is either the plaintext itself or the digest
    `Hashed(input, salt)`, which stands for `bcrypt.hash(input, salt)`. The
    digest keeps its input only so that `compare` can be stated; nothing in
    the model reads the plaintext back out of a digest except `Compare`.
    bcrypt reads only the first 72 bytes of a password, so `compare` accepts
    every candidate that agrees with the hashed input on its `Key`.

    jsonwebtoken: a signed token is its payload plus its expiry instant; which
    strings decode to which tokens under the process-wide secret is left to the
    caller (see `AuthMiddleware.Authenticate`). */
module Crypto {
  import opened Base

  /** A stored password value. */
  datatype Secret = Plain(text: string) | Hashed(input: Secret, salt: nat)

  /** `bcrypt.hash(s, salt)`. */
  function Hash(s: Secret, salt: nat): (h: Secret)
    ensures h.Hashed? && h != s
  {
    var h := Hashed(s, salt);
    assert s < h;
    h
  }

  /** The number of password bytes bcrypt reads; the rest is ignored. */
  const KeyLength: nat := 72

  /** The part of a password bcrypt uses: its first `KeyLength` characters,
      each counted as one byte. */
  function Key(s: string): (k: string)
    ensures |k| <= KeyLength && k <= s
    ensures |s| <= KeyLength <==> k == s
    ensures |s| > KeyLength ==> |k| == KeyLength
  {
    if |s| <= KeyLength then s else s[..KeyLength]
  }

  /** `bcrypt.compare(candidate, stored)`: true exactly when `stored` is a
      digest of a plaintext with the same key as `candidate`; a value that is
      not a digest never matches. */
  function Compare(candidate: string, stored: Secret): bool {
    stored.Hashed? && stored.input.Plain? && Key(stored.input.text) == Key(candidate)
  }

  /** A digest of `p` accepts exactly the candidates that agree with `p` on
      the first 72 characters, whatever salt was drawn: `p` itself, and for
      passwords no longer than that, only `p`. A password stored as plaintext
      accepts nothing. */
  lemma CompareHash(p: string, q: string, salt: nat)
    ensures Compare(q, Hash(Plain(p), salt)) <==> Key(q) == Key(p)
    ensures Compare(p, Hash(Plain(p), salt))
    ensures |p| <= KeyLength && |q| <= KeyLength ==> (Compare(q, Hash(Plain(p), salt)) <==> q == p)
    ensures !Compare(q, Plain(p))
  {
  }

  /** Two passwords that share their first 72 characters match each other's
      digest, whatever follows. */
  lemma {:induction false} CompareIgnoresTail(prefix: string, x: string, y: string, salt: nat)
    requires |prefix| == KeyLength
    ensures Compare(prefix + x, Hash(Plain(prefix + y), salt))
  {
    assert Key(prefix + x) == prefix by {
      assert (prefix + x)[..KeyLength] == prefix;
    }
    assert Key(prefix + y) == prefix by {
      assert (prefix + y)[..KeyLength] == prefix;
    }
  }

  /** The identity a token carries: `{ id, username, role }`. */
  datatype Claims = Claims(id: Id, username: string, role: Option<string>)

  /** A token signed with the process-wide secret. */
  datatype Jwt = Jwt(claims: Claims, expiresAt: int)

  /** `expiresIn: '1h'`, in seconds. */
  const ExpiresIn: int := 3600

  /** `jwt.sign(claims, secret, { expiresIn: '1h' })` at clock time `now`. */
  function Sign(claims: Claims, now: int): (t: Jwt)
    ensures t.claims == claims && t.expiresAt == now + ExpiresIn
  {
    Jwt(claims, now + ExpiresIn)
  }

  /** The expiry check of `jwt.verify` on a token whose signature has already
      been checked (`decoded`), or the library's reason for rejecting it. */
  function Verify(decoded: Result<Jwt, string>, now: int): Result<Claims, string> {
    match decoded
    case Err(reason) => Err(reason)
    case Ok(t) => if now < t.expiresAt then Ok(t.claims) else Err("jwt expired")
  }

  /** A token verifies to the claims it was signed with for exactly one hour
      after signing, and is rejected as expired from then on. */
  lemma {:induction false} VerifySign(claims: Claims, signedAt: int, now: int)
    ensures now < signedAt + ExpiresIn ==> Verify(Ok(Sign(claims, signedAt)), now) == Ok(claims)
    ensures now >= signedAt + ExpiresIn ==> Verify(Ok(Sign(claims, signedAt)), now) == Err("jwt expired")
  {
  }
}
