/** The two foreign libraries behind app/utils/security.py, as symbolic models:
    passlib's bcrypt context (hash / verify) and PyJWT's HS256 encode / decode.
    Neither models the cryptography itself; each models exactly the behaviour
    the application relies on, so that the application's own rules can be
    proved on top of it. */
module Crypto {
  import opened Json

  // ---------------------------------------------------------------------------
  // Password hashing (passlib CryptContext with the bcrypt scheme)
  // ---------------------------------------------------------------------------

  /** A bcrypt digest. Symbolically, a digest records which password it was
      computed from; the salt, the cost factor and one-wayness are not
      modelled. The stored column is a digest, never the plaintext. */
  datatype Digest = Bcrypt(password: string)

  /** `get_password_hash`. */
  function HashPassword(password: string): (d: Digest)
    ensures VerifyPassword(password, d)
  {
    Bcrypt(password)
  }

  /** `verify_password`: does the plaintext match the digest? */
  predicate VerifyPassword(plain: string, digest: Digest) {
    digest.password == plain
  }

  /** A digest verifies exactly the password it was made from. */
  lemma VerifyHashIff(plain: string, original: string)
    ensures VerifyPassword(plain, HashPassword(original)) <==> plain == original
  {
  }

  // ---------------------------------------------------------------------------
  // JSON Web Tokens (PyJWT with HS256, RFC 7519 / RFC 7518 section 3.2)
  // ---------------------------------------------------------------------------

  /** The only algorithm the application signs with and accepts. */
  const Algorithm := "HS256"

  /** A compact JWS, symbolically: the header's algorithm, the payload (a JSON
      object, the claims set) and the key the signature was computed with; or a
      string that does not parse as a JWS at all. */
  datatype Jwt =
    | Signed(alg: string, payload: map<string, JsonValue>, signingKey: string)
    | Garbled(raw: string)

  /** What `jwt.decode(token, key, algorithms=["HS256"])` returns or raises. */
  datatype DecodeResult =
    | Decoded(claims: map<string, JsonValue>)
    | DecodeError          // malformed token, or an `exp` claim that is not an integer
    | InvalidAlgorithm     // header algorithm not in the allowed list
    | InvalidSignature     // signature does not match the key
    | ExpiredSignature     // `exp` claim at or before the current time

  /** `jwt.encode(payload, key, algorithm="HS256")`. */
  function Encode(payload: map<string, JsonValue>, key: string): (t: Jwt)
    ensures t.Signed? && t.alg == Algorithm
  {
    Signed(Algorithm, payload, key)
  }

  /** `jwt.decode`, in PyJWT's order of checks: structure, algorithm,
      signature, then the `exp` claim (RFC 7519 section 4.1.4), which must be
      an integer and is expired when `exp <= now`. A token without `exp` is
      not checked for expiry. `now` is the current Unix time in seconds. */
  function Decode(t: Jwt, key: string, now: int): (r: DecodeResult)
    ensures r.Decoded? ==> t.Signed? && r.claims == t.payload
    ensures r.Decoded? ==> t.alg == Algorithm && t.signingKey == key
    ensures r.Decoded? && "exp" in r.claims ==> r.claims["exp"].JInt? && now < r.claims["exp"].i
  {
    match t
    case Garbled(_) => DecodeError
    case Signed(alg, payload, signingKey) =>
      if alg != Algorithm then InvalidAlgorithm
      else if signingKey != key then InvalidSignature
      else if "exp" !in payload then Decoded(payload)
      else if !payload["exp"].JInt? then DecodeError
      else if payload["exp"].i <= now then ExpiredSignature
      else Decoded(payload)
  }

  /** Round trip (RFC 7519 section 4.1.4): before its expiry a token decodes,
      under the key it was signed with, to exactly the claims it was encoded
      from; at or after its expiry it is rejected as expired. */
  lemma EncodeDecodeRoundTrip(payload: map<string, JsonValue>, key: string, exp: int, now: int)
    requires "exp" in payload && payload["exp"] == JInt(exp)
    ensures now < exp ==> Decode(Encode(payload, key), key, now) == Decoded(payload)
    ensures exp <= now ==> Decode(Encode(payload, key), key, now) == ExpiredSignature
  {
  }

  /** A token signed under another key never decodes, whatever its claims. */
  lemma WrongKeyRejected(payload: map<string, JsonValue>, key: string, otherKey: string, now: int)
    requires key != otherKey
    ensures Decode(Encode(payload, key), otherKey, now) == InvalidSignature
  {
  }
}
