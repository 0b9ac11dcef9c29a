/** The cryptographic vocabulary of the token service. The primitives
    themselves (SHA-256 of FIPS 180-4, HMAC of RFC 2104 over SHA-256 and the
    URL-safe base64 alphabet of section 5 of RFC 4648) are not modelled: a
    token service is given them as a record of functions, so every proof
    holds for any functions of these signatures. */
module Crypto {

  newtype byte = x: int | 0 <= x < 256

  /** The size in bytes of a SHA-256 digest. */
  const DigestSize := 32

  type Digest = s: seq<byte> | |s| == DigestSize witness seq(DigestSize, i => 0)

  /** `sha256(data)`, `hmacSha256(key, message)` and `base64Url(data)`. */
  datatype Primitives = Primitives(
    sha256: seq<byte> -> Digest,
    hmacSha256: (seq<byte>, seq<byte>) -> Digest,
    base64Url: seq<byte> -> string)
}
