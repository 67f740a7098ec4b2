/** The foreign cryptography, as uninterpreted functions with the laws the protocol relies on,
    and binary values inside JSON objects. */
module Crypto {
  import opened Wrappers
  import opened Json
  import Base64

  /** Affine coordinates as they travel in "x" and "y". */
  datatype Point = Point(x: string, y: string)

  datatype Crypto = Crypto(
    digest: string -> string,                                // S256 digest, base64url
    publicValue: (string, string) -> Point,                  // curve, private value "d"
    agree: (string, string, Point) -> bytes,                 // curve, own "d", peer's public value
    kdf: (bytes, bytes) -> bytes,                            // secret, salt
    hmac: (bytes, string) -> bytes,                          // HMAC-SHA256: key, message
    pkSign: (string, Json, string) -> Result<bytes>,         // RSA and DSA: algorithm, key, message
    pkVerify: (string, Json, string, bytes) -> Result<bool>,
    keySize: (string, Json) -> Option<nat>)
  {
    /** The digest is injective, Diffie-Hellman commutes, the SHA-256 based functions yield
        32 bytes, and a public-key signature verifies under the key that made it. */
    ghost predicate Lawful() {
      && (forall s, s' :: digest(s) == digest(s') ==> s == s')
      && (forall crv, d, e :: agree(crv, d, publicValue(crv, e)) == agree(crv, e, publicValue(crv, d)))
      && (forall k, salt :: |kdf(k, salt)| == 32)
      && (forall k, m :: |hmac(k, m)| == 32)
      && (forall alg, key, m, sig :: pkSign(alg, key, m) == Ok(sig) ==>
            sig != [] && pkVerify(alg, key, m, sig) == Ok(true))
    }
  }

  /** The laws are consistent: they hold of an instance without any secrecy. */
  lemma LawsAreConsistent()
    ensures exists c: Crypto :: c.Lawful()
  {
    var zeros: bytes := seq(32, _ => 0);
    var toy := Crypto(
      s => s, (crv, d) => Point(d, d), (crv, d, peer) => zeros, (k, salt) => zeros, (k, m) => zeros,
      (alg, key, m) => Err(CryptoError), (alg, key, m, sig) => Err(CryptoError), (alg, key) => None);
    assert toy.Lawful();
  }

  /** `json_dumps` and `json_loads` on objects. */
  datatype Codec = Codec(dumps: Object -> bytes, loads: bytes -> Option<Json>) {
    ghost predicate Lawful() {
      && (forall o :: loads(dumps(o)) == Some(Obj(o)))
      && (forall o :: 0 !in dumps(o))
    }
  }

  /** The characters of an ASCII salt such as "ARK". */
  function Ascii(s: string): bytes {
    seq(|s|, i requires 0 <= i < |s| => (s[i] as int) % 256)
  }

  /** `_BIDGetJsonBinaryValue`. */
  function GetBinary(o: Object, key: string): Result<bytes> {
    var s := GetString(o, key);
    if s.None? then Err(UnknownJsonKey) else Base64.Decode(s.value)
  }

  /** `_BIDJsonBinaryValue`, on the 32-byte values it is used for here. */
  function Binary(b: bytes): Json {
    Str(Base64.Encode(b, Base64.Url))
  }

  lemma BinaryRoundTrip(o: Object, key: string, b: bytes)
    requires key in o && o[key] == Binary(b)
    ensures GetBinary(o, key) == Ok(b)
  {
    hide Base64.Encode, Base64.Decode;
    Base64.RoundTrip(b, Base64.Url);
  }
}
