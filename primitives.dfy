/**
 * The browser and library primitives the application calls, as uninterpreted
 * functions bundled in one record, and the properties of each primitive that
 * the rest of the model relies on.
 */
module Primitives {
  import opened Wrappers

  newtype byte = x: int | 0 <= x < 256
  type Bytes = seq<byte>

  /** 2^32: the range of a `Uint32Array` element and of `DataView.getUint32`. */
  const TWO_POW_32: nat := 0x1_0000_0000

  /** An ECDH P-256 key pair, known by its private half. */
  datatype KeyPair = KeyPair(secret: Bytes)

  /** The fields of the metadata JSON object `{f, t, c}` that precedes the file bytes. */
  datatype Metadata = Metadata(f: string, t: string, c: bool)

  /**
   * One value per primitive.  `gcmSeal` returns ciphertext followed by the tag;
   * `gcmOpen` returns None when the tag does not authenticate; `argon2` takes
   * password, salt, time cost and memory cost; `aesCtr(k, ctr, n)` is the first
   * `n` keystream bytes from counter block `ctr`, i.e. the encryption of `n` zero
   * bytes; `metaDecode` and `legacyDecode` are `JSON.parse` of the decoded text
   * with missing string fields read as "" (falsy); `ecdh` returns None when the
   * peer's raw public key does not import.
   */
  datatype Oracles = Oracles(
    hmac: (Bytes, Bytes) -> Bytes,
    sha256: Bytes -> Bytes,
    aesCtr: (Bytes, Bytes, nat) -> Bytes,
    gcmSeal: (Bytes, Bytes, Bytes, Bytes) -> Bytes,
    gcmOpen: (Bytes, Bytes, Bytes, Bytes) -> Option<Bytes>,
    argon2: (Bytes, Bytes, nat, nat) -> Bytes,
    b64Encode: Bytes -> string,
    b64Decode: string -> Option<Bytes>,
    utf8Encode: string -> Bytes,
    utf8Decode: Bytes -> string,
    deflate: Bytes -> Bytes,
    inflate: Bytes -> Option<Bytes>,
    metaEncode: Metadata -> Bytes,
    metaDecode: Bytes -> Option<Metadata>,
    legacyEncode: (string, string) -> Bytes,
    legacyDecode: Bytes -> Option<(string, string)>,
    publicOf: KeyPair -> Bytes,
    ecdh: (KeyPair, Bytes) -> Option<Bytes>
  )

  /** HMAC-SHA-256 always yields 32 bytes. */
  ghost predicate HmacSound(o: Oracles) {
    forall k, m :: |o.hmac(k, m)| == 32
  }

  ghost predicate Sha256Sound(o: Oracles) {
    forall m :: |o.sha256(m)| == 32
  }

  /** AES-CTR yields exactly as many keystream bytes as asked for. */
  ghost predicate CtrSound(o: Oracles) {
    forall k, c, n :: |o.aesCtr(k, c, n)| == n
  }

  /** Argon2id is always asked for a 32-byte hash. */
  ghost predicate Argon2Sound(o: Oracles) {
    forall p, s, t, m :: |o.argon2(p, s, t, m)| == 32
  }

  /** AES-GCM decryption inverts encryption under the same key, IV and associated data. */
  ghost predicate GcmSound(o: Oracles) {
    forall k, iv, ad, p :: o.gcmOpen(k, iv, ad, o.gcmSeal(k, iv, ad, p)) == Some(p)
  }

  /** Base64: decoding inverts encoding, `atob("")` is empty, and the alphabet has no '|'. */
  ghost predicate Base64Sound(o: Oracles) {
    && (forall b :: o.b64Decode(o.b64Encode(b)) == Some(b))
    && o.b64Decode("") == Some([])
    && (forall b :: '|' !in o.b64Encode(b))
  }

  ghost predicate DeflateSound(o: Oracles) {
    forall d :: o.inflate(o.deflate(d)) == Some(d)
  }

  /** JSON text parses back to what was stringified, and an object's text starts with '{' (0x7B). */
  ghost predicate JsonSound(o: Oracles) {
    && (forall m :: o.metaDecode(o.metaEncode(m)) == Some(m))
    && (forall q, d :: o.legacyDecode(o.legacyEncode(q, d)) == Some((q, d)))
    && (forall q, d :: |o.legacyEncode(q, d)| > 0 && o.legacyEncode(q, d)[0] == 0x7B)
  }

  /** Both parties of an ECDH exchange compute the same shared secret. */
  ghost predicate EcdhSound(o: Oracles) {
    forall a, b :: o.ecdh(a, o.publicOf(b)) == o.ecdh(b, o.publicOf(a))
  }

  /** UTF-8 spends at least one byte on every character, so only the empty text encodes to no bytes. */
  ghost predicate Utf8Sound(o: Oracles) {
    forall s :: |o.utf8Encode(s)| >= |s|
  }

  ghost predicate Sound(o: Oracles) {
    && HmacSound(o) && Sha256Sound(o) && CtrSound(o) && Argon2Sound(o) && GcmSound(o)
    && Base64Sound(o) && DeflateSound(o) && JsonSound(o) && EcdhSound(o) && Utf8Sound(o)
  }
}
