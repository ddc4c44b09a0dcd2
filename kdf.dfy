/**
 * Key derivation and AES-GCM framing of lib/crypto.ts: HKDF (RFC 5869,
 * sections 2.2 and 2.3), key hardening, dual-mode key normalisation, the
 * derivation of PRNG seeds, and the `iv ‖ ciphertext` containers.
 */
module Kdf {
  import opened Wrappers
  import opened Primitives
  import opened ByteUtil

  const HASH_LEN: nat := 32
  const MAX_HKDF_BLOCKS: nat := 255

  /** Number of 32-byte blocks needed for `len` bytes: `Math.ceil(len / 32)`. */
  function NumBlocks(len: nat): nat {
    (len + HASH_LEN - 1) / HASH_LEN
  }

  /** T(i) of RFC 5869 section 2.3: T(0) is empty, T(i) = HMAC(PRK, T(i-1) ‖ info ‖ i). */
  function Block(o: Oracles, prk: Bytes, info: Bytes, i: nat): Bytes
    requires i <= MAX_HKDF_BLOCKS
  {
    if i == 0 then [] else o.hmac(prk, Block(o, prk, info, i - 1) + info + [i as byte])
  }

  /** T(1) ‖ ... ‖ T(n). */
  function Blocks(o: Oracles, prk: Bytes, info: Bytes, n: nat): Bytes
    requires n <= MAX_HKDF_BLOCKS
  {
    if n == 0 then [] else Blocks(o, prk, info, n - 1) + Block(o, prk, info, n)
  }

  /**
   * The `DataError` of Web Crypto's `importKey('raw', ..)` for an HMAC key of
   * no bytes; the text is the browser's own, and this is Chromium's.
   */
  const HMAC_EMPTY_KEY: string := "HMAC key data must not be empty"
  const HKDF_TOO_LONG: string := "Output length too large for HKDF-Expand implementation."

  /**
   * `deriveHkdfKeyBytes`: import `salt` as HMAC key (refused when empty), then
   * extract, check the block count, expand and keep `len` bytes.
   */
  function Hkdf(o: Oracles, ikm: Bytes, salt: Bytes, info: Bytes, len: nat): Result<Bytes> {
    var n := NumBlocks(len);
    if |salt| == 0 then Err(HMAC_EMPTY_KEY)
    else if n > MAX_HKDF_BLOCKS then Err(HKDF_TOO_LONG)
    else Ok(JsSlice(Blocks(o, o.hmac(salt, ikm), info, n), 0, len))
  }

  lemma {:induction false} BlocksLength(o: Oracles, prk: Bytes, info: Bytes, n: nat)
    requires HmacSound(o) && n <= MAX_HKDF_BLOCKS
    ensures |Blocks(o, prk, info, n)| == HASH_LEN * n
  {
    if n > 0 {
      BlocksLength(o, prk, info, n - 1);
    }
  }

  lemma {:induction false} BlocksPrefix(o: Oracles, prk: Bytes, info: Bytes, m: nat, n: nat)
    requires m <= n <= MAX_HKDF_BLOCKS
    ensures |Blocks(o, prk, info, m)| <= |Blocks(o, prk, info, n)|
    ensures Blocks(o, prk, info, m) == Blocks(o, prk, info, n)[..|Blocks(o, prk, info, m)|]
    decreases n
  {
    if m < n {
      BlocksPrefix(o, prk, info, m, n - 1);
    }
  }

  /**
   * HKDF refuses an empty salt, then more than 255 blocks, and otherwise
   * returns exactly `len` bytes.
   */
  lemma HkdfLength(o: Oracles, ikm: Bytes, salt: Bytes, info: Bytes, len: nat)
    requires HmacSound(o)
    ensures Hkdf(o, ikm, salt, info, len).Err? <==> |salt| == 0 || NumBlocks(len) > MAX_HKDF_BLOCKS
    ensures Hkdf(o, ikm, salt, info, len).Err? ==>
      Hkdf(o, ikm, salt, info, len).msg == if |salt| == 0 then HMAC_EMPTY_KEY else HKDF_TOO_LONG
    ensures Hkdf(o, ikm, salt, info, len).Ok? ==> |Hkdf(o, ikm, salt, info, len).value| == len
  {
    var n := NumBlocks(len);
    if |salt| > 0 && n <= MAX_HKDF_BLOCKS {
      BlocksLength(o, o.hmac(salt, ikm), info, n);
    }
  }

  /** A shorter HKDF output is a prefix of a longer one with the same inputs. */
  lemma HkdfPrefix(o: Oracles, ikm: Bytes, salt: Bytes, info: Bytes, short: nat, long: nat)
    requires HmacSound(o) && short <= long
    requires Hkdf(o, ikm, salt, info, long).Ok?
    ensures Hkdf(o, ikm, salt, info, short).Ok?
    ensures |Hkdf(o, ikm, salt, info, long).value| == long
    ensures Hkdf(o, ikm, salt, info, short).value == Hkdf(o, ikm, salt, info, long).value[..short]
  {
    var prk := o.hmac(salt, ikm);
    var m, n := NumBlocks(short), NumBlocks(long);
    BlocksLength(o, prk, info, m);
    BlocksLength(o, prk, info, n);
    BlocksPrefix(o, prk, info, m, n);
  }

  method DeriveHkdfKeyBytes(o: Oracles, ikm: Bytes, salt: Bytes, info: Bytes, len: nat) returns (r: Result<Bytes>)
    requires HmacSound(o)
    ensures r.Err? <==> |salt| == 0 || NumBlocks(len) > MAX_HKDF_BLOCKS
    ensures r.Err? ==> r.msg == if |salt| == 0 then HMAC_EMPTY_KEY else HKDF_TOO_LONG
    ensures r.Ok? ==> |r.value| == len
    ensures r == Hkdf(o, ikm, salt, info, len)
  {
    if |salt| == 0 {
      return Err(HMAC_EMPTY_KEY);
    }
    var prk := o.hmac(salt, ikm);
    var numBlocks := NumBlocks(len);
    if numBlocks > MAX_HKDF_BLOCKS {
      return Err(HKDF_TOO_LONG);
    }
    var okm := Expand(o, prk, info, numBlocks);
    r := Ok(JsSlice(okm, 0, len));
    HkdfLength(o, ikm, salt, info, len);
  }

  /** The HKDF-Expand loop: `T(1) ‖ ... ‖ T(numBlocks)` written block by block into a fresh buffer. */
  method Expand(o: Oracles, prk: Bytes, info: Bytes, numBlocks: nat) returns (out: Bytes)
    requires HmacSound(o) && numBlocks <= MAX_HKDF_BLOCKS
    ensures out == Blocks(o, prk, info, numBlocks)
  {
    var okm := new byte[numBlocks * HASH_LEN];
    var tPrev: Bytes := [];
    for i := 1 to numBlocks + 1
      invariant tPrev == Block(o, prk, info, i - 1)
      invariant okm[..(i - 1) * HASH_LEN] == Blocks(o, prk, info, i - 1)
    {
      BlocksLength(o, prk, info, i - 1);
      var blockData := tPrev + info + [i as byte];
      var t := o.hmac(prk, blockData);
      Blit(okm, (i - 1) * HASH_LEN, t);
      tPrev := t;
    }
    assert okm[..] == okm[..numBlocks * HASH_LEN];
    out := okm[..];
  }

  // ---------------------------------------------------------- hardening

  const HARDENING_SALT: string := "chimera-cipher-key-hardening-salt"

  /** The HKDF info of a hardened key: the purpose string's UTF-8 bytes, then the config byte. */
  function HardenInfo(o: Oracles, purpose: string, configByte: byte): Bytes {
    o.utf8Encode(purpose) + [configByte]
  }

  lemma HardenInfoLayout(o: Oracles, purpose: string, configByte: byte)
    ensures |HardenInfo(o, purpose, configByte)| == |o.utf8Encode(purpose)| + 1
    ensures HardenInfo(o, purpose, configByte)[..|o.utf8Encode(purpose)|] == o.utf8Encode(purpose)
    ensures HardenInfo(o, purpose, configByte)[|o.utf8Encode(purpose)|] == configByte
  {
  }

  /** `hardenKeyWithHKDF`: a 32-byte HKDF output bound to the purpose and settings, re-encoded. */
  function HardenKey(o: Oracles, keyB64: string, purpose: string, configByte: byte): Result<string> {
    match o.b64Decode(keyB64)
    case None => Err("The string to be decoded is not correctly encoded.")
    case Some(secret) =>
      match Hkdf(o, secret, o.utf8Encode(HARDENING_SALT), HardenInfo(o, purpose, configByte), 32)
      case Err(e) => Err(e)
      case Ok(derived) => Ok(o.b64Encode(derived))
  }

  method HardenKeyWithHkdf(o: Oracles, keyB64: string, purpose: string, configByte: byte) returns (r: Result<string>)
    requires HmacSound(o)
    ensures r.Ok? <==> o.b64Decode(keyB64).Some? && o.utf8Encode(HARDENING_SALT) != []
    ensures r == HardenKey(o, keyB64, purpose, configByte)
  {
    var decoded := o.b64Decode(keyB64);
    if decoded.None? {
      return Err("The string to be decoded is not correctly encoded.");
    }
    var info := o.utf8Encode(purpose) + [configByte];
    var derived := DeriveHkdfKeyBytes(o, decoded.value, o.utf8Encode(HARDENING_SALT), info, 32);
    if derived.Err? {
      return Err(derived.msg);
    }
    r := Ok(o.b64Encode(derived.value));
  }

  /** A hardened key always decodes to 32 bytes when its input was valid base64. */
  lemma HardenKeyIs32Bytes(o: Oracles, keyB64: string, purpose: string, configByte: byte)
    requires HmacSound(o) && Base64Sound(o) && Utf8Sound(o)
    requires o.b64Decode(keyB64).Some?
    ensures HardenKey(o, keyB64, purpose, configByte).Ok?
    ensures o.b64Decode(HardenKey(o, keyB64, purpose, configByte).value) == Some(
      Hkdf(o, o.b64Decode(keyB64).value, o.utf8Encode(HARDENING_SALT), HardenInfo(o, purpose, configByte), 32).value)
    ensures |o.b64Decode(HardenKey(o, keyB64, purpose, configByte).value).value| == 32
  {
    HkdfLength(o, o.b64Decode(keyB64).value, o.utf8Encode(HARDENING_SALT), HardenInfo(o, purpose, configByte), 32);
  }

  // ------------------------------------------------------- normalisation

  const PBKDF_SALT: string := "CHIMERA-CIPHER-PBKDF-SALT-V2"

  /** `deriveStandardCostKeyFromPassword`: Argon2id, 2 passes, 32 MiB. */
  function StandardCostKey(o: Oracles, password: string): Bytes {
    o.argon2(o.utf8Encode(password), o.utf8Encode(PBKDF_SALT), 2, 32768)
  }

  /** `deriveHighCostKeyFromPassword`: Argon2id, 4 passes, 128 MiB (the tar pit). */
  function HighCostKey(o: Oracles, password: string): Bytes {
    o.argon2(o.utf8Encode(password), o.utf8Encode(PBKDF_SALT), 4, 131072)
  }

  /** `normalizeKeyFromString`: a base64 32-byte key passes through; anything else is a password. */
  function NormalizeKey(o: Oracles, keyString: string): string {
    if keyString == "" then ""
    else match o.b64Decode(keyString)
      case Some(decoded) =>
        if |decoded| == 32 then keyString else o.b64Encode(StandardCostKey(o, keyString))
      case None => o.b64Encode(StandardCostKey(o, keyString))
  }

  lemma NormalizeKeyFacts(o: Oracles, keyString: string)
    requires Base64Sound(o) && Argon2Sound(o)
    ensures keyString == "" ==> NormalizeKey(o, keyString) == ""
    ensures (o.b64Decode(keyString).Some? && |o.b64Decode(keyString).value| == 32)
      ==> NormalizeKey(o, keyString) == keyString
    ensures keyString != "" ==>
      o.b64Decode(NormalizeKey(o, keyString)).Some? && |o.b64Decode(NormalizeKey(o, keyString)).value| == 32
  {
  }

  /** Normalising a normalised key changes nothing. */
  lemma NormalizeKeyIdempotent(o: Oracles, keyString: string)
    requires Base64Sound(o) && Argon2Sound(o)
    ensures NormalizeKey(o, NormalizeKey(o, keyString)) == NormalizeKey(o, keyString)
  {
    var n := NormalizeKey(o, keyString);
    if keyString != "" {
      NormalizeKeyFacts(o, keyString);
    }
  }

  // -------------------------------------------------------- PRNG seeds

  /** The AES-CTR key and the initial 16-byte counter block of a keyed PRNG. */
  datatype Seed = Seed(key: Bytes, counter: Bytes)

  const PRNG_INFO: string := "prng-seed-derivation"

  /** `getPrngMaterialFromKey`: 48 HKDF bytes split into a 32-byte key and a 16-byte counter. */
  function PrngMaterial(o: Oracles, keyB64: string, salt: string): Result<Seed> {
    match o.b64Decode(keyB64)
    case None => Err("The string to be decoded is not correctly encoded.")
    case Some(secret) =>
      match Hkdf(o, secret, o.utf8Encode(salt), o.utf8Encode(PRNG_INFO), 48)
      case Err(e) => Err(e)
      case Ok(derived) => Ok(Seed(JsSlice(derived, 0, 32), JsSlice(derived, 32, 48)))
  }

  method GetPrngMaterialFromKey(o: Oracles, keyB64: string, salt: string) returns (r: Result<Seed>)
    requires HmacSound(o)
    ensures r.Ok? <==> o.b64Decode(keyB64).Some? && o.utf8Encode(salt) != []
    ensures r.Ok? ==> |r.value.key| == 32 && |r.value.counter| == 16
    ensures r == PrngMaterial(o, keyB64, salt)
  {
    var secret := o.b64Decode(keyB64);
    if secret.None? {
      return Err("The string to be decoded is not correctly encoded.");
    }
    var derived := DeriveHkdfKeyBytes(o, secret.value, o.utf8Encode(salt), o.utf8Encode(PRNG_INFO), 48);
    if derived.Err? {
      return Err(derived.msg);
    }
    r := Ok(Seed(JsSlice(derived.value, 0, 32), JsSlice(derived.value, 32, 48)));
  }

  // ------------------------------------------------- AES-GCM containers

  const IV_LENGTH: nat := 12

  /** AES `importKey('raw', ..)` accepts 128-, 192- and 256-bit keys only. */
  predicate AesKeyLength(n: nat) {
    n == 16 || n == 24 || n == 32
  }

  /** `encryptWithRawKey` with the random IV `iv`; no associated data is the same as empty. */
  function EncryptRaw(o: Oracles, key: Bytes, iv: Bytes, data: Bytes, ad: Bytes): Result<Bytes> {
    if !AesKeyLength(|key|) then Err("Invalid key length")
    else Ok(iv + o.gcmSeal(key, iv, ad, data))
  }

  /** `decryptWithRawKey`: the first 12 bytes are the IV, the rest ciphertext and tag. */
  function DecryptRaw(o: Oracles, key: Bytes, blob: Bytes, ad: Bytes): Result<Bytes> {
    if !AesKeyLength(|key|) then Err("Invalid key length")
    else match o.gcmOpen(key, JsSlice(blob, 0, IV_LENGTH), ad, JsSlice(blob, IV_LENGTH, |blob|))
      case None => Err(RAW_TAG_MISMATCH)
      case Some(plain) => Ok(plain)
  }

  /** `encryptData`: the key arrives base64-encoded. */
  function EncryptData(o: Oracles, keyB64: string, iv: Bytes, data: Bytes): Result<Bytes> {
    match o.b64Decode(keyB64)
    case None => Err("The string to be decoded is not correctly encoded.")
    case Some(key) => EncryptRaw(o, key, iv, data, [])
  }

  /** The text `decryptWithRawKey` throws when the tag check fails. */
  const RAW_TAG_MISMATCH: string :=
    "Decryption failed. Authentication tag mismatch indicates wrong key, tampered data, or replay attack."
  /** The text `decryptData` throws when the tag check fails; it does not mention replay. */
  const DATA_TAG_MISMATCH: string :=
    "Decryption failed. Authentication tag mismatch indicates wrong key or tampered data."

  /** `decryptData`: the key arrives base64-encoded and there is no associated data. */
  function DecryptData(o: Oracles, keyB64: string, blob: Bytes): Result<Bytes> {
    match o.b64Decode(keyB64)
    case None => Err("The string to be decoded is not correctly encoded.")
    case Some(key) =>
      if !AesKeyLength(|key|) then Err("Invalid key length")
      else match o.gcmOpen(key, JsSlice(blob, 0, IV_LENGTH), [], JsSlice(blob, IV_LENGTH, |blob|))
        case None => Err(DATA_TAG_MISMATCH)
        case Some(plain) => Ok(plain)
  }

  lemma RawRoundTrip(o: Oracles, key: Bytes, iv: Bytes, data: Bytes, ad: Bytes)
    requires GcmSound(o) && |iv| == IV_LENGTH
    requires EncryptRaw(o, key, iv, data, ad).Ok?
    ensures DecryptRaw(o, key, EncryptRaw(o, key, iv, data, ad).value, ad) == Ok(data)
  {
    var blob := EncryptRaw(o, key, iv, data, ad).value;
    assert JsSlice(blob, 0, IV_LENGTH) == iv;
    assert JsSlice(blob, IV_LENGTH, |blob|) == o.gcmSeal(key, iv, ad, data);
  }

  /** Decrypting what `encryptData` produced under the same key returns the plaintext. */
  lemma DataRoundTrip(o: Oracles, keyB64: string, iv: Bytes, data: Bytes)
    requires GcmSound(o) && |iv| == IV_LENGTH
    requires EncryptData(o, keyB64, iv, data).Ok?
    ensures DecryptData(o, keyB64, EncryptData(o, keyB64, iv, data).value) == Ok(data)
  {
    RawRoundTrip(o, o.b64Decode(keyB64).value, iv, data, []);
  }

  /**
   * `decryptData` and `decryptWithRawKey` agree except in the text of a failed
   * tag check: the same key, blob and empty associated data give the same
   * plaintext, and a tag mismatch is reported without the word "replay".
   */
  lemma DecryptDataVersusRaw(o: Oracles, keyB64: string, blob: Bytes)
    requires o.b64Decode(keyB64).Some?
    ensures DecryptData(o, keyB64, blob).Ok? <==> DecryptRaw(o, o.b64Decode(keyB64).value, blob, []).Ok?
    ensures DecryptData(o, keyB64, blob).Ok? ==>
      DecryptData(o, keyB64, blob) == DecryptRaw(o, o.b64Decode(keyB64).value, blob, [])
    ensures DecryptRaw(o, o.b64Decode(keyB64).value, blob, []) == Err(RAW_TAG_MISMATCH) <==>
      DecryptData(o, keyB64, blob) == Err(DATA_TAG_MISMATCH)
    ensures DATA_TAG_MISMATCH != RAW_TAG_MISMATCH
  {
    assert DATA_TAG_MISMATCH[66] != RAW_TAG_MISMATCH[66];
  }

  /** Encryption fails exactly when the key is not base64 of a 16-, 24- or 32-byte key. */
  lemma EncryptDataFails(o: Oracles, keyB64: string, iv: Bytes, data: Bytes)
    ensures EncryptData(o, keyB64, iv, data).Err? <==>
      (o.b64Decode(keyB64).None? || !AesKeyLength(|o.b64Decode(keyB64).value|))
    ensures EncryptData(o, keyB64, iv, data).Ok? ==>
      |EncryptData(o, keyB64, iv, data).value| == |iv| + |o.gcmSeal(o.b64Decode(keyB64).value, iv, [], data)|
  {
  }
}
