/**
 * The encoding side of the Unified Payload: the prepared payload
 * `[u16 length][metadata JSON][file bytes]`, the final Alpha/Omega keys, the
 * Omega-inside/Alpha-outside encryption layers with the optional block
 * permutation, the Entropic Veil over the real blob, the decoy blobs, and the
 * binary and JSON serialisations.  Every random value the encoder draws
 * (IVs, veil key, `secureRandom` words, decoy passwords) is an input.
 */
module Encoder {
  import opened Wrappers
  import opened Primitives
  import opened ByteUtil
  import opened Kdf
  import opened Prng

  const EV_KEY_SECRET_LENGTH: nat := 32
  const EV_KEY_COUNTER_LENGTH: nat := 16
  const EV_KEY_TOTAL_LENGTH: nat := 48
  const MAGIC_BYTE_BINARY_FORMAT: byte := 0xBD

  const NO_PAYLOAD: string := "No payload has been prepared for entanglement."
  const ALPHA_HARDEN_LABEL: string := "chimera-alpha-harden"
  const OMEGA_HARDEN_LABEL: string := "chimera-omega-harden"

  /** A file chosen for entanglement: its name, MIME type and contents. */
  datatype FileInfo = FileInfo(name: string, mime: string, bytes: Bytes)

  /** The operational Alpha, Omega and Decoy keys; "" means the key is not set. */
  datatype OpKeys = OpKeys(alpha: string, omega: string, decoy: string)

  /** The switches shared by encoder and decoder. */
  datatype Settings = Settings(hardening: bool, permutation: bool, pq: bool)

  datatype Deniability = Hardened | Standard | Minimal

  datatype PayloadFormat = Binary | Json

  /**
   * What `getRandomValues`, `generateSecureKey` and the encryption IVs supply
   * during one `handleEncrypt`: the Omega and Alpha IVs, the veil secret and
   * counter, the words consumed by the decoy-index and tar-pit `secureRandom`
   * calls, the IV of the Decoy-key decoy, the IVs and passwords of the other
   * decoys, and the words of the final `secureShuffle`.
   */
  datatype Randomness = Randomness(
    ivOmega: Bytes, ivAlpha: Bytes, evSecret: Bytes, evCounter: Bytes,
    pickDraws: seq<nat>, tarPitDraws: seq<nat>, keyedIv: Bytes,
    decoyIvs: seq<Bytes>, passwords: seq<string>, shuffleDraws: seq<seq<nat>>)

  // ------------------------------------------------------- preparation

  /** Deflated bytes are kept only when compression is on and they are strictly shorter. */
  function Compress(o: Oracles, bytes: Bytes, active: bool): (Bytes, bool) {
    if active && |o.deflate(bytes)| < |bytes| then (o.deflate(bytes), true) else (bytes, false)
  }

  /** The inverse of `Compress` as the decoder applies it: inflate exactly when flagged. */
  function Restore(o: Oracles, data: Bytes, compressed: bool): Option<Bytes> {
    if compressed then o.inflate(data) else Some(data)
  }

  lemma CompressionChoice(o: Oracles, bytes: Bytes, active: bool)
    requires DeflateSound(o)
    ensures Compress(o, bytes, active).1 <==> active && |o.deflate(bytes)| < |bytes|
    ensures |Compress(o, bytes, active).0| <= |bytes|
    ensures Restore(o, Compress(o, bytes, active).0, Compress(o, bytes, active).1) == Some(bytes)
  {
  }

  function MetadataBytes(o: Oracles, file: FileInfo, compressed: bool): Bytes {
    o.metaEncode(Metadata(file.name, file.mime, compressed))
  }

  /** The prepared payload: metadata length (mod 2^16), metadata, then the possibly deflated data. */
  function Prepared(o: Oracles, file: FileInfo, active: bool): Bytes {
    var (data, c) := Compress(o, file.bytes, active);
    U16BE(|MetadataBytes(o, file, c)|) + MetadataBytes(o, file, c) + data
  }

  /** `preparePayload`. */
  method PreparePayload(o: Oracles, file: FileInfo, compressionActive: bool) returns (payload: Bytes)
    ensures payload == Prepared(o, file, compressionActive)
  {
    var data := file.bytes;
    var wasCompressed := false;
    if compressionActive {
      var compressed := o.deflate(file.bytes);
      if |compressed| < |file.bytes| {
        data := compressed;
        wasCompressed := true;
      }
    }
    var metadata := o.metaEncode(Metadata(file.name, file.mime, wasCompressed));
    var len := |metadata|;
    var buf := new byte[2 + len + |data|];
    buf[0], buf[1] := ((len / 256) % 256) as byte, (len % 256) as byte;
    assert buf[..2] == U16BE(len);
    Blit(buf, 2, metadata);
    Blit(buf, 2 + len, data);
    assert buf[..] == buf[..2 + len + |data|];
    payload := buf[..];
  }

  /** The layout a reader of the prepared payload relies on. */
  lemma PreparedLayout(o: Oracles, file: FileInfo, active: bool)
    ensures var (data, c) := Compress(o, file.bytes, active);
      var meta := MetadataBytes(o, file, c);
      var p := Prepared(o, file, active);
      && |p| == 2 + |meta| + |data|
      && ReadU16BE(p, 0) == |meta| % 0x1_0000
      && p[2..2 + |meta|] == meta
      && p[2 + |meta|..] == data
  {
    var (data, c) := Compress(o, file.bytes, active);
    var meta := MetadataBytes(o, file, c);
    U16RoundTrip(|meta|);
    var p := Prepared(o, file, active);
    assert p[..2] == U16BE(|meta|);
    assert p[2..2 + |meta|] == meta;
  }

  // ---------------------------------------------------------- keys

  /** The HKDF config byte: bit 0 is block permutation, bit 1 the PQ hybrid. */
  function ConfigByte(s: Settings): (b: byte)
    ensures b < 4
    ensures b as int % 2 == 1 <==> s.permutation
    ensures (b as int / 2) % 2 == 1 <==> s.pq
  {
    (if s.permutation then 1 else 0) + (if s.pq then 2 else 0)
  }

  /**
   * The final key from an operational key: normalise, harden when hardening is
   * on and the key is set, then apply `hybrid` (the outcome of `getHybridKey`)
   * when PQ is on and the key is set.
   */
  function FinalKey(o: Oracles, opKey: string, purpose: string, s: Settings, hybrid: string -> string): Result<string> {
    var key := NormalizeKey(o, opKey);
    var hardened := if s.hardening && key != "" then HardenKey(o, key, purpose, ConfigByte(s)) else Ok(key);
    match hardened
    case Err(e) => Err(e)
    case Ok(k) => Ok(if s.pq && k != "" then hybrid(k) else k)
  }

  /** The key-derivation steps shared by `handleEncrypt` and `handleDecode`. */
  method DeriveFinalKey(o: Oracles, opKey: string, purpose: string, s: Settings, hybrid: string -> string)
    returns (r: Result<string>)
    requires HmacSound(o)
    ensures r == FinalKey(o, opKey, purpose, s, hybrid)
  {
    var key := NormalizeKey(o, opKey);
    if s.hardening && key != "" {
      var hardened := HardenKeyWithHkdf(o, key, purpose, ConfigByte(s));
      if hardened.Err? {
        return Err(hardened.msg);
      }
      key := hardened.value;
    }
    if s.pq && key != "" {
      key := hybrid(key);
    }
    r := Ok(key);
  }

  /** Derivation never fails; an unset key stays unset; a set key is a 32-byte AES key unless PQ replaces it. */
  lemma FinalKeyFacts(o: Oracles, opKey: string, purpose: string, s: Settings, hybrid: string -> string)
    requires HmacSound(o) && Base64Sound(o) && Argon2Sound(o) && Utf8Sound(o)
    ensures FinalKey(o, opKey, purpose, s, hybrid).Ok?
    ensures opKey == "" ==> FinalKey(o, opKey, purpose, s, hybrid).value == ""
    ensures opKey != "" && !s.pq ==>
      var k := FinalKey(o, opKey, purpose, s, hybrid).value;
      o.b64Decode(k).Some? && |o.b64Decode(k).value| == 32
  {
    NormalizeKeyFacts(o, opKey);
    var key := NormalizeKey(o, opKey);
    if opKey != "" {
      if s.hardening {
        HardenKeyIs32Bytes(o, key, purpose, ConfigByte(s));
      }
    }
  }

  // ------------------------------------------------------- layering

  /** Omega encrypts first (only when an Omega key is set), then Alpha, then the optional permutation. */
  function Layered(o: Oracles, payload: Bytes, alphaKey: string, omegaKey: string, omegaSet: bool,
                   permutation: bool, ivOmega: Bytes, ivAlpha: Bytes): Result<Bytes>
    requires CtrSound(o)
  {
    var inner := if omegaSet then EncryptData(o, omegaKey, ivOmega, payload) else Ok(payload);
    match inner
    case Err(e) => Err(e)
    case Ok(p) =>
      match EncryptData(o, alphaKey, ivAlpha, p)
      case Err(e) => Err(e)
      case Ok(c) => if permutation then ApplyPermutation(o, c, alphaKey) else Ok(c)
  }

  method LayerPayload(o: Oracles, payload: Bytes, alphaKey: string, omegaKey: string, omegaSet: bool,
                      permutation: bool, ivOmega: Bytes, ivAlpha: Bytes) returns (r: Result<Bytes>)
    requires HmacSound(o) && CtrSound(o)
    ensures r == Layered(o, payload, alphaKey, omegaKey, omegaSet, permutation, ivOmega, ivAlpha)
  {
    var finalPayload := payload;
    if omegaSet {
      var inner := EncryptData(o, omegaKey, ivOmega, finalPayload);
      if inner.Err? {
        return Err(inner.msg);
      }
      finalPayload := inner.value;
    }
    var outer := EncryptData(o, alphaKey, ivAlpha, finalPayload);
    if outer.Err? {
      return Err(outer.msg);
    }
    r := Ok(outer.value);
    if permutation {
      r := ApplyBlockPermutation(o, outer.value, alphaKey);
    }
  }

  // ---------------------------------------------------------- veil

  /** XOR with the AES-CTR keystream of the veil secret and counter, as long as the data. */
  function Veil(o: Oracles, secret: Bytes, counter: Bytes, data: Bytes): Bytes {
    Xor(data, o.aesCtr(secret, counter, |data|))
  }

  /** Veiling is its own inverse. */
  lemma VeilTwice(o: Oracles, secret: Bytes, counter: Bytes, data: Bytes)
    requires CtrSound(o)
    ensures |Veil(o, secret, counter, data)| == |data|
    ensures Veil(o, secret, counter, Veil(o, secret, counter, data)) == data
  {
    XorTwice(data, o.aesCtr(secret, counter, |data|));
  }

  /** The real blob: final keys, layers, then the veil. */
  function RealBlob(o: Oracles, payload: Bytes, keys: OpKeys, s: Settings, hybrid: string -> string,
                    rnd: Randomness): Result<Bytes>
    requires CtrSound(o)
  {
    match FinalKey(o, keys.alpha, ALPHA_HARDEN_LABEL, s, hybrid)
    case Err(e) => Err(e)
    case Ok(alpha) =>
      match FinalKey(o, keys.omega, OMEGA_HARDEN_LABEL, s, hybrid)
      case Err(e) => Err(e)
      case Ok(omega) =>
        match Layered(o, payload, alpha, omega, keys.omega != "", s.permutation, rnd.ivOmega, rnd.ivAlpha)
        case Err(e) => Err(e)
        case Ok(c) => Ok(Veil(o, rnd.evSecret, rnd.evCounter, c))
  }

  // --------------------------------------------------------- decoys

  function DecoyCount(level: Deniability): nat {
    match level
    case Hardened => 3
    case Standard => 1
    case Minimal => 0
  }

  const STATIC_DECOY_TEXTS: seq<string> := [
    "The meeting is scheduled for 3 PM in conference room B. Please come prepared to discuss the quarterly budget review. A copy of the preliminary report has been emailed to all attendees.",
    "Reminder: System maintenance is scheduled for Saturday from 1 AM to 3 AM. Services may be intermittently unavailable during this window.",
    "Final draft of the proposal is attached. Please review for any errors or omissions before the EOD deadline.",
    "Note to self: research flights to Denver for the conference in July. Check hotel availability near the convention center.",
    "The sensor data indicates a nominal temperature fluctuation of 0.5 degrees over the last hour, which is within expected operational parameters."
  ]

  /** The static decoy texts: a shuffled copy of the fixed list, cut to the decoy count. */
  method StaticDecoyTexts(level: Deniability, draws: seq<seq<nat>>) returns (texts: seq<string>)
    requires |draws| >= |STATIC_DECOY_TEXTS|
    requires forall i | 1 <= i < |STATIC_DECOY_TEXTS| :: Accepts(draws[i], i + 1)
    ensures |texts| == DecoyCount(level)
    ensures multiset(texts) <= multiset(STATIC_DECOY_TEXTS)
  {
    var shuffled := SecureShuffle(STATIC_DECOY_TEXTS, draws);
    texts := shuffled[..DecoyCount(level)];
    assert shuffled == texts + shuffled[DecoyCount(level)..];
  }

  /** The Decoy-key decoy is made only when a Decoy key is set and there is a text to use. */
  predicate Keyed(decoyKey: string, plains: seq<Bytes>) {
    decoyKey != "" && |plains| > 0
  }

  /** The decoy texts left after the Decoy-key decoy's text is spliced out. */
  function Rest(decoyKey: string, plains: seq<Bytes>, pick: nat): seq<Bytes>
    requires Keyed(decoyKey, plains) ==> pick < |plains|
  {
    if Keyed(decoyKey, plains) then plains[..pick] + plains[pick + 1..] else plains
  }

  /** The key of an ordinary decoy: a random password through Argon2, high cost for the tar pit. */
  function RandomDecoyKey(o: Oracles, password: string, tarPit: bool): (k: string)
    requires Base64Sound(o) && Argon2Sound(o)
    ensures o.b64Decode(k).Some? && |o.b64Decode(k).value| == 32
  {
    o.b64Encode(if tarPit then HighCostKey(o, password) else StandardCostKey(o, password))
  }

  /** Sealing under a key that decodes to 32 bytes always succeeds. */
  function Seal(o: Oracles, keyB64: string, iv: Bytes, plain: Bytes): (c: Bytes)
    requires o.b64Decode(keyB64).Some? && |o.b64Decode(keyB64).value| == 32
    ensures EncryptData(o, keyB64, iv, plain) == Ok(c)
  {
    iv + o.gcmSeal(o.b64Decode(keyB64).value, iv, [], plain)
  }

  /** The ordinary decoys, in order, one per remaining text. */
  function RandomDecoys(o: Oracles, rest: seq<Bytes>, tarPit: int, ivs: seq<Bytes>, passwords: seq<string>): seq<Bytes>
    requires Base64Sound(o) && Argon2Sound(o)
    requires |ivs| >= |rest| && |passwords| >= |rest|
  {
    seq(|rest|, i requires 0 <= i < |rest| =>
      Seal(o, RandomDecoyKey(o, passwords[i], i == tarPit), ivs[i], rest[i]))
  }

  /** The decoy blobs: the Decoy-key decoy first, when there is one, then the ordinary decoys. */
  function Decoys(o: Oracles, decoyKey: string, plains: seq<Bytes>, pick: nat, tarPit: int, rnd: Randomness): seq<Bytes>
    requires Base64Sound(o) && Argon2Sound(o)
    requires Keyed(decoyKey, plains) ==> pick < |plains|
    requires |rnd.decoyIvs| >= |Rest(decoyKey, plains, pick)| && |rnd.passwords| >= |Rest(decoyKey, plains, pick)|
  {
    NormalizeKeyFacts(o, decoyKey);
    (if Keyed(decoyKey, plains) then [Seal(o, NormalizeKey(o, decoyKey), rnd.keyedIv, plains[pick])] else [])
    + RandomDecoys(o, Rest(decoyKey, plains, pick), tarPit, rnd.decoyIvs, rnd.passwords)
  }

  /** The randomness `handleEncrypt` consumes is enough for every `secureRandom` loop to stop. */
  ghost predicate DecoyDrawsSuffice(level: Deniability, decoyKey: string, n: nat, rnd: Randomness) {
    var keyed := decoyKey != "" && n > 0;
    var restCount := if keyed then n - 1 else n;
    && (DecoyCount(level) > 0 && keyed ==> Accepts(rnd.pickDraws, n))
    && (DecoyCount(level) > 0 && level == Hardened && restCount > 0 ==> Accepts(rnd.tarPitDraws, restCount))
    && |rnd.decoyIvs| >= restCount && |rnd.passwords| >= restCount
  }

  function Encoded(o: Oracles, texts: seq<string>): seq<Bytes> {
    seq(|texts|, i requires 0 <= i < |texts| => o.utf8Encode(texts[i]))
  }

  /**
   * `decoys` is what the decoy step makes of `texts` at this level, for some
   * draw of the Decoy-key decoy's text and of the tar pit.
   */
  ghost predicate DecoysOf(o: Oracles, level: Deniability, decoyKey: string, texts: seq<string>, rnd: Randomness,
                           decoys: seq<Bytes>)
    requires Base64Sound(o) && Argon2Sound(o)
  {
    var plains := Encoded(o, texts);
    if DecoyCount(level) == 0 then decoys == []
    else exists pick: nat, tarPit: int ::
      && (Keyed(decoyKey, plains) ==> pick < |plains|)
      && |rnd.decoyIvs| >= |Rest(decoyKey, plains, pick)| && |rnd.passwords| >= |Rest(decoyKey, plains, pick)|
      && decoys == Decoys(o, decoyKey, plains, pick, tarPit, rnd)
  }

  /**
   * The decoy part of `handleEncrypt`: `pick` is the `secureRandom` index of
   * the Decoy-key text, `tarPit` that of the high-cost decoy (-1 for none).
   */
  method BuildDecoys(o: Oracles, level: Deniability, decoyKey: string, texts: seq<string>, rnd: Randomness)
    returns (decoys: seq<Bytes>, pick: nat, tarPit: int)
    requires Base64Sound(o) && Argon2Sound(o)
    requires DecoyDrawsSuffice(level, decoyKey, |texts|, rnd)
    ensures DecoyCount(level) == 0 ==> decoys == [] && tarPit == -1
    ensures DecoyCount(level) > 0 ==>
      var plains := Encoded(o, texts);
      && (Keyed(decoyKey, plains) ==> pick < |plains|)
      && (tarPit != -1 <==> level == Hardened && |Rest(decoyKey, plains, pick)| > 0)
      && (tarPit != -1 ==> 0 <= tarPit < |Rest(decoyKey, plains, pick)|)
      && decoys == Decoys(o, decoyKey, plains, pick, tarPit, rnd)
  {
    decoys, pick, tarPit := [], 0, -1;
    if DecoyCount(level) == 0 {
      return;
    }
    var plains := Encoded(o, texts);
    ghost var all := plains;
    var head: seq<Bytes> := [];
    if decoyKey != "" && |plains| > 0 {
      var finalDecoyKey := NormalizeKey(o, decoyKey);
      NormalizeKeyFacts(o, decoyKey);
      var used;
      pick, used := SecureRandom(|plains|, rnd.pickDraws);
      var sealed := EncryptData(o, finalDecoyKey, rnd.keyedIv, plains[pick]);
      head := [sealed.value];
      plains := plains[..pick] + plains[pick + 1..];
    }
    assert plains == Rest(decoyKey, all, pick);
    if level == Hardened && |plains| > 0 {
      var used;
      tarPit, used := SecureRandom(|plains|, rnd.tarPitDraws);
    }
    var others := SealRandomDecoys(o, plains, tarPit, rnd);
    decoys := head + others;
  }

  /** The loop that seals each remaining text under a fresh random key. */
  method SealRandomDecoys(o: Oracles, plains: seq<Bytes>, tarPit: int, rnd: Randomness) returns (decoys: seq<Bytes>)
    requires Base64Sound(o) && Argon2Sound(o)
    requires |rnd.decoyIvs| >= |plains| && |rnd.passwords| >= |plains|
    ensures decoys == RandomDecoys(o, plains, tarPit, rnd.decoyIvs, rnd.passwords)
  {
    decoys := [];
    for i := 0 to |plains|
      invariant decoys == RandomDecoys(o, plains, tarPit, rnd.decoyIvs, rnd.passwords)[..i]
    {
      var password := rnd.passwords[i];
      var keyBytes := if i == tarPit then HighCostKey(o, password) else StandardCostKey(o, password);
      var decoyKeyB64 := o.b64Encode(keyBytes);
      assert decoyKeyB64 == RandomDecoyKey(o, password, i == tarPit);
      var sealed := EncryptData(o, decoyKeyB64, rnd.decoyIvs[i], plains[i]);
      decoys := decoys + [sealed.value];
    }
  }

  /** Every ordinary decoy opens under its own random key to its text. */
  lemma RandomDecoysOpen(o: Oracles, rest: seq<Bytes>, tarPit: int, ivs: seq<Bytes>, passwords: seq<string>)
    requires Base64Sound(o) && Argon2Sound(o) && GcmSound(o)
    requires |ivs| >= |rest| && |passwords| >= |rest|
    requires forall i | 0 <= i < |ivs| :: |ivs[i]| == IV_LENGTH
    ensures forall i | 0 <= i < |rest| ::
      DecryptData(o, RandomDecoyKey(o, passwords[i], i == tarPit), RandomDecoys(o, rest, tarPit, ivs, passwords)[i]) == Ok(rest[i])
  {
    forall i | 0 <= i < |rest|
      ensures DecryptData(o, RandomDecoyKey(o, passwords[i], i == tarPit), RandomDecoys(o, rest, tarPit, ivs, passwords)[i]) == Ok(rest[i])
    {
      DataRoundTrip(o, RandomDecoyKey(o, passwords[i], i == tarPit), ivs[i], rest[i]);
    }
  }

  /**
   * What the decoy blobs hold: one per text; the Decoy-key decoy opens under
   * the normalised (never hardened) Decoy key to the picked text; every other
   * decoy opens under its own random key to the remaining texts in order; the
   * picked text and the remaining ones are exactly the input texts.
   */
  lemma DecoyContents(o: Oracles, decoyKey: string, plains: seq<Bytes>, pick: nat, tarPit: int, rnd: Randomness)
    requires Base64Sound(o) && Argon2Sound(o) && GcmSound(o)
    requires Keyed(decoyKey, plains) ==> pick < |plains|
    requires |rnd.decoyIvs| >= |Rest(decoyKey, plains, pick)| && |rnd.passwords| >= |Rest(decoyKey, plains, pick)|
    requires |rnd.keyedIv| == IV_LENGTH && forall i | 0 <= i < |rnd.decoyIvs| :: |rnd.decoyIvs[i]| == IV_LENGTH
    ensures var d := Decoys(o, decoyKey, plains, pick, tarPit, rnd);
      var rest := Rest(decoyKey, plains, pick);
      var k := if Keyed(decoyKey, plains) then 1 else 0;
      && |d| == |plains|
      && (Keyed(decoyKey, plains) ==>
            DecryptData(o, NormalizeKey(o, decoyKey), d[0]) == Ok(plains[pick])
            && multiset(rest) + multiset{plains[pick]} == multiset(plains))
      && (forall i | 0 <= i < |rest| ::
            DecryptData(o, RandomDecoyKey(o, rnd.passwords[i], i == tarPit), d[k + i]) == Ok(rest[i]))
  {
    DecoyKeyedOpens(o, decoyKey, plains, pick, tarPit, rnd);
    DecoyOrdinaryOpen(o, decoyKey, plains, pick, tarPit, rnd);
    DecoyContentsCount(o, decoyKey, plains, pick, tarPit, rnd);
    if Keyed(decoyKey, plains) {
      SplicedOut(plains, pick);
    }
  }

  /** The Decoy-key decoy, when there is one, comes first and opens under the normalised Decoy key to the picked text. */
  lemma DecoyKeyedOpens(o: Oracles, decoyKey: string, plains: seq<Bytes>, pick: nat, tarPit: int, rnd: Randomness)
    requires Base64Sound(o) && Argon2Sound(o) && GcmSound(o)
    requires Keyed(decoyKey, plains) ==> pick < |plains|
    requires |rnd.decoyIvs| >= |Rest(decoyKey, plains, pick)| && |rnd.passwords| >= |Rest(decoyKey, plains, pick)|
    requires |rnd.keyedIv| == IV_LENGTH
    ensures Keyed(decoyKey, plains) ==>
      var d := Decoys(o, decoyKey, plains, pick, tarPit, rnd);
      |d| > 0 && DecryptData(o, NormalizeKey(o, decoyKey), d[0]) == Ok(plains[pick])
  {
    if Keyed(decoyKey, plains) {
      NormalizeKeyFacts(o, decoyKey);
      var first := Seal(o, NormalizeKey(o, decoyKey), rnd.keyedIv, plains[pick]);
      assert Decoys(o, decoyKey, plains, pick, tarPit, rnd)[0] == first;
      DataRoundTrip(o, NormalizeKey(o, decoyKey), rnd.keyedIv, plains[pick]);
    }
  }

  /** The ordinary decoys follow, each opening under its own random key to the remaining texts in order. */
  lemma DecoyOrdinaryOpen(o: Oracles, decoyKey: string, plains: seq<Bytes>, pick: nat, tarPit: int, rnd: Randomness)
    requires Base64Sound(o) && Argon2Sound(o) && GcmSound(o)
    requires Keyed(decoyKey, plains) ==> pick < |plains|
    requires |rnd.decoyIvs| >= |Rest(decoyKey, plains, pick)| && |rnd.passwords| >= |Rest(decoyKey, plains, pick)|
    requires forall i | 0 <= i < |rnd.decoyIvs| :: |rnd.decoyIvs[i]| == IV_LENGTH
    ensures
      var d := Decoys(o, decoyKey, plains, pick, tarPit, rnd);
      var rest := Rest(decoyKey, plains, pick);
      var k := if Keyed(decoyKey, plains) then 1 else 0;
      && |d| == k + |rest|
      && forall i | 0 <= i < |rest| ::
           DecryptData(o, RandomDecoyKey(o, rnd.passwords[i], i == tarPit), d[k + i]) == Ok(rest[i])
  {
    var rest := Rest(decoyKey, plains, pick);
    var others := RandomDecoys(o, rest, tarPit, rnd.decoyIvs, rnd.passwords);
    var d := Decoys(o, decoyKey, plains, pick, tarPit, rnd);
    var k := if Keyed(decoyKey, plains) then 1 else 0;
    DecoysAfterFirst(o, decoyKey, plains, pick, tarPit, rnd);
    RandomDecoysOpen(o, rest, tarPit, rnd.decoyIvs, rnd.passwords);
  }

  /** After the Decoy-key decoy, if any, come the ordinary decoys. */
  lemma DecoysAfterFirst(o: Oracles, decoyKey: string, plains: seq<Bytes>, pick: nat, tarPit: int, rnd: Randomness)
    requires Base64Sound(o) && Argon2Sound(o)
    requires Keyed(decoyKey, plains) ==> pick < |plains|
    requires |rnd.decoyIvs| >= |Rest(decoyKey, plains, pick)| && |rnd.passwords| >= |Rest(decoyKey, plains, pick)|
    ensures
      var d := Decoys(o, decoyKey, plains, pick, tarPit, rnd);
      var others := RandomDecoys(o, Rest(decoyKey, plains, pick), tarPit, rnd.decoyIvs, rnd.passwords);
      var k := if Keyed(decoyKey, plains) then 1 else 0;
      |d| == k + |others| && forall i | 0 <= i < |others| :: d[k + i] == others[i]
  {
  }

  /** Splicing one element out leaves the others: together they are the whole multiset. */
  lemma SplicedOut(plains: seq<Bytes>, pick: nat)
    requires pick < |plains|
    ensures multiset(plains[..pick] + plains[pick + 1..]) + multiset{plains[pick]} == multiset(plains)
  {
    assert plains == plains[..pick] + [plains[pick]] + plains[pick + 1..];
  }

  // -------------------------------------------------- serialisation

  /** The concatenation of a list of byte strings. */
  function Flatten(parts: seq<Bytes>): Bytes {
    if |parts| == 0 then [] else parts[0] + Flatten(parts[1..])
  }

  lemma {:induction false} FlattenSnoc(parts: seq<Bytes>, p: Bytes)
    ensures Flatten(parts + [p]) == Flatten(parts) + p
  {
    if |parts| == 0 {
      assert parts + [p] == [p];
    } else {
      assert (parts + [p])[1..] == parts[1..] + [p];
      FlattenSnoc(parts[1..], p);
    }
  }

  /** The big-endian u32 length of each blob. */
  function SizeTable(blobs: seq<Bytes>): seq<Bytes> {
    seq(|blobs|, i requires 0 <= i < |blobs| => U32BE(|blobs[i]|))
  }

  /** The binary Unified Payload: magic, veil key, count byte, size table, blobs. */
  function BinaryPayload(ev: Bytes, blobs: seq<Bytes>): Bytes {
    [MAGIC_BYTE_BINARY_FORMAT] + ev + [(|blobs| % 256) as byte] + Flatten(SizeTable(blobs)) + Flatten(blobs)
  }

  lemma {:induction false} SizeTableLength(blobs: seq<Bytes>)
    ensures |Flatten(SizeTable(blobs))| == 4 * |blobs|
  {
    if |blobs| > 0 {
      assert SizeTable(blobs)[1..] == SizeTable(blobs[1..]);
      SizeTableLength(blobs[1..]);
    }
  }

  /** The binary form's total size. */
  lemma BinaryPayloadSize(ev: Bytes, blobs: seq<Bytes>)
    ensures |BinaryPayload(ev, blobs)| == 1 + |ev| + 1 + 4 * |blobs| + |Flatten(blobs)|
  {
    SizeTableLength(blobs);
  }

  /** The binary branch of `handleEncrypt`, writing through an advancing offset. */
  method SerializeBinary(ev: Bytes, blobs: seq<Bytes>) returns (out: Bytes)
    requires |ev| == EV_KEY_TOTAL_LENGTH
    ensures out == BinaryPayload(ev, blobs)
  {
    var totalBlobsSize := TotalSize(blobs);
    SizeTableLength(blobs);
    var totalSize := 1 + EV_KEY_TOTAL_LENGTH + 1 + |blobs| * 4 + totalBlobsSize;
    var buf := new byte[totalSize];
    WriteHeader(buf, ev, |blobs|);
    var offset := 1 + EV_KEY_TOTAL_LENGTH + 1;
    WriteSizes(buf, offset, blobs);
    offset := offset + 4 * |blobs|;
    WriteBlobs(buf, offset, blobs);
    offset := offset + totalBlobsSize;
    assert buf[..] == buf[..offset];
    out := buf[..];
  }

  /** `blobs.reduce((sum, b) => sum + b.length, 0)`. */
  method TotalSize(blobs: seq<Bytes>) returns (total: nat)
    ensures total == |Flatten(blobs)|
  {
    total := 0;
    for i := 0 to |blobs|
      invariant total == |Flatten(blobs[..i])|
    {
      assert blobs[..i + 1] == blobs[..i] + [blobs[i]];
      FlattenSnoc(blobs[..i], blobs[i]);
      total := total + |blobs[i]|;
    }
    assert blobs[..|blobs|] == blobs;
  }

  /** The magic byte, the veil key and the count byte at the front of the buffer. */
  method WriteHeader(buf: array<byte>, ev: Bytes, count: nat)
    requires |ev| == EV_KEY_TOTAL_LENGTH && 1 + EV_KEY_TOTAL_LENGTH + 1 <= buf.Length
    modifies buf
    ensures buf[..1 + EV_KEY_TOTAL_LENGTH + 1] == [MAGIC_BYTE_BINARY_FORMAT] + ev + [(count % 256) as byte]
  {
    buf[0] := MAGIC_BYTE_BINARY_FORMAT;
    Blit(buf, 1, ev);
    buf[1 + EV_KEY_TOTAL_LENGTH] := (count % 256) as byte;
    assert buf[..1 + EV_KEY_TOTAL_LENGTH + 1] == [MAGIC_BYTE_BINARY_FORMAT] + ev + [(count % 256) as byte];
  }

  /** The size-table loop: one `setUint32` per blob. */
  method WriteSizes(buf: array<byte>, offset: nat, blobs: seq<Bytes>)
    modifies buf
    requires offset + 4 * |blobs| <= buf.Length
    ensures buf[..offset + 4 * |blobs|] == old(buf[..offset]) + Flatten(SizeTable(blobs))
  {
    ghost var before := buf[..offset];
    ghost var table := SizeTable(blobs);
    var at := offset;
    for i := 0 to |blobs|
      invariant at == offset + 4 * i
      invariant buf[..at] == before + Flatten(table[..i])
    {
      assert table[..i + 1] == table[..i] + [table[i]];
      FlattenSnoc(table[..i], table[i]);
      Blit(buf, at, U32BE(|blobs[i]|));
      at := at + 4;
    }
    assert table[..|blobs|] == table;
  }

  /** The blob loop: each blob copied after the previous one. */
  method WriteBlobs(buf: array<byte>, offset: nat, blobs: seq<Bytes>)
    modifies buf
    requires offset + |Flatten(blobs)| <= buf.Length
    ensures buf[..offset + |Flatten(blobs)|] == old(buf[..offset]) + Flatten(blobs)
  {
    ghost var before := buf[..offset];
    var at := offset;
    for i := 0 to |blobs|
      invariant at == offset + |Flatten(blobs[..i])|
      invariant at <= offset + |Flatten(blobs)|
      invariant buf[..at] == before + Flatten(blobs[..i])
    {
      assert blobs[..i + 1] == blobs[..i] + [blobs[i]];
      FlattenSnoc(blobs[..i], blobs[i]);
      FlattenPrefix(blobs, i + 1);
      Blit(buf, at, blobs[i]);
      at := at + |blobs[i]|;
    }
    assert blobs[..|blobs|] == blobs;
  }

  lemma {:induction false} FlattenPrefix(parts: seq<Bytes>, n: nat)
    requires n <= |parts|
    ensures |Flatten(parts[..n])| <= |Flatten(parts)|
  {
    if n > 0 {
      assert parts[..n][1..] == parts[1..][..n - 1];
      FlattenPrefix(parts[1..], n - 1);
    }
  }

  /** `Array.prototype.join('|')`. */
  function Join(parts: seq<string>): string {
    if |parts| == 0 then ""
    else if |parts| == 1 then parts[0]
    else parts[0] + "|" + Join(parts[1..])
  }

  function Base64All(o: Oracles, blobs: seq<Bytes>): seq<string> {
    seq(|blobs|, i requires 0 <= i < |blobs| => o.b64Encode(blobs[i]))
  }

  /** The JSON form `{q, d}`: the base64 veil key and the base64 blobs joined by '|'. */
  function JsonPayload(o: Oracles, ev: Bytes, blobs: seq<Bytes>): Bytes {
    o.legacyEncode(o.b64Encode(ev), Join(Base64All(o, blobs)))
  }

  function Serialized(o: Oracles, format: PayloadFormat, ev: Bytes, blobs: seq<Bytes>): Bytes {
    match format
    case Binary => BinaryPayload(ev, blobs)
    case Json => JsonPayload(o, ev, blobs)
  }

  // ---------------------------------------------------- handleEncrypt

  /** Enough randomness for every `secureRandom` and `secureShuffle` loop of one encryption. */
  ghost predicate DrawsSuffice(level: Deniability, decoyKey: string, texts: seq<string>, rnd: Randomness) {
    var blobCount := 1 + if DecoyCount(level) > 0 then |texts| else 0;
    && DecoyDrawsSuffice(level, decoyKey, |texts|, rnd)
    && |rnd.shuffleDraws| >= blobCount
    && (forall i | 1 <= i < blobCount :: Accepts(rnd.shuffleDraws[i], i + 1))
  }

  /**
   * `handleEncrypt` on a prepared payload, returning the bytes written to the
   * output file, the shuffled blobs and the decoy blobs.  The real blob is
   * the only veiled one; the decoys enter the shuffle as sealed.
   */
  method HandleEncrypt(o: Oracles, prepared: Option<Bytes>, keys: OpKeys, s: Settings, level: Deniability,
                       format: PayloadFormat, hybrid: string -> string, texts: seq<string>, rnd: Randomness)
    returns (r: Result<Bytes>, blobs: seq<Bytes>, decoys: seq<Bytes>)
    requires HmacSound(o) && CtrSound(o) && Base64Sound(o) && Argon2Sound(o)
    requires |rnd.evSecret| == EV_KEY_SECRET_LENGTH && |rnd.evCounter| == EV_KEY_COUNTER_LENGTH
    requires DrawsSuffice(level, keys.decoy, texts, rnd)
    ensures prepared.None? ==> r == Err(NO_PAYLOAD)
    ensures prepared.Some? ==> (r.Ok? <==> RealBlob(o, prepared.value, keys, s, hybrid, rnd).Ok?)
    ensures r.Ok? ==>
      && |decoys| == (if DecoyCount(level) > 0 then |texts| else 0)
      && DecoysOf(o, level, keys.decoy, texts, rnd, decoys)
      && multiset(blobs) == multiset([RealBlob(o, prepared.value, keys, s, hybrid, rnd).value] + decoys)
      && r.value == Serialized(o, format, rnd.evSecret + rnd.evCounter, blobs)
  {
    blobs, decoys := [], [];
    if prepared.None? {
      return Err(NO_PAYLOAD), blobs, decoys;
    }
    var sealed := SealReal(o, prepared.value, keys, s, hybrid, rnd);
    if sealed.Err? {
      return Err(sealed.msg), blobs, decoys;
    }
    var out;
    out, blobs, decoys := Package(o, sealed.value, level, keys.decoy, format, texts, rnd);
    r := Ok(out);
  }

  /** The real blob: both final keys, the layers, then the veil. */
  method SealReal(o: Oracles, payload: Bytes, keys: OpKeys, s: Settings, hybrid: string -> string, rnd: Randomness)
    returns (r: Result<Bytes>)
    requires HmacSound(o) && CtrSound(o)
    ensures r == RealBlob(o, payload, keys, s, hybrid, rnd)
  {
    var alphaKey := DeriveFinalKey(o, keys.alpha, ALPHA_HARDEN_LABEL, s, hybrid);
    if alphaKey.Err? {
      return Err(alphaKey.msg);
    }
    var omegaKey := DeriveFinalKey(o, keys.omega, OMEGA_HARDEN_LABEL, s, hybrid);
    if omegaKey.Err? {
      return Err(omegaKey.msg);
    }
    var layered := LayerPayload(o, payload, alphaKey.value, omegaKey.value, keys.omega != "",
                                s.permutation, rnd.ivOmega, rnd.ivAlpha);
    if layered.Err? {
      return Err(layered.msg);
    }
    var keyStream := o.aesCtr(rnd.evSecret, rnd.evCounter, |layered.value|);
    var xorred := XorBytes(layered.value, keyStream);
    r := Ok(xorred);
  }

  /** The decoys, the shuffle of the real blob among them, and the serialized file. */
  method Package(o: Oracles, sealed: Bytes, level: Deniability, decoyKey: string, format: PayloadFormat,
                 texts: seq<string>, rnd: Randomness)
    returns (out: Bytes, blobs: seq<Bytes>, decoys: seq<Bytes>)
    requires Base64Sound(o) && Argon2Sound(o)
    requires |rnd.evSecret| == EV_KEY_SECRET_LENGTH && |rnd.evCounter| == EV_KEY_COUNTER_LENGTH
    requires DrawsSuffice(level, decoyKey, texts, rnd)
    ensures |decoys| == (if DecoyCount(level) > 0 then |texts| else 0)
    ensures DecoysOf(o, level, decoyKey, texts, rnd, decoys)
    ensures multiset(blobs) == multiset([sealed] + decoys)
    ensures out == Serialized(o, format, rnd.evSecret + rnd.evCounter, blobs)
  {
    var combinedEvKey := rnd.evSecret + rnd.evCounter;
    var pick, tarPit;
    decoys, pick, tarPit := BuildDecoys(o, level, decoyKey, texts, rnd);
    if DecoyCount(level) > 0 {
      DecoyContentsCount(o, decoyKey, Encoded(o, texts), pick, tarPit, rnd);
      assert DecoysOf(o, level, decoyKey, texts, rnd, decoys);
    }
    blobs := SecureShuffle([sealed] + decoys, rnd.shuffleDraws);
    if format == Binary {
      out := SerializeBinary(combinedEvKey, blobs);
    } else {
      out := JsonPayload(o, combinedEvKey, blobs);
    }
  }

  lemma DecoyContentsCount(o: Oracles, decoyKey: string, plains: seq<Bytes>, pick: nat, tarPit: int, rnd: Randomness)
    requires Base64Sound(o) && Argon2Sound(o)
    requires Keyed(decoyKey, plains) ==> pick < |plains|
    requires |rnd.decoyIvs| >= |Rest(decoyKey, plains, pick)| && |rnd.passwords| >= |Rest(decoyKey, plains, pick)|
    ensures |Decoys(o, decoyKey, plains, pick, tarPit, rnd)| == |plains|
  {
  }
}
