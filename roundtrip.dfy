/**
 * End-to-end properties of the two covert pipelines: what the encoder builds,
 * the decoder takes apart again.  The Unified Payload pipeline goes through
 * `preparePayload`, the layering, the veil and serialisation, and back through
 * parsing and classification; the ARK pipeline goes through encryption under
 * the ARK key and image embedding, and back.  Also the behaviour of the decoy
 * blobs, which the encoder never veils and the decoder always de-veils.
 */
module RoundTrip {
  import opened Wrappers
  import opened Primitives
  import opened ByteUtil
  import opened Kdf
  import opened Prng
  import opened Encoder
  import opened Decoder
  import TextStego
  import ImageStego

  // ------------------------------------------------------------ layers

  /** Undoing Alpha's permutation, Alpha, then Omega gives back what was layered. */
  lemma LayerRoundTrip(o: Oracles, payload: Bytes, alpha: string, omega: string, omegaSet: bool,
                       permutation: bool, ivOmega: Bytes, ivAlpha: Bytes, decoy: string)
    requires GcmSound(o) && CtrSound(o)
    requires |ivOmega| == IV_LENGTH && |ivAlpha| == IV_LENGTH
    requires Layered(o, payload, alpha, omega, omegaSet, permutation, ivOmega, ivAlpha).Ok?
    ensures Unlayered(o, Layered(o, payload, alpha, omega, omegaSet, permutation, ivOmega, ivAlpha).value,
                      BlobKeys(alpha, omega, omegaSet, decoy), permutation) == Ok(payload)
  {
    var inner := if omegaSet then EncryptData(o, omega, ivOmega, payload) else Ok(payload);
    var p := inner.value;
    if omegaSet {
      DataRoundTrip(o, omega, ivOmega, payload);
    }
    var c := EncryptData(o, alpha, ivAlpha, p).value;
    DataRoundTrip(o, alpha, ivAlpha, p);
    if permutation {
      PermutationRoundTrip(o, c, alpha);
    }
  }

  /**
   * The real blob classifies as REAL under the decoder's keys and veil, showing
   * what its payload's metadata names.  The PQ hybrid key draws a fresh secret on
   * each side, so only the classical configuration is claimed.
   */
  lemma RealBlobClassifies(o: Oracles, payload: Bytes, keys: OpKeys, s: Settings, hybrid: string -> string,
                           rnd: Randomness)
    requires GcmSound(o) && CtrSound(o)
    requires !s.pq
    requires |rnd.ivOmega| == IV_LENGTH && |rnd.ivAlpha| == IV_LENGTH
    requires RealBlob(o, payload, keys, s, hybrid, rnd).Ok?
    requires ParseMetadata(o, payload).Ok?
    ensures BlobKeysOf(o, keys, s, hybrid).Ok?
    ensures Classify(o, RealBlob(o, payload, keys, s, hybrid, rnd).value, rnd.evSecret, rnd.evCounter,
                     BlobKeysOf(o, keys, s, hybrid).value, s.permutation)
            == RealPayload(ParseMetadata(o, payload).value)
  {
    var alpha := FinalKey(o, keys.alpha, ALPHA_HARDEN_LABEL, s, hybrid).value;
    var omega := FinalKey(o, keys.omega, OMEGA_HARDEN_LABEL, s, hybrid).value;
    var c := Layered(o, payload, alpha, omega, keys.omega != "", s.permutation, rnd.ivOmega, rnd.ivAlpha).value;
    assert BlobKeysOf(o, keys, s, hybrid) == Ok(BlobKeys(alpha, omega, keys.omega != "", keys.decoy));
    VeilTwice(o, rnd.evSecret, rnd.evCounter, c);
    LayerRoundTrip(o, payload, alpha, omega, keys.omega != "", s.permutation, rnd.ivOmega, rnd.ivAlpha, keys.decoy);
  }

  // ------------------------------------------------------ serialisation

  /** Either serialisation parses back into the veil key and the blobs. */
  lemma SerializedParses(o: Oracles, format: PayloadFormat, ev: Bytes, blobs: seq<Bytes>)
    requires Base64Sound(o) && JsonSound(o)
    requires |ev| == EV_KEY_TOTAL_LENGTH && 1 <= |blobs| <= 255
    requires forall i | 0 <= i < |blobs| :: |blobs[i]| < TWO_POW_32
    requires format == Json ==> forall i | 0 <= i < |blobs| :: |blobs[i]| > 0
    ensures ParsedPayload(o, Serialized(o, format, ev, blobs)) == Ok((ev, blobs))
  {
    match format
    case Binary => Decoder.BinaryRoundTrip(ev, blobs);
    case Json => LegacyRoundTrip(o, ev, blobs);
  }

  /**
   * The Unified Payload round trip: whatever order the blobs were shuffled into,
   * decoding the serialised payload with the encoder's keys succeeds and reports
   * the real blob as REAL, carrying the original file.
   */
  lemma UnifiedPayloadRoundTrip(o: Oracles, file: FileInfo, active: bool, keys: OpKeys, s: Settings,
                                hybrid: string -> string, rnd: Randomness, format: PayloadFormat,
                                blobs: seq<Bytes>, decoys: seq<Bytes>)
    requires Sound(o)
    requires !s.pq
    requires |rnd.ivOmega| == IV_LENGTH && |rnd.ivAlpha| == IV_LENGTH
    requires |rnd.evSecret| == EV_KEY_SECRET_LENGTH && |rnd.evCounter| == EV_KEY_COUNTER_LENGTH
    requires |MetadataBytes(o, file, Compress(o, file.bytes, active).1)| < 0x1_0000
    requires file.name != "" && file.mime != ""
    requires RealBlob(o, Prepared(o, file, active), keys, s, hybrid, rnd).Ok?
    requires multiset(blobs) == multiset([RealBlob(o, Prepared(o, file, active), keys, s, hybrid, rnd).value] + decoys)
    requires |blobs| <= 255 && forall i | 0 <= i < |blobs| :: |blobs[i]| < TWO_POW_32
    requires format == Json ==> forall i | 0 <= i < |blobs| :: |blobs[i]| > 0
    ensures DecodeBytes(o, Serialized(o, format, rnd.evSecret + rnd.evCounter, blobs), keys, s, hybrid).Ok?
    ensures var d := DecodeBytes(o, Serialized(o, format, rnd.evSecret + rnd.evCounter, blobs), keys, s, hybrid).value;
      && |d.report| == |blobs|
      && exists k | 0 <= k < |d.report| :: d.report[k] == ReportEntry(k, RealPayload(Recovered(file)))
  {
    var payload := Prepared(o, file, active);
    var realBlob := RealBlob(o, payload, keys, s, hybrid, rnd).value;
    var ev := rnd.evSecret + rnd.evCounter;
    assert realBlob in multiset(blobs);
    var k :| 0 <= k < |blobs| && blobs[k] == realBlob;
    SerializedParses(o, format, ev, blobs);
    assert ev[..EV_KEY_SECRET_LENGTH] == rnd.evSecret && ev[EV_KEY_SECRET_LENGTH..] == rnd.evCounter;
    MetadataRoundTrip(o, file, active);
    RealBlobClassifies(o, payload, keys, s, hybrid, rnd);
    var bk := BlobKeysOf(o, keys, s, hybrid).value;
    var report := Report(o, blobs, rnd.evSecret, rnd.evCounter, bk, s.permutation);
    assert report[k] == ReportEntry(k, RealPayload(Recovered(file)));
    LastRealFileFacts(report);
  }

  // -------------------------------------------------------- text carrier

  lemma {:induction false} DropHasOnlyTextChars(s: seq<char>, k: set<char>, c: char)
    requires c in TextStego.Drop(s, k)
    ensures c in s
    decreases |s|
  {
    if s != [] && c != s[0] {
      DropHasOnlyTextChars(s[1..], k, c);
    }
  }

  lemma {:induction false} DropKeepsOthers(s: seq<char>, k: set<char>, i: nat)
    requires i < |s| && s[i] !in k
    ensures s[i] in TextStego.Drop(s, k)
    decreases |s|
  {
    if i > 0 {
      DropKeepsOthers(s[1..], k, i - 1);
    }
  }

  lemma {:induction false} KeepNoneMeansNone(s: seq<char>, k: set<char>, i: nat)
    requires TextStego.Keep(s, k) == [] && i < |s|
    ensures s[i] !in k
    decreases |s|
  {
    if i > 0 {
      KeepNoneMeansNone(s[1..], k, i - 1);
    }
  }

  /**
   * A non-blank carrier text free of the Alpha key's symbols, with the payload
   * hidden in it, is read by `handleDecode` as that payload.
   */
  lemma StegoCarrierDecodes(o: Oracles, carrier: string, payload: Bytes, keys: OpKeys, s: Settings,
                            hybrid: string -> string)
    requires Sha256Sound(o) && CtrSound(o) && Base64Sound(o)
    requires TextStego.EmbedSpec(o, carrier, payload, keys.alpha).Ok?
    requires TextStego.Keep(carrier, TextStego.Symbols(TextStego.ConfigOf(o, keys.alpha))) == []
    requires 0 < |payload| <= MAX_PAYLOAD_BYTES
    requires !IsBlank(carrier)
    ensures Decoded(o, TextStego.EmbedSpec(o, carrier, payload, keys.alpha).value, true, keys, s, hybrid)
            == DecodeBytes(o, payload, keys, s, hybrid)
  {
    var text := TextStego.EmbedSpec(o, carrier, payload, keys.alpha).value;
    var syms := TextStego.Symbols(TextStego.ConfigOf(o, keys.alpha));
    TextStego.StegoRoundTrip(o, carrier, payload, keys.alpha);
    DecodedInputCarrier(o, text, keys.alpha);
    var i :| 0 <= i < |carrier| && !IsJsSpace(carrier[i]);
    KeepNoneMeansNone(carrier, syms, i);
    DropKeepsOthers(carrier, syms, i);
    TextStego.EmbedKeepsCarrier(o, carrier, payload, keys.alpha);
    DropHasOnlyTextChars(text, syms, carrier[i]);
    var j :| 0 <= j < |text| && text[j] == carrier[i];
    assert !IsBlank(text);
  }

  // --------------------------------------------------------------- decoys

  /** The veil leaves a blob as it is exactly when its keystream is all zero bytes. */
  lemma VeilFixed(o: Oracles, secret: Bytes, counter: Bytes, blob: Bytes)
    requires CtrSound(o)
    ensures Veil(o, secret, counter, blob) == blob <==>
      forall i | 0 <= i < |blob| :: o.aesCtr(secret, counter, |blob|)[i] == 0
  {
    var ks := o.aesCtr(secret, counter, |blob|);
    var v := Veil(o, secret, counter, blob);
    assert |v| == |blob|;
    forall i | 0 <= i < |blob|
      ensures v[i] == blob[i] <==> ks[i] == 0
    {
      XorByteFixed(blob[i], ks[i]);
    }
    if forall i | 0 <= i < |blob| :: ks[i] == 0 {
      assert v == blob;
    }
  }

  /**
   * A keyed decoy as the encoder emits it, unveiled, would open under the Decoy
   * key; a veiled one would too, since de-veiling undoes it.  The decoder,
   * however, tries the Decoy key on the de-veiled bytes of the unveiled blob,
   * which are the blob itself only under an all-zero keystream.
   */
  lemma UnveiledDecoyPath(o: Oracles, secret: Bytes, counter: Bytes, decoyKey: string, iv: Bytes, plain: Bytes,
                          decoy: Bytes)
    requires GcmSound(o) && CtrSound(o) && Base64Sound(o) && Argon2Sound(o)
    requires decoyKey != "" && |iv| == IV_LENGTH
    requires EncryptData(o, NormalizeKey(o, decoyKey), iv, plain) == Ok(decoy)
    ensures DecoyAttempt(o, decoy, decoyKey)
            == (if Plausible(o.utf8Decode(plain)) then Some(o.utf8Decode(plain)) else None)
    ensures DecoyAttempt(o, Veil(o, secret, counter, Veil(o, secret, counter, decoy)), decoyKey)
            == DecoyAttempt(o, decoy, decoyKey)
    ensures Veil(o, secret, counter, decoy) == decoy <==>
      forall i | 0 <= i < |decoy| :: o.aesCtr(secret, counter, |decoy|)[i] == 0
  {
    DataRoundTrip(o, NormalizeKey(o, decoyKey), iv, plain);
    VeilTwice(o, secret, counter, decoy);
    VeilFixed(o, secret, counter, decoy);
  }

  // ------------------------------------------------------------------ ARK

  /**
   * The ARK round trip: a prepared file encrypted under the ARK key and embedded
   * in an image under the Alpha key decodes back to the file, when the decoder
   * is given the same ARK key.
   */
  lemma ArkRoundTrip(o: Oracles, file: FileInfo, active: bool, alphaKey: string, arkKey: string, iv: Bytes,
                     ciphertext: Bytes, pixels: seq<byte>, numPixels: nat, stego: seq<byte>)
    requires GcmSound(o) && CtrSound(o) && JsonSound(o) && DeflateSound(o)
    requires |pixels| == 4 * numPixels && |iv| == IV_LENGTH
    requires |MetadataBytes(o, file, Compress(o, file.bytes, active).1)| < 0x1_0000
    requires file.name != "" && file.mime != ""
    requires EncryptData(o, arkKey, iv, Prepared(o, file, active)) == Ok(ciphertext)
    requires |ciphertext| <= MAX_PAYLOAD_BYTES
    requires ImageStego.EmbedData(o, pixels, numPixels, ciphertext, alphaKey) == Ok(stego)
    ensures |stego| == 4 * numPixels && ArkDecoded(o, true, alphaKey, arkKey, stego, numPixels) == Ok(Recovered(file))
  {
    ImageStego.DataRoundTrip(o, pixels, numPixels, ciphertext, alphaKey);
    DataRoundTrip(o, arkKey, iv, Prepared(o, file, active));
    MetadataRoundTrip(o, file, active);
  }
}
