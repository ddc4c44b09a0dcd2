/**
 * The decoding side ("decoherence"): the pasted code, or the text-steganography
 * payload hidden in it, is base64-decoded, parsed as a binary or legacy JSON
 * Unified Payload, and every blob is de-veiled and tried first as the real
 * payload under the final Alpha (and Omega) keys, then as a decoy under the
 * Decoy key.  Also the metadata parse shared with the ARK image path.
 */
module Decoder {
  import opened Wrappers
  import opened Primitives
  import opened ByteUtil
  import opened Kdf
  import opened Prng
  import opened Encoder
  import TextStego
  import ImageStego

  const KEYS_REQUIRED: string := "Alpha Key/Master Key and Unified Payload are required."
  const BASE64_ERROR: string := "Payload decoding failed. The data is not a valid Base64 string, which may indicate corruption or an incorrect format."
  const LEGACY_ERROR: string := "Could not parse Legacy JSON payload. The data may be corrupt, not a JSON payload, or in the modern binary format."
  const VEIL_KEY_ERROR: string := "Invalid Entropic Veil Key. Expected 48 bytes."
  const DECOHERENCE_FAILED: string := "DECOHERENCE FAILED. Keys are incorrect or data is corrupt. Unable to isolate real data from digital dust."
  /** The `RangeError` of `DataView.getUint32` past the end of the buffer. */
  const RANGE_ERROR: string := "Offset is outside the bounds of the DataView"
  const TOO_SMALL: string := "Payload too small for metadata."
  const CORRUPT_LENGTH: string := "Payload corrupt, metadata length exceeds payload size."
  const INVALID_FORMAT: string := "Invalid real payload format"
  /** A stand-in for the engine's `SyntaxError` text. */
  const METADATA_JSON_ERROR: string := "Unexpected token in JSON"
  /**
   * A stand-in for what pako's `inflate` throws on bad data. It throws a plain
   * string, not an `Error`, so a catch that shows `error.message` shows its
   * fallback text instead.
   */
  const INFLATE_ERROR: string := "invalid compressed data"
  /** The ARK catch's text for a thrown value that is not an `Error`. */
  const ARK_FALLBACK: string := "ARK decoherence failed. The Alpha Key, carrier image, or payload may be incorrect/corrupt."
  const ARK_KEY_REQUIRED: string := "Alpha Key or Master Key is required for ARK decoherence."
  const NO_COVERT_DATA: string := "No covert data found in image. Stego-pattern key (Alpha) may be wrong."

  /** A recovered file; `isImage` says whether its MIME type starts with "image/". */
  datatype DecodedFile = DecodedFile(name: string, mime: string, bytes: Bytes, isImage: bool)

  /** The status of one blob in the decoherence report. */
  datatype Status = RealPayload(file: DecodedFile) | DecoyPayload(text: string) | Failure

  datatype ReportEntry = ReportEntry(id: nat, status: Status)

  /** A successful decoherence: the report and the file shown to the user. */
  datatype Decoherence = Decoherence(report: seq<ReportEntry>, file: DecodedFile)

  /** The keys a blob is tried with: final Alpha and Omega, whether Omega was set, the Decoy key. */
  datatype BlobKeys = BlobKeys(alpha: string, omega: string, omegaSet: bool, decoy: string)

  // ------------------------------------------------------------ input

  /** `String.prototype.trim`'s white space and line terminators. */
  predicate IsJsSpace(c: char) {
    c in {' ', '\t', '\n', '\r', '\U{000B}', '\U{000C}', '\U{00A0}', '\U{1680}', '\U{2000}', '\U{2001}',
          '\U{2002}', '\U{2003}', '\U{2004}', '\U{2005}', '\U{2006}', '\U{2007}', '\U{2008}', '\U{2009}',
          '\U{200A}', '\U{2028}', '\U{2029}', '\U{202F}', '\U{205F}', '\U{3000}', '\U{FEFF}'}
  }

  /** `!s.trim()`. */
  predicate IsBlank(s: string) {
    forall i | 0 <= i < |s| :: IsJsSpace(s[i])
  }

  /** The text-steganography payload if the pasted text carries one, else the text itself, base64-decoded. */
  function DecodedInput(o: Oracles, pasted: string, alphaKey: string): Result<Bytes>
    requires Sha256Sound(o)
  {
    var embedded := match TextStego.ExtractSpec(o, pasted, alphaKey)
      case Some(b) => o.b64Encode(b)
      case None => pasted;
    match o.b64Decode(embedded)
    case None => Err(BASE64_ERROR)
    case Some(bytes) => Ok(bytes)
  }

  /** A stego carrier hands its hidden bytes straight to the parser. */
  lemma DecodedInputCarrier(o: Oracles, pasted: string, alphaKey: string)
    requires Sha256Sound(o) && Base64Sound(o)
    ensures TextStego.ExtractSpec(o, pasted, alphaKey).Some? ==>
      DecodedInput(o, pasted, alphaKey) == Ok(TextStego.ExtractSpec(o, pasted, alphaKey).value)
    ensures TextStego.ExtractSpec(o, pasted, alphaKey).None? ==>
      (DecodedInput(o, pasted, alphaKey).Ok? <==> o.b64Decode(pasted).Some?)
  {
  }

  // ------------------------------------------------------ binary form

  predicate IsBinary(bytes: Bytes) {
    |bytes| > 0 && bytes[0] == MAGIC_BYTE_BINARY_FORMAT
  }

  /** `p` before a successful result; errors pass through. */
  function Prepend(p: seq<nat>, r: Result<seq<nat>>): Result<seq<nat>> {
    match r
    case Err(e) => Err(e)
    case Ok(rest) => Ok(p + rest)
  }

  /** `count` big-endian u32 sizes from `offset`; reading past the end is a `RangeError`. */
  function ReadSizes(bytes: Bytes, offset: nat, count: nat): (r: Result<seq<nat>>)
    ensures r.Err? ==> r.msg == RANGE_ERROR && offset + 4 * count > |bytes|
    ensures r.Ok? ==> |r.value| == count
    decreases count
  {
    if count == 0 then Ok([])
    else if offset + 4 > |bytes| then Err(RANGE_ERROR)
    else Prepend([ReadU32BE(bytes, offset)], ReadSizes(bytes, offset + 4, count - 1))
  }

  lemma PrependStep(p: seq<nat>, v: nat, r: Result<seq<nat>>)
    ensures Prepend(p, Prepend([v], r)) == Prepend(p + [v], r)
  {
    if r.Ok? {
      assert p + ([v] + r.value) == (p + [v]) + r.value;
    }
  }

  /** Consecutive clamped slices of the given sizes. */
  function SliceBlobs(bytes: Bytes, offset: nat, sizes: seq<nat>): seq<Bytes>
    decreases |sizes|
  {
    if |sizes| == 0 then []
    else [JsSlice(bytes, offset, offset + sizes[0])] + SliceBlobs(bytes, offset + sizes[0], sizes[1..])
  }

  /** The count byte at offset 49; a missing byte is `undefined` and the size loop does not run. */
  function BlobCount(bytes: Bytes): nat {
    if 1 + EV_KEY_TOTAL_LENGTH < |bytes| then bytes[1 + EV_KEY_TOTAL_LENGTH] as nat else 0
  }

  function ParsedBinary(bytes: Bytes): Result<(Bytes, seq<Bytes>)> {
    var count := BlobCount(bytes);
    match ReadSizes(bytes, 2 + EV_KEY_TOTAL_LENGTH, count)
    case Err(e) => Err(e)
    case Ok(sizes) =>
      Ok((JsSlice(bytes, 1, 1 + EV_KEY_TOTAL_LENGTH), SliceBlobs(bytes, 2 + EV_KEY_TOTAL_LENGTH + 4 * count, sizes)))
  }

  /** The binary branch of `handleDecode`, walking an offset. */
  method ParseBinary(bytes: Bytes) returns (r: Result<(Bytes, seq<Bytes>)>)
    ensures r == ParsedBinary(bytes)
  {
    var offset: nat := 1;
    var evKey := JsSlice(bytes, offset, offset + EV_KEY_TOTAL_LENGTH);
    offset := offset + EV_KEY_TOTAL_LENGTH;
    var blobCount := if offset < |bytes| then bytes[offset] as nat else 0;
    offset := offset + 1;
    var blobSizes := ReadBlobSizes(bytes, offset, blobCount);
    if blobSizes.Err? {
      return Err(blobSizes.msg);
    }
    offset := offset + 4 * blobCount;
    var blobs := SliceAll(bytes, offset, blobSizes.value);
    r := Ok((evKey, blobs));
  }

  /** The `getUint32` loop. */
  method ReadBlobSizes(bytes: Bytes, start: nat, count: nat) returns (r: Result<seq<nat>>)
    ensures r == ReadSizes(bytes, start, count)
  {
    var offset := start;
    var blobSizes: seq<nat> := [];
    assert ReadSizes(bytes, offset, count).Ok? ==> [] + ReadSizes(bytes, offset, count).value == ReadSizes(bytes, offset, count).value;
    for i := 0 to count
      invariant offset == start + 4 * i
      invariant ReadSizes(bytes, start, count) == Prepend(blobSizes, ReadSizes(bytes, offset, count - i))
    {
      if offset + 4 > |bytes| {
        return Err(RANGE_ERROR);
      }
      PrependStep(blobSizes, ReadU32BE(bytes, offset), ReadSizes(bytes, offset + 4, count - i - 1));
      blobSizes := blobSizes + [ReadU32BE(bytes, offset)];
      offset := offset + 4;
    }
    assert blobSizes + [] == blobSizes;
    r := Ok(blobSizes);
  }

  /** The slicing loop. */
  method SliceAll(bytes: Bytes, start: nat, sizes: seq<nat>) returns (blobs: seq<Bytes>)
    ensures blobs == SliceBlobs(bytes, start, sizes)
  {
    var offset := start;
    blobs := [];
    for i := 0 to |sizes|
      invariant SliceBlobs(bytes, start, sizes) == blobs + SliceBlobs(bytes, offset, sizes[i..])
    {
      assert sizes[i..][1..] == sizes[i + 1..];
      blobs := blobs + [JsSlice(bytes, offset, offset + sizes[i])];
      offset := offset + sizes[i];
    }
    assert sizes[|sizes|..] == [];
  }

  function Lengths(blobs: seq<Bytes>): seq<nat> {
    seq(|blobs|, i requires 0 <= i < |blobs| => |blobs[i]|)
  }

  /** The first entry of a size table reads back as the first length; the rest is the tail's table. */
  lemma SizeTableHead(bytes: Bytes, offset: nat, blobs: seq<Bytes>)
    requires |blobs| > 0 && offset + 4 * |blobs| <= |bytes|
    requires bytes[offset..offset + 4 * |blobs|] == Flatten(SizeTable(blobs))
    requires |blobs[0]| < TWO_POW_32
    ensures ReadU32BE(bytes, offset) == |blobs[0]|
    ensures bytes[offset + 4..offset + 4 * |blobs|] == Flatten(SizeTable(blobs[1..]))
  {
    var u := U32BE(|blobs[0]|);
    var whole := bytes[offset..offset + 4 * |blobs|];
    assert whole == u + Flatten(SizeTable(blobs[1..])) by {
      assert SizeTable(blobs)[1..] == SizeTable(blobs[1..]);
    }
    assert bytes[offset + 4..offset + 4 * |blobs|] == whole[4..];
    assert ReadU32BE(bytes, offset) == ReadU32BE(u, 0) by {
      assert bytes[offset..offset + 4] == whole[..4] == u;
      assert bytes[offset] == u[0] && bytes[offset + 1] == u[1];
      assert bytes[offset + 2] == u[2] && bytes[offset + 3] == u[3];
    }
    U32RoundTrip(|blobs[0]|);
  }

  lemma {:induction false} ReadSizeTable(bytes: Bytes, offset: nat, blobs: seq<Bytes>)
    requires offset + 4 * |blobs| <= |bytes|
    requires bytes[offset..offset + 4 * |blobs|] == Flatten(SizeTable(blobs))
    requires forall i | 0 <= i < |blobs| :: |blobs[i]| < TWO_POW_32
    ensures ReadSizes(bytes, offset, |blobs|) == Ok(Lengths(blobs))
    decreases |blobs|
  {
    if |blobs| > 0 {
      SizeTableHead(bytes, offset, blobs);
      ReadSizeTable(bytes, offset + 4, blobs[1..]);
      assert Lengths(blobs) == [|blobs[0]|] + Lengths(blobs[1..]);
    }
  }

  lemma {:induction false} SliceFlattened(bytes: Bytes, offset: nat, blobs: seq<Bytes>)
    requires offset + |Flatten(blobs)| <= |bytes|
    requires bytes[offset..offset + |Flatten(blobs)|] == Flatten(blobs)
    ensures SliceBlobs(bytes, offset, Lengths(blobs)) == blobs
    decreases |blobs|
  {
    if |blobs| > 0 {
      var n := |blobs[0]|;
      assert Lengths(blobs)[1..] == Lengths(blobs[1..]);
      var whole := bytes[offset..offset + |Flatten(blobs)|];
      assert whole == blobs[0] + Flatten(blobs[1..]);
      assert bytes[offset..offset + n] == whole[..n];
      assert bytes[offset + n..offset + |Flatten(blobs)|] == whole[n..];
      SliceFlattened(bytes, offset + n, blobs[1..]);
      assert blobs == [blobs[0]] + blobs[1..];
    }
  }

  /** The parser inverts the binary serialisation while the count fits its byte. */
  lemma BinaryRoundTrip(ev: Bytes, blobs: seq<Bytes>)
    requires |ev| == EV_KEY_TOTAL_LENGTH && |blobs| <= 255
    requires forall i | 0 <= i < |blobs| :: |blobs[i]| < TWO_POW_32
    ensures IsBinary(BinaryPayload(ev, blobs))
    ensures ParsedBinary(BinaryPayload(ev, blobs)) == Ok((ev, blobs))
  {
    var p := BinaryPayload(ev, blobs);
    var t := 50 + 4 * |blobs|;
    assert p[1..49] == ev && BlobCount(p) == |blobs|
      && t + |Flatten(blobs)| <= |p|
      && p[50..t] == Flatten(SizeTable(blobs))
      && p[t..t + |Flatten(blobs)|] == Flatten(blobs)
    by {
      SizeTableLength(blobs);
      assert p[49] == |blobs| as byte;
    }
    assert ReadSizes(p, 50, |blobs|) == Ok(Lengths(blobs)) by { ReadSizeTable(p, 50, blobs); }
    assert SliceBlobs(p, t, Lengths(blobs)) == blobs by { SliceFlattened(p, t, blobs); }
  }

  // ------------------------------------------------------ legacy form

  /** `String.prototype.split('|')`. */
  function Split(s: string): (parts: seq<string>)
    ensures |parts| >= 1
  {
    if |s| == 0 then [""]
    else
      var tail := Split(s[1..]);
      if s[0] == '|' then [""] + tail else [[s[0]] + tail[0]] + tail[1..]
  }

  lemma {:induction false} SplitNoBar(a: string, rest: string)
    requires '|' !in a
    ensures Split(a + rest) == [a + Split(rest)[0]] + Split(rest)[1..]
  {
    var s := a + rest;
    if |a| > 0 {
      assert s[0] == a[0] && s[0] != '|';
      assert s[1..] == a[1..] + rest;
      SplitNoBar(a[1..], rest);
      var tail := Split(s[1..]);
      assert Split(s) == [[s[0]] + tail[0]] + tail[1..];
      assert tail[0] == a[1..] + Split(rest)[0];
      assert tail[1..] == Split(rest)[1..];
      assert [a[0]] + (a[1..] + Split(rest)[0]) == a + Split(rest)[0];
    } else {
      assert s == rest;
      assert a + Split(rest)[0] == Split(rest)[0];
      assert Split(rest) == [Split(rest)[0]] + Split(rest)[1..];
    }
  }

  /** Splitting undoes joining when no part contains the separator. */
  lemma {:induction false} SplitJoin(parts: seq<string>)
    requires |parts| >= 1
    requires forall i | 0 <= i < |parts| :: '|' !in parts[i]
    ensures Split(Join(parts)) == parts
  {
    if |parts| == 1 {
      SplitNoBar(parts[0], "");
      assert parts[0] + "" == parts[0];
    } else {
      assert forall i | 0 <= i < |parts[1..]| :: parts[1..][i] == parts[i + 1];
      SplitJoin(parts[1..]);
      var rest := Join(parts[1..]);
      var barred := "|" + rest;
      assert Join(parts) == parts[0] + barred;
      assert barred[0] == '|' && barred[1..] == rest;
      assert Split(barred) == [""] + parts[1..];
      SplitNoBar(parts[0], barred);
      assert Split(barred)[0] == "" && Split(barred)[1..] == parts[1..];
      assert parts[0] + "" == parts[0];
      assert parts == [parts[0]] + parts[1..];
    }
  }

  /** `base64ToUint8Array` on every part; any failure fails the whole. */
  function DecodeAll(o: Oracles, parts: seq<string>): Option<seq<Bytes>>
    decreases |parts|
  {
    if |parts| == 0 then Some([])
    else match o.b64Decode(parts[0])
      case None => None
      case Some(b) =>
        match DecodeAll(o, parts[1..])
        case None => None
        case Some(rest) => Some([b] + rest)
  }

  /** The legacy branch: every failure inside it becomes the one legacy error. */
  function ParsedLegacy(o: Oracles, bytes: Bytes): Result<(Bytes, seq<Bytes>)> {
    match o.legacyDecode(bytes)
    case None => Err(LEGACY_ERROR)
    case Some((q, d)) =>
      if q == "" || d == "" then Err(LEGACY_ERROR)
      else match o.b64Decode(q)
        case None => Err(LEGACY_ERROR)
        case Some(ev) =>
          match DecodeAll(o, Split(d))
          case None => Err(LEGACY_ERROR)
          case Some(blobs) => Ok((ev, blobs))
  }

  lemma {:induction false} DecodeAllEncoded(o: Oracles, blobs: seq<Bytes>)
    requires Base64Sound(o)
    ensures DecodeAll(o, Base64All(o, blobs)) == Some(blobs)
    decreases |blobs|
  {
    if |blobs| > 0 {
      assert Base64All(o, blobs)[1..] == Base64All(o, blobs[1..]);
      DecodeAllEncoded(o, blobs[1..]);
      assert o.b64Decode(o.b64Encode(blobs[0])) == Some(blobs[0]);
      assert blobs == [blobs[0]] + blobs[1..];
    }
  }

  /** The legacy parser inverts the JSON form when there is at least one blob and none is empty. */
  lemma LegacyRoundTrip(o: Oracles, ev: Bytes, blobs: seq<Bytes>)
    requires Base64Sound(o) && JsonSound(o)
    requires |ev| > 0 && |blobs| >= 1 && forall i | 0 <= i < |blobs| :: |blobs[i]| > 0
    ensures !IsBinary(JsonPayload(o, ev, blobs))
    ensures ParsedLegacy(o, JsonPayload(o, ev, blobs)) == Ok((ev, blobs))
  {
    var parts := Base64All(o, blobs);
    SplitJoin(parts);
    DecodeAllEncoded(o, blobs);
    assert o.b64Decode(o.b64Encode(ev)) == Some(ev);
    assert o.b64Decode(o.b64Encode(blobs[0])) == Some(blobs[0]);
    assert o.b64Decode("") == Some([]);
    assert o.b64Encode(ev) != "";
    assert parts[0] != "";
    assert Join(parts) != "" by {
      if |parts| > 1 {
        assert Join(parts)[|parts[0]|] == '|';
      }
    }
  }

  /** Format detection: a leading 0xBD selects the binary parser, anything else the legacy one. */
  function ParsedPayload(o: Oracles, bytes: Bytes): Result<(Bytes, seq<Bytes>)> {
    if IsBinary(bytes) then ParsedBinary(bytes) else ParsedLegacy(o, bytes)
  }

  // -------------------------------------------------------- metadata

  function IsImage(mime: string): bool {
    |mime| >= 6 && mime[..6] == "image/"
  }

  /** The metadata parse shared by the Unified Payload and ARK paths. */
  function ParseMetadata(o: Oracles, payload: Bytes): Result<DecodedFile> {
    if |payload| < 2 then Err(TOO_SMALL)
    else
      var len := ReadU16BE(payload, 0);
      if |payload| < 2 + len then Err(CORRUPT_LENGTH)
      else match o.metaDecode(payload[2..2 + len])
        case None => Err(METADATA_JSON_ERROR)
        case Some(meta) =>
          if meta.f == "" || meta.t == "" then Err(INVALID_FORMAT)
          else match Restore(o, payload[2 + len..], meta.c)
            case None => Err(INFLATE_ERROR)
            case Some(bytes) => Ok(DecodedFile(meta.f, meta.t, bytes, IsImage(meta.t)))
  }

  /** What a successful decode of `file` shows. */
  function Recovered(file: FileInfo): DecodedFile {
    DecodedFile(file.name, file.mime, file.bytes, IsImage(file.mime))
  }

  /** Parsing a prepared payload gives back the file, when its metadata fits the u16 length and names it. */
  lemma MetadataRoundTrip(o: Oracles, file: FileInfo, active: bool)
    requires JsonSound(o) && DeflateSound(o)
    requires |MetadataBytes(o, file, Compress(o, file.bytes, active).1)| < 0x1_0000
    requires file.name != "" && file.mime != ""
    ensures ParseMetadata(o, Prepared(o, file, active)) == Ok(Recovered(file))
  {
    PreparedLayout(o, file, active);
    CompressionChoice(o, file.bytes, active);
  }

  /** Metadata errors, in the order they are checked. */
  lemma ParseMetadataErrors(o: Oracles, payload: Bytes)
    ensures |payload| < 2 <==> ParseMetadata(o, payload) == Err(TOO_SMALL)
    ensures ParseMetadata(o, payload) == Err(CORRUPT_LENGTH) <==> |payload| >= 2 && |payload| < 2 + ReadU16BE(payload, 0)
    ensures ParseMetadata(o, payload).Ok? ==>
      && |payload| >= 2 + ReadU16BE(payload, 0)
      && o.metaDecode(payload[2..2 + ReadU16BE(payload, 0)]).Some?
      && var meta := o.metaDecode(payload[2..2 + ReadU16BE(payload, 0)]).value;
         && meta.f != "" && meta.t != ""
         && ParseMetadata(o, payload).value.name == meta.f
         && ParseMetadata(o, payload).value.mime == meta.t
         && Restore(o, payload[2 + ReadU16BE(payload, 0)..], meta.c) == Some(ParseMetadata(o, payload).value.bytes)
  {
  }

  // -------------------------------------------------- classification

  /** Attempt 1's layers in reverse: un-permute, Alpha, then Omega when set. */
  function Unlayered(o: Oracles, deveiled: Bytes, keys: BlobKeys, permutation: bool): Result<Bytes>
    requires CtrSound(o)
  {
    var reversed := if permutation then ReversePermutation(o, deveiled, keys.alpha) else Ok(deveiled);
    match reversed
    case Err(e) => Err(e)
    case Ok(p) =>
      match DecryptData(o, keys.alpha, p)
      case Err(e) => Err(e)
      case Ok(t) => if keys.omegaSet then DecryptData(o, keys.omega, t) else Ok(t)
  }

  function RealAttempt(o: Oracles, deveiled: Bytes, keys: BlobKeys, permutation: bool): Result<DecodedFile>
    requires CtrSound(o)
  {
    match Unlayered(o, deveiled, keys, permutation)
    case Err(e) => Err(e)
    case Ok(payload) => ParseMetadata(o, payload)
  }

  /**
   * The `length` JavaScript reports for `text`: UTF-16 code units, two for a
   * character beyond U+FFFF and one for any other.
   */
  function Utf16Length(text: string): (n: nat)
    ensures |text| <= n <= 2 * |text|
    ensures n == |text| <==> forall i | 0 <= i < |text| :: text[i] as int <= 0xFFFF
  {
    if |text| == 0 then 0
    else
      var rest := Utf16Length(text[1..]);
      assert forall i | 1 <= i < |text| :: text[i] == text[1..][i - 1];
      (if text[0] as int > 0xFFFF then 2 else 1) + rest
  }

  /** Plausible decoy text: more than 10 UTF-16 code units long and containing a space. */
  predicate Plausible(text: string) {
    Utf16Length(text) > 10 && ' ' in text
  }

  /** Attempt 2: the normalised Decoy key, never hardened. */
  function DecoyAttempt(o: Oracles, deveiled: Bytes, decoyKey: string): Option<string> {
    if decoyKey == "" then None
    else match DecryptData(o, NormalizeKey(o, decoyKey), deveiled)
      case Err(_) => None
      case Ok(bytes) => if Plausible(o.utf8Decode(bytes)) then Some(o.utf8Decode(bytes)) else None
  }

  /** One blob: de-veil, then the real attempt, then the decoy attempt, else failure. */
  function Classify(o: Oracles, blob: Bytes, secret: Bytes, counter: Bytes, keys: BlobKeys, permutation: bool): Status
    requires CtrSound(o)
  {
    var deveiled := Veil(o, secret, counter, blob);
    match RealAttempt(o, deveiled, keys, permutation)
    case Ok(file) => RealPayload(file)
    case Err(_) =>
      match DecoyAttempt(o, deveiled, keys.decoy)
      case Some(text) => DecoyPayload(text)
      case None => Failure
  }

  /** The per-blob closure of `handleDecode` as a sequence of fallible steps. */
  method AnalyseBlob(o: Oracles, blob: Bytes, secret: Bytes, counter: Bytes, keys: BlobKeys, permutation: bool)
    returns (status: Status)
    requires HmacSound(o) && CtrSound(o)
    ensures status == Classify(o, blob, secret, counter, keys, permutation)
  {
    var keyStream := o.aesCtr(secret, counter, |blob|);
    var deXorred := XorBytes(blob, keyStream);
    var permReversed := Ok(deXorred);
    if permutation {
      permReversed := ReverseBlockPermutation(o, deXorred, keys.alpha);
    }
    if permReversed.Ok? {
      var temp := DecryptData(o, keys.alpha, permReversed.value);
      if temp.Ok? && keys.omegaSet {
        temp := DecryptData(o, keys.omega, temp.value);
      }
      if temp.Ok? {
        var parsed := ParseMetadata(o, temp.value);
        if parsed.Ok? {
          return RealPayload(parsed.value);
        }
      }
    }
    if keys.decoy != "" {
      var finalDecoyKey := NormalizeKey(o, keys.decoy);
      var decoyBytes := DecryptData(o, finalDecoyKey, deXorred);
      if decoyBytes.Ok? {
        var decoyText := o.utf8Decode(decoyBytes.value);
        if Plausible(decoyText) {
          return DecoyPayload(decoyText);
        }
      }
    }
    status := Failure;
  }

  function Report(o: Oracles, blobs: seq<Bytes>, secret: Bytes, counter: Bytes, keys: BlobKeys, permutation: bool)
    : seq<ReportEntry>
    requires CtrSound(o)
  {
    seq(|blobs|, i requires 0 <= i < |blobs| => ReportEntry(i, Classify(o, blobs[i], secret, counter, keys, permutation)))
  }

  /** The file of the last REAL entry: the last `setDecodedFileInfo` of the sequential map. */
  function LastRealFile(report: seq<ReportEntry>): Option<DecodedFile>
    decreases |report|
  {
    if |report| == 0 then None
    else match report[|report| - 1].status
      case RealPayload(f) => Some(f)
      case _ => LastRealFile(report[..|report| - 1])
  }

  /** A file is shown exactly when some entry is REAL, and it is one of the REAL files. */
  lemma {:induction false} LastRealFileFacts(report: seq<ReportEntry>)
    ensures LastRealFile(report).None? <==> forall i | 0 <= i < |report| :: !report[i].status.RealPayload?
    ensures LastRealFile(report).Some? ==>
      exists i | 0 <= i < |report| :: report[i].status == RealPayload(LastRealFile(report).value)
    decreases |report|
  {
    if |report| > 0 {
      var front := report[..|report| - 1];
      LastRealFileFacts(front);
      if !report[|report| - 1].status.RealPayload? {
        assert forall i | 0 <= i < |front| :: front[i] == report[i];
        if LastRealFile(report).Some? {
          var i :| 0 <= i < |front| && front[i].status == RealPayload(LastRealFile(front).value);
          assert report[i] == front[i];
        }
      }
    }
  }

  /** Appending an entry: a REAL entry becomes the shown file, any other keeps the previous one. */
  lemma LastRealFileSnoc(report: seq<ReportEntry>, e: ReportEntry)
    ensures LastRealFile(report + [e]) == if e.status.RealPayload? then Some(e.status.file) else LastRealFile(report)
  {
    assert (report + [e])[..|report|] == report;
  }

  /** The `analysisPromises` map run in order, with the `realPayloadFound` flag. */
  method ClassifyBlobs(o: Oracles, blobs: seq<Bytes>, secret: Bytes, counter: Bytes, keys: BlobKeys, permutation: bool)
    returns (report: seq<ReportEntry>, realPayloadFound: bool, shown: Option<DecodedFile>)
    requires HmacSound(o) && CtrSound(o)
    ensures report == Report(o, blobs, secret, counter, keys, permutation)
    ensures shown == LastRealFile(report)
    ensures realPayloadFound <==> exists i | 0 <= i < |report| :: report[i].status.RealPayload?
  {
    report, realPayloadFound, shown := [], false, None;
    for i := 0 to |blobs|
      invariant |report| == i
      invariant forall j | 0 <= j < i :: report[j] == ReportEntry(j, Classify(o, blobs[j], secret, counter, keys, permutation))
      invariant shown == LastRealFile(report)
      invariant realPayloadFound == shown.Some?
    {
      var status := AnalyseBlob(o, blobs[i], secret, counter, keys, permutation);
      LastRealFileSnoc(report, ReportEntry(i, status));
      if status.RealPayload? {
        shown := Some(status.file);
        realPayloadFound := true;
      }
      report := report + [ReportEntry(i, status)];
    }
    LastRealFileFacts(report);
  }

  // ------------------------------------------------------ handleDecode

  function BlobKeysOf(o: Oracles, keys: OpKeys, s: Settings, hybrid: string -> string): Result<BlobKeys> {
    match FinalKey(o, keys.alpha, ALPHA_HARDEN_LABEL, s, hybrid)
    case Err(e) => Err(e)
    case Ok(alpha) =>
      match FinalKey(o, keys.omega, OMEGA_HARDEN_LABEL, s, hybrid)
      case Err(e) => Err(e)
      case Ok(omega) => Ok(BlobKeys(alpha, omega, keys.omega != "", keys.decoy))
  }

  /** Everything after base64 decoding: parse, check the veil key, derive keys, classify. */
  function DecodeBytes(o: Oracles, bytes: Bytes, keys: OpKeys, s: Settings, hybrid: string -> string): Result<Decoherence>
    requires CtrSound(o)
  {
    match ParsedPayload(o, bytes)
    case Err(e) => Err(e)
    case Ok((ev, blobs)) =>
      if |ev| != EV_KEY_TOTAL_LENGTH then Err(VEIL_KEY_ERROR)
      else match BlobKeysOf(o, keys, s, hybrid)
        case Err(e) => Err(e)
        case Ok(bk) =>
          var report := Report(o, blobs, ev[..EV_KEY_SECRET_LENGTH], ev[EV_KEY_SECRET_LENGTH..], bk, s.permutation);
          match LastRealFile(report)
          case None => Err(DECOHERENCE_FAILED)
          case Some(f) => Ok(Decoherence(report, f))
  }

  function Decoded(o: Oracles, pasted: string, hasPrimaryKey: bool, keys: OpKeys, s: Settings, hybrid: string -> string)
    : Result<Decoherence>
    requires Sha256Sound(o) && CtrSound(o)
  {
    if IsBlank(pasted) || !hasPrimaryKey then Err(KEYS_REQUIRED)
    else match DecodedInput(o, pasted, keys.alpha)
      case Err(e) => Err(e)
      case Ok(bytes) => DecodeBytes(o, bytes, keys, s, hybrid)
  }

  /** Steps 1-2 of `handleDecode`: the stego extraction, then base64 decoding. */
  method DecodeInput(o: Oracles, pasted: string, alphaKey: string) returns (r: Result<Bytes>)
    requires Sha256Sound(o)
    ensures r == DecodedInput(o, pasted, alphaKey)
  {
    var extracted := TextStego.Extract(o, pasted, alphaKey);
    var embeddedData := if extracted.Some? then o.b64Encode(extracted.value) else pasted;
    var decodedBytes := o.b64Decode(embeddedData);
    if decodedBytes.None? {
      return Err(BASE64_ERROR);
    }
    r := Ok(decodedBytes.value);
  }

  /** Step 3: the binary parser after the magic byte, the legacy parser otherwise. */
  method ParsePayload(o: Oracles, bytes: Bytes) returns (r: Result<(Bytes, seq<Bytes>)>)
    ensures r == ParsedPayload(o, bytes)
  {
    if IsBinary(bytes) {
      r := ParseBinary(bytes);
    } else {
      r := ParsedLegacy(o, bytes);
    }
  }

  /** Step 5: the Alpha and Omega final keys, derived as the encoder derives them. */
  method DeriveBlobKeys(o: Oracles, keys: OpKeys, s: Settings, hybrid: string -> string) returns (r: Result<BlobKeys>)
    requires HmacSound(o)
    ensures r == BlobKeysOf(o, keys, s, hybrid)
  {
    var alpha := DeriveFinalKey(o, keys.alpha, ALPHA_HARDEN_LABEL, s, hybrid);
    if alpha.Err? {
      return Err(alpha.msg);
    }
    var omega := DeriveFinalKey(o, keys.omega, OMEGA_HARDEN_LABEL, s, hybrid);
    if omega.Err? {
      return Err(omega.msg);
    }
    r := Ok(BlobKeys(alpha.value, omega.value, keys.omega != "", keys.decoy));
  }

  /** `handleDecode`; an error clears the report and the shown file, i.e. yields no `Decoherence`. */
  method HandleDecode(o: Oracles, pasted: string, hasPrimaryKey: bool, keys: OpKeys, s: Settings, hybrid: string -> string)
    returns (r: Result<Decoherence>)
    requires HmacSound(o) && Sha256Sound(o) && CtrSound(o)
    ensures r == Decoded(o, pasted, hasPrimaryKey, keys, s, hybrid)
  {
    if IsBlank(pasted) || !hasPrimaryKey {
      return Err(KEYS_REQUIRED);
    }
    var decoded := DecodeInput(o, pasted, keys.alpha);
    if decoded.Err? {
      return Err(decoded.msg);
    }
    var bytes := decoded.value;
    var parsed := ParsePayload(o, bytes);
    if parsed.Err? {
      return Err(parsed.msg);
    }
    var (evKey, blobs) := parsed.value;
    if |evKey| != EV_KEY_TOTAL_LENGTH {
      return Err(VEIL_KEY_ERROR);
    }
    var evSecret := evKey[..EV_KEY_SECRET_LENGTH];
    var evCounter := evKey[EV_KEY_SECRET_LENGTH..];
    var bk := DeriveBlobKeys(o, keys, s, hybrid);
    if bk.Err? {
      return Err(bk.msg);
    }
    var report, realPayloadFound, shown := ClassifyBlobs(o, blobs, evSecret, evCounter, bk.value, s.permutation);
    LastRealFileFacts(report);
    if !realPayloadFound {
      return Err(DECOHERENCE_FAILED);
    }
    r := Ok(Decoherence(report, shown.value));
  }

  /** The parsers fail only with the DataView range error or the one legacy error. */
  lemma ParsedPayloadErrors(o: Oracles, bytes: Bytes)
    ensures ParsedPayload(o, bytes).Err? ==>
      ParsedPayload(o, bytes).msg == (if IsBinary(bytes) then RANGE_ERROR else LEGACY_ERROR)
  {
  }

  /** No file is shown exactly when no blob classifies as REAL. */
  lemma ReportHasNoReal(o: Oracles, blobs: seq<Bytes>, secret: Bytes, counter: Bytes, keys: BlobKeys, permutation: bool)
    requires CtrSound(o)
    ensures LastRealFile(Report(o, blobs, secret, counter, keys, permutation)).None? <==>
      forall i | 0 <= i < |blobs| :: !Classify(o, blobs[i], secret, counter, keys, permutation).RealPayload?
  {
    var report := Report(o, blobs, secret, counter, keys, permutation);
    LastRealFileFacts(report);
    assert forall i | 0 <= i < |blobs| :: report[i].status == Classify(o, blobs[i], secret, counter, keys, permutation);
  }

  lemma EarlyErrorsDiffer()
    ensures RANGE_ERROR != DECOHERENCE_FAILED && LEGACY_ERROR != DECOHERENCE_FAILED && VEIL_KEY_ERROR != DECOHERENCE_FAILED
  {
    assert |RANGE_ERROR| != |DECOHERENCE_FAILED|;
    assert |LEGACY_ERROR| != |DECOHERENCE_FAILED|;
    assert |VEIL_KEY_ERROR| != |DECOHERENCE_FAILED|;
  }

  /** A successful decode reports every blob, in order, and shows the file of a REAL entry. */
  lemma DecodeBytesReport(o: Oracles, bytes: Bytes, keys: OpKeys, s: Settings, hybrid: string -> string)
    requires CtrSound(o)
    ensures DecodeBytes(o, bytes, keys, s, hybrid).Ok? ==>
      var d := DecodeBytes(o, bytes, keys, s, hybrid).value;
      && ParsedPayload(o, bytes).Ok?
      && |d.report| == |ParsedPayload(o, bytes).value.1|
      && (forall i | 0 <= i < |d.report| :: d.report[i].id == i)
      && exists i | 0 <= i < |d.report| :: d.report[i].status == RealPayload(d.file)
  {
    if DecodeBytes(o, bytes, keys, s, hybrid).Ok? {
      var (ev, blobs) := ParsedPayload(o, bytes).value;
      var bk := BlobKeysOf(o, keys, s, hybrid).value;
      var report := Report(o, blobs, ev[..EV_KEY_SECRET_LENGTH], ev[EV_KEY_SECRET_LENGTH..], bk, s.permutation);
      assert DecodeBytes(o, bytes, keys, s, hybrid).value.report == report;
      LastRealFileFacts(report);
    }
  }

  /** Decoherence fails with the generic message exactly when the payload parses with a 48-byte veil key but no blob is REAL. */
  lemma DecoherenceFailure(o: Oracles, bytes: Bytes, keys: OpKeys, s: Settings, hybrid: string -> string)
    requires CtrSound(o) && HmacSound(o) && Base64Sound(o) && Argon2Sound(o) && Utf8Sound(o)
    ensures BlobKeysOf(o, keys, s, hybrid).Ok?
    ensures DecodeBytes(o, bytes, keys, s, hybrid) == Err(DECOHERENCE_FAILED) <==>
      && ParsedPayload(o, bytes).Ok?
      && |ParsedPayload(o, bytes).value.0| == EV_KEY_TOTAL_LENGTH
      && var (ev, blobs) := ParsedPayload(o, bytes).value;
         var bk := BlobKeysOf(o, keys, s, hybrid).value;
         forall i | 0 <= i < |blobs| ::
           !Classify(o, blobs[i], ev[..EV_KEY_SECRET_LENGTH], ev[EV_KEY_SECRET_LENGTH..], bk, s.permutation).RealPayload?
  {
    FinalKeyFacts(o, keys.alpha, ALPHA_HARDEN_LABEL, s, hybrid);
    FinalKeyFacts(o, keys.omega, OMEGA_HARDEN_LABEL, s, hybrid);
    ParsedPayloadErrors(o, bytes);
    match ParsedPayload(o, bytes)
    case Err(e) =>
      EarlyErrorsDiffer();
    case Ok((ev, blobs)) =>
      if |ev| != EV_KEY_TOTAL_LENGTH {
        EarlyErrorsDiffer();
      } else {
        ReportHasNoReal(o, blobs, ev[..EV_KEY_SECRET_LENGTH], ev[EV_KEY_SECRET_LENGTH..], BlobKeysOf(o, keys, s, hybrid).value, s.permutation);
      }
  }

  // ---------------------------------------------------- handleDecodeArkImage

  /**
   * The ARK image path on the stego image's pixel buffer: extract the covert
   * ciphertext under the Alpha key, open it under the ARK key, parse the metadata.
   * The ARK key (an HKDF of the Alpha key and the image fingerprint) is an input.
   */
  function ArkDecoded(o: Oracles, hasPrimaryKey: bool, alphaKey: string, arkKey: string,
                      pixels: seq<byte>, numPixels: nat): Result<DecodedFile>
    requires CtrSound(o) && |pixels| == 4 * numPixels
  {
    if !hasPrimaryKey then Err(ARK_KEY_REQUIRED)
    else match ImageStego.ExtractData(o, pixels, numPixels, alphaKey)
      case Err(e) => Err(e)
      case Ok(None) => Err(NO_COVERT_DATA)
      case Ok(Some(ciphertext)) =>
        match DecryptData(o, arkKey, ciphertext)
        case Err(e) => Err(e)
        case Ok(payload) =>
          var parsed := ParseMetadata(o, payload);
          if parsed == Err(INFLATE_ERROR) then Err(ARK_FALLBACK) else parsed
  }

  method HandleDecodeArkImage(o: Oracles, hasPrimaryKey: bool, alphaKey: string, arkKey: string,
                              pixels: array<byte>, numPixels: nat) returns (r: Result<DecodedFile>)
    requires HmacSound(o) && CtrSound(o) && pixels.Length == 4 * numPixels
    ensures r == ArkDecoded(o, hasPrimaryKey, alphaKey, arkKey, pixels[..], numPixels)
    /** A wrong ARK key or a tampered ciphertext shows `decryptData`'s own tag-mismatch text. */
    ensures hasPrimaryKey && ImageStego.ExtractData(o, pixels[..], numPixels, alphaKey).Ok? &&
            ImageStego.ExtractData(o, pixels[..], numPixels, alphaKey).value.Some? &&
            o.b64Decode(arkKey).Some? && AesKeyLength(|o.b64Decode(arkKey).value|) &&
            o.gcmOpen(o.b64Decode(arkKey).value,
                      JsSlice(ImageStego.ExtractData(o, pixels[..], numPixels, alphaKey).value.value, 0, IV_LENGTH), [],
                      JsSlice(ImageStego.ExtractData(o, pixels[..], numPixels, alphaKey).value.value, IV_LENGTH,
                              |ImageStego.ExtractData(o, pixels[..], numPixels, alphaKey).value.value|)).None?
            ==> r == Err(DATA_TAG_MISMATCH)
    /** A payload that authenticates but does not inflate shows the catch's fallback text, as pako throws a string. */
    ensures hasPrimaryKey && ImageStego.ExtractData(o, pixels[..], numPixels, alphaKey).Ok? &&
            ImageStego.ExtractData(o, pixels[..], numPixels, alphaKey).value.Some? &&
            DecryptData(o, arkKey, ImageStego.ExtractData(o, pixels[..], numPixels, alphaKey).value.value).Ok? &&
            ParseMetadata(o, DecryptData(o, arkKey, ImageStego.ExtractData(o, pixels[..], numPixels, alphaKey).value.value).value)
              == Err(INFLATE_ERROR)
            ==> r == Err(ARK_FALLBACK)
  {
    if !hasPrimaryKey {
      return Err(ARK_KEY_REQUIRED);
    }
    var extractedCiphertext := ImageStego.ExtractDataFromImage(o, pixels, numPixels, alphaKey);
    if extractedCiphertext.Err? {
      return Err(extractedCiphertext.msg);
    }
    if extractedCiphertext.value.None? {
      return Err(NO_COVERT_DATA);
    }
    var decryptedPayload := DecryptData(o, arkKey, extractedCiphertext.value.value);
    if decryptedPayload.Err? {
      return Err(decryptedPayload.msg);
    }
    r := ParseMetadata(o, decryptedPayload.value);
    if r == Err(INFLATE_ERROR) {
      r := Err(ARK_FALLBACK);
    }
  }
}
