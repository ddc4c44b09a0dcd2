# ChimeraCipher core, modelled in Dafny

ChimeraCipher is a browser application that hides an encrypted file among decoys
and veils the result. This project models the logic that surrounds its browser
crypto calls, and proves properties of that model:

- **Byte and permutation utilities.** The code covered is XOR of byte arrays, the
  bytes to binary-string conversion, rejection-sampled `secureRandom` and
  Fisher-Yates `secureShuffle`. It also covers the keyed `CryptoPrng` with its
  big-endian counter, the keyed permutation map with its inverse, block
  permutation and its reversal, and the HKDF expand loop with its 255-block
  limit (sections 2.2 and 2.3 of RFC 5869). Key hardening, dual-mode key
  normalisation and the armored PNG container are modelled as well. That
  container puts the payload after the `IEND` chunk of a 70-byte PNG and a
  marker after the payload.
- **Zero-width text steganography.** A key selects three distinct characters
  (zero, one, end) from a pool of five. `8·n + 1` symbols are woven into the
  carrier at keyed insertion points. Extraction reads up to the end marker.
- **Entropic-dispersal image steganography.** The model works on the raw RGBA byte
  array. Bits go into the LSBs of a keyed shuffle of the R/G/B offsets: a 32-bit
  bit-count header, then the data, then PRNG noise in every remaining slot.
- **The Unified Payload.** The prepared payload is
  `[u16 BE metadata length][metadata][data]`, with deflate kept only when it is
  strictly shorter. Omega encryption goes inside, Alpha outside, then the
  optional block permutation, then the Entropic Veil (an AES-CTR keystream XOR).
  Decoys come next. The Decoy-key decoy is sealed under the normalised Decoy
  key, and the others under random Argon2-derived keys, one of them a high-cost
  "tar pit". The blobs are serialised as binary (`0xBD`, 48 veil bytes, count,
  sizes, blobs) or as legacy JSON.
- **Decoherence.** The decoder detects the format and parses the payload. It
  checks the veil key and derives the same keys as the encoder. Each blob is
  classified REAL, DECOY or FAILURE, in that order of attempts. The ARK image
  path opens one ciphertext and parses its metadata.
- **The channel.** `kdf_rk`/`kdf_ck` derive the chains. The handshake tries the
  real key first and then the duress key. `ratchetEncrypt` and `ratchetDecrypt`
  keep the skipped-key cache, do the DH step and keep the counters. The channel
  hook is a class whose handlers update its state.

The browser primitives (AES-GCM, AES-CTR, HMAC-SHA-256, SHA-256, ECDH, Argon2id,
base64, UTF-8, deflate, JSON) are function fields of one `Oracles` value that
every operation takes as a parameter (`primitives.dfy`). Each soundness predicate
states the one law the proofs need of a primitive: decryption inverts
encryption, base64 decoding inverts encoding, a keystream has the length
requested, and so on. Random values (IVs, draws, picks, key pairs,
passwords) and the clock are parameters too.

The model follows the code where it differs from what the application's own
comments and help text promise:

- The help text says a Decoy key unlocks a harmless decoy file
  (components/WikiModal.tsx:107). But decoy blobs are never veiled, and the
  decoder de-veils every blob before the decoy attempt.
  `RoundTrip.UnveiledDecoyPath` and `RoundTrip.VeilFixed` show that the
  Decoy-key path succeeds only when the keystream is all zeros over the blob.
- The help text says the symmetric ratchet clicks forward with every message,
  each under its own key (components/WikiModal.tsx:142). But `kdf_ck` salts
  HKDF with an empty array (hooks/useChannel.ts:100-104), and Web Crypto
  refuses an HMAC key of no bytes, so every chain step fails. Nothing is ever
  sent, and a receive succeeds only from the skipped-key cache
  (`Ratchet.CodeDecryptsOnlyCached`, `Channel.HandshakeThenNothingArrives`).
  The ratchet functions take the chain salt as a parameter. The hook passes
  the empty one, and the delivery lemmas are proved for any non-empty salt.
- The help text says both apps take DH ratchet steps
  (components/WikiModal.tsx:143). But after the handshake the responder holds
  no sending chain. `Channel.ResponderCannotSend` shows it can never send,
  however many messages it receives from an initiator that never receives.
- The skipped-key cache is one object, shared by every state that the class's
  reset and handshakes produce, and `ratchetDecrypt` changes it even when it
  fails. It is a `SkippedKeys` object that `RatchetDecrypt` modifies.
  `Ratchet.FailedDecryptKeepsSkippedKeys` shows the keys stay cached when
  decryption fails.
- The protocol is described as inspired by the Signal Protocol
  (components/WikiModal.tsx:137). But the ratchet never reads `header.pn`, does
  not store the old chain's remaining keys on a DH step, and puts no bound on
  the skip loop. Sections 3.4 and 3.5 of the Signal Double Ratchet
  specification do all three.
- The channel id is the Argon2 salt of the handshake keys, and the reference
  Argon2 refuses a salt under 8 bytes. Generated ids (`ccc-` and 12
  characters) are long enough, but a typed one may not be. Then the initiation
  fails with the catch's fallback text, and the response and completion fail
  (`Channel.ShortChannelIdRefused`).

## Model

| member | source | states |
|---|---|---|
| ByteUtil.XorBytes | lib/crypto.ts:46-53 | the result has min(\|a\|,\|b\|) bytes, byte i being a[i] XOR b[i] |
| ByteUtil.XorTwice | lib/crypto.ts:46-53 | XOR-ing twice with the same keystream, at least as long as the data, gives the data back |
| ByteUtil.XorByteFixed | lib/crypto.ts:46-53 | XOR with a key byte leaves a byte unchanged exactly when the key byte is zero |
| ByteUtil.BytesToBinaryString | lib/crypto.ts:91-98 | exactly 8 bits per byte, bits 8i..8i+8 being byte i most significant bit first |
| ByteUtil.BitsOfLayout | lib/crypto.ts:91-98 | the bit string has length 8·n and its i-th group of eight is byte i |
| ByteUtil.BitsOfEmpty | lib/crypto.ts:91-98 | the bit string is empty exactly when the bytes are |
| ByteUtil.BinaryStringToBytes | lib/crypto.ts:101-129 | it fails exactly when the input exceeds 100 MiB of bits; otherwise it returns ⌊len/8⌋ bytes, each the value of its group of eight bits |
| ByteUtil.BinaryRoundTrip | lib/crypto.ts:91-129 | the bytes' bit string, followed by fewer than 8 trailing bits, converts back to the same bytes |
| ByteUtil.U16RoundTrip | hooks/useEncoder.ts:178-182 | a big-endian u16 written then read gives the value mod 2^16 |
| ByteUtil.U32RoundTrip | hooks/useEncoder.ts:320-323 | a big-endian u32 written then read gives the value mod 2^32 |
| ByteUtil.Blit | hooks/useEncoder.ts:324-327 | writing `src` at `offset` keeps the prefix before it, puts `src` after it, and leaves every byte past it unchanged |
| ByteUtil.FirstMatch | lib/crypto.ts:668-680 | the result is -1 or a position where the needle fits inside the haystack |
| ByteUtil.FirstMatchIsFirst | lib/crypto.ts:668-680 | -1 exactly when the needle occurs nowhere; otherwise an occurrence with none before it |
| ByteUtil.FindSubarray | lib/crypto.ts:668-680 | the loop returns the first occurrence of the needle, or -1 when there is none |
| ByteUtil.ThresholdUnbiased | lib/crypto.ts:66-78 | the acceptance threshold 2^32 − (2^32 mod max) is a positive multiple of max within max of 2^32 |
| ByteUtil.SecureRandom | lib/crypto.ts:66-78 | the result is in [0,max), taken mod max from the first draw below the threshold, all earlier draws rejected |
| ByteUtil.SecureShuffle | lib/crypto.ts:81-88 | the result is a permutation of the input (same length and multiset), the input untouched |
| Permutations.FisherYatesPermutes | lib/crypto.ts:81-88 | a Fisher-Yates pass with in-range picks permutes its input |
| Permutations.PermutationFacts | lib/crypto.ts:438-455 | a permutation of 0..n-1 has n distinct entries below n, covers every p < n, and each entry's index is its position |
| Permutations.InverseFacts | lib/crypto.ts:449-452 | the inverse map satisfies inverse[forward[i]] == i and is itself onto |
| Permutations.InverseIsPermutation | lib/crypto.ts:449-452 | the inverse of a permutation of 0..n-1 is a permutation of 0..n-1 |
| Permutations.ScatterInverse | lib/crypto.ts:457-483 | scattering by a permutation and then by its inverse restores the sequence |
| Permutations.SortDescFacts | lib/steganography.ts:79 | the descending sort permutes its input and is in descending order |
| Permutations.SortDescStrict | lib/steganography.ts:79 | sorting distinct points gives a strictly descending list of the same length |
| Kdf.HkdfLength | lib/crypto.ts:281-307 | HKDF fails exactly when the salt is empty (the HMAC key import, which comes first, refuses it) or ⌈L/32⌉ > 255, each with its error, and otherwise returns exactly L bytes |
| Kdf.HkdfPrefix | lib/crypto.ts:295-306 | a shorter HKDF output is a prefix of a longer one with the same inputs |
| Kdf.BlocksLength | lib/crypto.ts:298-304 | n expand blocks are 32·n bytes |
| Kdf.Expand | lib/crypto.ts:295-304 | the block loop writes T(1)‖…‖T(n), each block the HMAC of the previous block, the info and its index |
| Kdf.DeriveHkdfKeyBytes | lib/crypto.ts:281-307 | the method fails exactly on an empty salt or past 255 blocks, with the matching error, and otherwise returns the L-byte prefix of the expand output |
| Kdf.HardenInfoLayout | lib/crypto.ts:321-324 | the hardening info is the UTF-8 purpose followed by the one config byte |
| Kdf.HardenKeyWithHkdf | lib/crypto.ts:316-328 | hardening succeeds exactly when the key is valid base64 and the hardening salt encodes to some bytes |
| Kdf.HardenKeyIs32Bytes | lib/crypto.ts:316-328 | a hardened key decodes to the 32-byte HKDF of the key under the hardening salt and info |
| Kdf.NormalizeKeyFacts | lib/crypto.ts:173-186 | '' maps to ''; a base64 32-byte key is returned unchanged; any other string becomes a base64 32-byte key |
| Kdf.NormalizeKeyIdempotent | lib/crypto.ts:173-186 | normalising twice is the same as normalising once |
| Kdf.GetPrngMaterialFromKey | lib/crypto.ts:424-436 | succeeds exactly for valid base64 keys under a salt that encodes to some bytes, giving a 32-byte key and a 16-byte counter |
| Kdf.RawRoundTrip | lib/crypto.ts:334-365 | decryptWithRawKey inverts encryptWithRawKey under the same key and associated data |
| Kdf.DataRoundTrip | lib/crypto.ts:230-267 | decryptData inverts encryptData under the same key |
| Kdf.DecryptDataVersusRaw | lib/crypto.ts:249-267 | decryptData opens exactly when decryptWithRawKey would under the decoded key, with the same plaintext; its tag-mismatch text ("…wrong key or tampered data.") differs from decryptWithRawKey's ("…, or replay attack.", lib/crypto.ts:363) |
| Kdf.EncryptDataFails | lib/crypto.ts:230-247 | encryptData fails exactly when the key is not base64 of an AES key length; its output is IV ‖ sealed data |
| Prng.IncrementedValue | lib/crypto.ts:390-399 | the counter increment is big-endian +1 mod 2^(8·len), keeping the length |
| Prng.CryptoPrng.constructor | lib/crypto.ts:377-382 | a new PRNG holds the key and counter given, an empty buffer and position 0 |
| Prng.CryptoPrng.IncrementCounter | lib/crypto.ts:390-399 | the counter array becomes the big-endian increment of its old contents |
| Prng.CryptoPrng.GenerateMoreBytes | lib/crypto.ts:401-411 | a refill replaces the buffer with the next keystream block, resets the position to 0 and increments the counter once |
| Prng.CryptoPrng.Next | lib/crypto.ts:413-420 | next returns the next u32 of the keyed draw sequence, consumes 4 bytes, and refills only when fewer than 4 remain |
| Prng.DrawAtBound | lib/crypto.ts:413-420 | every draw is below 2^32 |
| Prng.ScaleBound | lib/crypto.ts:445 | the scaled draw ⌊u·m/2^32⌋ is below m |
| Prng.KeyedShufflePermutes | lib/crypto.ts:444-447 | the keyed shuffle permutes its input |
| Prng.ShuffleInPlace | lib/crypto.ts:444-447 | the in-place loop leaves the keyed shuffle of the old array and consumes n−1 draws |
| Prng.ForwardIsPermutation | lib/crypto.ts:438-455 | the forward map is a permutation of 0..n-1 |
| Prng.GeneratePermutationMap | lib/crypto.ts:438-455 | forward is the keyed shuffle of the identity, a permutation of 0..size-1, and inverse[forward[i]] == i |
| Prng.ScatterArray | lib/crypto.ts:464-467 | the loop places x[i] at position g[i] of a new array |
| Prng.ApplyBlockPermutation | lib/crypto.ts:457-469 | length-preserving; empty data passes through; otherwise block i moves to forward[i] |
| Prng.ReverseBlockPermutation | lib/crypto.ts:471-483 | length-preserving; empty data passes through; otherwise block i moves to inverse[i] |
| Prng.PermutationRoundTrip | lib/crypto.ts:457-483 | reversing under the same key restores the data |
| Armor.Armored | lib/crypto.ts:641-648 | the armored file is the PNG, then the payload, then the marker, at those offsets |
| Armor.CreateArmoredPng | lib/crypto.ts:641-648 | the method builds exactly that layout |
| Armor.ExtractFromArmoredPng | lib/crypto.ts:650-666 | null exactly when the marker or IEND is missing; otherwise the bytes from 8 after the first IEND up to the first marker |
| Armor.PngIend | lib/crypto.ts:17 | the 70-byte PNG has its IEND type at offset 62 and no earlier "IE" |
| Armor.FirstIend | lib/crypto.ts:656-659 | in any armored file the first IEND is the carrier's, at offset 62 |
| Armor.FirstMarker | lib/crypto.ts:652 | when the payload lacks the marker, the first marker is the one appended |
| Armor.ArmorRoundTrip | lib/crypto.ts:641-666 | extracting an armored payload that lacks the marker gives it back |
| Armor.ArmorTruncates | lib/crypto.ts:641-666 | a payload containing the marker comes back cut at its first occurrence |
| TextStego.ConfigDistinct | lib/steganography.ts:8-42 | the key's zero, one and end characters are pairwise distinct and from the pool |
| TextStego.GetStegoConfig | lib/steganography.ts:22-42 | the shuffle loop yields the configuration the key determines |
| TextStego.HiddenChars | lib/steganography.ts:53-55 | one symbol per bit (one for 1, zero for 0), then the end marker |
| TextStego.InsertionPoints | lib/steganography.ts:69-79 | the points are m distinct carrier positions in strictly descending order |
| TextStego.WovenInsert | lib/steganography.ts:82-85 | inserting the last symbol at the first point and weaving the rest equals weaving all |
| TextStego.WovenKeep | lib/steganography.ts:82-85 | keeping only the hidden symbols of a carrier free of them gives the hidden sequence, in order |
| TextStego.WovenDrop | lib/steganography.ts:82-85 | deleting the hidden symbols gives back the carrier's own non-symbol characters |
| TextStego.SpliceAll | lib/steganography.ts:82-85 | the splice loop weaves the symbols in at the points |
| TextStego.Embed | lib/steganography.ts:51-88 | the method returns what embed specifies |
| TextStego.EmbedFailure | lib/steganography.ts:60-67 | embed fails exactly when 8n+1 > \|carrier\|+1 (with the too-short error) or the key is not base64 |
| TextStego.EmbedLength | lib/steganography.ts:51-88 | the output has \|carrier\| + 8n + 1 characters |
| TextStego.EmbedWoven | lib/steganography.ts:66-85 | the output is the carrier with the hidden symbols woven in at the keyed points |
| TextStego.EmbedKeepsCarrier | lib/steganography.ts:69-87 | deleting the key's symbols from the output gives the carrier with them deleted, and the carrier itself when it held none |
| TextStego.EmbedSymbolOrder | lib/steganography.ts:78-85 | the output's symbols are the data bits in order, then the end marker |
| TextStego.Extract | lib/steganography.ts:97-124 | the scan loop returns what extract specifies |
| TextStego.ScanSkipsOthers | lib/steganography.ts:102-112 | the scan ignores every character that is not one of the three symbols |
| TextStego.ScanHidden | lib/steganography.ts:102-116 | scanning the hidden symbols reads back the bits and finds the end marker |
| TextStego.StegoRoundTrip | lib/steganography.ts:51-124 | extract(embed(c,d,k),k) == d for non-empty d when c holds none of the key's symbols |
| TextStego.StegoEmptyData | lib/steganography.ts:114-116 | embedding empty data extracts as null |
| ImageStego.RgbOffsetsFacts | lib/imageSteganography.ts:28-33 | the index list is exactly the offsets 4i, 4i+1, 4i+2, each once |
| ImageStego.BuildIndices | lib/imageSteganography.ts:28-33 | the loop fills the array with those offsets |
| ImageStego.SlotsFacts | lib/imageSteganography.ts:28-39 | the shuffled slots are distinct and are exactly the R/G/B offsets, never alpha |
| ImageStego.SetLsb | lib/imageSteganography.ts:42-58 | the new byte has the given LSB and the old byte's upper seven bits |
| ImageStego.HeaderReadsBack | lib/imageSteganography.ts:42-93 | the 32 header bits read back as the bit count |
| ImageStego.EmbedEntropic | lib/imageSteganography.ts:9-62 | on failure the pixels are unchanged and the error is the specified one; on success they are the specified embedding |
| ImageStego.WriteAll | lib/imageSteganography.ts:41-58 | the three write loops leave header, data and noise in the shuffled slots |
| ImageStego.WriteMessage | lib/imageSteganography.ts:42-51 | the header and data loops write the first 32 + n slots of the stream |
| ImageStego.WriteBits | lib/imageSteganography.ts:42-51 | writing a run of bits extends the written prefix by that run |
| ImageStego.FillNoise | lib/imageSteganography.ts:54-58 | the noise loop fills every remaining slot with PRNG noise bits |
| ImageStego.StreamLayout | lib/imageSteganography.ts:41-58 | the slot stream is the header, then the data bits, then noise from the draws after the shuffle |
| ImageStego.WrittenLsbs | lib/imageSteganography.ts:41-58 | after writing, the LSB at every slot is the stream bit for that slot |
| ImageStego.EmbedOnlyLsbs | lib/imageSteganography.ts:42-58 | embedding changes no byte above its LSB and leaves every alpha byte unchanged |
| ImageStego.EmbedLayout | lib/imageSteganography.ts:41-58 | slots 0–31 carry the header, the next n the data and all the rest noise |
| ImageStego.EmbedFailure | lib/imageSteganography.ts:15-25 | embedding fails exactly when 32 + n > 3·pixels (with that message) or the key is not base64 |
| ImageStego.ExtractEntropic | lib/imageSteganography.ts:67-106 | the method returns what extraction specifies |
| ImageStego.ReadPayload | lib/imageSteganography.ts:88-105 | header, guard and data reads give the specified result |
| ImageStego.SeededRoundTrip | lib/imageSteganography.ts:24-105 | with the same seed, extraction reads back the embedded data |
| ImageStego.PayloadLayoutReadsBack | lib/imageSteganography.ts:88-105 | a buffer carrying a payload's header and bits along the slots extracts to that payload |
| ImageStego.ReadsBackLayout | lib/imageSteganography.ts:88-105 | a header reading n within capacity, followed by n bits that decode to the data, extracts to the data |
| ImageStego.ImageRoundTrip | lib/imageSteganography.ts:9-106 | extractEntropic(embedEntropic(px,d,k),k) == d on the raw array |
| ImageStego.EmbedDataInImage | lib/imageSteganography.ts:135-141 | as embedEntropic, with the key check and bit conversion in front |
| ImageStego.ExtractDataFromImage | lib/imageSteganography.ts:143-148 | as extractEntropic, with the key check in front |
| ImageStego.DataRoundTrip | lib/imageSteganography.ts:135-148 | extracting what was embedded under the same key gives the data back |
| Encoder.CompressionChoice | hooks/useEncoder.ts:160-174 | c = 1 exactly when compression is on and deflate is strictly shorter; the kept data is never longer and restores to the file |
| Encoder.PreparePayload | hooks/useEncoder.ts:157-185 | the method builds the prepared payload |
| Encoder.PreparedLayout | hooks/useEncoder.ts:170-182 | the payload is u16 BE metadata length ‖ metadata ‖ data, of length 2 + m + \|data\| |
| Encoder.ConfigByte | hooks/useEncoder.ts:204-206 | bit 0 is block permutation, bit 1 is PQ hybrid, and nothing else is set |
| Encoder.DeriveFinalKey | hooks/useEncoder.ts:200-215 | the method derives the specified final key |
| Encoder.FinalKeyFacts | hooks/useEncoder.ts:200-215 | key derivation never fails; an empty key stays empty; without PQ a set key becomes a base64 32-byte key |
| Encoder.LayerPayload | hooks/useEncoder.ts:217-225 | Omega encrypts first (only when set), then Alpha, then the optional permutation |
| Encoder.VeilTwice | hooks/useEncoder.ts:227-236 | the veil keeps the length, and veiling twice with the same key restores the blob |
| Encoder.StaticDecoyTexts | hooks/useEncoder.ts:242-274 | the decoy count is 3/1/0 by level, a sub-multiset of the static texts |
| Encoder.RandomDecoyKey | hooks/useEncoder.ts:291-298 | a random decoy key is base64 of 32 bytes |
| Encoder.Seal | lib/crypto.ts:230-247 | sealing under a valid 32-byte key is encryptData's success value |
| Encoder.BuildDecoys | hooks/useEncoder.ts:242-302 | no decoys at the minimal level; otherwise the pick is in range, the tar pit exists only at hardened level and lies within the remaining decoys |
| Encoder.SealRandomDecoys | hooks/useEncoder.ts:289-301 | the loop seals each remaining decoy under its random key |
| Encoder.RandomDecoysOpen | hooks/useEncoder.ts:289-301 | each ordinary decoy opens under its own random key to its text |
| Encoder.DecoyContents | hooks/useEncoder.ts:279-301 | one blob per text; with a Decoy key the first opens under it and is removed from the rest; the others open under their keys |
| Encoder.BinaryPayloadSize | hooks/useEncoder.ts:310-311 | the binary payload is 1 + 48 + 1 + 4·count + Σ\|blob\| bytes |
| Encoder.SerializeBinary | hooks/useEncoder.ts:309-329 | the method writes 0xBD, the veil key, the count, the sizes and the blobs |
| Encoder.TotalSize | hooks/useEncoder.ts:310 | the sum of the blob lengths |
| Encoder.WriteHeader | hooks/useEncoder.ts:316-318 | the magic byte, the veil key and the count as one byte |
| Encoder.WriteSizes | hooks/useEncoder.ts:320-323 | the size table, each length as u32 BE |
| Encoder.WriteBlobs | hooks/useEncoder.ts:324-327 | the blobs, concatenated in order |
| Encoder.HandleEncrypt | hooks/useEncoder.ts:187-339 | the no-payload error; success exactly when the real blob seals; then one decoy per text (none at the minimal level), the decoys those the decoy step makes for some pick and tar pit, and the blobs a permutation of the real blob and the decoys, serialised |
| Encoder.SealReal | hooks/useEncoder.ts:197-236 | the real blob: final keys, layers, then the veil |
| Encoder.Package | hooks/useEncoder.ts:242-339 | one decoy per text (none at the minimal level), the decoys those the decoy step makes for some pick and tar pit, the shuffled blobs a permutation of real and decoys, and the serialisation |
| Decoder.DecodedInputCarrier | hooks/useDecoder.ts:78-86 | text with hidden data decodes to that data; otherwise the pasted text must be base64 |
| Decoder.ReadSizes | hooks/useDecoder.ts:99-102 | reading count sizes fails with the range error only when they overrun, and otherwise gives count sizes |
| Decoder.ParseBinary | hooks/useDecoder.ts:91-107 | the method parses the binary layout as specified |
| Decoder.ReadBlobSizes | hooks/useDecoder.ts:98-102 | the size loop reads the specified sizes |
| Decoder.SliceAll | hooks/useDecoder.ts:103-107 | the slice loop cuts the specified blobs |
| Decoder.ReadSizeTable | hooks/useDecoder.ts:98-102 | reading an encoded size table gives back the blob lengths |
| Decoder.SliceFlattened | hooks/useDecoder.ts:103-107 | slicing concatenated blobs by their lengths gives back the blobs |
| Decoder.BinaryRoundTrip | hooks/useDecoder.ts:91-107 | the parser inverts the encoder's binary layout for count ≤ 255 |
| Decoder.SplitJoin | hooks/useDecoder.ts:115 | splitting a '\|'-join of bar-free parts gives the parts back |
| Decoder.LegacyRoundTrip | hooks/useDecoder.ts:108-119 | the legacy JSON parser inverts the encoder's JSON form |
| Decoder.MetadataRoundTrip | hooks/useDecoder.ts:162-173 | parsing a prepared payload gives back the file's name, type and bytes |
| Decoder.ParseMetadataErrors | hooks/useDecoder.ts:162-173 | the too-small and corrupt-length errors happen exactly at their conditions; success needs f and t and returns the restored remainder |
| Decoder.AnalyseBlob | hooks/useDecoder.ts:146-203 | the method classifies a blob as specified |
| Decoder.Utf16Length | hooks/useDecoder.ts:194 | the JavaScript length lies between the character count and twice it, and equals the count exactly when no character is beyond U+FFFF |
| Decoder.LastRealFileFacts | hooks/useDecoder.ts:179-180 | there is no shown file exactly when no entry is REAL; otherwise it is a REAL entry's file |
| Decoder.ClassifyBlobs | hooks/useDecoder.ts:146-208 | one entry per blob, the shown file is the last REAL one by index, and the found flag is set exactly when some entry is REAL |
| Decoder.DecodeInput | hooks/useDecoder.ts:78-86 | the method decodes the pasted input as specified |
| Decoder.ParsePayload | hooks/useDecoder.ts:91-119 | the method detects the format and parses as specified |
| Decoder.DeriveBlobKeys | hooks/useDecoder.ts:129-144 | the method derives the same final keys as the encoder |
| Decoder.HandleDecode | hooks/useDecoder.ts:63-216 | the method returns the specified decoherence result |
| Decoder.ParsedPayloadErrors | hooks/useDecoder.ts:91-119 | a parse error is the range error on the binary path and the legacy error otherwise |
| Decoder.ReportHasNoReal | hooks/useDecoder.ts:146-210 | no file is shown exactly when no blob classifies as REAL |
| Decoder.DecodeBytesReport | hooks/useDecoder.ts:146-210 | a successful decode has one entry per blob with id = index and the shown file from a REAL entry |
| Decoder.DecoherenceFailure | hooks/useDecoder.ts:121-210 | decoding fails with DECOHERENCE FAILED exactly when parsing succeeds, the veil key is 48 bytes, and no blob is REAL |
| Decoder.HandleDecodeArkImage | hooks/useDecoder.ts:222-276 | the method extracts, opens under the ARK key and parses the metadata as specified; a wrong ARK key or a tampered ciphertext shows decryptData's own "…wrong key or tampered data." text, as the catch passes `error.message` on; a payload that authenticates but does not inflate shows the catch's fallback "ARK decoherence failed. …" text, because pako throws a string rather than an `Error` |
| RoundTrip.LayerRoundTrip | hooks/useDecoder.ts:155-160 | un-layering with the same keys inverts the encoder's layering |
| RoundTrip.RealBlobClassifies | hooks/useDecoder.ts:146-181 | without PQ, the encoder's real blob classifies as REAL with the prepared file |
| RoundTrip.SerializedParses | hooks/useDecoder.ts:91-119 | either serialisation parses back to the veil key and blobs |
| RoundTrip.UnifiedPayloadRoundTrip | hooks/useDecoder.ts:63-210 | without PQ, decoding the encoder's output succeeds, with one entry per blob and the real entry holding the original file |
| RoundTrip.StegoCarrierDecodes | hooks/useDecoder.ts:78-86 | decoding a carrier with an embedded payload is decoding the payload itself |
| RoundTrip.VeilFixed | hooks/useDecoder.ts:149-152 | de-veiling leaves a blob unchanged exactly when the keystream is zero over it |
| RoundTrip.UnveiledDecoyPath | hooks/useDecoder.ts:186-200 | an unveiled decoy opens under the Decoy key to its text when that text is plausible; the de-veiled blob the decoder tries equals the decoy exactly when the keystream is zero over it |
| RoundTrip.ArkRoundTrip | hooks/useDecoder.ts:222-259 | decoding an ARK image made from a prepared file gives the file back |
| Ratchet.KdfRk | hooks/useChannel.ts:91-98 | fails with the empty-HMAC-key error exactly on an empty root key; otherwise the root and chain keys are the two 32-byte halves of the 64-byte HKDF output |
| Ratchet.KdfCk | hooks/useChannel.ts:100-104 | fails with the empty-HMAC-key error exactly when the salt is empty, as the code's always is; otherwise the message key and the next chain key are 32-byte HKDF outputs under distinct labels |
| Ratchet.SkippedKeys.constructor | hooks/useChannel.ts:25 | the cache starts empty |
| Ratchet.InitialState | hooks/useChannel.ts:21-26 | all keys null, all counters 0, the shared cache |
| Ratchet.RatchetEncrypt | hooks/useChannel.ts:252-261 | fails exactly without CKs or DHRs (not-ready error) or under an empty chain salt (the HMAC error); otherwise only CKs advances and Ns becomes Ns+1, and the ciphertext uses the message key |
| Ratchet.Stepped | hooks/useChannel.ts:279-296 | a DH step keeps the cache and leaves a state ready to receive |
| Ratchet.SkipTo | hooks/useChannel.ts:298-312 | fails exactly when keys must be skipped under an empty chain salt, storing nothing; otherwise only CKr and Nr change, Nr ending at n |
| Ratchet.RatchetDecrypt | hooks/useChannel.ts:263-326 | the result and the cache's new entries are those specified |
| Ratchet.CacheHit | hooks/useChannel.ts:268-277 | on a cache hit: decrypt with the cached key, delete that entry only on success, change nothing else |
| Ratchet.DhStep | hooks/useChannel.ts:279-296 | PNs := Ns, Ns := Nr := 0, DHP := header key, RK advances twice, CKr and CKs replaced, fresh DHRs |
| Ratchet.NoDhStep | hooks/useChannel.ts:281 | the same header key means no DH step |
| Ratchet.SkipChain | hooks/useChannel.ts:299-312 | under a non-empty chain salt, CKr has advanced n − Nr times after skipping |
| Ratchet.SkipStores | hooks/useChannel.ts:299-312 | under a non-empty chain salt, each skipped i in [Nr, n) is stored under (DHP, i) with its message key |
| Ratchet.SkipKeeps | hooks/useChannel.ts:299-312 | other cached entries are kept |
| Ratchet.SkipAddsOnly | hooks/useChannel.ts:299-312 | every entry afterwards was there before or is a skipped (DHP, i) |
| Ratchet.FailedDecryptKeepsSkippedKeys | hooks/useChannel.ts:263-312 | under a non-empty chain salt, when a future message fails to decrypt, the skipped keys stay in the shared cache |
| Ratchet.DecryptedReady | hooks/useChannel.ts:263-326 | a successful decrypt leaves a ready state with the same cache |
| Ratchet.ReplayRefused | hooks/useChannel.ts:315-325 | an n below Nr with no cache entry is the logic error, with the cache unchanged |
| Ratchet.InOrderDelivery | hooks/useChannel.ts:252-326 | under a non-empty chain salt, the next message from a synced sender decrypts to its plaintext and leaves both sides synced |
| Ratchet.DeliveredRun | hooks/useChannel.ts:252-326 | under a non-empty chain salt, a run of in-order messages all decrypt, in order, and the receiver's CKs never changes |
| Ratchet.CodeDecryptsOnlyCached | hooks/useChannel.ts:263-326 | under the code's empty chain salt a decrypt succeeds only on a cache hit, deleting that entry; a failure leaves the cache as it was; a header with no cached key always fails |
| Ratchet.SkipTwo | hooks/useChannel.ts:299-312 | skipping two messages stores the first two message keys and leaves the chain two steps on |
| Ratchet.SkipTwoThenDecrypt | hooks/useChannel.ts:263-326 | a message two ahead decrypts under the third key after the first two keys are cached |
| Ratchet.CachedDelivery | hooks/useChannel.ts:268-277 | a message whose key is cached decrypts from the cache, which loses that entry |
| Ratchet.CachedPairDelivery | hooks/useChannel.ts:268-277 | the two cached messages decrypt in order, leaving the cache as it was before the skip |
| Ratchet.ThirdArrivesFirst | hooks/useChannel.ts:252-326 | of three messages sent in a row, the third arriving first decrypts and caches the keys of the first two |
| Ratchet.SkippedArriveLater | hooks/useChannel.ts:252-326 | the first two of those messages then decrypt from the cache, which ends as it began |
| Ratchet.OutOfOrderDelivery | hooks/useChannel.ts:252-326 | under a non-empty chain salt, messages 0, 1, 2 delivered as 2, 0, 1 all decrypt, the cache ends as it began and both sides end synced |
| Channel.PakeKey | lib/crypto.ts:271-279 | fails with Argon2's salt-too-short error exactly when the channel id is under 8 UTF-8 bytes; otherwise the key is 32 bytes, a valid AES key |
| Channel.Initiation | hooks/useChannel.ts:108-144 | fails exactly when the handshake or duress key is empty (the missing-keys error) or the channel id is too short a salt (the catch's fallback text) |
| Channel.Responded | hooks/useChannel.ts:146-209 | succeeds exactly when the real part opens (then SECURE) or else the duress part opens (then DURESS); then CKr set, CKs null, RK/CKr from the zero root key |
| Channel.Completed | hooks/useChannel.ts:211-249 | succeeds exactly when the responder's part opens; then CKs set, CKr null, RK/CKs from the zero root key |
| Channel.OpenedSealed | lib/crypto.ts:271-365 | a part sealed under a password's key opens under the same password |
| Channel.HandshakeAgreement | hooks/useChannel.ts:108-249 | with the right keys the responder is SECURE and both sides end synced |
| Channel.DuressFallback | hooks/useChannel.ts:168-180 | when the real part fails, a duress part sealed under the duress key gives DURESS with the dummy key |
| Channel.ResponderCannotSend | hooks/useChannel.ts:193-261 | for any chain salt that lets the initiator send, the responder cannot send after the handshake, nor after receiving any run from the initiator |
| Channel.Accepted | hooks/useChannel.ts:376-383 | a received message is accepted exactly when it decrypts and has content and a timestamp |
| Channel.SecureMessageArrives | hooks/useChannel.ts:345-384 | under a non-empty chain salt, a SECURE message arrives with its content and timestamp, leaving both sides synced |
| Channel.HandshakeThenNothingArrives | hooks/useChannel.ts:100-326 | after a successful handshake, the initiator's send fails with the empty-HMAC-key error and the responder decrypts nothing it has not cached, its cache unchanged |
| Channel.ShortChannelIdRefused | hooks/useChannel.ts:108-249 | a channel id under 8 UTF-8 bytes makes the initiation fail with the fallback text, the response fail as if both keys were wrong, and the completion fail |
| Channel.Cleared | hooks/useChannel.ts:61-76 | the reset state: no root key, the shared cache, UNINITIALIZED, no messages |
| Channel.Channel.constructor | hooks/useChannel.ts:40-76 | a new channel is in the reset state |
| Channel.Channel.ResetChannelState | hooks/useChannel.ts:61-76 | reset returns to the cleared state with the shared cache |
| Channel.Channel.InitiateHandshake | hooks/useChannel.ts:108-144 | the missing-keys error leaves the rest; an Argon2 failure sets only the fallback error; otherwise stores the ephemeral key and payload and stage initiated |
| Channel.Channel.RespondToHandshake | hooks/useChannel.ts:146-209 | the missing-payload error; a failure resets; success sets mode, state, responder payload and stage complete |
| Channel.Channel.Establish | hooks/useChannel.ts:183-202 | the tail of the response: failure resets, success installs the state and the responder payload |
| Channel.Channel.CompleteHandshake | hooks/useChannel.ts:211-249 | the missing-payload and lost-state errors; failure resets; success installs the sending state and SECURE |
| Channel.Channel.SendMessage | hooks/useChannel.ts:328-361 | no-op without a message or root key; in DURESS a pool message is encrypted and not shown; an encryption error, which the code's empty chain salt always gives, only sets the error |
| Channel.Channel.ReceiveMessage | hooks/useChannel.ts:363-392 | no-op without input or root key; DURESS shows a pool message and keeps the ratchet; SECURE decrypts, updating the shared cache even on failure |

## Left out

- Browser and library cryptography (AES-GCM, AES-CTR, HMAC-SHA-256, SHA-256, ECDH P-256, Argon2id, base64, UTF-8, random bytes) and JSON: function fields of `Oracles`, constrained only by the soundness predicates, because their internals are foreign code.
- pako deflate/inflate: an abstract function pair with inflate inverting deflate, because it is a foreign library.
- Canvas plumbing (`processImage`, `sanitizeImage`, `readFileAsBytes`, `toDataURL`/`putImageData`): I/O; the image model works on the decoded RGBA byte array, so alpha premultiplication is not captured.
- `generateImageFingerprint` and `deriveAcousticResonanceKey`: the fingerprint is floating-point statistics; the ARK key is an input of the ARK path.
- `getHybridKey`: it draws a fresh random secret on each call, so it is a parameter `hybrid`, and no round trip is claimed with PQ on.
- The vault (`encryptVault`/`decryptVault`), `deriveKeysFromMasterPBKDF`, `getOperationalKeys`, `lib/ai.ts` (AI decoy and carrier texts), all React views and components, `useAppState`, clipboard handling, and `getShortHash` blob hashes in the report: outside the modelled core.
- The AI decoy branch of `handleEncrypt`: decoy texts are a parameter; only the static-text selection is a member.
- `Promise.all` in the decoder: the blob attempts run concurrently, and each REAL attempt sets the shown file as it finishes (hooks/useDecoder.ts:178), so the code shows the REAL blob whose attempt finishes last. The model runs the attempts in index order and shows the last REAL blob by index. The report itself is in index order either way.
- `Promise.all` in the handshake: the two key derivations, and the two seals, are independent, so they are modelled one after the other.
- Random values, the clock and message ids: parameters of the operations that use them.
- Parsing of channel payloads (JSON, base64, key import) and of the pasted code's trimmed whitespace: the parsed result is a parameter, and each parse failure is a single stand-in error message.
- `isProcessing`, `isEncoding`/`isDecoding`, object URLs and the `hasPrimaryEncryptKey`/`hasPrimaryDecryptKey` checks: UI flags, outside the model.
- The error shown after a failed handshake response or completion: the code sets it and then resets the state; the model keeps only the reset state.
- ByteUtil.BinaryStringToBytes: takes a sequence of bits, so `parseInt` on characters other than '0'/'1' is not modelled; every caller builds '0'/'1' strings only.
- ByteUtil.SecureRandom: requires max ≥ 1, since `secureRandom(0)` returns NaN and no caller passes 0.
- Prng.CryptoPrng.Next: the draw is a u32 scaled as ⌊u·m/2^32⌋ in exact integer arithmetic, where the code floors the float product `(u/2^32)·m`; floating-point rounding of that product is not modelled. The overlap of successive 1024-byte buffers (the counter advances by 1, not 64, per refill) is invisible once draws are a function of the refill index.
- TextStego.Embed: lengths and insertion points count characters, where `split('')` counts UTF-16 code units (lib/steganography.ts:57-70). For a carrier with characters beyond U+FFFF the capacity and points differ, and an insertion between the two halves of a surrogate pair is not modelled.
- TextStego.EmbedFailure: the capacity test compares character counts, not UTF-16 code units, for the reason given for TextStego.Embed.
- TextStego.EmbedLength: the output length is in characters, not UTF-16 code units, for the reason given for TextStego.Embed.
- TextStego.EmbedWoven: the insertion points index characters, not UTF-16 code units, for the reason given for TextStego.Embed.
- Ratchet.SkipChain: stated for a non-empty chain salt, because with the code's empty salt the first chain step fails (Ratchet.SkipTo).
- Ratchet.SkipStores: stated for a non-empty chain salt, for the reason given for Ratchet.SkipChain.
- Ratchet.FailedDecryptKeepsSkippedKeys: stated for a non-empty chain salt; with the code's empty salt nothing is ever skipped into the cache (Ratchet.CodeDecryptsOnlyCached).
- Ratchet.InOrderDelivery: stated for a non-empty chain salt, the chain the code evidently intends; with its empty salt no message is ever sent (Channel.HandshakeThenNothingArrives).
- Ratchet.DeliveredRun: stated for a non-empty chain salt, for the reason given for Ratchet.InOrderDelivery.
- Ratchet.OutOfOrderDelivery: stated for a non-empty chain salt, for the reason given for Ratchet.InOrderDelivery. With the code's salt, messages 0, 1, 2 are never produced, so none of them arrives in any order.
- Channel.SecureMessageArrives: stated for a non-empty chain salt, for the reason given for Ratchet.InOrderDelivery.
- Channel.ResponderCannotSend: stated for a non-empty chain salt; with the code's empty salt no party sends at all.
- Channel.OpenedSealed: assumes a channel id of at least 8 UTF-8 bytes; a shorter one fails (Channel.ShortChannelIdRefused).
- Channel.HandshakeAgreement: assumes a channel id of at least 8 UTF-8 bytes, for the reason given for Channel.OpenedSealed.
- Channel.DuressFallback: assumes a channel id of at least 8 UTF-8 bytes, for the reason given for Channel.OpenedSealed.
- Channel.Channel.ReceiveMessage: the decrypted payload is read only for `content` and `timestamp`; any other field it carries (`sender`, `id`, `stagedPayload`) is dropped, where the spread `...decryptedPayload` (hooks/useChannel.ts:384) would let it override the shown message's defaults. An honest sender's payload holds only `{content, timestamp}` (hooks/useChannel.ts:338, 345), so the difference shows only for a payload crafted by the peer.
- ImageStego.EmbedEntropic: the pixel indices are a `Uint32Array` and the length header is `n.toString(2).padStart(32, '0')` read through its first 32 characters (lib/imageSteganography.ts:17, 28-33, 41-45); the model uses unbounded offsets and writes n mod 2^32. The two differ only for more than 2^30 pixels or 2^32 payload bits, which no canvas holds.
- ImageStego.BuildIndices: stores unbounded offsets, where the `Uint32Array` wraps them mod 2^32, for the reason given for ImageStego.EmbedEntropic.
- ImageStego.HeaderBits: writes n mod 2^32, where the source writes the top 32 binary digits of an n of 2^32 or more, for the reason given for ImageStego.EmbedEntropic.
- Channel.PakeKey: the error argon2-browser rejects with is modelled as a plain object whose message is "Salt is too short"; Argon2's other limits (password and memory sizes) are not reached by the fixed parameters and are not modelled.

## Findings

| source | as written | input that shows it | evidently intended | confidence | as-written member | corrected member |
|---|---|---|---|---|---|---|
| hooks/useChannel.ts:100-104 | `kdf_ck` salts HKDF with `new Uint8Array()`, and HKDF imports the salt as an HMAC key, which Web Crypto refuses when empty | any completed handshake followed by a send: the first chain step throws, so the message is never encrypted | every message under its own key from a working symmetric chain (components/WikiModal.tsx:142) | not executed; the refusal of an empty HMAC key is Web Crypto's documented behaviour | Channel.HandshakeThenNothingArrives | Ratchet.InOrderDelivery |
