/**
 * Entropic Dispersal image steganography. The least significant bits of the
 * red, green and blue bytes of an RGBA pixel buffer are visited in a keyed
 * order: the first 32 carry the bit length of the payload, the next ones the
 * payload bits, and every remaining one is overwritten with keyed noise.
 * Alpha bytes are never touched.
 */
module ImageStego {
  import opened Wrappers
  import opened Primitives
  import opened ByteUtil
  import opened Permutations
  import opened Kdf
  import opened Prng

  const LENGTH_HEADER_SIZE: nat := 32
  const ENTROPIC_SALT: string := "entropic-dispersal-stego-salt"
  const EMBED_KEY_REQUIRED: string := "A key is required for Entropic Dispersal steganography."
  const EXTRACT_KEY_REQUIRED: string := "A key is required to extract from Entropic Dispersal steganography."

  /** Three usable channels per pixel. */
  function Capacity(numPixels: nat): nat {
    3 * numPixels
  }

  /** A number written in decimal, as a template literal prints it. */
  function Decimal(n: nat): (r: string)
    ensures |r| >= 1
  {
    var digit := (('0' as int) + n % 10) as char;
    if n < 10 then [digit] else Decimal(n / 10) + [digit]
  }

  function TooLarge(capacity: nat, total: nat): string {
    "Payload too large for Entropic Dispersal. Max bits: " + Decimal(capacity) + ", required: " + Decimal(total)
  }

  lemma Pow2Add(a: nat, b: nat)
    ensures Pow2(a + b) == Pow2(a) * Pow2(b)
  {
    if a > 0 {
      Pow2Add(a - 1, b);
    }
  }

  lemma Pow2Of32()
    ensures Pow2(32) == TWO_POW_32
  {
    Pow2Of8();
    Pow2Add(8, 8);
    Pow2Add(16, 16);
  }

  // ------------------------------------------------------------ channels

  /** The byte offsets of the R, G and B channels, pixel by pixel. */
  function RgbOffsets(numPixels: nat): seq<nat> {
    seq(3 * numPixels, t => 4 * (t / 3) + t % 3)
  }

  /** The offsets are distinct, and they are exactly the non-alpha bytes of the buffer. */
  lemma RgbOffsetsFacts(numPixels: nat)
    ensures |RgbOffsets(numPixels)| == Capacity(numPixels)
    ensures NoDup(RgbOffsets(numPixels))
    ensures forall p: nat :: p in RgbOffsets(numPixels) <==> p < 4 * numPixels && p % 4 != 3
  {
    var r := RgbOffsets(numPixels);
    forall a, b | 0 <= a < b < |r| ensures r[a] != r[b] {
      ModUnique(r[a], 4, a / 3, a % 3);
      ModUnique(r[b], 4, b / 3, b % 3);
      assert a == 3 * (a / 3) + a % 3 && b == 3 * (b / 3) + b % 3;
    }
    forall p: nat ensures p in r <==> p < 4 * numPixels && p % 4 != 3 {
      if p in r {
        var t :| 0 <= t < |r| && r[t] == p;
        ModUnique(p, 4, t / 3, t % 3);
      }
      if p < 4 * numPixels && p % 4 != 3 {
        var t := 3 * (p / 4) + p % 4;
        ModUnique(t, 3, p / 4, p % 4);
        assert r[t] == p;
      }
    }
  }

  /** The index list of the pixel loop. */
  method BuildIndices(numPixels: nat) returns (indices: array<nat>)
    ensures fresh(indices)
    ensures indices[..] == RgbOffsets(numPixels)
  {
    indices := new nat[numPixels * 3];
    var j := 0;
    for i := 0 to numPixels
      invariant j == 3 * i
      invariant forall t | 0 <= t < j :: indices[t] == 4 * (t / 3) + t % 3
    {
      indices[j] := i * 4;
      indices[j + 1] := i * 4 + 1;
      indices[j + 2] := i * 4 + 2;
      j := j + 3;
    }
  }

  /** The keyed visiting order of the channel bytes: the shuffled offsets. */
  function Slots(o: Oracles, seed: Seed, numPixels: nat): (g: seq<nat>)
    requires CtrSound(o)
    ensures |g| == Capacity(numPixels)
  {
    KeyedShufflePermutes(o, seed, 0, RgbOffsets(numPixels));
    RgbOffsetsFacts(numPixels);
    KeyedShuffle(o, seed, 0, RgbOffsets(numPixels))
  }

  /** Every channel byte is visited exactly once and no alpha byte is visited. */
  lemma SlotsFacts(o: Oracles, seed: Seed, numPixels: nat)
    requires CtrSound(o)
    ensures NoDup(Slots(o, seed, numPixels))
    ensures forall p: nat :: p in Slots(o, seed, numPixels) <==> p < 4 * numPixels && p % 4 != 3
    ensures forall k | 0 <= k < |Slots(o, seed, numPixels)| :: Slots(o, seed, numPixels)[k] < 4 * numPixels
  {
    var r := RgbOffsets(numPixels);
    var g := Slots(o, seed, numPixels);
    KeyedShufflePermutes(o, seed, 0, r);
    RgbOffsetsFacts(numPixels);
    PermutedNoDup(r, g);
    forall p: nat ensures p in g <==> p in r {
      assert p in g <==> p in multiset(g);
      assert p in r <==> p in multiset(r);
    }
    forall k | 0 <= k < |g| ensures g[k] < 4 * numPixels {
      assert g[k] in r;
    }
  }

  // ---------------------------------------------------------------- bits

  function Lsb(b: byte): Bit {
    b as int % 2
  }

  /** `(b & 0xFE) | bit`: the low bit becomes `bit`, the seven others stay. */
  function SetLsb(b: byte, bit: Bit): (r: byte)
    ensures Lsb(r) == bit
    ensures r as int / 2 == b as int / 2
  {
    (b as int - b as int % 2 + bit) as byte
  }

  /** The length header: the bit count in 32 binary digits, most significant first. */
  function HeaderBits(n: nat): (h: seq<Bit>)
    ensures |h| == LENGTH_HEADER_SIZE
  {
    NatBitsLength(n, LENGTH_HEADER_SIZE);
    NatBits(n, LENGTH_HEADER_SIZE)
  }

  /** `Math.floor(next() * 2)` for the PRNG draw number `d`. */
  function NoiseBit(o: Oracles, seed: Seed, d: nat): Bit
    requires CtrSound(o)
  {
    DrawAtBound(o, seed, d);
    ScaleBound(DrawAt(o, seed, d), 2);
    Scale(DrawAt(o, seed, d), 2)
  }

  /**
   * The bit written at each slot: header, payload, then noise drawn right
   * after the draws of the shuffle.
   */
  function Stream(o: Oracles, seed: Seed, numPixels: nat, bits: seq<Bit>): (s: seq<Bit>)
    requires CtrSound(o) && LENGTH_HEADER_SIZE + |bits| <= Capacity(numPixels)
    ensures |s| == Capacity(numPixels)
  {
    var cap := Capacity(numPixels);
    var total := LENGTH_HEADER_SIZE + |bits|;
    HeaderBits(|bits|) + bits + Noise(o, seed, ShuffleDraws(cap), cap - total)
  }

  /** `m` noise bits from the draws numbered `from` on. */
  function Noise(o: Oracles, seed: Seed, from: nat, m: nat): (s: seq<Bit>)
    requires CtrSound(o)
    ensures |s| == m
  {
    seq<Bit>(m, k requires 0 <= k => NoiseBit(o, seed, from + k))
  }

  /**
   * The buffer once the slots before `t` have had their low bit set to the
   * matching bit of `stream`.
   */
  function Written(orig: seq<byte>, g: seq<nat>, stream: seq<Bit>, t: nat): (w: seq<byte>)
    requires t <= |g| <= |stream|
    ensures |w| == |orig|
  {
    seq(|orig|, p requires 0 <= p < |orig| =>
      if p in g && IndexOf(g, p) < t then SetLsb(orig[p], stream[IndexOf(g, p)]) else orig[p])
  }

  lemma WrittenStep(orig: seq<byte>, g: seq<nat>, stream: seq<Bit>, t: nat)
    requires NoDup(g) && t < |g| <= |stream| && g[t] < |orig|
    ensures Written(orig, g, stream, t + 1) == Written(orig, g, stream, t)[g[t] := SetLsb(orig[g[t]], stream[t])]
  {
    var before, after := Written(orig, g, stream, t), Written(orig, g, stream, t + 1);
    forall p | 0 <= p < |orig|
      ensures after[p] == before[g[t] := SetLsb(orig[g[t]], stream[t])][p]
    {
      if p in g {
        var k := IndexOf(g, p);
        if p == g[t] {
          assert k == t;
        } else {
          assert k != t;
        }
      }
    }
  }

  lemma WrittenNone(orig: seq<byte>, g: seq<nat>, stream: seq<Bit>)
    requires |g| <= |stream|
    ensures Written(orig, g, stream, 0) == orig
  {
  }

  /** What writing every slot does to one byte. */
  lemma WrittenAll(orig: seq<byte>, g: seq<nat>, stream: seq<Bit>, k: nat)
    requires NoDup(g) && |g| <= |stream| && k < |g| && g[k] < |orig|
    ensures Written(orig, g, stream, |g|)[g[k]] == SetLsb(orig[g[k]], stream[k])
  {
    assert IndexOf(g, g[k]) == k;
  }

  /** The low bits of the bytes at slots `from` to `to`. */
  function LsbsAt(pixels: seq<byte>, g: seq<nat>, from: nat, to: nat): (bits: seq<Bit>)
    requires from <= to <= |g|
    requires forall k | from <= k < to :: g[k] < |pixels|
    ensures |bits| == to - from
  {
    seq<Bit>(to - from, i requires 0 <= i < to - from => Lsb(pixels[g[from + i]]))
  }

  // ----------------------------------------------------------- embedding

  /** `embedEntropic`: the new pixel buffer, or why there is none. */
  function Embedded(o: Oracles, pixels: seq<byte>, numPixels: nat, bits: seq<Bit>, key: string): Result<seq<byte>>
    requires CtrSound(o)
  {
    var cap := Capacity(numPixels);
    var total := LENGTH_HEADER_SIZE + |bits|;
    if total > cap then Err(TooLarge(cap, total))
    else match PrngMaterial(o, key, ENTROPIC_SALT)
      case Err(e) => Err(e)
      case Ok(seed) => Ok(EmbedWith(o, pixels, numPixels, bits, seed))
  }

  /** The buffer once every slot has its stream bit. */
  function EmbedWith(o: Oracles, pixels: seq<byte>, numPixels: nat, bits: seq<Bit>, seed: Seed): seq<byte>
    requires CtrSound(o) && LENGTH_HEADER_SIZE + |bits| <= Capacity(numPixels)
  {
    Written(pixels, Slots(o, seed, numPixels), Stream(o, seed, numPixels, bits), Capacity(numPixels))
  }

  method EmbedEntropic(o: Oracles, pixels: array<byte>, numPixels: nat, bits: seq<Bit>, key: string) returns (r: Result<()>)
    requires CtrSound(o) && HmacSound(o) && pixels.Length == 4 * numPixels
    modifies pixels
    ensures r.Err? <==> Embedded(o, old(pixels[..]), numPixels, bits, key).Err?
    ensures r.Err? ==> r.msg == Embedded(o, old(pixels[..]), numPixels, bits, key).msg && pixels[..] == old(pixels[..])
    ensures r.Ok? ==> pixels[..] == Embedded(o, old(pixels[..]), numPixels, bits, key).value
  {
    var cap := numPixels * 3;
    var total := LENGTH_HEADER_SIZE + |bits|;
    if total > cap {
      return Err(TooLarge(cap, total));
    }
    var material := GetPrngMaterialFromKey(o, key, ENTROPIC_SALT);
    if material.Err? {
      return Err(material.msg);
    }
    var prng := CryptoPrng.Create(o, material.value);
    var indices := BuildIndices(numPixels);
    ShuffleInPlace(prng, indices);
    WriteAll(prng, pixels, indices, numPixels, bits);
    return Ok(());
  }

  /** The header, payload and noise loops, after the shuffle. */
  method WriteAll(prng: CryptoPrng, pixels: array<byte>, indices: array<nat>, numPixels: nat, bits: seq<Bit>)
    requires prng.Valid() && pixels != prng.counter && pixels.Length == 4 * numPixels
    requires LENGTH_HEADER_SIZE + |bits| <= Capacity(numPixels)
    requires prng.drawn == ShuffleDraws(Capacity(numPixels))
    requires indices[..] == Slots(prng.o, prng.seed, numPixels)
    modifies pixels, prng, prng.counter
    ensures pixels[..] == EmbedWith(prng.o, old(pixels[..]), numPixels, bits, prng.seed)
  {
    ghost var g := indices[..];
    ghost var stream := Stream(prng.o, prng.seed, numPixels, bits);
    SlotsFitStream(prng.o, prng.seed, numPixels, bits);
    StreamLayout(prng.o, prng.seed, numPixels, bits);
    ghost var orig := pixels[..];
    WriteMessage(pixels, indices, bits, orig, stream);
    FillNoise(prng, pixels, indices, LENGTH_HEADER_SIZE + |bits|, orig, stream);
  }

  /** The header loop, then the payload loop, from an untouched buffer. */
  method WriteMessage(pixels: array<byte>, g: array<nat>, bits: seq<Bit>, ghost orig: seq<byte>, ghost stream: seq<Bit>)
    requires SlotsFit(g[..], stream, pixels.Length) && LENGTH_HEADER_SIZE + |bits| <= g.Length
    requires stream[..LENGTH_HEADER_SIZE] == HeaderBits(|bits|)
    requires stream[LENGTH_HEADER_SIZE..LENGTH_HEADER_SIZE + |bits|] == bits
    requires pixels[..] == orig
    modifies pixels
    ensures pixels[..] == Written(orig, g[..], stream, LENGTH_HEADER_SIZE + |bits|)
  {
    WrittenNone(orig, g[..], stream);
    var header := HeaderBits(|bits|);
    WriteBits(pixels, g, 0, header, orig, stream);
    WriteBits(pixels, g, LENGTH_HEADER_SIZE, bits, orig, stream);
  }

  /** Distinct slots inside a buffer of `size` bytes, one stream bit per slot. */
  ghost predicate SlotsFit(g: seq<nat>, stream: seq<Bit>, size: nat) {
    NoDup(g) && |g| == |stream| && forall k | 0 <= k < |g| :: g[k] < size
  }

  lemma SlotsFitStream(o: Oracles, seed: Seed, numPixels: nat, bits: seq<Bit>)
    requires CtrSound(o) && LENGTH_HEADER_SIZE + |bits| <= Capacity(numPixels)
    ensures SlotsFit(Slots(o, seed, numPixels), Stream(o, seed, numPixels, bits), 4 * numPixels)
  {
    SlotsFacts(o, seed, numPixels);
  }

  /** The header loop and the payload loop: `bits` go to the slots from `from` on. */
  method WriteBits(pixels: array<byte>, g: array<nat>, from: nat, bits: seq<Bit>, ghost orig: seq<byte>, ghost stream: seq<Bit>)
    requires SlotsFit(g[..], stream, pixels.Length)
    requires from + |bits| <= g.Length && stream[from..from + |bits|] == bits
    requires pixels[..] == Written(orig, g[..], stream, from)
    modifies pixels
    ensures pixels[..] == Written(orig, g[..], stream, from + |bits|)
  {
    for i := 0 to |bits|
      invariant pixels[..] == Written(orig, g[..], stream, from + i)
    {
      assert stream[from + i] == stream[from..from + |bits|][i];
      WriteLsb(pixels, g, from + i, bits[i], orig, stream);
    }
  }

  /** Where the header, payload and noise bits sit in the stream. */
  lemma StreamLayout(o: Oracles, seed: Seed, numPixels: nat, bits: seq<Bit>)
    requires CtrSound(o) && LENGTH_HEADER_SIZE + |bits| <= Capacity(numPixels)
    ensures var s := Stream(o, seed, numPixels, bits);
      s[..LENGTH_HEADER_SIZE] == HeaderBits(|bits|) &&
      s[LENGTH_HEADER_SIZE..LENGTH_HEADER_SIZE + |bits|] == bits &&
      s[LENGTH_HEADER_SIZE + |bits|..] ==
        Noise(o, seed, ShuffleDraws(Capacity(numPixels)), Capacity(numPixels) - (LENGTH_HEADER_SIZE + |bits|))
  {
  }

  /** After all writes the low bits along the slots spell out the stream. */
  lemma WrittenLsbs(orig: seq<byte>, g: seq<nat>, stream: seq<Bit>, from: nat, to: nat)
    requires NoDup(g) && |g| == |stream| && from <= to <= |g|
    requires forall k | 0 <= k < |g| :: g[k] < |orig|
    ensures LsbsAt(Written(orig, g, stream, |g|), g, from, to) == stream[from..to]
  {
    forall i | 0 <= i < to - from
      ensures LsbsAt(Written(orig, g, stream, |g|), g, from, to)[i] == stream[from + i]
    {
      WrittenAll(orig, g, stream, from + i);
    }
  }

  /** One `pixelData[embedIndex] = (pixelData[embedIndex] & 0xFE) | bit`. */
  method WriteLsb(pixels: array<byte>, g: array<nat>, t: nat, bit: Bit, ghost orig: seq<byte>, ghost stream: seq<Bit>)
    requires SlotsFit(g[..], stream, pixels.Length)
    requires t < g.Length && stream[t] == bit
    requires pixels[..] == Written(orig, g[..], stream, t)
    modifies pixels
    ensures pixels[..] == Written(orig, g[..], stream, t + 1)
  {
    var p := g[t];
    WrittenStep(orig, g[..], stream, t);
    pixels[p] := SetLsb(pixels[p], bit);
  }

  /** The noise loop: every slot from `total` on gets the top bit of the next draw. */
  method FillNoise(prng: CryptoPrng, pixels: array<byte>, g: array<nat>, total: nat, ghost orig: seq<byte>, ghost stream: seq<Bit>)
    requires prng.Valid() && pixels != prng.counter
    requires SlotsFit(g[..], stream, pixels.Length) && total <= g.Length
    requires stream[total..] == Noise(prng.o, prng.seed, prng.drawn, g.Length - total)
    requires pixels[..] == Written(orig, g[..], stream, total)
    modifies pixels, prng, prng.counter
    ensures pixels[..] == Written(orig, g[..], stream, g.Length)
  {
    ghost var d0 := prng.drawn;
    for i := total to g.Length
      invariant prng.Valid() && prng.drawn == d0 + (i - total)
      invariant pixels[..] == Written(orig, g[..], stream, i)
    {
      NoiseStep(prng, pixels, g, total, i, d0, orig, stream);
    }
  }

  /** One pass of the noise loop: draw, keep the top bit, write it at slot `i`. */
  method NoiseStep(prng: CryptoPrng, pixels: array<byte>, g: array<nat>, total: nat, i: nat, ghost d0: nat,
                   ghost orig: seq<byte>, ghost stream: seq<Bit>)
    requires prng.Valid() && pixels != prng.counter && prng.drawn == d0 + (i - total)
    requires SlotsFit(g[..], stream, pixels.Length) && total <= i < g.Length
    requires stream[total..] == Noise(prng.o, prng.seed, d0, g.Length - total)
    requires pixels[..] == Written(orig, g[..], stream, i)
    modifies pixels, prng, prng.counter
    ensures prng.Valid() && prng.drawn == d0 + (i + 1 - total)
    ensures pixels[..] == Written(orig, g[..], stream, i + 1)
  {
    NoiseAt(prng.o, prng.seed, d0, stream, total, i);
    var bit := DrawBit(prng);
    WriteLsb(pixels, g, i, bit, orig, stream);
  }

  /** Slot `i` of the noise tail holds the draw numbered `d0 + (i - total)`. */
  lemma NoiseAt(o: Oracles, seed: Seed, d0: nat, stream: seq<Bit>, total: nat, i: nat)
    requires CtrSound(o) && total <= i < |stream|
    requires stream[total..] == Noise(o, seed, d0, |stream| - total)
    ensures stream[i] == NoiseBit(o, seed, d0 + (i - total))
  {
    assert stream[i] == stream[total..][i - total];
  }

  /** `Math.floor(await prng.next() * 2)`. */
  method DrawBit(prng: CryptoPrng) returns (bit: Bit)
    requires prng.Valid()
    modifies prng, prng.counter
    ensures prng.Valid() && prng.drawn == old(prng.drawn) + 1
    ensures bit == NoiseBit(prng.o, prng.seed, old(prng.drawn))
  {
    var u := prng.Next();
    ScaleBound(u, 2);
    bit := Scale(u, 2);
  }

  /** Only the low bit of a channel byte changes, and alpha bytes keep their value. */
  lemma EmbedOnlyLsbs(o: Oracles, pixels: seq<byte>, numPixels: nat, bits: seq<Bit>, key: string)
    requires CtrSound(o) && |pixels| == 4 * numPixels
    requires Embedded(o, pixels, numPixels, bits, key).Ok?
    ensures var out := Embedded(o, pixels, numPixels, bits, key).value;
      |out| == |pixels| &&
      (forall p | 0 <= p < |pixels| :: out[p] as int / 2 == pixels[p] as int / 2) &&
      (forall p | 0 <= p < |pixels| && p % 4 == 3 :: out[p] == pixels[p])
  {
    var seed := PrngMaterial(o, key, ENTROPIC_SALT).value;
    SlotsFacts(o, seed, numPixels);
  }

  /**
   * Under the seed derived from the key, every channel byte is a slot, and
   * the low bits along the slots are the 32-bit header, the payload bits and
   * then noise.
   */
  lemma EmbedLayout(o: Oracles, pixels: seq<byte>, numPixels: nat, bits: seq<Bit>, seed: Seed)
    requires CtrSound(o) && |pixels| == 4 * numPixels
    requires LENGTH_HEADER_SIZE + |bits| <= Capacity(numPixels)
    ensures forall p: nat | p < |pixels| && p % 4 != 3 :: p in Slots(o, seed, numPixels)
    ensures forall k | 0 <= k < Capacity(numPixels) :: Slots(o, seed, numPixels)[k] < |pixels|
    ensures LsbsAt(EmbedWith(o, pixels, numPixels, bits, seed), Slots(o, seed, numPixels), 0, LENGTH_HEADER_SIZE)
      == HeaderBits(|bits|)
    ensures LsbsAt(EmbedWith(o, pixels, numPixels, bits, seed), Slots(o, seed, numPixels),
      LENGTH_HEADER_SIZE, LENGTH_HEADER_SIZE + |bits|) == bits
    ensures LsbsAt(EmbedWith(o, pixels, numPixels, bits, seed), Slots(o, seed, numPixels),
      LENGTH_HEADER_SIZE + |bits|, Capacity(numPixels))
      == Noise(o, seed, ShuffleDraws(Capacity(numPixels)), Capacity(numPixels) - (LENGTH_HEADER_SIZE + |bits|))
  {
    var g := Slots(o, seed, numPixels);
    var stream := Stream(o, seed, numPixels, bits);
    SlotsFacts(o, seed, numPixels);
    StreamLayout(o, seed, numPixels, bits);
    WrittenLsbs(pixels, g, stream, 0, LENGTH_HEADER_SIZE);
    WrittenLsbs(pixels, g, stream, LENGTH_HEADER_SIZE, LENGTH_HEADER_SIZE + |bits|);
    WrittenLsbs(pixels, g, stream, LENGTH_HEADER_SIZE + |bits|, Capacity(numPixels));
  }

  /** The embedding fails exactly when header and payload overflow the channels, or the key is not base64. */
  lemma EmbedFailure(o: Oracles, pixels: seq<byte>, numPixels: nat, bits: seq<Bit>, key: string)
    requires CtrSound(o)
    ensures Embedded(o, pixels, numPixels, bits, key).Err? <==>
      LENGTH_HEADER_SIZE + |bits| > 3 * numPixels || PrngMaterial(o, key, ENTROPIC_SALT).Err?
    ensures LENGTH_HEADER_SIZE + |bits| > 3 * numPixels ==>
      Embedded(o, pixels, numPixels, bits, key) == Err(TooLarge(3 * numPixels, LENGTH_HEADER_SIZE + |bits|))
  {
  }

  // ---------------------------------------------------------- extraction

  /**
   * `extractEntropic`: `None` when the header does not fit the image, else
   * the payload bits read back as bytes. An image with fewer than 32 slots
   * reads zeros past its end and is rejected whatever the header says.
   */
  function Extracted(o: Oracles, pixels: seq<byte>, numPixels: nat, key: string): Result<Option<Bytes>>
    requires CtrSound(o) && |pixels| == 4 * numPixels
  {
    match PrngMaterial(o, key, ENTROPIC_SALT)
    case Err(e) => Err(e)
    case Ok(seed) => ExtractWith(o, pixels, numPixels, seed)
  }

  /** The reads of `extractEntropic` once the seed is known. */
  function ExtractWith(o: Oracles, pixels: seq<byte>, numPixels: nat, seed: Seed): Result<Option<Bytes>>
    requires CtrSound(o) && |pixels| == 4 * numPixels
  {
    var g := Slots(o, seed, numPixels);
    var cap := Capacity(numPixels);
    SlotsFacts(o, seed, numPixels);
    if cap < LENGTH_HEADER_SIZE then Ok(None)
    else
      var n := BitsValue(LsbsAt(pixels, g, 0, LENGTH_HEADER_SIZE));
      if n > cap - LENGTH_HEADER_SIZE then Ok(None)
      else match BinaryToBytes(LsbsAt(pixels, g, LENGTH_HEADER_SIZE, LENGTH_HEADER_SIZE + n))
        case Err(e) => Err(e)
        case Ok(data) => Ok(Some(data))
  }

  /** A header read: the low bits at slots `from` to `to`, in slot order. */
  method ReadLsbs(pixels: array<byte>, g: array<nat>, from: nat, to: nat) returns (bits: seq<Bit>)
    requires from <= to <= g.Length
    requires forall k | from <= k < to :: g[k] < pixels.Length
    ensures bits == LsbsAt(pixels[..], g[..], from, to)
  {
    bits := [];
    for i := from to to
      invariant bits == LsbsAt(pixels[..], g[..], from, i)
    {
      bits := bits + [Lsb(pixels[g[i]])];
    }
  }

  method ExtractEntropic(o: Oracles, pixels: array<byte>, numPixels: nat, key: string) returns (r: Result<Option<Bytes>>)
    requires CtrSound(o) && HmacSound(o) && pixels.Length == 4 * numPixels
    ensures r == Extracted(o, pixels[..], numPixels, key)
  {
    var cap := numPixels * 3;
    var material := GetPrngMaterialFromKey(o, key, ENTROPIC_SALT);
    if material.Err? {
      return Err(material.msg);
    }
    var prng := CryptoPrng.Create(o, material.value);
    var indices := BuildIndices(numPixels);
    ShuffleInPlace(prng, indices);
    r := ReadPayload(pixels, indices, numPixels, o, material.value);
  }

  /** The header check and the reads of `extractEntropic`, after the shuffle. */
  method ReadPayload(pixels: array<byte>, indices: array<nat>, numPixels: nat, ghost o: Oracles, ghost seed: Seed)
    returns (r: Result<Option<Bytes>>)
    requires CtrSound(o) && pixels.Length == 4 * numPixels
    requires indices[..] == Slots(o, seed, numPixels)
    ensures r == ExtractWith(o, pixels[..], numPixels, seed)
  {
    var cap := numPixels * 3;
    SlotsFacts(o, seed, numPixels);
    if cap < LENGTH_HEADER_SIZE {
      // Slots past the end read as 0 and any header exceeds a negative room.
      return Ok(None);
    }
    var header := ReadLsbs(pixels, indices, 0, LENGTH_HEADER_SIZE);
    var dataLength := BitsValue(header);
    if dataLength > cap - LENGTH_HEADER_SIZE {
      return Ok(None);
    }
    var binary := ReadLsbs(pixels, indices, LENGTH_HEADER_SIZE, LENGTH_HEADER_SIZE + dataLength);
    var bytes := BinaryStringToBytes(binary);
    if bytes.Err? {
      return Err(bytes.msg);
    }
    return Ok(Some(bytes.value));
  }

  /** Reading back under the seed that wrote the buffer returns the payload. */
  lemma {:induction false} SeededRoundTrip(o: Oracles, pixels: seq<byte>, numPixels: nat, data: Bytes, seed: Seed)
    requires CtrSound(o) && |pixels| == 4 * numPixels && |data| <= MAX_PAYLOAD_BYTES
    requires LENGTH_HEADER_SIZE + |BitsOf(data)| <= Capacity(numPixels)
    ensures |EmbedWith(o, pixels, numPixels, BitsOf(data), seed)| == 4 * numPixels
    ensures ExtractWith(o, EmbedWith(o, pixels, numPixels, BitsOf(data), seed), numPixels, seed) == Ok(Some(data))
  {
    var bits := BitsOf(data);
    var out := EmbedWith(o, pixels, numPixels, bits, seed);
    assert |out| == |pixels|;
    EmbedLayout(o, pixels, numPixels, bits, seed);
    PayloadLayoutReadsBack(o, out, numPixels, data, seed);
  }

  /** A buffer whose low bits along the slots are a payload's header and bits extracts to that payload. */
  lemma PayloadLayoutReadsBack(o: Oracles, out: seq<byte>, numPixels: nat, data: Bytes, seed: Seed)
    requires CtrSound(o) && |out| == 4 * numPixels && |data| <= MAX_PAYLOAD_BYTES
    requires LENGTH_HEADER_SIZE + |BitsOf(data)| <= Capacity(numPixels)
    requires forall k | 0 <= k < Capacity(numPixels) :: Slots(o, seed, numPixels)[k] < |out|
    requires LsbsAt(out, Slots(o, seed, numPixels), 0, LENGTH_HEADER_SIZE) == HeaderBits(|BitsOf(data)|)
    requires LsbsAt(out, Slots(o, seed, numPixels), LENGTH_HEADER_SIZE, LENGTH_HEADER_SIZE + |BitsOf(data)|)
      == BitsOf(data)
    ensures ExtractWith(o, out, numPixels, seed) == Ok(Some(data))
  {
    var n := |BitsOf(data)|;
    BitsOfLayout(data);
    HeaderReadsBack(n);
    PayloadReadsBack(data);
    ReadsBackLayout(o, out, numPixels, data, seed, n);
  }

  /** A buffer whose header along the slots reads `n` and whose next `n` low bits decode to `data` extracts to `data`. */
  lemma ReadsBackLayout(o: Oracles, out: seq<byte>, numPixels: nat, data: Bytes, seed: Seed, n: nat)
    requires CtrSound(o) && |out| == 4 * numPixels
    requires LENGTH_HEADER_SIZE + n <= Capacity(numPixels)
    requires forall k | 0 <= k < Capacity(numPixels) :: Slots(o, seed, numPixels)[k] < |out|
    requires BitsValue(LsbsAt(out, Slots(o, seed, numPixels), 0, LENGTH_HEADER_SIZE)) == n
    requires BinaryToBytes(LsbsAt(out, Slots(o, seed, numPixels), LENGTH_HEADER_SIZE, LENGTH_HEADER_SIZE + n)) == Ok(data)
    ensures ExtractWith(o, out, numPixels, seed) == Ok(Some(data))
  {
  }

  /** The 32-bit header of any payload up to the size limit parses back to its length. */
  lemma HeaderReadsBack(n: nat)
    requires n <= 8 * MAX_PAYLOAD_BYTES
    ensures BitsValue(HeaderBits(n)) == n
  {
    Pow2Of32();
    NatBitsValue(n, LENGTH_HEADER_SIZE);
  }

  lemma PayloadReadsBack(data: Bytes)
    requires |data| <= MAX_PAYLOAD_BYTES
    ensures BinaryToBytes(BitsOf(data)) == Ok(data)
  {
    BitsOfLayout(data);
    BinaryRoundTrip(data, []);
    assert BitsOf(data) + [] == BitsOf(data);
  }

  /** Extracting with the same key returns the embedded bytes. */
  lemma ImageRoundTrip(o: Oracles, pixels: seq<byte>, numPixels: nat, data: Bytes, key: string)
    requires CtrSound(o) && |pixels| == 4 * numPixels && |data| <= MAX_PAYLOAD_BYTES
    requires Embedded(o, pixels, numPixels, BitsOf(data), key).Ok?
    ensures |Embedded(o, pixels, numPixels, BitsOf(data), key).value| == 4 * numPixels
    ensures Extracted(o, Embedded(o, pixels, numPixels, BitsOf(data), key).value, numPixels, key) == Ok(Some(data))
  {
    SeededRoundTrip(o, pixels, numPixels, data, PrngMaterial(o, key, ENTROPIC_SALT).value);
  }

  // ------------------------------------------------------------ wrappers

  /** `embedDataInImage` on the decoded pixel buffer of the carrier. */
  function EmbedData(o: Oracles, pixels: seq<byte>, numPixels: nat, data: Bytes, key: string): Result<seq<byte>>
    requires CtrSound(o)
  {
    if key == "" then Err(EMBED_KEY_REQUIRED) else Embedded(o, pixels, numPixels, BitsOf(data), key)
  }

  /** `extractDataFromImage` on the decoded pixel buffer of the stego image. */
  function ExtractData(o: Oracles, pixels: seq<byte>, numPixels: nat, key: string): Result<Option<Bytes>>
    requires CtrSound(o) && |pixels| == 4 * numPixels
  {
    if key == "" then Err(EXTRACT_KEY_REQUIRED) else Extracted(o, pixels, numPixels, key)
  }

  method EmbedDataInImage(o: Oracles, pixels: array<byte>, numPixels: nat, data: Bytes, key: string) returns (r: Result<()>)
    requires CtrSound(o) && HmacSound(o) && pixels.Length == 4 * numPixels
    modifies pixels
    ensures r.Err? <==> EmbedData(o, old(pixels[..]), numPixels, data, key).Err?
    ensures r.Err? ==> r.msg == EmbedData(o, old(pixels[..]), numPixels, data, key).msg && pixels[..] == old(pixels[..])
    ensures r.Ok? ==> pixels[..] == EmbedData(o, old(pixels[..]), numPixels, data, key).value
  {
    var binary := BytesToBinaryString(data);
    if key == "" {
      return Err(EMBED_KEY_REQUIRED);
    }
    r := EmbedEntropic(o, pixels, numPixels, binary, key);
  }

  method ExtractDataFromImage(o: Oracles, pixels: array<byte>, numPixels: nat, key: string) returns (r: Result<Option<Bytes>>)
    requires CtrSound(o) && HmacSound(o) && pixels.Length == 4 * numPixels
    ensures r == ExtractData(o, pixels[..], numPixels, key)
  {
    if key == "" {
      return Err(EXTRACT_KEY_REQUIRED);
    }
    r := ExtractEntropic(o, pixels, numPixels, key);
  }

  /** The exported pair round-trips for any non-empty key the embedding accepts. */
  lemma DataRoundTrip(o: Oracles, pixels: seq<byte>, numPixels: nat, data: Bytes, key: string)
    requires CtrSound(o) && |pixels| == 4 * numPixels && |data| <= MAX_PAYLOAD_BYTES
    requires EmbedData(o, pixels, numPixels, data, key).Ok?
    ensures key != ""
    ensures |EmbedData(o, pixels, numPixels, data, key).value| == 4 * numPixels
    ensures ExtractData(o, EmbedData(o, pixels, numPixels, data, key).value, numPixels, key) == Ok(Some(data))
  {
    ImageRoundTrip(o, pixels, numPixels, data, key);
  }
}
