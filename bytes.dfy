/**
 * Byte-level helpers of lib/crypto.ts: XOR, the byte <-> binary-string
 * conversions, big-endian integers, `slice`, `findSubarray` and the
 * rejection-sampled random numbers.
 */
module ByteUtil {
  import opened Wrappers
  import opened Primitives

  function Min(a: int, b: int): int { if a < b then a else b }

  function Pow2(n: nat): (r: nat)
    ensures r >= 1
  {
    if n == 0 then 1 else 2 * Pow2(n - 1)
  }

  // ---------------------------------------------------------------- XOR

  /** The low `n` bits of `x ^ y`. */
  function XorBits(x: nat, y: nat, n: nat): nat {
    if n == 0 then 0 else 2 * XorBits(x / 2, y / 2, n - 1) + (x % 2 + y % 2) % 2
  }

  lemma {:induction false} XorBitsBound(x: nat, y: nat, n: nat)
    ensures XorBits(x, y, n) < Pow2(n)
  {
    if n > 0 {
      XorBitsBound(x / 2, y / 2, n - 1);
    }
  }

  lemma {:induction false} XorBitsTwice(x: nat, k: nat, n: nat)
    requires x < Pow2(n)
    ensures XorBits(XorBits(x, k, n), k, n) == x
  {
    if n > 0 {
      var z' := XorBits(x / 2, k / 2, n - 1);
      var b := (x % 2 + k % 2) % 2;
      var z := XorBits(x, k, n);
      assert z == 2 * z' + b;
      ModUnique(z, 2, z', b);
      ModUnique(Pow2(n), 2, Pow2(n - 1), 0);
      DivBelow(x, 2, Pow2(n - 1));
      XorBitsTwice(x / 2, k / 2, n - 1);
      XorBitTwice(x % 2, k % 2);
      var h, p := x / 2, x % 2;
      assert XorBits(z', k / 2, n - 1) == h;
      assert (b + k % 2) % 2 == p;
      assert z / 2 == z' && z % 2 == b;
      assert XorBits(z, k, n) == 2 * h + p;
      assert x == 2 * h + p;
    }
  }

  /** XOR with `k` leaves an `n`-bit value unchanged exactly when `k` is zero. */
  lemma {:induction false} XorBitsFixed(x: nat, k: nat, n: nat)
    requires x < Pow2(n) && k < Pow2(n)
    ensures XorBits(x, k, n) == x <==> k == 0
  {
    if n > 0 {
      var z' := XorBits(x / 2, k / 2, n - 1);
      var b := (x % 2 + k % 2) % 2;
      assert XorBits(x, k, n) == 2 * z' + b;
      assert x / 2 < Pow2(n - 1) && k / 2 < Pow2(n - 1) by {
        DivBelow(x, 2, Pow2(n - 1));
        DivBelow(k, 2, Pow2(n - 1));
      }
      XorBitsFixed(x / 2, k / 2, n - 1);
      if XorBits(x, k, n) == x {
        assert z' == x / 2 && b == x % 2 by { ModUnique(x, 2, z', b); }
        assert k / 2 == 0 && k % 2 == 0;
      }
    }
  }

  lemma XorBitTwice(a: nat, c: nat)
    requires a < 2 && c < 2
    ensures ((a + c) % 2 + c) % 2 == a
  {
  }

  lemma Pow2Of8()
    ensures Pow2(8) == 256
  {
    assert Pow2(4) == 16;
  }

  /** `x ^ y` on two bytes. */
  function XorByte(x: byte, y: byte): byte {
    XorBitsBound(x as nat, y as nat, 8);
    Pow2Of8();
    XorBits(x as nat, y as nat, 8) as byte
  }

  /** Byte-wise XOR over the common prefix of `a` and `b`. */
  function Xor(a: Bytes, b: Bytes): Bytes {
    seq(Min(|a|, |b|), i requires 0 <= i < Min(|a|, |b|) => XorByte(a[i], b[i]))
  }

  /** `xorUint8Arrays`: one result byte per position both inputs have. */
  method XorBytes(a: Bytes, b: Bytes) returns (r: Bytes)
    ensures |r| == Min(|a|, |b|)
    ensures forall i | 0 <= i < |r| :: r[i] == XorByte(a[i], b[i])
    ensures r == Xor(a, b)
  {
    var len := Min(|a|, |b|);
    var result := new byte[len];
    for i := 0 to len
      invariant forall k | 0 <= k < i :: result[k] == XorByte(a[k], b[k])
    {
      result[i] := XorByte(a[i], b[i]);
    }
    r := result[..];
  }

  lemma XorByteFixed(x: byte, k: byte)
    ensures XorByte(x, k) == x <==> k == 0
  {
    Pow2Of8();
    XorBitsFixed(x as nat, k as nat, 8);
  }

  lemma XorByteTwice(x: byte, k: byte)
    ensures XorByte(XorByte(x, k), k) == x
  {
    Pow2Of8();
    XorBitsTwice(x as nat, k as nat, 8);
  }

  /** Veiling twice with a keystream at least as long as the data is the identity. */
  lemma XorTwice(a: Bytes, ks: Bytes)
    requires |ks| >= |a|
    ensures Xor(Xor(a, ks), ks) == a
  {
    var once := Xor(a, ks);
    assert |once| == |a|;
    forall i | 0 <= i < |a|
      ensures Xor(once, ks)[i] == a[i]
    {
      assert once[i] == XorByte(a[i], ks[i]);
      XorByteTwice(a[i], ks[i]);
    }
  }

  // ---------------------------------------------------------------- bits

  type Bit = b: int | 0 <= b < 2

  /** The low `width` bits of `v`, most significant first (`toString(2).padStart`). */
  function NatBits(v: nat, width: nat): seq<Bit> {
    if width == 0 then [] else NatBits(v / 2, width - 1) + [v % 2]
  }

  /** `parseInt(bits, 2)`: the value of a big-endian bit string. */
  function BitsValue(bits: seq<Bit>): nat {
    if bits == [] then 0 else 2 * BitsValue(bits[..|bits| - 1]) + bits[|bits| - 1]
  }

  lemma MulAtLeast(d: nat, k: nat)
    requires k >= 1
    ensures d * k >= d
  {
    assert d * k == d * (k - 1) + d;
  }

  lemma Distrib(d: nat, a: nat, k: nat)
    ensures d * (a + k) == d * a + d * k
  {
  }

  lemma MulMonotone(d: nat, x: nat, y: nat)
    requires x <= y
    ensures d * x <= d * y
  {
    Distrib(d, x, y - x);
  }

  lemma DivBelow(a: nat, d: nat, m: nat)
    requires d > 0 && a < d * m
    ensures a / d < m
  {
    var q := a / d;
    assert d * q <= a;
    if q >= m {
      MulMonotone(d, m, q);
    }
  }

  /** Quotient and remainder are unique. */
  lemma ModUnique(v: nat, d: nat, q: nat, r: nat)
    requires d > 0 && v == d * q + r && r < d
    ensures v % d == r && v / d == q
  {
    var q' := v / d;
    var r' := v % d;
    assert v == d * q' + r';
    if q' < q {
      Distrib(d, q', q - q');
      MulAtLeast(d, q - q');
    } else if q' > q {
      Distrib(d, q, q' - q);
      MulAtLeast(d, q' - q);
    }
  }

  lemma {:induction false} NatBitsValue(v: nat, width: nat)
    requires v < Pow2(width)
    ensures |NatBits(v, width)| == width
    ensures BitsValue(NatBits(v, width)) == v
  {
    if width > 0 {
      var bits := NatBits(v, width);
      NatBitsValue(v / 2, width - 1);
      assert bits[..|bits| - 1] == NatBits(v / 2, width - 1);
    }
  }

  lemma {:induction false} NatBitsLength(v: nat, width: nat)
    ensures |NatBits(v, width)| == width
  {
    if width > 0 {
      NatBitsLength(v / 2, width - 1);
    }
  }

  lemma {:induction false} BitsValueBound(bits: seq<Bit>)
    ensures BitsValue(bits) < Pow2(|bits|)
  {
    if bits != [] {
      BitsValueBound(bits[..|bits| - 1]);
    }
  }

  /** The eight bits of one byte, most significant first. */
  function ByteBits(b: byte): seq<Bit> {
    NatBits(b as nat, 8)
  }

  /** A bit string read back into a byte; the `Uint8Array` store keeps the low 8 bits. */
  function ByteOfBits(bits: seq<Bit>): byte {
    (BitsValue(bits) % 256) as byte
  }

  lemma ByteBitsRoundTrip(b: byte)
    ensures |ByteBits(b)| == 8
    ensures ByteOfBits(ByteBits(b)) == b
  {
    Pow2Of8();
    NatBitsValue(b as nat, 8);
  }

  /** The binary string of a byte sequence: eight bits per byte, in byte order. */
  function BitsOf(bytes: Bytes): seq<Bit> {
    if bytes == [] then [] else BitsOf(bytes[..|bytes| - 1]) + ByteBits(bytes[|bytes| - 1])
  }

  lemma {:induction false} BitsOfLayout(bytes: Bytes)
    ensures |BitsOf(bytes)| == 8 * |bytes|
    ensures forall i | 0 <= i < |bytes| :: BitsOf(bytes)[8 * i..8 * i + 8] == ByteBits(bytes[i])
  {
    if bytes != [] {
      var init := bytes[..|bytes| - 1];
      BitsOfLayout(init);
      ByteBitsRoundTrip(bytes[|bytes| - 1]);
      forall i | 0 <= i < |bytes|
        ensures BitsOf(bytes)[8 * i..8 * i + 8] == ByteBits(bytes[i])
      {
        if i < |init| {
          assert BitsOf(bytes)[8 * i..8 * i + 8] == BitsOf(init)[8 * i..8 * i + 8];
          assert bytes[i] == init[i];
        }
      }
    }
  }

  lemma BitsOfEmpty(bytes: Bytes)
    ensures BitsOf(bytes) == [] <==> bytes == []
  {
    BitsOfLayout(bytes);
  }

  /** `bytesToBinaryString`. */
  method BytesToBinaryString(bytes: Bytes) returns (bin: seq<Bit>)
    ensures |bin| == 8 * |bytes|
    ensures forall i | 0 <= i < |bytes| :: bin[8 * i..8 * i + 8] == ByteBits(bytes[i])
    ensures bin == BitsOf(bytes)
  {
    bin := [];
    for i := 0 to |bytes|
      invariant bin == BitsOf(bytes[..i])
    {
      assert bytes[..i + 1][..i] == bytes[..i];
      bin := bin + ByteBits(bytes[i]);
    }
    assert bytes[..|bytes|] == bytes;
    BitsOfLayout(bytes);
  }

  const MAX_PAYLOAD_BYTES: nat := 100 * 1024 * 1024

  /** Whole bytes of a bit string; a trailing partial byte is dropped. */
  function Unpack(bin: seq<Bit>): Bytes {
    seq(|bin| / 8, i requires 0 <= i < |bin| / 8 => ByteOfBits(bin[8 * i..8 * i + 8]))
  }

  /** `binaryStringToBytes`: refuses more than 100 MiB of bytes, otherwise unpacks. */
  function BinaryToBytes(bin: seq<Bit>): Result<Bytes> {
    if |bin| > 8 * MAX_PAYLOAD_BYTES then Err("Payload size exceeds maximum limit of 100MB.")
    else Ok(Unpack(bin))
  }

  method BinaryStringToBytes(bin: seq<Bit>) returns (r: Result<Bytes>)
    ensures r.Err? <==> |bin| > 8 * MAX_PAYLOAD_BYTES
    ensures r.Ok? ==> |r.value| == |bin| / 8
    ensures r.Ok? ==> forall i | 0 <= i < |r.value| :: r.value[i] == ByteOfBits(bin[8 * i..8 * i + 8])
    ensures r == BinaryToBytes(bin)
  {
    if |bin| > 8 * MAX_PAYLOAD_BYTES {
      return Err("Payload size exceeds maximum limit of 100MB.");
    }
    var len := |bin| / 8;
    var bytes := new byte[len];
    for i := 0 to len
      invariant forall k | 0 <= k < i :: bytes[k] == ByteOfBits(bin[8 * k..8 * k + 8])
    {
      bytes[i] := ByteOfBits(bin[8 * i..8 * i + 8]);
    }
    assert bytes[..] == Unpack(bin);
    r := Ok(bytes[..]);
  }

  lemma UnpackLength(bytes: Bytes, tail: seq<Bit>)
    requires |tail| < 8
    ensures |BitsOf(bytes) + tail| == 8 * |bytes| + |tail|
    ensures |BitsOf(bytes) + tail| / 8 == |bytes|
    ensures |Unpack(BitsOf(bytes) + tail)| == |bytes|
  {
    BitsOfLayout(bytes);
  }

  /** Byte `i` unpacks from its own eight bits, whatever the tail. */
  lemma UnpackAt(bytes: Bytes, tail: seq<Bit>, i: nat)
    requires |tail| < 8 && i < |bytes|
    ensures |Unpack(BitsOf(bytes) + tail)| == |bytes|
    ensures Unpack(BitsOf(bytes) + tail)[i] == bytes[i]
  {
    var bin := BitsOf(bytes) + tail;
    UnpackLength(bytes, tail);
    BitsOfLayout(bytes);
    assert bin[8 * i..8 * i + 8] == BitsOf(bytes)[8 * i..8 * i + 8];
    assert Unpack(bin)[i] == ByteOfBits(bin[8 * i..8 * i + 8]);
    ByteBitsRoundTrip(bytes[i]);
  }

  /** Unpacking inverts packing, and up to seven trailing bits are ignored. */
  lemma BinaryRoundTrip(bytes: Bytes, tail: seq<Bit>)
    requires |tail| < 8 && 8 * |bytes| + |tail| <= 8 * MAX_PAYLOAD_BYTES
    ensures BinaryToBytes(BitsOf(bytes) + tail) == Ok(bytes)
  {
    var bin := BitsOf(bytes) + tail;
    UnpackLength(bytes, tail);
    forall i | 0 <= i < |bytes|
      ensures Unpack(bin)[i] == bytes[i]
    {
      UnpackAt(bytes, tail, i);
    }
    assert Unpack(bin) == bytes;
  }

  // ------------------------------------------------------ array writes

  /** `Uint8Array.prototype.set(src, offset)`. */
  method Blit(buf: array<byte>, offset: nat, src: Bytes)
    modifies buf
    requires offset + |src| <= buf.Length
    ensures buf[..offset + |src|] == old(buf[..offset]) + src
    ensures buf[offset + |src|..] == old(buf[offset + |src|..])
  {
    ghost var before := buf[..offset];
    ghost var after := buf[offset + |src|..];
    forall k | 0 <= k < |src| {
      buf[offset + k] := src[k];
    }
    assert buf[..offset] == before;
    assert buf[offset + |src|..] == after;
  }

  // ------------------------------------------------------- big-endian ints

  /** `DataView.setUint16(.., false)`: the value is stored modulo 2^16. */
  function U16BE(v: nat): Bytes {
    [((v / 256) % 256) as byte, (v % 256) as byte]
  }

  /** `DataView.setUint32(.., false)`: the value is stored modulo 2^32. */
  function U32BE(v: nat): Bytes {
    [((v / 0x100_0000) % 256) as byte, ((v / 0x1_0000) % 256) as byte,
     ((v / 256) % 256) as byte, (v % 256) as byte]
  }

  function ReadU16BE(s: Bytes, off: nat): nat
    requires off + 2 <= |s|
  {
    s[off] as nat * 256 + s[off + 1] as nat
  }

  function ReadU32BE(s: Bytes, off: nat): nat
    requires off + 4 <= |s|
  {
    s[off] as nat * 0x100_0000 + s[off + 1] as nat * 0x1_0000 + s[off + 2] as nat * 256 + s[off + 3] as nat
  }

  lemma ReadU32Bound(s: Bytes, off: nat)
    requires off + 4 <= |s|
    ensures ReadU32BE(s, off) < TWO_POW_32
  {
  }

  lemma U16RoundTrip(v: nat)
    ensures ReadU16BE(U16BE(v), 0) == v % 0x1_0000
  {
  }

  lemma U32RoundTrip(v: nat)
    ensures ReadU32BE(U32BE(v), 0) == v % TWO_POW_32
  {
    var v1 := v / 256;
    var v2 := v1 / 256;
    var v3 := v2 / 256;
    var v4 := v3 / 256;
    assert v == 256 * v1 + v % 256;
    assert v1 == 256 * v2 + v1 % 256;
    assert v2 == 256 * v3 + v2 % 256;
    assert v3 == 256 * v4 + v3 % 256;
    assert v / 0x1_0000 == v2 && v / 0x100_0000 == v3;
    var r := ReadU32BE(U32BE(v), 0);
    assert r == v3 % 256 * 0x100_0000 + v2 % 256 * 0x1_0000 + v1 % 256 * 256 + v % 256;
    ModUnique(v, TWO_POW_32, v4, r);
  }

  // ------------------------------------------------------------- slices

  function Clamp(i: nat, n: nat): nat { if i < n then i else n }

  /** `Uint8Array.prototype.slice(start, end)` with non-negative bounds: both clamp. */
  function JsSlice<T>(s: seq<T>, start: nat, end: nat): seq<T> {
    var a := Clamp(start, |s|);
    var b := Clamp(end, |s|);
    if a < b then s[a..b] else []
  }

  // ------------------------------------------------------- findSubarray

  ghost predicate MatchAt(arr: Bytes, sub: Bytes, i: nat) {
    i + |sub| <= |arr| && arr[i..i + |sub|] == sub
  }

  /** The first index at which `sub` occurs in `arr`, or -1. */
  function FirstMatch(arr: Bytes, sub: Bytes, from: nat): (r: int)
    ensures r == -1 || (from <= r && r + |sub| <= |arr|)
    decreases |arr| - from
  {
    if from + |sub| > |arr| then -1
    else if arr[from..from + |sub|] == sub then from
    else FirstMatch(arr, sub, from + 1)
  }

  lemma {:induction false} FirstMatchIsFirst(arr: Bytes, sub: Bytes, from: nat)
    ensures var r := FirstMatch(arr, sub, from);
      && (r == -1 <==> forall i | from <= i :: !MatchAt(arr, sub, i))
      && (r != -1 ==> from <= r && MatchAt(arr, sub, r) && forall i | from <= i < r :: !MatchAt(arr, sub, i))
    decreases |arr| - from
  {
    if from + |sub| > |arr| {
      forall i | from <= i ensures !MatchAt(arr, sub, i) { }
    } else if arr[from..from + |sub|] == sub {
      assert MatchAt(arr, sub, from);
    } else {
      FirstMatchIsFirst(arr, sub, from + 1);
      assert !MatchAt(arr, sub, from);
    }
  }

  /** Any first occurrence is the one `FirstMatch` finds. */
  lemma FirstMatchUnique(arr: Bytes, sub: Bytes, r: nat)
    requires MatchAt(arr, sub, r) && forall i | 0 <= i < r :: !MatchAt(arr, sub, i)
    ensures FirstMatch(arr, sub, 0) == r
  {
    FirstMatchIsFirst(arr, sub, 0);
  }

  /** No occurrence at all means `FirstMatch` reports -1. */
  lemma FirstMatchNone(arr: Bytes, sub: Bytes)
    requires forall i: nat :: !MatchAt(arr, sub, i)
    ensures FirstMatch(arr, sub, 0) == -1
  {
    FirstMatchIsFirst(arr, sub, 0);
  }

  /** `findSubarray`: the first occurrence of `sub` in `arr`, or -1 when there is none. */
  method FindSubarray(arr: Bytes, sub: Bytes) returns (r: int)
    ensures r == -1 <==> forall i :: !MatchAt(arr, sub, i)
    ensures r != -1 ==> 0 <= r && MatchAt(arr, sub, r) && forall i | 0 <= i < r :: !MatchAt(arr, sub, i)
    ensures r == FirstMatch(arr, sub, 0)
  {
    var i := 0;
    while i + |sub| <= |arr|
      invariant forall k | 0 <= k < i :: !MatchAt(arr, sub, k)
      decreases |arr| - i
    {
      var found := true;
      var j := 0;
      while j < |sub|
        invariant 0 <= j <= |sub|
        invariant found ==> arr[i..i + j] == sub[..j]
        invariant found
      {
        if arr[i + j] != sub[j] {
          assert arr[i..i + |sub|][j] != sub[j];
          assert !MatchAt(arr, sub, i);
          found := false;
          break;
        }
        assert arr[i..i + j + 1] == arr[i..i + j] + [arr[i + j]];
        assert sub[..j + 1] == sub[..j] + [sub[j]];
        j := j + 1;
      }
      if found {
        assert sub[..|sub|] == sub;
        assert MatchAt(arr, sub, i);
        FirstMatchUnique(arr, sub, i);
        return i;
      }
      i := i + 1;
    }
    forall k: nat ensures !MatchAt(arr, sub, k) {
      if k >= i { assert k + |sub| > |arr|; }
    }
    FirstMatchNone(arr, sub);
    return -1;
  }

  // ----------------------------------------------------- secure randomness

  /** The largest multiple of `max` not above 2^32: draws at or above it are rejected. */
  function Threshold(max: nat): nat
    requires max >= 1
  {
    TWO_POW_32 - TWO_POW_32 % max
  }

  /** Every residue below `max` has the same number of accepted draws. */
  lemma ThresholdUnbiased(max: nat)
    requires 1 <= max <= TWO_POW_32
    ensures Threshold(max) % max == 0
    ensures 0 < Threshold(max) <= TWO_POW_32 < Threshold(max) + max
  {
    ModUnique(TWO_POW_32, max, TWO_POW_32 / max, TWO_POW_32 % max);
    ModUnique(Threshold(max), max, TWO_POW_32 / max, 0);
  }

  /** Some draw in `draws` is below the rejection threshold for `max`. */
  ghost predicate Accepts(draws: seq<nat>, max: nat)
    requires max >= 1
  {
    exists k | 0 <= k < |draws| :: draws[k] < Threshold(max)
  }

  /**
   * `secureRandom(max)`.  `draws` are the successive `getRandomValues` words;
   * `used` says how many the loop consumed.
   */
  method SecureRandom(max: nat, draws: seq<nat>) returns (r: nat, used: nat)
    requires max >= 1
    requires Accepts(draws, max)
    ensures r < max
    ensures 1 <= used <= |draws| && draws[used - 1] < Threshold(max) && r == draws[used - 1] % max
    ensures forall k | 0 <= k < used - 1 :: draws[k] >= Threshold(max)
  {
    ghost var w :| 0 <= w < |draws| && draws[w] < Threshold(max);
    used := 0;
    while true
      invariant used <= w
      invariant forall k | 0 <= k < used :: draws[k] >= Threshold(max)
      decreases w - used
    {
      var value := draws[used];
      used := used + 1;
      if value < Threshold(max) {
        return value % max, used;
      }
    }
  }

  /**
   * `secureShuffle`: a Fisher-Yates shuffle of a copy; `draws[i]` are the words
   * consumed by `secureRandom(i + 1)` when position `i` is settled.
   */
  method SecureShuffle<T>(a: seq<T>, draws: seq<seq<nat>>) returns (r: seq<T>)
    requires |draws| >= |a|
    requires forall i | 1 <= i < |a| :: Accepts(draws[i], i + 1)
    ensures |r| == |a|
    ensures multiset(r) == multiset(a)
  {
    if |a| == 0 {
      return a;
    }
    var arr := new T[|a|](k requires 0 <= k < |a| => a[k]);
    assert arr[..] == a;
    var i := |a| - 1;
    while i > 0
      invariant 0 <= i < |a|
      invariant multiset(arr[..]) == multiset(a)
    {
      var j, _ := SecureRandom(i + 1, draws[i]);
      arr[i], arr[j] := arr[j], arr[i];
      i := i - 1;
    }
    r := arr[..];
  }
}
