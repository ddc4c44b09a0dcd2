/**
 * The keyed `CryptoPrng` of lib/crypto.ts (AES-CTR keystream read as
 * big-endian 32-bit words), the keyed Fisher-Yates shuffle it drives, the
 * permutation map and its inverse, and block permutation and its reversal.
 */
module Prng {
  import opened Wrappers
  import opened Primitives
  import opened ByteUtil
  import opened Permutations
  import opened Kdf

  const BUFFER_SIZE: nat := 1024
  const WORDS_PER_BUFFER: nat := 256

  // ------------------------------------------------------------- counter

  function Pow256(n: nat): (r: nat)
    ensures r >= 1
  {
    if n == 0 then 1 else 256 * Pow256(n - 1)
  }

  /** A big-endian counter block read as a number. */
  function BeValue(c: Bytes): nat {
    if c == [] then 0 else 256 * BeValue(c[..|c| - 1]) + c[|c| - 1] as nat
  }

  /** `incrementCounter`: +1 from the last byte, carrying through bytes equal to 255. */
  function Incremented(c: Bytes): Bytes {
    if c == [] then []
    else if c[|c| - 1] == 255 then Incremented(c[..|c| - 1]) + [0]
    else c[..|c| - 1] + [c[|c| - 1] + 1]
  }

  function IncrementedN(c: Bytes, n: nat): Bytes {
    if n == 0 then c else Incremented(IncrementedN(c, n - 1))
  }

  lemma {:induction false} BeValueBound(c: Bytes)
    ensures BeValue(c) < Pow256(|c|)
  {
    if c != [] {
      BeValueBound(c[..|c| - 1]);
    }
  }

  /** The increment is +1 modulo 256^len: an all-255 counter wraps to all zeros. */
  lemma {:induction false} IncrementedValue(c: Bytes)
    ensures |Incremented(c)| == |c|
    ensures BeValue(Incremented(c)) == (BeValue(c) + 1) % Pow256(|c|)
  {
    if c != [] {
      var init := c[..|c| - 1];
      var r := Incremented(c);
      IncrementedValue(init);
      BeValueBound(init);
      assert r[..|r| - 1] == (if c[|c| - 1] == 255 then Incremented(init) else init);
      var p := Pow256(|init|);
      if c[|c| - 1] == 255 {
        if BeValue(init) + 1 < p {
          ModUnique(BeValue(init) + 1, p, 0, BeValue(init) + 1);
          ModUnique(BeValue(c) + 1, 256 * p, 0, BeValue(c) + 1);
        } else {
          ModUnique(BeValue(init) + 1, p, 1, 0);
          ModUnique(BeValue(c) + 1, 256 * p, 1, 0);
        }
      } else {
        BeValueBound(c);
        ModUnique(BeValue(c) + 1, 256 * p, 0, BeValue(c) + 1);
      }
    }
  }

  lemma {:induction false} IncrementedNLength(c: Bytes, n: nat)
    ensures |IncrementedN(c, n)| == |c|
  {
    if n > 0 {
      IncrementedNLength(c, n - 1);
      IncrementedValue(IncrementedN(c, n - 1));
    }
  }

  // ------------------------------------------------------ keystream words

  /** The keystream buffer of refill number `r` (0-based) of a PRNG seeded with `seed`. */
  function Refill(o: Oracles, seed: Seed, r: nat): Bytes {
    o.aesCtr(seed.key, IncrementedN(seed.counter, r), BUFFER_SIZE)
  }

  /** Word `k` (0-based) returned by `next()` of a fresh PRNG, as an integer below 2^32. */
  function DrawAt(o: Oracles, seed: Seed, k: nat): nat
    requires CtrSound(o)
  {
    ReadU32BE(Refill(o, seed, k / WORDS_PER_BUFFER), 4 * (k % WORDS_PER_BUFFER))
  }

  lemma DrawAtBound(o: Oracles, seed: Seed, k: nat)
    requires CtrSound(o)
    ensures DrawAt(o, seed, k) < TWO_POW_32
  {
    ReadU32Bound(Refill(o, seed, k / WORDS_PER_BUFFER), 4 * (k % WORDS_PER_BUFFER));
  }

  /**
   * `Math.floor(next() * m)` with `next()` = u / 2^32: the index drawn from
   * `0..m-1`.
   */
  function Scale(u: nat, m: nat): nat {
    u * m / TWO_POW_32
  }

  lemma ScaleBound(u: nat, m: nat)
    requires u < TWO_POW_32 && m >= 1
    ensures Scale(u, m) < m
  {
    Distrib(m, u, TWO_POW_32 - u);
    MulAtLeast(m, TWO_POW_32 - u);
    DivBelow(u * m, TWO_POW_32, m);
  }

  /** The indices drawn by a keyed shuffle of `n` elements whose first draw is word `from`. */
  function KeyedPicks(o: Oracles, seed: Seed, from: nat, n: nat): seq<nat>
    requires CtrSound(o)
  {
    seq<nat>(ShuffleDraws(n), (k: nat) requires k < ShuffleDraws(n) => Scale(DrawAt(o, seed, from + k), n - k))
  }

  lemma KeyedPickAt(o: Oracles, seed: Seed, from: nat, n: nat, k: nat)
    requires CtrSound(o) && k < ShuffleDraws(n)
    ensures |KeyedPicks(o, seed, from, n)| == ShuffleDraws(n)
    ensures KeyedPicks(o, seed, from, n)[k] == Scale(DrawAt(o, seed, from + k), n - k)
  {
  }

  lemma KeyedPicksFit(o: Oracles, seed: Seed, from: nat, n: nat)
    requires CtrSound(o)
    ensures PicksFit(KeyedPicks(o, seed, from, n), n)
  {
    var picks := KeyedPicks(o, seed, from, n);
    forall k | 0 <= k < n - 1 ensures picks[k] < n - k {
      DrawAtBound(o, seed, from + k);
      ScaleBound(DrawAt(o, seed, from + k), n - k);
    }
  }

  /** The keyed shuffle of `s` using draws `from`, `from + 1`, ... */
  function KeyedShuffle<T>(o: Oracles, seed: Seed, from: nat, s: seq<T>): seq<T>
    requires CtrSound(o)
  {
    KeyedPicksFit(o, seed, from, |s|);
    FisherYates(s, KeyedPicks(o, seed, from, |s|))
  }

  lemma KeyedShufflePermutes<T>(o: Oracles, seed: Seed, from: nat, s: seq<T>)
    requires CtrSound(o)
    ensures |KeyedShuffle(o, seed, from, s)| == |s|
    ensures multiset(KeyedShuffle(o, seed, from, s)) == multiset(s)
  {
    KeyedPicksFit(o, seed, from, |s|);
    FisherYatesPermutes(s, KeyedPicks(o, seed, from, |s|));
  }

  /** One step of the keyed shuffle: settle the last position with draw `from`, then shuffle the rest from `from + 1`. */
  lemma KeyedShuffleStep<T>(o: Oracles, seed: Seed, from: nat, s: seq<T>)
    requires CtrSound(o) && |s| >= 2
    ensures DrawAt(o, seed, from) < TWO_POW_32
    ensures Scale(DrawAt(o, seed, from), |s|) < |s|
    ensures var t := Swap(s, |s| - 1, Scale(DrawAt(o, seed, from), |s|));
      KeyedShuffle(o, seed, from, s) == KeyedShuffle(o, seed, from + 1, t[..|s| - 1]) + [t[|s| - 1]]
  {
    var n := |s|;
    DrawAtBound(o, seed, from);
    ScaleBound(DrawAt(o, seed, from), n);
    var picks := KeyedPicks(o, seed, from, n);
    KeyedPicksFit(o, seed, from, n);
    KeyedPicksFit(o, seed, from + 1, n - 1);
    var rest := KeyedPicks(o, seed, from + 1, n - 1);
    forall k | 0 <= k < |rest| ensures rest[k] == picks[1..][k] {
      KeyedPickAt(o, seed, from + 1, n - 1, k);
      KeyedPickAt(o, seed, from, n, k + 1);
    }
    assert picks[1..] == rest;
    KeyedPickAt(o, seed, from, n, 0);
  }

  /** The number of draws a shuffle of `n` elements consumes. */
  function ShuffleDraws(n: nat): nat {
    if n == 0 then 0 else n - 1
  }

  // ----------------------------------------------------------- the PRNG

  class CryptoPrng {
    const o: Oracles
    const key: Bytes
    const counter: array<byte>
    var buffer: Bytes
    var bytePosition: nat

    /** The key and initial counter the PRNG was created from. */
    ghost const seed: Seed
    /** Words returned so far, and keystream buffers generated so far. */
    ghost var drawn: nat
    ghost var refills: nat

    ghost predicate Valid()
      reads this, counter
    {
      && CtrSound(o)
      && key == seed.key
      && refills >= 1
      && counter[..] == IncrementedN(seed.counter, refills)
      && buffer == Refill(o, seed, refills - 1)
      && bytePosition <= BUFFER_SIZE && bytePosition % 4 == 0
      && 4 * drawn == BUFFER_SIZE * (refills - 1) + bytePosition
    }

    constructor (o: Oracles, seed: Seed)
      ensures this.o == o && this.seed == seed && key == seed.key
      ensures counter[..] == seed.counter && buffer == [] && bytePosition == 0
      ensures drawn == 0 && refills == 0
      ensures fresh(counter)
    {
      this.o := o;
      this.seed := seed;
      key := seed.key;
      counter := new byte[|seed.counter|](i requires 0 <= i < |seed.counter| => seed.counter[i]);
      buffer := [];
      bytePosition := 0;
      drawn := 0;
      refills := 0;
    }

    /** `CryptoPrng.create`: construct, then fill the first buffer. */
    static method Create(o: Oracles, seed: Seed) returns (p: CryptoPrng)
      requires CtrSound(o)
      ensures p.Valid() && p.o == o && p.seed == seed && p.drawn == 0
      ensures fresh(p) && fresh(p.counter)
    {
      p := new CryptoPrng(o, seed);
      assert p.counter[..] == IncrementedN(seed.counter, 0);
      p.GenerateMoreBytes();
    }

    /** Big-endian +1 of the counter block, in place. */
    method IncrementCounter()
      modifies counter
      ensures counter[..] == Incremented(old(counter[..]))
    {
      ghost var c0 := counter[..];
      var i := counter.Length - 1;
      assert c0[..i + 1] == c0;
      while i >= 0
        invariant -1 <= i < counter.Length
        invariant counter[..i + 1] == c0[..i + 1]
        invariant forall k | i < k < counter.Length :: counter[k] == 0
        invariant Incremented(c0) == Incremented(c0[..i + 1]) + counter[i + 1..]
      {
        assert c0[..i + 1][..i] == c0[..i];
        if counter[i] == 255 {
          counter[i] := 0;
          assert counter[i..] == [0] + counter[i + 1..];
        } else {
          counter[i] := counter[i] + 1;
          assert counter[..] == c0[..i] + [c0[i] + 1] + counter[i + 1..];
          return;
        }
        i := i - 1;
      }
      assert counter[..] == counter[0..];
    }

    /** Encrypt 1024 zero bytes from the current counter, restart at 0, step the counter. */
    method GenerateMoreBytes()
      requires CtrSound(o) && key == seed.key
      requires counter[..] == IncrementedN(seed.counter, refills)
      requires 4 * drawn == BUFFER_SIZE * refills
      modifies this, counter
      ensures Valid()
      ensures refills == old(refills) + 1 && drawn == old(drawn) && bytePosition == 0
      ensures buffer == Refill(o, seed, old(refills))
    {
      buffer := o.aesCtr(key, counter[..], BUFFER_SIZE);
      bytePosition := 0;
      IncrementCounter();
      refills := refills + 1;
    }

    /** `next()`: the next big-endian word, refilling first when fewer than 4 bytes remain. */
    method Next() returns (u: nat)
      requires Valid()
      modifies this, counter
      ensures Valid()
      ensures drawn == old(drawn) + 1
      ensures u == DrawAt(o, seed, old(drawn)) && u < TWO_POW_32
      ensures old(bytePosition) + 4 <= BUFFER_SIZE ==>
        refills == old(refills) && bytePosition == old(bytePosition) + 4
      ensures old(bytePosition) + 4 > BUFFER_SIZE ==>
        refills == old(refills) + 1 && bytePosition == 4
    {
      if bytePosition + 4 > |buffer| {
        GenerateMoreBytes();
      }
      assert |buffer| == BUFFER_SIZE && bytePosition + 4 <= BUFFER_SIZE;
      ghost var q := bytePosition / 4;
      assert drawn == WORDS_PER_BUFFER * (refills - 1) + q;
      ModUnique(drawn, WORDS_PER_BUFFER, refills - 1, q);
      assert DrawAt(o, seed, drawn) == ReadU32BE(buffer, bytePosition);
      u := ReadU32BE(buffer, bytePosition);
      ReadU32Bound(buffer, bytePosition);
      bytePosition := bytePosition + 4;
      drawn := drawn + 1;
    }
  }

  /** One iteration of the shuffle loop: swap a[i] with a[floor(next() * (i + 1))]. */
  method SwapWithDraw(prng: CryptoPrng, a: array<nat>, i: nat)
    requires prng.Valid() && 0 < i < a.Length
    modifies a, prng, prng.counter
    ensures prng.Valid() && prng.drawn == old(prng.drawn) + 1
    ensures Scale(DrawAt(prng.o, prng.seed, old(prng.drawn)), i + 1) <= i
    ensures a[..] == Swap(old(a[..]), i, Scale(DrawAt(prng.o, prng.seed, old(prng.drawn)), i + 1))
  {
    var u := prng.Next();
    var j := Scale(u, i + 1);
    ScaleBound(u, i + 1);
    a[i], a[j] := a[j], a[i];
  }

  /**
   * The in-place Fisher-Yates loop shared by `generatePermutationMap`, the text
   * embedder and the image embedder: for i from the end down to 1, swap a[i]
   * with a[floor(next() * (i + 1))].
   */
  method ShuffleInPlace(prng: CryptoPrng, a: array<nat>)
    requires prng.Valid()
    modifies a, prng, prng.counter
    ensures prng.Valid()
    ensures prng.drawn == old(prng.drawn) + ShuffleDraws(a.Length)
    ensures a[..] == KeyedShuffle(prng.o, prng.seed, old(prng.drawn), old(a[..]))
  {
    var n := a.Length;
    if n == 0 {
      return;
    }
    ghost var o, seed, d0 := prng.o, prng.seed, prng.drawn;
    ghost var goal := KeyedShuffle(o, seed, d0, a[..]);
    var i := n - 1;
    assert a[..i + 1] == a[..] && a[i + 1..] == [];
    while i > 0
      invariant 0 <= i < n
      invariant prng.Valid() && prng.drawn == d0 + (n - 1 - i)
      invariant ShuffledSoFar(prng, a, i, goal)
    {
      ShuffleStep(prng, a, i, goal);
      i := i - 1;
    }
    assert a[..] == a[..1] + a[1..];
  }

  /** Loop invariant of `ShuffleInPlace`: positions above `i` are final, the rest still to shuffle. */
  ghost predicate ShuffledSoFar(prng: CryptoPrng, a: array<nat>, i: nat, goal: seq<nat>)
    reads prng, prng.counter, a
  {
    && prng.Valid() && i < a.Length
    && goal == KeyedShuffle(prng.o, prng.seed, prng.drawn, a[..i + 1]) + a[i + 1..]
  }

  /** One iteration of `ShuffleInPlace`, which keeps its invariant. */
  method ShuffleStep(prng: CryptoPrng, a: array<nat>, i: nat, ghost goal: seq<nat>)
    requires prng.Valid() && 0 < i < a.Length
    requires ShuffledSoFar(prng, a, i, goal)
    modifies a, prng, prng.counter
    ensures prng.Valid() && prng.drawn == old(prng.drawn) + 1
    ensures ShuffledSoFar(prng, a, i - 1, goal)
  {
    ghost var o, seed, d, before := prng.o, prng.seed, prng.drawn, a[..];
    SwapWithDraw(prng, a, i);
    KeyedShuffleFromArray(o, seed, d, before, a[..], i);
  }

  /** The loop invariant of `ShuffleInPlace` survives one swap step. */
  lemma KeyedShuffleFromArray(o: Oracles, seed: Seed, d: nat, before: seq<nat>, after: seq<nat>, i: nat)
    requires CtrSound(o) && 0 < i < |before|
    requires Scale(DrawAt(o, seed, d), i + 1) <= i
    requires after == Swap(before, i, Scale(DrawAt(o, seed, d), i + 1))
    ensures KeyedShuffle(o, seed, d, before[..i + 1]) + before[i + 1..]
      == KeyedShuffle(o, seed, d + 1, after[..i]) + after[i..]
  {
    var s := before[..i + 1];
    var j := Scale(DrawAt(o, seed, d), i + 1);
    KeyedShuffleStep(o, seed, d, s);
    var t := Swap(s, i, j);
    assert after[..i + 1] == t;
    assert after[..i] == t[..i];
    assert after[i..] == [t[i]] + before[i + 1..];
  }

  // ------------------------------------------------------ permutation map

  /** The forward map of a permutation of `n` blocks, from a fresh PRNG. */
  function Forward(o: Oracles, seed: Seed, n: nat): seq<nat>
    requires CtrSound(o)
  {
    KeyedShuffle(o, seed, 0, Identity(n))
  }

  lemma ForwardIsPermutation(o: Oracles, seed: Seed, n: nat)
    requires CtrSound(o)
    ensures IsPermutation(Forward(o, seed, n), n)
    ensures Onto(Forward(o, seed, n)) && |Forward(o, seed, n)| == n
  {
    KeyedShufflePermutes(o, seed, 0, Identity(n));
    PermutationFacts(Forward(o, seed, n), n);
  }

  /** `generatePermutationMap`: the shuffled identity and the map that undoes it. */
  method GeneratePermutationMap(prng: CryptoPrng, size: nat) returns (forward: array<nat>, inverse: array<nat>)
    requires prng.Valid()
    modifies prng, prng.counter
    ensures prng.Valid() && prng.drawn == old(prng.drawn) + ShuffleDraws(size)
    ensures forward[..] == KeyedShuffle(prng.o, prng.seed, old(prng.drawn), Identity(size))
    ensures IsPermutation(forward[..], size)
    ensures forward.Length == size && inverse.Length == size
    ensures forall i | 0 <= i < size :: forward[i] < size && inverse[forward[i]] == i
    ensures Onto(forward[..]) && inverse[..] == Inverse(forward[..])
    ensures fresh(forward) && fresh(inverse)
  {
    forward := new nat[size](i => i);
    assert forward[..] == Identity(size);
    ShuffleInPlace(prng, forward);
    KeyedShufflePermutes(prng.o, prng.seed, old(prng.drawn), Identity(size));
    inverse := ScatterArray(Identity(size), forward);
    InverseIsScatter(forward[..]);
    InverseFacts(forward[..], size);
  }

  /**
   * The loop `out[g[i]] = x[i]` for every `i`, shared by the inverse map and
   * both block permutations.
   */
  method ScatterArray<T>(x: seq<T>, g: array<nat>) returns (out: array<T>)
    requires IsPermutation(g[..], |x|)
    ensures |g[..]| == |x| && Onto(g[..])
    ensures out[..] == Scatter(x, g[..])
    ensures fresh(out)
  {
    ghost var gs := g[..];
    PermutationFacts(gs, |x|);
    out := new T[|x|](i requires 0 <= i < |x| => x[i]);
    for i := 0 to |x|
      invariant g[..] == gs
      invariant forall k | 0 <= k < i :: out[gs[k]] == x[k]
    {
      var p := g[i];
      assert p == gs[i];
      forall k | 0 <= k < i ensures gs[k] != p {
        assert gs[k] != gs[i];
      }
      out[p] := x[i];
    }
    ScatterFromWrites(x, gs, out[..]);
  }

  const BLOCK_PERMUTATION_SALT: string := "block-permutation-key-salt:"

  /** `applyBlockPermutation`: empty data passes through; otherwise block i moves to forward[i]. */
  function ApplyPermutation(o: Oracles, data: Bytes, keyB64: string): Result<Bytes>
    requires CtrSound(o)
  {
    if |data| == 0 then Ok(data)
    else match PrngMaterial(o, keyB64, BLOCK_PERMUTATION_SALT)
      case Err(e) => Err(e)
      case Ok(seed) =>
        ForwardIsPermutation(o, seed, |data|);
        Ok(Scatter(data, Forward(o, seed, |data|)))
  }

  /** `reverseBlockPermutation`: block i moves to inverse[i]. */
  function ReversePermutation(o: Oracles, data: Bytes, keyB64: string): Result<Bytes>
    requires CtrSound(o)
  {
    if |data| == 0 then Ok(data)
    else match PrngMaterial(o, keyB64, BLOCK_PERMUTATION_SALT)
      case Err(e) => Err(e)
      case Ok(seed) =>
        ForwardIsPermutation(o, seed, |data|);
        InverseFacts(Forward(o, seed, |data|), |data|);
        Ok(Scatter(data, Inverse(Forward(o, seed, |data|))))
  }

  method ApplyBlockPermutation(o: Oracles, data: Bytes, keyB64: string) returns (r: Result<Bytes>)
    requires HmacSound(o) && CtrSound(o)
    ensures r.Ok? ==> |r.value| == |data|
    ensures data == [] ==> r == Ok(data)
    ensures r == ApplyPermutation(o, data, keyB64)
  {
    if |data| == 0 {
      return Ok(data);
    }
    var material := GetPrngMaterialFromKey(o, keyB64, BLOCK_PERMUTATION_SALT);
    if material.Err? {
      return Err(material.msg);
    }
    var prng := CryptoPrng.Create(o, material.value);
    var forward, _ := GeneratePermutationMap(prng, |data|);
    var permuted := ScatterArray(data, forward);
    r := Ok(permuted[..]);
  }

  method ReverseBlockPermutation(o: Oracles, data: Bytes, keyB64: string) returns (r: Result<Bytes>)
    requires HmacSound(o) && CtrSound(o)
    ensures r.Ok? ==> |r.value| == |data|
    ensures data == [] ==> r == Ok(data)
    ensures r == ReversePermutation(o, data, keyB64)
  {
    if |data| == 0 {
      return Ok(data);
    }
    var material := GetPrngMaterialFromKey(o, keyB64, BLOCK_PERMUTATION_SALT);
    if material.Err? {
      return Err(material.msg);
    }
    var prng := CryptoPrng.Create(o, material.value);
    var forward, inverse := GeneratePermutationMap(prng, |data|);
    InverseFacts(forward[..], |data|);
    InverseIsPermutation(forward[..], |data|);
    var original := ScatterArray(data, inverse);
    r := Ok(original[..]);
  }

  /** Reversing the block permutation under the same key restores the data. */
  lemma PermutationRoundTrip(o: Oracles, data: Bytes, keyB64: string)
    requires CtrSound(o)
    requires ApplyPermutation(o, data, keyB64).Ok?
    ensures ReversePermutation(o, ApplyPermutation(o, data, keyB64).value, keyB64) == Ok(data)
  {
    if |data| > 0 {
      var seed := PrngMaterial(o, keyB64, BLOCK_PERMUTATION_SALT).value;
      ForwardIsPermutation(o, seed, |data|);
      ScatterInverse(data, Forward(o, seed, |data|));
    }
  }
}
