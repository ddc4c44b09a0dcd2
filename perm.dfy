/**
 * Index permutations shared by the keyed shuffles: the Fisher-Yates shuffle as
 * the source runs it (from the last position down), scattering by a
 * permutation map and its inverse, and the descending sort of insertion points.
 */
module Permutations {

  /** `0, 1, ..., n-1`: the array the shuffles start from. */
  function Identity(n: nat): seq<nat> {
    seq(n, i => i)
  }

  ghost predicate IsPermutation(g: seq<nat>, n: nat) {
    multiset(g) == multiset(Identity(n))
  }

  ghost predicate NoDup<T>(s: seq<T>) {
    forall a, b | 0 <= a < b < |s| :: s[a] != s[b]
  }

  function Swap<T>(s: seq<T>, i: nat, j: nat): seq<T>
    requires i < |s| && j < |s|
  {
    s[i := s[j]][j := s[i]]
  }

  /**
   * `picks[k]` is the index drawn at step `k` of a shuffle of `n` elements,
   * when position `n-1-k` is settled; it never exceeds that position.
   */
  ghost predicate PicksFit(picks: seq<nat>, n: nat) {
    && |picks| + 1 >= n
    && forall k | 0 <= k < n - 1 :: picks[k] < n - k
  }

  /**
   * Fisher-Yates from the back: swap the last element with the drawn one,
   * then shuffle the rest with the remaining picks.
   */
  function FisherYates<T>(s: seq<T>, picks: seq<nat>): seq<T>
    requires PicksFit(picks, |s|)
    decreases |s|
  {
    if |s| <= 1 then s
    else
      var i := |s| - 1;
      var t := Swap(s, i, picks[0]);
      assert PicksFit(picks[1..], i) by {
        forall k | 0 <= k < i - 1 ensures picks[1..][k] < i - k {
          assert picks[1..][k] == picks[k + 1];
        }
      }
      FisherYates(t[..i], picks[1..]) + [t[i]]
  }

  /**
   * One in-place step of `FisherYates`: after swapping position `i` with
   * `picks[0]`, position `i` is settled and the prefix is shuffled by the
   * remaining picks.
   */
  lemma FisherYatesFromArray<T>(before: seq<T>, after: seq<T>, picks: seq<nat>, i: nat)
    requires 0 < i < |before| && PicksFit(picks, i + 1)
    requires after == Swap(before, i, picks[0])
    ensures PicksFit(picks[1..], i)
    ensures FisherYates(before[..i + 1], picks) + before[i + 1..]
      == FisherYates(after[..i], picks[1..]) + after[i..]
  {
    assert PicksFit(picks[1..], i) by {
      forall k | 0 <= k < i - 1 ensures picks[1..][k] < i - k {
        assert picks[1..][k] == picks[k + 1];
      }
    }
    var s := before[..i + 1];
    var t := Swap(s, i, picks[0]);
    assert after[..i + 1] == t;
    assert after[..i] == t[..i];
    assert after[i..] == [t[i]] + before[i + 1..];
  }

  lemma SwapPermutes<T>(s: seq<T>, i: nat, j: nat)
    requires i < |s| && j < |s|
    ensures |Swap(s, i, j)| == |s|
    ensures multiset(Swap(s, i, j)) == multiset(s)
  {
  }

  lemma {:induction false} FisherYatesPermutes<T>(s: seq<T>, picks: seq<nat>)
    requires PicksFit(picks, |s|)
    ensures |FisherYates(s, picks)| == |s|
    ensures multiset(FisherYates(s, picks)) == multiset(s)
    decreases |s|
  {
    if |s| > 1 {
      var i := |s| - 1;
      var t := Swap(s, i, picks[0]);
      FisherYatesStep(s, picks);
      FisherYatesPermutes(t[..i], picks[1..]);
    }
  }

  /** One unfolding of `FisherYates`: swap the last element, then shuffle the prefix with the remaining picks. */
  lemma FisherYatesStep<T>(s: seq<T>, picks: seq<nat>)
    requires PicksFit(picks, |s|) && |s| > 1
    ensures PicksFit(picks[1..], |s| - 1)
    ensures var t := Swap(s, |s| - 1, picks[0]);
      FisherYates(s, picks) == FisherYates(t[..|s| - 1], picks[1..]) + [t[|s| - 1]] &&
      multiset(t[..|s| - 1]) + multiset{t[|s| - 1]} == multiset(s)
  {
    var i := |s| - 1;
    assert PicksFit(picks[1..], i) by {
      forall k | 0 <= k < i - 1 ensures picks[1..][k] < i - k {
        assert picks[1..][k] == picks[k + 1];
      }
    }
    SwapLastPermutes(s, picks[0]);
  }

  /** After swapping the last element with any other, prefix and last element together hold what `s` held. */
  lemma SwapLastPermutes<T>(s: seq<T>, j: nat)
    requires 0 < |s| && j < |s|
    ensures var t := Swap(s, |s| - 1, j);
      multiset(t[..|s| - 1]) + multiset{t[|s| - 1]} == multiset(s)
  {
    var t := Swap(s, |s| - 1, j);
    SwapPermutes(s, |s| - 1, j);
    assert t == t[..|s| - 1] + [t[|s| - 1]];
  }

  lemma {:induction false} IdentityCount(n: nat, v: nat)
    ensures multiset(Identity(n))[v] == if v < n then 1 else 0
  {
    if n > 0 {
      assert Identity(n) == Identity(n - 1) + [n - 1];
      IdentityCount(n - 1, v);
    }
  }

  lemma DuplicateCount<T>(s: seq<T>, a: nat, b: nat)
    requires a < b < |s| && s[a] == s[b]
    ensures multiset(s)[s[a]] >= 2
  {
    assert s == s[..b] + s[b..];
    assert multiset(s) == multiset(s[..b]) + multiset(s[b..]);
    assert s[..b][a] == s[a];
    assert s[b..][0] == s[a];
  }

  /** Multiplicities of at most one mean no element repeats. */
  lemma NoDupFromCounts<T>(s: seq<T>)
    requires forall v :: multiset(s)[v] <= 1
    ensures NoDup(s)
  {
    forall a, b | 0 <= a < b < |s| ensures s[a] != s[b] {
      if s[a] == s[b] {
        DuplicateCount(s, a, b);
      }
    }
  }

  lemma {:induction false} CountsFromNoDup<T>(s: seq<T>, v: T)
    requires NoDup(s)
    ensures multiset(s)[v] <= 1
  {
    if s != [] {
      var init := s[..|s| - 1];
      assert s == init + [s[|s| - 1]];
      CountsFromNoDup(init, v);
      if v == s[|s| - 1] {
        assert v !in init;
      }
    }
  }

  /** A rearrangement of distinct elements has distinct elements, all drawn from the original. */
  lemma PermutedNoDup<T>(s: seq<T>, t: seq<T>)
    requires NoDup(s) && multiset(t) == multiset(s)
    ensures NoDup(t) && |t| == |s|
    ensures forall k | 0 <= k < |t| :: t[k] in s
  {
    assert |t| == |multiset(t)| == |multiset(s)| == |s|;
    forall v ensures multiset(t)[v] <= 1 {
      CountsFromNoDup(s, v);
    }
    NoDupFromCounts(t);
    forall k | 0 <= k < |t| ensures t[k] in s {
      assert t[k] in multiset(t);
    }
  }

  /** The first position of `v` in `g`. */
  function IndexOf(g: seq<nat>, v: nat): (r: nat)
    requires v in g
    ensures r < |g| && g[r] == v
    ensures forall q | 0 <= q < r :: g[q] != v
  {
    if g[0] == v then 0 else 1 + IndexOf(g[1..], v)
  }

  /** What a permutation map of `0..n-1` guarantees. */
  lemma PermutationFacts(g: seq<nat>, n: nat)
    requires IsPermutation(g, n)
    ensures |g| == n
    ensures forall k | 0 <= k < n :: g[k] < n
    ensures forall p: nat | p < n :: p in g
    ensures NoDup(g)
    ensures forall k | 0 <= k < n :: IndexOf(g, g[k]) == k
  {
    calc {
      |g|;
      |multiset(g)|;
      |multiset(Identity(n))|;
      n;
    }
    forall k | 0 <= k < n ensures g[k] < n {
      assert g[k] in multiset(g);
      IdentityCount(n, g[k]);
    }
    forall p: nat | p < n ensures p in g {
      IdentityCount(n, p);
      assert p in multiset(g);
    }
    forall v ensures multiset(g)[v] <= 1 {
      IdentityCount(n, v);
    }
    NoDupFromCounts(g);
  }

  /** Every index below `|g|` occurs in `g`: `g` maps the positions onto themselves. */
  ghost predicate Onto(g: seq<nat>) {
    forall p: nat | p < |g| :: p in g
  }

  /** `out[g[i]] = x[i]` for every `i`: the block permutation by map `g`. */
  function Scatter<T>(x: seq<T>, g: seq<nat>): seq<T>
    requires |g| == |x| && Onto(g)
  {
    seq(|x|, p requires 0 <= p < |x| => x[IndexOf(g, p)])
  }

  /** An array filled by `out[g[k]] = x[k]` for every `k` holds `Scatter(x, g)`. */
  lemma ScatterFromWrites<T>(x: seq<T>, g: seq<nat>, out: seq<T>)
    requires |g| == |x| == |out| && Onto(g)
    requires forall k | 0 <= k < |x| :: g[k] < |out| && out[g[k]] == x[k]
    ensures out == Scatter(x, g)
  {
    forall p | 0 <= p < |x| ensures out[p] == Scatter(x, g)[p] {
      var k := IndexOf(g, p);
      assert out[g[k]] == x[k];
    }
  }

  /** The inverse map: `Inverse(g)[g[i]] == i`. */
  function Inverse(g: seq<nat>): seq<nat>
    requires Onto(g)
  {
    seq(|g|, p requires 0 <= p < |g| => IndexOf(g, p))
  }

  lemma InverseFacts(g: seq<nat>, n: nat)
    requires IsPermutation(g, n)
    ensures |g| == n && forall k | 0 <= k < n :: g[k] < n
    ensures Onto(g) && |Inverse(g)| == n
    ensures forall i | 0 <= i < n :: Inverse(g)[g[i]] == i
    ensures Onto(Inverse(g))
  {
    PermutationFacts(g, n);
    var inv := Inverse(g);
    forall i | 0 <= i < n ensures inv[g[i]] == i {
    }
    forall p: nat | p < n ensures p in inv {
      assert inv[g[p]] == p;
    }
  }

  /** The inverse map is the identity scattered by the map. */
  lemma InverseIsScatter(g: seq<nat>)
    requires Onto(g)
    ensures Inverse(g) == Scatter(Identity(|g|), g)
  {
  }

  /** The inverse of a permutation map is a permutation map. */
  lemma InverseIsPermutation(g: seq<nat>, n: nat)
    requires IsPermutation(g, n)
    ensures Onto(g) && IsPermutation(Inverse(g), n)
  {
    InverseFacts(g, n);
    var inv := Inverse(g);
    forall a, b | 0 <= a < b < |inv| ensures inv[a] != inv[b] {
      assert g[inv[a]] == a && g[inv[b]] == b;
    }
    forall v: nat ensures multiset(inv)[v] == multiset(Identity(n))[v] {
      IdentityCount(n, v);
      if v < n {
        assert v in inv;
        CountsFromNoDup(inv, v);
      } else {
        assert v !in inv;
      }
    }
  }

  /** Scattering by a permutation puts element `i` at position `g[i]`. */
  lemma ScatterPlaces<T>(x: seq<T>, g: seq<nat>)
    requires IsPermutation(g, |x|)
    ensures |g| == |x| && forall k | 0 <= k < |x| :: g[k] < |x|
    ensures Onto(g)
    ensures forall i | 0 <= i < |x| :: Scatter(x, g)[g[i]] == x[i]
  {
    PermutationFacts(g, |x|);
  }

  /** Scattering by the inverse map undoes scattering by the map. */
  lemma ScatterInverse<T>(x: seq<T>, g: seq<nat>)
    requires IsPermutation(g, |x|)
    ensures |g| == |x| && Onto(g) && Onto(Inverse(g))
    ensures Scatter(Scatter(x, g), Inverse(g)) == x
  {
    var n := |x|;
    PermutationFacts(g, n);
    InverseFacts(g, n);
    var y := Scatter(x, g);
    var inv := Inverse(g);
    var z := Scatter(y, inv);
    forall k | 0 <= k < n ensures z[k] == x[k] {
      var r := IndexOf(inv, k);
      assert inv[r] == k;
      assert IndexOf(g, r) == k;
      assert g[k] == r;
    }
  }

  // --------------------------------------------------- descending sort

  ghost predicate Descending(s: seq<nat>) {
    forall a, b | 0 <= a < b < |s| :: s[a] >= s[b]
  }

  function InsertDesc(x: nat, s: seq<nat>): seq<nat> {
    if s == [] || x >= s[0] then [x] + s else [s[0]] + InsertDesc(x, s[1..])
  }

  /** `Array.prototype.sort((a, b) => b - a)` on numbers. */
  function SortDesc(s: seq<nat>): seq<nat> {
    if s == [] then [] else InsertDesc(s[0], SortDesc(s[1..]))
  }

  /** A head no smaller than the first element keeps a sequence descending. */
  lemma ConsDescending(h: nat, r: seq<nat>)
    requires Descending(r) && (r != [] ==> h >= r[0])
    ensures Descending([h] + r)
  {
    forall a, b | 0 <= a < b < |r| + 1 ensures ([h] + r)[a] >= ([h] + r)[b] {
      if a == 0 && b > 1 {
        assert r[0] >= r[b - 1];
      }
    }
  }

  lemma {:induction false} InsertDescFacts(x: nat, s: seq<nat>)
    requires Descending(s)
    ensures multiset(InsertDesc(x, s)) == multiset(s) + multiset{x}
    ensures Descending(InsertDesc(x, s))
    ensures InsertDesc(x, s) != [] && InsertDesc(x, s)[0] == if s == [] || x >= s[0] then x else s[0]
  {
    if s == [] || x >= s[0] {
      ConsDescending(x, s);
    } else {
      var t := s[1..];
      assert Descending(t);
      InsertDescFacts(x, t);
      assert s == [s[0]] + t;
      if t != [] {
        assert s[0] >= s[1] && t[0] == s[1];
      }
      ConsDescending(s[0], InsertDesc(x, t));
    }
  }

  lemma {:induction false} SortDescFacts(s: seq<nat>)
    ensures multiset(SortDesc(s)) == multiset(s)
    ensures Descending(SortDesc(s))
  {
    if s != [] {
      SortDescFacts(s[1..]);
      InsertDescFacts(s[0], SortDesc(s[1..]));
      assert s == [s[0]] + s[1..];
    }
  }

  /** Sorting distinct values descending yields a strictly decreasing sequence. */
  lemma SortDescStrict(s: seq<nat>)
    requires NoDup(s)
    ensures |SortDesc(s)| == |s|
    ensures forall a, b | 0 <= a < b < |s| :: SortDesc(s)[a] > SortDesc(s)[b]
  {
    var r := SortDesc(s);
    assert Descending(r) && multiset(r) == multiset(s) by { SortDescFacts(s); }
    assert |r| == |s| by { assert |r| == |multiset(r)| && |multiset(s)| == |s|; }
    assert NoDup(r) by {
      forall v ensures multiset(r)[v] <= 1 {
        CountsFromNoDup(s, v);
      }
      NoDupFromCounts(r);
    }
    forall a, b | 0 <= a < b < |r| ensures r[a] > r[b] {
      assert r[a] >= r[b] && r[a] != r[b];
    }
  }
}
