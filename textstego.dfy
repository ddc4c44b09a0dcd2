/**
 * Zero-width text steganography. A key picks three of five zero-width
 * characters for the bits 0 and 1 and for the end marker; the bits of the data
 * and the end marker are then inserted into the carrier at keyed positions.
 * Extraction reads the symbols in order up to the first end marker.
 */
module TextStego {
  import opened Wrappers
  import opened Primitives
  import opened ByteUtil
  import opened Permutations
  import opened Kdf
  import opened Prng

  /** Zero width space, non-joiner, joiner, word joiner and no-break space. */
  const ZW_CHARS: seq<char> := ['\U{200B}', '\U{200C}', '\U{200D}', '\U{2060}', '\U{FEFF}']

  const CONFIG_SALT: string := "steg-config-salt"
  const SHUFFLE_SALT: string := "text-steganography-shuffle-salt"
  const CARRIER_TOO_SHORT: string :=
    "Carrier text is too short to embed the data. Please provide a longer carrier or reduce the payload size."

  /** The characters standing for a 0 bit, a 1 bit and the end of the data. */
  datatype StegoConfig = StegoConfig(zero: char, one: char, end: char)

  function Symbols(cfg: StegoConfig): set<char> {
    {cfg.zero, cfg.one, cfg.end}
  }

  ghost predicate Distinct(cfg: StegoConfig) {
    cfg.zero != cfg.one && cfg.zero != cfg.end && cfg.one != cfg.end
  }

  // ------------------------------------------------------- configuration

  /** The hash that drives the character shuffle. */
  function ConfigHash(o: Oracles, key: string): Bytes {
    o.sha256(o.utf8Encode(key + CONFIG_SALT))
  }

  /** Step `k` of the shuffle settles position `4 - k` with index `hash[i % 32] % (i + 1)`. */
  function ConfigPicks(hash: Bytes): (picks: seq<nat>)
    requires |hash| > 0
    ensures PicksFit(picks, |ZW_CHARS|)
  {
    seq(4, k requires 0 <= k < 4 => (hash[(4 - k) % |hash|] as nat) % (5 - k))
  }

  /** The configuration a key selects: the first three characters of the hash-shuffled pool. */
  function ConfigOf(o: Oracles, key: string): StegoConfig
    requires Sha256Sound(o)
  {
    var s := FisherYates(ZW_CHARS, ConfigPicks(ConfigHash(o, key)));
    FisherYatesPermutes(ZW_CHARS, ConfigPicks(ConfigHash(o, key)));
    StegoConfig(s[0], s[1], s[2])
  }

  /** Every key selects three pairwise distinct characters of the pool. */
  lemma ConfigDistinct(o: Oracles, key: string)
    requires Sha256Sound(o)
    ensures Distinct(ConfigOf(o, key))
    ensures Symbols(ConfigOf(o, key)) <= set c | c in ZW_CHARS
  {
    var picks := ConfigPicks(ConfigHash(o, key));
    var s := FisherYates(ZW_CHARS, picks);
    FisherYatesPermutes(ZW_CHARS, picks);
    PoolDistinct();
    PermutedNoDup(ZW_CHARS, s);
  }

  lemma PoolDistinct()
    ensures NoDup(ZW_CHARS)
  {
  }

  /** `getStegoConfig`: the in-place hash-driven shuffle of the pool. */
  method GetStegoConfig(o: Oracles, key: string) returns (cfg: StegoConfig)
    requires Sha256Sound(o)
    ensures cfg == ConfigOf(o, key)
  {
    var hash := o.sha256(o.utf8Encode(key + CONFIG_SALT));
    ghost var picks := ConfigPicks(hash);
    var shuffled := new char[5](k requires 0 <= k < 5 => ZW_CHARS[k]);
    ghost var goal := FisherYates(ZW_CHARS, picks);
    assert shuffled[..] == ZW_CHARS;
    var i := 4;
    ghost var left := picks;
    assert shuffled[..i + 1] == shuffled[..] && shuffled[i + 1..] == [];
    while i > 0
      invariant 0 <= i <= 4 && left == picks[4 - i..]
      invariant PicksFit(left, i + 1)
      invariant goal == FisherYates(shuffled[..i + 1], left) + shuffled[i + 1..]
    {
      var j := (hash[i % |hash|] as nat) % (i + 1);
      assert j == left[0];
      ghost var before := shuffled[..];
      shuffled[i], shuffled[j] := shuffled[j], shuffled[i];
      FisherYatesFromArray(before, shuffled[..], left, i);
      left := left[1..];
      i := i - 1;
    }
    assert shuffled[..] == shuffled[..1] + shuffled[1..];
    cfg := StegoConfig(shuffled[0], shuffled[1], shuffled[2]);
  }

  // ---------------------------------------------------------- insertion

  /** The symbols for `bits`, then the end marker. */
  function HiddenChars(cfg: StegoConfig, bits: seq<Bit>): (r: seq<char>)
    ensures |r| == |bits| + 1 && r[|bits|] == cfg.end
    ensures forall k | 0 <= k < |bits| :: r[k] == if bits[k] == 1 then cfg.one else cfg.zero
  {
    seq(|bits|, k requires 0 <= k < |bits| => if bits[k] == 1 then cfg.one else cfg.zero) + [cfg.end]
  }

  /** `splice(point, 0, c)`. */
  function Insert(cs: seq<char>, point: nat, c: char): seq<char>
    requires point <= |cs|
  {
    cs[..point] + [c] + cs[point..]
  }

  ghost predicate PointsFit(pts: seq<nat>, n: nat) {
    Descending(pts) && forall k | 0 <= k < |pts| :: pts[k] <= n
  }

  /**
   * The carrier after inserting `hid[|hid| - 1 - k]` at `pts[k]` for each `k`
   * in turn: the last symbol goes to the largest point, and each later
   * insertion lands before all earlier ones.
   */
  function Woven(cs: seq<char>, pts: seq<nat>, hid: seq<char>): (r: seq<char>)
    requires |pts| == |hid| && PointsFit(pts, |cs|)
    ensures |r| == |cs| + |hid|
    decreases |pts|
  {
    if pts == [] then cs
    else
      var p := pts[0];
      assert PointsFit(pts[1..], p) by {
        forall k | 0 <= k < |pts| - 1 ensures pts[1..][k] <= p {
          assert pts[1..][k] == pts[k + 1];
        }
      }
      Woven(cs[..p], pts[1..], hid[..|hid| - 1]) + [hid[|hid| - 1]] + cs[p..]
  }

  /** Insertions below the end of `a` leave whatever follows `a` alone. */
  lemma {:induction false} WovenAppend(a: seq<char>, b: seq<char>, pts: seq<nat>, hid: seq<char>)
    requires |pts| == |hid| && PointsFit(pts, |a|)
    ensures PointsFit(pts, |a + b|)
    ensures Woven(a + b, pts, hid) == Woven(a, pts, hid) + b
  {
    assert PointsFit(pts, |a + b|);
    if pts != [] {
      var p := pts[0];
      var rest := Woven(a[..p], pts[1..], hid[..|hid| - 1]) + [hid[|hid| - 1]];
      assert (a + b)[..p] == a[..p];
      assert (a + b)[p..] == a[p..] + b;
      assert Woven(a + b, pts, hid) == rest + (a[p..] + b);
      assert Woven(a, pts, hid) == rest + a[p..];
    }
  }

  /** The splice loop's invariant: one insertion leaves the rest of the work unchanged. */
  lemma WovenInsert(cs: seq<char>, pts: seq<nat>, hid: seq<char>)
    requires |pts| == |hid| && PointsFit(pts, |cs|) && pts != []
    ensures PointsFit(pts[1..], |cs| + 1)
    ensures Woven(Insert(cs, pts[0], hid[|hid| - 1]), pts[1..], hid[..|hid| - 1]) == Woven(cs, pts, hid)
  {
    var p := pts[0];
    assert PointsFit(pts[1..], p) by {
      forall k | 0 <= k < |pts| - 1 ensures pts[1..][k] <= p {
        assert pts[1..][k] == pts[k + 1];
      }
    }
    var h := hid[|hid| - 1];
    assert Insert(cs, p, h) == cs[..p] + ([h] + cs[p..]);
    WovenAppend(cs[..p], [h] + cs[p..], pts[1..], hid[..|hid| - 1]);
  }

  // -------------------------------------------------- keeping and dropping

  /** The characters of `s` that are in `k`, in order. */
  function Keep(s: seq<char>, k: set<char>): seq<char> {
    if s == [] then [] else (if s[0] in k then [s[0]] else []) + Keep(s[1..], k)
  }

  /** The characters of `s` that are not in `k`, in order. */
  function Drop(s: seq<char>, k: set<char>): seq<char> {
    if s == [] then [] else (if s[0] in k then [] else [s[0]]) + Drop(s[1..], k)
  }

  lemma {:induction false} KeepAppend(a: seq<char>, b: seq<char>, k: set<char>)
    ensures Keep(a + b, k) == Keep(a, k) + Keep(b, k)
    ensures Drop(a + b, k) == Drop(a, k) + Drop(b, k)
  {
    if a == [] {
      assert a + b == b;
    } else {
      var ab := a + b;
      assert ab != [] && ab[0] == a[0] && ab[1..] == a[1..] + b;
      KeepAppend(a[1..], b, k);
      var head := if a[0] in k then [a[0]] else [];
      assert Keep(ab, k) == head + Keep(a[1..] + b, k);
      assert Keep(a, k) == head + Keep(a[1..], k);
      var dhead := if a[0] in k then [] else [a[0]];
      assert Drop(ab, k) == dhead + Drop(a[1..] + b, k);
      assert Drop(a, k) == dhead + Drop(a[1..], k);
    }
  }

  lemma KeepOnly(a: seq<char>, b: seq<char>, k: set<char>)
    ensures Keep(a + b, k) == Keep(a, k) + Keep(b, k)
  {
    KeepAppend(a, b, k);
  }

  lemma DropOnly(a: seq<char>, b: seq<char>, k: set<char>)
    ensures Drop(a + b, k) == Drop(a, k) + Drop(b, k)
  {
    KeepAppend(a, b, k);
  }

  /** A text with none of the characters of `k` loses nothing when they are deleted. */
  lemma {:induction false} DropClean(s: seq<char>, k: set<char>)
    requires Keep(s, k) == []
    ensures Drop(s, k) == s
  {
    if s != [] {
      assert s[0] !in k;
      DropClean(s[1..], k);
      assert [s[0]] + s[1..] == s;
    }
  }

  /** One step of `Woven`: the recursive weave below the first point, the symbol, then the rest. */
  lemma WovenStep(cs: seq<char>, pts: seq<nat>, hid: seq<char>)
    requires |pts| == |hid| && PointsFit(pts, |cs|) && pts != []
    ensures PointsFit(pts[1..], pts[0]) && pts[0] <= |cs|
    ensures Woven(cs, pts, hid) ==
      Woven(cs[..pts[0]], pts[1..], hid[..|hid| - 1]) + [hid[|hid| - 1]] + cs[pts[0]..]
  {
    var p := pts[0];
    assert PointsFit(pts[1..], p) by {
      forall j | 0 <= j < |pts| - 1 ensures pts[1..][j] <= p {
        assert pts[1..][j] == pts[j + 1];
      }
    }
  }

  /** Deleting the inserted symbols from the woven text gives back the carrier's other characters. */
  lemma {:induction false} WovenDrop(cs: seq<char>, pts: seq<nat>, hid: seq<char>, k: set<char>)
    requires |pts| == |hid| && PointsFit(pts, |cs|)
    requires forall i | 0 <= i < |hid| :: hid[i] in k
    ensures Drop(Woven(cs, pts, hid), k) == Drop(cs, k)
    decreases |pts|
  {
    if pts != [] {
      var p := pts[0];
      var h := hid[|hid| - 1];
      WovenStep(cs, pts, hid);
      var w := Woven(cs[..p], pts[1..], hid[..|hid| - 1]);
      WovenDrop(cs[..p], pts[1..], hid[..|hid| - 1], k);
      DropOnly(w, [h], k);
      DropOnly(w + [h], cs[p..], k);
      DropOnly(cs[..p], cs[p..], k);
      assert Drop([h], k) == [];
      assert cs[..p] + cs[p..] == cs;
    }
  }

  /** In a carrier free of symbols, the symbols of the woven text are exactly `hid`, in order. */
  lemma {:induction false} WovenKeep(cs: seq<char>, pts: seq<nat>, hid: seq<char>, k: set<char>)
    requires |pts| == |hid| && PointsFit(pts, |cs|)
    requires forall i | 0 <= i < |hid| :: hid[i] in k
    requires Keep(cs, k) == []
    ensures Keep(Woven(cs, pts, hid), k) == hid
    decreases |pts|
  {
    if pts != [] {
      var p := pts[0];
      var h := hid[|hid| - 1];
      WovenStep(cs, pts, hid);
      KeepOnly(cs[..p], cs[p..], k);
      assert cs[..p] + cs[p..] == cs;
      var w := Woven(cs[..p], pts[1..], hid[..|hid| - 1]);
      WovenKeep(cs[..p], pts[1..], hid[..|hid| - 1], k);
      KeepOnly(w, [h], k);
      KeepOnly(w + [h], cs[p..], k);
      assert Keep([h], k) == [h];
      assert hid[..|hid| - 1] + [h] == hid;
    }
  }

  // ---------------------------------------------------------- embedding

  /**
   * Where the symbols go: the first `m` entries of the keyed shuffle of
   * `0..n-1`, sorted descending.
   */
  function InsertionPoints(o: Oracles, seed: Seed, n: nat, m: nat): (pts: seq<nat>)
    requires CtrSound(o) && m <= n && n >= 1
    ensures |pts| == m && PointsFit(pts, n - 1)
    ensures forall a, b | 0 <= a < b < m :: pts[a] > pts[b]
  {
    ForwardIsPermutation(o, seed, n);
    var g := Forward(o, seed, n);
    PermutationFacts(g, n);
    var pre := g[..m];
    SortDescFacts(pre);
    assert NoDup(pre);
    SortDescStrict(pre);
    var pts := SortDesc(pre);
    forall k | 0 <= k < m ensures pts[k] <= n - 1 {
      assert pts[k] in multiset(pre);
    }
    pts
  }

  /** What `embed` returns. */
  function EmbedSpec(o: Oracles, carrier: string, data: Bytes, key: string): Result<string>
    requires Sha256Sound(o) && CtrSound(o)
  {
    var hid := HiddenChars(ConfigOf(o, key), BitsOf(data));
    if |hid| > |carrier| + 1 then Err(CARRIER_TOO_SHORT)
    else match PrngMaterial(o, key, SHUFFLE_SALT)
      case Err(e) => Err(e)
      case Ok(seed) => Ok(Woven(carrier, InsertionPoints(o, seed, |carrier| + 1, |hid|), hid))
  }

  /** `embed`: shuffle the insertion slots, take as many as symbols, splice from the back. */
  method Embed(o: Oracles, carrier: string, data: Bytes, key: string) returns (r: Result<string>)
    requires Sha256Sound(o) && CtrSound(o) && HmacSound(o)
    ensures r == EmbedSpec(o, carrier, data, key)
  {
    var cfg := GetStegoConfig(o, key);
    var binary := BytesToBinaryString(data);
    var hidden := HiddenChars(cfg, binary);
    if |hidden| > |carrier| + 1 {
      return Err(CARRIER_TOO_SHORT);
    }
    var material := GetPrngMaterialFromKey(o, key, SHUFFLE_SALT);
    if material.Err? {
      return Err(material.msg);
    }
    var prng := CryptoPrng.Create(o, material.value);
    var indices := new nat[|carrier| + 1](i => i);
    assert indices[..] == Identity(|carrier| + 1);
    ShuffleInPlace(prng, indices);
    var points := SortDesc(indices[..|hidden|]);
    ghost var pts := InsertionPoints(o, material.value, |carrier| + 1, |hidden|);
    assert points == pts;
    var chars := SpliceAll(carrier, points, hidden);
    return Ok(chars);
  }

  /** The splice loop of `embed`: insert the last symbol at the first point, and so on. */
  method SpliceAll(carrier: string, points: seq<nat>, hidden: seq<char>) returns (chars: string)
    requires |points| == |hidden| && PointsFit(points, |carrier|)
    ensures chars == Woven(carrier, points, hidden)
  {
    chars := carrier;
    assert points[0..] == points && hidden[..|hidden|] == hidden;
    for index := 0 to |points|
      invariant |chars| == |carrier| + index
      invariant PointsFit(points[index..], |chars|)
      invariant Woven(chars, points[index..], hidden[..|hidden| - index]) == Woven(carrier, points, hidden)
    {
      WovenInsert(chars, points[index..], hidden[..|hidden| - index]);
      assert hidden[..|hidden| - index][|hidden| - index - 1] == hidden[|hidden| - 1 - index];
      assert hidden[..|hidden| - index][..|hidden| - index - 1] == hidden[..|hidden| - (index + 1)];
      assert points[index..][1..] == points[index + 1..];
      chars := Insert(chars, points[index], hidden[|hidden| - 1 - index]);
    }
    assert points[|points|..] == [];
  }

  /** `embed` fails exactly when the symbols outnumber the slots or the key is not base64. */
  lemma EmbedFailure(o: Oracles, carrier: string, data: Bytes, key: string)
    requires Sha256Sound(o) && CtrSound(o)
    ensures EmbedSpec(o, carrier, data, key).Err? <==>
      8 * |data| + 1 > |carrier| + 1 || PrngMaterial(o, key, SHUFFLE_SALT).Err?
    ensures 8 * |data| + 1 > |carrier| + 1 ==> EmbedSpec(o, carrier, data, key) == Err(CARRIER_TOO_SHORT)
  {
    BitsOfLayout(data);
  }

  /** The output is the carrier plus `8n + 1` symbols. */
  lemma EmbedLength(o: Oracles, carrier: string, data: Bytes, key: string)
    requires Sha256Sound(o) && CtrSound(o)
    requires EmbedSpec(o, carrier, data, key).Ok?
    ensures |EmbedSpec(o, carrier, data, key).value| == |carrier| + 8 * |data| + 1
  {
    BitsOfLayout(data);
  }

  /** A successful `embed` weaves the hidden symbols, all of them the key's, in at points that fit the carrier. */
  lemma EmbedWoven(o: Oracles, carrier: string, data: Bytes, key: string)
    requires Sha256Sound(o) && CtrSound(o)
    requires EmbedSpec(o, carrier, data, key).Ok?
    ensures
      var hid := HiddenChars(ConfigOf(o, key), BitsOf(data));
      && |hid| <= |carrier| + 1 && PrngMaterial(o, key, SHUFFLE_SALT).Ok?
      && var pts := InsertionPoints(o, PrngMaterial(o, key, SHUFFLE_SALT).value, |carrier| + 1, |hid|);
      && EmbedSpec(o, carrier, data, key).value == Woven(carrier, pts, hid)
      && |pts| == |hid| && PointsFit(pts, |carrier|)
      && (forall i | 0 <= i < |hid| :: hid[i] in Symbols(ConfigOf(o, key)))
  {
  }

  /**
   * Deleting the key's symbols from the output gives back the carrier without
   * them, and so the carrier itself when it held none.
   */
  lemma {:induction false} EmbedKeepsCarrier(o: Oracles, carrier: string, data: Bytes, key: string)
    requires Sha256Sound(o) && CtrSound(o)
    requires EmbedSpec(o, carrier, data, key).Ok?
    ensures Drop(EmbedSpec(o, carrier, data, key).value, Symbols(ConfigOf(o, key)))
      == Drop(carrier, Symbols(ConfigOf(o, key)))
    ensures Keep(carrier, Symbols(ConfigOf(o, key))) == [] ==>
      Drop(EmbedSpec(o, carrier, data, key).value, Symbols(ConfigOf(o, key))) == carrier
  {
    if Keep(carrier, Symbols(ConfigOf(o, key))) == [] {
      DropClean(carrier, Symbols(ConfigOf(o, key)));
    }
    var hid := HiddenChars(ConfigOf(o, key), BitsOf(data));
    EmbedWoven(o, carrier, data, key);
    var pts := InsertionPoints(o, PrngMaterial(o, key, SHUFFLE_SALT).value, |carrier| + 1, |hid|);
    WovenDrop(carrier, pts, hid, Symbols(ConfigOf(o, key)));
  }

  /**
   * In a carrier free of the key's symbols, the output's symbols are the data
   * bits in order followed by the end marker.
   */
  lemma {:induction false} EmbedSymbolOrder(o: Oracles, carrier: string, data: Bytes, key: string)
    requires Sha256Sound(o) && CtrSound(o)
    requires EmbedSpec(o, carrier, data, key).Ok?
    requires Keep(carrier, Symbols(ConfigOf(o, key))) == []
    ensures Keep(EmbedSpec(o, carrier, data, key).value, Symbols(ConfigOf(o, key)))
      == HiddenChars(ConfigOf(o, key), BitsOf(data))
  {
    var hid := HiddenChars(ConfigOf(o, key), BitsOf(data));
    EmbedWoven(o, carrier, data, key);
    var pts := InsertionPoints(o, PrngMaterial(o, key, SHUFFLE_SALT).value, |carrier| + 1, |hid|);
    WovenKeep(carrier, pts, hid, Symbols(ConfigOf(o, key)));
  }

  // ---------------------------------------------------------- extraction

  /** The bits read so far and whether the end marker was reached. */
  datatype Scan = Scan(bits: seq<Bit>, found: bool)

  /** Reading `text` up to the first end marker; other characters are skipped. */
  function ScanText(text: string, cfg: StegoConfig): Scan {
    if text == [] then Scan([], false)
    else if text[0] == cfg.end then Scan([], true)
    else
      var rest := ScanText(text[1..], cfg);
      if text[0] == cfg.zero then Scan([0] + rest.bits, rest.found)
      else if text[0] == cfg.one then Scan([1] + rest.bits, rest.found)
      else rest
  }

  /** What `extract` returns. */
  function ExtractSpec(o: Oracles, text: string, key: string): Option<Bytes>
    requires Sha256Sound(o)
  {
    var scan := ScanText(text, ConfigOf(o, key));
    if !scan.found || |scan.bits| == 0 then None
    else match BinaryToBytes(scan.bits)
      case Err(_) => None
      case Ok(bytes) => Some(bytes)
  }

  /** `extract`: accumulate bits until the end marker, then decode them. */
  method Extract(o: Oracles, text: string, key: string) returns (r: Option<Bytes>)
    requires Sha256Sound(o)
    ensures r == ExtractSpec(o, text, key)
  {
    var cfg := GetStegoConfig(o, key);
    var binary: seq<Bit> := [];
    var foundEnd := false;
    var i := 0;
    while i < |text|
      invariant 0 <= i <= |text|
      invariant !foundEnd
      invariant ScanText(text, cfg) == Scan(binary + ScanText(text[i..], cfg).bits, ScanText(text[i..], cfg).found)
    {
      var c := text[i];
      assert text[i..][1..] == text[i + 1..];
      if c == cfg.end {
        foundEnd := true;
        break;
      }
      if c == cfg.zero {
        binary := binary + [0];
      } else if c == cfg.one {
        binary := binary + [1];
      }
      i := i + 1;
    }
    assert foundEnd ==> ScanText(text, cfg) == Scan(binary, true);
    assert !foundEnd ==> i == |text| && ScanText(text, cfg) == Scan(binary, false);
    if !foundEnd || |binary| == 0 {
      return None;
    }
    var decoded := BinaryStringToBytes(binary);
    if decoded.Err? {
      return None;
    }
    return Some(decoded.value);
  }

  /** Characters other than the key's symbols do not affect the scan. */
  lemma {:induction false} ScanSkipsOthers(text: string, cfg: StegoConfig)
    ensures ScanText(text, cfg) == ScanText(Keep(text, Symbols(cfg)), cfg)
  {
    if text != [] {
      ScanSkipsOthers(text[1..], cfg);
      var kept := Keep(text, Symbols(cfg));
      if text[0] in Symbols(cfg) {
        assert kept == [text[0]] + Keep(text[1..], Symbols(cfg));
        assert kept[0] == text[0] && kept[1..] == Keep(text[1..], Symbols(cfg));
      } else {
        assert kept == Keep(text[1..], Symbols(cfg));
      }
    }
  }

  /** Reading the inserted symbols gives back the bits and stops at the end marker. */
  lemma {:induction false} ScanHidden(cfg: StegoConfig, bits: seq<Bit>)
    requires Distinct(cfg)
    ensures ScanText(HiddenChars(cfg, bits), cfg) == Scan(bits, true)
  {
    var h := HiddenChars(cfg, bits);
    if bits != [] {
      ScanHidden(cfg, bits[1..]);
      assert h[1..] == HiddenChars(cfg, bits[1..]);
      assert bits == [bits[0]] + bits[1..];
    }
  }

  /**
   * Extracting from an embedding gives back the data, when the data is not
   * empty and within the size limit and the carrier holds none of the key's
   * three characters.
   */
  lemma StegoRoundTrip(o: Oracles, carrier: string, data: Bytes, key: string)
    requires Sha256Sound(o) && CtrSound(o)
    requires EmbedSpec(o, carrier, data, key).Ok?
    requires Keep(carrier, Symbols(ConfigOf(o, key))) == []
    requires 0 < |data| <= MAX_PAYLOAD_BYTES
    ensures ExtractSpec(o, EmbedSpec(o, carrier, data, key).value, key) == Some(data)
  {
    var cfg := ConfigOf(o, key);
    var text := EmbedSpec(o, carrier, data, key).value;
    ConfigDistinct(o, key);
    EmbedSymbolOrder(o, carrier, data, key);
    ScanSkipsOthers(text, cfg);
    ScanHidden(cfg, BitsOf(data));
    BitsOfLayout(data);
    BinaryRoundTrip(data, []);
    assert BitsOf(data) + [] == BitsOf(data);
  }

  /** An embedding of no data extracts as nothing. */
  lemma StegoEmptyData(o: Oracles, carrier: string, key: string)
    requires Sha256Sound(o) && CtrSound(o)
    requires EmbedSpec(o, carrier, [], key).Ok?
    requires Keep(carrier, Symbols(ConfigOf(o, key))) == []
    ensures ExtractSpec(o, EmbedSpec(o, carrier, [], key).value, key) == None
  {
    var cfg := ConfigOf(o, key);
    var text := EmbedSpec(o, carrier, [], key).value;
    ConfigDistinct(o, key);
    EmbedSymbolOrder(o, carrier, [], key);
    ScanSkipsOthers(text, cfg);
    ScanHidden(cfg, BitsOf([]));
  }
}
