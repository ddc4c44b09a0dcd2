/**
 * The ARRK-DKE double ratchet of the secure channel: the root and chain key
 * derivations, the ratchet state, `ratchetEncrypt` and `ratchetDecrypt`.
 *
 * The state is a record copied on every update, as in the hook, except for the
 * skipped-message-key cache: that is one mutable map object which every copy of
 * the record shares, so it is a class here and `ratchetDecrypt` modifies it.
 */
module Ratchet {
  import opened Wrappers
  import opened Primitives
  import opened Kdf

  const RK_INFO: string := "chimera-arrk-dke-rk"
  const MSG_INFO: string := "chimera-arrk-dke-msg"
  const CHAIN_INFO: string := "chimera-arrk-dke-chain"

  const NOT_READY_TO_SEND: string := "Ratchet not initialized for sending."
  const CKR_NULL_SKIP: string := "Receiving chain key is null during message skip."
  const CKR_NULL_DECRYPT: string := "Receiving chain key is null for decryption."
  const LOGIC_ERROR: string := "Decryption logic error: message could not be processed."
  /** Stand-in for the `OperationError` of `deriveBits` when ECDH fails. */
  const ECDH_ERROR: string := "ECDH key agreement failed."

  // ------------------------------------------------------------ KDF chains

  /**
   * The salt `kdf_ck` hands to HKDF: an empty `Uint8Array`. HKDF imports the
   * salt as an HMAC key, and Web Crypto refuses a key of no bytes, so every
   * step of a chain fails in the code as written. The chain functions below
   * take the salt as a parameter: the hook's operations pass this one, and
   * the facts about the protocol the chain is meant to run are stated for any
   * non-empty salt.
   */
  const KDF_CK_SALT: Bytes := []

  /** `kdf_rk`: 64 HKDF bytes salted with the root key; the first half is the new root key, the second the new chain key. */
  function KdfRk(o: Oracles, rk: Bytes, dhOut: Bytes): (r: Result<(Bytes, Bytes)>)
    requires HmacSound(o)
    ensures r.Err? <==> |rk| == 0
    ensures r.Err? ==> r.msg == HMAC_EMPTY_KEY
    ensures r.Ok? ==> |r.value.0| == 32 && |r.value.1| == 32
    ensures r.Ok? ==> Hkdf(o, dhOut, rk, o.utf8Encode(RK_INFO), 64) == Ok(r.value.0 + r.value.1)
  {
    HkdfLength(o, dhOut, rk, o.utf8Encode(RK_INFO), 64);
    match Hkdf(o, dhOut, rk, o.utf8Encode(RK_INFO), 64)
    case Err(e) => Err(e)
    case Ok(out) =>
      assert out == out[..32] + out[32..];
      Ok((out[..32], out[32..]))
  }

  /** `kdf_ck`: the message key and the next chain key, two 32-byte HKDF outputs under distinct labels. */
  function KdfCk(o: Oracles, ck: Bytes, salt: Bytes): (r: Result<(Bytes, Bytes)>)
    requires HmacSound(o)
    ensures r.Err? <==> |salt| == 0
    ensures r.Err? ==> r.msg == HMAC_EMPTY_KEY
    ensures r.Ok? ==> |r.value.0| == 32 && |r.value.1| == 32
    ensures r.Ok? ==> Hkdf(o, ck, salt, o.utf8Encode(MSG_INFO), 32) == Ok(r.value.0)
    ensures r.Ok? ==> Hkdf(o, ck, salt, o.utf8Encode(CHAIN_INFO), 32) == Ok(r.value.1)
  {
    HkdfLength(o, ck, salt, o.utf8Encode(MSG_INFO), 32);
    HkdfLength(o, ck, salt, o.utf8Encode(CHAIN_INFO), 32);
    match Hkdf(o, ck, salt, o.utf8Encode(MSG_INFO), 32)
    case Err(e) => Err(e)
    case Ok(messageKey) =>
      match Hkdf(o, ck, salt, o.utf8Encode(CHAIN_INFO), 32)
      case Err(e) => Err(e)
      case Ok(nextChainKey) => Ok((messageKey, nextChainKey))
  }

  /** The chain key after `k` steps of `kdf_ck` under a non-empty salt. */
  function ChainAt(o: Oracles, salt: Bytes, ck: Bytes, k: nat): Bytes
    requires HmacSound(o) && |salt| > 0
    decreases k
  {
    if k == 0 then ck else ChainAt(o, salt, KdfCk(o, ck, salt).value.1, k - 1)
  }

  // ------------------------------------------------------------------ state

  /** An entry of `MKSKIPPED`. */
  datatype SkippedKey = SkippedKey(publicKey: Bytes, messageNumber: nat, messageKey: Bytes)

  /** The cache key `${base64(peer public key)}:${n}`; base64 is injective, so the raw key stands for it. */
  type KeyId = (Bytes, nat)

  /** The skipped-message-key map object. */
  class SkippedKeys {
    var entries: map<KeyId, SkippedKey>

    constructor()
      ensures entries == map[]
    {
      entries := map[];
    }
  }

  /** `RatchetState`: keys are `None` where the hook holds `null`; the peer key is its raw public bytes. */
  datatype RatchetState = RatchetState(
    dhrs: Option<KeyPair>, dhp: Option<Bytes>,
    rk: Option<Bytes>, cks: Option<Bytes>, ckr: Option<Bytes>,
    ns: nat, nr: nat, pns: nat,
    mkSkipped: SkippedKeys)

  /** `initialRatchetState` around a given cache object. */
  function InitialState(cache: SkippedKeys): (st: RatchetState)
    ensures st.rk.None? && st.cks.None? && st.ckr.None? && st.dhrs.None? && st.dhp.None?
    ensures st.ns == 0 && st.nr == 0 && st.pns == 0 && st.mkSkipped == cache
  {
    RatchetState(None, None, None, None, None, 0, 0, 0, cache)
  }

  /** What holds of every state with a root key: the own key pair and the peer key are set. */
  predicate Ready(st: RatchetState) {
    st.rk.Some? && st.dhrs.Some? && st.dhp.Some?
  }

  /** The message header `{dh_pub, n, pn}`. */
  datatype Header = Header(dhPub: Bytes, n: nat, pn: nat)

  /** The associated data: the UTF-8 text of the base64 of a public key. */
  function Ad(o: Oracles, publicKey: Bytes): Bytes {
    o.utf8Encode(o.b64Encode(publicKey))
  }

  // ---------------------------------------------------------- ratchetEncrypt

  /** `ratchetEncrypt` with the IV of `encryptWithRawKey` as an input and `ckSalt` the salt of `kdf_ck`. */
  function RatchetEncrypt(o: Oracles, ckSalt: Bytes, plaintext: Bytes, st: RatchetState, iv: Bytes)
    : (r: Result<(RatchetState, Bytes)>)
    requires HmacSound(o)
    ensures r.Err? <==> st.cks.None? || st.dhrs.None? || |ckSalt| == 0
    ensures r.Err? ==> r.msg == if st.cks.None? || st.dhrs.None? then NOT_READY_TO_SEND else HMAC_EMPTY_KEY
    ensures r.Ok? ==>
      var (st', ct) := r.value;
      var (messageKey, nextChainKey) := KdfCk(o, st.cks.value, ckSalt).value;
      && st'.cks == Some(nextChainKey) && st'.ns == st.ns + 1
      && st'.dhrs == st.dhrs && st'.dhp == st.dhp && st'.rk == st.rk && st'.ckr == st.ckr
      && st'.nr == st.nr && st'.pns == st.pns && st'.mkSkipped == st.mkSkipped
      && EncryptRaw(o, messageKey, iv, plaintext, Ad(o, o.publicOf(st.dhrs.value))) == Ok(ct)
  {
    if st.cks.None? || st.dhrs.None? then Err(NOT_READY_TO_SEND)
    else match KdfCk(o, st.cks.value, ckSalt)
      case Err(e) => Err(e)
      case Ok((messageKey, nextChainKey)) =>
        var ad := Ad(o, o.publicOf(st.dhrs.value));
        var ciphertext := iv + o.gcmSeal(messageKey, iv, ad, plaintext);
        Ok((st.(cks := Some(nextChainKey), ns := st.ns + 1), ciphertext))
  }

  /** The header `handleSendMessage` attaches: the sender's public key, `Ns - 1` and `PNs` of the new state. */
  function SendHeader(o: Oracles, st: RatchetState): Header
    requires st.dhrs.Some? && st.ns > 0
  {
    Header(o.publicOf(st.dhrs.value), st.ns - 1, st.pns)
  }

  // ---------------------------------------------------------- ratchetDecrypt

  /** The DH ratchet step, taken when the header's key differs from the stored peer key; `newPair` is the freshly generated key pair. */
  function Stepped(o: Oracles, header: Header, st: RatchetState, newPair: KeyPair): (r: Result<RatchetState>)
    requires HmacSound(o) && Ready(st)
    ensures r.Ok? ==> r.value.mkSkipped == st.mkSkipped && Ready(r.value)
  {
    if header.dhPub == st.dhp.value then Ok(st)
    else match o.ecdh(st.dhrs.value, header.dhPub)
      case None => Err(ECDH_ERROR)
      case Some(dhOut) =>
        match KdfRk(o, st.rk.value, dhOut)
        case Err(e) => Err(e)
        case Ok((rk1, ckr)) =>
          match o.ecdh(newPair, header.dhPub)
          case None => Err(ECDH_ERROR)
          case Some(dhOutSend) =>
            var (rk2, cks) := KdfRk(o, rk1, dhOutSend).value;
            Ok(st.(pns := st.ns, ns := 0, nr := 0, dhp := Some(header.dhPub), rk := Some(rk2),
                   ckr := Some(ckr), dhrs := Some(newPair), cks := Some(cks)))
  }

  /**
   * The skip loop: store a message key under (peer key, Nr) for every Nr below
   * `n`, advancing the receiving chain. `kdf_ck` runs before the entry is
   * stored, so a chain step that fails stores nothing.
   */
  function SkipTo(o: Oracles, ckSalt: Bytes, st: RatchetState, n: nat, entries: map<KeyId, SkippedKey>)
    : (r: (Result<RatchetState>, map<KeyId, SkippedKey>))
    requires HmacSound(o) && st.dhp.Some? && (st.ckr.Some? || n <= st.nr)
    ensures n <= st.nr ==> r == (Ok(st), entries)
    ensures r.0.Err? <==> n > st.nr && |ckSalt| == 0
    ensures r.0.Err? ==> r.0.msg == HMAC_EMPTY_KEY && r.1 == entries
    ensures r.0.Ok? ==> r.0.value == st.(ckr := r.0.value.ckr, nr := if n <= st.nr then st.nr else n)
    ensures r.0.Ok? && n > st.nr ==> r.0.value.ckr.Some?
    decreases n - st.nr
  {
    if n <= st.nr then (Ok(st), entries)
    else match KdfCk(o, st.ckr.value, ckSalt)
      case Err(e) => (Err(e), entries)
      case Ok((messageKey, nextChainKey)) =>
        var entries' := entries[(st.dhp.value, st.nr) := SkippedKey(st.dhp.value, st.nr, messageKey)];
        SkipTo(o, ckSalt, st.(ckr := Some(nextChainKey), nr := st.nr + 1), n, entries')
  }

  /** Decrypting the current message under the receiving chain, once `Nr` has caught up with `n`. */
  function DecryptCurrent(o: Oracles, ckSalt: Bytes, header: Header, ct: Bytes, st: RatchetState)
    : Result<(RatchetState, Bytes)>
    requires HmacSound(o) && st.dhp.Some?
  {
    if header.n != st.nr then Err(LOGIC_ERROR)
    else if st.ckr.None? then Err(CKR_NULL_DECRYPT)
    else match KdfCk(o, st.ckr.value, ckSalt)
      case Err(e) => Err(e)
      case Ok((messageKey, nextChainKey)) =>
        match DecryptRaw(o, messageKey, ct, Ad(o, st.dhp.value))
        case Err(e) => Err(e)
        case Ok(plaintext) => Ok((st.(ckr := Some(nextChainKey), nr := st.nr + 1), plaintext))
  }

  /**
   * `ratchetDecrypt` as a value: the result, and the cache contents afterwards.
   * The cache is shared with the caller's state, so its changes persist even
   * when the result is an error.
   */
  function Decrypted(o: Oracles, ckSalt: Bytes, header: Header, ct: Bytes, st: RatchetState,
                     entries: map<KeyId, SkippedKey>, newPair: KeyPair)
    : (Result<(RatchetState, Bytes)>, map<KeyId, SkippedKey>)
    requires HmacSound(o) && Ready(st)
  {
    var id := (header.dhPub, header.n);
    if id in entries then
      var cached := entries[id];
      match DecryptRaw(o, cached.messageKey, ct, Ad(o, cached.publicKey))
      case Err(e) => (Err(e), entries)
      case Ok(plaintext) => (Ok((st, plaintext)), entries - {id})
    else match Stepped(o, header, st, newPair)
      case Err(e) => (Err(e), entries)
      case Ok(st1) =>
        if header.n > st1.nr && st1.ckr.None? then (Err(CKR_NULL_SKIP), entries)
        else
          var (st2, entries2) := SkipTo(o, ckSalt, st1, header.n, entries);
          match st2
          case Err(e) => (Err(e), entries2)
          case Ok(st3) => (DecryptCurrent(o, ckSalt, header, ct, st3), entries2)
  }

  /** `ratchetDecrypt`: works on a shallow copy of the state, so the cache it updates is the caller's. */
  method RatchetDecrypt(o: Oracles, ckSalt: Bytes, header: Header, ct: Bytes, state: RatchetState, newPair: KeyPair)
    returns (r: Result<(RatchetState, Bytes)>)
    requires HmacSound(o) && Ready(state)
    modifies state.mkSkipped
    ensures (r, state.mkSkipped.entries) == Decrypted(o, ckSalt, header, ct, state, old(state.mkSkipped.entries), newPair)
  {
    var tempState := state;
    var keyId := (header.dhPub, header.n);
    if keyId in tempState.mkSkipped.entries {
      var mkSkipped := tempState.mkSkipped.entries[keyId];
      var plaintext := DecryptRaw(o, mkSkipped.messageKey, ct, Ad(o, mkSkipped.publicKey));
      if plaintext.Err? {
        return Err(plaintext.msg);
      }
      tempState.mkSkipped.entries := tempState.mkSkipped.entries - {keyId};
      return Ok((tempState, plaintext.value));
    }
    var stepped := Stepped(o, header, tempState, newPair);
    if stepped.Err? {
      return Err(stepped.msg);
    }
    tempState := stepped.value;
    ghost var entries0 := tempState.mkSkipped.entries;
    ghost var st1 := tempState;
    if header.n > tempState.nr && tempState.ckr.None? {
      return Err(CKR_NULL_SKIP);
    }
    while header.n > tempState.nr
      invariant tempState.dhp == st1.dhp && tempState.mkSkipped == state.mkSkipped
      invariant tempState.ckr.Some? || header.n <= tempState.nr
      invariant SkipTo(o, ckSalt, st1, header.n, entries0) == SkipTo(o, ckSalt, tempState, header.n, tempState.mkSkipped.entries)
      decreases header.n - tempState.nr
    {
      var step := KdfCk(o, tempState.ckr.value, ckSalt);
      if step.Err? {
        return Err(step.msg);
      }
      var (messageKey, nextChainKey) := step.value;
      var skippedPubKey := tempState.dhp.value;
      tempState.mkSkipped.entries := tempState.mkSkipped.entries[(skippedPubKey, tempState.nr) :=
        SkippedKey(skippedPubKey, tempState.nr, messageKey)];
      tempState := tempState.(ckr := Some(nextChainKey), nr := tempState.nr + 1);
    }
    r := DecryptCurrent(o, ckSalt, header, ct, tempState);
  }

  // ------------------------------------------------------------------ facts

  /** A cache hit decrypts with the cached key, deletes only that entry, and changes nothing else. */
  lemma CacheHit(o: Oracles, ckSalt: Bytes, header: Header, ct: Bytes, st: RatchetState,
                 entries: map<KeyId, SkippedKey>, newPair: KeyPair)
    requires HmacSound(o) && Ready(st)
    requires (header.dhPub, header.n) in entries
    ensures var (r, entries') := Decrypted(o, ckSalt, header, ct, st, entries, newPair);
      var cached := entries[(header.dhPub, header.n)];
      && (r.Ok? <==> DecryptRaw(o, cached.messageKey, ct, Ad(o, cached.publicKey)).Ok?)
      && (r.Ok? ==>
            && r.value.0 == st && entries' == entries - {(header.dhPub, header.n)}
            && r.value.1 == DecryptRaw(o, cached.messageKey, ct, Ad(o, cached.publicKey)).value)
      && (r.Err? ==> entries' == entries)
  {
  }

  /** The DH step: counters restart, the peer key is the header's, both chains and the root key are replaced. */
  lemma DhStep(o: Oracles, header: Header, st: RatchetState, newPair: KeyPair)
    requires HmacSound(o) && Ready(st)
    requires header.dhPub != st.dhp.value
    requires Stepped(o, header, st, newPair).Ok?
    ensures var st' := Stepped(o, header, st, newPair).value;
      var dhOut := o.ecdh(st.dhrs.value, header.dhPub).value;
      var dhOutSend := o.ecdh(newPair, header.dhPub).value;
      && KdfRk(o, st.rk.value, dhOut).Ok?
      && var (rk1, ckr) := KdfRk(o, st.rk.value, dhOut).value;
      && st'.pns == st.ns && st'.ns == 0 && st'.nr == 0 && st'.dhp == Some(header.dhPub)
      && st'.dhrs == Some(newPair)
      && st'.ckr == Some(ckr)
      && st'.rk == Some(KdfRk(o, rk1, dhOutSend).value.0)
      && st'.cks == Some(KdfRk(o, rk1, dhOutSend).value.1)
  {
  }

  /** Without a DH step nothing but the receiving side and the cache changes. */
  lemma NoDhStep(o: Oracles, header: Header, st: RatchetState, newPair: KeyPair)
    requires HmacSound(o) && Ready(st)
    requires header.dhPub == st.dhp.value
    ensures Stepped(o, header, st, newPair) == Ok(st)
  {
  }

  /** After the skip loop the receiving chain has taken `n - Nr` steps of `kdf_ck`. */
  lemma {:induction false} SkipChain(o: Oracles, ckSalt: Bytes, st: RatchetState, n: nat, entries: map<KeyId, SkippedKey>)
    requires HmacSound(o) && |ckSalt| > 0 && st.dhp.Some? && st.ckr.Some? && n > st.nr
    ensures SkipTo(o, ckSalt, st, n, entries).0.Ok?
    ensures SkipTo(o, ckSalt, st, n, entries).0.value.ckr == Some(ChainAt(o, ckSalt, st.ckr.value, n - st.nr))
    decreases n - st.nr
  {
    var (messageKey, nextChainKey) := KdfCk(o, st.ckr.value, ckSalt).value;
    var next := st.(ckr := Some(nextChainKey), nr := st.nr + 1);
    var e1 := entries[(st.dhp.value, st.nr) := SkippedKey(st.dhp.value, st.nr, messageKey)];
    assert SkipTo(o, ckSalt, st, n, entries) == SkipTo(o, ckSalt, next, n, e1);
    if n > st.nr + 1 {
      SkipChain(o, ckSalt, next, n, e1);
    }
  }

  /**
   * The skip loop stores, under the current peer key, one key per skipped
   * number `i`: the message key of the chain after `i - Nr` steps.
   */
  lemma {:induction false} SkipStores(o: Oracles, ckSalt: Bytes, st: RatchetState, n: nat,
                                      entries: map<KeyId, SkippedKey>, i: nat)
    requires HmacSound(o) && |ckSalt| > 0 && st.dhp.Some? && st.ckr.Some? && st.nr <= i < n
    ensures (st.dhp.value, i) in SkipTo(o, ckSalt, st, n, entries).1
    ensures SkipTo(o, ckSalt, st, n, entries).1[(st.dhp.value, i)]
            == SkippedKey(st.dhp.value, i, KdfCk(o, ChainAt(o, ckSalt, st.ckr.value, i - st.nr), ckSalt).value.0)
    decreases n - st.nr
  {
    var (messageKey, nextChainKey) := KdfCk(o, st.ckr.value, ckSalt).value;
    var next := st.(ckr := Some(nextChainKey), nr := st.nr + 1);
    var e1 := entries[(st.dhp.value, st.nr) := SkippedKey(st.dhp.value, st.nr, messageKey)];
    assert SkipTo(o, ckSalt, st, n, entries) == SkipTo(o, ckSalt, next, n, e1);
    if i == st.nr {
      SkipKeeps(o, ckSalt, next, n, e1, (st.dhp.value, i));
    } else {
      SkipStores(o, ckSalt, next, n, e1, i);
      assert ChainAt(o, ckSalt, st.ckr.value, i - st.nr) == ChainAt(o, ckSalt, nextChainKey, i - next.nr);
    }
  }

  /** The skip loop leaves every entry outside the skipped numbers alone. */
  lemma {:induction false} SkipKeeps(o: Oracles, ckSalt: Bytes, st: RatchetState, n: nat,
                                     entries: map<KeyId, SkippedKey>, id: KeyId)
    requires HmacSound(o) && st.dhp.Some? && (st.ckr.Some? || n <= st.nr)
    requires id in entries && !(id.0 == st.dhp.value && st.nr <= id.1 < n)
    ensures id in SkipTo(o, ckSalt, st, n, entries).1 && SkipTo(o, ckSalt, st, n, entries).1[id] == entries[id]
    decreases n - st.nr
  {
    if n > st.nr && |ckSalt| > 0 {
      var (messageKey, nextChainKey) := KdfCk(o, st.ckr.value, ckSalt).value;
      var next := st.(ckr := Some(nextChainKey), nr := st.nr + 1);
      var e1 := entries[(st.dhp.value, st.nr) := SkippedKey(st.dhp.value, st.nr, messageKey)];
      assert SkipTo(o, ckSalt, st, n, entries) == SkipTo(o, ckSalt, next, n, e1);
      assert id != (st.dhp.value, st.nr);
      SkipKeeps(o, ckSalt, next, n, e1, id);
    }
  }

  /** Every entry the skip loop leaves is an old one or one of the skipped numbers. */
  lemma {:induction false} SkipAddsOnly(o: Oracles, ckSalt: Bytes, st: RatchetState, n: nat,
                                        entries: map<KeyId, SkippedKey>, id: KeyId)
    requires HmacSound(o) && st.dhp.Some? && (st.ckr.Some? || n <= st.nr)
    requires id in SkipTo(o, ckSalt, st, n, entries).1
    ensures id in entries || (id.0 == st.dhp.value && st.nr <= id.1 < n)
    decreases n - st.nr
  {
    if n > st.nr && |ckSalt| > 0 {
      var (messageKey, nextChainKey) := KdfCk(o, st.ckr.value, ckSalt).value;
      var next := st.(ckr := Some(nextChainKey), nr := st.nr + 1);
      var e1 := entries[(st.dhp.value, st.nr) := SkippedKey(st.dhp.value, st.nr, messageKey)];
      assert SkipTo(o, ckSalt, st, n, entries) == SkipTo(o, ckSalt, next, n, e1);
      SkipAddsOnly(o, ckSalt, next, n, e1, id);
    }
  }

  /**
   * An error after the skip loop, e.g. a message that does not authenticate,
   * discards the advanced state but not the keys the loop put in the shared cache.
   */
  lemma FailedDecryptKeepsSkippedKeys(o: Oracles, ckSalt: Bytes, header: Header, ct: Bytes, st: RatchetState,
                                      entries: map<KeyId, SkippedKey>, newPair: KeyPair)
    requires HmacSound(o) && |ckSalt| > 0 && Ready(st)
    requires (header.dhPub, header.n) !in entries
    requires header.dhPub == st.dhp.value && st.ckr.Some? && header.n > st.nr
    ensures var (r, entries') := Decrypted(o, ckSalt, header, ct, st, entries, newPair);
      && (r.Err? <==>
            DecryptRaw(o, KdfCk(o, ChainAt(o, ckSalt, st.ckr.value, header.n - st.nr), ckSalt).value.0,
                       ct, Ad(o, st.dhp.value)).Err?)
      && forall i | st.nr <= i < header.n :: (st.dhp.value, i) in entries'
  {
    SkipChain(o, ckSalt, st, header.n, entries);
    forall i | st.nr <= i < header.n ensures (st.dhp.value, i) in SkipTo(o, ckSalt, st, header.n, entries).1 {
      SkipStores(o, ckSalt, st, header.n, entries, i);
    }
  }

  /** A successful decryption keeps the own key pair, the peer key and the root key set, and the same cache object. */
  lemma DecryptedReady(o: Oracles, ckSalt: Bytes, header: Header, ct: Bytes, st: RatchetState,
                       entries: map<KeyId, SkippedKey>, newPair: KeyPair)
    requires HmacSound(o) && Ready(st)
    ensures var r := Decrypted(o, ckSalt, header, ct, st, entries, newPair).0;
      r.Ok? ==> Ready(r.value.0) && r.value.0.mkSkipped == st.mkSkipped
  {
    if (header.dhPub, header.n) !in entries {
      match Stepped(o, header, st, newPair)
      case Err(_) =>
      case Ok(st1) =>
        if !(header.n > st1.nr && st1.ckr.None?) {
          var (st2, _) := SkipTo(o, ckSalt, st1, header.n, entries);
          assert st2.Ok? ==> Ready(st2.value) && st2.value.mkSkipped == st.mkSkipped;
        }
    }
  }

  /** An old number that is not in the cache is refused. */
  lemma ReplayRefused(o: Oracles, ckSalt: Bytes, header: Header, ct: Bytes, st: RatchetState,
                      entries: map<KeyId, SkippedKey>, newPair: KeyPair)
    requires HmacSound(o) && Ready(st)
    requires (header.dhPub, header.n) !in entries
    requires header.dhPub == st.dhp.value && header.n < st.nr
    ensures Decrypted(o, ckSalt, header, ct, st, entries, newPair) == (Err(LOGIC_ERROR), entries)
  {
  }

  // ------------------------------------------------- the code's empty salt

  /**
   * With the salt `kdf_ck` passes, a message decrypts only from the cache,
   * and the cache never gains an entry: the skip loop fails at its first step,
   * before it stores anything, and so does decrypting the current message.
   */
  lemma CodeDecryptsOnlyCached(o: Oracles, header: Header, ct: Bytes, st: RatchetState,
                               entries: map<KeyId, SkippedKey>, newPair: KeyPair)
    requires HmacSound(o) && Ready(st)
    ensures var (r, entries') := Decrypted(o, KDF_CK_SALT, header, ct, st, entries, newPair);
      && (r.Ok? ==> (header.dhPub, header.n) in entries && entries' == entries - {(header.dhPub, header.n)})
      && (r.Err? ==> entries' == entries)
      && ((header.dhPub, header.n) !in entries ==> r.Err?)
  {
    var id := (header.dhPub, header.n);
    if id !in entries {
      match Stepped(o, header, st, newPair)
      case Err(_) =>
      case Ok(st1) =>
        if !(header.n > st1.nr && st1.ckr.None?) {
          var (st2, entries2) := SkipTo(o, KDF_CK_SALT, st1, header.n, entries);
          assert entries2 == entries;
          if st2.Ok? {
            assert DecryptCurrent(o, KDF_CK_SALT, header, ct, st2.value).Err?;
          }
        }
    }
  }

  // ------------------------------------------------------------- two parties

  /**
   * The sender's sending chain is the receiver's receiving chain, at the same
   * position, the receiver knows the sender's public key, and nothing of the
   * current chain from `Nr` on is cached.
   */
  ghost predicate Synced(o: Oracles, sender: RatchetState, receiver: RatchetState, entries: map<KeyId, SkippedKey>) {
    && Ready(sender) && Ready(receiver)
    && sender.cks.Some? && sender.cks == receiver.ckr && sender.ns == receiver.nr
    && receiver.dhp == Some(o.publicOf(sender.dhrs.value))
    && forall i | receiver.nr <= i :: (receiver.dhp.value, i) !in entries
  }

  /**
   * In-order delivery under a non-empty chain salt: the receiver decrypts what
   * the sender encrypted, without a DH step, and both stay in step; the
   * receiver's sending chain is untouched.
   */
  lemma InOrderDelivery(o: Oracles, ckSalt: Bytes, sender: RatchetState, receiver: RatchetState,
                        entries: map<KeyId, SkippedKey>, plaintext: Bytes, iv: Bytes, newPair: KeyPair)
    requires HmacSound(o) && GcmSound(o) && |ckSalt| > 0 && |iv| == IV_LENGTH
    requires Synced(o, sender, receiver, entries)
    ensures RatchetEncrypt(o, ckSalt, plaintext, sender, iv).Ok?
    ensures var (sender', ct) := RatchetEncrypt(o, ckSalt, plaintext, sender, iv).value;
      var (r, entries') := Decrypted(o, ckSalt, SendHeader(o, sender'), ct, receiver, entries, newPair);
      && r.Ok? && r.value.1 == plaintext && entries' == entries
      && r.value.0.cks == receiver.cks && r.value.0.dhrs == receiver.dhrs
      && Synced(o, sender', r.value.0, entries')
  {
    var (mk, next) := KdfCk(o, sender.cks.value, ckSalt).value;
    var (sender', ct) := RatchetEncrypt(o, ckSalt, plaintext, sender, iv).value;
    var header := SendHeader(o, sender');
    assert header == Header(o.publicOf(sender.dhrs.value), sender.ns, sender.pns);
    RawRoundTrip(o, mk, iv, plaintext, Ad(o, o.publicOf(sender.dhrs.value)));
    NoDhStep(o, header, receiver, newPair);
  }

  /** Two steps of the skip loop: the first two message keys of the chain are stored, and the chain is two steps on. */
  lemma SkipTwo(o: Oracles, ckSalt: Bytes, st: RatchetState, entries: map<KeyId, SkippedKey>)
    requires HmacSound(o) && |ckSalt| > 0 && st.dhp.Some? && st.ckr.Some?
    ensures
      var (k0, ch1) := KdfCk(o, st.ckr.value, ckSalt).value;
      var (k1, ch2) := KdfCk(o, ch1, ckSalt).value;
      var pub := st.dhp.value;
      SkipTo(o, ckSalt, st, st.nr + 2, entries)
        == (Ok(st.(ckr := Some(ch2), nr := st.nr + 2)),
            entries[(pub, st.nr) := SkippedKey(pub, st.nr, k0)][(pub, st.nr + 1) := SkippedKey(pub, st.nr + 1, k1)])
  {
    var (k0, ch1) := KdfCk(o, st.ckr.value, ckSalt).value;
    var pub := st.dhp.value;
    var st1 := st.(ckr := Some(ch1), nr := st.nr + 1);
    var e1 := entries[(pub, st.nr) := SkippedKey(pub, st.nr, k0)];
    assert SkipTo(o, ckSalt, st, st.nr + 2, entries) == SkipTo(o, ckSalt, st1, st.nr + 2, e1);
  }

  /**
   * The message two ahead of the receiving chain arrives: the skip loop stores
   * the keys of the two before it, and it decrypts under the third key.
   */
  lemma SkipTwoThenDecrypt(o: Oracles, ckSalt: Bytes, st: RatchetState, entries: map<KeyId, SkippedKey>,
                           pn: nat, plaintext: Bytes, iv: Bytes, newPair: KeyPair)
    requires HmacSound(o) && GcmSound(o) && |ckSalt| > 0 && Ready(st) && st.ckr.Some? && |iv| == IV_LENGTH
    requires (st.dhp.value, st.nr + 2) !in entries
    ensures
      var (k0, ch1) := KdfCk(o, st.ckr.value, ckSalt).value;
      var (k1, ch2) := KdfCk(o, ch1, ckSalt).value;
      var (k2, ch3) := KdfCk(o, ch2, ckSalt).value;
      var pub := st.dhp.value;
      && EncryptRaw(o, k2, iv, plaintext, Ad(o, pub)).Ok?
      && Decrypted(o, ckSalt, Header(pub, st.nr + 2, pn), EncryptRaw(o, k2, iv, plaintext, Ad(o, pub)).value,
                   st, entries, newPair)
         == (Ok((st.(ckr := Some(ch3), nr := st.nr + 3), plaintext)),
             entries[(pub, st.nr) := SkippedKey(pub, st.nr, k0)][(pub, st.nr + 1) := SkippedKey(pub, st.nr + 1, k1)])
  {
    var (k0, ch1) := KdfCk(o, st.ckr.value, ckSalt).value;
    var (k1, ch2) := KdfCk(o, ch1, ckSalt).value;
    var (k2, ch3) := KdfCk(o, ch2, ckSalt).value;
    var pub := st.dhp.value;
    NoDhStep(o, Header(pub, st.nr + 2, pn), st, newPair);
    SkipTwo(o, ckSalt, st, entries);
    RawRoundTrip(o, k2, iv, plaintext, Ad(o, pub));
  }

  /** A message whose key is cached under its header decrypts from the cache, which loses that entry. */
  lemma CachedDelivery(o: Oracles, ckSalt: Bytes, st: RatchetState, entries: map<KeyId, SkippedKey>,
                       pub: Bytes, n: nat, pn: nat, key: Bytes, plaintext: Bytes, iv: Bytes, newPair: KeyPair)
    requires HmacSound(o) && GcmSound(o) && Ready(st) && |iv| == IV_LENGTH && |key| == 32
    requires (pub, n) in entries && entries[(pub, n)] == SkippedKey(pub, n, key)
    ensures EncryptRaw(o, key, iv, plaintext, Ad(o, pub)).Ok?
    ensures Decrypted(o, ckSalt, Header(pub, n, pn), EncryptRaw(o, key, iv, plaintext, Ad(o, pub)).value,
                      st, entries, newPair)
            == (Ok((st, plaintext)), entries - {(pub, n)})
  {
    RawRoundTrip(o, key, iv, plaintext, Ad(o, pub));
  }

  /**
   * The two skipped messages then arrive in order, each from the cache, and
   * the cache is left as it was before the skip loop.
   */
  lemma CachedPairDelivery(o: Oracles, ckSalt: Bytes, st: RatchetState, entries: map<KeyId, SkippedKey>,
                           pub: Bytes, n: nat, pn: nat, k0: Bytes, k1: Bytes, p0: Bytes, p1: Bytes,
                           iv0: Bytes, iv1: Bytes, newPair: KeyPair)
    requires HmacSound(o) && GcmSound(o) && Ready(st) && |iv0| == IV_LENGTH && |iv1| == IV_LENGTH
    requires |k0| == 32 && |k1| == 32 && (pub, n) !in entries && (pub, n + 1) !in entries
    ensures EncryptRaw(o, k0, iv0, p0, Ad(o, pub)).Ok? && EncryptRaw(o, k1, iv1, p1, Ad(o, pub)).Ok?
    ensures
      var e2 := entries[(pub, n) := SkippedKey(pub, n, k0)][(pub, n + 1) := SkippedKey(pub, n + 1, k1)];
      && Decrypted(o, ckSalt, Header(pub, n, pn), EncryptRaw(o, k0, iv0, p0, Ad(o, pub)).value, st, e2, newPair)
         == (Ok((st, p0)), e2 - {(pub, n)})
      && Decrypted(o, ckSalt, Header(pub, n + 1, pn), EncryptRaw(o, k1, iv1, p1, Ad(o, pub)).value,
                   st, e2 - {(pub, n)}, newPair)
         == (Ok((st, p1)), entries)
  {
    var e2 := entries[(pub, n) := SkippedKey(pub, n, k0)][(pub, n + 1) := SkippedKey(pub, n + 1, k1)];
    var e3 := e2 - {(pub, n)};
    assert e3[(pub, n + 1)] == SkippedKey(pub, n + 1, k1);
    CachedDelivery(o, ckSalt, st, e2, pub, n, pn, k0, p0, iv0, newPair);
    CachedDelivery(o, ckSalt, st, e3, pub, n + 1, pn, k1, p1, iv1, newPair);
    assert e3 - {(pub, n + 1)} == entries;
  }

  /** Three messages sent in a row from `sender` under `ckSalt`, with the states and ciphertexts they leave. */
  ghost predicate SentThree(o: Oracles, ckSalt: Bytes, sender: RatchetState, p0: Bytes, p1: Bytes, p2: Bytes,
                            iv0: Bytes, iv1: Bytes, iv2: Bytes,
                            s1: RatchetState, c0: Bytes, s2: RatchetState, c1: Bytes, s3: RatchetState, c2: Bytes)
    requires HmacSound(o)
  {
    && RatchetEncrypt(o, ckSalt, p0, sender, iv0) == Ok((s1, c0))
    && RatchetEncrypt(o, ckSalt, p1, s1, iv1) == Ok((s2, c1))
    && RatchetEncrypt(o, ckSalt, p2, s2, iv2) == Ok((s3, c2))
  }

  /** The cache once the third of three messages has arrived first: the keys of the first two are added. */
  ghost function SkippedFirstTwo(o: Oracles, ckSalt: Bytes, receiver: RatchetState, entries: map<KeyId, SkippedKey>,
                                 sender: RatchetState, s1: RatchetState): map<KeyId, SkippedKey>
    requires HmacSound(o) && |ckSalt| > 0 && receiver.dhp.Some? && sender.cks.Some? && s1.cks.Some?
  {
    var pub := receiver.dhp.value;
    var n := receiver.nr;
    entries[(pub, n) := SkippedKey(pub, n, KdfCk(o, sender.cks.value, ckSalt).value.0)]
           [(pub, n + 1) := SkippedKey(pub, n + 1, KdfCk(o, s1.cks.value, ckSalt).value.0)]
  }

  /** The third message arrives first: it decrypts, and the keys of the first two are cached. */
  lemma ThirdArrivesFirst(o: Oracles, ckSalt: Bytes, sender: RatchetState, receiver: RatchetState,
                          entries: map<KeyId, SkippedKey>, p0: Bytes, p1: Bytes, p2: Bytes,
                          iv0: Bytes, iv1: Bytes, iv2: Bytes, newPair: KeyPair,
                          s1: RatchetState, c0: Bytes, s2: RatchetState, c1: Bytes, s3: RatchetState, c2: Bytes)
    requires HmacSound(o) && GcmSound(o) && |ckSalt| > 0 && |iv2| == IV_LENGTH
    requires Synced(o, sender, receiver, entries)
    requires SentThree(o, ckSalt, sender, p0, p1, p2, iv0, iv1, iv2, s1, c0, s2, c1, s3, c2)
    ensures Decrypted(o, ckSalt, SendHeader(o, s3), c2, receiver, entries, newPair)
            == (Ok((receiver.(ckr := s3.cks, nr := s3.ns), p2)), SkippedFirstTwo(o, ckSalt, receiver, entries, sender, s1))
  {
    var pub := receiver.dhp.value;
    var (k0, ch1) := KdfCk(o, sender.cks.value, ckSalt).value;
    var (k1, ch2) := KdfCk(o, ch1, ckSalt).value;
    var (k2, ch3) := KdfCk(o, ch2, ckSalt).value;
    assert SendHeader(o, s3) == Header(pub, receiver.nr + 2, sender.pns) && c2 == EncryptRaw(o, k2, iv2, p2, Ad(o, pub)).value;
    assert (pub, receiver.nr + 2) !in entries;
    SkipTwoThenDecrypt(o, ckSalt, receiver, entries, sender.pns, p2, iv2, newPair);
  }

  /** The first two messages then arrive in order and decrypt from the cache, which ends as it began. */
  lemma SkippedArriveLater(o: Oracles, ckSalt: Bytes, sender: RatchetState, receiver: RatchetState,
                           entries: map<KeyId, SkippedKey>, p0: Bytes, p1: Bytes, p2: Bytes,
                           iv0: Bytes, iv1: Bytes, iv2: Bytes, newPair: KeyPair,
                           s1: RatchetState, c0: Bytes, s2: RatchetState, c1: Bytes, s3: RatchetState, c2: Bytes)
    requires HmacSound(o) && GcmSound(o) && |ckSalt| > 0 && |iv0| == IV_LENGTH && |iv1| == IV_LENGTH
    requires Synced(o, sender, receiver, entries)
    requires SentThree(o, ckSalt, sender, p0, p1, p2, iv0, iv1, iv2, s1, c0, s2, c1, s3, c2)
    ensures
      var pub := receiver.dhp.value;
      var cached := SkippedFirstTwo(o, ckSalt, receiver, entries, sender, s1);
      var receiver' := receiver.(ckr := s3.cks, nr := s3.ns);
      && Decrypted(o, ckSalt, SendHeader(o, s1), c0, receiver', cached, newPair)
         == (Ok((receiver', p0)), cached - {(pub, receiver.nr)})
      && Decrypted(o, ckSalt, SendHeader(o, s2), c1, receiver', cached - {(pub, receiver.nr)}, newPair)
         == (Ok((receiver', p1)), entries)
  {
    var pub := receiver.dhp.value;
    var ad := Ad(o, pub);
    var (k0, ch1) := KdfCk(o, sender.cks.value, ckSalt).value;
    var (k1, ch2) := KdfCk(o, ch1, ckSalt).value;
    assert SendHeader(o, s1) == Header(pub, receiver.nr, sender.pns) && c0 == EncryptRaw(o, k0, iv0, p0, ad).value;
    assert SendHeader(o, s2) == Header(pub, receiver.nr + 1, sender.pns) && c1 == EncryptRaw(o, k1, iv1, p1, ad).value;
    assert (pub, receiver.nr) !in entries && (pub, receiver.nr + 1) !in entries;
    CachedPairDelivery(o, ckSalt, receiver.(ckr := s3.cks, nr := s3.ns), entries, pub, receiver.nr, sender.pns,
                       k0, k1, p0, p1, iv0, iv1, newPair);
  }

  /**
   * Out-of-order delivery under a non-empty chain salt: of three messages sent
   * in a row, the third arrives first and stores the keys of the first two;
   * those two then decrypt from the cache, and the cache ends as it began,
   * with both sides in step.
   */
  lemma OutOfOrderDelivery(o: Oracles, ckSalt: Bytes, sender: RatchetState, receiver: RatchetState,
                           entries: map<KeyId, SkippedKey>, p0: Bytes, p1: Bytes, p2: Bytes,
                           iv0: Bytes, iv1: Bytes, iv2: Bytes, newPair: KeyPair,
                           s1: RatchetState, c0: Bytes, s2: RatchetState, c1: Bytes, s3: RatchetState, c2: Bytes)
    requires HmacSound(o) && GcmSound(o) && |ckSalt| > 0
    requires |iv0| == IV_LENGTH && |iv1| == IV_LENGTH && |iv2| == IV_LENGTH
    requires Synced(o, sender, receiver, entries)
    requires SentThree(o, ckSalt, sender, p0, p1, p2, iv0, iv1, iv2, s1, c0, s2, c1, s3, c2)
    ensures
      var pub := receiver.dhp.value;
      var cached := SkippedFirstTwo(o, ckSalt, receiver, entries, sender, s1);
      var receiver' := receiver.(ckr := s3.cks, nr := s3.ns);
      && Decrypted(o, ckSalt, SendHeader(o, s3), c2, receiver, entries, newPair) == (Ok((receiver', p2)), cached)
      && Decrypted(o, ckSalt, SendHeader(o, s1), c0, receiver', cached, newPair)
         == (Ok((receiver', p0)), cached - {(pub, receiver.nr)})
      && Decrypted(o, ckSalt, SendHeader(o, s2), c1, receiver', cached - {(pub, receiver.nr)}, newPair)
         == (Ok((receiver', p1)), entries)
      && Synced(o, s3, receiver', entries)
  {
    ThirdArrivesFirst(o, ckSalt, sender, receiver, entries, p0, p1, p2, iv0, iv1, iv2, newPair, s1, c0, s2, c1, s3, c2);
    SkippedArriveLater(o, ckSalt, sender, receiver, entries, p0, p1, p2, iv0, iv1, iv2, newPair, s1, c0, s2, c1, s3, c2);
  }

  /** A run of in-order messages from one sender to one receiver. */
  ghost function Delivered(o: Oracles, ckSalt: Bytes, sender: RatchetState, receiver: RatchetState,
                           entries: map<KeyId, SkippedKey>, messages: seq<(Bytes, Bytes)>, newPair: KeyPair)
    : (RatchetState, RatchetState, seq<Bytes>)
    requires HmacSound(o) && GcmSound(o) && |ckSalt| > 0
    requires forall k | 0 <= k < |messages| :: |messages[k].1| == IV_LENGTH
    requires Synced(o, sender, receiver, entries)
    decreases |messages|
  {
    if |messages| == 0 then (sender, receiver, [])
    else
      InOrderDelivery(o, ckSalt, sender, receiver, entries, messages[0].0, messages[0].1, newPair);
      var (sender', ct) := RatchetEncrypt(o, ckSalt, messages[0].0, sender, messages[0].1).value;
      var (r, entries') := Decrypted(o, ckSalt, SendHeader(o, sender'), ct, receiver, entries, newPair);
      var (s, rc, out) := Delivered(o, ckSalt, sender', r.value.0, entries', messages[1..], newPair);
      (s, rc, [r.value.1] + out)
  }

  /**
   * Every message of an in-order run arrives intact, and a receiver without a
   * sending chain never gains one: it receives no new peer key, so it takes no
   * DH step.
   */
  lemma {:induction false} DeliveredRun(o: Oracles, ckSalt: Bytes, sender: RatchetState, receiver: RatchetState,
                                        entries: map<KeyId, SkippedKey>, messages: seq<(Bytes, Bytes)>, newPair: KeyPair)
    requires HmacSound(o) && GcmSound(o) && |ckSalt| > 0
    requires forall k | 0 <= k < |messages| :: |messages[k].1| == IV_LENGTH
    requires Synced(o, sender, receiver, entries)
    ensures var (_, receiver', received) := Delivered(o, ckSalt, sender, receiver, entries, messages, newPair);
      && |received| == |messages|
      && (forall k | 0 <= k < |messages| :: received[k] == messages[k].0)
      && receiver'.cks == receiver.cks
    decreases |messages|
  {
    if |messages| > 0 {
      InOrderDelivery(o, ckSalt, sender, receiver, entries, messages[0].0, messages[0].1, newPair);
      var (sender', ct) := RatchetEncrypt(o, ckSalt, messages[0].0, sender, messages[0].1).value;
      var (r, entries') := Decrypted(o, ckSalt, SendHeader(o, sender'), ct, receiver, entries, newPair);
      DeliveredRun(o, ckSalt, sender', r.value.0, entries', messages[1..], newPair);
    }
  }
}
