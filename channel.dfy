/**
 * The secure-channel hook: the handshake that sets up the double ratchet (the
 * handshake key first, the duress key as fallback), and the send and receive
 * handlers with their SECURE and DURESS branches.
 *
 * The hook's React state is the fields of one `Channel` object and every
 * handler is a method updating them. What the handlers draw at random (key
 * pairs, IVs, the random 65 bytes of the duress half, the index of the
 * plausible duress message), the clock, and the JSON parse of a pasted
 * payload are parameters.
 */
module Channel {
  import opened Wrappers
  import opened Primitives
  import opened Kdf
  import opened Ratchet

  const DURESS_PLAUSIBLE_MESSAGES: seq<string> := [
    "Okay, sounds good.",
    "Message received.",
    "Got it, thanks.",
    "I'll look into it.",
    "Acknowledged.",
    "Understood."
  ]

  const KEYS_REQUIRED: string := "Handshake Key and Channel Duress Key are required."
  const INITIATOR_PAYLOAD_REQUIRED: string := "Received payload from initiator is required."
  const RESPONDER_PAYLOAD_REQUIRED: string := "Received payload from responder is required."
  const STATE_LOST: string := "Initiator state lost. Please restart handshake."
  const INVALID_FORMAT: string := "Invalid initiator payload format."
  const HANDSHAKE_FAILED: string := "Handshake failed. Both Handshake and Duress keys are incorrect."
  const INVALID_MESSAGE: string := "Invalid message payload structure."
  /** Stand-in for the error `atob` throws on text that is not base64. */
  const BASE64_ERROR: string := "The string to be decoded is not correctly encoded."
  /** Stand-in for the `SyntaxError` of `JSON.parse` and the import error of a malformed public key. */
  const PARSE_ERROR: string := "Malformed payload."

  /** The reference Argon2 refuses a salt shorter than this, and argon2-browser rejects with its message. */
  const ARGON2_MIN_SALT_LENGTH: nat := 8
  const ARGON2_SALT_TOO_SHORT: string := "Salt is too short"
  /**
   * What the initiation's `catch` shows when Argon2 fails: argon2-browser
   * rejects with a plain `{message, code}` object, not an `Error`, so the
   * fallback text is the one set.
   */
  const INITIATION_FAILED: string := "Handshake initiation failed."

  /** The 32 zero bytes both parties use as the first root key. */
  const ZERO_ROOT: Bytes := seq(32, _ => 0)

  datatype Mode = Uninitialized | Secure | Duress
  datatype Stage = Idle | Initiated | Complete
  datatype Sender = Self | Peer

  /**
   * A channel message; its `id` (a clock reading) is left out. `staged` is the
   * `{h, c}` payload of a sent message. A received message takes only `content`
   * and `timestamp` from the decrypted payload; other fields are dropped.
   */
  datatype ChannelMessage = ChannelMessage(sender: Sender, content: string, timestamp: nat, staged: Option<(Header, Bytes)>)

  /**
   * The UTF-8 text of `JSON.stringify({content, timestamp})`, and the reverse
   * (`TextDecoder` then `JSON.parse`), reading a missing field as "" or 0.
   */
  datatype MessageCodec = MessageCodec(encode: (string, nat) -> Bytes, decode: Bytes -> Option<(string, nat)>)

  ghost predicate CodecSound(c: MessageCodec) {
    forall content, timestamp: nat :: c.decode(c.encode(content, timestamp)) == Some((content, timestamp))
  }

  // -------------------------------------------------------------- handshake

  /**
   * `deriveHandshakePWKey`: Argon2id over the password salted with the UTF-8
   * channel id, 2 passes, 16 MiB, 32 bytes. A channel id of fewer than 8 UTF-8
   * bytes is too short a salt, and the derivation fails.
   */
  function PakeKey(o: Oracles, password: string, channelId: string): (r: Result<Bytes>)
    requires Argon2Sound(o)
    ensures r.Err? <==> |o.utf8Encode(channelId)| < ARGON2_MIN_SALT_LENGTH
    ensures r.Err? ==> r.msg == ARGON2_SALT_TOO_SHORT
    ensures r.Ok? ==> |r.value| == 32 && AesKeyLength(|r.value|)
  {
    var salt := o.utf8Encode(channelId);
    if |salt| < ARGON2_MIN_SALT_LENGTH then Err(ARGON2_SALT_TOO_SHORT)
    else Ok(o.argon2(o.utf8Encode(password), salt, 2, 16384))
  }

  /**
   * The initiator payload of `handleInitiateHandshake`, as the base64 texts of
   * its `real` and `duress` fields: the initiator's public key sealed under the
   * handshake key, and random bytes sealed under the duress key.
   */
  function Initiation(o: Oracles, handshakeKey: string, duressKey: string, channelId: string,
                     dhi: KeyPair, fakePub: Bytes, ivReal: Bytes, ivDuress: Bytes): (r: Result<(string, string)>)
    requires Argon2Sound(o)
    ensures r.Err? <==> handshakeKey == "" || duressKey == "" || |o.utf8Encode(channelId)| < ARGON2_MIN_SALT_LENGTH
    ensures r.Err? ==> r.msg == if handshakeKey == "" || duressKey == "" then KEYS_REQUIRED else INITIATION_FAILED
  {
    if handshakeKey == "" || duressKey == "" then Err(KEYS_REQUIRED)
    else
      var pakeKey := PakeKey(o, handshakeKey, channelId);
      var duressPakeKey := PakeKey(o, duressKey, channelId);
      if pakeKey.Err? || duressPakeKey.Err? then Err(INITIATION_FAILED)
      else
        var realPart := EncryptRaw(o, pakeKey.value, ivReal, o.publicOf(dhi), []);
        var duressPart := EncryptRaw(o, duressPakeKey.value, ivDuress, fakePub, []);
        Ok((o.b64Encode(realPart.value), o.b64Encode(duressPart.value)))
  }

  /** One attempt of the receiving side of the handshake: derive a password's key, decode a base64 part and open it. */
  function Opened(o: Oracles, password: string, channelId: string, part: string): Result<Bytes>
    requires Argon2Sound(o)
  {
    match PakeKey(o, password, channelId)
    case Err(e) => Err(e)
    case Ok(key) =>
      match o.b64Decode(part)
      case None => Err(BASE64_ERROR)
      case Some(blob) => DecryptRaw(o, key, blob, [])
  }

  /** What the responder keeps: the channel mode, the base64 responder payload, and the ratchet state. */
  datatype Response = Response(mode: Mode, payload: string, state: RatchetState)

  /**
   * The part of `handleRespondToHandshake` after the password that opened the
   * payload is known: seal the responder's public key under that password's
   * key, agree on a secret with the initiator's key, and derive the first root
   * key and receiving chain from the zero root key.
   */
  function Established(o: Oracles, mode: Mode, password: string, channelId: string, initiatorPub: Bytes,
                       cache: SkippedKeys, dhr: KeyPair, iv: Bytes): Result<Response>
    requires HmacSound(o) && Argon2Sound(o) && PakeKey(o, password, channelId).Ok?
  {
    var payload := EncryptRaw(o, PakeKey(o, password, channelId).value, iv, o.publicOf(dhr), []).value;
    match o.ecdh(dhr, initiatorPub)
    case None => Err(ECDH_ERROR)
    case Some(dhOut) =>
      var (rk, ckr) := KdfRk(o, ZERO_ROOT, dhOut).value;
      Ok(Response(mode, o.b64Encode(payload),
                  InitialState(cache).(dhrs := Some(dhr), dhp := Some(initiatorPub), rk := Some(rk), ckr := Some(ckr))))
  }

  /**
   * `handleRespondToHandshake` on the parsed `real` and `duress` fields: the
   * handshake key opens `real` (SECURE), or else the duress key opens `duress`
   * (DURESS, with a dummy key pair standing in for the initiator's key), or the
   * handshake fails. Either way the responder has a receiving chain and no
   * sending chain.
   */
  function Responded(o: Oracles, handshakeKey: string, duressKey: string, channelId: string,
                     realPart: string, duressPart: string, cache: SkippedKeys, dummy: KeyPair, dhr: KeyPair, iv: Bytes)
    : (r: Result<Response>)
    requires HmacSound(o) && Argon2Sound(o)
    ensures r.Ok? <==>
      && realPart != "" && duressPart != ""
      && (if Opened(o, handshakeKey, channelId, realPart).Ok?
          then o.ecdh(dhr, Opened(o, handshakeKey, channelId, realPart).value).Some?
          else Opened(o, duressKey, channelId, duressPart).Ok? && o.ecdh(dhr, o.publicOf(dummy)).Some?)
    ensures (&& realPart != "" && duressPart != "" && Opened(o, handshakeKey, channelId, realPart).Err?
             && Opened(o, duressKey, channelId, duressPart).Err?) ==> r == Err(HANDSHAKE_FAILED)
    ensures r.Ok? ==>
      && (r.value.mode == Secure <==> Opened(o, handshakeKey, channelId, realPart).Ok?)
      && (r.value.mode == Duress <==> Opened(o, handshakeKey, channelId, realPart).Err?)
    ensures r.Ok? ==>
      var st := r.value.state;
      && Ready(st) && st.cks.None? && st.ckr.Some?
      && st.ns == 0 && st.nr == 0 && st.pns == 0 && st.mkSkipped == cache && st.dhrs == Some(dhr)
      && st.dhp == Some(if r.value.mode == Secure then Opened(o, handshakeKey, channelId, realPart).value else o.publicOf(dummy))
      && KdfRk(o, ZERO_ROOT, o.ecdh(dhr, st.dhp.value).value) == Ok((st.rk.value, st.ckr.value))
  {
    if realPart == "" || duressPart == "" then Err(INVALID_FORMAT)
    else
      var realOpened := Opened(o, handshakeKey, channelId, realPart);
      if realOpened.Ok? then Established(o, Secure, handshakeKey, channelId, realOpened.value, cache, dhr, iv)
      else if Opened(o, duressKey, channelId, duressPart).Ok? then
        Established(o, Duress, duressKey, channelId, o.publicOf(dummy), cache, dhr, iv)
      else Err(HANDSHAKE_FAILED)
  }

  /**
   * `handleCompleteHandshake`: open the responder payload with the handshake
   * key, agree on a secret with the responder's key, and derive the first root
   * key and sending chain. The initiator has a sending chain and no receiving one.
   */
  function Completed(o: Oracles, handshakeKey: string, channelId: string, responderPayload: string,
                     ephemeral: KeyPair, cache: SkippedKeys): (r: Result<RatchetState>)
    requires HmacSound(o) && Argon2Sound(o)
    ensures r.Ok? <==>
      Opened(o, handshakeKey, channelId, responderPayload).Ok?
      && o.ecdh(ephemeral, Opened(o, handshakeKey, channelId, responderPayload).value).Some?
    ensures r.Ok? ==>
      var st := r.value;
      && Ready(st) && st.cks.Some? && st.ckr.None?
      && st.ns == 0 && st.nr == 0 && st.pns == 0 && st.mkSkipped == cache && st.dhrs == Some(ephemeral)
      && st.dhp == Some(Opened(o, handshakeKey, channelId, responderPayload).value)
      && KdfRk(o, ZERO_ROOT, o.ecdh(ephemeral, st.dhp.value).value) == Ok((st.rk.value, st.cks.value))
  {
    match Opened(o, handshakeKey, channelId, responderPayload)
    case Err(e) => Err(e)
    case Ok(responderPub) =>
      match o.ecdh(ephemeral, responderPub)
      case None => Err(ECDH_ERROR)
      case Some(dhOut) =>
        var (rk, cks) := KdfRk(o, ZERO_ROOT, dhOut).value;
        Ok(InitialState(cache).(dhrs := Some(ephemeral), dhp := Some(responderPub), rk := Some(rk), cks := Some(cks)))
  }

  /** A sealed blob is never empty, so its base64 text is not the empty text the responder refuses. */
  lemma EncodedBlobNotEmpty(o: Oracles, blob: Bytes)
    requires Base64Sound(o) && |blob| > 0
    ensures o.b64Encode(blob) != ""
  {
  }

  /** The text the other side pastes opens, under the same password and channel id, to what was sealed. */
  lemma OpenedSealed(o: Oracles, password: string, channelId: string, iv: Bytes, data: Bytes)
    requires Sound(o) && |iv| == IV_LENGTH && |o.utf8Encode(channelId)| >= ARGON2_MIN_SALT_LENGTH
    ensures PakeKey(o, password, channelId).Ok?
    ensures EncryptRaw(o, PakeKey(o, password, channelId).value, iv, data, []).Ok?
    ensures Opened(o, password, channelId, o.b64Encode(EncryptRaw(o, PakeKey(o, password, channelId).value, iv, data, []).value)) == Ok(data)
  {
    var key := PakeKey(o, password, channelId).value;
    var blob := EncryptRaw(o, key, iv, data, []).value;
    assert o.b64Decode(o.b64Encode(blob)) == Some(blob);
    RawRoundTrip(o, key, iv, data, []);
  }

  /**
   * Both parties using the same handshake key and channel id end the handshake
   * in SECURE mode with the initiator's sending chain equal to the responder's
   * receiving chain, each holding the other's public key, so the ratchet runs
   * in step from the first message. The responder's cache must hold nothing
   * under the initiator's new public key.
   */
  lemma HandshakeAgreement(o: Oracles, handshakeKey: string, duressKey: string, channelId: string,
                           dhi: KeyPair, fakePub: Bytes, ivReal: Bytes, ivDuress: Bytes,
                           responderDuressKey: string, dummy: KeyPair, dhr: KeyPair, ivResponse: Bytes,
                           responderCache: SkippedKeys, initiatorCache: SkippedKeys, entries: map<KeyId, SkippedKey>)
    requires Sound(o)
    requires |ivReal| == IV_LENGTH && |ivDuress| == IV_LENGTH && |ivResponse| == IV_LENGTH
    requires handshakeKey != "" && duressKey != "" && |o.utf8Encode(channelId)| >= ARGON2_MIN_SALT_LENGTH
    requires o.ecdh(dhr, o.publicOf(dhi)).Some?
    requires forall i: nat :: (o.publicOf(dhi), i) !in entries
    ensures Initiation(o, handshakeKey, duressKey, channelId, dhi, fakePub, ivReal, ivDuress).Ok?
    ensures
      var (realPart, duressPart) := Initiation(o, handshakeKey, duressKey, channelId, dhi, fakePub, ivReal, ivDuress).value;
      var resp := Responded(o, handshakeKey, responderDuressKey, channelId, realPart, duressPart, responderCache, dummy, dhr, ivResponse);
      && resp.Ok? && resp.value.mode == Secure
      && var init := Completed(o, handshakeKey, channelId, resp.value.payload, dhi, initiatorCache);
      && init.Ok? && Synced(o, init.value, resp.value.state, entries)
  {
    var realKey := PakeKey(o, handshakeKey, channelId).value;
    var (realPart, duressPart) := Initiation(o, handshakeKey, duressKey, channelId, dhi, fakePub, ivReal, ivDuress).value;
    EncodedBlobNotEmpty(o, EncryptRaw(o, realKey, ivReal, o.publicOf(dhi), []).value);
    EncodedBlobNotEmpty(o, EncryptRaw(o, PakeKey(o, duressKey, channelId).value, ivDuress, fakePub, []).value);
    OpenedSealed(o, handshakeKey, channelId, ivReal, o.publicOf(dhi));
    var resp := Responded(o, handshakeKey, responderDuressKey, channelId, realPart, duressPart, responderCache, dummy, dhr, ivResponse);
    assert resp.Ok? && resp.value.mode == Secure;
    OpenedSealed(o, handshakeKey, channelId, ivResponse, o.publicOf(dhr));
    assert o.ecdh(dhi, o.publicOf(dhr)) == o.ecdh(dhr, o.publicOf(dhi));
    var init := Completed(o, handshakeKey, channelId, resp.value.payload, dhi, initiatorCache);
    assert init.Ok?;
    assert init.value.cks == resp.value.state.ckr;
  }

  /**
   * A responder that opened the duress half with its duress key enters DURESS
   * and keys its ratchet to a dummy public key, not to the initiator's.
   */
  lemma DuressFallback(o: Oracles, handshakeKey: string, duressKey: string, channelId: string,
                       realPart: string, fakePub: Bytes, ivDuress: Bytes,
                       dummy: KeyPair, dhr: KeyPair, iv: Bytes, cache: SkippedKeys)
    requires Sound(o) && |ivDuress| == IV_LENGTH && |o.utf8Encode(channelId)| >= ARGON2_MIN_SALT_LENGTH
    requires realPart != "" && Opened(o, handshakeKey, channelId, realPart).Err?
    requires o.ecdh(dhr, o.publicOf(dummy)).Some?
    ensures
      var duressPart := o.b64Encode(EncryptRaw(o, PakeKey(o, duressKey, channelId).value, ivDuress, fakePub, []).value);
      var r := Responded(o, handshakeKey, duressKey, channelId, realPart, duressPart, cache, dummy, dhr, iv);
      r.Ok? && r.value.mode == Duress && r.value.state.dhp == Some(o.publicOf(dummy))
  {
    EncodedBlobNotEmpty(o, EncryptRaw(o, PakeKey(o, duressKey, channelId).value, ivDuress, fakePub, []).value);
    OpenedSealed(o, duressKey, channelId, ivDuress, fakePub);
  }

  /**
   * The responder can never send: it leaves the handshake without a sending
   * chain, and the initiator, which never receives, never changes its key pair,
   * so no message the responder receives triggers the DH step that would give
   * it one.
   */
  lemma ResponderCannotSend(o: Oracles, handshakeKey: string, duressKey: string, channelId: string,
                            dhi: KeyPair, fakePub: Bytes, ivReal: Bytes, ivDuress: Bytes,
                            responderDuressKey: string, dummy: KeyPair, dhr: KeyPair, ivResponse: Bytes,
                            responderCache: SkippedKeys, initiatorCache: SkippedKeys, entries: map<KeyId, SkippedKey>,
                            ckSalt: Bytes, messages: seq<(Bytes, Bytes)>, newPair: KeyPair, plaintext: Bytes, iv: Bytes)
    requires Sound(o) && |ckSalt| > 0
    requires |ivReal| == IV_LENGTH && |ivDuress| == IV_LENGTH && |ivResponse| == IV_LENGTH
    requires handshakeKey != "" && duressKey != "" && |o.utf8Encode(channelId)| >= ARGON2_MIN_SALT_LENGTH
    requires o.ecdh(dhr, o.publicOf(dhi)).Some?
    requires forall i: nat :: (o.publicOf(dhi), i) !in entries
    requires forall k | 0 <= k < |messages| :: |messages[k].1| == IV_LENGTH
    ensures Initiation(o, handshakeKey, duressKey, channelId, dhi, fakePub, ivReal, ivDuress).Ok?
    ensures
      var (realPart, duressPart) := Initiation(o, handshakeKey, duressKey, channelId, dhi, fakePub, ivReal, ivDuress).value;
      var resp := Responded(o, handshakeKey, responderDuressKey, channelId, realPart, duressPart, responderCache, dummy, dhr, ivResponse);
      && resp.Ok?
      && var init := Completed(o, handshakeKey, channelId, resp.value.payload, dhi, initiatorCache);
      && init.Ok?
      && RatchetEncrypt(o, ckSalt, plaintext, resp.value.state, iv) == Err(NOT_READY_TO_SEND)
      && Synced(o, init.value, resp.value.state, entries)
      && var (_, responder', _) := Delivered(o, ckSalt, init.value, resp.value.state, entries, messages, newPair);
      && RatchetEncrypt(o, ckSalt, plaintext, responder', iv) == Err(NOT_READY_TO_SEND)
  {
    HandshakeAgreement(o, handshakeKey, duressKey, channelId, dhi, fakePub, ivReal, ivDuress,
                       responderDuressKey, dummy, dhr, ivResponse, responderCache, initiatorCache, entries);
    var (realPart, duressPart) := Initiation(o, handshakeKey, duressKey, channelId, dhi, fakePub, ivReal, ivDuress).value;
    var resp := Responded(o, handshakeKey, responderDuressKey, channelId, realPart, duressPart, responderCache, dummy, dhr, ivResponse);
    var init := Completed(o, handshakeKey, channelId, resp.value.payload, dhi, initiatorCache);
    DeliveredRun(o, ckSalt, init.value, resp.value.state, entries, messages, newPair);
  }

  // --------------------------------------------------------------- messages

  /**
   * What `handleReceiveMessage` makes of `ratchetDecrypt`'s result: the new
   * state with the content and timestamp of a well-formed message, or the
   * error to show.
   */
  function Accepted(codec: MessageCodec, r: Result<(RatchetState, Bytes)>): (a: Result<(RatchetState, string, nat)>)
    ensures a.Ok? <==>
      && r.Ok? && codec.decode(r.value.1).Some?
      && codec.decode(r.value.1).value.0 != "" && codec.decode(r.value.1).value.1 != 0
    ensures a.Ok? ==> a.value == (r.value.0, codec.decode(r.value.1).value.0, codec.decode(r.value.1).value.1)
    ensures r.Err? ==> a == Err(r.msg)
  {
    match r
    case Err(e) => Err(e)
    case Ok((st, plaintext)) =>
      match codec.decode(plaintext)
      case None => Err(PARSE_ERROR)
      case Some((content, timestamp)) =>
        if content == "" || timestamp == 0 then Err(INVALID_MESSAGE) else Ok((st, content, timestamp))
  }

  /**
   * As written, a channel whose handshake succeeded carries nothing: the
   * initiator's first send fails on the empty HMAC key of the chain step, and
   * the responder decrypts nothing its cache does not already hold, leaving
   * the cache as it was.
   */
  lemma HandshakeThenNothingArrives(o: Oracles, handshakeKey: string, duressKey: string, channelId: string,
                                    dhi: KeyPair, fakePub: Bytes, ivReal: Bytes, ivDuress: Bytes,
                                    responderDuressKey: string, dummy: KeyPair, dhr: KeyPair, ivResponse: Bytes,
                                    responderCache: SkippedKeys, initiatorCache: SkippedKeys, entries: map<KeyId, SkippedKey>,
                                    plaintext: Bytes, iv: Bytes, header: Header, ct: Bytes, newPair: KeyPair)
    requires Sound(o)
    requires |ivReal| == IV_LENGTH && |ivDuress| == IV_LENGTH && |ivResponse| == IV_LENGTH
    requires handshakeKey != "" && duressKey != "" && |o.utf8Encode(channelId)| >= ARGON2_MIN_SALT_LENGTH
    requires o.ecdh(dhr, o.publicOf(dhi)).Some?
    requires (header.dhPub, header.n) !in entries
    ensures Initiation(o, handshakeKey, duressKey, channelId, dhi, fakePub, ivReal, ivDuress).Ok?
    ensures
      var (realPart, duressPart) := Initiation(o, handshakeKey, duressKey, channelId, dhi, fakePub, ivReal, ivDuress).value;
      var resp := Responded(o, handshakeKey, responderDuressKey, channelId, realPart, duressPart, responderCache, dummy, dhr, ivResponse);
      && resp.Ok?
      && var init := Completed(o, handshakeKey, channelId, resp.value.payload, dhi, initiatorCache);
      && init.Ok?
      && RatchetEncrypt(o, KDF_CK_SALT, plaintext, init.value, iv) == Err(HMAC_EMPTY_KEY)
      && var (r, entries') := Decrypted(o, KDF_CK_SALT, header, ct, resp.value.state, entries, newPair);
      && r.Err? && entries' == entries
  {
    var realKey := PakeKey(o, handshakeKey, channelId).value;
    var (realPart, duressPart) := Initiation(o, handshakeKey, duressKey, channelId, dhi, fakePub, ivReal, ivDuress).value;
    EncodedBlobNotEmpty(o, EncryptRaw(o, realKey, ivReal, o.publicOf(dhi), []).value);
    EncodedBlobNotEmpty(o, EncryptRaw(o, PakeKey(o, duressKey, channelId).value, ivDuress, fakePub, []).value);
    OpenedSealed(o, handshakeKey, channelId, ivReal, o.publicOf(dhi));
    var resp := Responded(o, handshakeKey, responderDuressKey, channelId, realPart, duressPart, responderCache, dummy, dhr, ivResponse);
    assert resp.Ok?;
    OpenedSealed(o, handshakeKey, channelId, ivResponse, o.publicOf(dhr));
    assert o.ecdh(dhi, o.publicOf(dhr)) == o.ecdh(dhr, o.publicOf(dhi));
    CodeDecryptsOnlyCached(o, header, ct, resp.value.state, entries, newPair);
  }

  /**
   * A channel id of fewer than 8 UTF-8 bytes is too short an Argon2 salt: the
   * initiation fails with the catch's fallback text, the responder reports
   * that both keys are wrong, and completion fails.
   */
  lemma ShortChannelIdRefused(o: Oracles, handshakeKey: string, duressKey: string, channelId: string,
                              dhi: KeyPair, fakePub: Bytes, ivReal: Bytes, ivDuress: Bytes,
                              realPart: string, duressPart: string, cache: SkippedKeys, dummy: KeyPair, dhr: KeyPair,
                              iv: Bytes, responderPayload: string, ephemeral: KeyPair)
    requires HmacSound(o) && Argon2Sound(o)
    requires handshakeKey != "" && duressKey != "" && |o.utf8Encode(channelId)| < ARGON2_MIN_SALT_LENGTH
    requires realPart != "" && duressPart != ""
    ensures Initiation(o, handshakeKey, duressKey, channelId, dhi, fakePub, ivReal, ivDuress) == Err(INITIATION_FAILED)
    ensures Responded(o, handshakeKey, duressKey, channelId, realPart, duressPart, cache, dummy, dhr, iv) == Err(HANDSHAKE_FAILED)
    ensures Completed(o, handshakeKey, channelId, responderPayload, ephemeral, cache) == Err(ARGON2_SALT_TOO_SHORT)
  {
  }

  /**
   * A message sent in SECURE mode over a channel in step reaches the peer
   * with its content and timestamp, and the two ratchets stay in step.
   */
  lemma SecureMessageArrives(o: Oracles, codec: MessageCodec, ckSalt: Bytes, sender: RatchetState, receiver: RatchetState,
                             entries: map<KeyId, SkippedKey>, content: string, now: nat, iv: Bytes, newPair: KeyPair)
    requires HmacSound(o) && GcmSound(o) && CodecSound(codec) && |iv| == IV_LENGTH && |ckSalt| > 0
    requires Synced(o, sender, receiver, entries)
    requires content != "" && now != 0
    ensures RatchetEncrypt(o, ckSalt, codec.encode(content, now), sender, iv).Ok?
    ensures
      var (sender', ct) := RatchetEncrypt(o, ckSalt, codec.encode(content, now), sender, iv).value;
      var (r, entries') := Decrypted(o, ckSalt, SendHeader(o, sender'), ct, receiver, entries, newPair);
      var a := Accepted(codec, r);
      && a.Ok? && a.value.1 == content && a.value.2 == now
      && Synced(o, sender', a.value.0, entries')
  {
    InOrderDelivery(o, ckSalt, sender, receiver, entries, codec.encode(content, now), iv, newPair);
  }

  // ------------------------------------------------------------ hook state

  /** The text fields the view binds: the channel id, the two keys, the message being typed, and the two pasted payloads. */
  datatype Inputs = Inputs(
    channelId: string, handshakeKey: string, duressKey: string,
    newMessage: string, receivedCiphertext: string, receivedPayload: string)

  /** The handshake's progress, the payload each side stages, and the initiator's ephemeral key pair. */
  datatype Handshake = Handshake(
    stage: Stage, initiatorPayload: Option<(string, string)>, responderPayload: string, ephemeral: Option<KeyPair>)

  /** Every field of the hook's state, as one value. */
  datatype Hook = Hook(
    inputs: Inputs, handshake: Handshake, messages: seq<ChannelMessage>, error: Option<string>,
    ratchet: RatchetState, mode: Mode)

  const NO_INPUTS: Inputs := Inputs("", "", "", "", "", "")
  const IDLE: Handshake := Handshake(Idle, None, "", None)

  /** What `resetChannelState` leaves: every field empty, the ratchet state the initial one around the same cache. */
  function Cleared(cache: SkippedKeys): (h: Hook)
    ensures h.ratchet.rk.None? && h.ratchet.mkSkipped == cache && h.mode == Uninitialized && h.messages == []
  {
    Hook(NO_INPUTS, IDLE, [], None, InitialState(cache), Uninitialized)
  }

  /** The state of one `useChannel` hook. */
  class Channel {
    var inputs: Inputs
    var handshake: Handshake
    var messages: seq<ChannelMessage>
    var error: Option<string>
    var ratchet: RatchetState
    var mode: Mode
    /** `initialRatchetState.MKSKIPPED`: one map object, never replaced, that every ratchet state of the hook shares. */
    const cache: SkippedKeys

    function Snapshot(): Hook
      reads this
    {
      Hook(inputs, handshake, messages, error, ratchet, mode)
    }

    /** The ratchet state works on the shared cache, and one with a root key has both key pairs' halves set. */
    ghost predicate Valid()
      reads this
    {
      ratchet.mkSkipped == cache && (ratchet.rk.Some? ==> Ready(ratchet))
    }

    constructor(cache: SkippedKeys)
      ensures this.cache == cache && Snapshot() == Cleared(cache) && Valid()
    {
      this.cache := cache;
      inputs, handshake, messages, error := NO_INPUTS, IDLE, [], None;
      ratchet, mode := InitialState(cache), Uninitialized;
    }

    /** `resetChannelState`: every field back to its initial value; the cache object and its entries stay. */
    method ResetChannelState()
      modifies this
      ensures Snapshot() == Cleared(cache) && Valid()
    {
      inputs, handshake, messages, error := NO_INPUTS, IDLE, [], None;
      ratchet, mode := InitialState(cache), Uninitialized;
    }

    /** `handleInitiateHandshake`: keeps the key pair and stages the two-part payload. */
    method InitiateHandshake(o: Oracles, dhi: KeyPair, fakePub: Bytes, ivReal: Bytes, ivDuress: Bytes)
      requires Argon2Sound(o) && Valid()
      modifies this
      ensures Valid()
      ensures old(inputs.handshakeKey) == "" || old(inputs.duressKey) == "" ==>
        Snapshot() == old(Snapshot()).(error := Some(KEYS_REQUIRED))
      ensures old(inputs.handshakeKey) != "" && old(inputs.duressKey) != "" ==>
        var r := Initiation(o, old(inputs.handshakeKey), old(inputs.duressKey), old(inputs.channelId),
                            dhi, fakePub, ivReal, ivDuress);
        && (r.Err? ==> Snapshot() == old(Snapshot()).(error := Some(INITIATION_FAILED)))
        && (r.Ok? ==> Snapshot() == old(Snapshot()).(
              error := None,
              handshake := old(handshake).(ephemeral := Some(dhi), stage := Initiated, initiatorPayload := Some(r.value))))
    {
      if inputs.handshakeKey == "" || inputs.duressKey == "" {
        error := Some(KEYS_REQUIRED);
        return;
      }
      error := None;
      var pakeKey := PakeKey(o, inputs.handshakeKey, inputs.channelId);
      var duressPakeKey := PakeKey(o, inputs.duressKey, inputs.channelId);
      if pakeKey.Err? || duressPakeKey.Err? {
        error := Some(INITIATION_FAILED);
        return;
      }
      handshake := handshake.(ephemeral := Some(dhi));
      var realPart := EncryptRaw(o, pakeKey.value, ivReal, o.publicOf(dhi), []);
      var duressPart := EncryptRaw(o, duressPakeKey.value, ivDuress, fakePub, []);
      handshake := handshake.(initiatorPayload := Some((o.b64Encode(realPart.value), o.b64Encode(duressPart.value))),
                              stage := Initiated);
    }

    /**
     * `handleRespondToHandshake`; `parsed` is `JSON.parse` of the pasted
     * payload with missing fields read as "". Every failure resets the hook,
     * and the reset's `setChannelError(null)` comes after the error message,
     * so no error remains to show.
     */
    method RespondToHandshake(o: Oracles, parsed: Option<(string, string)>, dummy: KeyPair, dhr: KeyPair, iv: Bytes)
      requires HmacSound(o) && Argon2Sound(o) && Valid()
      modifies this
      ensures Valid()
      ensures old(inputs.receivedPayload) == "" ==>
        Snapshot() == old(Snapshot()).(error := Some(INITIATOR_PAYLOAD_REQUIRED))
      ensures old(inputs.receivedPayload) != "" && parsed.None? ==> Snapshot() == Cleared(cache)
      ensures old(inputs.receivedPayload) != "" && parsed.Some? ==>
        var r := Responded(o, old(inputs.handshakeKey), old(inputs.duressKey), old(inputs.channelId),
                           parsed.value.0, parsed.value.1, cache, dummy, dhr, iv);
        && (r.Err? ==> Snapshot() == Cleared(cache))
        && (r.Ok? ==> Snapshot() == old(Snapshot()).(
              error := None, mode := r.value.mode, ratchet := r.value.state,
              handshake := old(handshake).(responderPayload := r.value.payload, stage := Complete),
              inputs := old(inputs).(receivedPayload := "")))
    {
      if inputs.receivedPayload == "" {
        error := Some(INITIATOR_PAYLOAD_REQUIRED);
        return;
      }
      error := None;
      if parsed.None? {
        ResetChannelState();
        return;
      }
      var (realPart, duressPart) := parsed.value;
      if realPart == "" || duressPart == "" {
        ResetChannelState();
        return;
      }
      var password: string;
      var initiatorPub: Bytes;
      var currentMode: Mode;
      var realOpened := Opened(o, inputs.handshakeKey, inputs.channelId, realPart);
      if realOpened.Ok? {
        password, initiatorPub, currentMode := inputs.handshakeKey, realOpened.value, Secure;
      } else {
        var duressOpened := Opened(o, inputs.duressKey, inputs.channelId, duressPart);
        if duressOpened.Err? {
          ResetChannelState();
          return;
        }
        password, initiatorPub, currentMode := inputs.duressKey, o.publicOf(dummy), Duress;
      }
      Establish(o, currentMode, password, initiatorPub, dhr, iv);
    }

    /** The end of `handleRespondToHandshake`, once the mode, the password and the initiator's key are known. */
    method Establish(o: Oracles, currentMode: Mode, password: string, initiatorPub: Bytes, dhr: KeyPair, iv: Bytes)
      requires HmacSound(o) && Argon2Sound(o) && Valid() && PakeKey(o, password, inputs.channelId).Ok?
      modifies this
      ensures Valid()
      ensures
        var r := Established(o, currentMode, password, old(inputs.channelId), initiatorPub, cache, dhr, iv);
        && (r.Err? ==> Snapshot() == Cleared(cache))
        && (r.Ok? ==> Snapshot() == old(Snapshot()).(
              mode := r.value.mode, ratchet := r.value.state,
              handshake := old(handshake).(responderPayload := r.value.payload, stage := Complete),
              inputs := old(inputs).(receivedPayload := "")))
    {
      mode := currentMode;
      var sealed := EncryptRaw(o, PakeKey(o, password, inputs.channelId).value, iv, o.publicOf(dhr), []);
      handshake := handshake.(responderPayload := o.b64Encode(sealed.value));
      var dhOut := o.ecdh(dhr, initiatorPub);
      if dhOut.None? {
        ResetChannelState();
        return;
      }
      var (rk, ckr) := KdfRk(o, ZERO_ROOT, dhOut.value).value;
      ratchet := InitialState(cache).(dhrs := Some(dhr), dhp := Some(initiatorPub), rk := Some(rk), ckr := Some(ckr));
      handshake := handshake.(stage := Complete);
      inputs := inputs.(receivedPayload := "");
    }

    /** `handleCompleteHandshake`: the pasted text is the base64 responder payload. */
    method CompleteHandshake(o: Oracles)
      requires HmacSound(o) && Argon2Sound(o) && Valid()
      modifies this
      ensures Valid()
      ensures old(inputs.receivedPayload) == "" ==>
        Snapshot() == old(Snapshot()).(error := Some(RESPONDER_PAYLOAD_REQUIRED))
      ensures old(inputs.receivedPayload) != "" && old(handshake.ephemeral).None? ==>
        Snapshot() == old(Snapshot()).(error := Some(STATE_LOST))
      ensures old(inputs.receivedPayload) != "" && old(handshake.ephemeral).Some? ==>
        var r := Completed(o, old(inputs.handshakeKey), old(inputs.channelId), old(inputs.receivedPayload),
                           old(handshake.ephemeral).value, cache);
        && (r.Err? ==> Snapshot() == Cleared(cache))
        && (r.Ok? ==> Snapshot() == old(Snapshot()).(
              error := None, ratchet := r.value, mode := Secure,
              handshake := old(handshake).(stage := Complete),
              inputs := old(inputs).(receivedPayload := "")))
    {
      if inputs.receivedPayload == "" {
        error := Some(RESPONDER_PAYLOAD_REQUIRED);
        return;
      }
      if handshake.ephemeral.None? {
        error := Some(STATE_LOST);
        return;
      }
      error := None;
      var responderPub := Opened(o, inputs.handshakeKey, inputs.channelId, inputs.receivedPayload);
      if responderPub.Err? {
        ResetChannelState();
        return;
      }
      var dhOut := o.ecdh(handshake.ephemeral.value, responderPub.value);
      if dhOut.None? {
        ResetChannelState();
        return;
      }
      var (rk, cks) := KdfRk(o, ZERO_ROOT, dhOut.value).value;
      ratchet := InitialState(cache).(dhrs := handshake.ephemeral, dhp := Some(responderPub.value),
                                      rk := Some(rk), cks := Some(cks));
      mode := Secure;
      handshake := handshake.(stage := Complete);
      inputs := inputs.(receivedPayload := "");
    }

    /**
     * `handleSendMessage`: in DURESS a plausible stock message is encrypted in
     * place of the typed one, advancing the ratchet, and nothing is shown; in
     * SECURE the typed message is encrypted and shown with its staged payload.
     * `pick` is the random index into the stock messages, and `ckSalt` the salt
     * of `kdf_ck`: with the hook's `KDF_CK_SALT` every encryption fails and
     * only the error branch is taken.
     */
    method SendMessage(o: Oracles, codec: MessageCodec, ckSalt: Bytes, now: nat, pick: nat, iv: Bytes)
      requires HmacSound(o) && Valid() && pick < |DURESS_PLAUSIBLE_MESSAGES|
      modifies this
      ensures Valid()
      ensures old(inputs.newMessage) == "" || old(ratchet).rk.None? ==> Snapshot() == old(Snapshot())
      ensures old(inputs.newMessage) != "" && old(ratchet).rk.Some? ==>
        var content := if old(mode) == Duress then DURESS_PLAUSIBLE_MESSAGES[pick] else old(inputs.newMessage);
        var r := RatchetEncrypt(o, ckSalt, codec.encode(content, now), old(ratchet), iv);
        && (r.Err? ==> Snapshot() == old(Snapshot()).(error := Some(r.msg)))
        && (r.Ok? ==> Snapshot() == old(Snapshot()).(
              error := None, ratchet := r.value.0, inputs := old(inputs).(newMessage := ""),
              messages := old(messages) + (if old(mode) == Duress then []
                                           else [ChannelMessage(Self, content, now, Some((SendHeader(o, r.value.0), r.value.1)))])))
    {
      if inputs.newMessage == "" || ratchet.rk.None? {
        return;
      }
      error := None;
      var content := if mode == Duress then DURESS_PLAUSIBLE_MESSAGES[pick] else inputs.newMessage;
      var r := RatchetEncrypt(o, ckSalt, codec.encode(content, now), ratchet, iv);
      if r.Err? {
        error := Some(r.msg);
        return;
      }
      ratchet := r.value.0;
      if mode != Duress {
        messages := messages + [ChannelMessage(Self, content, now, Some((SendHeader(o, ratchet), r.value.1)))];
      }
      inputs := inputs.(newMessage := "");
    }

    /**
     * `handleReceiveMessage`: in DURESS a plausible stock message is shown and
     * the ratchet is not touched; in SECURE the pasted payload (`parsed`, its
     * header and ciphertext) is decrypted. A failure leaves the ratchet state
     * as it was but not the shared cache, which keeps what the skip loop put
     * there. `ckSalt` is the salt of `kdf_ck`, `KDF_CK_SALT` in the hook.
     */
    method ReceiveMessage(o: Oracles, codec: MessageCodec, ckSalt: Bytes, parsed: Option<(Header, Bytes)>, now: nat, pick: nat,
                          newPair: KeyPair)
      requires HmacSound(o) && Valid() && pick < |DURESS_PLAUSIBLE_MESSAGES|
      modifies this, cache
      ensures Valid()
      ensures old(inputs.receivedCiphertext) == "" || old(ratchet).rk.None? ==>
        Snapshot() == old(Snapshot()) && cache.entries == old(cache.entries)
      ensures old(inputs.receivedCiphertext) != "" && old(ratchet).rk.Some? && old(mode) == Duress ==>
        && cache.entries == old(cache.entries)
        && Snapshot() == old(Snapshot()).(
             error := None, inputs := old(inputs).(receivedCiphertext := ""),
             messages := old(messages) + [ChannelMessage(Peer, DURESS_PLAUSIBLE_MESSAGES[pick], now, None)])
      ensures old(inputs.receivedCiphertext) != "" && old(ratchet).rk.Some? && old(mode) != Duress && parsed.None? ==>
        Snapshot() == old(Snapshot()).(error := Some(PARSE_ERROR)) && cache.entries == old(cache.entries)
      ensures old(inputs.receivedCiphertext) != "" && old(ratchet).rk.Some? && old(mode) != Duress && parsed.Some? ==>
        var (r, entries') := Decrypted(o, ckSalt, parsed.value.0, parsed.value.1, old(ratchet), old(cache.entries), newPair);
        var a := Accepted(codec, r);
        && cache.entries == entries'
        && (a.Err? ==> Snapshot() == old(Snapshot()).(error := Some(a.msg)))
        && (a.Ok? ==> Snapshot() == old(Snapshot()).(
              error := None, ratchet := a.value.0, inputs := old(inputs).(receivedCiphertext := ""),
              messages := old(messages) + [ChannelMessage(Peer, a.value.1, a.value.2, None)]))
    {
      if inputs.receivedCiphertext == "" || ratchet.rk.None? {
        return;
      }
      error := None;
      if mode == Duress {
        messages := messages + [ChannelMessage(Peer, DURESS_PLAUSIBLE_MESSAGES[pick], now, None)];
        inputs := inputs.(receivedCiphertext := "");
        return;
      }
      if parsed.None? {
        error := Some(PARSE_ERROR);
        return;
      }
      var (header, ciphertext) := parsed.value;
      DecryptedReady(o, ckSalt, header, ciphertext, ratchet, cache.entries, newPair);
      var r := RatchetDecrypt(o, ckSalt, header, ciphertext, ratchet, newPair);
      var a := Accepted(codec, r);
      if a.Err? {
        error := Some(a.msg);
        return;
      }
      ratchet := a.value.0;
      messages := messages + [ChannelMessage(Peer, a.value.1, a.value.2, None)];
      inputs := inputs.(receivedCiphertext := "");
    }
  }
}
