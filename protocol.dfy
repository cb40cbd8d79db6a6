/**
 * The client's side of the exchange and what the server does with an honest
 * client. The client's library calls are uninterpreted total functions, used
 * only on inputs where the library does not raise; `Agree` states the only
 * facts the scenarios rely on: each decoder inverts its encoder (RSA for
 * keys of at most 190 bytes, AES-GCM for 32-byte keys and 12-byte nonces),
 * and an HMAC tag verifies exactly when it is the tag the client computes.
 */
module Protocol {
  import opened Wrappers
  import opened Json
  import opened HexCodec
  import opened AnomalyDetector
  import opened StudentModel
  import opened Server

  datatype ClientPrimitives = ClientPrimitives(
    // b64encode
    b64Encode: Bytes -> string,
    // rsa_encrypt under the server's public key
    rsaEncrypt: Bytes -> Bytes,
    // AES-GCM encryption (key, nonce, plaintext)
    aesGcmEncrypt: (Bytes, Bytes, Bytes) -> Bytes,
    // generate_hmac(key, data)
    generateHmac: (Bytes, Bytes) -> Bytes,
    // str.encode(): UTF-8
    utf8Encode: string -> Bytes)

  /**
   * The most bytes RSA-OAEP with SHA-256 carries under the 2048-bit server
   * key: 256 - 2 * 32 - 2. Beyond it `rsa_encrypt` raises, so the client's
   * function is only constrained up to this length.
   */
  const MaxWrappedKey := 190

  ghost predicate Agree(server: Primitives, client: ClientPrimitives)
  {
    && (forall x :: server.b64Decode(client.b64Encode(x)) == Some(x))
    && (forall k :: |k| <= MaxWrappedKey ==> server.rsaDecrypt(client.rsaEncrypt(k)) == Some(k))
    && (forall k, d, t :: server.verifyHmac(k, d, t) <==> t == client.generateHmac(k, d))
    && (forall k, n, p :: |k| == 32 && |n| == 12 ==>
          server.aesGcmDecrypt(k, n, client.aesGcmEncrypt(k, n, p)) == Some(p))
    && (forall s :: server.utf8Decode(client.utf8Encode(s)) == Some(s))
  }

  /** The key exchange round-trips: the server stores the very key the client wrapped. */
  lemma UnwrapKeyRoundTrip(prims: Primitives, client: ClientPrimitives, aesKey: Bytes)
    requires Agree(prims, client)
    requires |aesKey| <= MaxWrappedKey
    ensures UnwrapKey(prims, client.b64Encode(client.rsaEncrypt(aesKey))) == Some(aesKey)
  {
  }

  /** The message an honest client sends for `text` under `aesKey`. */
  function Seal(client: ClientPrimitives, sessionId: string, aesKey: Bytes, nonce: Bytes, text: string): MessageRequest
  {
    var ciphertext := client.aesGcmEncrypt(aesKey, nonce, client.utf8Encode(text));
    MessageRequest(sessionId, client.b64Encode(ciphertext), client.b64Encode(nonce),
                   client.b64Encode(client.generateHmac(aesKey, ciphertext)))
  }

  /**
   * A sealed message round-trips through the server's decoding: the three
   * fields decode to the client's ciphertext, nonce and tag, the tag verifies
   * under the key, and decryption gives back the text.
   */
  lemma SealOpens(prims: Primitives, client: ClientPrimitives, sessionId: string,
                  aesKey: Bytes, nonce: Bytes, text: string)
    requires Agree(prims, client)
    requires |aesKey| == 32 && |nonce| == 12
    ensures var ciphertext := client.aesGcmEncrypt(aesKey, nonce, client.utf8Encode(text));
      && DecodeEnvelope(prims, Seal(client, sessionId, aesKey, nonce, text))
         == Some(Envelope(ciphertext, nonce, client.generateHmac(aesKey, ciphertext)))
      && prims.verifyHmac(aesKey, ciphertext, client.generateHmac(aesKey, ciphertext))
      && Open(prims, aesKey, Envelope(ciphertext, nonce, client.generateHmac(aesKey, ciphertext))) == Some(text)
  {
  }

  /**
   * The client's whole run against a fresh server: wrap a 32-byte key, open a
   * session, encrypt and MAC the JSON text, send it. The session id is 32 hex
   * digits, the HMAC and decryption always pass, and the verdict is the
   * classifier's: a flagged text is an anomaly, a clean one a student.
   */
  method HonestExchange(prims: Primitives, client: ClientPrimitives,
                        aesKey: Bytes, entropy: Bytes, nonce: Bytes, text: string)
    returns (reply: SessionReply, r: Response)
    requires Agree(prims, client)
    requires |aesKey| == 32 && |entropy| == 16 && |nonce| == 12
    ensures reply == Created(Hex(entropy)) && |reply.sessionId| == 32
    ensures ValidHmac(r) == Some(true) || r == Unhandled
    ensures r != DecryptFailed
    ensures r == Unhandled <==>
      IsAnomalous(prims.jsonLoads(text)) == Raises ||
      (IsAnomalous(prims.jsonLoads(text)) == Normal && StudentOf(prims, text).None?)
    ensures IsAnomalous(prims.jsonLoads(text)) == Anomalous ==> r == Anomaly
    ensures IsAnomalous(prims.jsonLoads(text)) == Normal && StudentOf(prims, text).Some? ==>
      r == Success(StudentOf(prims, text).value)
  {
    var server := new SessionServer(prims);
    reply := server.CreateSession(client.b64Encode(client.rsaEncrypt(aesKey)), entropy);
    var req := Seal(client, reply.sessionId, aesKey, nonce, text);
    r := server.ReceiveMessage(req);
  }

  /**
   * A tag other than the one computed over the ciphertext under the session
   * key is rejected with `validHMAC: false`, whatever the ciphertext holds.
   */
  method TamperedTag(prims: Primitives, client: ClientPrimitives,
                     aesKey: Bytes, entropy: Bytes, ciphertext: Bytes, nonce: Bytes, tag: Bytes)
    returns (r: Response)
    requires Agree(prims, client)
    requires |aesKey| == 32 && |entropy| == 16
    requires tag != client.generateHmac(aesKey, ciphertext)
    ensures r == HmacFailed
  {
    var server := new SessionServer(prims);
    var reply := server.CreateSession(client.b64Encode(client.rsaEncrypt(aesKey)), entropy);
    r := server.ReceiveMessage(MessageRequest(reply.sessionId, client.b64Encode(ciphertext),
                                              client.b64Encode(nonce), client.b64Encode(tag)));
  }

  /**
   * Only issued ids are known: after one session is opened, a request under
   * any other id is refused as an unknown session before anything is decoded.
   */
  method ForeignSessionId(prims: Primitives, encryptedKey: string, entropy: Bytes, req: MessageRequest)
    returns (r: Response)
    requires |entropy| == 16
    requires req.sessionId != Hex(entropy)
    ensures r == BadRequest(UnknownSession)
  {
    var server := new SessionServer(prims);
    var reply := server.CreateSession(encryptedKey, entropy);
    r := server.ReceiveMessage(req);
  }
}
