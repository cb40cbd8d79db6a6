/**
 * The server's session table and its two state-touching endpoints:
 * `/session` (unwrap a client's AES key, store it under a fresh hex id) and
 * `/message` (an ordered, short-circuiting validation pipeline).
 *
 * The cryptographic and codec calls are not modelled; the server holds them
 * as uninterpreted total functions that answer None where the library call
 * raises.
 */
module Server {
  import opened Wrappers
  import opened Json
  import opened HexCodec
  import opened AnomalyDetector
  import opened StudentModel
  import opened Text

  datatype Primitives = Primitives(
    // base64.b64decode (non-validating)
    b64Decode: string -> Option<Bytes>,
    // rsa_decrypt: RSA-OAEP with the server's private key
    rsaDecrypt: Bytes -> Option<Bytes>,
    // verify_hmac(key, data, tag): HMAC-SHA256 check, never raises
    verifyHmac: (Bytes, Bytes, Bytes) -> bool,
    // aes_gcm_decrypt(key, nonce, ciphertext)
    aesGcmDecrypt: (Bytes, Bytes, Bytes) -> Option<Bytes>,
    // bytes.decode(): UTF-8
    utf8Decode: Bytes -> Option<string>,
    // json.loads
    jsonLoads: string -> Option<Value>)

  const UnknownSession := "Unknown session ID"
  const InvalidBase64 := "Invalid Base64 payload"
  const InvalidKey := "Invalid encrypted key"

  /** The body of a POST to `/message`: every binary field is base64 text. */
  datatype MessageRequest = MessageRequest(sessionId: string, ciphertext: string, nonce: string, hmac: string)

  /** The three binary fields of a message once decoded. */
  datatype Envelope = Envelope(ciphertext: Bytes, nonce: Bytes, tag: Bytes)

  /** `/session`: the new id, or HTTP 400 with a detail. */
  datatype SessionReply = Created(sessionId: string) | KeyRejected(detail: string)

  /**
   * `/message`: HTTP 400 with a detail, one of the structured replies, or an
   * exception the endpoint does not catch.
   */
  datatype Response =
    | BadRequest(detail: string)
    | HmacFailed
    | DecryptFailed
    | Anomaly
    | Success(student: Student)
    | Unhandled

  /** The `validHMAC` field of a structured reply; None where there is no such reply. */
  function ValidHmac(r: Response): Option<bool>
  {
    match r
    case HmacFailed => Some(false)
    case DecryptFailed => Some(true)
    case Anomaly => Some(true)
    case Success(_) => Some(true)
    case _ => None
  }

  /**
   * The `message` field of a structured reply: every reply that carries
   * `validHMAC` carries a message, and an HTTP error carries neither. After the decryption-failure
   * prefix the server appends the text of the exception, which is not modelled.
   */
  function Message(r: Response): (m: Option<string>)
    ensures m.Some? <==> ValidHmac(r).Some?
  {
    match r
    case HmacFailed => Some("HMAC verification failed")
    case DecryptFailed => Some("Decryption failed: ")
    case Anomaly => Some("Anomaly detected â\U{20AC}\U{201D} message flagged.")
    case Success(_) => Some("Message decrypted successfully")
    case _ => None
  }

  /** The key a `/session` request carries: base64-decoded, then RSA-unwrapped. */
  function UnwrapKey(prims: Primitives, encryptedKey: string): Option<Bytes>
  {
    match prims.b64Decode(encryptedKey)
    case None => None
    case Some(wrapped) => prims.rsaDecrypt(wrapped)
  }

  /** All three base64 fields decoded; None if any one fails. */
  function DecodeEnvelope(prims: Primitives, req: MessageRequest): Option<Envelope>
  {
    match (prims.b64Decode(req.ciphertext), prims.b64Decode(req.nonce), prims.b64Decode(req.hmac))
    case (Some(c), Some(n), Some(t)) => Some(Envelope(c, n, t))
    case _ => None
  }

  /** AES-GCM decryption followed by UTF-8 decoding; None if either raises. */
  function Open(prims: Primitives, key: Bytes, e: Envelope): Option<string>
  {
    match prims.aesGcmDecrypt(key, e.nonce, e.ciphertext)
    case None => None
    case Some(bytes) => prims.utf8Decode(bytes)
  }

  /**
   * `Student(**json.loads(text))`; None where it raises. A student comes
   * only from text that parsed to an object, carries that object's name, and
   * has a gpa in [0.0, 4.0].
   */
  function StudentOf(prims: Primitives, text: string): (s: Option<Student>)
    ensures s.Some? ==>
      && prims.jsonLoads(text).Some? && prims.jsonLoads(text).value.JObject?
      && Get(prims.jsonLoads(text).value.members, "name", JNull) == JString(s.value.name)
      && ValidGpa(s.value.gpa)
  {
    match prims.jsonLoads(text)
    case Some(JObject(members)) => FromMembers(members)
    case _ => None
  }

  /**
   * A student is only ever built from plaintext the classifier passed: the
   * text parsed to an object, its folded name holds no SQL term, "hack" or
   * "attack", and its gpa lies in [0.0, 4.0].
   */
  lemma StudentIsClean(prims: Primitives, text: string)
    requires IsAnomalous(prims.jsonLoads(text)) == Normal
    requires StudentOf(prims, text).Some?
    ensures prims.jsonLoads(text).Some? && prims.jsonLoads(text).value.JObject?
    ensures Clean(Lower(StudentOf(prims, text).value.name), StudentOf(prims, text).value.gpa)
  {
    NormalIff(prims.jsonLoads(text));
  }

  class SessionServer {
    const prims: Primitives
    /** `session_keys`: session id to AES key. */
    var sessionKeys: map<string, Bytes>

    constructor (prims: Primitives)
      ensures this.prims == prims
      ensures sessionKeys == map[]
    {
      this.prims := prims;
      sessionKeys := map[];
    }

    /** The session key and the decoded fields, when the first two checks pass. */
    function Admitted(req: MessageRequest): Option<(Bytes, Envelope)>
      reads this
    {
      if req.sessionId !in sessionKeys then None
      else match DecodeEnvelope(prims, req)
        case None => None
        case Some(e) => Some((sessionKeys[req.sessionId], e))
    }

    /** The HMAC over the decoded ciphertext checks out under the session's key. */
    predicate MacVerified(req: MessageRequest)
      reads this
    {
      match Admitted(req)
      case None => false
      case Some((key, e)) => prims.verifyHmac(key, e.ciphertext, e.tag)
    }

    /** The plaintext, once the HMAC has been verified and decryption succeeds. */
    function Plaintext(req: MessageRequest): Option<string>
      reads this
    {
      if MacVerified(req) then Open(prims, Admitted(req).value.0, Admitted(req).value.1) else None
    }

    /**
     * `/session`. `entropy` stands for the 16 bytes of `os.urandom(16)`.
     * On success exactly one entry is written, under the hex id returned;
     * on failure the table is untouched. An id already present is overwritten.
     */
    method CreateSession(encryptedKey: string, entropy: Bytes) returns (reply: SessionReply)
      requires |entropy| == 16
      modifies this
      ensures UnwrapKey(prims, encryptedKey).None? ==>
        reply == KeyRejected(InvalidKey) && sessionKeys == old(sessionKeys)
      ensures UnwrapKey(prims, encryptedKey).Some? ==>
        reply == Created(Hex(entropy)) &&
        sessionKeys == old(sessionKeys)[Hex(entropy) := UnwrapKey(prims, encryptedKey).value]
      ensures reply.Created? ==> |reply.sessionId| == 32 && IsLowerHex(reply.sessionId)
      ensures old(sessionKeys).Keys <= sessionKeys.Keys
      ensures forall id :: id in old(sessionKeys) && (reply.KeyRejected? || id != reply.sessionId) ==>
        sessionKeys[id] == old(sessionKeys)[id]
    {
      var wrapped := prims.b64Decode(encryptedKey);
      if wrapped.None? {
        return KeyRejected(InvalidKey);
      }
      var aesKey := prims.rsaDecrypt(wrapped.value);
      if aesKey.None? {
        return KeyRejected(InvalidKey);
      }
      var sessionId := Hex(entropy);
      sessionKeys := sessionKeys[sessionId := aesKey.value];
      reply := Created(sessionId);
    }

    /**
     * `/message`. The checks run in order and the first that fails decides:
     * unknown session, bad base64, HMAC mismatch, decryption failure,
     * anomaly; otherwise the student is built from the plaintext. The table
     * is only read.
     */
    method ReceiveMessage(req: MessageRequest) returns (r: Response)
      ensures r == BadRequest(UnknownSession) <==> req.sessionId !in sessionKeys
      ensures r == BadRequest(InvalidBase64) <==>
        req.sessionId in sessionKeys && DecodeEnvelope(prims, req).None?
      ensures r == HmacFailed <==> Admitted(req).Some? && !MacVerified(req)
      ensures ValidHmac(r) == Some(true) ==> MacVerified(req)
      ensures r == DecryptFailed <==> MacVerified(req) && Plaintext(req).None?
      ensures r == Anomaly <==>
        Plaintext(req).Some? && IsAnomalous(prims.jsonLoads(Plaintext(req).value)) == Anomalous
      ensures r.Success? <==>
        Plaintext(req).Some? && IsAnomalous(prims.jsonLoads(Plaintext(req).value)) == Normal &&
        StudentOf(prims, Plaintext(req).value).Some?
      ensures r.Success? ==>
        r.student == StudentOf(prims, Plaintext(req).value).value && ValidGpa(r.student.gpa)
      ensures r.Success? ==> Clean(Lower(r.student.name), r.student.gpa)
      ensures r == Unhandled <==>
        Plaintext(req).Some? &&
        (IsAnomalous(prims.jsonLoads(Plaintext(req).value)) == Raises ||
         (IsAnomalous(prims.jsonLoads(Plaintext(req).value)) == Normal &&
          StudentOf(prims, Plaintext(req).value).None?))
    {
      if req.sessionId !in sessionKeys {
        return BadRequest(UnknownSession);
      }
      var aesKey := sessionKeys[req.sessionId];

      var ciphertext := prims.b64Decode(req.ciphertext);
      var nonce := prims.b64Decode(req.nonce);
      var tag := prims.b64Decode(req.hmac);
      if ciphertext.None? || nonce.None? || tag.None? {
        return BadRequest(InvalidBase64);
      }

      if !prims.verifyHmac(aesKey, ciphertext.value, tag.value) {
        return HmacFailed;
      }

      var plaintextBytes := prims.aesGcmDecrypt(aesKey, nonce.value, ciphertext.value);
      if plaintextBytes.None? {
        return DecryptFailed;
      }
      var plaintext := prims.utf8Decode(plaintextBytes.value);
      if plaintext.None? {
        return DecryptFailed;
      }

      match IsAnomalous(prims.jsonLoads(plaintext.value))
      case Anomalous =>
        return Anomaly;
      case Raises =>
        return Unhandled;
      case Normal =>
        var student := StudentOf(prims, plaintext.value);
        if student.None? {
          return Unhandled;
        }
        StudentIsClean(prims, plaintext.value);
        return Success(student.value);
    }
  }
}
