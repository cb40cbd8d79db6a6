# Secure student-record messaging: session table, message pipeline and anomaly classifier

The server side of a small hybrid-encryption protocol. A client wraps a
fresh AES-256 key with the server's RSA public key and posts it to
`/session`. The server unwraps it and stores it in an in-memory table under
a random 32-digit hex session id. The client then posts an AES-GCM
encrypted JSON student record to `/message`, with an HMAC-SHA256 tag over
the ciphertext. The server validates it in a fixed order. It replies with
an HTTP 400, or with a structured `{validHMAC, message, student}` reply.

The model covers:

- `Server.SessionServer`: the session table (`sessionKeys`, a map from id
  to key bytes) and the two endpoints that use it. `CreateSession` writes
  exactly one entry, or nothing. `ReceiveMessage` only reads the table. It
  is characterised outcome by outcome, in the source's order: unknown
  session, bad base64, HMAC mismatch, decryption or UTF-8 failure, anomaly,
  student, or an exception the endpoint does not catch (`Unhandled`).
- `HexCodec`: `bytes.hex()`, which turns the 16 random bytes into the
  session id, with its inverse and a round-trip proof.
- `AnomalyDetector.IsAnomalous`: the classifier. It takes the parse result
  of the plaintext and applies the SQL-term rule, the closed GPA interval
  and the hack/attack rule, with the defaults `""` and `0`. Its verdict is
  `Anomalous`, `Normal` or `Raises`. `Raises` stands for the errors Python
  throws on a non-object document, a non-string name or a non-numeric gpa.
- `StudentModel`: the `Student` record and the validation done by
  `Student(**data)`, including the declared gpa bound.
- `Protocol`: what an honest client gets (`HonestExchange`), a forged tag
  (`TamperedTag`) and a foreign session id (`ForeignSessionId`). These are
  stated against the round-trip facts `Agree` requires of the crypto and
  codec functions, on the inputs where the libraries accept them: RSA-OAEP
  keys of at most 190 bytes, AES-GCM with a 32-byte key and a 12-byte nonce.

The crypto and codec calls are function-valued fields of `Primitives` and
`ClientPrimitives`. These are base64, RSA-OAEP, HMAC-SHA256, AES-GCM,
UTF-8 and `json.loads`. Each server-side function returns `None` where the
library raises. The client-side functions are total and are only relied on
where the library does not raise. The random bytes of `os.urandom(16)` are a
parameter of `CreateSession`.

Behaviours of the code worth stating plainly:

- A document that passes the classifier but fails `Student` validation
  raises an uncaught exception. Examples are a missing `name`, a missing
  `gpa` or a non-integer `id`. The reply is `Unhandled` (an HTTP 500), not
  a distinct validation error.
- A gpa of 5.0 is caught by the classifier first, so it gives the anomaly
  reply (`GpaFiveIsAnomalous`).
- The anomaly message is the source's literal text, which contains a
  mis-encoded dash: `Anomaly detected â€” message flagged.`
- The session table has no locking.

## Model

| member | source | states |
|---|---|---|
| `Text.Lower` | server/anomaly_detector.py:15 | `.lower()` keeps the length, leaves no ASCII capital, and changes each character only to the same letter in the other case |
| `Text.LowerIsFolded` | server/anomaly_detector.py:15 | lowering twice changes nothing |
| `Text.LowerIdentifiesCase` | server/anomaly_detector.py:15 | two names lower to the same string exactly when, position by position, they hold the same character or a capital and its small letter |
| `Text.ShiftOccurs` | server/anomaly_detector.py:19 | when the first window of the name is not the term, the term occurs in the name exactly when it occurs in the name without its first character |
| `Text.Contains` | server/anomaly_detector.py:28 | the substring test `needle in hay` is true exactly when some window of `hay` equals `needle` |
| `Text.ContainsAny` | server/anomaly_detector.py:18-19 | `any(term in name for term in terms)` is true exactly when one of the terms occurs in the name |
| `HexCodec.Hex` | server/server.py:58 | `bytes.hex()` gives two characters per byte, all lower-case hex digits |
| `HexCodec.DigitValue` | server/server.py:58 | every lower-case hex digit stands for a nibble below 16 whose digit is that character |
| `HexCodec.UnhexHex` | server/server.py:58 | decoding the hex rendering gives back exactly the original bytes |
| `HexCodec.HexInjective` | server/server.py:58 | distinct random byte strings give distinct session ids |
| `AnomalyDetector.IsAnomalous` | server/anomaly_detector.py:3-31 | text that is not JSON is anomalous; the classifier raises only on a parsed document that is not an object or whose name or gpa has the wrong type; Normal is only given to an object with a numeric gpa in [0.0, 4.0] |
| `AnomalyDetector.NormalIff` | server/anomaly_detector.py:9-31 | the verdict is Normal exactly when the text parsed to an object with a string name (default "") and a numeric gpa (default 0), no SQL term, "hack" or "attack" occurs in the lowered name, and the gpa is in [0.0, 4.0] |
| `AnomalyDetector.SqlTermIsAnomalous` | server/anomaly_detector.py:15-20 | a lowered name containing one of the four SQL terms is anomalous, whatever the gpa holds (rule 1 runs before the gpa is compared) |
| `AnomalyDetector.SuspiciousWordIsAnomalous` | server/anomaly_detector.py:28-29 | a lowered name containing "hack" or "attack" is anomalous once the gpa is a number |
| `AnomalyDetector.GpaRule` | server/anomaly_detector.py:23-25 | with a string name (present or defaulted to "") holding no SQL term, any gpa outside [0.0, 4.0] is anomalous, and the endpoints 0.0 and 4.0 are Normal unless rule 3 fires |
| `AnomalyDetector.DefaultsAreNormal` | server/anomaly_detector.py:15-29 | an object without name and gpa takes the defaults "" and 0, and no rule fires |
| `AnomalyDetector.OnlyNameAndGpaMatter` | server/anomaly_detector.py:15-23 | two objects that agree on name and gpa, present or defaulted, get the same verdict |
| `AnomalyDetector.CaseInsensitive` | server/anomaly_detector.py:15 | names that differ only in ASCII case get the same verdict |
| `AnomalyDetector.DropTableIsAnomalous` | server/anomaly_detector.py:15-20 | the record named "DROP TABLE students" is flagged |
| `AnomalyDetector.GpaFiveIsAnomalous` | server/anomaly_detector.py:23-25 | a record with gpa 5.0 is flagged |
| `StudentModel.FromMembers` | server/student.py:3-6 | a Student is built only from an object with an integral id, a string name and a numeric gpa in [0.0, 4.0], and it carries exactly those values |
| `StudentModel.FromMembersAccepts` | server/student.py:3-6 | every object with an integral id, a string name and a gpa in [0.0, 4.0] gives the Student with those values; other members are ignored |
| `Server.StudentOf` | server/server.py:102 | `Student(**json.loads(text))` succeeds only for text that parsed to an object; the student carries that object's name and a gpa in [0.0, 4.0] |
| `Server.Message` | server/server.py:84-107 | every reply that carries `validHMAC` carries a message, and an HTTP error carries neither |
| `Server.StudentIsClean` | server/server.py:94-102 | a Student built after a Normal verdict comes from a JSON object, its lowered name holds no SQL term, "hack" or "attack", and its gpa is in [0.0, 4.0] |
| `Server.SessionServer.constructor` | server/server.py:21 | the session table starts empty |
| `Server.SessionServer.CreateSession` | server/server.py:49-61 | if base64 decoding or RSA unwrapping fails, the reply is 400 "Invalid encrypted key" and the table is unchanged; otherwise the table gains exactly the pair (hex of the random bytes, unwrapped key), every other entry is kept, and the returned id is 32 lower-case hex digits |
| `Server.SessionServer.ReceiveMessage` | server/server.py:67-109 | the table is not modified; unknown id ⇔ 400 "Unknown session ID"; known id with any undecodable field ⇔ 400 "Invalid Base64 payload"; decoded but HMAC rejected ⇔ validHMAC false; validHMAC true ⇒ HMAC verified over the decoded ciphertext under that session's key; HMAC verified but GCM or UTF-8 fails ⇔ decryption failed; plaintext flagged ⇔ anomaly; success ⇔ Normal verdict and a valid Student, which is the one built from the plaintext, has gpa in [0.0, 4.0] and a clean name; otherwise an unhandled exception |
| `Protocol.UnwrapKeyRoundTrip` | server/server.py:51-55 | base64 decoding and RSA unwrapping (`UnwrapKey`) give back the key the client wrapped and encoded, for keys of at most 190 bytes |
| `Protocol.SealOpens` | server/server.py:74-89 | the request the client seals (`Seal`) decodes (`DecodeEnvelope`) to its ciphertext, nonce and tag, the tag verifies under the key, and decryption (`Open`) gives back the text |
| `Protocol.HonestExchange` | client/client.py:69-96 | an honest client with a 32-byte key gets a 32-digit id; its HMAC always verifies and decryption never fails; a flagged record gives the anomaly reply, a clean valid record comes back as the Student, and the reply is an unhandled exception exactly when the classifier raises or `Student` validation fails |
| `Protocol.TamperedTag` | server/server.py:81-84 | after a session is opened with a 32-byte key, a tag other than the HMAC of the ciphertext under that key is answered with validHMAC false |
| `Protocol.ForeignSessionId` | server/server.py:69-70 | a request under any id other than the one issued is refused as an unknown session |

## Left out

- `/publicKey` (server/server.py:41-43) returns the base64 of the DER public key. This is library work with no state or decision.
- RSA-OAEP, AES-256-GCM and HMAC-SHA256 (server/crypto.py and client/crypto.py) are uninterpreted functions. The scenarios in `Protocol` rely only on the facts `Protocol.Agree` states. The client's exception on RSA input over 190 bytes is not modelled: its function is total and unconstrained there. Key generation at module load is randomness plus library work.
- `base64.b64decode`, `b64encode`, UTF-8 and `json.loads`/`json.dumps` are library calls. They are treated as abstract partial functions. The parsed document is an abstract JSON value: duplicate keys, NaN and Infinity literals are not modelled.
- The text of the exception that follows "Decryption failed: " is not modelled.
- `str.lower` is modelled for ASCII letters only. Other Unicode case mappings are not covered.
- gpa is a `real`. Floating-point rounding and NaN (which fails both comparisons and is flagged) are not modelled.
- `StudentModel.FromMembers` does not model pydantic's lax coercions. Numeric strings, booleans and integral floats such as 1.0 given as text are all treated as validation failures. `id` is accepted as a JSON number with no fractional part.
- FastAPI's request-model validation (a missing request field gives HTTP 422) and HTTP status plumbing are not modelled. `BadRequest` is HTTP 400, and `Unhandled` is the HTTP 500 an uncaught exception produces.
- `os.urandom` is a parameter. Session-id uniqueness is only probabilistic. A colliding id overwrites the stored key, and `CreateSession` states exactly that.
- The client's HTTP calls, console output and its duplicated GET (client/client.py:23-30) are I/O. `Protocol.HonestExchange` models only the values the client computes and sends.
- Concurrency is not modelled. The table is an unsynchronised process-wide dict, and each method runs to completion.
