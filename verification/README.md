# ipfe-bio-auth: a Dafny model of the squared-Euclidean-distance protocol

This project models the biometric authentication protocol of `main.go` and the
runtime driver and oracles of `main_test.go`. Two roles take part:

- A **client** enrols a reference template A. It draws a random rid, a NaCl
  signature key pair and a function-hiding inner-product encryption (FHIPE)
  master key. It sends the server the rid, the signature public key and a
  functional decryption key bound to the encoding of A.
- Later the client **authenticates** with a probe template B. It encrypts the
  encoding of B under its master key and sends the message. It then signs the
  64-byte digest of the gob-encoded message and sends the signature.
- The **server** keeps one record per rid, keyed by the rid's hexadecimal
  rendering. On authentication it checks, in order:
  1. the rid is enrolled;
  2. the signature opens under the stored public key;
  3. the opened payload equals the digest of the message.

  It then decrypts, which yields the inner product of the two encodings.

The encoding (`encodeEuclidian`) is the heart of the protocol. Shift every
entry by one, giving a′ and b′. Then:

- the reference becomes `a′ ‖ 1 ‖ ‖a′‖²`;
- the probe becomes `-2·b′ ‖ ‖b′‖² ‖ 1`.

Their inner product is ‖a′‖² − 2 a′·b′ + ‖b′‖² = Σ (A[i] − B[i])². So decryption
gives the server the squared distance. That it learns nothing else rests on the
function hiding of the FHIPE scheme, which is not modelled: the ideal ciphertext
here carries the probe encoding in the clear.

The project has one module per concern:

| file | module | contents |
|---|---|---|
| `wrappers.dfy` | `Wrappers` | `Option`, `Result`, `Outcome` |
| `oracles.dfy` | `Oracles` | `Dot` and `SquaredDistance` as specifications; the loops `innerProduct` and `euclidianDistance`; algebra about them |
| `hex.dfy` | `Hex` | `hex.EncodeToString` and its decoder, used for database keys |
| `encoder.dfy` | `Encoder` | `encodeEuclidian` as a loop over an array, its specification `Encoding`, and the distance identity |
| `fhipe.dfy` | `Fhipe` | the FHIPE scheme as an ideal functionality |
| `signatures.dfy` | `Signatures` | NaCl `sign` as an ideal functionality |
| `protocol.dfy` | `Protocol` | messages, the shared network, the `Client` and `Server` classes, the server's decision chain and its lemmas |
| `runtime.dfy` | `Runtime` | `TestRuntime`: n clients enrol, the server stores them, everyone authenticates, and every result equals the oracle |

How the Go program's side effects appear in the model:

- **Network.** The shared `bytes.Buffer` is the class `Network`, a FIFO of gob
  values (`Packet`).
- **Fatal errors.** Where `log.Fatal`, `panic` or `exitOnError` would end the
  process, the model returns an error value: `ClientError` or `ServerError`.
- **Randomness.** The random inputs become method parameters: the rid bytes,
  the signature key seed and the master key seed.
- **Digest.** The gob encoding followed by `ShakeSum256` is a function
  parameter `digest`, which client and server share.

Behaviour worth noting:

- Re-enrolling an rid overwrites its record (`main.go:169`).
- `encodeEuclidian` checks no bounds.
- `ClientEnrol` never assigns `client.parameters` (`main.go:78-118`), so
  `Client.ClientEnrol` leaves that field as it was.

Two edge cases surface in the bound lemmas:

- **Empty template.** Its norm entry is 0. So `ReferenceEncodingPositive` needs
  a non-empty template.
- **`maxValueTemplate = 0` with `templateLength = 1`.** The probe encoding
  holds −2, but `maxValueIpfe` is 1 (`ProbeEncodingExceedsUnitBound`). So
  `EncodingWithinIpfeBound` needs `2 ≤ (maxValueTemplate + 1)·templateLength`.
  `maxValueTemplate = 0` with two or more entries is within the bound.

## Model

| member | source | states |
|---|---|---|
| Oracles.InnerProduct | main_test.go:109-118 | None when the lengths differ (the Fatalf path); otherwise Some of Σ x[i]·y[i] |
| Oracles.EuclidianDistance | main_test.go:120-129 | None when the lengths differ; otherwise Some of Σ (x[i] − y[i])² |
| Oracles.SquaredDistance | main_test.go:124-128 | the accumulated squared distance is never negative |
| Oracles.DotSymmetric | main_test.go:113-117 | the inner product does not depend on argument order |
| Oracles.SquaredDistanceIsDotOfDifference | main_test.go:109-129 | euclidianDistance(x, y) equals innerProduct of x − y with itself |
| Oracles.SquaredDistanceExpand | main.go:227-243 | ‖x − y‖² = x·x − 2 x·y + y·y, the identity the encoding relies on |
| Oracles.SquaredDistanceSymmetric | main_test.go:120-129 | the distance of x and y equals that of y and x |
| Oracles.SquaredDistanceZeroIff | main_test.go:120-129 | the distance is 0 exactly when the two templates are equal |
| Hex.EncodeToString | main.go:73-75 | the rendering is twice as long as the bytes and uses only lowercase hex digits |
| Hex.DecodeEncode | main.go:73-75 | decoding the rendering gives back the bytes |
| Hex.EncodeToStringInjective | main.go:73-75 | two byte strings with the same rendering are equal |
| Protocol.RidToString | main.go:73-75 | the database key of a rid is its hexadecimal rendering: twice as long as the rid, lowercase hex digits only, and it decodes back to the rid |
| Protocol.RidToStringDistinguishes | main.go:73-75 | a database key is twice as long as its rid; keys are equal exactly when rids are equal |
| Encoder.Encoding | main.go:222-224 | an encoding has two more entries than its template |
| Encoder.EncodeEuclidian | main.go:222-246 | the loop over the array yields exactly Encoding(template, enrol) |
| Encoder.ReferenceEncodingEntries | main.go:230-240 | a reference encoding holds template[i] + 1 at i < n, then 1, then the squared norm of the shifted template |
| Encoder.ProbeEncodingEntries | main.go:227-243 | a probe encoding holds −2·(template[i] + 1) at i < n, then the squared norm, then 1 |
| Encoder.SquaredDistanceShifted | main.go:231-232 | shifting both templates by one keeps their squared distance |
| Encoder.EncodingInnerProduct | main.go:222-246 | the inner product of the reference encoding of A and the probe encoding of B is Σ (A[i] − B[i])² |
| Encoder.ReferenceEncodingPositive | main.go:231-232 | for a non-empty, non-negative template, every reference encoding entry is at least 1 |
| Encoder.SquaredNormBound | main.go:234 | with entries in [0, m], the squared norm of the shifted template is at most (m+1)²·n |
| Fhipe.DecryptCorrect | main.go:214 | decrypting a ciphertext of x under a key derived for y from the same master key gives x·y |
| Fhipe.ForeignKeyRejected | main.go:214-215 | a key derived from another master key makes Decrypt fail |
| Signatures.OpenSign | main.go:202-205 | a signature opens to its message exactly under the signer's own public key |
| Protocol.Network.constructor | main_test.go:37 | the network starts empty |
| Protocol.Network.Send | main.go:148-152 | a packet is appended at the end of the buffer |
| Protocol.Network.Receive | main.go:179-186 | the first packet is removed and returned; an empty buffer yields None and stays empty |
| Protocol.Client.constructor | main_test.go:28 | a fresh client holds no rid, no keys and no scheme |
| Protocol.Client.ClientEnrol | main.go:78-118 | on a length mismatch: fail, send nothing, change nothing. Otherwise store the rid, secret key, scheme and master key, and send exactly one enrolment message carrying the rid, the public key and a key derived for the reference encoding |
| Protocol.Client.ClientAuthentication | main.go:120-153 | appends exactly two packets: the authentication message with the probe encoding encrypted under the client's master key, then the signature over its digest |
| Protocol.Server.constructor | main.go:155-160 | an empty database and a scheme of dimension ipfeVectorLength |
| Protocol.Server.ServerEnrol | main.go:162-170 | consumes one packet; stores the decoded record under the rid's key, or fails on a packet that is not an enrolment and leaves the database unchanged |
| Protocol.Server.ServerAuthentication | main.go:177-220 | consumes the message and the signature, leaves the server unchanged, and returns the outcome of the ordered checks: unknown rid, invalid signature, wrong payload, decryption |
| Protocol.Enrol | main.go:168-169 | after enrolment the rid's key holds the message's public key and decryption key; the key set gains exactly that key; every other record stays as it was |
| Protocol.CheckAuthentication | main.go:188-219 | the decision chain never reports a malformed message, and an unknown-rid error names the rid of the message; each of its five outcomes is stated by a lemma: AcceptedOnlyWhenVerified, UnknownRidRejected, UnopenableSignatureRejected, WrongPayloadRejected and DecryptionFailureReported |
| Protocol.EnrolKeepsOtherClients | main.go:168-169 | enrolling one rid leaves the presence and record of every other rid unchanged |
| Protocol.AcceptedOnlyWhenVerified | main.go:188-219 | a result is returned exactly when the rid is enrolled, the signature opens to the digest of the message, and decryption succeeds; the result is the decrypted value |
| Protocol.UnknownRidRejected | main.go:188-192 | the unknown-rid error is returned exactly when the rid has no record: an rid that is not enrolled is rejected as unknown, and an enrolled one never is |
| Protocol.ForeignSignatureRejected | main.go:202-205 | a signature made with another client's secret key is rejected as invalid |
| Protocol.ReplayedSignatureRejected | main.go:206-208 | a genuine signature over another message's digest is rejected as a wrong payload |
| Protocol.UnopenableSignatureRejected | main.go:203-205 | for an enrolled rid, a signature that does not open under the stored public key is rejected as invalid |
| Protocol.WrongPayloadRejected | main.go:203-208 | a signature that opens under the stored key to any payload other than the message's digest is rejected as a wrong payload |
| Protocol.DecryptionFailureReported | main.go:203-215 | a verified message whose ciphertext the stored key cannot decrypt is answered with that decryption error |
| Protocol.AuthenticatesEnrolledClient | main.go:177-219 | a server holding a client's enrolment record answers that client's authentication with Σ (A[i] − B[i])² |
| Protocol.EnrolThenAuthenticate | main.go:162-219 | enrolling A into any database, then authenticating with B, returns the squared distance of A and B |
| Runtime.RuntimeParameters | main_test.go:24-26 | the derived configuration: 16-byte rids, encoded vectors two entries longer than templates, and for a non-negative maxValueTemplate a maxValueIpfe at least the template length |
| Runtime.InRange | main.go:248-254 | the range `randomVector(maxValueTemplate + 1, …)` draws from; a non-empty template can only lie in it when maxValueTemplate ≥ 0 |
| Runtime.RuntimeParametersFitEncodings | main_test.go:24-26 | the encoded length equals ipfeVectorLength; the squared norm of an in-range shifted template lies in [0, maxValueIpfe] |
| Runtime.EncodingWithinIpfeBound | main_test.go:24-26 | for a non-empty template length with 2 ≤ (maxValueTemplate+1)·templateLength and in-range templates, every entry of both encodings lies within ±maxValueIpfe |
| Runtime.ProbeEncodingExceedsUnitBound | main_test.go:24 | with maxValueTemplate = 0 and one entry, maxValueIpfe is 1 while the probe encoding holds −2, so the bound lemma's condition is needed |
| Runtime.EncodingReachesIpfeBound | main_test.go:24 | the bound is reached: for a template whose every entry is maxValueTemplate, the squared-norm entry of both encodings equals maxValueIpfe |
| Runtime.DistanceWithinIpfeBound | main_test.go:24 | the squared distance of two in-range templates is at most maxValueIpfe |
| Runtime.NewClients | main_test.go:28 | n fresh, distinct clients, each holding the Go zero value in every field (no rid, keys or scheme, zero `parameters`) |
| Runtime.EnrolClients | main_test.go:42-44 | every client is enrolled with its own rid and keys and keeps its `parameters` field; the network gains exactly their enrolment messages, in order |
| Runtime.ServerEnrolAll | main_test.go:50-52 | n enrolment messages consumed; the new database is the old one with those n messages enrolled in order, duplicates overwriting earlier records |
| Runtime.EnrolAllLastWins | main_test.go:50-52 | after a run of enrolments, an rid's record is the one carried by its last enrolment |
| Runtime.EnrolAllKeys | main_test.go:50-52 | after a run of enrolments, the database's key set is the old key set together with the keys of the enrolled rids |
| Runtime.EnrolledKeysMembers | main_test.go:50-52 | an rid's key is among the enrolled keys exactly when some message of the run carries that rid |
| Runtime.DistinctEnrolmentsRecorded | main_test.go:50-52 | with pairwise distinct rids, every message's record is in the database after the run |
| Runtime.EnrolmentRecords | main_test.go:42-52 | with distinct rids, the server's database built from the clients' enrolment packets maps every rid to that client's record |
| Runtime.FramedIndexed | main_test.go:57-59 | the network holds n authentications in sequence exactly when it has at least 2n packets, each even one an authentication message and each odd one a signature |
| Runtime.AuthenticateClients | main_test.go:57-59 | clients unchanged; the network gains each client's two-packet transcript, in order |
| Runtime.AnswerAt | main.go:177-219 | the j-th of the folded answers is CheckAuthentication of the j-th message and the j-th signature on the network |
| Runtime.AnswersAt | main_test.go:64-67 | every one of the n folded answers is CheckAuthentication of its own message and signature, read at packets 2j and 2j+1 |
| Runtime.AnswerNext | main_test.go:65-66 | one ServerAuthentication call consumes exactly the front message and signature, and its answer heads the ordered answers to the remaining authentications |
| Runtime.ServerAuthenticateAll | main_test.go:64-67 | n answers, equal to the answers of the first n message-signature pairs on the network checked in order against the unchanged database; the network loses exactly its first 2n packets |
| Runtime.ServerAnswers | main_test.go:70-77 | when the database holds every client's record, the answer to each client's transcript is its squared distance |
| Runtime.EnrolmentPhase | main_test.go:28-53 | after client and server enrolment, the network is empty, the server holds every client's record, its database is exactly the clients' enrolments applied in order to an empty one, the server stores the run's parameters, and every client's `parameters` field is still the zero value |
| Runtime.AuthenticationPhase | main_test.go:55-67 | after every enrolled client authenticates and the server answers in order, each answer is that client's squared distance and the network is empty |
| Runtime.TestRuntime | main_test.go:14-77 | for distinct 16-byte rids, every authentication result equals euclidianDistance(reference, probe), so the Fatalf at line 75 is unreachable |

## Left out

- The gofe FHIPE internals are not modelled: pairings, group arithmetic and the
  baby-step giant-step discrete-log search. `Fhipe` is an ideal functionality.
  A ciphertext and a derived key carry their vectors and master seed.
  Decryption yields the inner product when the seeds agree and an error when
  they differ.
- Fhipe.Decrypt does not enforce the library's bounds `boundX` and `boundY`,
  nor the failure of the discrete-log search beyond them. Every encoding entry
  lies within ±maxValueIpfe when templateLength ≥ 1 and
  2 ≤ (maxValueTemplate+1)·templateLength (`Runtime.EncodingWithinIpfeBound`),
  and every distance does (`Runtime.DistanceWithinIpfeBound`). The bound itself
  is reached (`Runtime.EncodingReachesIpfeBound`). Whether the library accepts a value
  equal to its bound is not modelled: gofe is not part of this model. If its
  check is strict, a template whose entries all equal maxValueTemplate would
  make `DeriveKey` fail and `ClientEnrol` halt at `main.go:107-108`.
- Errors of `NewFHIPE`, `GenerateMasterKey`, `DeriveKey` and `Encrypt` are not
  modelled: the scheme's own checks and randomness failures. In the model,
  `DeriveKey` and `Encrypt` require the scheme's dimension instead.
- Signatures.Open models NaCl `sign` ideally. A signature opens exactly under
  the signer's key, so unforgeability is assumed, not proved.
- The gob wire format and `sha3.ShakeSum256` are not modelled. Packets are
  typed values, and the digest is a caller-supplied function. A decode failure
  is a packet of the wrong kind or an empty buffer.
- `crypto/rand` is not modelled. Random bytes and key seeds are inputs, and a
  failing read is not modelled.
- `randomVector` (`main.go:248`) is not modelled as code. Templates are inputs,
  and `Runtime.InRange` states the range it produces.
- Runtime.TestRuntime requires pairwise distinct rids. The source draws them at
  random, and a collision, which has negligible probability, would overwrite a
  record.
- The timing globals (`ipfeTiming`, `start` and the accumulated durations),
  `os.Args` parsing, printing and the append to `data/runtime.txt` are I/O and
  are not modelled.
- `main` is empty and `data/plot.py` is plotting only; neither is modelled.
- Runtime.RuntimeParameters computes `(maxValueTemplate+1)²·templateLength`
  with unbounded integers. The source computes it as a Go `int` product
  (`main_test.go:24`), which wraps around for large arguments; the wrap-around
  is not modelled.
- Oracles.InnerProduct uses unbounded integers and does not model the int64
  wrap-around of the source's accumulator.
- Oracles.EuclidianDistance likewise does not model int64 wrap-around.
- Encoder.EncodeEuclidian does not model the int64 overflow of
  `template[i] + 1` at the largest int64. The rest of the source's arithmetic is
  in `big.Int`, and the model's unbounded integers match it.
- Protocol.CheckAuthentication: its own contract says only that it never
  reports a malformed message and that an unknown-rid error names the message's
  rid. Its five outcomes are stated by lemmas, which keeps the callers' proofs
  small: acceptance by `Protocol.AcceptedOnlyWhenVerified`, the unknown rid by
  `Protocol.UnknownRidRejected`, the invalid signature by
  `Protocol.UnopenableSignatureRejected`, the wrong payload by
  `Protocol.WrongPayloadRejected` and the decryption error by
  `Protocol.DecryptionFailureReported`.
- Protocol.Client.ClientAuthentication requires the probe length to match the
  scheme. The source does not check it: gofe's `Encrypt` rejects a mismatch,
  and the process then exits. It also requires `Enrolled()`: an unenrolled Go
  client has a nil `scheme`, and the call panics at `main.go:129`.
- `log.Fatal`, `panic` and `exitOnError` end the process in the source. The
  model returns an error value instead, and states the network as it is after
  the failing read.
