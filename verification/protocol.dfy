/** The enrolment and authentication protocol of main.go: the configuration, the
    messages, the in-memory network both roles share, the client that enrols a
    reference template and later authenticates with a probe, and the server that
    stores one record per enrolled rid and returns the decrypted distance. */
module Protocol {
  import opened Wrappers
  import opened Oracles
  import opened Hex
  import opened Encoder
  import opened Fhipe
  import opened Signatures

  /** Configuration shared by the client and the server. */
  datatype Parameters = Parameters(
    maxValueTemplate: int,
    maxValueIpfe: int,
    securityParameter: nat,
    templateLength: nat,
    ipfeVectorLength: nat)

  /** What the server keeps per enrolled client. */
  datatype DbItem = DbItem(signaturePublicKey: PublicKey, decryptionKey: DerivedKey)

  datatype EnrollmentMessage = EnrollmentMessage(
    rid: seq<Byte>,
    signaturePublicKey: PublicKey,
    decryptionKey: DerivedKey)

  datatype AuthenticationMessage = AuthenticationMessage(rid: seq<Byte>, ciphertext: Ciphertext)

  /** The gob encoding of an authentication message followed by ShakeSum256 into
      64 bytes: a deterministic function that client and server share. */
  type Digest = AuthenticationMessage -> seq<Byte>

  /** One gob value on the network. */
  datatype Packet =
    | EnrollmentPacket(enrollment: EnrollmentMessage)
    | AuthenticationPacket(authentication: AuthenticationMessage)
    | SignaturePacket(signature: SignedMessage)

  /** Why the client halts. */
  datatype ClientError = TemplateLengthMismatch(templateLength: nat, actual: nat)

  /** Why the server halts: a message that does not decode, then the ordered
      authentication checks, then a failing decryption. */
  datatype ServerError =
    | MalformedMessage
    | UnknownRid(rid: seq<Byte>)
    | InvalidSignature
    | WrongPayload
    | DecryptionFailed(reason: SchemeError)

  /** ridToString: the database key of a rid, its lowercase hexadecimal rendering. */
  function RidToString(rid: seq<Byte>): (key: string)
    ensures |key| == 2 * |rid|
    ensures forall i :: 0 <= i < |key| ==> IsHexDigit(key[i])
    ensures DecodeLowerHex(key) == Some(rid)
  {
    DecodeEncode(rid);
    EncodeToString(rid)
  }

  /** The key is twice as long as the rid, and distinct rids get distinct keys, so
      two clients never share a database slot. */
  lemma RidToStringDistinguishes(a: seq<Byte>, b: seq<Byte>)
    ensures |RidToString(a)| == 2 * |a|
    ensures RidToString(a) == RidToString(b) <==> a == b
  {
    EncodeToStringInjective(a, b);
  }

  /** The scheme a client creates for a template of the given length. */
  function ClientScheme(parameters: Parameters, templateLength: nat): Scheme
  {
    NewFHIPE(templateLength + 2, parameters.maxValueIpfe, parameters.maxValueIpfe)
  }

  /** The scheme the server creates at start-up. */
  function ServerScheme(parameters: Parameters): Scheme
  {
    NewFHIPE(parameters.ipfeVectorLength, parameters.maxValueIpfe, parameters.maxValueIpfe)
  }

  /** The two packets a client sends to authenticate: the message, then the
      signature over its digest. */
  function AuthenticationTranscript(
    rid: seq<Byte>, scheme: Scheme, masterKey: MasterKey, secretKey: SecretKey,
    probeTemplate: seq<int>, digest: Digest)
    : seq<Packet>
    requires |probeTemplate| + 2 == scheme.vectorLength
  {
    var message := AuthenticationMessageFor(rid, scheme, masterKey, probeTemplate);
    [AuthenticationPacket(message), SignaturePacket(Sign(digest(message), secretKey))]
  }

  /** The enrolment message a client sends for a reference template, given the
      randomness it draws: rid bytes, signing key seed and master key seed. */
  function EnrollmentMessageFor(
    parameters: Parameters, referenceTemplate: seq<int>, rid: seq<Byte>, keySeed: nat, masterSeed: nat)
    : EnrollmentMessage
  {
    var scheme := ClientScheme(parameters, |referenceTemplate|);
    EnrollmentMessage(
      rid,
      GenerateKey(keySeed).0,
      DeriveKey(scheme, Encoding(referenceTemplate, true), GenerateMasterKey(scheme, masterSeed)))
  }

  /** The authentication message: the rid and the encrypted probe encoding. */
  function AuthenticationMessageFor(rid: seq<Byte>, scheme: Scheme, masterKey: MasterKey, probeTemplate: seq<int>)
    : AuthenticationMessage
    requires |probeTemplate| + 2 == scheme.vectorLength
  {
    AuthenticationMessage(rid, Encrypt(scheme, Encoding(probeTemplate, false), masterKey))
  }

  /** The database after enrolling a message: its rid's slot set, any earlier
      record under that rid overwritten. */
  function Enrol(database: map<string, DbItem>, message: EnrollmentMessage): (enrolled: map<string, DbItem>)
    ensures RidToString(message.rid) in enrolled && enrolled[RidToString(message.rid)] == Record(message)
    ensures enrolled.Keys == database.Keys + {RidToString(message.rid)}
    ensures forall key :: key in database && key != RidToString(message.rid) ==> enrolled[key] == database[key]
  {
    database[RidToString(message.rid) := Record(message)]
  }

  /** The record an enrolment message leaves in the database. */
  function Record(message: EnrollmentMessage): DbItem
  {
    DbItem(message.signaturePublicKey, message.decryptionKey)
  }

  /** The server's checks on a decoded message and signature, in the source's
      order: unknown rid, signature that does not open, signature over another
      payload, then decryption with the stored key. */
  function CheckAuthentication(
    database: map<string, DbItem>, scheme: Scheme, message: AuthenticationMessage,
    signature: SignedMessage, digest: Digest)
    : (r: Result<int, ServerError>)
    ensures r.Err? && r.error.UnknownRid? ==> r.error.rid == message.rid
    ensures r != Err(MalformedMessage)
  {
    var key := RidToString(message.rid);
    if key !in database then Err(UnknownRid(message.rid))
    else
      var item := database[key];
      match Open(signature, item.signaturePublicKey)
      case None => Err(InvalidSignature)
      case Some(payload) =>
        if payload != digest(message) then Err(WrongPayload)
        else
          match Decrypt(scheme, message.ciphertext, item.decryptionKey)
          case Err(e) => Err(DecryptionFailed(e))
          case Ok(ip) => Ok(ip)
  }

  /** Enrolling one rid leaves the slot of every other rid as it was. */
  lemma EnrolKeepsOtherClients(database: map<string, DbItem>, message: EnrollmentMessage, rid: seq<Byte>)
    requires rid != message.rid
    ensures RidToString(rid) in Enrol(database, message) <==> RidToString(rid) in database
    ensures RidToString(rid) in database ==>
      Enrol(database, message)[RidToString(rid)] == database[RidToString(rid)]
  {
    RidToStringDistinguishes(rid, message.rid);
  }

  /** A message is accepted exactly when its rid is enrolled, the signature opens
      under the stored public key to the digest of the message, and the stored key
      decrypts the ciphertext; the result is then the decrypted value. */
  lemma AcceptedOnlyWhenVerified(
    database: map<string, DbItem>, scheme: Scheme, message: AuthenticationMessage,
    signature: SignedMessage, digest: Digest)
    ensures var key := RidToString(message.rid);
      var r := CheckAuthentication(database, scheme, message, signature, digest);
      (r.Ok? <==>
        key in database
        && Open(signature, database[key].signaturePublicKey) == Some(digest(message))
        && Decrypt(scheme, message.ciphertext, database[key].decryptionKey).Ok?)
      && (r.Ok? ==> Decrypt(scheme, message.ciphertext, database[key].decryptionKey) == Ok(r.value))
  {
  }

  /** An rid that was never enrolled is rejected as such, whatever it carries, and
      an enrolled rid is never reported as unknown. */
  lemma UnknownRidRejected(
    database: map<string, DbItem>, scheme: Scheme, message: AuthenticationMessage,
    signature: SignedMessage, digest: Digest)
    ensures CheckAuthentication(database, scheme, message, signature, digest) == Err(UnknownRid(message.rid))
            <==> RidToString(message.rid) !in database
  {
  }

  /** A message signed with another client's secret key is rejected as an invalid
      signature, whatever payload was signed. */
  lemma ForeignSignatureRejected(
    database: map<string, DbItem>, scheme: Scheme, message: AuthenticationMessage,
    payload: seq<Byte>, enrolledSeed: nat, signerSeed: nat, digest: Digest)
    requires RidToString(message.rid) in database
    requires database[RidToString(message.rid)].signaturePublicKey == GenerateKey(enrolledSeed).0
    requires signerSeed != enrolledSeed
    ensures CheckAuthentication(database, scheme, message, Sign(payload, GenerateKey(signerSeed).1), digest)
            == Err(InvalidSignature)
  {
    OpenSign(payload, signerSeed, enrolledSeed);
  }

  /** A genuine signature over the digest of another message is rejected as a
      signature over the wrong payload, distinct from an invalid signature. */
  lemma ReplayedSignatureRejected(
    database: map<string, DbItem>, scheme: Scheme, message: AuthenticationMessage,
    signedMessage: AuthenticationMessage, seed: nat, digest: Digest)
    requires RidToString(message.rid) in database
    requires database[RidToString(message.rid)].signaturePublicKey == GenerateKey(seed).0
    requires digest(signedMessage) != digest(message)
    ensures CheckAuthentication(database, scheme, message, Sign(digest(signedMessage), GenerateKey(seed).1), digest)
            == Err(WrongPayload)
  {
    OpenSign(digest(signedMessage), seed, seed);
  }

  /** A signature that does not open under the stored public key is rejected as
      invalid, whatever the message carries. */
  lemma UnopenableSignatureRejected(
    database: map<string, DbItem>, scheme: Scheme, message: AuthenticationMessage,
    signature: SignedMessage, digest: Digest)
    requires RidToString(message.rid) in database
    requires Open(signature, database[RidToString(message.rid)].signaturePublicKey) == None
    ensures CheckAuthentication(database, scheme, message, signature, digest) == Err(InvalidSignature)
  {
  }

  /** A signature that opens under the stored public key to anything other than
      the digest of the message is rejected as a signature over the wrong payload. */
  lemma WrongPayloadRejected(
    database: map<string, DbItem>, scheme: Scheme, message: AuthenticationMessage,
    signature: SignedMessage, payload: seq<Byte>, digest: Digest)
    requires RidToString(message.rid) in database
    requires Open(signature, database[RidToString(message.rid)].signaturePublicKey) == Some(payload)
    requires payload != digest(message)
    ensures CheckAuthentication(database, scheme, message, signature, digest) == Err(WrongPayload)
  {
  }

  /** A verified message whose ciphertext the stored key cannot decrypt is reported
      with the decryption error, the path on which the server exits. */
  lemma DecryptionFailureReported(
    database: map<string, DbItem>, scheme: Scheme, message: AuthenticationMessage,
    signature: SignedMessage, digest: Digest, e: SchemeError)
    requires RidToString(message.rid) in database
    requires Open(signature, database[RidToString(message.rid)].signaturePublicKey) == Some(digest(message))
    requires Decrypt(scheme, message.ciphertext, database[RidToString(message.rid)].decryptionKey) == Err(e)
    ensures CheckAuthentication(database, scheme, message, signature, digest) == Err(DecryptionFailed(e))
  {
  }

  /** Correctness of the protocol: when the server holds the record a client
      enrolled with reference template A, and that client sends the two packets
      of an authentication with probe template B, the server returns Σ (A[i] - B[i])². */
  lemma AuthenticatesEnrolledClient(
    database: map<string, DbItem>, parameters: Parameters, reference: seq<int>, probe: seq<int>,
    rid: seq<Byte>, keySeed: nat, masterSeed: nat, digest: Digest)
    requires parameters.ipfeVectorLength == parameters.templateLength + 2
    requires |reference| == parameters.templateLength && |probe| == parameters.templateLength
    requires RidToString(rid) in database
    requires database[RidToString(rid)] == Record(EnrollmentMessageFor(parameters, reference, rid, keySeed, masterSeed))
    ensures var scheme := ClientScheme(parameters, |reference|);
      var sent := AuthenticationTranscript(
        rid, scheme, GenerateMasterKey(scheme, masterSeed), GenerateKey(keySeed).1, probe, digest);
      CheckAuthentication(database, ServerScheme(parameters), sent[0].authentication, sent[1].signature, digest)
        == Ok(SquaredDistance(reference, probe))
  {
    var scheme := ClientScheme(parameters, |reference|);
    var mk := GenerateMasterKey(scheme, masterSeed);
    var refEnc, probeEnc := Encoding(reference, true), Encoding(probe, false);
    DecryptCorrect(scheme, ServerScheme(parameters), probeEnc, refEnc, mk);
    DotSymmetric(probeEnc, refEnc);
    EncodingInnerProduct(reference, probe);
    OpenSign(digest(AuthenticationMessageFor(rid, scheme, mk, probe)), keySeed, keySeed);
  }

  /** The same for a single enrolment into any database: enrol A, authenticate B,
      get the squared distance of A and B. */
  lemma EnrolThenAuthenticate(
    database: map<string, DbItem>, parameters: Parameters, reference: seq<int>, probe: seq<int>,
    rid: seq<Byte>, keySeed: nat, masterSeed: nat, digest: Digest)
    requires parameters.ipfeVectorLength == parameters.templateLength + 2
    requires |reference| == parameters.templateLength && |probe| == parameters.templateLength
    ensures var enrolled := Enrol(database, EnrollmentMessageFor(parameters, reference, rid, keySeed, masterSeed));
      var scheme := ClientScheme(parameters, |reference|);
      var sent := AuthenticationTranscript(
        rid, scheme, GenerateMasterKey(scheme, masterSeed), GenerateKey(keySeed).1, probe, digest);
      CheckAuthentication(enrolled, ServerScheme(parameters), sent[0].authentication, sent[1].signature, digest)
        == Ok(SquaredDistance(reference, probe))
  {
    var enrolled := Enrol(database, EnrollmentMessageFor(parameters, reference, rid, keySeed, masterSeed));
    AuthenticatesEnrolledClient(enrolled, parameters, reference, probe, rid, keySeed, masterSeed, digest);
  }

  /** The two packets an authentication consists of, in order. */
  predicate AuthenticationFramed(packets: seq<Packet>)
  {
    |packets| >= 2 && packets[0].AuthenticationPacket? && packets[1].SignaturePacket?
  }

  /** How many packets a failed authentication decode has read: the first one, and
      the second too when the first was an authentication message. */
  function PacketsReadOnMalformed(packets: seq<Packet>): (k: nat)
    ensures k <= |packets|
  {
    if |packets| == 0 then 0
    else if packets[0].AuthenticationPacket? && |packets| >= 2 then 2
    else 1
  }

  /** The `bytes.Buffer` both roles write gob values to and read them from, first
      in, first out. */
  class Network {
    var packets: seq<Packet>

    constructor ()
      ensures packets == []
    {
      packets := [];
    }

    method Send(p: Packet)
      modifies this
      ensures packets == old(packets) + [p]
    {
      packets := packets + [p];
    }

    method Receive() returns (p: Option<Packet>)
      modifies this
      ensures old(packets) == [] ==> p == None && packets == []
      ensures old(packets) != [] ==> p == Some(old(packets)[0]) && packets == old(packets)[1..]
    {
      if packets == [] {
        p := None;
      } else {
        p := Some(packets[0]);
        packets := packets[1..];
      }
    }
  }

  class Client {
    var rid: seq<Byte>
    var signatureSecretKey: Option<SecretKey>
    var scheme: Option<Scheme>
    var masterKey: Option<MasterKey>
    var parameters: Parameters

    /** The zero value of the Go struct: nothing set yet. */
    constructor ()
      ensures rid == [] && signatureSecretKey == None && scheme == None && masterKey == None
      ensures parameters == Parameters(0, 0, 0, 0, 0)
    {
      rid := [];
      signatureSecretKey := None;
      scheme := None;
      masterKey := None;
      parameters := Parameters(0, 0, 0, 0, 0);
    }

    /** Every field still holds the Go zero value. */
    predicate Zero()
      reads this
    {
      rid == [] && signatureSecretKey == None && scheme == None && masterKey == None
      && parameters == Parameters(0, 0, 0, 0, 0)
    }

    /** The key material ClientAuthentication needs is in place. */
    predicate Enrolled()
      reads this
    {
      signatureSecretKey.Some? && scheme.Some? && masterKey.Some?
    }

    /** ClientEnrol: rejects a template of the wrong length before touching the
        client or the network; otherwise stores the rid, the signing secret key,
        the scheme and the master key, and sends the enrolment message. The
        `parameters` argument is not stored in the client's own field. */
    method ClientEnrol(
      parameters: Parameters, referenceTemplate: seq<int>, network: Network,
      randomRid: seq<Byte>, keySeed: nat, masterSeed: nat)
      returns (r: Outcome<ClientError>)
      requires |randomRid| == parameters.securityParameter
      modifies this, network
      ensures parameters.templateLength != |referenceTemplate| ==>
        r == Fail(TemplateLengthMismatch(parameters.templateLength, |referenceTemplate|))
        && unchanged(this) && network.packets == old(network.packets)
      ensures parameters.templateLength == |referenceTemplate| ==>
        r == Pass
        && rid == randomRid
        && signatureSecretKey == Some(GenerateKey(keySeed).1)
        && scheme == Some(ClientScheme(parameters, |referenceTemplate|))
        && masterKey == Some(GenerateMasterKey(scheme.value, masterSeed))
        && network.packets == old(network.packets)
             + [EnrollmentPacket(EnrollmentMessageFor(parameters, referenceTemplate, randomRid, keySeed, masterSeed))]
      ensures this.parameters == old(this.parameters)
    {
      if parameters.templateLength != |referenceTemplate| {
        return Fail(TemplateLengthMismatch(parameters.templateLength, |referenceTemplate|));
      }
      var encodedTemplate := EncodeEuclidian(referenceTemplate, true);
      rid := randomRid;
      var keyPair := GenerateKey(keySeed);
      signatureSecretKey := Some(keyPair.1);
      var s := NewFHIPE(|encodedTemplate|, parameters.maxValueIpfe, parameters.maxValueIpfe);
      scheme := Some(s);
      var mk := GenerateMasterKey(s, masterSeed);
      masterKey := Some(mk);
      var decryptionKey := DeriveKey(s, encodedTemplate, mk);
      network.Send(EnrollmentPacket(EnrollmentMessage(rid, keyPair.0, decryptionKey)));
      return Pass;
    }

    /** ClientAuthentication: encrypts the probe encoding under the client's master
        key, signs the digest of the message, and sends the message followed by the
        signed digest. The probe's length is not checked by the client; it must fit
        the scheme created at enrolment. */
    method ClientAuthentication(probeTemplate: seq<int>, network: Network, digest: Digest)
      requires Enrolled()
      requires |probeTemplate| + 2 == scheme.value.vectorLength
      modifies network
      ensures network.packets == old(network.packets)
        + AuthenticationTranscript(rid, scheme.value, masterKey.value, signatureSecretKey.value, probeTemplate, digest)
    {
      var encodedTemplate := EncodeEuclidian(probeTemplate, false);
      var ciphertext := Encrypt(scheme.value, encodedTemplate, masterKey.value);
      var message := AuthenticationMessage(rid, ciphertext);
      var hashedCiphertext := digest(message);
      var signature := Sign(hashedCiphertext, signatureSecretKey.value);
      network.Send(AuthenticationPacket(message));
      network.Send(SignaturePacket(signature));
    }
  }

  class Server {
    var database: map<string, DbItem>
    var scheme: Scheme
    var parameters: Parameters

    /** NewServer: an empty database and one scheme of the negotiated dimension. */
    constructor (parameters: Parameters)
      ensures database == map[]
      ensures scheme == ServerScheme(parameters)
      ensures this.parameters == parameters
    {
      database := map[];
      scheme := NewFHIPE(parameters.ipfeVectorLength, parameters.maxValueIpfe, parameters.maxValueIpfe);
      this.parameters := parameters;
    }

    /** ServerEnrol: reads one enrolment message and stores its public key and
        decryption key under the rid's hexadecimal key, overwriting any record
        already there; anything else on the network is a malformed message. */
    method ServerEnrol(network: Network) returns (r: Outcome<ServerError>)
      modifies this`database, network
      ensures network.packets == if old(network.packets) == [] then [] else old(network.packets)[1..]
      ensures old(network.packets) != [] && old(network.packets)[0].EnrollmentPacket? ==>
        r == Pass && database == Enrol(old(database), old(network.packets)[0].enrollment)
      ensures !(old(network.packets) != [] && old(network.packets)[0].EnrollmentPacket?) ==>
        r == Fail(MalformedMessage) && database == old(database)
    {
      var decoded := network.Receive();
      if !(decoded.Some? && decoded.value.EnrollmentPacket?) {
        return Fail(MalformedMessage);
      }
      var decodedMessage := decoded.value.enrollment;
      var mapItem := DbItem(decodedMessage.signaturePublicKey, decodedMessage.decryptionKey);
      database := database[RidToString(decodedMessage.rid) := mapItem];
      return Pass;
    }

    /** ServerAuthentication: reads a message and its signed digest, then runs the
        checks of CheckAuthentication. The server's state is never modified. */
    method ServerAuthentication(network: Network, digest: Digest) returns (r: Result<int, ServerError>)
      modifies network
      ensures unchanged(this)
      ensures AuthenticationFramed(old(network.packets)) ==>
        network.packets == old(network.packets)[2..]
        && r == CheckAuthentication(
                  database, scheme, old(network.packets)[0].authentication,
                  old(network.packets)[1].signature, digest)
      ensures !AuthenticationFramed(old(network.packets)) ==>
        network.packets == old(network.packets)[PacketsReadOnMalformed(old(network.packets))..]
        && r == Err(MalformedMessage)
    {
      var first := network.Receive();
      if !(first.Some? && first.value.AuthenticationPacket?) {
        return Err(MalformedMessage);
      }
      var decodedMessage := first.value.authentication;
      var second := network.Receive();
      if !(second.Some? && second.value.SignaturePacket?) {
        return Err(MalformedMessage);
      }
      var signature := second.value.signature;

      var key := RidToString(decodedMessage.rid);
      if key !in database {
        return Err(UnknownRid(decodedMessage.rid));
      }
      var item := database[key];

      var hashedCiphertext := digest(decodedMessage);
      var message := Open(signature, item.signaturePublicKey);
      if message.None? {
        return Err(InvalidSignature);
      }
      if message.value != hashedCiphertext {
        return Err(WrongPayload);
      }

      var ip := Decrypt(scheme, decodedMessage.ciphertext, item.decryptionKey);
      if ip.Err? {
        return Err(DecryptionFailed(ip.error));
      }
      return Ok(ip.value);
    }
  }
}
