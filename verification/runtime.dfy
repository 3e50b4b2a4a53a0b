/** TestRuntime of main_test.go: parameters derived from the template length and
    the largest template value, a number of clients that all enrol, a server that
    ingests all enrolments, then every client authenticates and the server answers
    in the same order; each answer must be the squared distance of that client's
    reference and probe templates. */
module Runtime {
  import opened Wrappers
  import opened Oracles
  import opened Hex
  import opened Encoder
  import opened Fhipe
  import opened Signatures
  import opened Protocol

  /** The parameters the test derives: maxValueIpfe = (maxValueTemplate+1)²·templateLength,
      identifiers of 16 bytes, encoded vectors two entries longer than templates. */
  function RuntimeParameters(templateLength: nat, maxValueTemplate: int): (p: Parameters)
    ensures p.templateLength == templateLength && p.ipfeVectorLength == p.templateLength + 2
    ensures p.securityParameter == 16
    ensures maxValueTemplate >= 0 ==> p.maxValueIpfe >= templateLength
  {
    Parameters(
      maxValueTemplate,
      (maxValueTemplate + 1) * (maxValueTemplate + 1) * templateLength,
      16,
      templateLength,
      templateLength + 2)
  }

  /** Every component lies in [0, m], as `randomVector(m + 1, …)` draws them; a
      non-empty template can only be drawn when the bound m + 1 is positive. */
  predicate InRange(template: seq<int>, m: int)
    ensures InRange(template, m) && |template| > 0 ==> 0 <= template[0] && m >= 0
  {
    forall i :: 0 <= i < |template| ==> 0 <= template[i] <= m
  }

  /** Under the derived parameters an encoding has the scheme's dimension, and its
      squared-norm entry lies in [0, maxValueIpfe]. */
  lemma RuntimeParametersFitEncodings(templateLength: nat, m: int, template: seq<int>, enrol: bool)
    requires |template| == templateLength && InRange(template, m)
    ensures var p := RuntimeParameters(templateLength, m);
      |Encoding(template, enrol)| == p.ipfeVectorLength
      && 0 <= SquaredNorm(Shifted(template)) <= p.maxValueIpfe
  {
    SquaredNormAtLeastLength(template);
    SquaredNormBound(template, m);
  }

  /** Whenever 2 <= (m+1)·templateLength, every entry of either encoding of an
      in-range template lies in [-maxValueIpfe, maxValueIpfe]. */
  lemma EncodingWithinIpfeBound(templateLength: nat, m: int, template: seq<int>, enrol: bool)
    requires m >= 0 && templateLength >= 1 && 2 <= (m + 1) * templateLength
    requires |template| == templateLength && InRange(template, m)
    ensures var p := RuntimeParameters(templateLength, m);
      var v := Encoding(template, enrol);
      forall k :: 0 <= k < |v| ==> -p.maxValueIpfe <= v[k] <= p.maxValueIpfe
  {
    var p := RuntimeParameters(templateLength, m);
    var v := Encoding(template, enrol);
    RuntimeParametersFitEncodings(templateLength, m, template, enrol);
    var width := (m + 1) * templateLength;
    assert 2 * (m + 1) <= p.maxValueIpfe by {
      assert p.maxValueIpfe == (m + 1) * width;
      ProductMonotone(2, width, m + 1);
    }
    forall k | 0 <= k < |template|
      ensures -p.maxValueIpfe <= v[k] <= p.maxValueIpfe
    {
      assert 1 <= template[k] + 1 <= m + 1;
    }
  }

  /** The condition is needed: with maxValueTemplate = 0 and a one-entry template,
      maxValueIpfe is 1 but the probe encoding starts with -2. */
  lemma ProbeEncodingExceedsUnitBound()
    ensures var p := RuntimeParameters(1, 0);
      var v := Encoding([0], false);
      p.maxValueIpfe == 1 && v[0] == -2 < -p.maxValueIpfe
  {
    assert Encoding([0], false)[0] == -2 * ([0][0] + 1);
  }

  /** The squared distance of two templates with components in [0, m] is at most
      m²·len. */
  lemma {:induction false} SquaredDistanceBound(a: seq<int>, b: seq<int>, m: int)
    requires |a| == |b| && InRange(a, m) && InRange(b, m)
    ensures SquaredDistance(a, b) <= m * m * |a|
    decreases |a|
  {
    if |a| > 0 {
      var n := |a| - 1;
      SquaredDistanceBound(a[..n], b[..n], m);
      assert InRange(a[..n], m) && InRange(b[..n], m);
      SquareAtMost(a[n] - b[n], m);
      assert m * m * n + m * m == m * m * |a|;
    }
  }

  lemma SquareAtMost(e: int, m: int)
    requires -m <= e <= m
    ensures e * e <= m * m
  {
    if e >= 0 {
      assert e * e <= e * m;
    } else {
      assert e * e <= (-e) * m;
    }
  }

  /** The derived maxValueIpfe bounds every distance the server can be asked to
      recover from in-range templates. */
  lemma DistanceWithinIpfeBound(templateLength: nat, m: int, a: seq<int>, b: seq<int>)
    requires |a| == templateLength && |b| == templateLength
    requires InRange(a, m) && InRange(b, m)
    ensures 0 <= SquaredDistance(a, b) <= RuntimeParameters(templateLength, m).maxValueIpfe
  {
    SquaredDistanceBound(a, b, m);
    var bound := RuntimeParameters(templateLength, m).maxValueIpfe;
    if templateLength > 0 {
      assert m >= 0;
      var square, shiftedSquare := m * m, (m + 1) * (m + 1);
      assert shiftedSquare == square + 2 * m + 1;
      ProductMonotone(square, shiftedSquare, templateLength);
      assert bound == shiftedSquare * templateLength;
    }
  }

  lemma ProductMonotone(x: int, y: int, n: nat)
    requires x <= y
    ensures x * n <= y * n
  {
  }

  /** A template whose every component is m has shifted squared norm (m+1)²·len. */
  lemma {:induction false} ConstantSquaredNorm(template: seq<int>, m: int)
    requires forall i :: 0 <= i < |template| ==> template[i] == m
    ensures SquaredNorm(Shifted(template)) == (m + 1) * (m + 1) * |template|
    decreases |template|
  {
    if |template| > 0 {
      var n := |template| - 1;
      assert Shifted(template)[..n] == Shifted(template[..n]);
      ConstantSquaredNorm(template[..n], m);
      assert (m + 1) * (m + 1) * n + (m + 1) * (m + 1) == (m + 1) * (m + 1) * |template|;
    }
  }

  /** The derived maxValueIpfe is tight: for the template whose every component is
      the largest value m, the squared-norm entry of both encodings equals it. */
  lemma EncodingReachesIpfeBound(templateLength: nat, m: int, template: seq<int>)
    requires |template| == templateLength
    requires forall i :: 0 <= i < |template| ==> template[i] == m
    ensures var p := RuntimeParameters(templateLength, m);
      Encoding(template, true)[templateLength + 1] == p.maxValueIpfe
      && Encoding(template, false)[templateLength] == p.maxValueIpfe
  {
    ConstantSquaredNorm(template, m);
    ReferenceEncodingEntries(template);
    ProbeEncodingEntries(template);
  }

  /** The database after the server ingests the messages in order, later
      enrolments of the same rid overwriting earlier ones. */
  function EnrolAll(database: map<string, DbItem>, messages: seq<EnrollmentMessage>): map<string, DbItem>
    decreases |messages|
  {
    if |messages| == 0 then database
    else Enrol(EnrolAll(database, messages[..|messages| - 1]), messages[|messages| - 1])
  }

  /** The enrolment messages carried by a run of enrolment packets. */
  function Enrolments(packets: seq<Packet>): seq<EnrollmentMessage>
    requires forall j :: 0 <= j < |packets| ==> packets[j].EnrollmentPacket?
  {
    seq(|packets|, j requires 0 <= j < |packets| => packets[j].enrollment)
  }

  /** The last enrolment of an rid decides its record. */
  lemma {:induction false} EnrolAllLastWins(database: map<string, DbItem>, messages: seq<EnrollmentMessage>, j: nat)
    requires j < |messages|
    requires forall k :: j < k < |messages| ==> messages[k].rid != messages[j].rid
    ensures RidToString(messages[j].rid) in EnrolAll(database, messages)
    ensures EnrolAll(database, messages)[RidToString(messages[j].rid)] == Record(messages[j])
    decreases |messages|
  {
    var n := |messages| - 1;
    var prefix := messages[..n];
    var before := EnrolAll(database, prefix);
    assert EnrolAll(database, messages) == Enrol(before, messages[n]);
    if j < n {
      assert prefix[j] == messages[j];
      assert forall k :: j < k < n ==> prefix[k] == messages[k];
      EnrolAllLastWins(database, prefix, j);
      EnrolKeepsOtherClients(before, messages[n], messages[j].rid);
    }
  }

  /** The database keys a run of enrolment messages writes. */
  function EnrolledKeys(messages: seq<EnrollmentMessage>): set<string>
    decreases |messages|
  {
    if |messages| == 0 then {}
    else EnrolledKeys(messages[..|messages| - 1]) + {RidToString(messages[|messages| - 1].rid)}
  }

  /** After a run of enrolments the database holds exactly the keys it held before
      and the keys of the enrolled rids. */
  lemma {:induction false} EnrolAllKeys(database: map<string, DbItem>, messages: seq<EnrollmentMessage>)
    ensures EnrolAll(database, messages).Keys == database.Keys + EnrolledKeys(messages)
    decreases |messages|
  {
    if |messages| > 0 {
      var n := |messages| - 1;
      EnrolAllKeys(database, messages[..n]);
    }
  }

  /** A key is written by a run exactly when some message of the run carries its rid. */
  lemma {:induction false} EnrolledKeysMembers(messages: seq<EnrollmentMessage>, rid: seq<Byte>)
    ensures RidToString(rid) in EnrolledKeys(messages) <==> exists j :: 0 <= j < |messages| && messages[j].rid == rid
    decreases |messages|
  {
    if |messages| > 0 {
      var n := |messages| - 1;
      var prefix := messages[..n];
      EnrolledKeysMembers(prefix, rid);
      RidToStringDistinguishes(rid, messages[n].rid);
      if exists j :: 0 <= j < |messages| && messages[j].rid == rid {
        var j :| 0 <= j < |messages| && messages[j].rid == rid;
        if j < n {
          assert prefix[j] == messages[j];
        }
      }
      if exists j :: 0 <= j < n && prefix[j].rid == rid {
        var j :| 0 <= j < n && prefix[j].rid == rid;
        assert prefix[j] == messages[j];
      }
    }
  }

  /** With pairwise distinct rids, every message's record is in the database. */
  lemma DistinctEnrolmentsRecorded(database: map<string, DbItem>, messages: seq<EnrollmentMessage>)
    requires forall j, k :: 0 <= j < k < |messages| ==> messages[j].rid != messages[k].rid
    ensures forall j :: 0 <= j < |messages| ==>
      RidToString(messages[j].rid) in EnrolAll(database, messages)
      && EnrolAll(database, messages)[RidToString(messages[j].rid)] == Record(messages[j])
  {
    forall j | 0 <= j < |messages|
      ensures RidToString(messages[j].rid) in EnrolAll(database, messages)
      ensures EnrolAll(database, messages)[RidToString(messages[j].rid)] == Record(messages[j])
    {
      EnrolAllLastWins(database, messages, j);
    }
  }

  /** The enrolment packets the clients send, in client order. */
  function EnrolmentPackets(
    parameters: Parameters, referenceTemplates: seq<seq<int>>,
    rids: seq<seq<Byte>>, keySeeds: seq<nat>, masterSeeds: seq<nat>)
    : seq<Packet>
    requires |referenceTemplates| == |rids| == |keySeeds| == |masterSeeds|
  {
    seq(|rids|, j requires 0 <= j < |rids| =>
      EnrollmentPacket(EnrollmentMessageFor(parameters, referenceTemplates[j], rids[j], keySeeds[j], masterSeeds[j])))
  }

  /** With pairwise distinct rids, the database the clients' enrolment packets
      build from an empty one maps every rid to its client's record. */
  lemma EnrolmentRecords(
    parameters: Parameters, referenceTemplates: seq<seq<int>>,
    rids: seq<seq<Byte>>, keySeeds: seq<nat>, masterSeeds: seq<nat>)
    requires |referenceTemplates| == |rids| == |keySeeds| == |masterSeeds|
    requires forall i, j :: 0 <= i < j < |rids| ==> rids[i] != rids[j]
    ensures var packets := EnrolmentPackets(parameters, referenceTemplates, rids, keySeeds, masterSeeds);
      var database := EnrolAll(map[], Enrolments(packets));
      forall j :: 0 <= j < |rids| ==>
        RidToString(rids[j]) in database
        && database[RidToString(rids[j])]
           == Record(EnrollmentMessageFor(parameters, referenceTemplates[j], rids[j], keySeeds[j], masterSeeds[j]))
  {
    var messages := Enrolments(EnrolmentPackets(parameters, referenceTemplates, rids, keySeeds, masterSeeds));
    assert forall j :: 0 <= j < |rids| ==>
      messages[j] == EnrollmentMessageFor(parameters, referenceTemplates[j], rids[j], keySeeds[j], masterSeeds[j]);
    DistinctEnrolmentsRecorded(map[], messages);
  }

  /** A client holds the key material it drew at enrolment. */
  ghost predicate HoldsKeys(client: Client, rid: seq<Byte>, keySeed: nat, masterSeed: nat, scheme: Scheme)
    reads client
  {
    client.rid == rid
    && client.signatureSecretKey == Some(GenerateKey(keySeed).1)
    && client.scheme == Some(scheme)
    && client.masterKey == Some(GenerateMasterKey(scheme, masterSeed))
  }

  /** The two packets an enrolled client sends to authenticate with a probe. */
  ghost function Transcript(client: Client, probeTemplate: seq<int>, digest: Digest): seq<Packet>
    reads client
    requires client.Enrolled() && |probeTemplate| + 2 == client.scheme.value.vectorLength
  {
    AuthenticationTranscript(
      client.rid, client.scheme.value, client.masterKey.value, client.signatureSecretKey.value, probeTemplate, digest)
  }

  /** The first packets are n authentications, each a message and then a signature. */
  predicate AuthenticationsFramed(packets: seq<Packet>, n: nat)
    decreases n
  {
    n == 0 || (AuthenticationFramed(packets) && AuthenticationsFramed(packets[2..], n - 1))
  }

  /** The same framing stated index by index. */
  lemma {:induction false} FramedIndexed(packets: seq<Packet>, n: nat)
    ensures AuthenticationsFramed(packets, n) <==>
      |packets| >= 2 * n
      && forall j :: 0 <= j < n ==> packets[2 * j].AuthenticationPacket? && packets[2 * j + 1].SignaturePacket?
    decreases n
  {
    if n > 0 && |packets| >= 2 {
      var rest := packets[2..];
      FramedIndexed(rest, n - 1);
      if |packets| >= 2 * n && forall j :: 0 <= j < n ==> packets[2 * j].AuthenticationPacket? && packets[2 * j + 1].SignaturePacket? {
        assert packets[2 * 0] == packets[0];
        forall j | 0 <= j < n - 1
          ensures rest[2 * j].AuthenticationPacket? && rest[2 * j + 1].SignaturePacket?
        {
          assert rest[2 * j] == packets[2 * (j + 1)] && rest[2 * j + 1] == packets[2 * (j + 1) + 1];
        }
      }
      if AuthenticationsFramed(packets, n) {
        forall j | 0 < j < n
          ensures packets[2 * j].AuthenticationPacket? && packets[2 * j + 1].SignaturePacket?
        {
          assert packets[2 * j] == rest[2 * (j - 1)] && packets[2 * j + 1] == rest[2 * (j - 1) + 1];
        }
      }
    }
  }

  /** `make([]Client, n)`: n distinct clients, none enrolled yet. */
  method NewClients(n: nat) returns (clients: seq<Client>)
    ensures |clients| == n
    ensures forall j :: 0 <= j < n ==> fresh(clients[j]) && clients[j].Zero() && !clients[j].Enrolled()
    ensures forall j, k :: 0 <= j < k < n ==> clients[j] != clients[k]
  {
    clients := [];
    while |clients| < n
      invariant |clients| <= n
      invariant forall j :: 0 <= j < |clients| ==> fresh(clients[j]) && clients[j].Zero() && !clients[j].Enrolled()
      invariant forall j, k :: 0 <= j < k < |clients| ==> clients[j] != clients[k]
    {
      var c := new Client();
      clients := clients + [c];
    }
  }

  /** Every client enrols in turn, writing its enrolment message to the network. */
  method EnrolClients(
    clients: seq<Client>, parameters: Parameters, referenceTemplates: seq<seq<int>>, network: Network,
    rids: seq<seq<Byte>>, keySeeds: seq<nat>, masterSeeds: seq<nat>)
    requires |referenceTemplates| == |clients| && |rids| == |clients|
    requires |keySeeds| == |clients| && |masterSeeds| == |clients|
    requires forall j, k :: 0 <= j < k < |clients| ==> clients[j] != clients[k]
    requires forall j :: 0 <= j < |clients| ==>
      |referenceTemplates[j]| == parameters.templateLength && |rids[j]| == parameters.securityParameter
    modifies clients, network
    ensures network.packets
      == old(network.packets) + EnrolmentPackets(parameters, referenceTemplates, rids, keySeeds, masterSeeds)
    ensures forall j :: 0 <= j < |clients| ==>
      HoldsKeys(clients[j], rids[j], keySeeds[j], masterSeeds[j], ClientScheme(parameters, parameters.templateLength))
    ensures forall j :: 0 <= j < |clients| ==> clients[j].parameters == old(clients[j].parameters)
  {
    ghost var sent := EnrolmentPackets(parameters, referenceTemplates, rids, keySeeds, masterSeeds);
    for index := 0 to |clients|
      invariant network.packets == old(network.packets) + sent[..index]
      invariant forall j :: 0 <= j < index ==>
        HoldsKeys(clients[j], rids[j], keySeeds[j], masterSeeds[j], ClientScheme(parameters, parameters.templateLength))
      invariant forall j :: 0 <= j < |clients| ==> clients[j].parameters == old(clients[j].parameters)
    {
      var _ := clients[index].ClientEnrol(
        parameters, referenceTemplates[index], network, rids[index], keySeeds[index], masterSeeds[index]);
      assert sent[..index + 1] == sent[..index] + [sent[index]];
    }
    assert sent[..|clients|] == sent;
  }

  /** The server reads n enrolment messages; afterwards its database is the old
      one with those messages enrolled in order. */
  method ServerEnrolAll(server: Server, network: Network, n: nat)
    requires |network.packets| >= n
    requires forall j :: 0 <= j < n ==> network.packets[j].EnrollmentPacket?
    modifies server`database, network
    ensures network.packets == old(network.packets)[n..]
    ensures server.database == EnrolAll(old(server.database), Enrolments(old(network.packets)[..n]))
  {
    ghost var received := network.packets;
    ghost var messages := Enrolments(received[..n]);
    for i := 0 to n
      invariant network.packets == received[i..]
      invariant server.database == EnrolAll(old(server.database), messages[..i])
    {
      ghost var before := server.database;
      assert network.packets[0] == received[i];
      var _ := server.ServerEnrol(network);
      assert server.database == Enrol(before, messages[i]);
      assert received[i..][1..] == received[i + 1..];
      assert messages[..i + 1][..i] == messages[..i];
    }
    assert messages[..n] == messages;
  }

  /** Every client authenticates in turn with its probe template. */
  method AuthenticateClients(clients: seq<Client>, probeTemplates: seq<seq<int>>, network: Network, digest: Digest)
    requires |probeTemplates| == |clients|
    requires forall j :: 0 <= j < |clients| ==>
      clients[j].Enrolled() && |probeTemplates[j]| + 2 == clients[j].scheme.value.vectorLength
    modifies network
    ensures unchanged(clients)
    ensures forall j :: 0 <= j < |clients| ==>
      clients[j].Enrolled() && |probeTemplates[j]| + 2 == clients[j].scheme.value.vectorLength
    ensures |network.packets| == |old(network.packets)| + 2 * |clients|
    ensures network.packets[..|old(network.packets)|] == old(network.packets)
    ensures forall j :: 0 <= j < |clients| ==>
      network.packets[|old(network.packets)| + 2 * j .. |old(network.packets)| + 2 * j + 2]
      == Transcript(clients[j], probeTemplates[j], digest)
  {
    ghost var before := network.packets;
    for index := 0 to |clients|
      invariant forall j :: 0 <= j < |clients| ==>
        clients[j].Enrolled() && |probeTemplates[j]| + 2 == clients[j].scheme.value.vectorLength
      invariant |network.packets| == |before| + 2 * index
      invariant network.packets[..|before|] == before
      invariant forall j :: 0 <= j < index ==>
        network.packets[|before| + 2 * j .. |before| + 2 * j + 2] == Transcript(clients[j], probeTemplates[j], digest)
    {
      ghost var previous := network.packets;
      clients[index].ClientAuthentication(probeTemplates[index], network, digest);
      forall j | 0 <= j < index
        ensures network.packets[|before| + 2 * j .. |before| + 2 * j + 2] == Transcript(clients[j], probeTemplates[j], digest)
      {
        assert network.packets[|before| + 2 * j .. |before| + 2 * j + 2] == previous[|before| + 2 * j .. |before| + 2 * j + 2];
      }
    }
  }

  /** One authentication answered: the message and the signature at the front of
      the network are consumed and checked. */
  method AnswerNext(
    server: Server, network: Network, ghost database: map<string, DbItem>, ghost scheme: Scheme,
    ghost count: nat, digest: Digest)
    returns (ip: Result<int, ServerError>)
    requires server.database == database && server.scheme == scheme
    requires count > 0 && AuthenticationsFramed(network.packets, count)
    modifies network
    ensures network.packets == old(network.packets)[2..]
    ensures AuthenticationsFramed(network.packets, count - 1)
    ensures Answers(database, scheme, old(network.packets), count, digest)
      == [ip] + Answers(database, scheme, network.packets, count - 1, digest)
  {
    ip := server.ServerAuthentication(network, digest);
  }

  /** The answers to the first n framed authentications, in order, from a fixed
      database and scheme. */
  ghost function Answers(
    database: map<string, DbItem>, scheme: Scheme, packets: seq<Packet>, n: nat, digest: Digest)
    : (answers: seq<Result<int, ServerError>>)
    requires AuthenticationsFramed(packets, n)
    ensures |answers| == n
    decreases n
  {
    if n == 0 then []
    else
      [CheckAuthentication(database, scheme, packets[0].authentication, packets[1].signature, digest)]
        + Answers(database, scheme, packets[2..], n - 1, digest)
  }

  /** The j-th answer is the server's check of the j-th message and signature. */
  lemma {:induction false} AnswerAt(
    database: map<string, DbItem>, scheme: Scheme, packets: seq<Packet>, n: nat, j: nat, digest: Digest)
    requires AuthenticationsFramed(packets, n) && j < n
    ensures 2 * j + 1 < |packets|
    ensures packets[2 * j].AuthenticationPacket? && packets[2 * j + 1].SignaturePacket?
    ensures Answers(database, scheme, packets, n, digest)[j]
      == CheckAuthentication(database, scheme, packets[2 * j].authentication, packets[2 * j + 1].signature, digest)
    decreases n
  {
    if j > 0 {
      var rest := packets[2..];
      AnswerAt(database, scheme, rest, n - 1, j - 1, digest);
      assert rest[2 * (j - 1)] == packets[2 * j] && rest[2 * (j - 1) + 1] == packets[2 * j + 1];
    }
  }

  /** Every answer is the server's check of its message and signature. */
  lemma AnswersAt(
    database: map<string, DbItem>, scheme: Scheme, packets: seq<Packet>, n: nat, digest: Digest)
    requires AuthenticationsFramed(packets, n)
    ensures |packets| >= 2 * n
    ensures forall j :: 0 <= j < n ==> packets[2 * j].AuthenticationPacket? && packets[2 * j + 1].SignaturePacket?
    ensures forall j :: 0 <= j < n ==>
      Answers(database, scheme, packets, n, digest)[j]
      == CheckAuthentication(database, scheme, packets[2 * j].authentication, packets[2 * j + 1].signature, digest)
  {
    FramedIndexed(packets, n);
    forall j | 0 <= j < n
      ensures Answers(database, scheme, packets, n, digest)[j]
        == CheckAuthentication(database, scheme, packets[2 * j].authentication, packets[2 * j + 1].signature, digest)
    {
      AnswerAt(database, scheme, packets, n, j, digest);
    }
  }

  /** Appending one answer and then the rest is appending both at once. */
  lemma AppendRegroup<T>(done: seq<T>, next: T, rest: seq<T>)
    ensures (done + [next]) + rest == done + ([next] + rest)
  {
  }

  /** The server answers n authentications in the order they arrived. */
  method ServerAuthenticateAll(server: Server, network: Network, n: nat, digest: Digest)
    returns (results: seq<Result<int, ServerError>>)
    requires AuthenticationsFramed(network.packets, n)
    modifies network
    ensures |results| == n
    ensures results == Answers(server.database, server.scheme, old(network.packets), n, digest)
    ensures 2 * n <= |old(network.packets)| && network.packets == old(network.packets)[2 * n..]
  {
    ghost var received := network.packets;
    ghost var database, scheme := server.database, server.scheme;
    ghost var remaining := n;
    results := [];
    for index := 0 to n
      invariant remaining == n - index
      invariant 2 * index <= |received| && network.packets == received[2 * index..]
      invariant AuthenticationsFramed(network.packets, remaining)
      invariant |results| == index
      invariant results + Answers(database, scheme, network.packets, remaining, digest)
        == Answers(database, scheme, received, n, digest)
    {
      var ip := AnswerNext(server, network, database, scheme, remaining, digest);
      assert received[2 * index..][2..] == received[2 * (index + 1)..];
      ghost var later := Answers(database, scheme, network.packets, remaining - 1, digest);
      AppendRegroup(results, ip, later);
      results := results + [ip];
      remaining := remaining - 1;
    }
  }

  /** Given the database the enrolments left, the packets the clients sent and
      the server's answers to them in order, every answer is the distance of that
      client's reference and probe templates. */
  lemma ServerAnswers(
    parameters: Parameters, referenceTemplates: seq<seq<int>>, probeTemplates: seq<seq<int>>,
    rids: seq<seq<Byte>>, keySeeds: seq<nat>, masterSeeds: seq<nat>, digest: Digest,
    database: map<string, DbItem>, transcript: seq<Packet>, results: seq<Result<int, ServerError>>)
    requires parameters.ipfeVectorLength == parameters.templateLength + 2
    requires |referenceTemplates| == |probeTemplates| == |rids| == |keySeeds| == |masterSeeds| == |results|
    requires AuthenticationsFramed(transcript, |results|)
    requires |transcript| >= 2 * |results|
    requires forall i :: 0 <= i < |results| ==>
      |referenceTemplates[i]| == parameters.templateLength && |probeTemplates[i]| == parameters.templateLength
    requires forall i :: 0 <= i < |results| ==>
      RidToString(rids[i]) in database
      && database[RidToString(rids[i])]
         == Record(EnrollmentMessageFor(parameters, referenceTemplates[i], rids[i], keySeeds[i], masterSeeds[i]))
    requires forall i :: 0 <= i < |results| ==>
      var scheme := ClientScheme(parameters, parameters.templateLength);
      transcript[2 * i .. 2 * i + 2] == AuthenticationTranscript(
        rids[i], scheme, GenerateMasterKey(scheme, masterSeeds[i]), GenerateKey(keySeeds[i]).1,
        probeTemplates[i], digest)
    requires results == Answers(database, ServerScheme(parameters), transcript, |results|, digest)
    ensures forall i :: 0 <= i < |results| ==>
      results[i] == Ok(SquaredDistance(referenceTemplates[i], probeTemplates[i]))
  {
    AnswersAt(database, ServerScheme(parameters), transcript, |results|, digest);
    forall i | 0 <= i < |results|
      ensures results[i] == Ok(SquaredDistance(referenceTemplates[i], probeTemplates[i]))
    {
      var sent := transcript[2 * i .. 2 * i + 2];
      assert transcript[2 * i] == sent[0] && transcript[2 * i + 1] == sent[1];
      AuthenticatesEnrolledClient(
        database, parameters, referenceTemplates[i], probeTemplates[i], rids[i], keySeeds[i], masterSeeds[i], digest);
    }
  }

  /** The first half of the test run: the clients are created and enrol, then the
      server is created and ingests every enrolment (main_test.go lines 28-53). */
  method EnrolmentPhase(
    parameters: Parameters, referenceTemplates: seq<seq<int>>,
    rids: seq<seq<Byte>>, keySeeds: seq<nat>, masterSeeds: seq<nat>)
    returns (clients: seq<Client>, server: Server, network: Network)
    requires |rids| == |referenceTemplates| && |keySeeds| == |rids| && |masterSeeds| == |rids|
    requires forall i :: 0 <= i < |rids| ==>
      |referenceTemplates[i]| == parameters.templateLength && |rids[i]| == parameters.securityParameter
    requires forall i, j :: 0 <= i < j < |rids| ==> rids[i] != rids[j]
    ensures fresh(server) && fresh(network) && network.packets == []
    ensures |clients| == |rids|
    ensures forall j :: 0 <= j < |rids| ==> fresh(clients[j])
    ensures server.scheme == ServerScheme(parameters)
    ensures forall j :: 0 <= j < |rids| ==>
      HoldsKeys(clients[j], rids[j], keySeeds[j], masterSeeds[j], ClientScheme(parameters, parameters.templateLength))
    ensures forall j :: 0 <= j < |rids| ==>
      RidToString(rids[j]) in server.database
      && server.database[RidToString(rids[j])]
         == Record(EnrollmentMessageFor(parameters, referenceTemplates[j], rids[j], keySeeds[j], masterSeeds[j]))
    ensures server.database
      == EnrolAll(map[], Enrolments(EnrolmentPackets(parameters, referenceTemplates, rids, keySeeds, masterSeeds)))
    ensures server.parameters == parameters
    ensures forall j :: 0 <= j < |rids| ==> clients[j].parameters == Parameters(0, 0, 0, 0, 0)
  {
    var n := |rids|;
    clients := NewClients(n);
    network := new Network();
    EnrolClients(clients, parameters, referenceTemplates, network, rids, keySeeds, masterSeeds);
    ghost var enrolments := network.packets;
    assert enrolments == EnrolmentPackets(parameters, referenceTemplates, rids, keySeeds, masterSeeds);
    assert enrolments[..n] == enrolments;
    server := new Server(parameters);
    ServerEnrolAll(server, network, n);
    assert network.packets == enrolments[n..] == [];
    EnrolmentRecords(parameters, referenceTemplates, rids, keySeeds, masterSeeds);
  }

  /** The second half of the test run: every enrolled client sends its
      authentication, then the server answers them in order (main_test.go lines
      55-67). Each answer is the squared distance of that client's templates, and
      the network ends empty. */
  method AuthenticationPhase(
    parameters: Parameters, referenceTemplates: seq<seq<int>>, probeTemplates: seq<seq<int>>,
    rids: seq<seq<Byte>>, keySeeds: seq<nat>, masterSeeds: seq<nat>, digest: Digest,
    clients: seq<Client>, server: Server, network: Network)
    returns (results: seq<Result<int, ServerError>>)
    requires parameters.ipfeVectorLength == parameters.templateLength + 2
    requires |clients| == |referenceTemplates| == |probeTemplates| == |rids| == |keySeeds| == |masterSeeds|
    requires forall i :: 0 <= i < |clients| ==>
      |referenceTemplates[i]| == parameters.templateLength && |probeTemplates[i]| == parameters.templateLength
    requires network.packets == []
    requires server.scheme == ServerScheme(parameters)
    requires forall j :: 0 <= j < |clients| ==>
      HoldsKeys(clients[j], rids[j], keySeeds[j], masterSeeds[j], ClientScheme(parameters, parameters.templateLength))
    requires forall j :: 0 <= j < |clients| ==>
      RidToString(rids[j]) in server.database
      && server.database[RidToString(rids[j])]
         == Record(EnrollmentMessageFor(parameters, referenceTemplates[j], rids[j], keySeeds[j], masterSeeds[j]))
    modifies network
    ensures network.packets == []
    ensures |results| == |clients|
    ensures forall i :: 0 <= i < |clients| ==>
      results[i] == Ok(SquaredDistance(referenceTemplates[i], probeTemplates[i]))
  {
    var n := |clients|;
    var clientScheme := ClientScheme(parameters, parameters.templateLength);
    ghost var database := server.database;

    AuthenticateClients(clients, probeTemplates, network, digest);
    ghost var transcript := network.packets;
    forall i | 0 <= i < n
      ensures transcript[2 * i .. 2 * i + 2] == AuthenticationTranscript(
        rids[i], clientScheme, GenerateMasterKey(clientScheme, masterSeeds[i]), GenerateKey(keySeeds[i]).1,
        probeTemplates[i], digest)
      ensures transcript[2 * i].AuthenticationPacket? && transcript[2 * i + 1].SignaturePacket?
    {
      assert HoldsKeys(clients[i], rids[i], keySeeds[i], masterSeeds[i], clientScheme);
      var sent := transcript[2 * i .. 2 * i + 2];
      assert sent == AuthenticationTranscript(
        rids[i], clientScheme, GenerateMasterKey(clientScheme, masterSeeds[i]), GenerateKey(keySeeds[i]).1,
        probeTemplates[i], digest);
      assert sent[0].AuthenticationPacket? && sent[1].SignaturePacket?;
      assert transcript[2 * i] == sent[0] && transcript[2 * i + 1] == sent[1];
    }

    FramedIndexed(transcript, n);
    results := ServerAuthenticateAll(server, network, n, digest);
    assert server.database == database;
    ServerAnswers(
      parameters, referenceTemplates, probeTemplates, rids, keySeeds, masterSeeds, digest,
      database, transcript, results);
  }

  /** The test run. Randomness is given as inputs: one 16-byte rid, one signing key
      seed and one master key seed per client, pairwise distinct rids. Every answer
      of the server is the squared distance of that client's two templates. */
  method TestRuntime(
    numberOfClients: nat, templateLength: nat, maxValueTemplate: int,
    referenceTemplates: seq<seq<int>>, probeTemplates: seq<seq<int>>,
    rids: seq<seq<Byte>>, keySeeds: seq<nat>, masterSeeds: seq<nat>, digest: Digest)
    returns (authenticationResults: seq<Result<int, ServerError>>)
    requires |referenceTemplates| == numberOfClients && |probeTemplates| == numberOfClients
    requires |rids| == numberOfClients && |keySeeds| == numberOfClients && |masterSeeds| == numberOfClients
    requires forall i :: 0 <= i < numberOfClients ==>
      |referenceTemplates[i]| == templateLength && |probeTemplates[i]| == templateLength
    requires forall i :: 0 <= i < numberOfClients ==> |rids[i]| == 16
    requires forall i, j :: 0 <= i < j < numberOfClients ==> rids[i] != rids[j]
    ensures |authenticationResults| == numberOfClients
    ensures forall i :: 0 <= i < numberOfClients ==>
      authenticationResults[i] == Ok(SquaredDistance(referenceTemplates[i], probeTemplates[i]))
  {
    var n := numberOfClients;
    var parameters := RuntimeParameters(templateLength, maxValueTemplate);
    var clients, server, network := EnrolmentPhase(parameters, referenceTemplates, rids, keySeeds, masterSeeds);
    authenticationResults := AuthenticationPhase(
      parameters, referenceTemplates, probeTemplates, rids, keySeeds, masterSeeds, digest, clients, server, network);

    // the test's final comparison against the euclidianDistance oracle: its
    // failure branch (log.Fatalf "Wrong result") cannot be reached
    for index := 0 to n {
      var expectedResult := EuclidianDistance(referenceTemplates[index], probeTemplates[index]);
      if authenticationResults[index] != Ok(expectedResult.value) {
        assert false;
      }
    }
  }
}
