/** An undisturbed exchange of trust negotiation: its messages, in order, lead to a
    session on either side, and such a run exists. */
module ExchangeRuns {
  import opened Prelude
  import opened Frame
  import opened Negotiation
  import opened NegotiationRuns

  ghost predicate Correct(s: Signing) {
    forall k: Key, m: seq<byte> :: s.verify(k, m, s.sign(k, m))
  }

  function ChallengeMessage(self: Key, c: ChallengePayload): Message {
    Message(self, Full, [CHALLENGE] + EncodeChallenge(c))
  }

  function ResponseMessage(s: Signing, self: Key, challenger: NodeId, nonce: Nonce): Message {
    var signature := s.sign(self, ResponseTranscript(challenger, self, nonce));
    Message(self, Full, [RESPONSE] + EncodeResponse(ResponsePayload(nonce, signature)))
  }

  lemma Strip(kind: byte, data: seq<byte>)
    ensures ([kind] + data)[0] == kind && ([kind] + data)[1..] == data
  {
  }

  /** B answers A's Hello with a challenge it then waits on. */
  lemma HelloAnswered(s: Signing, b: Key, n: Node, a: Key, trust: TrustLevel, ni: Nonce, t: u64, nc: Nonce,
                      now: Seconds)
    ensures var out := Process(s, b, n, HelloMessage(a, trust, ni), t, nc, now);
            var challenge := ChallengePayload(nc, t, CHALLENGE_EXPIRY);
            && out.result == Ok(Some(ChallengeMessage(b, challenge))) && out.event == None
            && a in out.node.negotiations
            && out.node.negotiations[a] == Context(ChallengeSent, Some(a), Some(a), Some(challenge), None, Some(ni),
                                                   now)
  {
    var hello := HelloPayload(1, a, trust, 0xFFFF_FFFF, ni);
    Strip(HELLO, EncodeHello(hello));
    HelloRoundTrip(hello, []);
    assert EncodeHello(hello) + [] == EncodeHello(hello);
  }

  /** A, having opened a context with B, answers a valid challenge. */
  lemma ChallengeAnswered(s: Signing, a: Key, n: Node, b: Key, c: ChallengePayload, t: u64, drawn: Nonce, now: Seconds)
    requires b in n.negotiations && ChallengeValid(c, t)
    ensures var out := Process(s, a, n, ChallengeMessage(b, c), t, drawn, now);
            && out.result == Ok(Some(ResponseMessage(s, a, b, c.nonce)))
            && out.event == Some(Responded(a, b, c.nonce))
            && b in out.node.negotiations
            && out.node.negotiations[b]
                 == n.negotiations[b].(receivedChallenge := Some(c), peerId := Some(b), state := ResponseSent)
  {
    Strip(CHALLENGE, EncodeChallenge(c));
    ChallengeRoundTrip(c, []);
    assert EncodeChallenge(c) + [] == EncodeChallenge(c);
  }

  /** B accepts the response to its challenge, installs a session and acks. */
  lemma ResponseAccepted(s: Signing, b: Key, n: Node, a: Key, c: ChallengePayload, ni: Nonce, t: u64, drawn: Nonce,
                         now: Seconds)
    requires Correct(s) && a in n.negotiations
    requires var x := n.negotiations[a];
             && x.peerId == Some(a) && x.peerPublicKey == Some(a)
             && x.pendingChallenge == Some(c) && x.initiatorNonce == Some(ni)
    ensures var out := Process(s, b, n, ResponseMessage(s, a, b, c.nonce), t, drawn, now);
            && out.result == Ok(Some(AckMessage(s, b, a, ni, c.nonce, Sig)))
            && out.event == Some(Acked(b, a, ni, c.nonce, Sig, a, s.sign(a, ResponseTranscript(b, a, c.nonce))))
            && a in out.node.sessions && out.node.sessions[a] == Session(a, a, Sig, now, SESSION_DURATION)
  {
    var response := ResponsePayload(c.nonce, s.sign(a, ResponseTranscript(b, a, c.nonce)));
    Strip(RESPONSE, EncodeResponse(response));
    ResponseRoundTrip(response, []);
    assert EncodeResponse(response) + [] == EncodeResponse(response);
  }

  /** An ack made with one key, in a frame that names another sender. */
  function AckFrom(s: Signing, sender: NodeId, key: Key, initiator: Key, ni: Nonce, nc: Nonce,
                   level: TrustLevel): Message {
    AckMessage(s, key, initiator, ni, nc, level).(senderId := sender)
  }

  /** A accepts an ack for its context with B and installs a session with the key that
      made it, whoever that is. */
  lemma AckAccepted(s: Signing, a: Key, n: Node, b: NodeId, key: Key, c: ChallengePayload, ni: Nonce, level: TrustLevel,
                    t: u64, drawn: Nonce, now: Seconds)
    requires Correct(s) && b in n.negotiations
    requires n.negotiations[b].initiatorNonce == Some(ni) && n.negotiations[b].receivedChallenge == Some(c)
    ensures var out := Process(s, a, n, AckFrom(s, b, key, a, ni, c.nonce, level), t, drawn, now);
            && out.result == Ok(None)
            && out.event == Some(Installed(a, key, ni, c.nonce, level, Initiated(n.negotiations[b])))
            && b in out.node.sessions && out.node.sessions[b] == Session(b, key, level, now, SESSION_DURATION)
  {
    var ack := AckPayload(level, key, s.sign(key, AckTranscript(a, key, ni, c.nonce, level)));
    Strip(ACK, EncodeAck(ack));
    AckRoundTrip(ack, []);
    assert EncodeAck(ack) + [] == EncodeAck(ack);
  }

  // ---------------------------------------------------------------------
  // The exchange as a run.

  /** The parties, what is drawn and what the clocks say. */
  datatype Exchange = Exchange(
    a: Key, b: Key, trust: TrustLevel, ni: Nonce, nc: Nonce,
    spares: (Nonce, Nonce, Nonce), t: u64, tc: u64, now: Seconds)
  {
    function Drawn(): set<Nonce> {
      {ni, nc, spares.0, spares.1, spares.2}
    }

    function Challenge(): ChallengePayload {
      ChallengePayload(nc, t, CHALLENGE_EXPIRY)
    }
  }

  /** A opens a negotiation with B, and four messages are delivered. */
  function Opening(x: Exchange): seq<Step> {
    [Start(x.a, x.b, x.ni, x.now), Deliver(x.b, HelloMessage(x.a, x.trust, x.ni), x.t, x.nc, x.now)]
  }

  function Closing(s: Signing, x: Exchange): seq<Step> {
    [Deliver(x.a, ChallengeMessage(x.b, x.Challenge()), x.tc, x.spares.0, x.now),
     Deliver(x.b, ResponseMessage(s, x.a, x.b, x.nc), x.t, x.spares.1, x.now),
     Deliver(x.a, AckMessage(s, x.b, x.a, x.ni, x.nc, Sig), x.tc, x.spares.2, x.now)]
  }

  ghost predicate AllEnabled(s: Signing, w: World, steps: seq<Step>)
    decreases |steps|
  {
    steps != [] ==> Enabled(s, w, steps[0]) && AllEnabled(s, Next(s, w, steps[0]), steps[1..])
  }

  /** After A's Hello has reached B: A waits for a challenge and B for its answer. */
  predicate Waiting(w: World, x: Exchange) {
    && x.a in w.nodes && x.b in w.nodes && x.b in w.nodes[x.a].negotiations && x.a in w.nodes[x.b].negotiations
    && w.nodes[x.a].negotiations[x.b] == NewContext(x.now).(initiatorNonce := Some(x.ni))
    && w.nodes[x.b].negotiations[x.a]
         == Context(ChallengeSent, Some(x.a), Some(x.a), Some(x.Challenge()), None, Some(x.ni), x.now)
  }

  lemma RunTwo(s: Signing, w: World, p: Step, q: Step)
    ensures Run(s, w, [p, q]) == Next(s, Next(s, w, p), q)
    ensures AllEnabled(s, w, [p, q]) <==> Enabled(s, w, p) && Enabled(s, Next(s, w, p), q)
  {
    var v := Next(s, w, p);
    assert [p, q][1..] == [q] && [q][1..] == [];
    assert Run(s, v, [q]) == Run(s, Next(s, v, q), []);
    assert AllEnabled(s, v, [q]) <==> Enabled(s, v, q) && AllEnabled(s, Next(s, v, q), []);
  }

  lemma RunThree(s: Signing, w: World, p: Step, q: Step, r: Step)
    ensures Run(s, w, [p, q, r]) == Next(s, Next(s, Next(s, w, p), q), r)
    ensures AllEnabled(s, w, [p, q, r]) <==>
            Enabled(s, w, p) && Enabled(s, Next(s, w, p), q) && Enabled(s, Next(s, Next(s, w, p), q), r)
  {
    assert [p, q, r][1..] == [q, r];
    RunTwo(s, Next(s, w, p), q, r);
  }

  lemma OpeningLeads(s: Signing, w: World, x: Exchange)
    requires x.a != x.b && x.a in w.nodes && x.b in w.nodes && AllEnabled(s, w, Opening(x))
    ensures var v := Run(s, w, Opening(x));
            && Waiting(v, x) && v.nodes.Keys == w.nodes.Keys
            && v.log == w.log && v.used == w.used + {x.ni, x.nc}
  {
    RunTwo(s, w, Opening(x)[0], Opening(x)[1]);
    HelloAnswered(s, x.b, w.nodes[x.b], x.a, x.trust, x.ni, x.t, x.nc, x.now);
  }

  /** What the closing messages leave in the log. */
  function Exchanged(s: Signing, x: Exchange): seq<Event> {
    [Responded(x.a, x.b, x.nc),
     Acked(x.b, x.a, x.ni, x.nc, Sig, x.a, s.sign(x.a, ResponseTranscript(x.b, x.a, x.nc))),
     Installed(x.a, x.b, x.ni, x.nc, Sig, true)]
  }

  /** Each side holds a session on the other's key. */
  predicate Trusted(w: World, x: Exchange) {
    && x.a in w.nodes && x.b in w.nodes && x.b in w.nodes[x.a].sessions && x.a in w.nodes[x.b].sessions
    && w.nodes[x.a].sessions[x.b] == Session(x.b, x.b, Sig, x.now, SESSION_DURATION)
    && w.nodes[x.b].sessions[x.a] == Session(x.a, x.a, Sig, x.now, SESSION_DURATION)
  }

  /** A's context once it has answered the challenge. */
  predicate HasAnswered(n: Node, x: Exchange) {
    && x.b in n.negotiations
    && n.negotiations[x.b]
         == Context(ResponseSent, Some(x.b), None, None, Some(x.Challenge()), Some(x.ni), x.now)
  }

  /** A has answered the challenge; B is as it was. */
  predicate AfterChallenge(s: Signing, x: Exchange, w: World, v: World) {
    && v.nodes.Keys == w.nodes.Keys && x.a in v.nodes && x.b in v.nodes
    && HasAnswered(v.nodes[x.a], x) && v.nodes[x.b] == w.nodes[x.b]
    && v.used == w.used + {x.spares.0} && v.log == w.log + [Exchanged(s, x)[0]]
  }

  /** B has acked and holds a session with A; A is as it was. */
  predicate AfterResponse(s: Signing, x: Exchange, w: World, v: World) {
    && v.nodes.Keys == w.nodes.Keys && x.a in v.nodes && x.b in v.nodes
    && v.nodes[x.a] == w.nodes[x.a] && x.a in v.nodes[x.b].sessions
    && v.nodes[x.b].sessions[x.a] == Session(x.a, x.a, Sig, x.now, SESSION_DURATION)
    && v.used == w.used + {x.spares.1} && v.log == w.log + [Exchanged(s, x)[1]]
  }

  /** A holds a session with B; B is as it was. */
  predicate AfterAck(s: Signing, x: Exchange, w: World, v: World) {
    && v.nodes.Keys == w.nodes.Keys && x.a in v.nodes && x.b in v.nodes
    && v.nodes[x.b] == w.nodes[x.b] && x.b in v.nodes[x.a].sessions
    && v.nodes[x.a].sessions[x.b] == Session(x.b, x.b, Sig, x.now, SESSION_DURATION)
    && v.used == w.used + {x.spares.2} && v.log == w.log + [Exchanged(s, x)[2]]
  }

  lemma ChallengeStep(s: Signing, w: World, x: Exchange)
    requires x.a != x.b && Waiting(w, x) && ChallengeValid(x.Challenge(), x.tc) && Enabled(s, w, Closing(s, x)[0])
    ensures AfterChallenge(s, x, w, Next(s, w, Closing(s, x)[0]))
  {
    ChallengeAnswered(s, x.a, w.nodes[x.a], x.b, x.Challenge(), x.tc, x.spares.0, x.now);
  }

  lemma ResponseStep(s: Signing, w: World, v: World, x: Exchange)
    requires Correct(s) && x.a != x.b && Waiting(w, x) && AfterChallenge(s, x, w, v)
    requires Enabled(s, v, Closing(s, x)[1])
    ensures AfterResponse(s, x, v, Next(s, v, Closing(s, x)[1]))
  {
    ResponseAccepted(s, x.b, v.nodes[x.b], x.a, x.Challenge(), x.ni, x.t, x.spares.1, x.now);
  }

  lemma AckStep(s: Signing, w: World, x: Exchange)
    requires Correct(s) && x.a != x.b && x.a in w.nodes && x.b in w.nodes
    requires HasAnswered(w.nodes[x.a], x) && Enabled(s, w, Closing(s, x)[2])
    ensures AfterAck(s, x, w, Next(s, w, Closing(s, x)[2]))
  {
    AckAccepted(s, x.a, w.nodes[x.a], x.b, x.b, x.Challenge(), x.ni, Sig, x.tc, x.spares.2, x.now);
  }

  lemma AllThree(s: Signing, x: Exchange, w: World, v: World, u: World, z: World)
    requires x.a != x.b && AfterChallenge(s, x, w, v) && AfterResponse(s, x, v, u) && AfterAck(s, x, u, z)
    ensures Trusted(z, x) && z.log == w.log + Exchanged(s, x)
    ensures z.nodes.Keys == w.nodes.Keys && z.used == w.used + {x.spares.0, x.spares.1, x.spares.2}
  {
  }

  lemma ClosingLeads(s: Signing, w: World, x: Exchange)
    requires Correct(s) && x.a != x.b && Waiting(w, x) && ChallengeValid(x.Challenge(), x.tc)
    requires AllEnabled(s, w, Closing(s, x))
    ensures var v := Run(s, w, Closing(s, x));
            && Trusted(v, x) && v.log == w.log + Exchanged(s, x)
            && v.nodes.Keys == w.nodes.Keys && v.used == w.used + {x.spares.0, x.spares.1, x.spares.2}
  {
    var steps := Closing(s, x);
    RunThree(s, w, steps[0], steps[1], steps[2]);
    ChallengeStep(s, w, x);
    var v := Next(s, w, steps[0]);
    ResponseStep(s, w, v, x);
    var u := Next(s, v, steps[1]);
    AckStep(s, u, x);
    AllThree(s, x, w, v, u, Next(s, u, steps[2]));
  }

  lemma {:induction false} RunAppend(s: Signing, w: World, p: seq<Step>, q: seq<Step>)
    ensures Run(s, w, p + q) == Run(s, Run(s, w, p), q)
    ensures AllEnabled(s, w, p + q) <==> AllEnabled(s, w, p) && AllEnabled(s, Run(s, w, p), q)
    decreases |p|
  {
    if p == [] {
      assert p + q == q;
    } else {
      assert (p + q)[1..] == p[1..] + q;
      RunAppend(s, Next(s, w, p[0]), p[1..], q);
    }
  }

  /** Whatever else two honest nodes hold, an exchange whose steps are enabled leaves
      each with a session on the other's key at the Sig level, and the log with the
      answer, the ack and the session, in that order. */
  lemma ExchangeSucceeds(s: Signing, w: World, x: Exchange)
    requires Correct(s) && x.a != x.b && x.a in w.nodes && x.b in w.nodes
    requires ChallengeValid(x.Challenge(), x.tc) && AllEnabled(s, w, Opening(x) + Closing(s, x))
    ensures var v := Run(s, w, Opening(x) + Closing(s, x));
            && Trusted(v, x) && v.log == w.log + Exchanged(s, x)
            && v.nodes.Keys == w.nodes.Keys && v.used == w.used + x.Drawn()
  {
    RunAppend(s, w, Opening(x), Closing(s, x));
    OpeningLeads(s, w, x);
    ClosingLeads(s, Run(s, w, Opening(x)), x);
  }

  // ---------------------------------------------------------------------
  // Such a run exists.

  function Fill(b: byte): Bytes32 {
    seq(32, _ => b)
  }

  function Fill64(b: byte): Bytes64 {
    seq(64, _ => b)
  }

  const EXAMPLE := Exchange(Fill(0), Fill(1), Sig, Fill(2), Fill(3), (Fill(4), Fill(5), Fill(6)), 0, 0, 0)

  const EXAMPLE_RESPONSE: seq<byte> := ResponseTranscript(EXAMPLE.b, EXAMPLE.a, EXAMPLE.nc)
  const EXAMPLE_ACK: seq<byte> := AckTranscript(EXAMPLE.a, EXAMPLE.b, EXAMPLE.ni, EXAMPLE.nc, Sig)

  /** A key that belongs to neither party. */
  const THIRD: Key := Fill(14)

  const THIRD_ACK: seq<byte> := AckTranscript(EXAMPLE.a, THIRD, EXAMPLE.ni, EXAMPLE.nc, Full)

  /** A signature of its own for either message of the exchange and for an ack by the
      third key, and one for all others. */
  function ExampleSign(k: Key, m: seq<byte>): Bytes64 {
    if k == EXAMPLE.a && m == EXAMPLE_RESPONSE then Fill64(7)
    else if k == EXAMPLE.b && m == EXAMPLE_ACK then Fill64(9)
    else if k == THIRD && m == THIRD_ACK then Fill64(13)
    else Fill64(8)
  }

  function ExampleSigning(): Signing {
    Signing((k: Key, m: seq<byte>, x: Bytes64) => x == ExampleSign(k, m), ExampleSign)
  }

  /** Nothing in a message is forged if the bytes of the signatures that were not made
      do not occur in it. */
  lemma UnforgedIf(w: World, m: Message)
    requires 8 !in m.payload && THIRD !in w.nodes
    requires 7 in m.payload ==> Produced(w.log, EXAMPLE.a, EXAMPLE_RESPONSE)
    requires 9 in m.payload ==> Produced(w.log, EXAMPLE.b, EXAMPLE_ACK)
    ensures Unforged(ExampleSigning(), w, m)
  {
    var s := ExampleSigning();
    forall i: nat, k: Key, t: seq<byte> | VerifiesAt(s, m, i, k, t) && k in w.nodes && InDomain(t)
      ensures Produced(w.log, k, t)
    {
      var x := m.payload[i..i + 64];
      assert x == ExampleSign(k, t) && m.payload[i] == x[0];
    }
  }

  predicate Unsigned(payload: seq<byte>) {
    forall b | b in payload :: !(7 <= b <= 9)
  }

  lemma HelloBytes(key: byte)
    requires key < 7
    ensures Unsigned(HelloMessage(Fill(key), Sig, EXAMPLE.ni).payload)
  {
    var x := EXAMPLE;
    var hello := HelloPayload(1, Fill(key), Sig, 0xFFFF_FFFF, x.ni);
    assert EncodeHello(hello) == BigEndian16(1) + (Fill(key) + ([TrustCode(Sig)] + (BigEndian32(0xFFFF_FFFF) + x.ni)));
    assert BigEndian16(1) == [0, 1];
    assert BigEndian32(0xFFFF_FFFF) == [255, 255, 255, 255];
  }

  lemma ChallengeBytes()
    ensures Unsigned(ChallengeMessage(EXAMPLE.b, EXAMPLE.Challenge()).payload)
  {
    var x := EXAMPLE;
    assert EncodeChallenge(x.Challenge()) == x.nc + (BigEndian64(0) + BigEndian32(30));
    assert BigEndian64(0) == [0, 0, 0, 0, 0, 0, 0, 0];
    assert BigEndian32(30) == [0, 0, 0, 30];
  }

  lemma SignedBytes()
    ensures var x := EXAMPLE;
            var s := ExampleSigning();
            && (forall b | b in ResponseMessage(s, x.a, x.b, x.nc).payload :: !(8 <= b <= 9))
            && (forall b | b in AckMessage(s, x.b, x.a, x.ni, x.nc, Sig).payload :: !(7 <= b <= 8))
  {
    var x := EXAMPLE;
    var s := ExampleSigning();
    assert s.sign(x.a, EXAMPLE_RESPONSE) == Fill64(7);
    assert EXAMPLE.a != EXAMPLE.b by {
      FillsDiffer(0, 1);
    }
    assert s.sign(x.b, EXAMPLE_ACK) == Fill64(9);
    assert EncodeResponse(ResponsePayload(x.nc, Fill64(7))) == x.nc + Fill64(7);
    assert EncodeAck(AckPayload(Sig, x.b, Fill64(9))) == [TrustCode(Sig)] + (x.b + Fill64(9));
  }

  lemma FillsDiffer(b: byte, c: byte)
    requires b != c
    ensures Fill(b) != Fill(c)
  {
    assert Fill(b)[0] != Fill(c)[0];
  }

  lemma Fresh()
    ensures EXAMPLE.ni != EXAMPLE.nc && EXAMPLE.spares.0 !in {EXAMPLE.ni, EXAMPLE.nc}
    ensures EXAMPLE.spares.1 !in {EXAMPLE.ni, EXAMPLE.nc, EXAMPLE.spares.0}
    ensures EXAMPLE.spares.2 !in {EXAMPLE.ni, EXAMPLE.nc, EXAMPLE.spares.0, EXAMPLE.spares.1}
  {
    assert forall b: byte, c: byte :: b != c ==> Fill(b) != Fill(c) by {
      forall b: byte, c: byte | b != c ensures Fill(b) != Fill(c) {
        FillsDiffer(b, c);
      }
    }
  }

  lemma ExampleOpens(honest: set<Key>)
    requires honest == {EXAMPLE.a, EXAMPLE.b}
    ensures AllEnabled(ExampleSigning(), Init(honest), Opening(EXAMPLE))
  {
    var s, x, w := ExampleSigning(), EXAMPLE, Init(honest);
    Fresh();
    HelloBytes(0);
    FillsDiffer(0, 14);
    FillsDiffer(1, 14);
    RunTwo(s, w, Opening(x)[0], Opening(x)[1]);
    UnforgedIf(Next(s, w, Opening(x)[0]), HelloMessage(x.a, x.trust, x.ni));
  }

  lemma ChallengeEnabled(w: World)
    requires Waiting(w, EXAMPLE) && w.used == {EXAMPLE.ni, EXAMPLE.nc} && THIRD !in w.nodes
    ensures Enabled(ExampleSigning(), w, Closing(ExampleSigning(), EXAMPLE)[0])
  {
    Fresh();
    ChallengeBytes();
    UnforgedIf(w, ChallengeMessage(EXAMPLE.b, EXAMPLE.Challenge()));
  }

  lemma ResponseEnabled(w: World)
    requires EXAMPLE.b in w.nodes && w.used == {EXAMPLE.ni, EXAMPLE.nc, EXAMPLE.spares.0}
    requires w.log == [Exchanged(ExampleSigning(), EXAMPLE)[0]] && THIRD !in w.nodes
    ensures Enabled(ExampleSigning(), w, Closing(ExampleSigning(), EXAMPLE)[1])
  {
    Fresh();
    SignedBytes();
    assert Signed(w.log[0]) == Some(EXAMPLE_RESPONSE);
    UnforgedIf(w, ResponseMessage(ExampleSigning(), EXAMPLE.a, EXAMPLE.b, EXAMPLE.nc));
  }

  lemma AckEnabled(w: World)
    requires EXAMPLE.a in w.nodes && w.used == {EXAMPLE.ni, EXAMPLE.nc, EXAMPLE.spares.0, EXAMPLE.spares.1}
    requires |w.log| == 2 && w.log[1] == Exchanged(ExampleSigning(), EXAMPLE)[1] && THIRD !in w.nodes
    ensures Enabled(ExampleSigning(), w, Closing(ExampleSigning(), EXAMPLE)[2])
  {
    Fresh();
    SignedBytes();
    assert Signed(w.log[1]) == Some(EXAMPLE_ACK);
    UnforgedIf(w, AckMessage(ExampleSigning(), EXAMPLE.b, EXAMPLE.a, EXAMPLE.ni, EXAMPLE.nc, Sig));
  }

  lemma ExampleCloses(s: Signing, x: Exchange, w: World)
    requires s == ExampleSigning() && x == EXAMPLE && Correct(s) && x.a != x.b
    requires Waiting(w, x) && w.used == {x.ni, x.nc} && w.log == [] && THIRD !in w.nodes
    ensures AllEnabled(s, w, Closing(s, x))
  {
    var steps := Closing(s, x);
    ChallengeEnabled(w);
    ChallengeStep(s, w, x);
    var v := Next(s, w, steps[0]);
    ResponseEnabled(v);
    ResponseStep(s, w, v, x);
    AckEnabled(Next(s, v, steps[1]));
    RunThree(s, w, steps[0], steps[1], steps[2]);
  }

  lemma ExampleRuns(s: Signing, x: Exchange, honest: set<Key>)
    requires s == ExampleSigning() && x == EXAMPLE && Correct(s) && x.a != x.b
    requires honest == {x.a, x.b} && THIRD !in honest && ChallengeValid(x.Challenge(), x.tc)
    ensures AllEnabled(s, Init(honest), Opening(x) + Closing(s, x))
  {
    ExampleOpens(honest);
    OpeningLeads(s, Init(honest), x);
    ExampleCloses(s, x, Run(s, Init(honest), Opening(x)));
    RunAppend(s, Init(honest), Opening(x), Closing(s, x));
  }

  /** From the empty world of two honest nodes: every step of an exchange is enabled,
      and it ends with a session on either side, so what agreement speaks of happens. */
  lemma ExchangeHappens(honest: set<Key>)
    requires honest == {EXAMPLE.a, EXAMPLE.b}
    ensures var s := ExampleSigning();
            var steps := Opening(EXAMPLE) + Closing(s, EXAMPLE);
            var v := Run(s, Init(honest), steps);
            && AllEnabled(s, Init(honest), steps)
            && Trusted(v, EXAMPLE) && v.log == Exchanged(s, EXAMPLE)
            && v.nodes.Keys == honest && v.used == EXAMPLE.Drawn()
  {
    var s := ExampleSigning();
    FillsDiffer(0, 1);
    FillsDiffer(0, 14);
    FillsDiffer(1, 14);
    ExampleRuns(s, EXAMPLE, honest);
    ExchangeSucceeds(s, Init(honest), EXAMPLE);
  }
}
