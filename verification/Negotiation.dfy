/** Trust negotiation: Hello, Challenge, Response, Ack. */
module Negotiation {
  import opened Prelude
  import opened Frame

  type Key = Bytes32
  type NodeId = Bytes32
  type Nonce = Bytes32
  type Seconds = nat

  // ---------------------------------------------------------------------
  // Payloads.

  datatype HelloPayload = HelloPayload(
    version: u16,
    publicKey: Key,
    requestedTrust: TrustLevel,
    capabilities: u32,
    initiatorNonce: Nonce)

  datatype ChallengePayload = ChallengePayload(nonce: Nonce, timestamp: u64, expirySecs: u32)

  datatype ResponsePayload = ResponsePayload(nonce: Nonce, signature: Bytes64)

  datatype AckPayload = AckPayload(trustLevel: TrustLevel, publicKey: Key, signature: Bytes64)

  function EncodeHello(p: HelloPayload): (r: seq<byte>)
    ensures |r| == 71
  {
    BigEndian16(p.version)
    + (p.publicKey + ([TrustCode(p.requestedTrust)] + (BigEndian32(p.capabilities) + p.initiatorNonce)))
  }

  function DecodeHello(s: seq<byte>): Option<HelloPayload> {
    if |s| < 71 || s[34] > 3 then None
    else Some(HelloPayload(FromBigEndian16(s[0..2]), s[2..34], TrustOf(s[34]), FromBigEndian32(s[35..39]), s[39..71]))
  }

  function EncodeChallenge(p: ChallengePayload): (r: seq<byte>)
    ensures |r| == 44
  {
    p.nonce + (BigEndian64(p.timestamp) + BigEndian32(p.expirySecs))
  }

  function DecodeChallenge(s: seq<byte>): Option<ChallengePayload> {
    if |s| < 44 then None
    else Some(ChallengePayload(s[0..32], FromBigEndian64(s[32..40]), FromBigEndian32(s[40..44])))
  }

  function EncodeResponse(p: ResponsePayload): (r: seq<byte>)
    ensures |r| == 96
  {
    p.nonce + p.signature
  }

  function DecodeResponse(s: seq<byte>): Option<ResponsePayload> {
    if |s| < 96 then None else Some(ResponsePayload(s[0..32], s[32..96]))
  }

  function EncodeAck(p: AckPayload): (r: seq<byte>)
    ensures |r| == 97
  {
    [TrustCode(p.trustLevel)] + (p.publicKey + p.signature)
  }

  /** Any byte above 2 names the lowest level. */
  function DecodeAck(s: seq<byte>): Option<AckPayload> {
    if |s| < 97 then None
    else Some(AckPayload(if s[0] < 3 then TrustOf(s[0]) else Raw, s[1..33], s[33..97]))
  }

  lemma HelloRoundTrip(p: HelloPayload, rest: seq<byte>)
    ensures DecodeHello(EncodeHello(p) + rest) == Some(p)
  {
    var s := EncodeHello(p) + rest;
    assert s[0..2] == BigEndian16(p.version) && s[2..34] == p.publicKey && s[34] == TrustCode(p.requestedTrust);
    assert s[35..39] == BigEndian32(p.capabilities) && s[39..71] == p.initiatorNonce;
  }

  lemma ChallengeRoundTrip(p: ChallengePayload, rest: seq<byte>)
    ensures DecodeChallenge(EncodeChallenge(p) + rest) == Some(p)
  {
    var s := EncodeChallenge(p) + rest;
    assert s[0..32] == p.nonce && s[32..40] == BigEndian64(p.timestamp) && s[40..44] == BigEndian32(p.expirySecs);
  }

  lemma ResponseRoundTrip(p: ResponsePayload, rest: seq<byte>)
    ensures DecodeResponse(EncodeResponse(p) + rest) == Some(p)
  {
    var s := EncodeResponse(p) + rest;
    assert s[0..32] == p.nonce && s[32..96] == p.signature;
  }

  lemma AckRoundTrip(p: AckPayload, rest: seq<byte>)
    ensures DecodeAck(EncodeAck(p) + rest) == Some(p)
  {
    var s := EncodeAck(p) + rest;
    assert s[1..33] == p.publicKey && s[33..97] == p.signature;
  }

  // ---------------------------------------------------------------------
  // Transcripts.

  /** "AXIOM/negotiate-response/v1" */
  function ResponseDomain(): (d: seq<byte>)
    ensures |d| == 27
  {
    [65, 88, 73, 79, 77, 47, 110, 101, 103, 111, 116, 105, 97, 116, 101, 45]
    + [114, 101, 115, 112, 111, 110, 115, 101, 47, 118, 49]
  }

  /** "AXIOM/negotiate-ack/v1" */
  function AckDomain(): (d: seq<byte>)
    ensures |d| == 22
  {
    [65, 88, 73, 79, 77, 47, 110, 101, 103, 111, 116, 105, 97, 116, 101, 45] + [97, 99, 107, 47, 118, 49]
  }

  function ResponseTranscript(challenger: NodeId, responder: NodeId, nonce: Nonce): (r: seq<byte>)
    ensures |r| == 123
  {
    ResponseDomain() + (challenger + (responder + nonce))
  }

  function AckTranscript(initiator: Key, responder: Key, initiatorNonce: Nonce, challengeNonce: Nonce,
                         level: TrustLevel): (r: seq<byte>)
    ensures |r| == 151
  {
    AckDomain() + (initiator + (responder + (initiatorNonce + (challengeNonce + [TrustCode(level)]))))
  }

  lemma ResponseTranscriptBinds(c: NodeId, r: NodeId, n: Nonce, d: NodeId, s: NodeId, m: Nonce)
    requires ResponseTranscript(c, r, n) == ResponseTranscript(d, s, m)
    ensures c == d && r == s && n == m
  {
    Cut(ResponseDomain(), ResponseDomain(), c + (r + n), d + (s + m));
    Cut(c, d, r + n, s + m);
    Cut(r, s, n, m);
  }

  lemma AckTranscriptBinds(i: Key, r: Key, ni: Nonce, nc: Nonce, l: TrustLevel, j: Key, s: Key, mi: Nonce, mc: Nonce,
                           k: TrustLevel)
    requires AckTranscript(i, r, ni, nc, l) == AckTranscript(j, s, mi, mc, k)
    ensures i == j && r == s && ni == mi && nc == mc && l == k
  {
    Cut(AckDomain(), AckDomain(), i + (r + (ni + (nc + [TrustCode(l)]))), j + (s + (mi + (mc + [TrustCode(k)]))));
    Cut(i, j, r + (ni + (nc + [TrustCode(l)])), s + (mi + (mc + [TrustCode(k)])));
    Cut(r, s, ni + (nc + [TrustCode(l)]), mi + (mc + [TrustCode(k)]));
    Cut(ni, mi, nc + [TrustCode(l)], mc + [TrustCode(k)]);
    Cut(nc, mc, [TrustCode(l)], [TrustCode(k)]);
    assert [TrustCode(l)][0] == [TrustCode(k)][0];
  }

  // ---------------------------------------------------------------------
  // One node.

  /** Ed25519; a key that is not on the curve verifies nothing. */
  datatype Signing = Signing(verify: (Key, seq<byte>, Bytes64) -> bool, sign: (Key, seq<byte>) -> Bytes64)

  datatype State = Initial | ChallengeSent | ChallengeReceived | ResponseSent | Established | Failed

  datatype Context = Context(
    state: State,
    peerId: Option<NodeId>,
    peerPublicKey: Option<Key>,
    pendingChallenge: Option<ChallengePayload>,
    receivedChallenge: Option<ChallengePayload>,
    initiatorNonce: Option<Nonce>,
    startedAt: Seconds)

  datatype Session = Session(peerId: NodeId, peerPublicKey: Key, trustLevel: TrustLevel, establishedAt: Seconds,
                             expiresIn: Seconds)

  datatype Node = Node(negotiations: map<NodeId, Context>, sessions: map<NodeId, Session>)

  datatype Message = Message(senderId: NodeId, trustLevel: TrustLevel, payload: seq<byte>)

  datatype NegotiationError = VersionMismatch | InvalidSignature | ChallengeExpired | Internal

  const NEGOTIATION_TIMEOUT: Seconds := 30
  const SESSION_DURATION: Seconds := 3600
  const CHALLENGE_EXPIRY: u32 := 30

  const HELLO: byte := 1
  const CHALLENGE: byte := 2
  const RESPONSE: byte := 3
  const ACK: byte := 4

  /** What a node did that others rely on. */
  datatype Event =
    | Responded(who: Key, challenger: NodeId, nonce: Nonce)
    | Acked(who: Key, initiator: Key, initiatorNonce: Nonce, challengeNonce: Nonce, level: TrustLevel,
            responder: NodeId, response: Bytes64)
    | Installed(who: Key, peerKey: Key, initiatorNonce: Nonce, challengeNonce: Nonce, level: TrustLevel,
                initiated: bool)

  datatype Output = Output(node: Node, result: Result<Option<Message>, NegotiationError>, event: Option<Event>)

  function NewContext(now: Seconds): Context {
    Context(Initial, None, None, None, None, None, now)
  }

  function HelloMessage(self: Key, trust: TrustLevel, nonce: Nonce): Message {
    Message(self, Full, [HELLO] + EncodeHello(HelloPayload(1, self, trust, 0xFFFF_FFFF, nonce)))
  }

  /** Opening a negotiation: the new context replaces any other with that peer. */
  function StartNode(n: Node, peer: NodeId, nonce: Nonce, now: Seconds): Node {
    n.(negotiations := n.negotiations[peer := NewContext(now).(initiatorNonce := Some(nonce))])
  }

  /** The sum wraps at 64 bits. */
  predicate ChallengeValid(c: ChallengePayload, timestamp: u64) {
    timestamp <= (c.timestamp as int + c.expirySecs as int) % 0x1_0000_0000_0000_0000
  }

  /** A context opened by `StartNode`, not by an incoming Hello. */
  predicate Initiated(c: Context) {
    c.pendingChallenge.None?
  }

  function OnHello(self: Key, n: Node, from: NodeId, h: HelloPayload, timestamp: u64, nonce: Nonce,
                   now: Seconds): Output {
    if h.version != 1 then Output(n, Err(VersionMismatch), None)
    else
      var challenge := ChallengePayload(nonce, timestamp, CHALLENGE_EXPIRY);
      var ctx := Context(ChallengeSent, Some(h.publicKey), Some(h.publicKey), Some(challenge), None,
                         Some(h.initiatorNonce), now);
      Output(n.(negotiations := n.negotiations[from := ctx]),
             Ok(Some(Message(self, Full, [CHALLENGE] + EncodeChallenge(challenge)))), None)
  }

  function OnChallenge(s: Signing, self: Key, n: Node, from: NodeId, c: ChallengePayload, timestamp: u64): Output {
    if !ChallengeValid(c, timestamp) then Output(n, Err(ChallengeExpired), None)
    else if from !in n.negotiations then Output(n, Err(Internal), None)
    else
      var ctx := n.negotiations[from].(receivedChallenge := Some(c), peerId := Some(from), state := ResponseSent);
      var signature := s.sign(self, ResponseTranscript(from, self, c.nonce));
      Output(n.(negotiations := n.negotiations[from := ctx]),
             Ok(Some(Message(self, Full, [RESPONSE] + EncodeResponse(ResponsePayload(c.nonce, signature))))),
             Some(Responded(self, from, c.nonce)))
  }

  function VerifyResponse(s: Signing, self: Key, ctx: Context, r: ResponsePayload): Option<NegotiationError> {
    if ctx.pendingChallenge.None? then Some(Internal)
    else if r.nonce != ctx.pendingChallenge.value.nonce then Some(InvalidSignature)
    else if ctx.peerPublicKey.None? || ctx.peerId.None? then Some(Internal)
    else if !s.verify(ctx.peerPublicKey.value, ResponseTranscript(self, ctx.peerId.value, r.nonce), r.signature)
    then Some(InvalidSignature)
    else None
  }

  function AckMessage(s: Signing, self: Key, initiator: Key, ni: Nonce, nc: Nonce, level: TrustLevel): Message {
    var signature := s.sign(self, AckTranscript(initiator, self, ni, nc, level));
    Message(self, level, [ACK] + EncodeAck(AckPayload(level, self, signature)))
  }

  function SessionOf(ctx: Context, level: TrustLevel, now: Seconds): Option<Session> {
    if ctx.state != Established || ctx.peerId.None? || ctx.peerPublicKey.None? then None
    else Some(Session(ctx.peerId.value, ctx.peerPublicKey.value, level, now, SESSION_DURATION))
  }

  function WithSession(n: Node, from: NodeId, session: Option<Session>): Node {
    Node(n.negotiations - {from}, if session.Some? then n.sessions[from := session.value] else n.sessions)
  }

  function OnResponse(s: Signing, self: Key, n: Node, from: NodeId, r: ResponsePayload, now: Seconds): Output {
    if from !in n.negotiations then Output(n, Err(Internal), None)
    else
      var ctx := n.negotiations[from];
      var error := VerifyResponse(s, self, ctx, r);
      if error.Some? then Output(n, Err(error.value), None)
      else
        var done := ctx.(state := Established);
        if ctx.initiatorNonce.None? then Output(n.(negotiations := n.negotiations[from := done]), Err(Internal), None)
        else
          Output(WithSession(n, from, SessionOf(done, Sig, now)),
                 Ok(Some(AckMessage(s, self, ctx.peerPublicKey.value, ctx.initiatorNonce.value, r.nonce, Sig))),
                 Some(Acked(self, ctx.peerPublicKey.value, ctx.initiatorNonce.value, r.nonce, Sig, ctx.peerId.value,
                            r.signature)))
  }

  predicate AckVerified(s: Signing, self: Key, ctx: Context, a: AckPayload) {
    && ctx.initiatorNonce.Some?
    && ctx.receivedChallenge.Some?
    && s.verify(a.publicKey,
                AckTranscript(self, a.publicKey, ctx.initiatorNonce.value, ctx.receivedChallenge.value.nonce,
                              a.trustLevel),
                a.signature)
  }

  function OnAck(s: Signing, self: Key, n: Node, from: NodeId, a: AckPayload, now: Seconds): Output {
    if from !in n.negotiations then Output(n, Ok(None), None)
    else
      var ctx := n.negotiations[from];
      if !AckVerified(s, self, ctx, a) then Output(n.(negotiations := n.negotiations - {from}), Ok(None), None)
      else
        var done := ctx.(peerPublicKey := Some(a.publicKey), peerId := Some(from), state := Established);
        Output(WithSession(n, from, SessionOf(done, a.trustLevel, now)), Ok(None),
               Some(Installed(self, a.publicKey, ctx.initiatorNonce.value, ctx.receivedChallenge.value.nonce,
                              a.trustLevel, Initiated(ctx))))
  }

  /** One incoming frame. `nonce` is the randomness a challenge would draw. */
  function Process(s: Signing, self: Key, n: Node, m: Message, timestamp: u64, nonce: Nonce, now: Seconds): Output {
    if m.payload == [] then Output(n, Err(Internal), None)
    else
      var kind, data := m.payload[0], m.payload[1..];
      if kind == HELLO then
        var h := DecodeHello(data);
        if h.None? then Output(n, Err(Internal), None)
        else OnHello(self, n, m.senderId, h.value, timestamp, nonce, now)
      else if kind == CHALLENGE then
        var c := DecodeChallenge(data);
        if c.None? then Output(n, Err(Internal), None)
        else OnChallenge(s, self, n, m.senderId, c.value, timestamp)
      else if kind == RESPONSE then
        var r := DecodeResponse(data);
        if r.None? then Output(n, Err(Internal), None)
        else OnResponse(s, self, n, m.senderId, r.value, now)
      else if kind == ACK then
        var a := DecodeAck(data);
        if a.None? then Output(n, Ok(None), None)
        else OnAck(s, self, n, m.senderId, a.value, now)
      else if 5 <= kind <= 8 then Output(n, Ok(None), None)
      else Output(n, Err(Internal), None)
  }

  // ---------------------------------------------------------------------
  // What each message does, branch by branch.

  /** The reply to an opened frame is an error, and nothing else has happened. */
  predicate Refused(n: Node, out: Output, e: NegotiationError) {
    out == Output(n, Err(e), None)
  }

  /** A Hello is refused exactly for its version; otherwise it is challenged with the
      drawn nonce, for thirty seconds, and the sender's context waits for the answer. */
  lemma HelloExact(s: Signing, self: Key, n: Node, m: Message, timestamp: u64, nonce: Nonce, now: Seconds)
    requires m.payload != [] && m.payload[0] == 1
    ensures var out := Process(s, self, n, m, timestamp, nonce, now);
            var h := DecodeHello(m.payload[1..]);
            if h.None? then Refused(n, out, Internal)
            else if h.value.version != 1 then Refused(n, out, VersionMismatch)
            else
              && out.event == None && out.result.Ok? && out.result.value.Some?
              && out.result.value.value.senderId == self && out.result.value.value.payload != []
              && out.result.value.value.payload[0] == 2
              && DecodeChallenge(out.result.value.value.payload[1..]) == Some(ChallengePayload(nonce, timestamp, 30))
              && out.node.sessions == n.sessions
              && out.node.negotiations == n.negotiations[m.senderId :=
                   Context(ChallengeSent, Some(h.value.publicKey), Some(h.value.publicKey),
                           Some(ChallengePayload(nonce, timestamp, 30)), None, Some(h.value.initiatorNonce), now)]
  {
    var c := ChallengePayload(nonce, timestamp, 30);
    ChallengeRoundTrip(c, []);
    assert ([CHALLENGE] + EncodeChallenge(c))[1..] == EncodeChallenge(c) + [];
  }

  /** A challenge is refused as expired exactly when the clock is past its timestamp plus
      its expiry, a sum of 64 bits; one in time is answered in an open context only, with a
      signature on challenger, own key and the challenge's nonce. */
  lemma ChallengeExact(s: Signing, self: Key, n: Node, m: Message, timestamp: u64, nonce: Nonce, now: Seconds)
    requires m.payload != [] && m.payload[0] == 2
    ensures var out := Process(s, self, n, m, timestamp, nonce, now);
            var c := DecodeChallenge(m.payload[1..]);
            if c.None? then Refused(n, out, Internal)
            else
              && (Refused(n, out, ChallengeExpired) <==>
                    timestamp > (c.value.timestamp as int + c.value.expirySecs as int) % 0x1_0000_0000_0000_0000)
              && (!Refused(n, out, ChallengeExpired) ==>
                    if m.senderId !in n.negotiations then Refused(n, out, Internal)
                    else
                      && out.event == Some(Responded(self, m.senderId, c.value.nonce))
                      && out.result.Ok? && out.result.value.Some? && out.result.value.value.senderId == self
                      && out.result.value.value.payload != [] && out.result.value.value.payload[0] == 3
                      && DecodeResponse(out.result.value.value.payload[1..])
                           == Some(ResponsePayload(c.value.nonce,
                                                   s.sign(self, ResponseTranscript(m.senderId, self, c.value.nonce))))
                      && out.node.sessions == n.sessions
                      && out.node.negotiations == n.negotiations[m.senderId :=
                           n.negotiations[m.senderId].(receivedChallenge := c, peerId := Some(m.senderId),
                                                       state := ResponseSent)])
  {
    var c := DecodeChallenge(m.payload[1..]);
    if c.Some? {
      var r := ResponsePayload(c.value.nonce, s.sign(self, ResponseTranscript(m.senderId, self, c.value.nonce)));
      ResponseRoundTrip(r, []);
      assert ([RESPONSE] + EncodeResponse(r))[1..] == EncodeResponse(r) + [];
    }
  }

  /** The context waits for an answer with this nonce, and the signature is its peer's on
      the own key, the peer and that nonce. */
  predicate Answers(s: Signing, self: Key, ctx: Context, r: ResponsePayload) {
    && ctx.pendingChallenge.Some? && ctx.pendingChallenge.value.nonce == r.nonce
    && ctx.peerPublicKey.Some? && ctx.peerId.Some?
    && s.verify(ctx.peerPublicKey.value, ResponseTranscript(self, ctx.peerId.value, r.nonce), r.signature)
  }

  /** A response installs a session at the Sig level and is acked exactly when it answers
      the sender's context and that has the initiator's nonce; a wrong nonce or signature
      is reported as such, and anything missing as an internal error. */
  lemma ResponseExact(s: Signing, self: Key, n: Node, m: Message, timestamp: u64, nonce: Nonce, now: Seconds)
    requires m.payload != [] && m.payload[0] == 3
    ensures var out := Process(s, self, n, m, timestamp, nonce, now);
            var r := DecodeResponse(m.payload[1..]);
            if r.None? || m.senderId !in n.negotiations then Refused(n, out, Internal)
            else
              var ctx := n.negotiations[m.senderId];
              if !Answers(s, self, ctx, r.value) then
                Refused(n, out, if ctx.pendingChallenge.None? then Internal
                                else if ctx.pendingChallenge.value.nonce != r.value.nonce then InvalidSignature
                                else if ctx.peerPublicKey.None? || ctx.peerId.None? then Internal
                                else InvalidSignature)
              else if ctx.initiatorNonce.None? then
                out == Output(n.(negotiations := n.negotiations[m.senderId := ctx.(state := Established)]),
                              Err(Internal), None)
              else
                && out.node == Node(n.negotiations - {m.senderId},
                     n.sessions[m.senderId := Session(ctx.peerId.value, ctx.peerPublicKey.value, Sig, now, 3600)])
                && out.result == Ok(Some(AckMessage(s, self, ctx.peerPublicKey.value, ctx.initiatorNonce.value,
                                                    r.value.nonce, Sig)))
                && out.event == Some(Acked(self, ctx.peerPublicKey.value, ctx.initiatorNonce.value, r.value.nonce, Sig,
                                           ctx.peerId.value, r.value.signature))
  {
  }

  /** What an ack says, and with which signature: on both keys, both nonces and the level. */
  lemma AckSays(s: Signing, self: Key, initiator: Key, ni: Nonce, nc: Nonce, level: TrustLevel)
    ensures var m := AckMessage(s, self, initiator, ni, nc, level);
            && m.senderId == self && m.payload != [] && m.payload[0] == 4
            && DecodeAck(m.payload[1..])
                 == Some(AckPayload(level, self, s.sign(self, AckTranscript(initiator, self, ni, nc, level))))
  {
    var a := AckPayload(level, self, s.sign(self, AckTranscript(initiator, self, ni, nc, level)));
    AckRoundTrip(a, []);
    assert ([ACK] + EncodeAck(a))[1..] == EncodeAck(a) + [];
  }

  /** An ack always closes the sender's context; it installs a session on the key and at
      the level it claims exactly when that context has a nonce of the own Hello and a
      challenge that was answered, and the claimed key signed both, both keys and the level. */
  lemma AckExact(s: Signing, self: Key, n: Node, m: Message, timestamp: u64, nonce: Nonce, now: Seconds)
    requires m.payload != [] && m.payload[0] == 4
    ensures var out := Process(s, self, n, m, timestamp, nonce, now);
            var a := DecodeAck(m.payload[1..]);
            && out.result == Ok(None)
            && if a.None? || m.senderId !in n.negotiations then out.node == n && out.event == None
               else
                 var ctx := n.negotiations[m.senderId];
                 && out.node.negotiations == n.negotiations - {m.senderId}
                 && if && ctx.initiatorNonce.Some? && ctx.receivedChallenge.Some?
                       && s.verify(a.value.publicKey,
                                   AckTranscript(self, a.value.publicKey, ctx.initiatorNonce.value,
                                                 ctx.receivedChallenge.value.nonce, a.value.trustLevel),
                                   a.value.signature)
                    then
                      && out.node.sessions == n.sessions[m.senderId :=
                           Session(m.senderId, a.value.publicKey, a.value.trustLevel, now, 3600)]
                      && out.event == Some(Installed(self, a.value.publicKey, ctx.initiatorNonce.value,
                                                     ctx.receivedChallenge.value.nonce, a.value.trustLevel,
                                                     ctx.pendingChallenge.None?))
                    else out.node.sessions == n.sessions && out.event == None
  {
  }

  /** Every other frame is an error, except that types five to eight are ignored. */
  lemma OtherFramesExact(s: Signing, self: Key, n: Node, m: Message, timestamp: u64, nonce: Nonce, now: Seconds)
    requires m.payload == [] || !(1 <= m.payload[0] <= 4)
    ensures var out := Process(s, self, n, m, timestamp, nonce, now);
            if m.payload != [] && 5 <= m.payload[0] <= 8 then out == Output(n, Ok(None), None)
            else Refused(n, out, Internal)
  {
  }

  // ---------------------------------------------------------------------
  // Ageing.

  predicate TimedOut(c: Context, now: Seconds) {
    SatSub(now, c.startedAt) > NEGOTIATION_TIMEOUT
  }

  predicate SessionValid(s: Session, now: Seconds) {
    SatSub(now, s.establishedAt) < s.expiresIn
  }

  function Cleaned(n: Node, now: Seconds): Node {
    Node(map p | p in n.negotiations && !TimedOut(n.negotiations[p], now) :: n.negotiations[p],
         map p | p in n.sessions && SessionValid(n.sessions[p], now) :: n.sessions[p])
  }

  /** What cleaning up keeps: contexts up to thirty seconds after they were opened, and
      sessions until they expire. */
  lemma CleanupExact(n: Node, now: Seconds, p: NodeId)
    ensures var v := Cleaned(n, now);
            && (p in v.negotiations <==> p in n.negotiations && now <= n.negotiations[p].startedAt + 30)
            && (p in v.negotiations ==> v.negotiations[p] == n.negotiations[p])
            && (p in v.sessions <==>
                  p in n.sessions && n.sessions[p].expiresIn > 0
                  && now < n.sessions[p].establishedAt + n.sessions[p].expiresIn)
            && (p in v.sessions ==> v.sessions[p] == n.sessions[p])
  {
  }

  /** The session a peer is known by at `now`. */
  function FoundSession(n: Node, p: NodeId, now: Seconds): Option<Session> {
    if p in n.sessions && SessionValid(n.sessions[p], now) then Some(n.sessions[p]) else None
  }

  /** Cleaning up changes no answer about sessions, neither now nor at any later time. */
  lemma CleanupIsInvisible(n: Node, p: NodeId, now: Seconds, later: Seconds)
    requires now <= later
    ensures FoundSession(Cleaned(n, now), p, later) == FoundSession(n, p, later)
  {
    if p in n.sessions {
      var s := n.sessions[p];
      assert SatSub(now, s.establishedAt) <= SatSub(later, s.establishedAt);
      assert SessionValid(s, later) ==> SessionValid(s, now);
    }
  }

  /** The key that a message would install a session with: an Ack states it, a Response
      has that of the Hello before it. */
  function NamedKey(n: Node, m: Message): Option<Key> {
    if m.payload == [] then None
    else if m.payload[0] == ACK then
      var a := DecodeAck(m.payload[1..]);
      if a.Some? then Some(a.value.publicKey) else None
    else if m.payload[0] == RESPONSE && m.senderId in n.negotiations then n.negotiations[m.senderId].peerPublicKey
    else None
  }

  /** Wherever a message installs a session, that is filed under the sender the frame
      names, so it is filed under the key it carries exactly when the message names the
      sender's key; no other session changes. */
  lemma FiledUnderSender(s: Signing, self: Key, n: Node, m: Message, timestamp: u64, nonce: Nonce, now: Seconds)
    requires var e := Process(s, self, n, m, timestamp, nonce, now).event;
             e.Some? && !e.value.Responded?
    ensures var out := Process(s, self, n, m, timestamp, nonce, now);
            && m.senderId in out.node.sessions
            && (out.node.sessions[m.senderId].peerPublicKey == m.senderId <==> NamedKey(n, m) == Some(m.senderId))
            && forall p :: p != m.senderId ==> (p in out.node.sessions <==> p in n.sessions)
                                               && (p in n.sessions ==> out.node.sessions[p] == n.sessions[p])
  {
  }

  /** A Hello and the Response to its challenge, both under one sender: the session is
      filed under that sender with the key of the Hello, whatever that is. */
  lemma BoundIffSenderIsKey(s: Signing, self: Key, n: Node, from: NodeId, h: HelloPayload, t: u64, nc: Nonce,
                            sig: Bytes64, now: Seconds)
    requires h.version == 1 && s.verify(h.publicKey, ResponseTranscript(self, h.publicKey, nc), sig)
    ensures var n1 := OnHello(self, n, from, h, t, nc, now).node;
            var n2 := OnResponse(s, self, n1, from, ResponsePayload(nc, sig), now).node;
            && from in n2.sessions
            && n2.sessions[from] == Session(h.publicKey, h.publicKey, Sig, now, SESSION_DURATION)
            && (n2.sessions[from].peerPublicKey == from <==> h.publicKey == from)
  {
    var n1 := OnHello(self, n, from, h, t, nc, now).node;
    assert VerifyResponse(s, self, n1.negotiations[from], ResponsePayload(nc, sig)).None?;
  }

  /** An Ack that verifies: the session is filed under the key it carries exactly when
      the sender of the frame is the key the Ack claims. */
  lemma AckBoundIffSenderIsKey(s: Signing, self: Key, n: Node, from: NodeId, a: AckPayload, now: Seconds)
    requires from in n.negotiations && AckVerified(s, self, n.negotiations[from], a)
    ensures var v := OnAck(s, self, n, from, a, now).node;
            && from in v.sessions && v.sessions[from] == Session(from, a.publicKey, a.trustLevel, now, SESSION_DURATION)
            && (v.sessions[from].peerPublicKey == from <==> a.publicKey == from)
  {
  }

  class TrustNegotiator {
    const signing: Signing
    const self: Key
    var node: Node

    constructor (signing: Signing, self: Key)
      ensures this.signing == signing && this.self == self && node == Node(map[], map[])
    {
      this.signing := signing;
      this.self := self;
      node := Node(map[], map[]);
    }

    method StartNegotiation(peer: NodeId, trust: TrustLevel, nonce: Nonce, now: Seconds) returns (hello: Message)
      modifies this
      ensures node == StartNode(old(node), peer, nonce, now)
      ensures hello.senderId == self && hello.payload != [] && hello.payload[0] == HELLO
      ensures DecodeHello(hello.payload[1..]) == Some(HelloPayload(1, self, trust, 0xFFFF_FFFF, nonce))
    {
      var ctx := NewContext(now).(initiatorNonce := Some(nonce));
      var payload := HelloPayload(1, self, trust, 0xFFFF_FFFF, nonce);
      hello := Message(self, Full, [HELLO] + EncodeHello(payload));
      HelloRoundTrip(payload, []);
      assert hello.payload[1..] == EncodeHello(payload) + [];
      node := node.(negotiations := node.negotiations[peer := ctx]);
    }

    method ProcessFrame(m: Message, timestamp: u64, nonce: Nonce, now: Seconds)
      returns (r: Result<Option<Message>, NegotiationError>)
      modifies this
      ensures var out := Process(signing, self, old(node), m, timestamp, nonce, now);
              r == out.result && node == out.node
    {
      if m.payload == [] {
        return Err(Internal);
      }
      var kind, data, from := m.payload[0], m.payload[1..], m.senderId;
      if kind == HELLO {
        var hello := DecodeHello(data);
        if hello.None? {
          return Err(Internal);
        }
        if hello.value.version != 1 {
          return Err(VersionMismatch);
        }
        var challenge := ChallengePayload(nonce, timestamp, CHALLENGE_EXPIRY);
        var key := Some(hello.value.publicKey);
        var ctx := NewContext(now).(peerPublicKey := key, peerId := key,
                                    initiatorNonce := Some(hello.value.initiatorNonce));
        ctx := ctx.(pendingChallenge := Some(challenge), state := ChallengeSent);
        node := node.(negotiations := node.negotiations[from := ctx]);
        return Ok(Some(Message(self, Full, [CHALLENGE] + EncodeChallenge(challenge))));
      } else if kind == CHALLENGE {
        var challenge := DecodeChallenge(data);
        if challenge.None? {
          return Err(Internal);
        }
        if !ChallengeValid(challenge.value, timestamp) {
          return Err(ChallengeExpired);
        }
        if from !in node.negotiations {
          return Err(Internal);
        }
        var ctx := node.negotiations[from].(receivedChallenge := challenge, peerId := Some(from));
        var signature := signing.sign(self, ResponseTranscript(from, self, challenge.value.nonce));
        ctx := ctx.(state := ResponseSent);
        node := node.(negotiations := node.negotiations[from := ctx]);
        var response := ResponsePayload(challenge.value.nonce, signature);
        return Ok(Some(Message(self, Full, [RESPONSE] + EncodeResponse(response))));
      } else if kind == RESPONSE {
        r := AnswerResponse(from, data, now);
      } else if kind == ACK {
        InstallAck(from, data, now);
        return Ok(None);
      } else if 5 <= kind <= 8 {
        return Ok(None);
      } else {
        return Err(Internal);
      }
    }

    method AnswerResponse(from: NodeId, data: seq<byte>, now: Seconds)
      returns (r: Result<Option<Message>, NegotiationError>)
      modifies this
      ensures var p := DecodeResponse(data);
              if p.None? then r == Err(Internal) && node == old(node)
              else var out := OnResponse(signing, self, old(node), from, p.value, now);
                   r == out.result && node == out.node
    {
      var response := DecodeResponse(data);
      if response.None? || from !in node.negotiations {
        return Err(Internal);
      }
      var ctx := node.negotiations[from];
      var error := VerifyResponse(signing, self, ctx, response.value);
      if error.Some? {
        return Err(error.value);
      }
      ctx := ctx.(state := Established);
      node := node.(negotiations := node.negotiations[from := ctx]);
      if ctx.initiatorNonce.None? {
        return Err(Internal);
      }
      var ack := AckMessage(signing, self, ctx.peerPublicKey.value, ctx.initiatorNonce.value,
                            ctx.pendingChallenge.value.nonce, Sig);
      var session := SessionOf(ctx, Sig, now);
      if session.Some? {
        node := node.(sessions := node.sessions[from := session.value]);
      }
      node := node.(negotiations := node.negotiations - {from});
      assert node.negotiations == old(node).negotiations - {from};
      return Ok(Some(ack));
    }

    method InstallAck(from: NodeId, data: seq<byte>, now: Seconds)
      modifies this
      ensures var p := DecodeAck(data);
              if p.None? then node == old(node)
              else node == OnAck(signing, self, old(node), from, p.value, now).node
    {
      var ack := DecodeAck(data);
      if ack.None? || from !in node.negotiations {
        return;
      }
      var ctx := node.negotiations[from];
      node := node.(negotiations := node.negotiations - {from});
      if AckVerified(signing, self, ctx, ack.value) {
        ctx := ctx.(peerPublicKey := Some(ack.value.publicKey), peerId := Some(from), state := Established);
        var session := SessionOf(ctx, ack.value.trustLevel, now);
        if session.Some? {
          node := node.(sessions := node.sessions[from := session.value]);
        }
      }
    }

    method Cleanup(now: Seconds)
      modifies this
      ensures node == Cleaned(old(node), now)
    {
      node := Node(map p | p in node.negotiations && !TimedOut(node.negotiations[p], now) :: node.negotiations[p],
                   map p | p in node.sessions && SessionValid(node.sessions[p], now) :: node.sessions[p]);
    }
  }
}
