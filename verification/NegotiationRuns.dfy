/** Trust negotiation between any number of honest nodes over a network that
    delivers whatever it likes. Two assumptions of the surroundings are steps'
    guards: a signature that verifies under an honest key was made by that node,
    and nonces are not drawn twice. */
module NegotiationRuns {
  import opened Prelude
  import opened Frame
  import opened Negotiation

  /** The honest nodes, by key; what they have done, in order; the nonces drawn. */
  datatype World = World(nodes: map<Key, Node>, used: set<Nonce>, log: seq<Event>)

  datatype Step =
    | Start(who: Key, peer: NodeId, nonce: Nonce, now: Seconds)
    | Deliver(who: Key, message: Message, timestamp: u64, nonce: Nonce, now: Seconds)
    | Cleanup(who: Key, now: Seconds)

  function Init(honest: set<Key>): World {
    World(map k | k in honest :: Node(map[], map[]), {}, [])
  }

  /** What was signed in doing this. */
  function Signed(e: Event): Option<seq<byte>> {
    match e
    case Responded(who, challenger, nonce) => Some(ResponseTranscript(challenger, who, nonce))
    case Acked(who, initiator, ni, nc, level, _, _) => Some(AckTranscript(initiator, who, ni, nc, level))
    case Installed(_, _, _, _, _, _) => None
  }

  ghost predicate Produced(log: seq<Event>, who: Key, m: seq<byte>) {
    exists j :: 0 <= j < |log| && log[j].who == who && Signed(log[j]) == Some(m)
  }

  /** The 64 bytes of `m` at `i` are a signature by `k` on `t`. */
  predicate VerifiesAt(s: Signing, m: Message, i: nat, k: Key, t: seq<byte>) {
    i + 64 <= |m.payload| && s.verify(k, t, m.payload[i..i + 64])
  }

  /** `t` is meant for this protocol, by the domain it starts with. */
  predicate InDomain(t: seq<byte>) {
    ResponseDomain() <= t || AckDomain() <= t
  }

  /** Nothing in the message passes for an honest node's signature on a transcript of
      this protocol unless that node made it. */
  ghost predicate Unforged(s: Signing, w: World, m: Message) {
    forall i, k: Key, t: seq<byte> :: VerifiesAt(s, m, i, k, t) && k in w.nodes && InDomain(t) ==> Produced(w.log, k, t)
  }

  ghost predicate Enabled(s: Signing, w: World, step: Step) {
    && step.who in w.nodes
    && (step.Start? || step.Deliver? ==> step.nonce !in w.used)
    && (step.Deliver? ==> Unforged(s, w, step.message))
  }

  function Recorded(log: seq<Event>, e: Option<Event>): seq<Event> {
    if e.Some? then log + [e.value] else log
  }

  ghost function Next(s: Signing, w: World, step: Step): World {
    if !Enabled(s, w, step) then w
    else
      var n := w.nodes[step.who];
      match step
      case Start(who, peer, nonce, now) =>
        World(w.nodes[who := StartNode(n, peer, nonce, now)], w.used + {nonce}, w.log)
      case Deliver(who, m, timestamp, nonce, now) =>
        var out := Process(s, who, n, m, timestamp, nonce, now);
        World(w.nodes[who := out.node], w.used + {nonce}, Recorded(w.log, out.event))
      case Cleanup(who, now) =>
        w.(nodes := w.nodes[who := Cleaned(n, now)])
  }

  ghost function Run(s: Signing, w: World, steps: seq<Step>): World
    decreases |steps|
  {
    if steps == [] then w else Run(s, Next(s, w, steps[0]), steps[1..])
  }

  // ---------------------------------------------------------------------
  // What the log keeps: each entry is justified by earlier ones.

  predicate HasResponded(log: seq<Event>, who: Key, nonce: Nonce) {
    exists j :: 0 <= j < |log| && log[j].Responded? && log[j].who == who && log[j].nonce == nonce
  }

  predicate HasAcked(log: seq<Event>, who: Key, initiator: Key, ni: Nonce, nc: Nonce, level: TrustLevel) {
    exists j :: 0 <= j < |log| && log[j].Acked? && log[j].who == who && log[j].initiator == initiator
                && log[j].initiatorNonce == ni && log[j].challengeNonce == nc && log[j].level == level
  }

  /** An ack was sent for a response that verified, and an honest initiator made that response. */
  predicate AckOk(s: Signing, honest: set<Key>, before: seq<Event>, e: Event)
    requires e.Acked?
  {
    && s.verify(e.initiator, ResponseTranscript(e.who, e.responder, e.challengeNonce), e.response)
    && (e.initiator in honest ==>
          e.responder == e.initiator && Responded(e.initiator, e.who, e.challengeNonce) in before)
  }

  /** A session was installed after answering the challenge it names; if its key is
      an honest node's, that node acked exactly this. */
  predicate InstallOk(honest: set<Key>, before: seq<Event>, e: Event)
    requires e.Installed?
  {
    && HasResponded(before, e.who, e.challengeNonce)
    && (e.peerKey in honest ==>
          HasAcked(before, e.peerKey, e.who, e.initiatorNonce, e.challengeNonce, e.level))
  }

  predicate EntryOk(s: Signing, honest: set<Key>, before: seq<Event>, e: Event) {
    e.who in honest &&
    match e
    case Responded(_, _, _) => true
    case Acked(_, _, _, _, _, _, _) => AckOk(s, honest, before, e)
    case Installed(_, _, _, _, _, _) => InstallOk(honest, before, e)
  }

  predicate LogOk(s: Signing, honest: set<Key>, log: seq<Event>) {
    forall i :: 0 <= i < |log| ==> EntryOk(s, honest, log[..i], log[i])
  }

  /** Every challenge a context holds as answered was answered. */
  predicate ContextsOk(who: Key, n: Node, log: seq<Event>) {
    forall p :: p in n.negotiations && n.negotiations[p].receivedChallenge.Some? ==>
      HasResponded(log, who, n.negotiations[p].receivedChallenge.value.nonce)
  }

  predicate Answering(w: World) {
    forall k :: k in w.nodes ==> ContextsOk(k, w.nodes[k], w.log)
  }

  // ---------------------------------------------------------------------

  lemma LogAppend(s: Signing, honest: set<Key>, log: seq<Event>, e: Event)
    requires LogOk(s, honest, log) && EntryOk(s, honest, log, e)
    ensures LogOk(s, honest, log + [e])
  {
    forall i | 0 <= i < |log + [e]| ensures EntryOk(s, honest, (log + [e])[..i], (log + [e])[i]) {
      if i < |log| {
        assert (log + [e])[..i] == log[..i];
      } else {
        assert (log + [e])[..i] == log;
      }
    }
  }

  lemma RespondedStays(log: seq<Event>, e: Option<Event>, who: Key, nonce: Nonce)
    requires HasResponded(log, who, nonce)
    ensures HasResponded(Recorded(log, e), who, nonce)
  {
    var j :| 0 <= j < |log| && log[j].Responded? && log[j].who == who && log[j].nonce == nonce;
    assert Recorded(log, e)[j] == log[j];
  }

  /** An honest node's signed response is in the log. */
  lemma ProducedResponse(log: seq<Event>, who: Key, challenger: NodeId, responder: NodeId, nonce: Nonce)
    requires Produced(log, who, ResponseTranscript(challenger, responder, nonce))
    ensures responder == who && Responded(who, challenger, nonce) in log
  {
    var m := ResponseTranscript(challenger, responder, nonce);
    var j :| 0 <= j < |log| && log[j].who == who && Signed(log[j]) == Some(m);
    match log[j]
    case Responded(w, c, n) => ResponseTranscriptBinds(c, w, n, challenger, responder, nonce);
    case Acked(_, _, _, _, _, _, _) =>
    case Installed(_, _, _, _, _, _) =>
  }

  /** An honest node's signed ack is in the log. */
  lemma ProducedAck(log: seq<Event>, who: Key, initiator: Key, responder: Key, ni: Nonce, nc: Nonce, level: TrustLevel)
    requires Produced(log, who, AckTranscript(initiator, responder, ni, nc, level))
    ensures responder == who && HasAcked(log, who, initiator, ni, nc, level)
  {
    var m := AckTranscript(initiator, responder, ni, nc, level);
    var j :| 0 <= j < |log| && log[j].who == who && Signed(log[j]) == Some(m);
    match log[j]
    case Responded(_, _, _) =>
    case Acked(w, i, mi, mc, l, _, _) => AckTranscriptBinds(i, w, mi, mc, l, initiator, responder, ni, nc, level);
    case Installed(_, _, _, _, _, _) =>
  }

  /** Where a Response message carries its signature, and where an Ack does. */
  lemma SignatureSlices(m: Message)
    requires m.payload != []
    ensures var data := m.payload[1..];
            && (DecodeResponse(data).Some? ==> DecodeResponse(data).value.signature == m.payload[33..97])
            && (DecodeAck(data).Some? ==> DecodeAck(data).value.signature == m.payload[34..98])
  {
    var data := m.payload[1..];
    if |data| >= 96 {
      SliceOfTail(m.payload, 32, 96);
    }
    if |data| >= 97 {
      SliceOfTail(m.payload, 33, 97);
    }
  }

  lemma SliceOfTail(s: seq<byte>, a: nat, b: nat)
    requires a <= b < |s|
    ensures s[1..][a..b] == s[a + 1..b + 1]
  {
  }

  lemma AckedIsOk(s: Signing, w: World, who: Key, m: Message, timestamp: u64, nonce: Nonce, now: Seconds)
    requires who in w.nodes && Unforged(s, w, m)
    requires m.payload != [] && m.payload[0] == RESPONSE
    requires Process(s, who, w.nodes[who], m, timestamp, nonce, now).event.Some?
    ensures EntryOk(s, w.nodes.Keys, w.log, Process(s, who, w.nodes[who], m, timestamp, nonce, now).event.value)
  {
    SignatureSlices(m);
    var r := DecodeResponse(m.payload[1..]).value;
    var ctx := w.nodes[who].negotiations[m.senderId];
    var key, id := ctx.peerPublicKey.value, ctx.peerId.value;
    assert VerifiesAt(s, m, 33, key, ResponseTranscript(who, id, r.nonce));
    if key in w.nodes {
      ProducedResponse(w.log, key, who, id, r.nonce);
    }
  }

  lemma InstalledIsOk(s: Signing, w: World, who: Key, m: Message, timestamp: u64, nonce: Nonce, now: Seconds)
    requires who in w.nodes && Unforged(s, w, m) && ContextsOk(who, w.nodes[who], w.log)
    requires m.payload != [] && m.payload[0] == ACK
    requires Process(s, who, w.nodes[who], m, timestamp, nonce, now).event.Some?
    ensures EntryOk(s, w.nodes.Keys, w.log, Process(s, who, w.nodes[who], m, timestamp, nonce, now).event.value)
  {
    SignatureSlices(m);
    var a := DecodeAck(m.payload[1..]).value;
    var ctx := w.nodes[who].negotiations[m.senderId];
    var ni, nc := ctx.initiatorNonce.value, ctx.receivedChallenge.value.nonce;
    assert VerifiesAt(s, m, 34, a.publicKey, AckTranscript(who, a.publicKey, ni, nc, a.trustLevel));
    if a.publicKey in w.nodes {
      ProducedAck(w.log, a.publicKey, who, a.publicKey, ni, nc, a.trustLevel);
    }
  }

  /** Every entry a delivery adds to the log is justified. */
  lemma DeliveredIsOk(s: Signing, w: World, who: Key, m: Message, timestamp: u64, nonce: Nonce, now: Seconds)
    requires who in w.nodes && Unforged(s, w, m) && ContextsOk(who, w.nodes[who], w.log)
    requires Process(s, who, w.nodes[who], m, timestamp, nonce, now).event.Some?
    ensures EntryOk(s, w.nodes.Keys, w.log, Process(s, who, w.nodes[who], m, timestamp, nonce, now).event.value)
  {
    if m.payload[0] == RESPONSE {
      AckedIsOk(s, w, who, m, timestamp, nonce, now);
    } else if m.payload[0] == ACK {
      InstalledIsOk(s, w, who, m, timestamp, nonce, now);
    }
  }

  /** A node that processes a message keeps its contexts in order. */
  lemma ContextsKept(s: Signing, who: Key, n: Node, m: Message, timestamp: u64, nonce: Nonce, now: Seconds,
                     log: seq<Event>)
    requires ContextsOk(who, n, log)
    ensures var out := Process(s, who, n, m, timestamp, nonce, now);
            ContextsOk(who, out.node, Recorded(log, out.event))
  {
    var out := Process(s, who, n, m, timestamp, nonce, now);
    var after := Recorded(log, out.event);
    forall p | p in out.node.negotiations && out.node.negotiations[p].receivedChallenge.Some?
      ensures HasResponded(after, who, out.node.negotiations[p].receivedChallenge.value.nonce)
    {
      var c := out.node.negotiations[p].receivedChallenge.value;
      if p in n.negotiations && n.negotiations[p].receivedChallenge == Some(c) {
        RespondedStays(log, out.event, who, c.nonce);
      } else {
        assert after[|log|] == Responded(who, p, c.nonce);
      }
    }
  }

  lemma ContextsStay(who: Key, n: Node, log: seq<Event>, e: Option<Event>)
    requires ContextsOk(who, n, log)
    ensures ContextsOk(who, n, Recorded(log, e))
  {
    forall p | p in n.negotiations && n.negotiations[p].receivedChallenge.Some?
      ensures HasResponded(Recorded(log, e), who, n.negotiations[p].receivedChallenge.value.nonce)
    {
      RespondedStays(log, e, who, n.negotiations[p].receivedChallenge.value.nonce);
    }
  }

  ghost predicate Inv(s: Signing, honest: set<Key>, w: World) {
    w.nodes.Keys == honest && LogOk(s, honest, w.log) && Answering(w)
  }

  lemma KeptByDeliver(s: Signing, honest: set<Key>, w: World, step: Step)
    requires Inv(s, honest, w) && step.Deliver? && Enabled(s, w, step)
    ensures Inv(s, honest, Next(s, w, step))
  {
    var v := Next(s, w, step);
    var out := Process(s, step.who, w.nodes[step.who], step.message, step.timestamp, step.nonce, step.now);
    ContextsKept(s, step.who, w.nodes[step.who], step.message, step.timestamp, step.nonce, step.now, w.log);
    if out.event.Some? {
      DeliveredIsOk(s, w, step.who, step.message, step.timestamp, step.nonce, step.now);
      LogAppend(s, honest, w.log, out.event.value);
    }
    forall k | k in v.nodes ensures ContextsOk(k, v.nodes[k], v.log) {
      if k != step.who {
        ContextsStay(k, w.nodes[k], w.log, out.event);
      }
    }
  }

  lemma Kept(s: Signing, honest: set<Key>, w: World, step: Step)
    requires Inv(s, honest, w)
    ensures Inv(s, honest, Next(s, w, step))
  {
    if step.Deliver? && Enabled(s, w, step) {
      KeptByDeliver(s, honest, w, step);
    }
  }

  lemma {:induction false} KeptByRun(s: Signing, honest: set<Key>, w: World, steps: seq<Step>)
    requires Inv(s, honest, w)
    ensures Inv(s, honest, Run(s, w, steps))
    decreases |steps|
  {
    if steps != [] {
      Kept(s, honest, w, steps[0]);
      KeptByRun(s, honest, Next(s, w, steps[0]), steps[1..]);
    }
  }

  // ---------------------------------------------------------------------
  // Agreement.

  /** If A installs a session by Ack and the key it carries is an honest B's, then
      earlier B acked A's key, A's Hello nonce, the challenge nonce that A answered,
      and the same trust level; and before that, for honest A, B had verified A's
      own response to that challenge. */
  lemma Agreement(s: Signing, honest: set<Key>, steps: seq<Step>, log: seq<Event>, i: nat) returns (j: nat, k: nat)
    requires log == Run(s, Init(honest), steps).log
    requires i < |log| && log[i].Installed? && log[i].peerKey in honest
    ensures j < i && log[j].Acked? && log[j].who == log[i].peerKey && log[j].initiator == log[i].who
    ensures log[j].initiatorNonce == log[i].initiatorNonce && log[j].challengeNonce == log[i].challengeNonce
    ensures log[j].level == log[i].level
    ensures k < j && log[k] == Responded(log[i].who, log[i].peerKey, log[i].challengeNonce)
    ensures s.verify(log[i].who, ResponseTranscript(log[i].peerKey, log[i].who, log[i].challengeNonce), log[j].response)
  {
    assert LogOk(s, honest, log) by {
      KeptByRun(s, honest, Init(honest), steps);
    }
    var e := log[i];
    assert EntryOk(s, honest, log[..i], e);
    j :| 0 <= j < |log[..i]| && log[..i][j].Acked? && log[..i][j].who == e.peerKey && log[..i][j].initiator == e.who
         && log[..i][j].initiatorNonce == e.initiatorNonce && log[..i][j].challengeNonce == e.challengeNonce
         && log[..i][j].level == e.level;
    assert EntryOk(s, honest, log[..j], log[j]);
    k :| 0 <= k < |log[..j]| && log[..j][k] == Responded(e.who, e.peerKey, e.challengeNonce);
  }

  /** An honest responder acks, and with that installs a session, only for a response
      that the honest initiator really made to the responder's own challenge. */
  lemma ResponderAgreement(s: Signing, honest: set<Key>, steps: seq<Step>, log: seq<Event>, j: nat) returns (k: nat)
    requires log == Run(s, Init(honest), steps).log
    requires j < |log| && log[j].Acked? && log[j].initiator in honest
    ensures k < j && log[k] == Responded(log[j].initiator, log[j].who, log[j].challengeNonce)
  {
    assert LogOk(s, honest, log) by {
      KeptByRun(s, honest, Init(honest), steps);
    }
    assert EntryOk(s, honest, log[..j], log[j]);
    k :| 0 <= k < |log[..j]| && log[..j][k] == Responded(log[j].initiator, log[j].who, log[j].challengeNonce);
  }

  // ---------------------------------------------------------------------
  // In time.

  /** Every entry of the log was made by one step of the run, in the world before it. */
  lemma {:induction false} MadeByStep(s: Signing, w: World, steps: seq<Step>, i: nat) returns (k: nat, u: World)
    requires |w.log| <= i < |Run(s, w, steps).log|
    ensures k < |steps| && u == Run(s, w, steps[..k]) && |u.log| == i
    ensures Next(s, u, steps[k]).log == u.log + [Run(s, w, steps).log[i]]
    decreases |steps|
  {
    var v := Next(s, w, steps[0]);
    LogExtends(s, v, steps[1..]);
    if i < |v.log| {
      k, u := 0, w;
    } else {
      k, u := MadeByStep(s, v, steps[1..], i);
      assert steps[..k + 1][1..] == steps[1..][..k];
      k := k + 1;
    }
  }

  lemma {:induction false} LogExtends(s: Signing, w: World, steps: seq<Step>)
    ensures w.log <= Run(s, w, steps).log
    decreases |steps|
  {
    if steps != [] {
      LogExtends(s, Next(s, w, steps[0]), steps[1..]);
    }
  }

  lemma MadeByDelivery(s: Signing, w: World, step: Step, e: Event)
    requires Next(s, w, step).log == w.log + [e]
    ensures step.Deliver? && step.who in w.nodes
    ensures Process(s, step.who, w.nodes[step.who], step.message, step.timestamp, step.nonce, step.now).event == Some(e)
  {
    assert Next(s, w, step).log != w.log;
    var out := Process(s, step.who, w.nodes[step.who], step.message, step.timestamp, step.nonce, step.now);
    assert Recorded(w.log, out.event)[|w.log|] == e;
  }

  /** Over every run: whenever a node answers a challenge, one was delivered to it then
      with that nonce from that challenger, and its clock was not past the challenge's
      timestamp plus its expiry. */
  lemma AnswersAreInTime(s: Signing, honest: set<Key>, steps: seq<Step>, i: nat) returns (k: nat)
    requires i < |Run(s, Init(honest), steps).log| && Run(s, Init(honest), steps).log[i].Responded?
    ensures k < |steps| && steps[k].Deliver? && steps[k].message.payload != []
    ensures var e := Run(s, Init(honest), steps).log[i];
            var c := DecodeChallenge(steps[k].message.payload[1..]);
            && c.Some? && c.value.nonce == e.nonce
            && steps[k].who == e.who && steps[k].message.senderId == e.challenger
            && steps[k].timestamp <= (c.value.timestamp as int + c.value.expirySecs as int) % 0x1_0000_0000_0000_0000
  {
    var u;
    k, u := MadeByStep(s, Init(honest), steps, i);
    var step := steps[k];
    MadeByDelivery(s, u, step, Run(s, Init(honest), steps).log[i]);
    OnlyChallengesAreAnswered(s, step.who, u.nodes[step.who], step.message, step.timestamp, step.nonce, step.now);
    ChallengeExact(s, step.who, u.nodes[step.who], step.message, step.timestamp, step.nonce, step.now);
  }

  lemma OnlyChallengesAreAnswered(s: Signing, who: Key, n: Node, m: Message, timestamp: u64, nonce: Nonce, now: Seconds)
    requires var e := Process(s, who, n, m, timestamp, nonce, now).event;
             e.Some? && e.value.Responded?
    ensures m.payload != [] && m.payload[0] == 2
  {
  }
}
