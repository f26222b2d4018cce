/** What trust negotiation does not prevent, as runs of enabled steps: a session on a
    key that is not the peer's, and a second session from one ack. */
module ReplayRuns {
  import opened Prelude
  import opened Frame
  import opened Negotiation
  import opened NegotiationRuns
  import opened ExchangeRuns

  // ---------------------------------------------------------------------
  // Another key.

  /** A opens a negotiation with B and receives, in frames that name B as their sender,
      a challenge and an ack made with another key. */
  function WithOtherKey(s: Signing, x: Exchange, key: Key, level: TrustLevel): seq<Step> {
    [Start(x.a, x.b, x.ni, x.now),
     Deliver(x.a, ChallengeMessage(x.b, x.Challenge()), x.tc, x.spares.0, x.now),
     Deliver(x.a, AckFrom(s, x.b, key, x.a, x.ni, x.nc, level), x.tc, x.spares.1, x.now)]
  }

  lemma OpenedStep(s: Signing, w: World, x: Exchange)
    requires x.a in w.nodes && Enabled(s, w, Start(x.a, x.b, x.ni, x.now))
    ensures var v := Next(s, w, Start(x.a, x.b, x.ni, x.now));
            && v.nodes.Keys == w.nodes.Keys && v.log == w.log && v.used == w.used + {x.ni}
            && x.b in v.nodes[x.a].negotiations
            && v.nodes[x.a].negotiations[x.b] == NewContext(x.now).(initiatorNonce := Some(x.ni))
  {
  }

  /** A, with a context for B that has this Hello nonce, answers the challenge. */
  lemma AnsweredStep(s: Signing, w: World, x: Exchange, drawn: Nonce)
    requires x.a in w.nodes && x.b in w.nodes[x.a].negotiations && ChallengeValid(x.Challenge(), x.tc)
    requires w.nodes[x.a].negotiations[x.b].initiatorNonce == Some(x.ni)
    requires Enabled(s, w, Deliver(x.a, ChallengeMessage(x.b, x.Challenge()), x.tc, drawn, x.now))
    ensures var v := Next(s, w, Deliver(x.a, ChallengeMessage(x.b, x.Challenge()), x.tc, drawn, x.now));
            && v.nodes.Keys == w.nodes.Keys && v.used == w.used + {drawn}
            && v.log == w.log + [Responded(x.a, x.b, x.nc)]
            && x.b in v.nodes[x.a].negotiations
            && v.nodes[x.a].negotiations[x.b]
                 == w.nodes[x.a].negotiations[x.b].(receivedChallenge := Some(x.Challenge()), peerId := Some(x.b),
                                                    state := ResponseSent)
  {
    ChallengeAnswered(s, x.a, w.nodes[x.a], x.b, x.Challenge(), x.tc, drawn, x.now);
  }

  lemma AckedStep(s: Signing, w: World, x: Exchange, key: Key, level: TrustLevel, drawn: Nonce)
    requires Correct(s) && x.a in w.nodes && x.b in w.nodes[x.a].negotiations
    requires w.nodes[x.a].negotiations[x.b].initiatorNonce == Some(x.ni)
    requires w.nodes[x.a].negotiations[x.b].receivedChallenge == Some(x.Challenge())
    requires Enabled(s, w, Deliver(x.a, AckFrom(s, x.b, key, x.a, x.ni, x.nc, level), x.tc, drawn, x.now))
    ensures var v := Next(s, w, Deliver(x.a, AckFrom(s, x.b, key, x.a, x.ni, x.nc, level), x.tc, drawn, x.now));
            && v.nodes.Keys == w.nodes.Keys && x.b in v.nodes[x.a].sessions
            && v.nodes[x.a].sessions[x.b] == Session(x.b, key, level, x.now, SESSION_DURATION)
            && v.log == w.log + [Installed(x.a, key, x.ni, x.nc, level, Initiated(w.nodes[x.a].negotiations[x.b]))]
  {
    AckAccepted(s, x.a, w.nodes[x.a], x.b, key, x.Challenge(), x.ni, level, x.tc, drawn, x.now);
  }

  /** From any world: A then holds a session with B on that key, at whatever level the
      ack names. */
  lemma OtherKeyIsInstalled(s: Signing, w: World, x: Exchange, key: Key, level: TrustLevel)
    requires Correct(s) && x.a in w.nodes && ChallengeValid(x.Challenge(), x.tc)
    requires AllEnabled(s, w, WithOtherKey(s, x, key, level))
    ensures var v := Run(s, w, WithOtherKey(s, x, key, level));
            && x.a in v.nodes && x.b in v.nodes[x.a].sessions
            && v.nodes[x.a].sessions[x.b] == Session(x.b, key, level, x.now, SESSION_DURATION)
            && v.log == w.log + [Responded(x.a, x.b, x.nc)] + [Installed(x.a, key, x.ni, x.nc, level, true)]
  {
    var steps := WithOtherKey(s, x, key, level);
    RunThree(s, w, steps[0], steps[1], steps[2]);
    OpenedStep(s, w, x);
    var v := Next(s, w, steps[0]);
    AnsweredStep(s, v, x, x.spares.0);
    AckedStep(s, Next(s, v, steps[1]), x, key, level, x.spares.1);
  }

  lemma ThirdBytes()
    ensures Unsigned(AckFrom(ExampleSigning(), EXAMPLE.b, THIRD, EXAMPLE.a, EXAMPLE.ni, EXAMPLE.nc, Full).payload)
  {
    FillsDiffer(0, 14);
    FillsDiffer(1, 14);
    assert ExampleSigning().sign(THIRD, THIRD_ACK) == Fill64(13);
    assert EncodeAck(AckPayload(Full, THIRD, Fill64(13))) == [TrustCode(Full)] + (THIRD + Fill64(13));
  }

  lemma OtherKeyEnabled(s: Signing, x: Exchange, w: World)
    requires s == ExampleSigning() && x == EXAMPLE && w.used == {} && THIRD !in w.nodes && x.a in w.nodes
    ensures AllEnabled(s, w, WithOtherKey(s, x, THIRD, Full))
  {
    var steps := WithOtherKey(s, x, THIRD, Full);
    RunThree(s, w, steps[0], steps[1], steps[2]);
    Fresh();
    var v := Next(s, w, steps[0]);
    OpenedStep(s, w, x);
    ChallengeBytes();
    UnforgedIf(v, steps[1].message);
    AnsweredStep(s, v, x, x.spares.0);
    ThirdBytes();
    UnforgedIf(Next(s, v, steps[1]), steps[2].message);
  }

  /** Such a run starts from the empty world of A and B: A ends with a session with B at
      the highest level on a key that is neither's, and B has done nothing. */
  lemma OtherKeyHappens(honest: set<Key>)
    requires honest == {EXAMPLE.a, EXAMPLE.b}
    ensures var s := ExampleSigning();
            var steps := WithOtherKey(s, EXAMPLE, THIRD, Full);
            var v := Run(s, Init(honest), steps);
            && AllEnabled(s, Init(honest), steps) && THIRD !in honest
            && EXAMPLE.a in v.nodes && EXAMPLE.b in v.nodes[EXAMPLE.a].sessions
            && v.nodes[EXAMPLE.a].sessions[EXAMPLE.b] == Session(EXAMPLE.b, THIRD, Full, 0, SESSION_DURATION)
            && forall i :: 0 <= i < |v.log| ==> v.log[i].who == EXAMPLE.a
  {
    var s := ExampleSigning();
    FillsDiffer(0, 14);
    FillsDiffer(1, 14);
    OtherKeyEnabled(s, EXAMPLE, Init(honest));
    OtherKeyIsInstalled(s, Init(honest), EXAMPLE, THIRD, Full);
  }

  // ---------------------------------------------------------------------
  // One ack twice.

  /** A Hello with A's old nonce, the old challenge and the old ack, delivered to A. */
  function Again(s: Signing, x: Exchange, drawn: (Nonce, Nonce, Nonce)): seq<Step> {
    [Deliver(x.a, HelloMessage(x.b, x.trust, x.ni), x.t, drawn.0, x.now),
     Deliver(x.a, ChallengeMessage(x.b, x.Challenge()), x.tc, drawn.1, x.now),
     Deliver(x.a, AckFrom(s, x.b, x.b, x.a, x.ni, x.nc, Sig), x.tc, drawn.2, x.now)]
  }

  lemma HelloStep(s: Signing, w: World, x: Exchange, drawn: Nonce)
    requires x.a in w.nodes && Enabled(s, w, Deliver(x.a, HelloMessage(x.b, x.trust, x.ni), x.t, drawn, x.now))
    ensures var v := Next(s, w, Deliver(x.a, HelloMessage(x.b, x.trust, x.ni), x.t, drawn, x.now));
            && v.nodes.Keys == w.nodes.Keys && v.log == w.log && v.used == w.used + {drawn}
            && x.b in v.nodes[x.a].negotiations
            && v.nodes[x.a].negotiations[x.b].initiatorNonce == Some(x.ni)
            && !Initiated(v.nodes[x.a].negotiations[x.b])
  {
    HelloAnswered(s, x.a, w.nodes[x.a], x.b, x.trust, x.ni, x.t, drawn, x.now);
  }

  /** From any world: the old ack installs a session again, in a context that A did not
      open itself. */
  lemma ReplayInstalls(s: Signing, w: World, x: Exchange, drawn: (Nonce, Nonce, Nonce))
    requires Correct(s) && x.a in w.nodes && ChallengeValid(x.Challenge(), x.tc)
    requires AllEnabled(s, w, Again(s, x, drawn))
    ensures var v := Run(s, w, Again(s, x, drawn));
            && x.a in v.nodes && x.b in v.nodes[x.a].sessions
            && v.nodes[x.a].sessions[x.b] == Session(x.b, x.b, Sig, x.now, SESSION_DURATION)
            && v.log == w.log + [Responded(x.a, x.b, x.nc)] + [Installed(x.a, x.b, x.ni, x.nc, Sig, false)]
  {
    var steps := Again(s, x, drawn);
    RunThree(s, w, steps[0], steps[1], steps[2]);
    HelloStep(s, w, x, drawn.0);
    var v := Next(s, w, steps[0]);
    AnsweredStep(s, v, x, drawn.1);
    AckedStep(s, Next(s, v, steps[1]), x, x.b, Sig, drawn.2);
  }

  const LATER: (Nonce, Nonce, Nonce) := (Fill(10), Fill(11), Fill(12))

  lemma LaterIsFresh()
    ensures LATER.0 !in EXAMPLE.Drawn() && LATER.1 !in EXAMPLE.Drawn() + {LATER.0}
    ensures LATER.2 !in EXAMPLE.Drawn() + {LATER.0} + {LATER.1}
  {
    forall b: byte, c: byte | b != c ensures Fill(b) != Fill(c) {
      FillsDiffer(b, c);
    }
  }

  lemma ReplayEnabled(s: Signing, x: Exchange, w: World)
    requires s == ExampleSigning() && x == EXAMPLE && w.used == x.Drawn() && THIRD !in w.nodes && x.a in w.nodes
    requires w.log == Exchanged(s, x)
    ensures AllEnabled(s, w, Again(s, x, LATER))
  {
    var steps := Again(s, x, LATER);
    RunThree(s, w, steps[0], steps[1], steps[2]);
    LaterIsFresh();
    HelloBytes(1);
    UnforgedIf(w, steps[0].message);
    HelloStep(s, w, x, LATER.0);
    var v := Next(s, w, steps[0]);
    ChallengeBytes();
    UnforgedIf(v, steps[1].message);
    AnsweredStep(s, v, x, LATER.1);
    AckAgainEnabled(s, x, Next(s, v, steps[1]));
  }

  lemma AckAgainEnabled(s: Signing, x: Exchange, w: World)
    requires s == ExampleSigning() && x == EXAMPLE && THIRD !in w.nodes && x.a in w.nodes
    requires w.used == x.Drawn() + {LATER.0} + {LATER.1} && |w.log| >= 2 && w.log[1] == Exchanged(s, x)[1]
    ensures Enabled(s, w, Again(s, x, LATER)[2])
  {
    LaterIsFresh();
    SignedBytes();
    assert Signed(w.log[1]) == Some(EXAMPLE_ACK);
    UnforgedIf(w, AckFrom(s, x.b, x.b, x.a, x.ni, x.nc, Sig));
  }

  /** Such a run continues an undisturbed exchange: one ack, and two sessions for it, of
      which only the first is in a context that A opened. */
  lemma ReplayHappens(honest: set<Key>)
    requires honest == {EXAMPLE.a, EXAMPLE.b}
    ensures var s := ExampleSigning();
            var steps := (Opening(EXAMPLE) + Closing(s, EXAMPLE)) + Again(s, EXAMPLE, LATER);
            var x := EXAMPLE;
            && AllEnabled(s, Init(honest), steps)
            && Run(s, Init(honest), steps).log
                 == Exchanged(s, x) + [Responded(x.a, x.b, x.nc)] + [Installed(x.a, x.b, x.ni, x.nc, Sig, false)]
  {
    var s := ExampleSigning();
    FillsDiffer(0, 14);
    FillsDiffer(1, 14);
    ExchangeHappens(honest);
    var first := Opening(EXAMPLE) + Closing(s, EXAMPLE);
    var w := Run(s, Init(honest), first);
    ReplayEnabled(s, EXAMPLE, w);
    ReplayInstalls(s, w, EXAMPLE, LATER);
    RunAppend(s, Init(honest), first, Again(s, EXAMPLE, LATER));
  }
}
