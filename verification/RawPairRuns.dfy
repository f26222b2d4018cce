/** Two RAW sessions on one key over every run: one sends heartbeats, the network loses,
    repeats and reorders them, the other acknowledges. A rotation changes the key of the
    receiver only. */
module RawPairRuns {
  import opened Prelude
  import opened RawSession

  /** An acknowledgement, and whether the receiver had rotated its key by then. */
  datatype Made = Made(ack: HeartbeatAck, rotated: bool)

  /** `first` is the receiver's key after its first rotation. */
  datatype Pair = Pair(
    sender: Session,
    receiver: Session,
    now: Milliseconds,
    sent: seq<Heartbeat>,
    acks: seq<Made>,
    first: Option<Key>)

  datatype Step =
    | Tick(elapsed: Milliseconds)
    | Send(contribution: Bytes32, timestamp: u64)
    | Deliver(index: nat)
    | CheckTimeout

  function Init(id: Id, key: Key, now: Milliseconds): Pair {
    Pair(NewSession(id, key, now), NewSession(id, key, now), now, [], [], None)
  }

  function Sent(h: Hashing, cfg: Config, s: Session, contribution: Bytes32, timestamp: u64): Heartbeat
    requires cfg.keyRotationInterval > 0
  {
    var n := (s.sequence + 1) % WORD64;
    Heartbeat(s.sessionId, n, timestamp, h.heartbeat(s.sessionKey, s.sessionId, n, timestamp),
              if n % cfg.keyRotationInterval == 0
              then Some(KeyRotation(contribution, h.contribution(s.sessionKey, contribution))) else None)
  }

  function Accepting(h: Hashing, w: Pair, b: Heartbeat): Pair {
    var v := Received(h, w.receiver, b, w.now);
    w.(receiver := v,
       acks := w.acks + [Made(AckFor(h, v, b), w.first.Some? || b.keyRotation.Some?)],
       first := if w.first.None? && b.keyRotation.Some? then Some(v.sessionKey) else w.first)
  }

  predicate Runnable(cfg: Config) {
    cfg.heartbeatInterval > 0 && cfg.keyRotationInterval > 0
  }

  function Next(h: Hashing, cfg: Config, w: Pair, s: Step): Pair
    requires Runnable(cfg)
  {
    match s
    case Tick(d) => w.(now := w.now + d)
    case Send(c, t) =>
      w.(sender := w.sender.(sequence := (w.sender.sequence + 1) % WORD64, lastSent := t),
         sent := w.sent + [Sent(h, cfg, w.sender, c, t)])
    case Deliver(i) =>
      if i >= |w.sent| || HeartbeatError(h, cfg, w.receiver, w.sent[i], w.now).Some? then w
      else Accepting(h, w, w.sent[i])
    case CheckTimeout => w.(receiver := Checked(cfg, w.receiver, w.now))
  }

  function Run(h: Hashing, cfg: Config, w: Pair, steps: seq<Step>): Pair
    requires Runnable(cfg)
    decreases |steps|
  {
    if steps == [] then w else Run(h, cfg, Next(h, cfg, w, steps[0]), steps[1..])
  }

  // ---------------------------------------------------------------------

  /** A contribution of the run has one code under both keys. */
  predicate ContributionClash(h: Hashing, k: Key, l: Key, sent: seq<Heartbeat>) {
    exists i :: 0 <= i < |sent| && sent[i].keyRotation.Some?
                && h.contribution(k, sent[i].keyRotation.value.contribution)
                   == h.contribution(l, sent[i].keyRotation.value.contribution)
  }

  /** An acknowledgement of the run has one code under both keys. */
  predicate AckClash(h: Hashing, k: Key, l: Key, id: Id, acks: seq<Made>) {
    exists i :: 0 <= i < |acks| && h.ack(k, id, acks[i].ack.ackSequence) == h.ack(l, id, acks[i].ack.ackSequence)
  }

  /** The hash collides on what this run computes with it. */
  predicate Clash(h: Hashing, id: Id, key: Key, w: Pair) {
    w.first.Some? && (w.first.value == key || ContributionClash(h, key, w.first.value, w.sent)
                      || AckClash(h, key, w.first.value, id, w.acks))
  }

  /** The sender still has the key it started with, and has signed with nothing else. */
  predicate SenderOk(h: Hashing, id: Id, key: Key, w: Pair) {
    && w.sender.sessionId == id && w.sender.sessionKey == key && w.sender.prevSessionKey == None
    && forall i :: 0 <= i < |w.sent| && w.sent[i].keyRotation.Some? ==>
         w.sent[i].keyRotation.value.hmac == h.contribution(key, w.sent[i].keyRotation.value.contribution)
  }

  /** The receiver has rotated at most once. */
  predicate ReceiverOk(id: Id, key: Key, w: Pair) {
    && w.receiver.sessionId == id
    && (w.first.None? ==> w.receiver.sessionKey == key && w.receiver.rotationCount == 0)
    && (w.first.Some? ==> w.receiver.sessionKey == w.first.value && w.receiver.rotationCount == 1)
  }

  /** Acknowledgements are made with the receiver's key at the time. */
  predicate AcksOk(h: Hashing, id: Id, key: Key, first: Option<Key>, acks: seq<Made>) {
    forall i :: 0 <= i < |acks| ==>
      && acks[i].ack.sessionId == id && (acks[i].rotated ==> first.Some?)
      && acks[i].ack.hmac == h.ack(if acks[i].rotated then first.value else key, id, acks[i].ack.ackSequence)
  }

  predicate Inv(h: Hashing, id: Id, key: Key, w: Pair) {
    SenderOk(h, id, key, w) && (Clash(h, id, key, w) || (ReceiverOk(id, key, w) && AcksOk(h, id, key, w.first, w.acks)))
  }

  lemma ContributionClashStays(h: Hashing, k: Key, l: Key, a: seq<Heartbeat>, b: seq<Heartbeat>)
    requires a <= b && ContributionClash(h, k, l, a)
    ensures ContributionClash(h, k, l, b)
  {
    var i :| 0 <= i < |a| && a[i].keyRotation.Some?
             && h.contribution(k, a[i].keyRotation.value.contribution)
                == h.contribution(l, a[i].keyRotation.value.contribution);
    assert b[i] == a[i];
  }

  lemma AckClashStays(h: Hashing, k: Key, l: Key, id: Id, a: seq<Made>, b: seq<Made>)
    requires a <= b && AckClash(h, k, l, id, a)
    ensures AckClash(h, k, l, id, b)
  {
    var i :| 0 <= i < |a| && h.ack(k, id, a[i].ack.ackSequence) == h.ack(l, id, a[i].ack.ackSequence);
    assert b[i] == a[i];
  }

  lemma ClashStays(h: Hashing, cfg: Config, id: Id, key: Key, w: Pair, s: Step)
    requires Runnable(cfg) && Clash(h, id, key, w)
    ensures Clash(h, id, key, Next(h, cfg, w, s))
  {
    var v := Next(h, cfg, w, s);
    assert w.sent <= v.sent && w.acks <= v.acks && v.first == w.first;
    if ContributionClash(h, key, w.first.value, w.sent) {
      ContributionClashStays(h, key, w.first.value, w.sent, v.sent);
    } else if AckClash(h, key, w.first.value, id, w.acks) {
      AckClashStays(h, key, w.first.value, id, w.acks, v.acks);
    }
  }

  /** Without a clash, a receiver that has rotated refuses every rotation that was sent. */
  lemma RotationRefused(h: Hashing, cfg: Config, id: Id, key: Key, w: Pair, i: nat)
    requires Inv(h, id, key, w) && !Clash(h, id, key, w) && w.first.Some?
    requires i < |w.sent| && w.sent[i].keyRotation.Some?
    ensures HeartbeatError(h, cfg, w.receiver, w.sent[i], w.now).Some?
  {
    var r := w.sent[i].keyRotation.value;
    assert h.contribution(key, r.contribution) != h.contribution(w.first.value, r.contribution);
  }

  lemma KeptByDeliver(h: Hashing, cfg: Config, id: Id, key: Key, w: Pair, s: Step)
    requires Runnable(cfg) && Inv(h, id, key, w) && !Clash(h, id, key, w) && s.Deliver? && s.index < |w.sent|
    requires HeartbeatError(h, cfg, w.receiver, w.sent[s.index], w.now).None?
    ensures Inv(h, id, key, Next(h, cfg, w, s))
  {
    var v := Next(h, cfg, w, s);
    var b := w.sent[s.index];
    if w.first.Some? && b.keyRotation.Some? {
      RotationRefused(h, cfg, id, key, w, s.index);
    }
    assert ReceiverOk(id, key, v);
    forall i | 0 <= i < |v.acks|
      ensures v.acks[i].ack.sessionId == id && (v.acks[i].rotated ==> v.first.Some?)
      ensures v.acks[i].ack.hmac
           == h.ack(if v.acks[i].rotated then v.first.value else key, id, v.acks[i].ack.ackSequence)
    {
      if i < |w.acks| {
        assert v.acks[i] == w.acks[i];
      }
    }
  }

  lemma Kept(h: Hashing, cfg: Config, id: Id, key: Key, w: Pair, s: Step)
    requires Runnable(cfg) && Inv(h, id, key, w)
    ensures Inv(h, id, key, Next(h, cfg, w, s))
  {
    if Clash(h, id, key, w) {
      ClashStays(h, cfg, id, key, w, s);
    } else if s.Deliver? && s.index < |w.sent| && HeartbeatError(h, cfg, w.receiver, w.sent[s.index], w.now).None? {
      KeptByDeliver(h, cfg, id, key, w, s);
    }
  }

  lemma {:induction false} KeptByRun(h: Hashing, cfg: Config, id: Id, key: Key, w: Pair, steps: seq<Step>)
    requires Runnable(cfg) && Inv(h, id, key, w)
    ensures Inv(h, id, key, Run(h, cfg, w, steps))
    decreases |steps|
  {
    if steps != [] {
      Kept(h, cfg, id, key, w, steps[0]);
      KeptByRun(h, cfg, id, key, Next(h, cfg, w, steps[0]), steps[1..]);
    }
  }

  // ---------------------------------------------------------------------
  // What this means.

  /** In every run, unless the hash collides on the run's own messages: the sender accepts
      an acknowledgement exactly when it was made before the receiver rotated its key. */
  lemma AckAcceptedIff(h: Hashing, cfg: Config, id: Id, key: Key, now: Milliseconds, steps: seq<Step>, i: nat)
    requires Runnable(cfg) && i < |Run(h, cfg, Init(id, key, now), steps).acks|
    ensures var w := Run(h, cfg, Init(id, key, now), steps);
            || Clash(h, id, key, w)
            || (if w.acks[i].rotated then AckResult(h, w.sender, w.acks[i].ack) == Err(InvalidHmac)
                else AckResult(h, w.sender, w.acks[i].ack) == Ok(()))
  {
    KeptByRun(h, cfg, id, key, Init(id, key, now), steps);
    var w := Run(h, cfg, Init(id, key, now), steps);
    if !Clash(h, id, key, w) && w.acks[i].rotated {
      assert !AckClash(h, key, w.first.value, id, w.acks);
    }
  }

  /** And the receiver rotates at most once: from then on it refuses every heartbeat that
      asks for a rotation. */
  lemma RotatesOnce(h: Hashing, cfg: Config, id: Id, key: Key, now: Milliseconds, steps: seq<Step>, i: nat)
    requires Runnable(cfg) && i < |Run(h, cfg, Init(id, key, now), steps).sent|
    ensures var w := Run(h, cfg, Init(id, key, now), steps);
            || Clash(h, id, key, w)
            || (&& w.receiver.rotationCount <= 1
                && (w.receiver.rotationCount == 1 && w.sent[i].keyRotation.Some? ==>
                      HeartbeatError(h, cfg, w.receiver, w.sent[i], w.now).Some?))
  {
    KeptByRun(h, cfg, id, key, Init(id, key, now), steps);
    var w := Run(h, cfg, Init(id, key, now), steps);
    if !Clash(h, id, key, w) && w.first.Some? && w.sent[i].keyRotation.Some? {
      RotationRefused(h, cfg, id, key, w, i);
    }
  }

  /** It does come to that: if every heartbeat rotates, the very first one is accepted and
      its acknowledgement is one that was made after a rotation. */
  lemma FirstRotates(h: Hashing, cfg: Config, id: Id, key: Key, contribution: Bytes32)
    requires Runnable(cfg) && cfg.keyRotationInterval == 1 && cfg.maxRotations > 0 && cfg.sequenceWindow > 0
    ensures var w := Run(h, cfg, Init(id, key, 0), [Send(contribution, 0), Deliver(0)]);
            w.receiver.rotationCount == 1 && |w.acks| == 1 && w.acks[0].rotated
  {
    var w0 := Init(id, key, 0);
    var w1 := Next(h, cfg, w0, Send(contribution, 0));
    var w2 := Next(h, cfg, w1, Deliver(0));
    var steps := [Send(contribution, 0), Deliver(0)];
    assert steps[1..] == [Deliver(0)] && steps[1..][1..] == [];
    assert Run(h, cfg, w1, steps[1..]) == Run(h, cfg, w2, []);
    assert HeartbeatError(h, cfg, w1.receiver, w1.sent[0], 0).None?;
  }
}
