/** RAW sessions: heartbeats, the timeout, and rate-limited key rotation. */
module RawSession {
  import opened Prelude

  type Key = Bytes32
  type Id = Bytes32
  type Milliseconds = nat

  const WORD32: nat := 0x1_0000_0000
  const WORD64: nat := 0x1_0000_0000_0000_0000

  datatype State = Active | Degraded | Terminated

  datatype Config = Config(
    heartbeatInterval: Milliseconds,
    graceHeartbeats: u32,
    keyRotationInterval: u32,
    maxClockSkew: Milliseconds,
    sequenceWindow: u64,
    minRotationInterval: Milliseconds,
    maxRotations: u32)

  datatype KeyRotation = KeyRotation(contribution: Bytes32, hmac: Bytes32)

  datatype Heartbeat = Heartbeat(
    sessionId: Id,
    sequence: u64,
    timestamp: u64,
    hmac: Bytes32,
    keyRotation: Option<KeyRotation>)

  datatype HeartbeatAck = HeartbeatAck(sessionId: Id, ackSequence: u64, hmac: Bytes32)

  datatype RawSessionError =
    | InvalidHmac | SequenceOutOfWindow | ReplayDetected | TimestampOutOfRange | SessionNotFound
    | SessionTerminated | KeyRotationFailed | RotationTooFrequent | RotationLimitExceeded

  /** BLAKE3 over the fixed-width fields that each kind of message concatenates:
      keyed, for heartbeats, acknowledgements and contributions, and plain, for the
      next key from the current one, the peer's contribution and our sequence. */
  datatype Hashing = Hashing(
    heartbeat: (Key, Id, u64, u64) -> Bytes32,
    ack: (Key, Id, u64) -> Bytes32,
    contribution: (Key, Bytes32) -> Bytes32,
    nextKey: (Key, Bytes32, u64) -> Key)

  datatype Session = Session(
    sessionId: Id,
    sessionKey: Key,
    prevSessionKey: Option<Key>,
    sequence: u64,
    peerSequence: u64,
    lastSent: Milliseconds,
    lastReceived: Milliseconds,
    missed: u32,
    state: State,
    lastRotation: Milliseconds,
    rotationCount: nat)

  function NewSession(id: Id, key: Key, now: Milliseconds): Session {
    Session(id, key, None, 0, 0, now, now, 0, Active, 0, 0)
  }

  // ---------------------------------------------------------------------
  // Receiving a heartbeat.

  predicate HmacValid(h: Hashing, s: Session, b: Heartbeat) {
    || b.hmac == h.heartbeat(s.sessionKey, s.sessionId, b.sequence, b.timestamp)
    || (s.prevSessionKey.Some? && b.hmac == h.heartbeat(s.prevSessionKey.value, s.sessionId, b.sequence, b.timestamp))
  }

  function Distance(a: nat, b: nat): nat {
    if a > b then a - b else b - a
  }

  function RotationError(h: Hashing, cfg: Config, s: Session, r: KeyRotation,
                         now: Milliseconds): Option<RawSessionError> {
    if s.lastRotation > 0 && SatSub(now, s.lastRotation) < cfg.minRotationInterval then Some(RotationTooFrequent)
    else if s.rotationCount >= cfg.maxRotations then Some(RotationLimitExceeded)
    else if r.hmac != h.contribution(s.sessionKey, r.contribution) then Some(KeyRotationFailed)
    else None
  }

  function Rotated(h: Hashing, s: Session, r: KeyRotation, now: Milliseconds): Session {
    s.(prevSessionKey := Some(s.sessionKey),
       sessionKey := h.nextKey(s.sessionKey, r.contribution, s.sequence),
       lastRotation := now,
       rotationCount := s.rotationCount + 1)
  }

  /** The window's upper end wraps at 64 bits. */
  function AdmissionError(h: Hashing, cfg: Config, s: Session, b: Heartbeat,
                          now: Milliseconds): Option<RawSessionError> {
    if b.sessionId != s.sessionId then Some(SessionNotFound)
    else if s.state == Terminated then Some(SessionTerminated)
    else if Distance(b.timestamp, now) > cfg.maxClockSkew then Some(TimestampOutOfRange)
    else if b.sequence <= s.peerSequence then Some(ReplayDetected)
    else if b.sequence > (s.peerSequence as int + cfg.sequenceWindow as int) % WORD64 then Some(SequenceOutOfWindow)
    else if !HmacValid(h, s, b) then Some(InvalidHmac)
    else None
  }

  function HeartbeatError(h: Hashing, cfg: Config, s: Session, b: Heartbeat,
                          now: Milliseconds): Option<RawSessionError> {
    var error := AdmissionError(h, cfg, s, b, now);
    if error.Some? then error
    else if b.keyRotation.Some? then RotationError(h, cfg, s, b.keyRotation.value, now)
    else None
  }

  /** A heartbeat is accepted exactly when it is for this session, which is not terminated,
      its time is within the skew of the clock, its sequence is past the last one and not
      past the window, and its code is that of its fields under the current or the previous
      key; and if it asks for a rotation, when that comes neither too soon nor too often and
      carries a code under the current key. */
  lemma AcceptedIff(h: Hashing, cfg: Config, s: Session, b: Heartbeat, now: Milliseconds)
    ensures HeartbeatError(h, cfg, s, b, now).None? <==>
            && b.sessionId == s.sessionId && s.state != Terminated
            && b.timestamp <= now + cfg.maxClockSkew && now <= b.timestamp + cfg.maxClockSkew
            && s.peerSequence < b.sequence
            && b.sequence <= (s.peerSequence as int + cfg.sequenceWindow as int) % 0x1_0000_0000_0000_0000
            && (|| b.hmac == h.heartbeat(s.sessionKey, s.sessionId, b.sequence, b.timestamp)
                || (&& s.prevSessionKey.Some?
                    && b.hmac == h.heartbeat(s.prevSessionKey.value, s.sessionId, b.sequence, b.timestamp)))
            && (b.keyRotation.Some? ==>
                  && (s.lastRotation == 0 || s.lastRotation + cfg.minRotationInterval <= now
                      || cfg.minRotationInterval == 0)
                  && s.rotationCount < cfg.maxRotations
                  && b.keyRotation.value.hmac == h.contribution(s.sessionKey, b.keyRotation.value.contribution))
  {
  }

  /** Which error a refused heartbeat gets: the first of these that stands against it. */
  lemma RefusedBecause(h: Hashing, cfg: Config, s: Session, b: Heartbeat, now: Milliseconds)
    ensures HeartbeatError(h, cfg, s, b, now) ==
            if b.sessionId != s.sessionId then Some(SessionNotFound)
            else if s.state == Terminated then Some(SessionTerminated)
            else if b.timestamp > now + cfg.maxClockSkew || now > b.timestamp + cfg.maxClockSkew
            then Some(TimestampOutOfRange)
            else if b.sequence <= s.peerSequence then Some(ReplayDetected)
            else if b.sequence > (s.peerSequence as int + cfg.sequenceWindow as int) % 0x1_0000_0000_0000_0000
            then Some(SequenceOutOfWindow)
            else if && b.hmac != h.heartbeat(s.sessionKey, s.sessionId, b.sequence, b.timestamp)
                    && (s.prevSessionKey.None?
                        || b.hmac != h.heartbeat(s.prevSessionKey.value, s.sessionId, b.sequence, b.timestamp))
            then Some(InvalidHmac)
            else if b.keyRotation.None? then None
            else if s.lastRotation > 0 && cfg.minRotationInterval > 0 && now < s.lastRotation + cfg.minRotationInterval
            then Some(RotationTooFrequent)
            else if s.rotationCount >= cfg.maxRotations then Some(RotationLimitExceeded)
            else if b.keyRotation.value.hmac != h.contribution(s.sessionKey, b.keyRotation.value.contribution)
            then Some(KeyRotationFailed)
            else None
  {
  }

  function Received(h: Hashing, s: Session, b: Heartbeat, now: Milliseconds): Session {
    var t := if b.keyRotation.Some? then Rotated(h, s, b.keyRotation.value, now) else s;
    t.(peerSequence := b.sequence, lastReceived := now, missed := 0, state := Active)
  }

  function AckFor(h: Hashing, s: Session, b: Heartbeat): HeartbeatAck {
    HeartbeatAck(s.sessionId, b.sequence, h.ack(s.sessionKey, s.sessionId, b.sequence))
  }

  function AckResult(h: Hashing, s: Session, a: HeartbeatAck): Result<(), RawSessionError> {
    if a.sessionId != s.sessionId then Err(SessionNotFound)
    else if a.hmac == h.ack(s.sessionKey, s.sessionId, a.ackSequence) then Ok(())
    else if s.prevSessionKey.Some? && a.hmac == h.ack(s.prevSessionKey.value, s.sessionId, a.ackSequence) then Ok(())
    else Err(InvalidHmac)
  }

  /** An acknowledgement is accepted exactly when it is for this session and its code is
      that of its sequence under the current or the previous key. */
  lemma AckExact(h: Hashing, s: Session, a: HeartbeatAck)
    ensures AckResult(h, s, a) ==
            if a.sessionId != s.sessionId then Err(SessionNotFound)
            else if || a.hmac == h.ack(s.sessionKey, s.sessionId, a.ackSequence)
                    || (s.prevSessionKey.Some? && a.hmac == h.ack(s.prevSessionKey.value, s.sessionId, a.ackSequence))
            then Ok(())
            else Err(InvalidHmac)
  {
  }

  /** A session starts alive, with its key alone, all counts at zero and both clocks now. */
  lemma StartsFresh(id: Id, key: Key, now: Milliseconds)
    ensures var s := NewSession(id, key, now);
            && s.sessionId == id && s.sessionKey == key && s.prevSessionKey == None && s.state == Active
            && s.sequence == 0 && s.peerSequence == 0 && s.missed == 0 && s.rotationCount == 0 && s.lastRotation == 0
            && s.lastSent == now && s.lastReceived == now
  {
  }

  /** An accepted heartbeat is a sign of life; only one with a rotation changes the key. */
  lemma ReceivedSays(h: Hashing, s: Session, b: Heartbeat, now: Milliseconds)
    ensures var v := Received(h, s, b, now);
            && v.state == Active && v.missed == 0 && v.lastReceived == now && v.peerSequence == b.sequence
            && v.sessionId == s.sessionId && v.sequence == s.sequence && v.lastSent == s.lastSent
            && (b.keyRotation.None? ==>
                  && v.sessionKey == s.sessionKey && v.prevSessionKey == s.prevSessionKey
                  && v.lastRotation == s.lastRotation && v.rotationCount == s.rotationCount)
            && (b.keyRotation.Some? ==>
                  && v.sessionKey == h.nextKey(s.sessionKey, b.keyRotation.value.contribution, s.sequence)
                  && v.prevSessionKey == Some(s.sessionKey)
                  && v.lastRotation == now && v.rotationCount == s.rotationCount + 1)
  {
  }

  // ---------------------------------------------------------------------
  // The timeout.

  /** Whole intervals since the last heartbeat. */
  function Intervals(cfg: Config, s: Session, now: Milliseconds): nat
    requires cfg.heartbeatInterval > 0
  {
    SatSub(now, s.lastReceived) / cfg.heartbeatInterval
  }

  /** The count of missed heartbeats keeps 32 bits. */
  function Missed(n: nat): u32
    requires n > 0
  {
    (n - 1) % WORD32
  }

  function Checked(cfg: Config, s: Session, now: Milliseconds): Session
    requires cfg.heartbeatInterval > 0
  {
    var n := Intervals(cfg, s, now);
    if n <= 1 then s
    else
      var missed := Missed(n);
      if missed >= cfg.graceHeartbeats then s.(missed := missed, state := Terminated)
      else if missed > 0 then s.(missed := missed, state := Degraded)
      else s.(missed := missed)
  }

  predicate TimesOut(cfg: Config, s: Session, now: Milliseconds)
    requires cfg.heartbeatInterval > 0
  {
    Intervals(cfg, s, now) > 1 && Missed(Intervals(cfg, s, now)) >= cfg.graceHeartbeats
  }

  lemma QuotientAtLeast(a: nat, b: nat, n: nat)
    requires b > 0
    ensures a / b >= n <==> a >= n * b
  {
    var q := a / b;
    assert q * b <= a < (q + 1) * b;
    if q >= n {
      assert q * b >= n * b;
    } else {
      assert (q + 1) * b <= n * b;
    }
  }

  function Patience(cfg: Config): nat {
    if cfg.graceHeartbeats == 0 then 2 else cfg.graceHeartbeats + 1
  }

  /** While the missed count fits in 32 bits, a check times out exactly when one
      interval more than the grace, and at least two, have passed in full. */
  lemma TimeoutExact(cfg: Config, s: Session, now: Milliseconds)
    requires cfg.heartbeatInterval > 0 && Intervals(cfg, s, now) <= WORD32
    ensures TimesOut(cfg, s, now) <==> s.lastReceived + Patience(cfg) * cfg.heartbeatInterval <= now
  {
    QuotientAtLeast(SatSub(now, s.lastReceived), cfg.heartbeatInterval, Patience(cfg));
    assert Patience(cfg) * cfg.heartbeatInterval > 0;
  }

  /** For every time: the check does what it promises exactly when the count has not
      wrapped to less than the grace. */
  lemma TimeoutAgreesIff(cfg: Config, s: Session, now: Milliseconds)
    requires cfg.heartbeatInterval > 0
    ensures (TimesOut(cfg, s, now) <==> s.lastReceived + Patience(cfg) * cfg.heartbeatInterval <= now)
       <==> Intervals(cfg, s, now) <= WORD32 || Missed(Intervals(cfg, s, now)) >= cfg.graceHeartbeats
  {
    if Intervals(cfg, s, now) <= WORD32 {
      TimeoutExact(cfg, s, now);
    } else {
      QuotientAtLeast(SatSub(now, s.lastReceived), cfg.heartbeatInterval, Patience(cfg));
    }
  }

  /** Beyond that the count wraps and the timeout can be missed. */
  lemma WrappedTimeoutIsMissed(s: Session)
    requires s.lastReceived == 0
    ensures var cfg := Config(1, 3, 60, 0, 0, 0, 0);
            !TimesOut(cfg, s, WORD32 + 1) && s.lastReceived + Patience(cfg) * cfg.heartbeatInterval <= WORD32 + 1
  {
  }

  /** A check leaves a terminated session terminated exactly when it does not count
      between one and the grace in missed heartbeats. */
  lemma TerminatedStaysIff(cfg: Config, s: Session, now: Milliseconds)
    requires cfg.heartbeatInterval > 0 && s.state == Terminated
    ensures Checked(cfg, s, now).state == Terminated <==>
            !(Intervals(cfg, s, now) > 1 && 0 < Missed(Intervals(cfg, s, now)) < cfg.graceHeartbeats)
  {
  }

  /** What a check does: within two intervals nothing; later it counts the heartbeats that
      are missing, one less than the whole intervals, in 32 bits, and with that many grace
      ends the session, or degrades it. */
  lemma CheckSays(cfg: Config, s: Session, now: Milliseconds)
    requires cfg.heartbeatInterval > 0
    ensures var v := Checked(cfg, s, now);
            var n := (if now > s.lastReceived then now - s.lastReceived else 0) / cfg.heartbeatInterval;
            && v == s.(missed := v.missed, state := v.state)
            && (n <= 1 ==> v == s)
            && (n > 1 ==>
                  && v.missed as int == (n - 1) % 0x1_0000_0000
                  && v.state == if v.missed >= cfg.graceHeartbeats then Terminated
                                else if v.missed > 0 then Degraded else s.state)
            && (TimesOut(cfg, s, now) <==> n > 1 && (n - 1) % 0x1_0000_0000 >= cfg.graceHeartbeats as int)
  {
  }

  // ---------------------------------------------------------------------

  class RawSession {
    const hashing: Hashing
    const config: Config
    const sessionId: Id
    var sessionKey: Key
    var prevSessionKey: Option<Key>
    var sequence: u64
    var peerSequence: u64
    var lastSent: Milliseconds
    var lastReceived: Milliseconds
    var missed: u32
    var state: State
    var lastRotation: Milliseconds
    var rotationCount: nat

    ghost function View(): Session
      reads this
    {
      Session(sessionId, sessionKey, prevSessionKey, sequence, peerSequence, lastSent, lastReceived, missed, state,
              lastRotation, rotationCount)
    }

    constructor (hashing: Hashing, config: Config, id: Id, key: Key, now: Milliseconds)
      ensures this.hashing == hashing && this.config == config && View() == NewSession(id, key, now)
    {
      this.hashing := hashing;
      this.config := config;
      this.sessionId := id;
      this.sessionKey := key;
      this.prevSessionKey := None;
      this.sequence := 0;
      this.peerSequence := 0;
      this.lastSent := now;
      this.lastReceived := now;
      this.missed := 0;
      this.state := Active;
      this.lastRotation := 0;
      this.rotationCount := 0;
    }

    /** Sending does not rotate the sender's own key. */
    method CreateHeartbeat(contribution: Bytes32, now: u64) returns (b: Heartbeat)
      requires config.keyRotationInterval > 0
      modifies this
      ensures View() == old(View()).(sequence := (old(sequence) + 1) % WORD64, lastSent := now)
      ensures HmacValid(hashing, View(), b) && b.sessionId == sessionId && b.sequence == sequence && b.timestamp == now
      ensures b.keyRotation.Some? <==> sequence % config.keyRotationInterval == 0
      ensures b.keyRotation.Some? ==>
                && b.keyRotation.value.contribution == contribution
                && b.keyRotation.value.hmac == hashing.contribution(sessionKey, contribution)
    {
      sequence := (sequence + 1) % WORD64;
      lastSent := now;
      var hmac := hashing.heartbeat(sessionKey, sessionId, sequence, now);
      var rotation: Option<KeyRotation> := None;
      if sequence % config.keyRotationInterval == 0 {
        rotation := Some(KeyRotation(contribution, hashing.contribution(sessionKey, contribution)));
      }
      return Heartbeat(sessionId, sequence, now, hmac, rotation);
    }

    /** A heartbeat is accepted and recorded, or rejected without a trace. */
    method ProcessHeartbeat(b: Heartbeat, now: Milliseconds) returns (r: Result<HeartbeatAck, RawSessionError>)
      modifies this
      ensures match HeartbeatError(hashing, config, old(View()), b, now)
              case Some(e) => r == Err(e) && View() == old(View())
              case None =>
                && View() == Received(hashing, old(View()), b, now)
                && r == Ok(HeartbeatAck(sessionId, b.sequence, hashing.ack(sessionKey, sessionId, b.sequence)))
    {
      var refused := CheckAdmission(b, now);
      if refused.Some? {
        return Err(refused.value);
      }
      if b.keyRotation.Some? {
        var error := ProcessKeyRotation(b.keyRotation.value, now);
        if error.Some? {
          return Err(error.value);
        }
      }
      peerSequence := b.sequence;
      lastReceived := now;
      missed := 0;
      state := Active;
      return Ok(HeartbeatAck(sessionId, b.sequence, hashing.ack(sessionKey, sessionId, b.sequence)));
    }

    method CheckAdmission(b: Heartbeat, now: Milliseconds) returns (error: Option<RawSessionError>)
      ensures error == AdmissionError(hashing, config, View(), b, now)
    {
      if b.sessionId != sessionId {
        return Some(SessionNotFound);
      }
      if state == Terminated {
        return Some(SessionTerminated);
      }
      var difference := if b.timestamp > now then b.timestamp - now else now - b.timestamp;
      if difference > config.maxClockSkew {
        return Some(TimestampOutOfRange);
      }
      if b.sequence <= peerSequence {
        return Some(ReplayDetected);
      }
      if b.sequence > (peerSequence as int + config.sequenceWindow as int) % WORD64 {
        return Some(SequenceOutOfWindow);
      }
      var valid := b.hmac == hashing.heartbeat(sessionKey, sessionId, b.sequence, b.timestamp);
      if !valid && prevSessionKey.Some? {
        valid := b.hmac == hashing.heartbeat(prevSessionKey.value, sessionId, b.sequence, b.timestamp);
      }
      if !valid {
        return Some(InvalidHmac);
      }
      return None;
    }

    method ProcessKeyRotation(rotation: KeyRotation, now: Milliseconds) returns (error: Option<RawSessionError>)
      modifies this
      ensures error == RotationError(hashing, config, old(View()), rotation, now)
      ensures View() == if error.Some? then old(View()) else Rotated(hashing, old(View()), rotation, now)
    {
      if lastRotation > 0 {
        if SatSub(now, lastRotation) < config.minRotationInterval {
          return Some(RotationTooFrequent);
        }
      }
      if rotationCount >= config.maxRotations {
        return Some(RotationLimitExceeded);
      }
      if rotation.hmac != hashing.contribution(sessionKey, rotation.contribution) {
        return Some(KeyRotationFailed);
      }
      var key := hashing.nextKey(sessionKey, rotation.contribution, sequence);
      prevSessionKey := Some(sessionKey);
      sessionKey := key;
      lastRotation := now;
      rotationCount := rotationCount + 1;
      return None;
    }

    /** An acknowledgement is checked and changes nothing. */
    method ProcessAck(ack: HeartbeatAck) returns (r: Result<(), RawSessionError>)
      ensures r == AckResult(hashing, View(), ack)
    {
      if ack.sessionId != sessionId {
        return Err(SessionNotFound);
      }
      if ack.hmac != hashing.ack(sessionKey, sessionId, ack.ackSequence) {
        if prevSessionKey.Some? {
          if ack.hmac != hashing.ack(prevSessionKey.value, sessionId, ack.ackSequence) {
            return Err(InvalidHmac);
          }
        } else {
          return Err(InvalidHmac);
        }
      }
      return Ok(());
    }

    method CheckHeartbeatTimeout(now: Milliseconds) returns (terminated: bool)
      requires config.heartbeatInterval > 0
      modifies this
      ensures View() == Checked(config, old(View()), now)
      ensures terminated <==> TimesOut(config, old(View()), now)
    {
      var expected := SatSub(now, lastReceived) / config.heartbeatInterval;
      if expected > 1 {
        missed := (expected - 1) % WORD32;
        if missed >= config.graceHeartbeats {
          state := Terminated;
          return true;
        } else if missed > 0 {
          state := Degraded;
        }
      }
      return false;
    }
  }
}
