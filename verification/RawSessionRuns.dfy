/** RAW sessions over every run with a clock that does not go back. */
module RawSessionRuns {
  import opened Prelude
  import opened RawSession

  /** A heartbeat, when it was accepted, and how far the own sequence was then. */
  datatype Beat = Beat(heartbeat: Heartbeat, at: Milliseconds, ownSequence: u64)

  /** A session, the clock, the heartbeats it has accepted and when it rotated its key. */
  datatype World = World(session: Session, now: Milliseconds, beats: seq<Beat>, rotations: seq<Milliseconds>)

  datatype Step =
    | Tick(elapsed: Milliseconds)
    | Receive(heartbeat: Heartbeat)
    | CheckTimeout
    | Send

  function Init(id: Id, key: Key, now: Milliseconds): World {
    World(NewSession(id, key, now), now, [], [])
  }

  function Accepting(h: Hashing, cfg: Config, w: World, b: Heartbeat): World {
    World(Received(h, w.session, b, w.now), w.now, w.beats + [Beat(b, w.now, w.session.sequence)],
          if b.keyRotation.Some? then w.rotations + [w.now] else w.rotations)
  }

  function Next(h: Hashing, cfg: Config, w: World, s: Step): World
    requires cfg.heartbeatInterval > 0
  {
    match s
    case Tick(d) => w.(now := w.now + d)
    case Receive(b) => if HeartbeatError(h, cfg, w.session, b, w.now).Some? then w else Accepting(h, cfg, w, b)
    case CheckTimeout => w.(session := Checked(cfg, w.session, w.now))
    case Send => w.(session := w.session.(sequence := (w.session.sequence + 1) % WORD64, lastSent := w.now))
  }

  function Run(h: Hashing, cfg: Config, w: World, steps: seq<Step>): World
    requires cfg.heartbeatInterval > 0
    decreases |steps|
  {
    if steps == [] then w else Run(h, cfg, Next(h, cfg, w, steps[0]), steps[1..])
  }

  // ---------------------------------------------------------------------
  // The invariant.

  /** Accepted sequence numbers go up, each by no more than the window, starting from zero. */
  predicate BeatsOk(cfg: Config, beats: seq<Beat>) {
    forall i :: 0 <= i < |beats| ==>
      var before := if i == 0 then 0 else beats[i - 1].heartbeat.sequence;
      before < beats[i].heartbeat.sequence <= before + cfg.sequenceWindow
  }

  /** Rotations are in order and, after one at a positive time, spaced. */
  predicate RotationsOk(cfg: Config, rotations: seq<Milliseconds>) {
    forall i :: 0 < i < |rotations| ==>
      && rotations[i - 1] <= rotations[i]
      && (rotations[i - 1] > 0 ==> rotations[i - 1] + cfg.minRotationInterval <= rotations[i])
  }

  /** The session remembers the end of each history. */
  predicate SessionOk(cfg: Config, start: Milliseconds, w: World) {
    var s := w.session;
    && s.peerSequence == (if w.beats == [] then 0 else w.beats[|w.beats| - 1].heartbeat.sequence)
    && s.lastReceived == (if w.beats == [] then start else w.beats[|w.beats| - 1].at) <= w.now
    && s.lastRotation == (if w.rotations == [] then 0 else w.rotations[|w.rotations| - 1]) <= w.now
    && s.rotationCount == |w.rotations| <= cfg.maxRotations
  }

  /** A terminated session has gone without a heartbeat for longer than the grace. */
  predicate Overdue(cfg: Config, w: World)
    requires cfg.heartbeatInterval > 0
  {
    var n := Intervals(cfg, w.session, w.now);
    n > 1 && n - 1 >= cfg.graceHeartbeats
  }

  predicate Inv(cfg: Config, start: Milliseconds, w: World)
    requires cfg.heartbeatInterval > 0
  {
    && BeatsOk(cfg, w.beats) && RotationsOk(cfg, w.rotations) && SessionOk(cfg, start, w)
    && (w.session.state == Terminated ==> Overdue(cfg, w))
  }

  lemma BeatsAppend(cfg: Config, beats: seq<Beat>, b: Beat)
    requires BeatsOk(cfg, beats)
    requires var before := if beats == [] then 0 else beats[|beats| - 1].heartbeat.sequence;
             before < b.heartbeat.sequence <= before + cfg.sequenceWindow
    ensures BeatsOk(cfg, beats + [b])
  {
  }

  lemma RotationsAppend(cfg: Config, rotations: seq<Milliseconds>, t: Milliseconds)
    requires RotationsOk(cfg, rotations)
    requires rotations != [] ==>
               var last := rotations[|rotations| - 1];
               last <= t && (last > 0 ==> last + cfg.minRotationInterval <= t)
    ensures RotationsOk(cfg, rotations + [t])
  {
  }

  /** An accepted sequence number is past the last one and within the window, wrapped or not. */
  lemma AcceptedInWindow(h: Hashing, cfg: Config, s: Session, b: Heartbeat, now: Milliseconds)
    requires HeartbeatError(h, cfg, s, b, now).None?
    ensures s.peerSequence < b.sequence <= s.peerSequence as int + cfg.sequenceWindow as int
    ensures s.state != Terminated
    ensures b.keyRotation.Some? ==>
              && s.rotationCount < cfg.maxRotations
              && (s.lastRotation > 0 ==> SatSub(now, s.lastRotation) >= cfg.minRotationInterval)
  {
  }

  lemma KeptByAccept(h: Hashing, cfg: Config, start: Milliseconds, w: World, b: Heartbeat)
    requires cfg.heartbeatInterval > 0 && Inv(cfg, start, w) && HeartbeatError(h, cfg, w.session, b, w.now).None?
    ensures Inv(cfg, start, Accepting(h, cfg, w, b))
  {
    AcceptedInWindow(h, cfg, w.session, b, w.now);
    BeatsAppend(cfg, w.beats, Beat(b, w.now, w.session.sequence));
    if b.keyRotation.Some? {
      RotationsAppend(cfg, w.rotations, w.now);
    }
  }

  lemma OverdueLater(cfg: Config, w: World, elapsed: Milliseconds)
    requires cfg.heartbeatInterval > 0 && Overdue(cfg, w)
    ensures Overdue(cfg, w.(now := w.now + elapsed))
  {
    var n := Intervals(cfg, w.session, w.now);
    QuotientAtLeast(SatSub(w.now, w.session.lastReceived), cfg.heartbeatInterval, n);
    QuotientAtLeast(SatSub(w.now + elapsed, w.session.lastReceived), cfg.heartbeatInterval, n);
  }

  lemma OverdueAfterCheck(cfg: Config, w: World)
    requires cfg.heartbeatInterval > 0 && (w.session.state == Terminated ==> Overdue(cfg, w))
    ensures var v := w.(session := Checked(cfg, w.session, w.now));
            v.session.state == Terminated ==> Overdue(cfg, v)
  {
    var n := Intervals(cfg, w.session, w.now);
    if n > 1 {
      assert Missed(n) <= n - 1;
    }
  }

  lemma Kept(h: Hashing, cfg: Config, start: Milliseconds, w: World, s: Step)
    requires cfg.heartbeatInterval > 0 && Inv(cfg, start, w)
    ensures Inv(cfg, start, Next(h, cfg, w, s))
  {
    match s
    case Tick(d) =>
      if w.session.state == Terminated {
        OverdueLater(cfg, w, d);
      }
    case Receive(b) =>
      if HeartbeatError(h, cfg, w.session, b, w.now).None? {
        KeptByAccept(h, cfg, start, w, b);
      }
    case CheckTimeout => OverdueAfterCheck(cfg, w);
    case Send =>
  }

  lemma {:induction false} KeptByRun(h: Hashing, cfg: Config, start: Milliseconds, w: World, steps: seq<Step>)
    requires cfg.heartbeatInterval > 0 && Inv(cfg, start, w)
    ensures Inv(cfg, start, Run(h, cfg, w, steps))
    decreases |steps|
  {
    if steps != [] {
      Kept(h, cfg, start, w, steps[0]);
      KeptByRun(h, cfg, start, Next(h, cfg, w, steps[0]), steps[1..]);
    }
  }

  // ---------------------------------------------------------------------
  // What this means.

  /** In every run accepted sequence numbers strictly increase by at most the
      window, and rotations stay within the cap and spaced. */
  lemma HistoriesInOrder(h: Hashing, cfg: Config, id: Id, key: Key, start: Milliseconds, steps: seq<Step>)
    requires cfg.heartbeatInterval > 0
    ensures var w := Run(h, cfg, Init(id, key, start), steps);
            BeatsOk(cfg, w.beats) && RotationsOk(cfg, w.rotations) && |w.rotations| <= cfg.maxRotations
  {
    KeptByRun(h, cfg, start, Init(id, key, start), steps);
  }

  function LastBeat(w: World, start: Milliseconds): Milliseconds {
    if w.beats == [] then start else w.beats[|w.beats| - 1].at
  }

  /** In every run, a check terminates the session exactly when a full interval
      more than the grace has passed since the last accepted heartbeat. */
  lemma TimesOutWhenOverdue(h: Hashing, cfg: Config, id: Id, key: Key, start: Milliseconds, steps: seq<Step>, w: World)
    requires cfg.heartbeatInterval > 0 && w == Run(h, cfg, Init(id, key, start), steps)
    requires Intervals(cfg, w.session, w.now) <= WORD32
    ensures TimesOut(cfg, w.session, w.now) <==> LastBeat(w, start) + Patience(cfg) * cfg.heartbeatInterval <= w.now
  {
    KeptByRun(h, cfg, start, Init(id, key, start), steps);
    TimeoutExact(cfg, w.session, w.now);
  }

  /** No check in the run overflows the count of missed heartbeats. */
  predicate Unwrapped(h: Hashing, cfg: Config, w: World, steps: seq<Step>)
    requires cfg.heartbeatInterval > 0
    decreases |steps|
  {
    steps != [] ==>
      && (steps[0].CheckTimeout? ==> Intervals(cfg, w.session, w.now) <= WORD32)
      && Unwrapped(h, cfg, Next(h, cfg, w, steps[0]), steps[1..])
  }

  /** Once terminated, for ever: nothing more is accepted. */
  lemma {:induction false} TerminatedIsFinal(h: Hashing, cfg: Config, w: World, steps: seq<Step>)
    requires cfg.heartbeatInterval > 0 && w.session.state == Terminated && Overdue(cfg, w)
             && Unwrapped(h, cfg, w, steps)
    ensures var v := Run(h, cfg, w, steps);
            v.session.state == Terminated && v.beats == w.beats && v.rotations == w.rotations
    decreases |steps|
  {
    if steps != [] {
      var v := Next(h, cfg, w, steps[0]);
      match steps[0] {
        case Tick(d) => OverdueLater(cfg, w, d);
        case CheckTimeout => OverdueAfterCheck(cfg, w);
        case Receive(_) =>
        case Send =>
      }
      TerminatedIsFinal(h, cfg, v, steps[1..]);
    }
  }

  /** From the start of any run, termination is absorbing while no count wraps. */
  lemma TerminationAbsorbs(h: Hashing, cfg: Config, id: Id, key: Key, start: Milliseconds, steps: seq<Step>,
                           later: seq<Step>, w: World)
    requires cfg.heartbeatInterval > 0 && w == Run(h, cfg, Init(id, key, start), steps)
    requires w.session.state == Terminated && Unwrapped(h, cfg, w, later)
    ensures var v := Run(h, cfg, w, later);
            v.session.state == Terminated && v.beats == w.beats
  {
    KeptByRun(h, cfg, start, Init(id, key, start), steps);
    TerminatedIsFinal(h, cfg, w, later);
  }

  /** No check in the run counts between one and the grace in missed heartbeats. */
  predicate Unrevived(h: Hashing, cfg: Config, w: World, steps: seq<Step>)
    requires cfg.heartbeatInterval > 0
    decreases |steps|
  {
    steps != [] ==>
      && (steps[0].CheckTimeout? ==>
            !(Intervals(cfg, w.session, w.now) > 1
              && 0 < Missed(Intervals(cfg, w.session, w.now)) < cfg.graceHeartbeats))
      && Unrevived(h, cfg, Next(h, cfg, w, steps[0]), steps[1..])
  }

  predicate TerminatedThroughout(h: Hashing, cfg: Config, w: World, steps: seq<Step>)
    requires cfg.heartbeatInterval > 0
    decreases |steps|
  {
    && w.session.state == Terminated
    && (steps != [] ==> TerminatedThroughout(h, cfg, Next(h, cfg, w, steps[0]), steps[1..]))
  }

  /** In any run at all, a terminated session stays terminated exactly if no check
      counts it back below the grace; and while it is, nothing is accepted. */
  lemma {:induction false} TerminationAbsorbsIff(h: Hashing, cfg: Config, w: World, steps: seq<Step>)
    requires cfg.heartbeatInterval > 0 && w.session.state == Terminated
    ensures TerminatedThroughout(h, cfg, w, steps) <==> Unrevived(h, cfg, w, steps)
    ensures TerminatedThroughout(h, cfg, w, steps) ==>
              Run(h, cfg, w, steps).beats == w.beats && Run(h, cfg, w, steps).rotations == w.rotations
    decreases |steps|
  {
    if steps != [] {
      var v := Next(h, cfg, w, steps[0]);
      if steps[0].CheckTimeout? {
        TerminatedStaysIff(cfg, w.session, w.now);
      }
      if v.session.state == Terminated {
        TerminationAbsorbsIff(h, cfg, v, steps[1..]);
      }
    }
  }

  /** If a check wraps the count, a terminated session does come back: with a grace
      of three intervals of one millisecond, ten of them terminate a new session and
      a check 2^32 - 8 later revives it. */
  lemma WrapRevives(h: Hashing, id: Id, key: Key)
    ensures var cfg := Config(1, 3, 60, 0, 0, 0, 0);
            var w := Run(h, cfg, Init(id, key, 0), [Tick(10), CheckTimeout]);
            && w.session.state == Terminated
            && Run(h, cfg, w, [Tick(WORD32 - 8), CheckTimeout]).session.state == Degraded
  {
    var cfg := Config(1, 3, 60, 0, 0, 0, 0);
    var w0 := Init(id, key, 0);
    var w1 := Next(h, cfg, w0, Tick(10));
    var w2 := Next(h, cfg, w1, CheckTimeout);
    TwoSteps(h, cfg, w0, Tick(10), CheckTimeout);
    assert Intervals(cfg, w1.session, w1.now) == 10 && w2.session.state == Terminated;
    var w3 := Next(h, cfg, w2, Tick(WORD32 - 8));
    TwoSteps(h, cfg, w2, Tick(WORD32 - 8), CheckTimeout);
    assert Intervals(cfg, w3.session, w3.now) == WORD32 + 2 && Missed(WORD32 + 2) == 1;
  }

  lemma TwoSteps(h: Hashing, cfg: Config, w: World, a: Step, b: Step)
    requires cfg.heartbeatInterval > 0
    ensures Run(h, cfg, w, [a, b]) == Next(h, cfg, Next(h, cfg, w, a), b)
  {
    assert [a, b][1..] == [b] && [b][1..] == [];
    assert Run(h, cfg, Next(h, cfg, w, a), [b]) == Next(h, cfg, Next(h, cfg, w, a), b);
  }
}
