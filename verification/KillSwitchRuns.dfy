/** The kill switch and allowlist expiry over every run of the gate. */
module KillSwitchRuns {
  import opened Policy
  import opened PolicyRuns

  /** An outcome, once reached, is never another. */
  lemma {:induction false} OutcomeIsFinal(entries: Entries, w: World, steps: seq<Step>, k: CallId)
    requires k in w.calls && w.calls[k].phase.Done?
    ensures var v := Run(entries, w, steps);
            k in v.calls && v.calls[k].phase == w.calls[k].phase
    decreases |steps|
  {
    if steps != [] {
      OutcomeIsFinal(entries, Next(entries, w, steps[0]), steps[1..], k);
    }
  }

  // ---------------------------------------------------------------------
  // Freezing.

  predicate Freezable(entries: Entries, c: Call) {
    c.capability in entries && entries[c.capability].tier != Tier0
  }

  predicate BeforeFreezeRead(p: Phase) {
    p == AtSuspension || p == AtFreeze
  }

  /** Call `k` has not started, or has yet to read the freeze flag, or has been refused. */
  predicate Stoppable(entries: Entries, w: World, k: CallId) {
    k in w.calls && Freezable(entries, w.calls[k]) ==>
      BeforeFreezeRead(w.calls[k].phase) || (w.calls[k].phase.Done? && w.calls[k].phase != Done(Allowed))
  }

  lemma {:induction false} StaysStopped(entries: Entries, w: World, steps: seq<Step>, k: CallId)
    requires w.gate.frozen && Stoppable(entries, w, k)
    requires Unfreeze !in steps
    ensures Stoppable(entries, Run(entries, w, steps), k)
    decreases |steps|
  {
    if steps != [] {
      var v := Next(entries, w, steps[0]);
      assert steps[0] in steps;
      assert v.gate.frozen && Stoppable(entries, v, k);
      StaysStopped(entries, v, steps[1..], k);
    }
  }

  /** A call above Tier 0 that reads the flag while it is set is refused and stays
      refused, in every run, also if the freeze is lifted right after the read. */
  lemma FrozenStopsCalls(entries: Entries, w: World, k: CallId, steps: seq<Step>)
    requires k in w.calls && w.calls[k].phase == AtFreeze && Freezable(entries, w.calls[k]) && w.gate.frozen
    ensures var v := Run(entries, Next(entries, w, Advance(k)), steps);
            k in v.calls && v.calls[k].phase == Done(Frozen)
  {
    OutcomeIsFinal(entries, Next(entries, w, Advance(k)), steps, k);
  }

  /** So while the freeze lasts, no call above Tier 0 that has not yet read the flag is allowed. */
  lemma FreezeStopsAllToCome(entries: Entries, w: World, steps: seq<Step>, k: CallId)
    requires w.gate.frozen && Unfreeze !in steps
    requires k in w.calls ==> BeforeFreezeRead(w.calls[k].phase)
    ensures var v := Run(entries, w, steps);
            k in v.calls && Freezable(entries, v.calls[k]) ==> v.calls[k].phase != Done(Allowed)
  {
    StaysStopped(entries, w, steps, k);
  }

  /** A call past the read goes on as if there were no freeze: freezing now or
      not, the rest of its own sections give the same outcome. */
  lemma FrozenIsReadOnce(e: Entry, g: Gate, phase: Phase, c: Capability, p: Peer, wall: UnixSeconds, now: Instant)
    requires !BeforeFreezeRead(phase)
    ensures CheckFrom(e, g.(frozen := true), phase, c, p, wall, now).outcome
            == CheckFrom(e, g, phase, c, p, wall, now).outcome
    decreases Rank(phase)
  {
    if !phase.Done? {
      var next := NextPhase(e, g, phase, c, p, wall, now);
      assert NextGate(e, g.(frozen := true), phase, c, p, now) == NextGate(e, g, phase, c, p, now).(frozen := true);
      FrozenIsReadOnce(e, NextGate(e, g, phase, c, p, now), next, c, p, wall, now);
    }
  }

  // ---------------------------------------------------------------------
  // Suspension.

  predicate Barred(w: World, p: Peer, k: CallId) {
    k in w.calls && w.calls[k].peer == p ==>
      w.calls[k].phase == AtSuspension || (w.calls[k].phase.Done? && w.calls[k].phase != Done(Allowed))
  }

  lemma {:induction false} StaysBarred(entries: Entries, w: World, steps: seq<Step>, p: Peer, k: CallId)
    requires p in w.gate.suspended && Barred(w, p, k)
    requires Unsuspend(p) !in steps
    ensures Barred(Run(entries, w, steps), p, k)
    decreases |steps|
  {
    if steps != [] {
      var v := Next(entries, w, steps[0]);
      assert steps[0] in steps;
      assert p in v.gate.suspended && Barred(v, p, k);
      StaysBarred(entries, v, steps[1..], p, k);
    }
  }

  /** A call of a peer that is suspended when the call checks is refused and stays
      refused, whatever the tier, also if the suspension is lifted right after. */
  lemma SuspendedStopsCalls(entries: Entries, w: World, k: CallId, steps: seq<Step>)
    requires k in w.calls && w.calls[k].phase == AtSuspension && w.calls[k].peer in w.gate.suspended
    requires w.calls[k].capability in entries
    ensures var v := Run(entries, Next(entries, w, Advance(k)), steps);
            k in v.calls && v.calls[k].phase == Done(Suspended)
  {
    OutcomeIsFinal(entries, Next(entries, w, Advance(k)), steps, k);
  }

  /** So while a suspension lasts, none of the peer's calls not yet checked is allowed. */
  lemma SuspensionStopsAllToCome(entries: Entries, w: World, steps: seq<Step>, p: Peer, k: CallId)
    requires p in w.gate.suspended && Unsuspend(p) !in steps
    requires k in w.calls ==> w.calls[k].phase == AtSuspension
    ensures var v := Run(entries, w, steps);
            k in v.calls && v.calls[k].peer == p ==> v.calls[k].phase != Done(Allowed)
  {
    StaysBarred(entries, w, steps, p, k);
  }

  // ---------------------------------------------------------------------
  // Expiry: an expired peer is an absent one.

  /** The entries without the peers that have expired by `wall`. */
  function Pruned(entries: Entries, wall: UnixSeconds): Entries {
    map c | c in entries :: entries[c].(allowedPeers := LivePeers(entries[c], wall))
  }

  lemma PrunedPeers(e: Entry, wall: UnixSeconds, p: Peer, later: UnixSeconds)
    requires wall <= later
    ensures PeerAllowed(LivePeers(e, wall), p, later) == PeerAllowed(e.allowedPeers, p, later)
  {
  }

  lemma PrunedStep(entries: Entries, wall: UnixSeconds, w: World, s: Step)
    requires wall <= w.wall
    ensures Next(Pruned(entries, wall), w, s) == Next(entries, w, s)
  {
    if s.Advance? && s.call in w.calls && w.calls[s.call].capability in entries {
      var c := w.calls[s.call];
      PrunedPeers(entries[c.capability], wall, c.peer, w.wall);
    }
  }

  /** As long as the wall clock does not go back behind `wall`, the gate behaves
      in every run as if the peers expired by then had never been listed. */
  lemma {:induction false} ExpiredIsAbsent(entries: Entries, wall: UnixSeconds, w: World, steps: seq<Step>)
    requires wall <= w.wall
    requires forall s :: s in steps && s.SetWall? ==> wall <= s.seconds
    ensures Run(Pruned(entries, wall), w, steps) == Run(entries, w, steps)
    decreases |steps|
  {
    if steps != [] {
      assert steps[0] in steps;
      PrunedStep(entries, wall, w, steps[0]);
      ExpiredIsAbsent(entries, wall, Next(entries, w, steps[0]), steps[1..]);
    }
  }

  /** And so do the queries. */
  lemma ExpiredIsAbsentInQueries(entries: Entries, wall: UnixSeconds, c: Capability, p: Peer, later: UnixSeconds)
    requires wall <= later
    ensures Allows(Pruned(entries, wall), c, p, later) == Allows(entries, c, p, later)
    ensures c in entries ==> LivePeers(Pruned(entries, wall)[c], later) == LivePeers(entries[c], later)
  {
    if c in entries {
      forall q
        ensures PeerAllowed(LivePeers(entries[c], wall), q, later) == PeerAllowed(entries[c].allowedPeers, q, later)
      {
        PrunedPeers(entries[c], wall, q, later);
      }
    }
  }

  // ---------------------------------------------------------------------
  // A call with nothing in between is the sequential check.

  function Advances(k: CallId, n: nat): seq<Step> {
    if n == 0 then [] else [Advance(k)] + Advances(k, n - 1)
  }

  lemma {:induction false} AdvancesAreCheck(entries: Entries, w: World, k: CallId, n: nat)
    requires k in w.calls && w.calls[k].capability in entries && n >= Rank(w.calls[k].phase)
    ensures var c := w.calls[k];
            var v := Run(entries, w, Advances(k, n));
            var r := CheckFrom(entries[c.capability], w.gate, c.phase, c.capability, c.peer, w.wall, w.now);
            k in v.calls && v.calls[k].phase == Done(r.outcome) && v.gate == r.gate
    decreases n
  {
    if n > 0 {
      assert Advances(k, n)[0] == Advance(k) && Advances(k, n)[1..] == Advances(k, n - 1);
      var v := Next(entries, w, Advance(k));
      AdvancesAreCheck(entries, v, k, n - 1);
    }
  }

  /** Entering and running through all sections at one moment does what the
      sequential check does. */
  lemma UninterruptedIsCheck(entries: Entries, w: World, k: CallId, c: Capability, p: Peer)
    requires k !in w.calls
    ensures var v := Run(entries, Next(entries, w, Enter(k, c, p)), Advances(k, 5));
            var r := Check(entries, w.gate, c, p, w.wall, w.now);
            k in v.calls && v.calls[k].phase == Done(r.outcome) && v.gate == r.gate
  {
    var u := Next(entries, w, Enter(k, c, p));
    if c in entries {
      AdvancesAreCheck(entries, u, k, 5);
    } else {
      StuckCall(entries, u, k, 5);
    }
  }

  lemma {:induction false} StuckCall(entries: Entries, w: World, k: CallId, n: nat)
    requires k in w.calls && w.calls[k].capability !in entries
    ensures Run(entries, w, Advances(k, n)) == w
  {
    if n > 0 {
      assert Advances(k, n)[0] == Advance(k) && Advances(k, n)[1..] == Advances(k, n - 1);
      StuckCall(entries, w, k, n - 1);
    }
  }
}
