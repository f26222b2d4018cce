/** Every interleaving of concurrent calls through one gate, with the kill
    switch and both clocks changing in between. */
module PolicyRuns {
  import opened Policy

  type CallId = nat

  datatype Call = Call(capability: Capability, peer: Peer, phase: Phase, released: bool)

  /** One pass of the rate limit. */
  datatype Stamp = Stamp(call: CallId, at: Instant)

  datatype World = World(
    gate: Gate,
    wall: UnixSeconds,
    now: Instant,
    calls: map<CallId, Call>,
    log: map<Key, seq<Stamp>>)

  datatype Step =
    | Tick(elapsed: Duration)
    | SetWall(seconds: UnixSeconds)
    | Freeze
    | Unfreeze
    | Suspend(suspect: Peer)
    | Unsuspend(suspect: Peer)
    | Enter(call: CallId, capability: Capability, peer: Peer)
    | Advance(call: CallId)
    | Release(call: CallId)

  function Init(entries: Entries, wall: UnixSeconds): World {
    World(Opened(entries), wall, 0, map[], map[])
  }

  predicate Held(c: Call) {
    c.phase == Done(Allowed) && !c.released
  }

  function StampsOf(log: map<Key, seq<Stamp>>, key: Key): seq<Stamp> {
    if key in log then log[key] else []
  }

  predicate Stamping(entries: Entries, w: World, c: Call) {
    c.phase == AtRate && c.capability in entries
    && !TooSoon(entries[c.capability], w.gate.stamps, (c.capability, c.peer), w.now)
  }

  function Advanced(entries: Entries, w: World, k: CallId): World
    requires k in w.calls && w.calls[k].capability in entries
  {
    var c := w.calls[k];
    var e := entries[c.capability];
    var key := (c.capability, c.peer);
    w.(gate := NextGate(e, w.gate, c.phase, c.capability, c.peer, w.now),
       calls := w.calls[k := c.(phase := NextPhase(e, w.gate, c.phase, c.capability, c.peer, w.wall, w.now))],
       log := if Stamping(entries, w, c) then w.log[key := StampsOf(w.log, key) + [Stamp(k, w.now)]] else w.log)
  }

  function Next(entries: Entries, w: World, s: Step): World {
    match s
    case Tick(d) => w.(now := w.now + d)
    case SetWall(t) => w.(wall := t)
    case Freeze => w.(gate := w.gate.(frozen := true))
    case Unfreeze => w.(gate := w.gate.(frozen := false))
    case Suspend(p) => w.(gate := w.gate.(suspended := w.gate.suspended + {p}))
    case Unsuspend(p) => w.(gate := w.gate.(suspended := w.gate.suspended - {p}))
    case Enter(k, c, p) =>
      if k in w.calls then w
      else w.(calls := w.calls[k := Call(c, p, if c in entries then AtSuspension else Done(NotAuthorized), false)])
    case Advance(k) =>
      if k in w.calls && w.calls[k].capability in entries then Advanced(entries, w, k) else w
    case Release(k) =>
      if k !in w.calls || !Held(w.calls[k]) || w.calls[k].capability !in w.gate.available then w
      else
        var c := w.calls[k];
        w.(gate := Released(w.gate, c.capability),
           calls := w.calls[k := c.(released := true)])
  }

  function Run(entries: Entries, w: World, steps: seq<Step>): World
    decreases |steps|
  {
    if steps == [] then w else Run(entries, Next(entries, w, steps[0]), steps[1..])
  }

  // ---------------------------------------------------------------------
  // Permits.

  function Holders(w: World, c: Capability): set<CallId> {
    set k | k in w.calls && w.calls[k].capability == c && Held(w.calls[k])
  }

  /** Permits are conserved: those free and those held add up to the limit. */
  predicate PermitsOk(entries: Entries, w: World) {
    forall c :: c in entries ==>
      c in w.gate.available && w.gate.available[c] + |Holders(w, c)| == entries[c].concurrency
  }

  predicate CallOk(entries: Entries, c: Call) {
    && (c.released ==> c.phase == Done(Allowed))
    && (c.capability !in entries ==> c.phase == Done(NotAuthorized))
  }

  predicate CallsOk(entries: Entries, w: World) {
    forall k :: k in w.calls ==> CallOk(entries, w.calls[k])
  }

  lemma PermitsInit(entries: Entries, wall: UnixSeconds)
    ensures PermitsOk(entries, Init(entries, wall)) && CallsOk(entries, Init(entries, wall))
  {
    forall c | c in entries ensures Holders(Init(entries, wall), c) == {} {
    }
  }

  lemma HoldersSame(w: World, v: World, c: Capability)
    requires forall k :: k in w.calls ==> k in v.calls && v.calls[k].capability == w.calls[k].capability
                                          && (w.calls[k].capability == c ==> Held(v.calls[k]) == Held(w.calls[k]))
    requires forall k :: k in v.calls && k !in w.calls ==> !Held(v.calls[k])
    ensures Holders(v, c) == Holders(w, c)
  {
  }

  predicate Taking(w: World, c: Call) {
    c.phase == AtPermit && c.capability in w.gate.available && w.gate.available[c.capability] > 0
  }

  lemma HoldersAfterAdvance(entries: Entries, w: World, k: CallId, c: Capability)
    requires CallsOk(entries, w) && k in w.calls && w.calls[k].capability in entries
    ensures var v := Advanced(entries, w, k);
            if c == w.calls[k].capability && Taking(w, w.calls[k])
            then k !in Holders(w, c) && Holders(v, c) == Holders(w, c) + {k}
            else Holders(v, c) == Holders(w, c)
  {
    assert CallOk(entries, w.calls[k]);
    var v := Advanced(entries, w, k);
    if !(c == w.calls[k].capability && Taking(w, w.calls[k])) {
      HoldersSame(w, v, c);
    }
  }

  lemma PermitsAfterAdvance(entries: Entries, w: World, k: CallId)
    requires PermitsOk(entries, w) && CallsOk(entries, w) && k in w.calls && w.calls[k].capability in entries
    ensures PermitsOk(entries, Advanced(entries, w, k))
  {
    var v := Advanced(entries, w, k);
    var d := w.calls[k].capability;
    assert v.gate.available == if Taking(w, w.calls[k]) then w.gate.available[d := w.gate.available[d] - 1]
                               else w.gate.available;
    forall c | c in entries
      ensures c in v.gate.available && v.gate.available[c] + |Holders(v, c)| == entries[c].concurrency
    {
      HoldersAfterAdvance(entries, w, k, c);
    }
  }

  lemma HoldersAfterRelease(entries: Entries, w: World, k: CallId, c: Capability)
    requires k in w.calls && Held(w.calls[k]) && w.calls[k].capability in w.gate.available
    ensures var v := Next(entries, w, Release(k));
            if c == w.calls[k].capability then k !in Holders(v, c) && Holders(w, c) == Holders(v, c) + {k}
            else Holders(v, c) == Holders(w, c)
  {
    if c != w.calls[k].capability {
      HoldersSame(w, Next(entries, w, Release(k)), c);
    }
  }

  lemma PermitsAfterRelease(entries: Entries, w: World, k: CallId)
    requires PermitsOk(entries, w) && CallsOk(entries, w) && k in w.calls && Held(w.calls[k])
    ensures PermitsOk(entries, Next(entries, w, Release(k)))
  {
    var v := Next(entries, w, Release(k));
    assert CallOk(entries, w.calls[k]);
    forall c | c in entries
      ensures c in v.gate.available && v.gate.available[c] + |Holders(v, c)| == entries[c].concurrency
    {
      HoldersAfterRelease(entries, w, k, c);
    }
  }

  lemma PermitsKept(entries: Entries, w: World, s: Step)
    requires PermitsOk(entries, w) && CallsOk(entries, w)
    ensures PermitsOk(entries, Next(entries, w, s)) && CallsOk(entries, Next(entries, w, s))
  {
    if s.Advance? {
      if s.call in w.calls && w.calls[s.call].capability in entries {
        PermitsAfterAdvance(entries, w, s.call);
      }
    } else if s.Release? {
      if s.call in w.calls && Held(w.calls[s.call]) {
        PermitsAfterRelease(entries, w, s.call);
      }
    } else {
      var v := Next(entries, w, s);
      forall c | c in entries ensures Holders(v, c) == Holders(w, c) {
        HoldersSame(w, v, c);
      }
    }
  }

  lemma {:induction false} PermitsKeptByRun(entries: Entries, w: World, steps: seq<Step>)
    requires PermitsOk(entries, w) && CallsOk(entries, w)
    ensures PermitsOk(entries, Run(entries, w, steps))
    decreases |steps|
  {
    if steps != [] {
      PermitsKept(entries, w, steps[0]);
      PermitsKeptByRun(entries, Next(entries, w, steps[0]), steps[1..]);
    }
  }

  /** In every run the outstanding permits of a capability never exceed its limit. */
  lemma PermitsBounded(entries: Entries, wall: UnixSeconds, steps: seq<Step>, c: Capability)
    requires c in entries
    ensures |Holders(Run(entries, Init(entries, wall), steps), c)| <= entries[c].concurrency
  {
    PermitsInit(entries, wall);
    PermitsKeptByRun(entries, Init(entries, wall), steps);
  }
}
