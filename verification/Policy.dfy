/** The capability policy: which entries of a policy file register, and the
    gate every capability call passes. */
module Policy {
  import opened Prelude

  type Peer = Bytes32
  type Capability = string
  type Instant = nat
  type Duration = nat
  type UnixSeconds = nat
  type Key = (Capability, Peer)

  datatype Tier = Tier0 | Tier1 | Tier2

  /** `None` is a permanent entry; `Some(t)` stops being one at time `t`. */
  type AllowedPeers = map<Peer, Option<UnixSeconds>>

  datatype Entry = Entry(allowedPeers: AllowedPeers, rateLimit: Duration, concurrency: nat, tier: Tier)

  type Entries = map<Capability, Entry>

  // ---------------------------------------------------------------------
  // Registration.

  const POLICY_SCHEMA_VERSION: nat := 2

  /** A policy file as parsed: peers that are not 32-byte hex are already dropped. */
  datatype RawEntry = RawEntry(tier: Option<string>, allowedPeers: AllowedPeers, rateLimit: Duration, concurrency: nat)

  datatype RawPolicyFile = RawPolicyFile(
    version: nat,
    capability: map<Capability, RawEntry>,
    hasProtectedResources: bool)

  function TierOf(s: string): Option<Tier> {
    if s == "tier0" then Some(Tier0)
    else if s == "tier1" then Some(Tier1)
    else if s == "tier2" then Some(Tier2)
    else None
  }

  function TierOfRaw(raw: RawEntry): Option<Tier> {
    if raw.tier.Some? then TierOf(raw.tier.value) else None
  }

  /** An entry registers if its tier is valid and, above Tier 0, the file has a
      protected-resource section. */
  predicate Registers(raw: RawPolicyFile, name: Capability)
    requires name in raw.capability
  {
    var tier := TierOfRaw(raw.capability[name]);
    tier.Some? && (tier == Some(Tier0) || raw.hasProtectedResources)
  }

  /** Loading fails closed: a file of another version registers nothing. */
  function Load(raw: RawPolicyFile): Entries {
    if raw.version != POLICY_SCHEMA_VERSION then map[]
    else
      map name | name in raw.capability && Registers(raw, name) ::
        var e := raw.capability[name];
        Entry(e.allowedPeers, e.rateLimit, e.concurrency, TierOfRaw(e).value)
  }

  /** The loop over the file's capabilities, skipping those that do not register. */
  method LoadEntries(raw: RawPolicyFile) returns (entries: Entries)
    ensures entries == Load(raw)
  {
    entries := map[];
    if raw.version != POLICY_SCHEMA_VERSION {
      return;
    }
    var left := raw.capability.Keys;
    while left != {}
      invariant left <= raw.capability.Keys
      invariant entries == map name | name in Load(raw) && name !in left :: Load(raw)[name]
      decreases left
    {
      var name :| name in left;
      left := left - {name};
      var e := raw.capability[name];
      var tier := TierOfRaw(e);
      if tier.None? || (tier.value != Tier0 && !raw.hasProtectedResources) {
        continue;
      }
      entries := entries[name := Entry(e.allowedPeers, e.rateLimit, e.concurrency, tier.value)];
    }
  }

  // ---------------------------------------------------------------------
  // The gate.

  predicate PeerAllowed(peers: AllowedPeers, p: Peer, wall: UnixSeconds) {
    p in peers && (peers[p].None? || wall < peers[p].value)
  }

  predicate Allows(entries: Entries, c: Capability, p: Peer, wall: UnixSeconds) {
    c in entries && PeerAllowed(entries[c].allowedPeers, p, wall)
  }

  /** The peers a summary of an entry reports. */
  function LivePeers(e: Entry, wall: UnixSeconds): AllowedPeers {
    map p | p in e.allowedPeers && PeerAllowed(e.allowedPeers, p, wall) :: e.allowedPeers[p]
  }

  datatype Outcome = Allowed | NotAuthorized | RateLimited | AtConcurrencyLimit | Suspended | Frozen

  /** The mutable state: the kill switch, the time each peer was last served, and
      the free permits of each capability. */
  datatype Gate = Gate(
    frozen: bool,
    suspended: set<Peer>,
    stamps: map<Key, Instant>,
    available: map<Capability, nat>)

  function Opened(entries: Entries): Gate {
    Gate(false, {}, map[], map c | c in entries :: entries[c].concurrency)
  }

  /** How far a call has got through the gate. Each phase but the last is one
      atomic section of the check. */
  datatype Phase = AtSuspension | AtFreeze | AtAllowlist | AtRate | AtPermit | Done(outcome: Outcome)

  predicate TooSoon(e: Entry, stamps: map<Key, Instant>, key: Key, now: Instant) {
    key in stamps && SatSub(now, stamps[key]) < e.rateLimit
  }

  function NextPhase(e: Entry, g: Gate, phase: Phase, c: Capability, p: Peer, wall: UnixSeconds, now: Instant): Phase {
    match phase
    case AtSuspension => if p in g.suspended then Done(Suspended) else AtFreeze
    case AtFreeze => if e.tier != Tier0 && g.frozen then Done(Frozen) else AtAllowlist
    case AtAllowlist => if PeerAllowed(e.allowedPeers, p, wall) then AtRate else Done(NotAuthorized)
    case AtRate => if TooSoon(e, g.stamps, (c, p), now) then Done(RateLimited) else AtPermit
    case AtPermit => if c in g.available && g.available[c] > 0 then Done(Allowed) else Done(AtConcurrencyLimit)
    case Done(_) => phase
  }

  /** The rate limit stamps the call even if it then finds no permit. */
  function NextGate(e: Entry, g: Gate, phase: Phase, c: Capability, p: Peer, now: Instant): Gate {
    match phase
    case AtRate => if TooSoon(e, g.stamps, (c, p), now) then g else g.(stamps := g.stamps[(c, p) := now])
    case AtPermit =>
      if c in g.available && g.available[c] > 0 then g.(available := g.available[c := g.available[c] - 1]) else g
    case _ => g
  }

  function Rank(phase: Phase): nat {
    match phase
    case AtSuspension => 5
    case AtFreeze => 4
    case AtAllowlist => 3
    case AtRate => 2
    case AtPermit => 1
    case Done(_) => 0
  }

  datatype Checked = Checked(outcome: Outcome, gate: Gate)

  /** All the remaining sections, with nothing in between. */
  function CheckFrom(e: Entry, g: Gate, phase: Phase, c: Capability, p: Peer, wall: UnixSeconds, now: Instant): Checked
    decreases Rank(phase)
  {
    match phase
    case Done(outcome) => Checked(outcome, g)
    case _ => CheckFrom(e, NextGate(e, g, phase, c, p, now), NextPhase(e, g, phase, c, p, wall, now), c, p, wall, now)
  }

  function Check(entries: Entries, g: Gate, c: Capability, p: Peer, wall: UnixSeconds, now: Instant): Checked {
    if c !in entries then Checked(NotAuthorized, g)
    else CheckFrom(entries[c], g, AtSuspension, c, p, wall, now)
  }

  /** Allowed exactly when nothing stands against it. */
  lemma AllowedIff(entries: Entries, g: Gate, c: Capability, p: Peer, wall: UnixSeconds, now: Instant)
    ensures Check(entries, g, c, p, wall, now).outcome == Allowed <==>
            && Allows(entries, c, p, wall)
            && p !in g.suspended
            && (g.frozen ==> entries[c].tier == Tier0)
            && ((c, p) in g.stamps ==> g.stamps[(c, p)] + entries[c].rateLimit <= now || entries[c].rateLimit == 0)
            && c in g.available && g.available[c] > 0
  {
    if c in entries {
      CheckUnrolled(entries[c], g, c, p, wall, now);
    }
  }

  /** A refused call leaves no mark, except that one refused only for want of a
      permit is stamped; an allowed call is stamped and takes one permit. */
  lemma OnlyServedCallsLeaveMarks(entries: Entries, g: Gate, c: Capability, p: Peer, wall: UnixSeconds, now: Instant)
    ensures var r := Check(entries, g, c, p, wall, now);
            var stamped := g.stamps[(c, p) := now];
            match r.outcome
            case Allowed =>
              && c in g.available
              && r.gate == g.(stamps := stamped, available := g.available[c := g.available[c] - 1])
            case AtConcurrencyLimit => r.gate == g.(stamps := stamped) && (c in g.available ==> g.available[c] == 0)
            case _ => r.gate == g
  {
    if c in entries {
      CheckUnrolled(entries[c], g, c, p, wall, now);
    }
  }

  /** `g` with one permit of `c` given back. */
  function Released(g: Gate, c: Capability): Gate
    requires c in g.available
  {
    g.(available := g.available[c := g.available[c] + 1])
  }

  /** Giving back the permit of an allowed call restores every permit there was;
      only the stamp remains. */
  lemma ReleaseUndoesAcquire(entries: Entries, g: Gate, c: Capability, p: Peer, wall: UnixSeconds, now: Instant)
    requires Check(entries, g, c, p, wall, now).outcome == Allowed
    ensures var after := Check(entries, g, c, p, wall, now).gate;
            c in after.available && Released(after, c) == g.(stamps := g.stamps[(c, p) := now])
  {
    OnlyServedCallsLeaveMarks(entries, g, c, p, wall, now);
  }

  lemma CheckUnrolled(e: Entry, g: Gate, c: Capability, p: Peer, wall: UnixSeconds, now: Instant)
    ensures var r := CheckFrom(e, g, AtSuspension, c, p, wall, now);
            var stamped := g.(stamps := g.stamps[(c, p) := now]);
            if p in g.suspended then r == Checked(Suspended, g)
            else if e.tier != Tier0 && g.frozen then r == Checked(Frozen, g)
            else if !PeerAllowed(e.allowedPeers, p, wall) then r == Checked(NotAuthorized, g)
            else if TooSoon(e, g.stamps, (c, p), now) then r == Checked(RateLimited, g)
            else if c in g.available && g.available[c] > 0 then
              r == Checked(Allowed, stamped.(available := g.available[c := g.available[c] - 1]))
            else r == Checked(AtConcurrencyLimit, stamped)
  {
    if p !in g.suspended && !(e.tier != Tier0 && g.frozen) {
      assert CheckFrom(e, g, AtSuspension, c, p, wall, now) == CheckFrom(e, g, AtAllowlist, c, p, wall, now);
      if PeerAllowed(e.allowedPeers, p, wall) {
        assert CheckFrom(e, g, AtAllowlist, c, p, wall, now) == CheckFrom(e, g, AtRate, c, p, wall, now);
      }
    }
  }

  /** The policy object. Clock readings are arguments. */
  class CapabilityPolicy {
    const entries: Entries
    var gate: Gate

    constructor (raw: RawPolicyFile)
      ensures entries == Load(raw) && gate == Opened(Load(raw))
    {
      var loaded := LoadEntries(raw);
      entries := loaded;
      gate := Opened(loaded);
    }

    method CheckAndAcquire(c: Capability, sender: Peer, wall: UnixSeconds, now: Instant) returns (outcome: Outcome)
      modifies this
      ensures Checked(outcome, gate) == Check(entries, old(gate), c, sender, wall, now)
    {
      if c !in entries {
        return NotAuthorized;
      }
      var entry := entries[c];
      CheckUnrolled(entry, gate, c, sender, wall, now);
      if sender in gate.suspended {
        return Suspended;
      }
      if entry.tier != Tier0 && gate.frozen {
        return Frozen;
      }
      if !PeerAllowed(entry.allowedPeers, sender, wall) {
        return NotAuthorized;
      }
      var key := (c, sender);
      if key in gate.stamps {
        if SatSub(now, gate.stamps[key]) < entry.rateLimit {
          return RateLimited;
        }
      }
      gate := gate.(stamps := gate.stamps[key := now]);
      if c in gate.available && gate.available[c] > 0 {
        gate := gate.(available := gate.available[c := gate.available[c] - 1]);
        return Allowed;
      }
      return AtConcurrencyLimit;
    }

    /** Dropping a permit. */
    method Release(c: Capability)
      requires c in gate.available
      modifies this
      ensures gate == Released(old(gate), c)
    {
      gate := gate.(available := gate.available[c := gate.available[c] + 1]);
    }

    method SetFrozen(frozen: bool)
      modifies this
      ensures gate == old(gate).(frozen := frozen)
    {
      gate := gate.(frozen := frozen);
    }

    method SuspendPeer(p: Peer)
      modifies this
      ensures gate == old(gate).(suspended := old(gate).suspended + {p})
    {
      gate := gate.(suspended := gate.suspended + {p});
    }

    method UnsuspendPeer(p: Peer) returns (was: bool)
      modifies this
      ensures was == (p in old(gate).suspended)
      ensures gate == old(gate).(suspended := old(gate).suspended - {p})
    {
      was := p in gate.suspended;
      gate := gate.(suspended := gate.suspended - {p});
    }
  }

  /** What does not register serves no one: without a protected-resource section,
      and under any other schema version, everything above Tier 0 is refused. */
  lemma UnregisteredServesNoOne(raw: RawPolicyFile, c: Capability, g: Gate, p: Peer, wall: UnixSeconds, now: Instant)
    requires raw.version != POLICY_SCHEMA_VERSION || c !in raw.capability
          || TierOfRaw(raw.capability[c]).None?
          || (!raw.hasProtectedResources && TierOfRaw(raw.capability[c]) != Some(Tier0))
    ensures Check(Load(raw), g, c, p, wall, now) == Checked(NotAuthorized, g)
    ensures !Allows(Load(raw), c, p, wall)
  {
    assert c !in Load(raw);
  }

  /** The file has the current version and lists the capability with a valid tier and,
      above Tier 0, with a protected-resource section. */
  predicate Listed(raw: RawPolicyFile, c: Capability) {
    && raw.version == 2 && c in raw.capability
    && raw.capability[c].tier.Some? && raw.capability[c].tier.value in {"tier0", "tier1", "tier2"}
    && (raw.capability[c].tier.value == "tier0" || raw.hasProtectedResources)
  }

  /** Whatever has happened since, what a loaded policy allows is read off the file: the
      peer is listed and unexpired, a freeze stops all but "tier0", the stated rate limit
      has passed since the last stamp, and a permit is free. */
  lemma LoadedAllowsIff(raw: RawPolicyFile, g: Gate, c: Capability, p: Peer, wall: UnixSeconds, now: Instant)
    ensures Check(Load(raw), g, c, p, wall, now).outcome == Allowed <==>
            && Listed(raw, c)
            && p in raw.capability[c].allowedPeers
            && (raw.capability[c].allowedPeers[p].None? || wall < raw.capability[c].allowedPeers[p].value)
            && p !in g.suspended
            && (g.frozen ==> raw.capability[c].tier.value == "tier0")
            && ((c, p) in g.stamps ==>
                  g.stamps[(c, p)] + raw.capability[c].rateLimit <= now || raw.capability[c].rateLimit == 0)
            && c in g.available && g.available[c] > 0
  {
    AllowedIff(Load(raw), g, c, p, wall, now);
  }

  /** Why a call is refused, in the order of the checks, also read off the file. */
  lemma LoadedRefusal(raw: RawPolicyFile, g: Gate, c: Capability, p: Peer, wall: UnixSeconds, now: Instant)
    ensures Check(Load(raw), g, c, p, wall, now).outcome ==
            if !Listed(raw, c) then NotAuthorized
            else if p in g.suspended then Suspended
            else if g.frozen && raw.capability[c].tier.value != "tier0" then Frozen
            else if || p !in raw.capability[c].allowedPeers
                    || (raw.capability[c].allowedPeers[p].Some? && wall >= raw.capability[c].allowedPeers[p].value)
                 then NotAuthorized
            else if (c, p) in g.stamps && now < g.stamps[(c, p)] + raw.capability[c].rateLimit
                    && raw.capability[c].rateLimit != 0
                 then RateLimited
            else if c !in g.available || g.available[c] == 0 then AtConcurrencyLimit
            else Allowed
  {
    if c in Load(raw) {
      CheckUnrolled(Load(raw)[c], g, c, p, wall, now);
    }
  }

  /** A policy starts open: not frozen, no one suspended, no one stamped, and with exactly
      the permits the file states for each capability that registers. */
  lemma OpenedAsStated(raw: RawPolicyFile, c: Capability)
    ensures var g := Opened(Load(raw));
            && !g.frozen && g.suspended == {} && g.stamps == map[]
            && (c in g.available <==> Listed(raw, c))
            && (c in g.available ==> g.available[c] == raw.capability[c].concurrency)
  {
  }
}
