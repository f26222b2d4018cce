/** RAW sessions over every run: which keys a session goes through, and that every
    heartbeat it accepts was made with them. */
module RawKeyRuns {
  import opened Prelude
  import opened RawSession
  import opened RawSessionRuns

  /** The key after these heartbeats: each rotation hashes the key before it with the
      peer's contribution and the own sequence at the time. */
  function KeyAfter(h: Hashing, key: Key, beats: seq<Beat>): Key {
    if beats == [] then key
    else
      var last := beats[|beats| - 1];
      var before := KeyAfter(h, key, beats[..|beats| - 1]);
      if last.heartbeat.keyRotation.None? then before
      else h.nextKey(before, last.heartbeat.keyRotation.value.contribution, last.ownSequence)
  }

  /** The key that the last rotation replaced. */
  function KeyBefore(h: Hashing, key: Key, beats: seq<Beat>): Option<Key> {
    if beats == [] then None
    else
      var init := beats[..|beats| - 1];
      if beats[|beats| - 1].heartbeat.keyRotation.Some? then Some(KeyAfter(h, key, init)) else KeyBefore(h, key, init)
  }

  /** The heartbeat was made for this session, with its current or previous key, about
      when it was accepted; and so was its contribution to a new key, with the current one. */
  predicate Genuine(h: Hashing, cfg: Config, id: Id, key: Key, before: seq<Beat>, b: Beat) {
    var k, p, m := KeyAfter(h, key, before), KeyBefore(h, key, before), b.heartbeat;
    && m.sessionId == id
    && m.timestamp <= b.at + cfg.maxClockSkew && b.at <= m.timestamp + cfg.maxClockSkew
    && (|| m.hmac == h.heartbeat(k, id, m.sequence, m.timestamp)
        || (p.Some? && m.hmac == h.heartbeat(p.value, id, m.sequence, m.timestamp)))
    && (m.keyRotation.Some? ==>
          m.keyRotation.value.hmac == h.contribution(k, m.keyRotation.value.contribution))
  }

  predicate AllGenuine(h: Hashing, cfg: Config, id: Id, key: Key, beats: seq<Beat>) {
    forall i :: 0 <= i < |beats| ==> Genuine(h, cfg, id, key, beats[..i], beats[i])
  }

  predicate KeysOk(h: Hashing, id: Id, key: Key, w: World) {
    && w.session.sessionId == id
    && w.session.sessionKey == KeyAfter(h, key, w.beats)
    && w.session.prevSessionKey == KeyBefore(h, key, w.beats)
  }

  lemma GenuineAppend(h: Hashing, cfg: Config, id: Id, key: Key, beats: seq<Beat>, b: Beat)
    requires AllGenuine(h, cfg, id, key, beats) && Genuine(h, cfg, id, key, beats, b)
    ensures AllGenuine(h, cfg, id, key, beats + [b])
  {
    var all := beats + [b];
    forall i | 0 <= i < |all| ensures Genuine(h, cfg, id, key, all[..i], all[i]) {
      assert all[..i] == if i < |beats| then beats[..i] else beats;
    }
  }

  lemma KeysAppend(h: Hashing, key: Key, beats: seq<Beat>, b: Beat)
    ensures KeyAfter(h, key, beats + [b])
         == if b.heartbeat.keyRotation.None? then KeyAfter(h, key, beats)
            else h.nextKey(KeyAfter(h, key, beats), b.heartbeat.keyRotation.value.contribution, b.ownSequence)
    ensures KeyBefore(h, key, beats + [b])
         == if b.heartbeat.keyRotation.Some? then Some(KeyAfter(h, key, beats)) else KeyBefore(h, key, beats)
  {
    assert (beats + [b])[..|beats|] == beats;
  }

  lemma Kept(h: Hashing, cfg: Config, id: Id, key: Key, w: World, s: Step)
    requires cfg.heartbeatInterval > 0 && KeysOk(h, id, key, w) && AllGenuine(h, cfg, id, key, w.beats)
    ensures KeysOk(h, id, key, Next(h, cfg, w, s)) && AllGenuine(h, cfg, id, key, Next(h, cfg, w, s).beats)
  {
    if s.Receive? && HeartbeatError(h, cfg, w.session, s.heartbeat, w.now).None? {
      var b := Beat(s.heartbeat, w.now, w.session.sequence);
      AcceptedIff(h, cfg, w.session, s.heartbeat, w.now);
      GenuineAppend(h, cfg, id, key, w.beats, b);
      KeysAppend(h, key, w.beats, b);
    }
  }

  lemma {:induction false} KeptByRun(h: Hashing, cfg: Config, id: Id, key: Key, w: World, steps: seq<Step>)
    requires cfg.heartbeatInterval > 0 && KeysOk(h, id, key, w) && AllGenuine(h, cfg, id, key, w.beats)
    ensures KeysOk(h, id, key, Run(h, cfg, w, steps)) && AllGenuine(h, cfg, id, key, Run(h, cfg, w, steps).beats)
    decreases |steps|
  {
    if steps != [] {
      Kept(h, cfg, id, key, w, steps[0]);
      KeptByRun(h, cfg, id, key, Next(h, cfg, w, steps[0]), steps[1..]);
    }
  }

  /** In every run each heartbeat accepted was made with the key the session had then, or
      the one before it, within the skew of its clock; and the keys are those that the
      accepted contributions give, one after another, from the first. */
  lemma AcceptedAreGenuine(h: Hashing, cfg: Config, id: Id, key: Key, start: Milliseconds, steps: seq<Step>)
    requires cfg.heartbeatInterval > 0
    ensures var w := Run(h, cfg, Init(id, key, start), steps);
            && AllGenuine(h, cfg, id, key, w.beats)
            && w.session.sessionKey == KeyAfter(h, key, w.beats)
            && w.session.prevSessionKey == KeyBefore(h, key, w.beats)
  {
    KeptByRun(h, cfg, id, key, Init(id, key, start), steps);
  }
}
