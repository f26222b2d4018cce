/** The manager of RAW sessions: sessions by identifier, and an index by peer. */
module RawManager {
  import opened Prelude
  import opened RawSession

  type Peer = Bytes32

  datatype Held = Held(peer: Peer, session: Session)

  datatype Manager = Manager(sessions: map<Id, Held>, index: map<Peer, Id>)

  function Established(m: Manager, peer: Peer, id: Id, key: Key, now: Milliseconds): Manager {
    Manager(m.sessions[id := Held(peer, NewSession(id, key, now))], m.index[peer := id])
  }

  function Without(m: Manager, id: Id): Manager {
    if id in m.sessions then Manager(m.sessions - {id}, m.index - {m.sessions[id].peer}) else m
  }

  function Lookup(m: Manager, peer: Peer): Option<Session> {
    if peer in m.index && m.index[peer] in m.sessions then Some(m.sessions[m.index[peer]].session) else None
  }

  /** The sessions a check at `now` terminates. */
  function Overdue(cfg: Config, m: Manager, now: Milliseconds): set<Id>
    requires cfg.heartbeatInterval > 0
  {
    set id | id in m.sessions && TimesOut(cfg, m.sessions[id].session, now)
  }

  /** The peers that lose their index entry with the sessions in `gone`. */
  function PeersOf(m: Manager, gone: set<Id>): set<Peer> {
    set id | id in gone && id in m.sessions :: m.sessions[id].peer
  }

  /** Without the sessions in `gone` and the index entries of their peers. */
  function WithoutAll(m: Manager, gone: set<Id>): Manager {
    Manager(m.sessions - gone, m.index - PeersOf(m, gone))
  }

  lemma WithoutOneMore(m: Manager, gone: set<Id>, id: Id)
    requires id in m.sessions && id !in gone
    ensures Without(WithoutAll(m, gone), id) == WithoutAll(m, gone + {id})
  {
    assert PeersOf(m, gone + {id}) == PeersOf(m, gone) + {m.sessions[id].peer};
    assert Without(WithoutAll(m, gone), id).sessions == m.sessions - (gone + {id});
  }

  function Swept(cfg: Config, m: Manager, now: Milliseconds): Manager
    requires cfg.heartbeatInterval > 0
  {
    Manager(map id | id in m.sessions && id !in Overdue(cfg, m, now) ::
              Held(m.sessions[id].peer, Checked(cfg, m.sessions[id].session, now)),
            m.index - PeersOf(m, Overdue(cfg, m, now)))
  }

  /** The index never dangles and never leads to another peer's session. */
  predicate Indexed(m: Manager) {
    forall p :: p in m.index ==> m.index[p] in m.sessions && m.sessions[m.index[p]].peer == p
  }

  /** Establishing a session makes it the one its peer is found by, provided the
      derived identifier is not another peer's. */
  lemma EstablishedIsFound(m: Manager, peer: Peer, id: Id, key: Key, now: Milliseconds)
    requires Indexed(m) && (id in m.sessions ==> m.sessions[id].peer == peer)
    ensures Indexed(Established(m, peer, id, key, now))
    ensures Lookup(Established(m, peer, id, key, now), peer) == Some(NewSession(id, key, now))
    ensures forall p :: p != peer ==> Lookup(Established(m, peer, id, key, now), p) == Lookup(m, p)
  {
    var v := Established(m, peer, id, key, now);
    forall p | p != peer ensures Lookup(v, p) == Lookup(m, p) {
      if p in m.index {
        assert m.sessions[m.index[p]].peer == p;
      }
    }
  }

  /** Terminating a session hides every session of its peer, also a later one that
      is still held, and no other peer's. */
  lemma TerminationHidesPeer(m: Manager, id: Id, p: Peer)
    requires Indexed(m) && id in m.sessions
    ensures Indexed(Without(m, id))
    ensures Lookup(Without(m, id), p) == if m.sessions[id].peer == p then None else Lookup(m, p)
  {
    var v := Without(m, id);
    forall q | q in v.index ensures v.index[q] in v.sessions && v.sessions[v.index[q]].peer == q {
      assert m.sessions[m.index[q]].peer == q;
    }
    if m.sessions[id].peer != p && p in m.index {
      assert m.sessions[m.index[p]].peer == p;
    }
  }

  /** A session still held is lost to lookups exactly when a session of its peer is
      terminated. */
  lemma HeldSessionHidden(m: Manager, id: Id, other: Id)
    requires Indexed(m) && id in m.sessions && other in m.sessions && other != id
    requires m.sessions[other].peer in m.index && m.index[m.sessions[other].peer] == other
    ensures other in Without(m, id).sessions
    ensures Lookup(Without(m, id), m.sessions[other].peer).None? <==> m.sessions[id].peer == m.sessions[other].peer
  {
    TerminationHidesPeer(m, id, m.sessions[other].peer);
  }

  /** A sweep keeps the index sound and leaves exactly the sessions that were not overdue. */
  lemma SweepKeepsIndex(cfg: Config, m: Manager, now: Milliseconds)
    requires cfg.heartbeatInterval > 0 && Indexed(m)
    ensures Indexed(Swept(cfg, m, now))
    ensures Swept(cfg, m, now).sessions.Keys == m.sessions.Keys - Overdue(cfg, m, now)
  {
    var v := Swept(cfg, m, now);
    forall p | p in v.index ensures v.index[p] in v.sessions && v.sessions[v.index[p]].peer == p {
      assert m.sessions[m.index[p]].peer == p;
      assert p !in PeersOf(m, Overdue(cfg, m, now));
    }
  }

  /** A sweep makes a peer unreachable exactly when one of its sessions was overdue,
      whether or not that was the session the peer is found by. */
  lemma SweepHidesIff(cfg: Config, m: Manager, now: Milliseconds, p: Peer)
    requires cfg.heartbeatInterval > 0 && Indexed(m) && p in m.index
    ensures Lookup(Swept(cfg, m, now), p).None? <==> exists id :: id in Overdue(cfg, m, now) && m.sessions[id].peer == p
    ensures Lookup(Swept(cfg, m, now), p).Some? ==>
              Lookup(Swept(cfg, m, now), p) == Some(Checked(cfg, m.sessions[m.index[p]].session, now))
  {
    var gone := Overdue(cfg, m, now);
    assert p in PeersOf(m, gone) <==> exists id :: id in gone && m.sessions[id].peer == p;
    assert m.sessions[m.index[p]].peer == p;
  }

  const EMPTY := Manager(map[], map[])

  /** What a peer that reconnects leaves behind: the new session and the one it replaces. */
  function Renewed(peer: Peer, a: Id, ka: Key, b: Id, kb: Key, now: Milliseconds): Manager {
    Established(Established(EMPTY, peer, a, ka, 0), peer, b, kb, now)
  }

  /** From an empty manager: a peer reconnects, and a sweep while its first session is
      overdue hides the new one, which is not. */
  lemma SweepHidesRenewed(cfg: Config, peer: Peer, a: Id, ka: Key, b: Id, kb: Key, now: Milliseconds)
    requires cfg.heartbeatInterval > 0 && a != b && TimesOut(cfg, NewSession(a, ka, 0), now)
    ensures var m := Renewed(peer, a, ka, b, kb, now);
            && Indexed(m) && Lookup(m, peer) == Some(NewSession(b, kb, now))
            && b in Swept(cfg, m, now).sessions
            && Swept(cfg, m, now).sessions[b].session == NewSession(b, kb, now)
            && Lookup(Swept(cfg, m, now), peer) == None
  {
    var first := Established(EMPTY, peer, a, ka, 0);
    EstablishedIsFound(EMPTY, peer, a, ka, 0);
    EstablishedIsFound(first, peer, b, kb, now);
    var m := Renewed(peer, a, ka, b, kb, now);
    assert a in Overdue(cfg, m, now) && b !in Overdue(cfg, m, now);
    SweepHidesIff(cfg, m, now, peer);
  }

  /** Under the default grace of three heartbeats, ten intervals suffice; and closing
      the first session by hand hides the second in the same way. */
  lemma RenewedIsHidden(cfg: Config, peer: Peer, a: Id, ka: Key, b: Id, kb: Key)
    requires cfg.heartbeatInterval > 0 && cfg.graceHeartbeats == 3 && a != b
    ensures var now := 10 * cfg.heartbeatInterval;
            var m := Renewed(peer, a, ka, b, kb, now);
            && b in Swept(cfg, m, now).sessions && Lookup(Swept(cfg, m, now), peer) == None
            && b in Without(m, a).sessions && Lookup(Without(m, a), peer) == None
  {
    var now := 10 * cfg.heartbeatInterval;
    var m := Renewed(peer, a, ka, b, kb, now);
    assert Intervals(cfg, NewSession(a, ka, 0), now) == 10;
    SweepHidesRenewed(cfg, peer, a, ka, b, kb, now);
    TerminationHidesPeer(m, a, peer);
  }

  // ---------------------------------------------------------------------

  class RawSessionManager {
    const config: Config
    const deriveId: (Bytes32, Peer) -> Id
    const deriveKey: (Bytes32, Id) -> Key
    var sessions: map<Id, Held>
    var index: map<Peer, Id>

    ghost function View(): Manager
      reads this
    {
      Manager(sessions, index)
    }

    constructor (config: Config, deriveId: (Bytes32, Peer) -> Id, deriveKey: (Bytes32, Id) -> Key)
      ensures this.config == config && this.deriveId == deriveId && this.deriveKey == deriveKey
      ensures View() == EMPTY
    {
      this.config := config;
      this.deriveId := deriveId;
      this.deriveKey := deriveKey;
      sessions := map[];
      index := map[];
    }

    method EstablishSession(peer: Peer, secret: Bytes32, now: Milliseconds) returns (id: Id)
      modifies this
      ensures id == deriveId(secret, peer)
      ensures View() == Established(old(View()), peer, id, deriveKey(secret, id), now)
    {
      id := deriveId(secret, peer);
      var session := NewSession(id, deriveKey(secret, id), now);
      sessions := sessions[id := Held(peer, session)];
      index := index[peer := id];
    }

    method TerminateSession(id: Id)
      modifies this
      ensures View() == Without(old(View()), id)
    {
      if id in sessions {
        var peer := sessions[id].peer;
        sessions := sessions - {id};
        index := index - {peer};
      }
    }

    /** Checks every session, then removes those that timed out. */
    method CheckTimeouts(now: Milliseconds) returns (terminated: set<Id>)
      requires config.heartbeatInterval > 0
      modifies this
      ensures terminated == Overdue(config, old(View()), now)
      ensures View() == Swept(config, old(View()), now)
    {
      terminated := MarkTimeouts(now);
      ghost var marked := View();
      RemoveAll(terminated);
      SweepIsMarkThenRemove(config, old(View()), marked, now);
    }

    /** The second loop: removes the collected sessions one by one. */
    method RemoveAll(ids: set<Id>)
      requires ids <= sessions.Keys
      modifies this
      ensures View() == WithoutAll(old(View()), ids)
    {
      var left := ids;
      ghost var gone: set<Id> := {};
      while left != {}
        invariant left !! gone && left + gone == ids
        invariant View() == WithoutAll(old(View()), gone)
        decreases left
      {
        var id :| id in left;
        assert id in old(sessions).Keys;
        WithoutOneMore(old(View()), gone, id);
        TerminateSession(id);
        left, gone := left - {id}, gone + {id};
      }
    }

    /** The first loop: updates each session in place and collects the overdue ones. */
    method MarkTimeouts(now: Milliseconds) returns (terminated: set<Id>)
      requires config.heartbeatInterval > 0
      modifies this
      ensures terminated == Overdue(config, old(View()), now)
      ensures Marked(config, old(View()), View(), now)
    {
      terminated := {};
      var left := sessions.Keys;
      while left != {}
        invariant left <= old(sessions).Keys == sessions.Keys && index == old(index)
        invariant forall id :: id in old(sessions) ==>
                    sessions[id] == if id in left then old(sessions)[id]
                                    else Held(old(sessions)[id].peer, Checked(config, old(sessions)[id].session, now))
        invariant terminated == Overdue(config, old(View()), now) - left
        decreases left
      {
        var id :| id in left;
        assert id in old(sessions).Keys;
        var held := sessions[id];
        if TimesOut(config, held.session, now) {
          terminated := terminated + {id};
        }
        sessions := sessions[id := Held(held.peer, Checked(config, held.session, now))];
        left := left - {id};
      }
    }
  }

  /** Every session of `m` has been checked in `v`, and nothing else differs. */
  predicate Marked(cfg: Config, m: Manager, v: Manager, now: Milliseconds)
    requires cfg.heartbeatInterval > 0
  {
    && v.sessions.Keys == m.sessions.Keys && v.index == m.index
    && forall id :: id in m.sessions ==>
         id in v.sessions && v.sessions[id] == Held(m.sessions[id].peer, Checked(cfg, m.sessions[id].session, now))
  }

  lemma SweepIsMarkThenRemove(cfg: Config, m: Manager, v: Manager, now: Milliseconds)
    requires cfg.heartbeatInterval > 0 && Marked(cfg, m, v, now)
    ensures Swept(cfg, m, now) == WithoutAll(v, Overdue(cfg, m, now))
  {
    var gone := Overdue(cfg, m, now);
    assert PeersOf(v, gone) == PeersOf(m, gone);
    assert Swept(cfg, m, now).sessions == v.sessions - gone;
  }
}
