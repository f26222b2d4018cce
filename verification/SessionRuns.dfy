/** Trust negotiation over every run: what the sessions that nodes hold rest on. */
module SessionRuns {
  import opened Prelude
  import opened Frame
  import opened Negotiation
  import opened NegotiationRuns

  /** `e` is where node `k` got the session from. */
  predicate Accounts(e: Event, k: Key, session: Session) {
    e.who == k &&
    match e
    case Responded(_, _, _) => false
    case Acked(_, initiator, _, _, level, _, _) => initiator == session.peerPublicKey && level == session.trustLevel
    case Installed(_, peerKey, _, _, level, _) => peerKey == session.peerPublicKey && level == session.trustLevel
  }

  predicate Accounted(log: seq<Event>, k: Key, session: Session) {
    exists i :: 0 <= i < |log| && Accounts(log[i], k, session)
  }

  predicate NodeAccounted(log: seq<Event>, k: Key, n: Node) {
    forall p :: p in n.sessions ==> Accounted(log, k, n.sessions[p])
  }

  predicate AllAccounted(w: World) {
    forall k :: k in w.nodes ==> NodeAccounted(w.log, k, w.nodes[k])
  }

  lemma AccountedStays(log: seq<Event>, e: Option<Event>, k: Key, session: Session)
    requires Accounted(log, k, session)
    ensures Accounted(Recorded(log, e), k, session)
  {
    var i :| 0 <= i < |log| && Accounts(log[i], k, session);
    assert Recorded(log, e)[i] == log[i];
  }

  lemma NodeStays(log: seq<Event>, e: Option<Event>, k: Key, n: Node)
    requires NodeAccounted(log, k, n)
    ensures NodeAccounted(Recorded(log, e), k, n)
  {
    forall p | p in n.sessions ensures Accounted(Recorded(log, e), k, n.sessions[p]) {
      AccountedStays(log, e, k, n.sessions[p]);
    }
  }

  /** A session that processing a message adds or replaces is the one its event speaks of. */
  lemma NewSessionAccounted(s: Signing, who: Key, n: Node, m: Message, timestamp: u64, nonce: Nonce, now: Seconds,
                            p: NodeId)
    requires var out := Process(s, who, n, m, timestamp, nonce, now);
             p in out.node.sessions && !(p in n.sessions && n.sessions[p] == out.node.sessions[p])
    ensures var out := Process(s, who, n, m, timestamp, nonce, now);
            out.event.Some? && Accounts(out.event.value, who, out.node.sessions[p])
  {
  }

  lemma NodeAfter(s: Signing, who: Key, n: Node, m: Message, timestamp: u64, nonce: Nonce, now: Seconds,
                  log: seq<Event>)
    requires NodeAccounted(log, who, n)
    ensures var out := Process(s, who, n, m, timestamp, nonce, now);
            NodeAccounted(Recorded(log, out.event), who, out.node)
  {
    var out := Process(s, who, n, m, timestamp, nonce, now);
    var after := Recorded(log, out.event);
    forall p | p in out.node.sessions ensures Accounted(after, who, out.node.sessions[p]) {
      if p in n.sessions && n.sessions[p] == out.node.sessions[p] {
        AccountedStays(log, out.event, who, n.sessions[p]);
      } else {
        NewSessionAccounted(s, who, n, m, timestamp, nonce, now, p);
        assert after[|log|] == out.event.value;
      }
    }
  }

  lemma AccountedKept(s: Signing, w: World, step: Step)
    requires AllAccounted(w)
    ensures AllAccounted(Next(s, w, step))
  {
    var v := Next(s, w, step);
    if step.Deliver? && Enabled(s, w, step) {
      var out := Process(s, step.who, w.nodes[step.who], step.message, step.timestamp, step.nonce, step.now);
      NodeAfter(s, step.who, w.nodes[step.who], step.message, step.timestamp, step.nonce, step.now, w.log);
      forall k | k in v.nodes ensures NodeAccounted(v.log, k, v.nodes[k]) {
        if k != step.who {
          NodeStays(w.log, out.event, k, w.nodes[k]);
        }
      }
    }
  }

  lemma {:induction false} AccountedRun(s: Signing, w: World, steps: seq<Step>)
    requires AllAccounted(w)
    ensures AllAccounted(Run(s, w, steps))
    decreases |steps|
  {
    if steps != [] {
      AccountedKept(s, w, steps[0]);
      AccountedRun(s, Next(s, w, steps[0]), steps[1..]);
    }
  }

  /** The part the node with the session's key played before entry `i`, by which `k`
      got the session: it acked `k` at that level, or answered a challenge of `k`. */
  predicate PeerTookPart(log: seq<Event>, i: nat, j: nat, k: Key)
    requires i < |log| && j < i
  {
    match log[i]
    case Responded(_, _, _) => false
    case Acked(_, initiator, _, nc, _, _, _) => log[j] == Responded(initiator, k, nc)
    case Installed(_, peerKey, ni, nc, level, _) =>
      && log[j].Acked? && log[j].who == peerKey && log[j].initiator == k
      && log[j].initiatorNonce == ni && log[j].challengeNonce == nc && log[j].level == level
  }

  /** Agreement, of the sessions that are held: whenever an honest node holds a session
      on an honest node's key, that session is in the log with its key and level, and
      the other node took its part in it before. */
  lemma HeldSessionAgreement(s: Signing, honest: set<Key>, steps: seq<Step>, w: World, k: Key, p: NodeId)
    returns (i: nat, j: nat)
    requires w == Run(s, Init(honest), steps) && k in w.nodes && p in w.nodes[k].sessions
    requires w.nodes[k].sessions[p].peerPublicKey in honest
    ensures i < |w.log| && Accounts(w.log[i], k, w.nodes[k].sessions[p])
    ensures j < i && w.log[j].who == w.nodes[k].sessions[p].peerPublicKey && PeerTookPart(w.log, i, j, k)
  {
    AccountedRun(s, Init(honest), steps);
    assert Accounted(w.log, k, w.nodes[k].sessions[p]);
    i :| 0 <= i < |w.log| && Accounts(w.log[i], k, w.nodes[k].sessions[p]);
    if w.log[i].Installed? {
      var l;
      j, l := Agreement(s, honest, steps, w.log, i);
    } else {
      j := ResponderAgreement(s, honest, steps, w.log, i);
    }
  }

  // ---------------------------------------------------------------------
  // Under whose name sessions are held.

  /** The key a Hello or an Ack claims is the sender its frame names. */
  predicate NamesItsSender(m: Message) {
    m.payload != [] ==>
      && (m.payload[0] == HELLO && DecodeHello(m.payload[1..]).Some? ==>
            DecodeHello(m.payload[1..]).value.publicKey == m.senderId)
      && (m.payload[0] == ACK && DecodeAck(m.payload[1..]).Some? ==>
            DecodeAck(m.payload[1..]).value.publicKey == m.senderId)
  }

  /** Sessions, and the keys that contexts wait on, stand under those very keys. */
  predicate NodeBound(n: Node) {
    && (forall p :: p in n.sessions ==> n.sessions[p].peerPublicKey == p)
    && (forall p :: p in n.negotiations && n.negotiations[p].peerPublicKey.Some? ==>
          n.negotiations[p].peerPublicKey.value == p)
  }

  predicate AllBound(w: World) {
    forall k :: k in w.nodes ==> NodeBound(w.nodes[k])
  }

  lemma BoundAfter(s: Signing, who: Key, n: Node, m: Message, timestamp: u64, nonce: Nonce, now: Seconds)
    requires NodeBound(n) && NamesItsSender(m)
    ensures NodeBound(Process(s, who, n, m, timestamp, nonce, now).node)
  {
  }

  lemma BoundKept(s: Signing, w: World, step: Step)
    requires AllBound(w) && (step.Deliver? ==> NamesItsSender(step.message))
    ensures AllBound(Next(s, w, step))
  {
    if step.Deliver? && Enabled(s, w, step) {
      BoundAfter(s, step.who, w.nodes[step.who], step.message, step.timestamp, step.nonce, step.now);
    }
  }

  /** If every Hello and Ack delivered claims the key of the sender it names, then in the
      whole run every session is held under the key it carries. */
  lemma {:induction false} BoundIfSendersAreKeys(s: Signing, w: World, steps: seq<Step>)
    requires AllBound(w) && forall i :: 0 <= i < |steps| && steps[i].Deliver? ==> NamesItsSender(steps[i].message)
    ensures AllBound(Run(s, w, steps))
    decreases |steps|
  {
    if steps != [] {
      BoundKept(s, w, steps[0]);
      BoundIfSendersAreKeys(s, Next(s, w, steps[0]), steps[1..]);
    }
  }
}
