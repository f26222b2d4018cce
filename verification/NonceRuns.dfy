/** Trust negotiation over every run, continued: nonces tell sessions apart, so
    agreement is injective. */
module NonceRuns {
  import opened Prelude
  import opened Frame
  import opened Negotiation
  import opened NegotiationRuns

  predicate Holds(n: Node, p: NodeId, nonce: Nonce) {
    p in n.negotiations && Initiated(n.negotiations[p]) && n.negotiations[p].initiatorNonce == Some(nonce)
  }

  /** Contexts a node opened carry nonces that were drawn, no two the same. */
  ghost predicate OwnNoncesOk(n: Node, used: set<Nonce>) {
    && (forall p :: p in n.negotiations && Initiated(n.negotiations[p]) ==>
          n.negotiations[p].initiatorNonce.Some? && n.negotiations[p].initiatorNonce.value in used)
    && (forall p, q, nonce :: Holds(n, p, nonce) && Holds(n, q, nonce) ==> p == q)
  }

  predicate OwnInstall(e: Event, who: Key) {
    e.Installed? && e.who == who && e.initiated
  }

  /** A nonce whose session is installed is no longer held. */
  predicate SpentOk(who: Key, n: Node, used: set<Nonce>, log: seq<Event>) {
    forall j, p :: 0 <= j < |log| && OwnInstall(log[j], who) && p in n.negotiations ==>
      !Holds(n, p, log[j].initiatorNonce)
  }

  predicate InstallsDrawn(used: set<Nonce>, log: seq<Event>) {
    forall j :: 0 <= j < |log| && log[j].Installed? && log[j].initiated ==> log[j].initiatorNonce in used
  }

  predicate InstallsDistinct(log: seq<Event>) {
    forall i, j :: 0 <= i < j < |log| && log[i].Installed? && OwnInstall(log[j], log[i].who) && log[i].initiated ==>
      log[i].initiatorNonce != log[j].initiatorNonce
  }

  ghost predicate NonceInv(w: World) {
    && (forall k :: k in w.nodes ==> OwnNoncesOk(w.nodes[k], w.used) && SpentOk(k, w.nodes[k], w.used, w.log))
    && InstallsDrawn(w.used, w.log)
    && InstallsDistinct(w.log)
  }

  /** Processing a message opens no context. */
  lemma ProcessOpensNone(s: Signing, who: Key, n: Node, m: Message, timestamp: u64, nonce: Nonce, now: Seconds)
    ensures var out := Process(s, who, n, m, timestamp, nonce, now);
            && (forall p, x :: Holds(out.node, p, x) ==> Holds(n, p, x))
            && (forall p :: p in out.node.negotiations && Initiated(out.node.negotiations[p]) ==>
                  p in n.negotiations && Initiated(n.negotiations[p])
                  && out.node.negotiations[p].initiatorNonce == n.negotiations[p].initiatorNonce)
  {
  }

  /** Installing a session closes its context. */
  lemma ProcessCloses(s: Signing, who: Key, n: Node, m: Message, timestamp: u64, nonce: Nonce, now: Seconds)
    ensures var out := Process(s, who, n, m, timestamp, nonce, now);
            out.event.Some? && out.event.value.Installed? && out.event.value.initiated ==>
              && out.event.value.who == who
              && Holds(n, m.senderId, out.event.value.initiatorNonce)
              && m.senderId !in out.node.negotiations
  {
  }

  lemma SpentAfter(who: Key, n: Node, v: Node, used: set<Nonce>, log: seq<Event>, e: Option<Event>, from: NodeId)
    requires OwnNoncesOk(n, used) && SpentOk(who, n, used, log)
    requires forall p, x :: Holds(v, p, x) ==> Holds(n, p, x)
    requires e.Some? && OwnInstall(e.value, who) ==> Holds(n, from, e.value.initiatorNonce) && from !in v.negotiations
    ensures SpentOk(who, v, used, Recorded(log, e))
  {
    var after := Recorded(log, e);
    forall j, p | 0 <= j < |after| && OwnInstall(after[j], who) && p in v.negotiations
      ensures !Holds(v, p, after[j].initiatorNonce)
    {
      assert Holds(v, p, after[j].initiatorNonce) ==> Holds(n, p, after[j].initiatorNonce);
      if j < |log| {
        assert after[j] == log[j] && (p in n.negotiations ==> !Holds(n, p, log[j].initiatorNonce));
      }
    }
  }

  lemma DistinctAfter(who: Key, n: Node, used: set<Nonce>, log: seq<Event>, e: Event, from: NodeId)
    requires InstallsDistinct(log) && SpentOk(who, n, used, log)
    requires e.Installed? && e.initiated ==> e.who == who && Holds(n, from, e.initiatorNonce)
    ensures InstallsDistinct(log + [e])
  {
    var after := log + [e];
    forall i, j | 0 <= i < j < |after| && after[i].Installed? && OwnInstall(after[j], after[i].who)
      && after[i].initiated
      ensures after[i].initiatorNonce != after[j].initiatorNonce
    {
      if j == |log| {
        assert OwnInstall(log[i], who);
      }
    }
  }

  lemma KeptByDeliver(s: Signing, w: World, step: Step)
    requires NonceInv(w) && step.Deliver? && Enabled(s, w, step)
    ensures NonceInv(Next(s, w, step))
  {
    var v := Next(s, w, step);
    var who, n, from := step.who, w.nodes[step.who], step.message.senderId;
    var out := Process(s, who, n, step.message, step.timestamp, step.nonce, step.now);
    ProcessOpensNone(s, who, n, step.message, step.timestamp, step.nonce, step.now);
    ProcessCloses(s, who, n, step.message, step.timestamp, step.nonce, step.now);
    SpentAfter(who, n, out.node, w.used, w.log, out.event, from);
    if out.event.Some? {
      DistinctAfter(who, n, w.used, w.log, out.event.value, from);
      EventsAreOwn(s, who, n, step.message, step.timestamp, step.nonce, step.now);
    }
    forall k | k in v.nodes ensures OwnNoncesOk(v.nodes[k], v.used) && SpentOk(k, v.nodes[k], v.used, v.log) {
      if k != who {
        OthersSpent(k, w.nodes[k], w.used, w.log, out.event);
      }
    }
  }

  lemma EventsAreOwn(s: Signing, who: Key, n: Node, m: Message, timestamp: u64, nonce: Nonce, now: Seconds)
    ensures var e := Process(s, who, n, m, timestamp, nonce, now).event;
            e.Some? ==> e.value.who == who
  {
  }

  lemma OthersSpent(k: Key, n: Node, used: set<Nonce>, log: seq<Event>, e: Option<Event>)
    requires SpentOk(k, n, used, log) && (e.Some? ==> e.value.who != k)
    ensures SpentOk(k, n, used, Recorded(log, e))
  {
  }

  lemma KeptByStart(s: Signing, w: World, step: Step)
    requires NonceInv(w) && step.Start? && Enabled(s, w, step)
    ensures NonceInv(Next(s, w, step))
  {
    var v := Next(s, w, step);
    var n, u := w.nodes[step.who], v.nodes[step.who];
    assert forall p, x :: Holds(u, p, x) ==> Holds(n, p, x) || (p == step.peer && x == step.nonce);
    assert forall p, x :: Holds(n, p, x) ==> x in w.used;
    assert forall p :: p in u.negotiations && p != step.peer ==>
      p in n.negotiations && u.negotiations[p] == n.negotiations[p];
    forall j, p | 0 <= j < |w.log| && OwnInstall(w.log[j], step.who) && p in u.negotiations
      ensures !Holds(u, p, w.log[j].initiatorNonce)
    {
      assert w.log[j].initiatorNonce in w.used;
    }
  }

  lemma KeptByCleanup(s: Signing, w: World, step: Step)
    requires NonceInv(w) && step.Cleanup?
    ensures NonceInv(Next(s, w, step))
  {
    if step.who in w.nodes {
      var n := w.nodes[step.who];
      var u := Cleaned(n, step.now);
      assert forall p, x :: Holds(u, p, x) ==> Holds(n, p, x);
      SpentAfter(step.who, n, u, w.used, w.log, None, step.who);
    }
  }

  lemma Kept(s: Signing, w: World, step: Step)
    requires NonceInv(w)
    ensures NonceInv(Next(s, w, step))
  {
    if step.Cleanup? {
      KeptByCleanup(s, w, step);
    } else if Enabled(s, w, step) {
      if step.Deliver? {
        KeptByDeliver(s, w, step);
      } else {
        KeptByStart(s, w, step);
      }
    }
  }

  lemma {:induction false} KeptByRun(s: Signing, w: World, steps: seq<Step>)
    requires NonceInv(w)
    ensures NonceInv(Run(s, w, steps))
    decreases |steps|
  {
    if steps != [] {
      Kept(s, w, steps[0]);
      KeptByRun(s, Next(s, w, steps[0]), steps[1..]);
    }
  }

  /** Distinct sessions that A installed in contexts it opened itself answer
      distinct acks: no ack of B serves two of them. */
  lemma InjectiveAgreement(s: Signing, honest: set<Key>, steps: seq<Step>, log: seq<Event>, a: nat, b: nat)
    returns (i: nat, j: nat)
    requires log == Run(s, Init(honest), steps).log
    requires a < b < |log| && log[a].Installed? && log[b].Installed? && log[a].who == log[b].who
    requires log[a].initiated && log[b].initiated && log[a].peerKey in honest && log[b].peerKey in honest
    ensures i < a && j < b && i != j && log[i].Acked? && log[j].Acked?
    ensures log[i].who == log[a].peerKey && log[i].initiator == log[a].who
    ensures log[i].initiatorNonce == log[a].initiatorNonce && log[i].challengeNonce == log[a].challengeNonce
    ensures log[j].who == log[b].peerKey && log[j].initiator == log[b].who
    ensures log[j].initiatorNonce == log[b].initiatorNonce && log[j].challengeNonce == log[b].challengeNonce
    ensures log[i].level == log[a].level && log[j].level == log[b].level
    ensures log[i].initiatorNonce != log[j].initiatorNonce
  {
    assert InstallsDistinct(log) by {
      KeptByRun(s, Init(honest), steps);
    }
    var k, l;
    i, k := Agreement(s, honest, steps, log, a);
    j, l := Agreement(s, honest, steps, log, b);
    assert OwnInstall(log[b], log[a].who);
  }
}
