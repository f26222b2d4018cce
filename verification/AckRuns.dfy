/** Trust negotiation over every run: each ack of a responder answers a challenge and a
    response of its own. */
module AckRuns {
  import opened Prelude
  import opened Frame
  import opened Negotiation
  import opened NegotiationRuns

  /** The node waits for the answer to a challenge with this nonce. */
  predicate Awaits(n: Node, p: NodeId, nonce: Nonce) {
    p in n.negotiations && n.negotiations[p].pendingChallenge.Some?
    && n.negotiations[p].pendingChallenge.value.nonce == nonce
  }

  /** Nonces waited for were drawn, no two contexts wait for the same, and none was acked. */
  ghost predicate AwaitedOk(who: Key, n: Node, used: set<Nonce>, log: seq<Event>) {
    && (forall p, x :: Awaits(n, p, x) ==> x in used)
    && (forall p, q, x :: Awaits(n, p, x) && Awaits(n, q, x) ==> p == q)
    && (forall p, j :: 0 <= j < |log| && log[j].Acked? && log[j].who == who ==> !Awaits(n, p, log[j].challengeNonce))
  }

  predicate AcksDrawn(used: set<Nonce>, log: seq<Event>) {
    forall j :: 0 <= j < |log| && log[j].Acked? ==> log[j].challengeNonce in used
  }

  predicate AcksDistinct(log: seq<Event>) {
    forall i, j :: 0 <= i < j < |log| && log[i].Acked? && log[j].Acked? && log[i].who == log[j].who ==>
      log[i].challengeNonce != log[j].challengeNonce
  }

  ghost predicate AckInv(w: World) {
    && (forall k :: k in w.nodes ==> AwaitedOk(k, w.nodes[k], w.used, w.log))
    && AcksDrawn(w.used, w.log) && AcksDistinct(w.log)
  }

  /** Processing a message waits at most for the nonce it draws, and an ack ends its wait. */
  lemma ProcessAwaits(s: Signing, who: Key, n: Node, m: Message, timestamp: u64, nonce: Nonce, now: Seconds)
    ensures var out := Process(s, who, n, m, timestamp, nonce, now);
            && (forall p, x :: Awaits(out.node, p, x) ==> Awaits(n, p, x) || (p == m.senderId && x == nonce))
            && (out.event.Some? ==> out.event.value.who == who)
            && (out.event.Some? && out.event.value.Acked? ==>
                  && Awaits(n, m.senderId, out.event.value.challengeNonce)
                  && forall p, x :: Awaits(out.node, p, x) ==> Awaits(n, p, x) && p != m.senderId)
  {
  }

  lemma AwaitedAfter(who: Key, n: Node, v: Node, from: NodeId, used: set<Nonce>, nonce: Nonce, log: seq<Event>,
                     e: Option<Event>)
    requires AwaitedOk(who, n, used, log) && AcksDrawn(used, log) && nonce !in used
    requires forall p, x :: Awaits(v, p, x) ==> Awaits(n, p, x) || (p == from && x == nonce)
    requires e.Some? && e.value.Acked? ==>
               && Awaits(n, from, e.value.challengeNonce)
               && forall p, x :: Awaits(v, p, x) ==> Awaits(n, p, x) && p != from
    ensures AwaitedOk(who, v, used + {nonce}, Recorded(log, e))
  {
    var after := Recorded(log, e);
    forall p, j | 0 <= j < |after| && after[j].Acked? && after[j].who == who
      ensures !Awaits(v, p, after[j].challengeNonce)
    {
      if j < |log| {
        assert after[j] == log[j] && !Awaits(n, p, log[j].challengeNonce);
      }
    }
  }

  lemma OthersAwait(k: Key, n: Node, used: set<Nonce>, nonce: Nonce, log: seq<Event>, e: Option<Event>)
    requires AwaitedOk(k, n, used, log) && (e.Some? ==> e.value.who != k)
    ensures AwaitedOk(k, n, used + {nonce}, Recorded(log, e))
  {
    var after := Recorded(log, e);
    forall p, j | 0 <= j < |after| && after[j].Acked? && after[j].who == k
      ensures !Awaits(n, p, after[j].challengeNonce)
    {
      assert after[j] == log[j];
    }
  }

  lemma AcksAfter(who: Key, n: Node, from: NodeId, used: set<Nonce>, nonce: Nonce, log: seq<Event>, e: Option<Event>)
    requires AwaitedOk(who, n, used, log) && AcksDrawn(used, log) && AcksDistinct(log)
    requires e.Some? && e.value.Acked? ==> e.value.who == who && Awaits(n, from, e.value.challengeNonce)
    ensures AcksDrawn(used + {nonce}, Recorded(log, e)) && AcksDistinct(Recorded(log, e))
  {
    var after := Recorded(log, e);
    forall i, j | 0 <= i < j < |after| && after[i].Acked? && after[j].Acked? && after[i].who == after[j].who
      ensures after[i].challengeNonce != after[j].challengeNonce
    {
      assert after[i] == log[i];
      if j < |log| {
        assert after[j] == log[j];
      } else {
        assert !Awaits(n, from, log[i].challengeNonce);
      }
    }
  }

  lemma KeptByDeliver(s: Signing, w: World, step: Step)
    requires AckInv(w) && step.Deliver? && Enabled(s, w, step)
    ensures AckInv(Next(s, w, step))
  {
    var v := Next(s, w, step);
    var who, n, from := step.who, w.nodes[step.who], step.message.senderId;
    var out := Process(s, who, n, step.message, step.timestamp, step.nonce, step.now);
    ProcessAwaits(s, who, n, step.message, step.timestamp, step.nonce, step.now);
    AwaitedAfter(who, n, out.node, from, w.used, step.nonce, w.log, out.event);
    AcksAfter(who, n, from, w.used, step.nonce, w.log, out.event);
    forall k | k in v.nodes ensures AwaitedOk(k, v.nodes[k], v.used, v.log) {
      if k != who {
        OthersAwait(k, w.nodes[k], w.used, step.nonce, w.log, out.event);
      }
    }
  }

  lemma KeptByStart(s: Signing, w: World, step: Step)
    requires AckInv(w) && step.Start? && Enabled(s, w, step)
    ensures AckInv(Next(s, w, step))
  {
    var v := Next(s, w, step);
    var n, u := w.nodes[step.who], v.nodes[step.who];
    assert forall p, x :: Awaits(u, p, x) ==> Awaits(n, p, x);
    forall k | k in v.nodes ensures AwaitedOk(k, v.nodes[k], v.used, v.log) {
      assert AwaitedOk(k, w.nodes[k], w.used, w.log);
    }
  }

  lemma KeptByCleanup(s: Signing, w: World, step: Step)
    requires AckInv(w) && step.Cleanup?
    ensures AckInv(Next(s, w, step))
  {
    if step.who in w.nodes {
      var n, u := w.nodes[step.who], Cleaned(w.nodes[step.who], step.now);
      assert forall p, x :: Awaits(u, p, x) ==> Awaits(n, p, x);
    }
  }

  lemma Kept(s: Signing, w: World, step: Step)
    requires AckInv(w)
    ensures AckInv(Next(s, w, step))
  {
    if step.Cleanup? {
      KeptByCleanup(s, w, step);
    } else if Enabled(s, w, step) {
      if step.Deliver? {
        KeptByDeliver(s, w, step);
      } else {
        KeptByStart(s, w, step);
      }
    }
  }

  lemma {:induction false} KeptByRun(s: Signing, w: World, steps: seq<Step>)
    requires AckInv(w)
    ensures AckInv(Run(s, w, steps))
    decreases |steps|
  {
    if steps != [] {
      Kept(s, w, steps[0]);
      KeptByRun(s, Next(s, w, steps[0]), steps[1..]);
    }
  }

  /** Two acks of one responder for honest initiators are for different challenges and
      rest on different responses: no response is accepted twice. */
  lemma InjectiveResponderAgreement(s: Signing, honest: set<Key>, steps: seq<Step>, log: seq<Event>, a: nat, b: nat)
    returns (i: nat, j: nat)
    requires log == Run(s, Init(honest), steps).log
    requires a < b < |log| && log[a].Acked? && log[b].Acked? && log[a].who == log[b].who
    requires log[a].initiator in honest && log[b].initiator in honest
    ensures log[a].challengeNonce != log[b].challengeNonce
    ensures i < a && j < b && i != j
    ensures log[i] == Responded(log[a].initiator, log[a].who, log[a].challengeNonce)
    ensures log[j] == Responded(log[b].initiator, log[b].who, log[b].challengeNonce)
  {
    assert AcksDistinct(log) by {
      KeptByRun(s, Init(honest), steps);
    }
    i := ResponderAgreement(s, honest, steps, log, a);
    j := ResponderAgreement(s, honest, steps, log, b);
  }
}
