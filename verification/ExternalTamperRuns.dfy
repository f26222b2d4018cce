/** One writer and a collector over a network that may alter entries, but cannot
    sign: what is stored of the writer's log then. */
module ExternalTamperRuns {
  import opened Prelude
  import opened ExternalAudit
  import opened ExternalAuditRuns

  datatype Pair = Pair(writer: Writer, log: seq<Entry>, collector: Collector)

  datatype Move =
    | Writes(eventType: u16, payload: seq<byte>, now: Milliseconds)
    | Receives(entry: Entry)

  function Start(n: NodeId, collector: NodeId): Pair {
    Pair(NewWriter(n), [], Collector(collector, map[], []))
  }

  predicate HashIn(log: seq<Entry>, h: Digest) {
    exists j :: 0 <= j < |log| && log[j].entryHash == h
  }

  /** A signature of the writer that verifies is on a hash the writer signed. */
  predicate Genuine(k: Crypto, p: Pair, e: Entry) {
    e.content.nodeId == p.writer.nodeId && Signed(k, e) ==> HashIn(p.log, e.entryHash)
  }

  function Moved(k: Crypto, p: Pair, m: Move): Pair {
    match m
    case Writes(eventType, payload, now) =>
      var e := EntryFor(k, p.writer, eventType, payload, now);
      p.(writer := LoggedWriter(p.writer, e), log := p.log + [e])
    case Receives(e) =>
      if Genuine(k, p, e) && Accepts(k, p.collector, e) then p.(collector := ReceivedCollector(p.collector, e)) else p
  }

  function After(k: Crypto, p: Pair, moves: seq<Move>): Pair
    decreases |moves|
  {
    if moves == [] then p else After(k, Moved(k, p, moves[0]), moves[1..])
  }

  function Replica(p: Pair): seq<Entry> {
    Of(p.collector.store, p.writer.nodeId)
  }

  /** What is stored has the numbers from one on and hashes the writer signed. */
  predicate StoredSigned(log: seq<Entry>, stored: seq<Entry>) {
    forall i :: 0 <= i < |stored| ==> stored[i].content.entryId == i + 1 && HashIn(log, stored[i].entryHash)
  }

  predicate PairOk(k: Crypto, p: Pair) {
    && p.writer.nextEntryId == |p.log| + 1
    && LogOk(k, p.writer.nodeId, p.log)
    && StoredSigned(p.log, Replica(p))
    && ChainOf(p.collector, p.writer.nodeId).lastEntryId == |Replica(p)|
  }

  lemma HashStays(log: seq<Entry>, e: Entry, h: Digest)
    requires HashIn(log, h)
    ensures HashIn(log + [e], h)
  {
    var j :| 0 <= j < |log| && log[j].entryHash == h;
    assert (log + [e])[j] == log[j];
  }

  lemma KeptByWrites(k: Crypto, p: Pair, m: Move)
    requires PairOk(k, p) && m.Writes?
    ensures PairOk(k, Moved(k, p, m))
  {
    var v := Moved(k, p, m);
    var e := v.log[|p.log|];
    forall i | 0 <= i < |Replica(v)| ensures HashIn(v.log, Replica(v)[i].entryHash) {
      HashStays(p.log, e, Replica(p)[i].entryHash);
    }
  }

  lemma SignedAppend(log: seq<Entry>, stored: seq<Entry>, e: Entry)
    requires StoredSigned(log, stored) && e.content.entryId == |stored| + 1 && HashIn(log, e.entryHash)
    ensures StoredSigned(log, stored + [e])
  {
  }

  lemma KeptByReceives(k: Crypto, p: Pair, m: Move)
    requires PairOk(k, p) && m.Receives?
    ensures PairOk(k, Moved(k, p, m))
  {
    var n, e := p.writer.nodeId, m.entry;
    OfAppend(p.collector.store, e, n);
    if Genuine(k, p, e) && Accepts(k, p.collector, e) && e.content.nodeId == n {
      SignedAppend(p.log, Replica(p), e);
    }
  }

  lemma {:induction false} KeptByMoves(k: Crypto, p: Pair, moves: seq<Move>)
    requires PairOk(k, p)
    ensures PairOk(k, After(k, p, moves))
    decreases |moves|
  {
    if moves != [] {
      if moves[0].Writes? {
        KeptByWrites(k, p, moves[0]);
      } else {
        KeptByReceives(k, p, moves[0]);
      }
      KeptByMoves(k, Moved(k, p, moves[0]), moves[1..]);
    }
  }

  /** Entry by entry, what is stored is what was written, whatever bytes sign it. */
  predicate Matches(stored: seq<Entry>, log: seq<Entry>) {
    && |stored| <= |log|
    && forall i :: 0 <= i < |stored| ==> stored[i].content == log[i].content && stored[i].entryHash == log[i].entryHash
  }

  /** Every entry states the hash of its own content: the check the collector omits. */
  predicate AllHashed(k: Crypto, stored: seq<Entry>) {
    forall i :: 0 <= i < |stored| ==> stored[i].entryHash == k.hash(stored[i].content)
  }

  predicate Collision(k: Crypto, stored: seq<Entry>, log: seq<Entry>) {
    exists i, j :: 0 <= i < |stored| && 0 <= j < |log| && stored[i].content != log[j].content
                   && k.hash(stored[i].content) == k.hash(log[j].content)
  }

  lemma HashedMatches(k: Crypto, n: NodeId, stored: seq<Entry>, log: seq<Entry>, i: nat)
    requires LogOk(k, n, log) && StoredSigned(log, stored) && AllHashed(k, stored) && !Collision(k, stored, log)
    requires i < |stored|
    ensures i < |log| && stored[i].content == log[i].content && stored[i].entryHash == log[i].entryHash
  {
    assert HashIn(log, stored[i].entryHash);
    var j :| 0 <= j < |log| && log[j].entryHash == stored[i].entryHash;
    assert k.hash(stored[i].content) == k.hash(log[j].content);
    assert stored[i].content == log[j].content;
  }

  /** In every run what is stored of the writer matches a prefix of its log exactly when
      every stored entry states the hash of its content, barring a hash collision. */
  lemma ReplicaMatchesIff(k: Crypto, n: NodeId, collector: NodeId, moves: seq<Move>)
    ensures var p := After(k, Start(n, collector), moves);
            Collision(k, Replica(p), p.log) || (Matches(Replica(p), p.log) <==> AllHashed(k, Replica(p)))
  {
    KeptByMoves(k, Start(n, collector), moves);
    var p := After(k, Start(n, collector), moves);
    if AllHashed(k, Replica(p)) && !Collision(k, Replica(p), p.log) {
      assert Matches(Replica(p), p.log) by {
        if Replica(p) != [] {
          HashedMatches(k, p.writer.nodeId, Replica(p), p.log, |Replica(p)| - 1);
        }
        forall i | 0 <= i < |Replica(p)|
          ensures Replica(p)[i].content == p.log[i].content && Replica(p)[i].entryHash == p.log[i].entryHash
        {
          HashedMatches(k, p.writer.nodeId, Replica(p), p.log, i);
        }
      }
    }
  }

  /** And it can fail to: a first entry whose payload is replaced on the way is stored
      and receipted like the one that was written. */
  lemma AlteredIsStored(k: Crypto, n: NodeId, collector: NodeId, eventType: u16, payload: seq<byte>, other: seq<byte>,
                        now: Milliseconds)
    requires payload != other
    requires var e := EntryFor(k, NewWriter(n), eventType, payload, now);
             Signed(k, e)
    ensures var e := EntryFor(k, NewWriter(n), eventType, payload, now);
            var altered := e.(content := e.content.(payload := other));
            var p := After(k, Start(n, collector), [Writes(eventType, payload, now), Receives(altered)]);
            p.log == [e] && Replica(p) == [altered] && !Matches(Replica(p), p.log)
  {
    var e := EntryFor(k, NewWriter(n), eventType, payload, now);
    var altered := e.(content := e.content.(payload := other));
    var moves := [Writes(eventType, payload, now), Receives(altered)];
    var p := Start(n, collector);
    var q := Moved(k, p, moves[0]);
    assert q.log == [e] && q.log[0].entryHash == altered.entryHash;
    AlteredIsAcceptedAlike(k, q.collector, e, now, eventType, other, now);
    assert Genuine(k, q, altered) && Accepts(k, q.collector, altered);
    var z := Moved(k, q, moves[1]);
    assert moves[1..] == [moves[1]] && moves[1..][1..] == [];
    assert After(k, q, moves[1..]) == After(k, z, []);
    OfAppend([], altered, n);
    assert z.collector.store == [altered];
  }
}
