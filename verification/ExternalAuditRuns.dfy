/** Writers and one collector over a network that loses, repeats and reorders
    genuine entries and receipts. A receipt names no node, so it may reach any. */
module ExternalAuditRuns {
  import opened Prelude
  import opened ExternalAudit

  /** `logs` is everything each writer has logged; `acked` the numbers of the
      entries whose receipt it has accepted; `receipts` all the collector issued. */
  datatype World = World(
    writers: map<NodeId, Writer>,
    logs: map<NodeId, seq<Entry>>,
    acked: map<NodeId, set<nat>>,
    collector: Collector,
    receipts: seq<Receipt>)

  datatype Step =
    | Log(node: NodeId, eventType: u16, payload: seq<byte>, now: Milliseconds)
    | DeliverEntry(node: NodeId, index: nat, now: Milliseconds)
    | DeliverReceipt(node: NodeId, index: nat)

  function Init(nodes: set<NodeId>, collector: NodeId): World {
    World(map n | n in nodes :: NewWriter(n), map n | n in nodes :: [], map n | n in nodes :: {},
          Collector(collector, map[], []), [])
  }

  predicate SameNodes(w: World) {
    w.writers.Keys == w.logs.Keys == w.acked.Keys
  }

  function Next(k: Crypto, w: World, s: Step): World
    requires SameNodes(w)
  {
    if s.node !in w.writers then w
    else
      var n := s.node;
      match s
      case Log(_, eventType, payload, now) =>
        var e := EntryFor(k, w.writers[n], eventType, payload, now);
        w.(writers := w.writers[n := LoggedWriter(w.writers[n], e)], logs := w.logs[n := w.logs[n] + [e]])
      case DeliverEntry(_, i, now) =>
        if i >= |w.logs[n]| || !Accepts(k, w.collector, w.logs[n][i]) then w
        else
          w.(collector := ReceivedCollector(w.collector, w.logs[n][i]),
             receipts := w.receipts + [ReceiptFor(k, w.collector, w.logs[n][i], now)])
      case DeliverReceipt(_, i) =>
        if i >= |w.receipts| || !Acknowledges(k, w.writers[n], w.receipts[i]) then w
        else
          w.(writers := w.writers[n := ReceiptWriter(k, w.writers[n], w.receipts[i])],
             acked := w.acked[n := w.acked[n] + {w.receipts[i].entryId}])
  }

  function Run(k: Crypto, w: World, steps: seq<Step>): World
    requires SameNodes(w)
    decreases |steps|
  {
    if steps == [] then w else Run(k, Next(k, w, steps[0]), steps[1..])
  }

  // ---------------------------------------------------------------------

  /** The entries of node `n`, in order. */
  function Of(store: seq<Entry>, n: NodeId): seq<Entry> {
    if store == [] then []
    else
      var last := store[|store| - 1];
      Of(store[..|store| - 1], n) + (if last.content.nodeId == n then [last] else [])
  }

  /** The entries whose numbers are not in `done`, in order. */
  function Outstanding(log: seq<Entry>, done: set<nat>): seq<Entry> {
    if log == [] then []
    else
      var last := log[|log| - 1];
      Outstanding(log[..|log| - 1], done) + (if last.content.entryId in done then [] else [last])
  }

  function LastHash(log: seq<Entry>): Digest {
    if log == [] then Genesis() else log[|log| - 1].entryHash
  }

  /** A log is numbered from one, chained, and hashed. */
  predicate LogOk(k: Crypto, n: NodeId, log: seq<Entry>) {
    forall i :: 0 <= i < |log| ==>
      && log[i].content.nodeId == n
      && log[i].content.entryId == i + 1
      && log[i].entryHash == k.hash(log[i].content)
  }

  predicate WriterOk(w: Writer, n: NodeId, log: seq<Entry>, acked: set<nat>) {
    && w.nodeId == n
    && w.nextEntryId == |log| + 1
    && w.prevHash == LastHash(log)
    && w.pending == Outstanding(log, acked)
    && forall i :: i in acked ==> 1 <= i <= |log|
  }

  /** What the collector holds of a node is a prefix of its log, and its chain state says so. */
  predicate StoredOk(c: Collector, n: NodeId, log: seq<Entry>) {
    && Of(c.store, n) <= log
    && ChainOf(c, n).lastEntryId == |Of(c.store, n)| == ChainOf(c, n).entryCount
    && ChainOf(c, n).lastHash == LastHash(Of(c.store, n))
  }

  predicate Witnessed(store: seq<Entry>, id: nat, hash: Digest) {
    exists i :: 0 <= i < |store| && store[i].content.entryId == id && store[i].entryHash == hash
  }

  predicate ReceiptsOk(w: World) {
    forall i :: 0 <= i < |w.receipts| ==> Witnessed(w.collector.store, w.receipts[i].entryId, w.receipts[i].entryHash)
  }

  predicate AckedOk(store: seq<Entry>, log: seq<Entry>, acked: set<nat>) {
    forall i :: i in acked ==> 1 <= i <= |log| && Witnessed(store, i, log[i - 1].entryHash)
  }

  predicate LogsOk(k: Crypto, w: World) {
    forall n :: n in w.logs ==> LogOk(k, n, w.logs[n])
  }

  predicate WritersOk(w: World)
    requires SameNodes(w)
  {
    forall n :: n in w.logs ==> WriterOk(w.writers[n], n, w.logs[n], w.acked[n])
  }

  predicate ReplicasOk(w: World) {
    forall n :: n in w.logs ==> StoredOk(w.collector, n, w.logs[n])
  }

  predicate AcksOk(w: World)
    requires SameNodes(w)
  {
    forall n :: n in w.logs ==> AckedOk(w.collector.store, w.logs[n], w.acked[n])
  }

  predicate StoreOk(w: World)
    requires SameNodes(w)
  {
    forall i :: 0 <= i < |w.collector.store| ==>
      w.collector.store[i].content.nodeId in w.logs
        && w.collector.store[i] in w.logs[w.collector.store[i].content.nodeId]
  }

  predicate Inv(k: Crypto, w: World) {
    && SameNodes(w)
    && LogsOk(k, w) && WritersOk(w) && ReplicasOk(w) && AcksOk(w)
    && ReceiptsOk(w)
    && StoreOk(w)
  }

  // ---------------------------------------------------------------------
  // Preservation.

  lemma OfAppend(store: seq<Entry>, e: Entry, n: NodeId)
    ensures Of(store + [e], n) == if e.content.nodeId == n then Of(store, n) + [e] else Of(store, n)
  {
    assert (store + [e])[..|store|] == store;
  }

  lemma OutstandingAppend(log: seq<Entry>, e: Entry, done: set<nat>)
    requires e.content.entryId !in done
    ensures Outstanding(log + [e], done) == Outstanding(log, done) + [e]
  {
    assert (log + [e])[..|log|] == log;
  }

  lemma LogsAfterLog(k: Crypto, w: World, n: NodeId, e: Entry)
    requires LogsOk(k, w) && n in w.logs
    requires e.content.nodeId == n && e.content.entryId == |w.logs[n]| + 1 && e.entryHash == k.hash(e.content)
    ensures LogsOk(k, w.(logs := w.logs[n := w.logs[n] + [e]]))
  {
  }

  lemma WriterAfterLog(writer: Writer, n: NodeId, log: seq<Entry>, acked: set<nat>, e: Entry)
    requires WriterOk(writer, n, log, acked) && e.content.entryId == |log| + 1
    ensures WriterOk(LoggedWriter(writer, e), n, log + [e], acked)
  {
    OutstandingAppend(log, e, acked);
  }

  lemma AcksAfterLog(store: seq<Entry>, log: seq<Entry>, acked: set<nat>, e: Entry)
    requires AckedOk(store, log, acked)
    ensures AckedOk(store, log + [e], acked)
  {
    forall i | i in acked ensures Witnessed(store, i, (log + [e])[i - 1].entryHash) {
      assert Witnessed(store, i, log[i - 1].entryHash);
    }
  }

  lemma StoredAfterLog(c: Collector, n: NodeId, log: seq<Entry>, e: Entry)
    requires StoredOk(c, n, log)
    ensures StoredOk(c, n, log + [e])
  {
    assert log <= log + [e];
  }

  /** `v` is `w` after node `n` logged `e`. */
  predicate HasLogged(w: World, v: World, n: NodeId, e: Entry)
    requires SameNodes(w)
  {
    && n in w.logs
    && e.content.nodeId == n && e.content.entryId == |w.logs[n]| + 1
    && v == w.(writers := w.writers[n := LoggedWriter(w.writers[n], e)], logs := w.logs[n := w.logs[n] + [e]])
  }

  lemma LoggingIsLocal(w: World, v: World, n: NodeId, e: Entry)
    requires SameNodes(w) && HasLogged(w, v, n, e)
    ensures SameNodes(v)
  {
  }

  lemma WritersAfterLog(w: World, v: World, n: NodeId, e: Entry)
    requires SameNodes(w) && SameNodes(v) && WritersOk(w) && HasLogged(w, v, n, e)
    ensures WritersOk(v)
  {
    forall m | m in v.logs ensures WriterOk(v.writers[m], m, v.logs[m], v.acked[m]) {
      assert WriterOk(w.writers[m], m, w.logs[m], w.acked[m]);
      if m == n {
        WriterAfterLog(w.writers[n], n, w.logs[n], w.acked[n], e);
      }
    }
  }

  lemma ReplicasAfterLog(w: World, v: World, n: NodeId, e: Entry)
    requires SameNodes(w) && ReplicasOk(w) && HasLogged(w, v, n, e)
    ensures ReplicasOk(v)
  {
    forall m | m in v.logs ensures StoredOk(v.collector, m, v.logs[m]) {
      assert StoredOk(w.collector, m, w.logs[m]);
      if m == n {
        StoredAfterLog(w.collector, n, w.logs[n], e);
      }
    }
  }

  lemma AllAcksAfterLog(w: World, v: World, n: NodeId, e: Entry)
    requires SameNodes(w) && SameNodes(v) && AcksOk(w) && HasLogged(w, v, n, e)
    ensures AcksOk(v)
  {
    forall m | m in v.logs ensures AckedOk(v.collector.store, v.logs[m], v.acked[m]) {
      assert AckedOk(w.collector.store, w.logs[m], w.acked[m]);
      if m == n {
        AcksAfterLog(w.collector.store, w.logs[n], w.acked[n], e);
      }
    }
  }

  lemma KeptByLog(k: Crypto, w: World, s: Step)
    requires Inv(k, w) && s.Log? && s.node in w.writers
    ensures Inv(k, Next(k, w, s))
  {
    var n, v := s.node, Next(k, w, s);
    assert n in w.writers.Keys;
    assert WriterOk(w.writers[n], n, w.logs[n], w.acked[n]);
    var e := EntryFor(k, w.writers[n], s.eventType, s.payload, s.now);
    LoggingIsLocal(w, v, n, e);
    LogsAfterLog(k, w, n, e);
    WritersAfterLog(w, v, n, e);
    ReplicasAfterLog(w, v, n, e);
    AllAcksAfterLog(w, v, n, e);
    StoreAfterLog(w, n, e, v);
  }

  lemma StoreAfterLog(w: World, n: NodeId, e: Entry, v: World)
    requires SameNodes(w) && SameNodes(v) && StoreOk(w) && n in w.logs
    requires v.collector == w.collector && v.logs == w.logs[n := w.logs[n] + [e]]
    ensures StoreOk(v)
  {
    forall i | 0 <= i < |v.collector.store|
      ensures v.collector.store[i].content.nodeId in v.logs
              && v.collector.store[i] in v.logs[v.collector.store[i].content.nodeId]
    {
      assert v.collector.store[i] == w.collector.store[i];
    }
  }

  lemma WitnessedStays(store: seq<Entry>, e: Entry, id: nat, hash: Digest)
    requires Witnessed(store, id, hash)
    ensures Witnessed(store + [e], id, hash)
  {
    var i :| 0 <= i < |store| && store[i].content.entryId == id && store[i].entryHash == hash;
    assert (store + [e])[i] == store[i];
  }

  lemma AckedStays(store: seq<Entry>, e: Entry, log: seq<Entry>, acked: set<nat>)
    requires AckedOk(store, log, acked)
    ensures AckedOk(store + [e], log, acked)
  {
    forall i | i in acked ensures 1 <= i <= |log| && Witnessed(store + [e], i, log[i - 1].entryHash) {
      WitnessedStays(store, e, i, log[i - 1].entryHash);
    }
  }

  lemma PrefixExtend(p: seq<Entry>, log: seq<Entry>)
    requires p <= log && |p| < |log|
    ensures p + [log[|p|]] <= log
  {
  }

  /** An accepted entry is the next one of its log. */
  lemma StoredAfterOwn(k: Crypto, n: NodeId, log: seq<Entry>, c: Collector, i: nat)
    requires LogOk(k, n, log) && StoredOk(c, n, log) && i < |log| && Accepts(k, c, log[i])
    ensures i == |Of(c.store, n)| && StoredOk(ReceivedCollector(c, log[i]), n, log)
  {
    OfAppend(c.store, log[i], n);
    assert i == |Of(c.store, n)|;
    PrefixExtend(Of(c.store, n), log);
  }

  lemma StoredAfterOther(n: NodeId, log: seq<Entry>, c: Collector, e: Entry)
    requires StoredOk(c, n, log) && e.content.nodeId != n
    ensures StoredOk(ReceivedCollector(c, e), n, log)
  {
    OfAppend(c.store, e, n);
  }

  lemma ReplicasAfterEntry(k: Crypto, w: World, n: NodeId, i: nat)
    requires LogsOk(k, w) && ReplicasOk(w) && n in w.logs && i < |w.logs[n]| && Accepts(k, w.collector, w.logs[n][i])
    ensures ReplicasOk(w.(collector := ReceivedCollector(w.collector, w.logs[n][i])))
  {
    var e := w.logs[n][i];
    assert LogOk(k, n, w.logs[n]) && e.content.nodeId == n;
    forall m | m in w.logs ensures StoredOk(ReceivedCollector(w.collector, e), m, w.logs[m]) {
      if m == n {
        StoredAfterOwn(k, n, w.logs[n], w.collector, i);
      } else {
        StoredAfterOther(m, w.logs[m], w.collector, e);
      }
    }
  }

  lemma AcksAfterEntry(w: World, e: Entry)
    requires SameNodes(w) && AcksOk(w)
    ensures AcksOk(w.(collector := ReceivedCollector(w.collector, e)))
  {
    forall m | m in w.logs ensures AckedOk(w.collector.store + [e], w.logs[m], w.acked[m]) {
      AckedStays(w.collector.store, e, w.logs[m], w.acked[m]);
    }
  }

  lemma StoreAfterEntry(w: World, e: Entry)
    requires SameNodes(w) && StoreOk(w) && e.content.nodeId in w.logs && e in w.logs[e.content.nodeId]
    ensures StoreOk(w.(collector := ReceivedCollector(w.collector, e)))
  {
  }

  lemma KeptByEntry(k: Crypto, w: World, s: Step)
    requires Inv(k, w) && s.DeliverEntry? && s.node in w.writers && s.index < |w.logs[s.node]|
    requires Accepts(k, w.collector, w.logs[s.node][s.index])
    ensures Inv(k, Next(k, w, s))
  {
    var n := s.node;
    var e, v := w.logs[n][s.index], Next(k, w, s);
    assert LogOk(k, n, w.logs[n]);
    ReplicasAfterEntry(k, w, n, s.index);
    AcksAfterEntry(w, e);
    StoreAfterEntry(w, e);
    ReceiptsAfterEntry(k, w, e, s.now);
    EntryGlue(k, w, v, e);
  }

  /** Accepting an entry leaves writers and logs alone. */
  lemma EntryGlue(k: Crypto, w: World, v: World, e: Entry)
    requires SameNodes(w) && LogsOk(k, w) && WritersOk(w)
    requires v == w.(collector := ReceivedCollector(w.collector, e), receipts := v.receipts)
    requires ReplicasOk(w.(collector := v.collector)) && AcksOk(w.(collector := v.collector))
    requires StoreOk(w.(collector := v.collector)) && ReceiptsOk(v)
    ensures Inv(k, v)
  {
  }

  lemma ReceiptsAfterEntry(k: Crypto, w: World, e: Entry, now: Milliseconds)
    requires ReceiptsOk(w)
    ensures ReceiptsOk(w.(collector := ReceivedCollector(w.collector, e),
                          receipts := w.receipts + [ReceiptFor(k, w.collector, e, now)]))
  {
    var receipts := w.receipts + [ReceiptFor(k, w.collector, e, now)];
    var store := w.collector.store + [e];
    forall i | 0 <= i < |receipts| ensures Witnessed(store, receipts[i].entryId, receipts[i].entryHash) {
      if i < |w.receipts| {
        WitnessedStays(w.collector.store, e, receipts[i].entryId, receipts[i].entryHash);
      } else {
        assert store[|w.collector.store|] == e;
      }
    }
  }

  /** The outstanding entries are entries of the log, in order of their numbers. */
  lemma {:induction false} OutstandingFrom(k: Crypto, n: NodeId, log: seq<Entry>, done: set<nat>)
    requires LogOk(k, n, log)
    ensures forall j :: 0 <= j < |Outstanding(log, done)| ==>
              var id := Outstanding(log, done)[j].content.entryId;
              1 <= id <= |log| && id !in done && Outstanding(log, done)[j] == log[id - 1]
    ensures forall i, j :: 0 <= i < j < |Outstanding(log, done)| ==>
              Outstanding(log, done)[i].content.entryId < Outstanding(log, done)[j].content.entryId
  {
    if log != [] {
      OutstandingFrom(k, n, log[..|log| - 1], done);
    }
  }

  /** Dropping an outstanding entry is marking its number as done. */
  lemma {:induction false} OutstandingDrop(k: Crypto, n: NodeId, log: seq<Entry>, done: set<nat>, j: nat)
    requires LogOk(k, n, log) && j < |Outstanding(log, done)|
    ensures var all := Outstanding(log, done);
            Outstanding(log, done + {all[j].content.entryId}) == all[..j] + all[j + 1..]
  {
    var init, last := log[..|log| - 1], log[|log| - 1];
    var all, before := Outstanding(log, done), Outstanding(init, done);
    var id := all[j].content.entryId;
    if j < |before| {
      OutstandingFrom(k, n, init, done);
      assert all[j] == before[j] && id != last.content.entryId;
      OutstandingDrop(k, n, init, done, j);
      DropThenAppend(before, all[|before|..], j);
    } else {
      OutstandingSame(k, n, init, done, id);
      assert all == before + [last] && all[..j] == before;
    }
  }

  lemma DropThenAppend(a: seq<Entry>, b: seq<Entry>, j: nat)
    requires j < |a|
    ensures (a[..j] + a[j + 1..]) + b == (a + b)[..j] + (a + b)[j + 1..]
  {
  }

  lemma {:induction false} OutstandingSame(k: Crypto, n: NodeId, log: seq<Entry>, done: set<nat>, id: nat)
    requires LogOk(k, n, log) && id > |log|
    ensures Outstanding(log, done + {id}) == Outstanding(log, done)
  {
    if log != [] {
      OutstandingSame(k, n, log[..|log| - 1], done, id);
    }
  }

  lemma WriterAfterReceipt(k: Crypto, n: NodeId, writer: Writer, log: seq<Entry>, acked: set<nat>, r: Receipt)
    requires LogOk(k, n, log) && WriterOk(writer, n, log, acked) && Acknowledges(k, writer, r)
    ensures WriterOk(ReceiptWriter(k, writer, r), n, log, acked + {r.entryId})
  {
    var at := Position(writer.pending, r.entryId).value;
    OutstandingFrom(k, n, log, acked);
    OutstandingDrop(k, n, log, acked, at);
    assert writer.pending[at] == log[r.entryId - 1];
  }

  /** `v` is `w` after node `n` accepted receipt `r`. */
  predicate HasAccepted(k: Crypto, w: World, v: World, n: NodeId, r: Receipt)
    requires SameNodes(w)
  {
    && n in w.logs && Acknowledges(k, w.writers[n], r)
    && v == w.(writers := w.writers[n := ReceiptWriter(k, w.writers[n], r)],
               acked := w.acked[n := w.acked[n] + {r.entryId}])
  }

  lemma WritersAfterReceipt(k: Crypto, w: World, v: World, n: NodeId, r: Receipt)
    requires SameNodes(w) && SameNodes(v) && LogsOk(k, w) && WritersOk(w) && HasAccepted(k, w, v, n, r)
    ensures WritersOk(v)
  {
    forall m | m in v.logs ensures WriterOk(v.writers[m], m, v.logs[m], v.acked[m]) {
      assert LogOk(k, m, w.logs[m]) && WriterOk(w.writers[m], m, w.logs[m], w.acked[m]);
      if m == n {
        WriterAfterReceipt(k, n, w.writers[n], w.logs[n], w.acked[n], r);
      }
    }
  }

  lemma AcksAfterReceipt(w: World, v: World, n: NodeId, id: nat)
    requires SameNodes(w) && SameNodes(v) && AcksOk(w) && n in w.acked && n in w.logs
    requires v.logs == w.logs && v.collector == w.collector && v.acked == w.acked[n := w.acked[n] + {id}]
    requires 1 <= id <= |w.logs[n]| && Witnessed(w.collector.store, id, w.logs[n][id - 1].entryHash)
    ensures AcksOk(v)
  {
    AckedAdd(w.collector.store, w.logs[n], w.acked[n], id);
  }

  lemma AckedAdd(store: seq<Entry>, log: seq<Entry>, acked: set<nat>, id: nat)
    requires AckedOk(store, log, acked) && 1 <= id <= |log| && Witnessed(store, id, log[id - 1].entryHash)
    ensures AckedOk(store, log, acked + {id})
  {
  }

  lemma AcceptingIsLocal(k: Crypto, w: World, v: World, n: NodeId, r: Receipt)
    requires SameNodes(w) && HasAccepted(k, w, v, n, r)
    ensures SameNodes(v) && v.logs == w.logs && v.collector == w.collector && v.receipts == w.receipts
    ensures n in w.acked && v.acked == w.acked[n := w.acked[n] + {r.entryId}]
  {
    assert n in w.writers.Keys;
  }

  lemma AcceptedIsLogged(k: Crypto, w: World, v: World, n: NodeId, r: Receipt)
    requires SameNodes(w) && LogsOk(k, w) && WritersOk(w) && HasAccepted(k, w, v, n, r)
    ensures n in w.logs && 1 <= r.entryId <= |w.logs[n]| && w.logs[n][r.entryId - 1].entryHash == r.entryHash
  {
    assert LogOk(k, n, w.logs[n]) && WriterOk(w.writers[n], n, w.logs[n], w.acked[n]);
    OutstandingFrom(k, n, w.logs[n], w.acked[n]);
  }

  lemma AllAcksAfterReceipt(w: World, v: World, n: NodeId, r: Receipt)
    requires SameNodes(w) && SameNodes(v) && AcksOk(w) && n in w.acked && n in w.logs
    requires v.logs == w.logs && v.collector == w.collector && v.acked == w.acked[n := w.acked[n] + {r.entryId}]
    requires 1 <= r.entryId <= |w.logs[n]| && w.logs[n][r.entryId - 1].entryHash == r.entryHash
    requires Witnessed(w.collector.store, r.entryId, r.entryHash)
    ensures AcksOk(v)
  {
    AcksAfterReceipt(w, v, n, r.entryId);
  }

  lemma KeptByReceipt(k: Crypto, w: World, v: World, n: NodeId, r: Receipt)
    requires Inv(k, w) && HasAccepted(k, w, v, n, r) && Witnessed(w.collector.store, r.entryId, r.entryHash)
    ensures Inv(k, v)
  {
    AcceptingIsLocal(k, w, v, n, r);
    assert WritersOk(v) by {
      WritersAfterReceipt(k, w, v, n, r);
    }
    assert AcksOk(v) by {
      AcceptedIsLogged(k, w, v, n, r);
      AllAcksAfterReceipt(w, v, n, r);
    }
    ReceiptGlue(k, w, v);
  }

  /** Accepting a receipt leaves logs and collector alone. */
  lemma ReceiptGlue(k: Crypto, w: World, v: World)
    requires SameNodes(w) && LogsOk(k, w) && ReplicasOk(w) && ReceiptsOk(w) && StoreOk(w)
    requires v.logs == w.logs && v.collector == w.collector && v.receipts == w.receipts
    requires SameNodes(v) && WritersOk(v) && AcksOk(v)
    ensures Inv(k, v)
  {
  }

  lemma Kept(k: Crypto, w: World, s: Step)
    requires Inv(k, w)
    ensures Inv(k, Next(k, w, s))
  {
    if s.node in w.writers {
      match s
      case Log(_, _, _, _) => KeptByLog(k, w, s);
      case DeliverEntry(n, i, _) =>
        if i < |w.logs[n]| && Accepts(k, w.collector, w.logs[n][i]) {
          KeptByEntry(k, w, s);
        }
      case DeliverReceipt(n, i) =>
        if i < |w.receipts| && Acknowledges(k, w.writers[n], w.receipts[i]) {
          KeptByReceipt(k, w, Next(k, w, s), n, w.receipts[i]);
        }
    }
  }

  lemma {:induction false} KeptByRun(k: Crypto, w: World, steps: seq<Step>)
    requires Inv(k, w)
    ensures Inv(k, Run(k, w, steps))
    decreases |steps|
  {
    if steps != [] {
      Kept(k, w, steps[0]);
      KeptByRun(k, Next(k, w, steps[0]), steps[1..]);
    }
  }

  lemma InitOk(k: Crypto, nodes: set<NodeId>, collector: NodeId)
    ensures Inv(k, Init(nodes, collector))
  {
  }

  // ---------------------------------------------------------------------
  // What this means.

  /** In every run the collector holds a prefix of each writer's log, and a writer
      holds exactly what it logged and has no receipt for, in order. */
  lemma ReplicaIsPrefix(k: Crypto, nodes: set<NodeId>, collector: NodeId, steps: seq<Step>, n: NodeId)
    requires n in nodes
    ensures var w := Run(k, Init(nodes, collector), steps);
            && n in w.logs && n in w.writers && n in w.acked
            && Of(w.collector.store, n) <= w.logs[n]
            && w.writers[n].pending == Outstanding(w.logs[n], w.acked[n])
  {
    InitOk(k, nodes, collector);
    KeptByRun(k, Init(nodes, collector), steps);
    RunKeepsNodes(k, Init(nodes, collector), steps);
    var w := Run(k, Init(nodes, collector), steps);
    assert n in w.writers.Keys;
    assert WriterOk(w.writers[n], n, w.logs[n], w.acked[n]) && StoredOk(w.collector, n, w.logs[n]);
  }

  lemma {:induction false} RunKeepsNodes(k: Crypto, w: World, steps: seq<Step>)
    requires SameNodes(w)
    ensures Run(k, w, steps).writers.Keys == w.writers.Keys && SameNodes(Run(k, w, steps))
    decreases |steps|
  {
    if steps != [] {
      assert Next(k, w, steps[0]).writers.Keys == w.writers.Keys;
      RunKeepsNodes(k, Next(k, w, steps[0]), steps[1..]);
    }
  }

  /** Two entries of different nodes with one hash: the hash has collided. */
  predicate Collides(k: Crypto, a: Entry, b: Entry) {
    a.content.nodeId != b.content.nodeId && k.hash(a.content) == k.hash(b.content) && a.entryHash == b.entryHash
  }

  /** Every receipted entry is stored, unless the collector holds another node's
      entry with the same hash, on which the hash then collides. */
  lemma ReceiptedIsStored(k: Crypto, nodes: set<NodeId>, collector: NodeId, steps: seq<Step>, w: World, n: NodeId,
                          id: nat)
    returns (e: Entry)
    requires w == Run(k, Init(nodes, collector), steps) && n in nodes
    requires n in w.acked && id in w.acked[n]
    ensures n in w.logs && 1 <= id <= |w.logs[n]| && e in w.collector.store
    ensures e == w.logs[n][id - 1] || Collides(k, e, w.logs[n][id - 1])
  {
    InitOk(k, nodes, collector);
    KeptByRun(k, Init(nodes, collector), steps);
    RunKeepsNodes(k, Init(nodes, collector), steps);
    e := StoredEntry(k, w, n, id);
  }

  lemma StoredEntry(k: Crypto, w: World, n: NodeId, id: nat) returns (e: Entry)
    requires SameNodes(w) && LogsOk(k, w) && StoreOk(w) && AcksOk(w) && n in w.acked && id in w.acked[n]
    ensures n in w.logs && 1 <= id <= |w.logs[n]| && e in w.collector.store
    ensures e == w.logs[n][id - 1] || Collides(k, e, w.logs[n][id - 1])
  {
    assert n in w.acked.Keys;
    assert LogOk(k, n, w.logs[n]) && AckedOk(w.collector.store, w.logs[n], w.acked[n]);
    var mine := w.logs[n][id - 1];
    var i :| 0 <= i < |w.collector.store| && w.collector.store[i].content.entryId == id
      && w.collector.store[i].entryHash == mine.entryHash;
    e := w.collector.store[i];
    var m := e.content.nodeId;
    assert LogOk(k, m, w.logs[m]);
  }
}
