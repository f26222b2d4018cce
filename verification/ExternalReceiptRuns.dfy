/** Writers and one collector, with receipts that anyone may have made. A writer checks
    a receipt under the key that the receipt itself names. */
module ExternalReceiptRuns {
  import opened Prelude
  import opened ExternalAudit
  import opened ExternalAuditRuns

  datatype Move =
    | Own(step: Step)
    | AnyReceipt(node: NodeId, receipt: Receipt)

  /** The collector's signature on a receipt is one that the collector made. */
  predicate Genuine(k: Crypto, w: World, r: Receipt) {
    r.collectorId == w.collector.id && ReceiptSigned(k, r) ==>
      exists i :: 0 <= i < |w.receipts| && w.receipts[i].entryId == r.entryId && w.receipts[i].entryHash == r.entryHash
  }

  function Moved(k: Crypto, w: World, m: Move): World
    requires SameNodes(w)
  {
    match m
    case Own(step) => Next(k, w, step)
    case AnyReceipt(n, r) =>
      if n !in w.writers || !Genuine(k, w, r) || !Acknowledges(k, w.writers[n], r) then w
      else w.(writers := w.writers[n := ReceiptWriter(k, w.writers[n], r)],
              acked := w.acked[n := w.acked[n] + {r.entryId}])
  }

  function After(k: Crypto, w: World, moves: seq<Move>): World
    requires SameNodes(w)
    decreases |moves|
  {
    if moves == [] then w else After(k, Moved(k, w, moves[0]), moves[1..])
  }

  /** The receipt, if it is one, names this collector: the check the writer omits. */
  predicate FromCollector(m: Move, collector: NodeId) {
    m.AnyReceipt? ==> m.receipt.collectorId == collector
  }

  lemma KeptByMove(k: Crypto, w: World, m: Move)
    requires Inv(k, w) && FromCollector(m, w.collector.id)
    ensures Inv(k, Moved(k, w, m)) && Moved(k, w, m).collector.id == w.collector.id
    ensures Moved(k, w, m).writers.Keys == w.writers.Keys
  {
    match m
    case Own(step) => Kept(k, w, step);
    case AnyReceipt(n, r) =>
      if n in w.writers && Genuine(k, w, r) && Acknowledges(k, w.writers[n], r) {
        assert n in w.writers.Keys;
        assert Witnessed(w.collector.store, r.entryId, r.entryHash);
        KeptByReceipt(k, w, Moved(k, w, m), n, r);
      }
  }

  lemma {:induction false} KeptByMoves(k: Crypto, w: World, moves: seq<Move>)
    requires Inv(k, w) && forall i :: 0 <= i < |moves| ==> FromCollector(moves[i], w.collector.id)
    ensures Inv(k, After(k, w, moves)) && After(k, w, moves).writers.Keys == w.writers.Keys
    decreases |moves|
  {
    if moves != [] {
      KeptByMove(k, w, moves[0]);
      KeptByMoves(k, Moved(k, w, moves[0]), moves[1..]);
    }
  }

  /** Whatever receipts arrive, as long as they name the collector: every receipted entry
      is stored, unless the hash collides. */
  lemma ReceiptedIsStoredIfNamed(k: Crypto, nodes: set<NodeId>, collector: NodeId, moves: seq<Move>, w: World,
                                 n: NodeId, id: nat) returns (e: Entry)
    requires forall i :: 0 <= i < |moves| ==> FromCollector(moves[i], collector)
    requires w == After(k, Init(nodes, collector), moves) && n in nodes && n in w.acked && id in w.acked[n]
    ensures n in w.logs && 1 <= id <= |w.logs[n]| && e in w.collector.store
    ensures e == w.logs[n][id - 1] || Collides(k, e, w.logs[n][id - 1])
  {
    InitOk(k, nodes, collector);
    KeptByMoves(k, Init(nodes, collector), moves);
    e := StoredEntry(k, w, n, id);
  }

  /** A receipt that names any other key under which it verifies clears an entry that
      was never stored. */
  lemma ForeignReceiptClears(k: Crypto, n: NodeId, collector: NodeId, eventType: u16, payload: seq<byte>,
                             now: Milliseconds, r: Receipt)
    requires r.collectorId != collector && ReceiptSigned(k, r)
    requires r.entryId == 1 && r.entryHash == EntryFor(k, NewWriter(n), eventType, payload, now).entryHash
    ensures var moves := [Own(Log(n, eventType, payload, now)), AnyReceipt(n, r)];
            var w := After(k, Init({n}, collector), moves);
            && n in w.logs && n in w.writers && n in w.acked
            && |w.logs[n]| == 1 && w.writers[n].pending == [] && 1 in w.acked[n] && w.collector.store == []
  {
    var moves := [Own(Log(n, eventType, payload, now)), AnyReceipt(n, r)];
    var w0 := Init({n}, collector);
    var e := EntryFor(k, NewWriter(n), eventType, payload, now);
    var w1 := Moved(k, w0, moves[0]);
    assert w1.writers[n].pending == [e] && e.content.entryId == 1;
    assert Position([e], 1) == Some(0);
    assert Acknowledges(k, w1.writers[n], r);
    var w2 := Moved(k, w1, moves[1]);
    assert moves[1..] == [moves[1]] && moves[1..][1..] == [];
    assert After(k, w1, moves[1..]) == After(k, w2, []);
  }
}
