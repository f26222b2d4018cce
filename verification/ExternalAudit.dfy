/** The external audit writer and the collector it reports to. */
module ExternalAudit {
  import opened Prelude

  type NodeId = Bytes32
  type Digest = Bytes32
  type Milliseconds = nat

  /** The fields an entry's hash covers. */
  datatype Content = Content(
    entryId: nat,
    nodeId: NodeId,
    timestamp: Milliseconds,
    prevHash: Digest,
    eventType: u16,
    payload: seq<byte>)

  datatype Entry = Entry(content: Content, entryHash: Digest, signature: Bytes64)

  datatype Receipt = Receipt(
    entryId: nat,
    entryHash: Digest,
    collectorId: NodeId,
    receivedAt: Milliseconds,
    signature: Bytes64,
    chainPosition: nat)

  datatype AuditError = NoCollectors | QueueFull | InvalidReceipt | ChainError | SerializationError

  /** BLAKE3 and Ed25519: each node signs with its own key; a receipt is signed by
      the collector it names. */
  datatype Crypto = Crypto(
    hash: Content -> Digest,
    sign: (NodeId, Digest) -> Bytes64,
    verifyEntry: (NodeId, Digest, Bytes64) -> bool,
    signReceipt: (NodeId, nat, Digest, Milliseconds) -> Bytes64,
    verifyReceipt: (NodeId, nat, Digest, Milliseconds, Bytes64) -> bool)

  function Genesis(): Digest {
    seq(32, _ => 0)
  }

  // ---------------------------------------------------------------------
  // The writer.

  datatype Writer = Writer(nodeId: NodeId, nextEntryId: nat, prevHash: Digest, pending: seq<Entry>)

  function NewWriter(n: NodeId): Writer {
    Writer(n, 1, Genesis(), [])
  }

  function EntryFor(c: Crypto, w: Writer, eventType: u16, payload: seq<byte>, now: Milliseconds): Entry {
    var content := Content(w.nextEntryId, w.nodeId, now, w.prevHash, eventType, payload);
    Entry(content, c.hash(content), c.sign(w.nodeId, c.hash(content)))
  }

  function LoggedWriter(w: Writer, e: Entry): Writer {
    w.(nextEntryId := w.nextEntryId + 1, prevHash := e.entryHash, pending := w.pending + [e])
  }

  /** The first entry with this number. */
  function Position(pending: seq<Entry>, id: nat): (r: Option<nat>)
    ensures r.Some? ==> r.value < |pending| && pending[r.value].content.entryId == id
    ensures r.None? ==> forall i :: 0 <= i < |pending| ==> pending[i].content.entryId != id
  {
    if pending == [] then None
    else if pending[0].content.entryId == id then Some(0)
    else
      var rest := Position(pending[1..], id);
      if rest.Some? then Some(rest.value + 1) else None
  }

  /** The signature is checked under the key of the collector that the receipt names. */
  predicate ReceiptSigned(c: Crypto, r: Receipt) {
    c.verifyReceipt(r.collectorId, r.entryId, r.entryHash, r.receivedAt, r.signature)
  }

  predicate Acknowledges(c: Crypto, w: Writer, r: Receipt) {
    var at := Position(w.pending, r.entryId);
    at.Some? && w.pending[at.value].entryHash == r.entryHash && ReceiptSigned(c, r)
  }

  function ReceiptWriter(c: Crypto, w: Writer, r: Receipt): Writer {
    if Acknowledges(c, w, r) then
      var at := Position(w.pending, r.entryId).value;
      w.(pending := w.pending[..at] + w.pending[at + 1..])
    else w
  }

  function ReceiptResult(c: Crypto, w: Writer, r: Receipt): Result<(), AuditError> {
    if Position(w.pending, r.entryId).Some? && !Acknowledges(c, w, r) then Err(InvalidReceipt) else Ok(())
  }

  class ExternalAuditWriter {
    const crypto: Crypto
    const nodeId: NodeId
    const maxPending: nat
    var nextEntryId: nat
    var prevHash: Digest
    var pending: seq<Entry>
    var collectors: nat

    ghost function View(): Writer
      reads this
    {
      Writer(nodeId, nextEntryId, prevHash, pending)
    }

    constructor (crypto: Crypto, nodeId: NodeId, maxPending: nat)
      ensures this.crypto == crypto && this.maxPending == maxPending && View() == NewWriter(nodeId) && collectors == 0
    {
      this.crypto := crypto;
      this.nodeId := nodeId;
      this.maxPending := maxPending;
      nextEntryId := 1;
      prevHash := Genesis();
      pending := [];
      collectors := 0;
    }

    method Log(eventType: u16, payload: seq<byte>, now: Milliseconds) returns (r: Result<nat, AuditError>)
      modifies this
      ensures collectors == old(collectors)
      ensures if collectors == 0 then r == Err(NoCollectors) && View() == old(View())
              else if |old(pending)| >= maxPending then r == Err(QueueFull) && View() == old(View())
              else
                && r == Ok(old(nextEntryId))
                && View() == LoggedWriter(old(View()), EntryFor(crypto, old(View()), eventType, payload, now))
    {
      if collectors == 0 {
        return Err(NoCollectors);
      }
      if |pending| >= maxPending {
        return Err(QueueFull);
      }
      var id := nextEntryId;
      nextEntryId := nextEntryId + 1;
      var content := Content(id, nodeId, now, prevHash, eventType, payload);
      var hash := crypto.hash(content);
      var entry := Entry(content, hash, crypto.sign(nodeId, hash));
      prevHash := hash;
      pending := pending + [entry];
      return Ok(id);
    }

    method ProcessReceipt(r: Receipt) returns (result: Result<(), AuditError>)
      modifies this
      ensures collectors == old(collectors)
      ensures result == ReceiptResult(crypto, old(View()), r)
      ensures View() == ReceiptWriter(crypto, old(View()), r)
    {
      var at := FindPending(pending, r.entryId);
      if at.None? {
        return Ok(());
      }
      var i := at.value;
      if r.entryHash != pending[i].entryHash {
        return Err(InvalidReceipt);
      }
      if !ReceiptSigned(crypto, r) {
        return Err(InvalidReceipt);
      }
      pending := pending[..i] + pending[i + 1..];
      return Ok(());
    }
  }

  lemma {:induction false} PositionIsFirst(pending: seq<Entry>, id: nat, i: nat)
    requires i < |pending| && pending[i].content.entryId == id
    requires forall j :: 0 <= j < i ==> pending[j].content.entryId != id
    ensures Position(pending, id) == Some(i)
  {
    if i > 0 {
      PositionIsFirst(pending[1..], id, i - 1);
    }
  }

  method FindPending(pending: seq<Entry>, id: nat) returns (r: Option<nat>)
    ensures r == Position(pending, id)
  {
    for i := 0 to |pending|
      invariant forall j :: 0 <= j < i ==> pending[j].content.entryId != id
    {
      if pending[i].content.entryId == id {
        PositionIsFirst(pending, id, i);
        return Some(i);
      }
    }
    return None;
  }

  // ---------------------------------------------------------------------
  // The collector.

  datatype ChainState = ChainState(lastEntryId: nat, lastHash: Digest, entryCount: nat)

  datatype Collector = Collector(id: NodeId, chains: map<NodeId, ChainState>, store: seq<Entry>)

  function ChainOf(c: Collector, n: NodeId): ChainState {
    if n in c.chains then c.chains[n] else ChainState(0, Genesis(), 0)
  }

  /** The signature is checked on the hash the entry states. */
  predicate Signed(k: Crypto, e: Entry) {
    k.verifyEntry(e.content.nodeId, e.entryHash, e.signature)
  }

  /** An entry is accepted if its signature verifies, it links to the node's last
      one, and it has the next number. */
  predicate Accepts(k: Crypto, c: Collector, e: Entry) {
    var chain := ChainOf(c, e.content.nodeId);
    Signed(k, e) && e.content.prevHash == chain.lastHash && e.content.entryId == chain.lastEntryId + 1
  }

  function ReceivedCollector(c: Collector, e: Entry): Collector {
    var chain := ChainOf(c, e.content.nodeId);
    Collector(c.id, c.chains[e.content.nodeId := ChainState(e.content.entryId, e.entryHash, chain.entryCount + 1)],
              c.store + [e])
  }

  function ReceiptFor(k: Crypto, c: Collector, e: Entry, now: Milliseconds): Receipt {
    Receipt(e.content.entryId, e.entryHash, c.id, now, k.signReceipt(c.id, e.content.entryId, e.entryHash, now),
            |c.store|)
  }

  class ExternalAuditCollector {
    const crypto: Crypto
    const id: NodeId
    var chains: map<NodeId, ChainState>
    var store: seq<Entry>

    ghost function View(): Collector
      reads this
    {
      Collector(id, chains, store)
    }

    constructor (crypto: Crypto, id: NodeId)
      ensures this.crypto == crypto && View() == Collector(id, map[], [])
    {
      this.crypto := crypto;
      this.id := id;
      chains := map[];
      store := [];
    }

    /** `failure` is what the store's append reports. An entry that is refused or not
        stored changes nothing a later call can see. */
    method ReceiveEntry(e: Entry, now: Milliseconds, failure: Option<AuditError>)
      returns (r: Result<Receipt, AuditError>)
      modifies this
      ensures r.Ok? <==> Accepts(crypto, old(View()), e) && failure.None?
      ensures r.Ok? ==> r.value == ReceiptFor(crypto, old(View()), e, now)
      ensures r.Ok? ==> View() == ReceivedCollector(old(View()), e)
      ensures r.Err? ==> r.error == if !Signed(crypto, e) then InvalidReceipt
                                    else if !Accepts(crypto, old(View()), e) then ChainError
                                    else failure.value
      ensures r.Err? ==> store == old(store) && forall n :: ChainOf(View(), n) == ChainOf(old(View()), n)
    {
      if !Signed(crypto, e) {
        return Err(InvalidReceipt);
      }
      var node := e.content.nodeId;
      if node !in chains {
        chains := chains[node := ChainState(0, Genesis(), 0)];
      }
      var chain := chains[node];
      if e.content.prevHash != chain.lastHash {
        return Err(ChainError);
      }
      if e.content.entryId != chain.lastEntryId + 1 {
        return Err(ChainError);
      }
      if failure.Some? {
        return Err(failure.value);
      }
      var position := |store|;
      store := store + [e];
      chains := chains[node := ChainState(e.content.entryId, e.entryHash, chain.entryCount + 1)];
      assert chains == old(chains)[node := chains[node]];
      return Ok(Receipt(e.content.entryId, e.entryHash, id, now,
                        crypto.signReceipt(id, e.content.entryId, e.entryHash, now), position));
    }
  }

  /** The collector does not compute an entry's hash again: an entry with another
      timestamp, event type or payload is accepted alike and gets the same receipt. */
  lemma AlteredIsAcceptedAlike(k: Crypto, c: Collector, e: Entry, timestamp: Milliseconds, eventType: u16,
                               payload: seq<byte>, now: Milliseconds)
    ensures var altered := e.(content := e.content.(timestamp := timestamp, eventType := eventType,
                                                    payload := payload));
            && (Accepts(k, c, altered) <==> Accepts(k, c, e))
            && ReceiptFor(k, c, altered, now) == ReceiptFor(k, c, e, now)
  {
  }

  /** What a writer logs: the next number, its own name, the event as given, linked to the
      entry before, with the hash of all that and its signature on the hash. */
  lemma EntrySays(c: Crypto, w: Writer, eventType: u16, payload: seq<byte>, now: Milliseconds)
    ensures var e := EntryFor(c, w, eventType, payload, now);
            && e.content.entryId == w.nextEntryId && e.content.nodeId == w.nodeId && e.content.timestamp == now
            && e.content.prevHash == w.prevHash && e.content.eventType == eventType && e.content.payload == payload
            && e.entryHash == c.hash(e.content) && e.signature == c.sign(w.nodeId, e.entryHash)
            && LoggedWriter(w, e) == Writer(w.nodeId, w.nextEntryId + 1, c.hash(e.content), w.pending + [e])
  {
  }

  /** What a receipt says: number and hash of the entry, who received it, when and where it
      is stored, signed by the collector. */
  lemma ReceiptSays(k: Crypto, c: Collector, e: Entry, now: Milliseconds)
    ensures var r := ReceiptFor(k, c, e, now);
            && r.entryId == e.content.entryId && r.entryHash == e.entryHash && r.collectorId == c.id
            && r.receivedAt == now && r.chainPosition == |c.store|
            && r.signature == k.signReceipt(c.id, e.content.entryId, e.entryHash, now)
  {
  }

  /** An entry is accepted exactly when its node's signature on its hash verifies and it is
      the node's first, linked to zeros, or numbered and linked after the node's last. */
  lemma AcceptsIff(k: Crypto, c: Collector, e: Entry)
    ensures Accepts(k, c, e) <==>
            && k.verifyEntry(e.content.nodeId, e.entryHash, e.signature)
            && if e.content.nodeId in c.chains
               then
                 && e.content.prevHash == c.chains[e.content.nodeId].lastHash
                 && e.content.entryId == c.chains[e.content.nodeId].lastEntryId + 1
               else e.content.prevHash == seq(32, _ => 0) && e.content.entryId == 1
  {
  }

  /** A receipt acknowledges exactly if the first pending entry of its number has its hash,
      and it verifies under the key it names; then that one entry is dropped. */
  lemma ReceiptExact(c: Crypto, w: Writer, r: Receipt, i: nat)
    requires i < |w.pending| && w.pending[i].content.entryId == r.entryId
    requires forall j :: 0 <= j < i ==> w.pending[j].content.entryId != r.entryId
    ensures Acknowledges(c, w, r) <==>
            && w.pending[i].entryHash == r.entryHash
            && c.verifyReceipt(r.collectorId, r.entryId, r.entryHash, r.receivedAt, r.signature)
    ensures ReceiptWriter(c, w, r)
         == if Acknowledges(c, w, r) then w.(pending := w.pending[..i] + w.pending[i + 1..]) else w
    ensures ReceiptResult(c, w, r) == if Acknowledges(c, w, r) then Ok(()) else Err(InvalidReceipt)
  {
    PositionIsFirst(w.pending, r.entryId, i);
  }

  lemma UnknownReceipt(c: Crypto, w: Writer, r: Receipt)
    requires forall j :: 0 <= j < |w.pending| ==> w.pending[j].content.entryId != r.entryId
    ensures ReceiptWriter(c, w, r) == w && ReceiptResult(c, w, r) == Ok(())
  {
  }
}
