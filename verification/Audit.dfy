/** The hash-chained audit log: its writer, its verifier, and what a verified
    chain says. The hash of an entry's fields is a parameter of which nothing is
    assumed; where a law needs collision resistance, a collision is exhibited. */
module Audit {
  import opened Prelude
  import opened Screening
  import opened Approval
  import Hex

  type Digest = Bytes32

  function Genesis(): Digest {
    seq(32, _ => 0)
  }

  datatype AuditParam = AuditParam(key: string, value: string, redacted: bool)

  datatype AuditDecision = AuditDecision(allowed: bool, reason: string)

  datatype AuditOutcome = Success(detail: Option<string>) | Failure(error: string)

  /** The fields an entry's hash covers. */
  datatype Content = Content(
    sequence: nat,
    timestamp: nat,
    caller: string,
    capability: string,
    tier: string,
    parameters: seq<AuditParam>,
    decision: AuditDecision,
    outcome: Option<AuditOutcome>,
    duration: nat,
    intentId: Option<string>,
    prevHash: string)

  datatype Entry = Entry(content: Content, entryHash: string)

  /** A line of the log file: an entry, or something that does not parse as one. */
  datatype Line = Unreadable | Parsed(entry: Entry)

  type Hasher = Content -> Digest

  datatype ChainBreak =
    | CorruptEntry(index: nat)
    | ContentTampered(index: nat)
    | ChainLinkBroken(index: nat, expectedPrev: string, foundPrev: string)
    | SequenceGap(index: nat, expected: nat, found: nat)

  datatype ChainState = ChainState(entries: nat, lastHash: Digest)

  function DecodeHash(s: string): Option<Digest> {
    var b := Hex.Decode(s);
    if b.Some? && |b.value| == 32 then Some(b.value) else None
  }

  // ---------------------------------------------------------------------
  // Verification.

  /** What is wrong with `line` as entry number `n` after hash `prev`, if anything. */
  function Fault(hash: Hasher, line: Line, prev: Digest, n: nat): Option<ChainBreak> {
    if line.Unreadable? then Some(CorruptEntry(n))
    else
      var e := line.entry;
      var recorded := DecodeHash(e.entryHash);
      if recorded.None? then Some(CorruptEntry(n))
      else if hash(e.content) != recorded.value then Some(ContentTampered(n))
      else
        var found := DecodeHash(e.content.prevHash);
        if found.None? then Some(CorruptEntry(n))
        else if found.value != prev then Some(ChainLinkBroken(n, Hex.Encode(prev), e.content.prevHash))
        else if e.content.sequence != n then Some(SequenceGap(n, n, e.content.sequence))
        else None
  }

  function HashOf(hash: Hasher, line: Line): Digest {
    if line.Parsed? then hash(line.entry.content) else Genesis()
  }

  /** The hash that line `i` of `file` has to link to. */
  function PrevOf(hash: Hasher, file: seq<Line>, i: nat): Digest
    requires i <= |file|
  {
    if i == 0 then Genesis() else HashOf(hash, file[i - 1])
  }

  predicate GoodAt(hash: Hasher, file: seq<Line>, i: nat): (good: bool)
    requires i < |file|
    ensures good ==> file[i].Parsed?
  {
    Fault(hash, file[i], PrevOf(hash, file, i), i).None?
  }

  /** Every entry matches its own hash, links to the one before, and is numbered by its place. */
  predicate Chained(hash: Hasher, file: seq<Line>) {
    && (forall i :: 0 <= i < |file| ==> file[i].Parsed?)
    && (forall i :: 0 <= i < |file| ==> GoodAt(hash, file, i))
  }

  function StateOf(hash: Hasher, file: seq<Line>): ChainState {
    ChainState(|file|, PrevOf(hash, file, |file|))
  }

  /** The first fault from line `n` on. */
  function VerifyFrom(hash: Hasher, file: seq<Line>, n: nat): Result<ChainState, ChainBreak>
    requires n <= |file|
    decreases |file| - n
  {
    if n == |file| then Ok(StateOf(hash, file))
    else
      var fault := Fault(hash, file[n], PrevOf(hash, file, n), n);
      if fault.Some? then Err(fault.value) else VerifyFrom(hash, file, n + 1)
  }

  function Verify(hash: Hasher, file: seq<Line>): Result<ChainState, ChainBreak> {
    VerifyFrom(hash, file, 0)
  }

  method VerifyChain(hash: Hasher, file: seq<Line>) returns (r: Result<ChainState, ChainBreak>)
    ensures r == Verify(hash, file)
  {
    var expectedPrev := Genesis();
    var expectedSequence := 0;
    for i := 0 to |file|
      invariant expectedSequence == i
      invariant expectedPrev == PrevOf(hash, file, i)
      invariant Verify(hash, file) == VerifyFrom(hash, file, i)
    {
      if file[i].Unreadable? {
        return Err(CorruptEntry(expectedSequence));
      }
      var entry := file[i].entry;
      var recorded := DecodeHash(entry.entryHash);
      if recorded.None? {
        return Err(CorruptEntry(expectedSequence));
      }
      if hash(entry.content) != recorded.value {
        return Err(ContentTampered(expectedSequence));
      }
      var found := DecodeHash(entry.content.prevHash);
      if found.None? {
        return Err(CorruptEntry(expectedSequence));
      }
      if found.value != expectedPrev {
        return Err(ChainLinkBroken(expectedSequence, Hex.Encode(expectedPrev), entry.content.prevHash));
      }
      if entry.content.sequence != expectedSequence {
        return Err(SequenceGap(expectedSequence, expectedSequence, entry.content.sequence));
      }
      expectedPrev := recorded.value;
      expectedSequence := expectedSequence + 1;
    }
    return Ok(ChainState(expectedSequence, expectedPrev));
  }

  lemma {:induction false} VerifyFromExact(hash: Hasher, file: seq<Line>, n: nat, i: nat)
    requires n <= i <= |file|
    requires forall j :: n <= j < i ==> GoodAt(hash, file, j)
    ensures VerifyFrom(hash, file, n) == VerifyFrom(hash, file, i)
    decreases i - n
  {
    if n < i {
      assert GoodAt(hash, file, n);
      VerifyFromExact(hash, file, n + 1, i);
    }
  }

  /** The verifier accepts exactly the chained files and then reports their
      length and last hash. */
  lemma VerifyIffChained(hash: Hasher, file: seq<Line>)
    ensures Verify(hash, file).Ok? <==> Chained(hash, file)
    ensures Chained(hash, file) ==> Verify(hash, file) == Ok(StateOf(hash, file))
  {
    if Chained(hash, file) {
      VerifyFromExact(hash, file, 0, |file|);
    } else {
      ChainedIfGood(hash, file);
      var i := FirstFault(hash, file, 0);
      VerifyFromExact(hash, file, 0, i);
    }
  }

  lemma ChainedIfGood(hash: Hasher, file: seq<Line>)
    ensures (forall i :: 0 <= i < |file| ==> GoodAt(hash, file, i)) ==> Chained(hash, file)
  {
    if forall i :: 0 <= i < |file| ==> GoodAt(hash, file, i) {
      forall i | 0 <= i < |file| ensures file[i].Parsed? {
        assert GoodAt(hash, file, i);
      }
    }
  }

  lemma {:induction false} FirstFault(hash: Hasher, file: seq<Line>, n: nat) returns (i: nat)
    requires n <= |file|
    requires forall j :: 0 <= j < n ==> GoodAt(hash, file, j)
    requires exists j :: n <= j < |file| && !GoodAt(hash, file, j)
    ensures i < |file| && !GoodAt(hash, file, i)
    ensures forall j :: 0 <= j < i ==> GoodAt(hash, file, j)
    decreases |file| - n
  {
    if !GoodAt(hash, file, n) {
      i := n;
    } else {
      i := FirstFault(hash, file, n + 1);
    }
  }

  lemma GoodAtPrefix(hash: Hasher, file: seq<Line>, n: nat, j: nat)
    requires j < n <= |file|
    ensures GoodAt(hash, file[..n], j) == GoodAt(hash, file, j)
  {
    assert file[..n][j] == file[j] && PrevOf(hash, file[..n], j) == PrevOf(hash, file, j);
  }

  lemma ChainedAppend(hash: Hasher, file: seq<Line>, line: Line)
    requires Chained(hash, file) && Fault(hash, line, StateOf(hash, file).lastHash, |file|).None?
    ensures Chained(hash, file + [line])
  {
    var g := file + [line];
    assert g[..|file|] == file;
    forall j | 0 <= j < |g| ensures GoodAt(hash, g, j) {
      if j < |file| {
        GoodAtPrefix(hash, g, |file|, j);
      } else {
        assert PrevOf(hash, g, j) == StateOf(hash, file).lastHash;
      }
    }
  }

  /** A rejected file is rejected for its first fault. */
  lemma RejectedAtFirstFault(hash: Hasher, file: seq<Line>, i: nat)
    requires i < |file| && Chained(hash, file[..i])
    requires !GoodAt(hash, file, i)
    ensures Verify(hash, file) == Err(Fault(hash, file[i], PrevOf(hash, file, i), i).value)
  {
    forall j | 0 <= j < i ensures GoodAt(hash, file, j) {
      assert GoodAt(hash, file[..i], j);
      GoodAtPrefix(hash, file, i, j);
    }
    VerifyFromExact(hash, file, 0, i);
  }

  /** Cutting entries off the end of a verified log cannot be noticed. */
  lemma TruncationVerifies(hash: Hasher, file: seq<Line>, n: nat)
    requires Chained(hash, file) && n <= |file|
    ensures Chained(hash, file[..n])
    ensures StateOf(hash, file[..n]) == ChainState(n, PrevOf(hash, file, n))
    ensures Verify(hash, file[..n]) == Ok(StateOf(hash, file[..n]))
  {
    forall j | 0 <= j < n ensures GoodAt(hash, file[..n], j) {
      GoodAtPrefix(hash, file, n, j);
    }
    VerifyIffChained(hash, file[..n]);
  }

  // ---------------------------------------------------------------------
  // Tampering.

  /** Editing an entry but not its hash is reported there, exactly when the edit changes the hash. */
  lemma EditIsReported(hash: Hasher, file: seq<Line>, i: nat, edited: Content)
    requires Chained(hash, file) && i < |file|
    ensures Verify(hash, file[i := Parsed(Entry(edited, file[i].entry.entryHash))]) == Err(ContentTampered(i))
       <==> hash(edited) != hash(file[i].entry.content)
  {
    var e := Entry(edited, file[i].entry.entryHash);
    var g := file[i := Parsed(e)];
    assert GoodAt(hash, file, i);
    TruncationVerifies(hash, file, i);
    assert g[..i] == file[..i] && PrevOf(hash, g, i) == PrevOf(hash, file, i);
    if hash(edited) != hash(file[i].entry.content) {
      RejectedAtFirstFault(hash, g, i);
    } else {
      NotTamperedAt(hash, g, i);
    }
  }

  lemma NotTamperedAt(hash: Hasher, file: seq<Line>, i: nat)
    requires i < |file| && Fault(hash, file[i], PrevOf(hash, file, i), i) != Some(ContentTampered(i))
    ensures Verify(hash, file) != Err(ContentTampered(i))
  {
    NotReportedFrom(hash, file, 0, i);
  }

  lemma {:induction false} NotReportedFrom(hash: Hasher, file: seq<Line>, n: nat, i: nat)
    requires n <= |file| && i < |file| && Fault(hash, file[i], PrevOf(hash, file, i), i) != Some(ContentTampered(i))
    ensures VerifyFrom(hash, file, n) != Err(ContentTampered(i))
    decreases |file| - n
  {
    if n < |file| && GoodAt(hash, file, n) {
      NotReportedFrom(hash, file, n + 1, i);
    }
  }

  /** An entry carrying its own hash and its predecessor's fits after it. */
  lemma FreshEntryFits(hash: Hasher, c: Content, prev: Digest)
    requires DecodeHash(c.prevHash) == Some(prev)
    ensures Fault(hash, Parsed(Entry(c, Hex.Encode(hash(c)))), prev, c.sequence).None?
  {
  }

  /** Editing an entry and rehashing it is reported at the next entry, unless the hash is unchanged. */
  lemma RehashedEditIsReported(hash: Hasher, file: seq<Line>, i: nat, edited: Content)
    requires Chained(hash, file) && i + 1 < |file|
    requires edited.sequence == i && DecodeHash(edited.prevHash) == Some(PrevOf(hash, file, i))
    requires hash(edited) != hash(file[i].entry.content)
    ensures Verify(hash, file[i := Parsed(Entry(edited, Hex.Encode(hash(edited))))])
         == Err(ChainLinkBroken(i + 1, Hex.Encode(hash(edited)), file[i + 1].entry.content.prevHash))
  {
    var g := file[i := Parsed(Entry(edited, Hex.Encode(hash(edited))))];
    TruncationVerifies(hash, file, i);
    FreshEntryFits(hash, edited, PrevOf(hash, file, i));
    ChainedAppend(hash, file[..i], g[i]);
    assert GoodAt(hash, file, i + 1) && PrevOf(hash, g, i + 1) == hash(edited);
    assert g[..i + 1] == file[..i] + [g[i]];
    RejectedAtFirstFault(hash, g, i + 1);
  }

  /** Deleting an entry that is not the last is always noticed where it was: as a
      broken link, or, if the hashes of the entry and of its predecessor agree,
      as a gap in the numbering. */
  lemma DeletionIsReported(hash: Hasher, file: seq<Line>, i: nat)
    requires Chained(hash, file) && i + 1 < |file|
    ensures var removed := hash(file[i].entry.content);
            Verify(hash, file[..i] + file[i + 1..]) ==
            Err(if removed != PrevOf(hash, file, i)
                then ChainLinkBroken(i, Hex.Encode(PrevOf(hash, file, i)), file[i + 1].entry.content.prevHash)
                else SequenceGap(i, i, i + 1))
  {
    var g := file[..i] + file[i + 1..];
    assert GoodAt(hash, file, i);
    assert GoodAt(hash, file, i + 1);
    TruncationVerifies(hash, file, i);
    assert g[..i] == file[..i] && g[i] == file[i + 1] && PrevOf(hash, g, i) == PrevOf(hash, file, i);
    RejectedAtFirstFault(hash, g, i);
  }

  // ---------------------------------------------------------------------
  // What the last hash binds.

  predicate SameContents(f: seq<Line>, g: seq<Line>) {
    |f| == |g| && forall i :: 0 <= i < |f| ==> f[i].Parsed? && g[i].Parsed? && f[i].entry.content == g[i].entry.content
  }

  predicate Collision(hash: Hasher, a: Content, b: Content) {
    a != b && hash(a) == hash(b)
  }

  /** How two logs with one last hash can differ: entry `i` of the one and `j` of
      the other have different contents and one hash, or an entry of one of them
      hashes to the genesis value. */
  datatype Difference = Nowhere | Colliding(i: nat, j: nat) | GenesisInFirst(i: nat) | GenesisInSecond(j: nat)

  predicate Explains(hash: Hasher, f: seq<Line>, g: seq<Line>, d: Difference) {
    match d
    case Nowhere => SameContents(f, g)
    case Colliding(i, j) =>
      i < |f| && j < |g| && f[i].Parsed? && g[j].Parsed? && Collision(hash, f[i].entry.content, g[j].entry.content)
    case GenesisInFirst(i) => i < |f| && f[i].Parsed? && hash(f[i].entry.content) == Genesis()
    case GenesisInSecond(j) => j < |g| && g[j].Parsed? && hash(g[j].entry.content) == Genesis()
  }

  /** Two verified logs with the same last hash hold the same entries, unless the
      hash collided on their own entries or hit the genesis value. */
  lemma {:induction false} LastHashBinds(hash: Hasher, f: seq<Line>, g: seq<Line>) returns (d: Difference)
    requires Chained(hash, f) && Chained(hash, g)
    requires StateOf(hash, f).lastHash == StateOf(hash, g).lastHash
    ensures Explains(hash, f, g, d)
    decreases |f|
  {
    if f == [] && g == [] {
      d := Nowhere;
    } else if f == [] {
      d := GenesisInSecond(|g| - 1);
    } else if g == [] {
      d := GenesisInFirst(|f| - 1);
    } else {
      var m, n := |f| - 1, |g| - 1;
      if f[m].entry.content != g[n].entry.content {
        d := Colliding(m, n);
      } else {
        Predecessors(hash, f, g);
        d := LastHashBinds(hash, f[..m], g[..n]);
        if d == Nowhere {
          SameAppend(f, g);
        }
      }
    }
  }

  lemma Predecessors(hash: Hasher, f: seq<Line>, g: seq<Line>)
    requires Chained(hash, f) && Chained(hash, g) && f != [] && g != []
    requires f[|f| - 1].Parsed? && g[|g| - 1].Parsed?
    requires f[|f| - 1].entry.content.prevHash == g[|g| - 1].entry.content.prevHash
    ensures Chained(hash, f[..|f| - 1]) && Chained(hash, g[..|g| - 1])
    ensures StateOf(hash, f[..|f| - 1]).lastHash == StateOf(hash, g[..|g| - 1]).lastHash
  {
    assert GoodAt(hash, f, |f| - 1) && GoodAt(hash, g, |g| - 1);
    TruncationVerifies(hash, f, |f| - 1);
    TruncationVerifies(hash, g, |g| - 1);
  }

  lemma SameAppend(f: seq<Line>, g: seq<Line>)
    requires f != [] && g != [] && SameContents(f[..|f| - 1], g[..|g| - 1])
    requires f[|f| - 1].Parsed? && g[|g| - 1].Parsed? && f[|f| - 1].entry.content == g[|g| - 1].entry.content
    ensures SameContents(f, g)
  {
    forall i | 0 <= i < |f| - 1 ensures f[i].Parsed? && g[i].Parsed? && f[i].entry.content == g[i].entry.content {
      assert f[..|f| - 1][i] == f[i] && g[..|g| - 1][i] == g[i];
    }
  }

  /** The line is an entry that states the hash of its own content and of the content
      before it, from 32 zeros on, and its own place. */
  predicate LinkedAt(hash: Hasher, file: seq<Line>, i: nat)
    requires i < |file|
  {
    && file[i].Parsed? && (i > 0 ==> file[i - 1].Parsed?)
    && DecodeHash(file[i].entry.entryHash) == Some(hash(file[i].entry.content))
    && DecodeHash(file[i].entry.content.prevHash)
         == Some(if i == 0 then seq(32, _ => 0) else hash(file[i - 1].entry.content))
    && file[i].entry.content.sequence == i
  }

  lemma GoodIsLinked(hash: Hasher, file: seq<Line>, i: nat)
    requires i < |file| && (i > 0 ==> file[i - 1].Parsed?)
    ensures GoodAt(hash, file, i) <==> LinkedAt(hash, file, i)
  {
  }

  /** What a verified chain is, in terms of its entries and their hashes. */
  lemma ChainedMeans(hash: Hasher, file: seq<Line>)
    ensures Chained(hash, file) <==> forall i :: 0 <= i < |file| ==> LinkedAt(hash, file, i)
  {
    if Chained(hash, file) {
      forall i | 0 <= i < |file| ensures LinkedAt(hash, file, i) {
        GoodIsLinked(hash, file, i);
      }
    }
    if forall i :: 0 <= i < |file| ==> LinkedAt(hash, file, i) {
      forall i | 0 <= i < |file| ensures file[i].Parsed? && GoodAt(hash, file, i) {
        assert LinkedAt(hash, file, i);
        GoodIsLinked(hash, file, i);
      }
    }
  }

  // ---------------------------------------------------------------------
  // Redaction.

  const MARKERS: seq<string> :=
    ["password", "passwd", "secret", "token", "credential", "cred", "api_key", "apikey",
     "private_key", "privatekey", "access_key", "auth", "pin", "ssn"]

  function AsciiLower(s: string): string {
    if s == [] then []
    else [if 'A' <= s[0] <= 'Z' then (s[0] as int + 32) as char else s[0]] + AsciiLower(s[1..])
  }

  predicate SensitiveKey(key: string) {
    exists m :: m in MARKERS && Contains(AsciiLower(key), m)
  }

  /** `m`, in lower or upper case letter by letter, stands in `key` at `k`. */
  predicate MarkedAt(key: string, k: nat, m: string) {
    k + |m| <= |key| &&
    forall i :: 0 <= i < |m| ==>
      key[k + i] == m[i] || ('A' <= key[k + i] <= 'Z' && key[k + i] as int + 32 == m[i] as int)
  }

  /** What makes a key sensitive, said of the key as it was written. */
  predicate Marked(key: string) {
    exists m, k :: m in {"password", "passwd", "secret", "token", "credential", "cred", "api_key", "apikey",
                         "private_key", "privatekey", "access_key", "auth", "pin", "ssn"}
                   && 0 <= k <= |key| && MarkedAt(key, k, m)
  }

  lemma {:induction false} LowerAt(s: string)
    ensures |AsciiLower(s)| == |s|
    ensures forall i :: 0 <= i < |s| ==>
              AsciiLower(s)[i] == if 'A' <= s[i] <= 'Z' then (s[i] as int + 32) as char else s[i]
  {
    if s != [] {
      LowerAt(s[1..]);
    }
  }

  /** No marker has a capital, so a marker stands in the lower-cased key exactly where it
      stands in the key in any case. */
  lemma StandsIff(key: string, k: nat, m: string)
    requires forall i :: 0 <= i < |m| ==> !('A' <= m[i] <= 'Z')
    ensures StartsAt(AsciiLower(key), k, m) <==> MarkedAt(key, k, m)
  {
    LowerAt(key);
    var lower := AsciiLower(key);
    if k + |m| <= |key| {
      if MarkedAt(key, k, m) {
        assert lower[k..k + |m|] == m;
      }
      if StartsAt(lower, k, m) {
        forall i | 0 <= i < |m|
          ensures key[k + i] == m[i] || ('A' <= key[k + i] <= 'Z' && key[k + i] as int + 32 == m[i] as int)
        {
          assert lower[k..k + |m|][i] == m[i];
        }
      }
    }
  }

  lemma MarkersAreSmall(m: string)
    ensures m in MARKERS <==> m in {"password", "passwd", "secret", "token", "credential", "cred", "api_key", "apikey",
                                    "private_key", "privatekey", "access_key", "auth", "pin", "ssn"}
    ensures m in MARKERS ==> forall i :: 0 <= i < |m| ==> !('A' <= m[i] <= 'Z')
  {
  }

  /** A key is sensitive exactly when one of the fourteen markers stands in it in any case. */
  lemma SensitiveIff(key: string)
    ensures SensitiveKey(key) <==> Marked(key)
  {
    LowerAt(key);
    if SensitiveKey(key) {
      var m :| m in MARKERS && Contains(AsciiLower(key), m);
      var k :| 0 <= k <= |AsciiLower(key)| && StartsAt(AsciiLower(key), k, m);
      MarkersAreSmall(m);
      StandsIff(key, k, m);
    }
    if Marked(key) {
      var m, k :| m in {"password", "passwd", "secret", "token", "credential", "cred", "api_key", "apikey",
                        "private_key", "privatekey", "access_key", "auth", "pin", "ssn"}
                  && 0 <= k <= |key| && MarkedAt(key, k, m);
      MarkersAreSmall(m);
      StandsIff(key, k, m);
      assert Contains(AsciiLower(key), m);
    }
  }

  function ParamOf(format: ConstraintValue -> string, c: Constraint): AuditParam {
    if SensitiveKey(c.key) then AuditParam(c.key, "[REDACTED]", true)
    else AuditParam(c.key, format(c.value), false)
  }

  function ParamsOf(format: ConstraintValue -> string, ps: seq<Constraint>): (r: seq<AuditParam>)
    ensures |r| == |ps|
    ensures forall i :: 0 <= i < |ps| ==> r[i] == ParamOf(format, ps[i])
  {
    if ps == [] then [] else [ParamOf(format, ps[0])] + ParamsOf(format, ps[1..])
  }

  // ---------------------------------------------------------------------
  // The writer.

  /** What a caller hands to the log; the rest of an entry comes from the chain. */
  datatype Event = Event(
    timestamp: nat,
    caller: string,
    capability: string,
    tier: string,
    parameters: seq<Constraint>,
    decision: AuditDecision,
    outcome: Option<AuditOutcome>,
    duration: nat,
    intentId: Option<string>)

  function LineFor(hash: Hasher, format: ConstraintValue -> string, e: Event, s: ChainState): Line {
    var c := Content(s.entries, e.timestamp, e.caller, e.capability, e.tier, ParamsOf(format, e.parameters),
                     e.decision, e.outcome, e.duration, e.intentId, Hex.Encode(s.lastHash));
    Parsed(Entry(c, Hex.Encode(hash(c))))
  }

  function LinesFor(hash: Hasher, format: ConstraintValue -> string, file: seq<Line>, events: seq<Event>): seq<Line>
    decreases |events|
  {
    if events == [] then file
    else LinesFor(hash, format, file + [LineFor(hash, format, events[0], StateOf(hash, file))], events[1..])
  }

  /** The line says of a parameter its key, and its value unless the key is a secret's. */
  predicate TellsParameter(format: ConstraintValue -> string, p: AuditParam, c: Constraint) {
    p.key == c.key && p.redacted == Marked(c.key) && p.value == if Marked(c.key) then "[REDACTED]" else format(c.value)
  }

  /** The line is an entry that says what the event says, field by field. */
  predicate Tells(format: ConstraintValue -> string, line: Line, e: Event) {
    line.Parsed? &&
    var c := line.entry.content;
    && c.timestamp == e.timestamp && c.caller == e.caller && c.capability == e.capability && c.tier == e.tier
    && c.decision.allowed == e.decision.allowed && c.decision.reason == e.decision.reason
    && c.outcome == e.outcome && c.duration == e.duration && c.intentId == e.intentId
    && |c.parameters| == |e.parameters|
    && forall i :: 0 <= i < |e.parameters| ==> TellsParameter(format, c.parameters[i], e.parameters[i])
  }

  lemma LineTells(hash: Hasher, format: ConstraintValue -> string, e: Event, s: ChainState)
    ensures Tells(format, LineFor(hash, format, e, s), e)
  {
    forall i | 0 <= i < |e.parameters| {
      SensitiveIff(e.parameters[i].key);
    }
  }

  /** `lines` is `file` and then one line for each event, in order, that says what it says. */
  predicate AllTell(format: ConstraintValue -> string, file: seq<Line>, events: seq<Event>, lines: seq<Line>) {
    && |lines| == |file| + |events| && file <= lines
    && forall i :: 0 <= i < |events| ==> Tells(format, lines[|file| + i], events[i])
  }

  lemma AllTellCons(format: ConstraintValue -> string, file: seq<Line>, line: Line, events: seq<Event>,
                    lines: seq<Line>)
    requires events != [] && Tells(format, line, events[0]) && AllTell(format, file + [line], events[1..], lines)
    ensures AllTell(format, file, events, lines)
  {
    assert lines[|file|] == (file + [line])[|file|];
    forall i | 0 <= i < |events| ensures Tells(format, lines[|file| + i], events[i]) {
      if i > 0 {
        assert Tells(format, lines[|file + [line]| + (i - 1)], events[1..][i - 1]);
      }
    }
  }

  /** The i-th line recorded says what the i-th event says. */
  lemma {:induction false} LinesTell(hash: Hasher, format: ConstraintValue -> string, file: seq<Line>,
                                     events: seq<Event>)
    ensures AllTell(format, file, events, LinesFor(hash, format, file, events))
    decreases |events|
  {
    if events != [] {
      var line := LineFor(hash, format, events[0], StateOf(hash, file));
      LineTells(hash, format, events[0], StateOf(hash, file));
      LinesTell(hash, format, file + [line], events[1..]);
      AllTellCons(format, file, line, events, LinesFor(hash, format, file, events));
    }
  }

  /** The file on disk: its lines, and whether the last of them is ended by a newline.
      Reading does not ask for that newline. */
  datatype Disk = Disk(lines: seq<Line>, ended: bool)

  /** Text added to the file, with or without a newline after it. Added to a line that
      was not ended it joins that line, which then reads as no entry. */
  function Put(d: Disk, line: Line, ended: bool): Disk {
    if d.ended || d.lines == [] then Disk(d.lines + [line], ended)
    else Disk(d.lines[..|d.lines| - 1] + [Unreadable], ended)
  }

  /** How an append ended: the line is on disk and synced; nothing, or only part of
      it, was written; all of it but the newline; or the newline too, and the sync
      then failed. */
  datatype Append = Synced | NothingWritten | PartWritten | NoNewline | Unsynced

  function FileAfter(hash: Hasher, format: ConstraintValue -> string, d: Disk, s: ChainState, e: Event,
                     io: Append): Disk
  {
    match io
    case NothingWritten => d
    case PartWritten => Put(d, Unreadable, false)
    case NoNewline => Put(d, LineFor(hash, format, e, s), false)
    case _ => Put(d, LineFor(hash, format, e, s), true)
  }

  /** The writer only moves on after a synced append. */
  function StateAfter(hash: Hasher, format: ConstraintValue -> string, s: ChainState, e: Event,
                      io: Append): ChainState {
    if io.Synced? then ChainState(s.entries + 1, hash(LineFor(hash, format, e, s).entry.content)) else s
  }

  datatype LogError = Io | NotTerminal

  /** An open log: the file on disk, and the writer's idea of its end. */
  class AuditLog {
    const hash: Hasher
    const format: ConstraintValue -> string
    var file: Disk
    var lastHash: Digest
    var nextSequence: nat

    ghost function Memory(): ChainState
      reads this
    {
      ChainState(nextSequence, lastHash)
    }

    /** The file verifies and the writer knows its end. */
    ghost predicate InStep()
      reads this
    {
      Chained(hash, file.lines) && StateOf(hash, file.lines) == Memory()
    }

    constructor (hash: Hasher, format: ConstraintValue -> string, file: Disk, state: ChainState)
      requires Verify(hash, file.lines) == Ok(state)
      ensures InStep() && this.hash == hash && this.format == format && this.file == file
    {
      this.hash := hash;
      this.format := format;
      this.file := file;
      this.lastHash := state.lastHash;
      this.nextSequence := state.entries;
      new;
      VerifyIffChained(hash, file.lines);
    }

    /** Appends one entry; on a file that ends in a newline a synced append keeps a
        writer in step. */
    method Record(e: Event, io: Append) returns (r: Result<(), LogError>)
      modifies this
      ensures file == FileAfter(hash, format, old(file), old(Memory()), e, io)
      ensures Memory() == StateAfter(hash, format, old(Memory()), e, io)
      ensures r == if io.Synced? then Ok(()) else Err(Io)
      ensures old(InStep() && file.ended) && io.Synced? ==> InStep() && file.ended
    {
      var c := Content(nextSequence, e.timestamp, e.caller, e.capability, e.tier, ParamsOf(format, e.parameters),
                       e.decision, e.outcome, e.duration, e.intentId, Hex.Encode(lastHash));
      var h := hash(c);
      var line := Parsed(Entry(c, Hex.Encode(h)));
      AppendFits(hash, format, file.lines, Memory(), e);
      if io.NothingWritten? {
        return Err(Io);
      }
      if io.PartWritten? {
        file := Put(file, Unreadable, false);
        return Err(Io);
      }
      if io.NoNewline? {
        file := Put(file, line, false);
        return Err(Io);
      }
      file := Put(file, line, true);
      if io.Unsynced? {
        return Err(Io);
      }
      lastHash := h;
      nextSequence := nextSequence + 1;
      return Ok(());
    }

    /** Tier 2: one entry for a finished intent, none for an unfinished one. */
    method LogTier2LinkedRecord(record: LinkedRecord, timestamp: nat, now: Instant, io: Append)
      returns (r: Result<(), LogError>)
      modifies this
      ensures match Tier2Event(record, timestamp, now)
              case Err(e) => r == Err(e) && file == old(file) && Memory() == old(Memory())
              case Ok(e) =>
                && file == FileAfter(hash, format, old(file), old(Memory()), e, io)
                && Memory() == StateAfter(hash, format, old(Memory()), e, io)
                && r == if io.Synced? then Ok(()) else Err(Io)
    {
      var e := Tier2Event(record, timestamp, now);
      if e.Err? {
        return Err(e.error);
      }
      r := Record(e.value, io);
    }
  }

  /** A line continues a verified file exactly when it was made for that file's end. */
  lemma AppendFits(hash: Hasher, format: ConstraintValue -> string, file: seq<Line>, s: ChainState, e: Event)
    ensures Chained(hash, file) ==>
              (Chained(hash, file + [LineFor(hash, format, e, s)]) <==> s == StateOf(hash, file))
    ensures Chained(hash, file) && s == StateOf(hash, file) ==>
              StateOf(hash, file + [LineFor(hash, format, e, s)]) == StateAfter(hash, format, s, e, Synced)
  {
    if Chained(hash, file) {
      var line := LineFor(hash, format, e, s);
      var g := file + [line];
      assert g[|file|] == line && PrevOf(hash, g, |file|) == StateOf(hash, file).lastHash;
      assert Chained(hash, g) ==> GoodAt(hash, g, |file|);
      if s == StateOf(hash, file) {
        FreshEntryFits(hash, line.entry.content, s.lastHash);
        ChainedAppend(hash, file, line);
      }
    }
  }

  /** Opening verifies what is on disk and resumes after it; a broken log is refused. */
  method Open(hash: Hasher, format: ConstraintValue -> string, disk: Disk)
    returns (r: Result<AuditLog, ChainBreak>)
    ensures r.Ok? <==> Chained(hash, disk.lines)
    ensures r.Ok? ==> fresh(r.value) && r.value.InStep() && r.value.file == disk
    ensures r.Ok? ==> r.value.hash == hash && r.value.format == format
    ensures r.Err? ==> Verify(hash, disk.lines) == Err(r.error)
  {
    VerifyIffChained(hash, disk.lines);
    var state := VerifyChain(hash, disk.lines);
    if state.Err? {
      return Err(state.error);
    }
    var log := new AuditLog(hash, format, disk, state.value);
    return Ok(log);
  }

  /** Whatever is recorded in step, the file verifies and extends what was there. */
  lemma {:induction false} RecordedVerifies(hash: Hasher, format: ConstraintValue -> string, file: seq<Line>,
                                            events: seq<Event>)
    requires Chained(hash, file)
    ensures var g := LinesFor(hash, format, file, events);
            Verify(hash, g) == Ok(StateOf(hash, g)) && |g| == |file| + |events| && file <= g
    decreases |events|
  {
    if events == [] {
      VerifyIffChained(hash, file);
    } else {
      var line := LineFor(hash, format, events[0], StateOf(hash, file));
      AppendFits(hash, format, file, StateOf(hash, file), events[0]);
      RecordedVerifies(hash, format, file + [line], events[1..]);
    }
  }

  /** The events differ in nothing but the values of sensitive parameters. */
  predicate SameButSensitive(a: Event, b: Event) {
    && a == b.(parameters := a.parameters) && |a.parameters| == |b.parameters|
    && forall i :: 0 <= i < |a.parameters| ==>
         && a.parameters[i].key == b.parameters[i].key
         && (SensitiveKey(a.parameters[i].key) || a.parameters[i].value == b.parameters[i].value)
  }

  lemma RedactedLine(hash: Hasher, format: ConstraintValue -> string, s: ChainState, a: Event, b: Event)
    requires SameButSensitive(a, b)
    ensures LineFor(hash, format, a, s) == LineFor(hash, format, b, s)
  {
    assert ParamsOf(format, a.parameters) == ParamsOf(format, b.parameters);
  }

  /** The values of sensitive parameters leave no trace: logs of events that differ in
      nothing else are the same files, hashes included. */
  lemma {:induction false} SensitiveValuesLeaveNoTrace(hash: Hasher, format: ConstraintValue -> string, file: seq<Line>,
                                                       a: seq<Event>, b: seq<Event>)
    requires |a| == |b| && forall i :: 0 <= i < |a| ==> SameButSensitive(a[i], b[i])
    ensures LinesFor(hash, format, file, a) == LinesFor(hash, format, file, b)
    decreases |a|
  {
    if a != [] {
      var s := StateOf(hash, file);
      RedactedLine(hash, format, s, a[0], b[0]);
      SensitiveValuesLeaveNoTrace(hash, format, file + [LineFor(hash, format, a[0], s)], a[1..], b[1..]);
    }
  }

  // ---------------------------------------------------------------------
  // Tier 2 entries.

  function ChannelName(r: LinkedRecord): string {
    if r.decision.Some? then r.decision.value.channelName else "unknown channel"
  }

  const DRIFTED: string :=
    "parameters drifted from the hash captured at proposal time - rejected " +
    "rather than approved against parameters that no longer match what was hashed"

  function Tier2Event(r: LinkedRecord, timestamp: nat, now: Instant): Result<Event, LogError> {
    match r.status
    case Pending => Err(NotTerminal)
    case InProgress => Err(NotTerminal)
    case Denied => Ok(Refusal(r, "denied by " + ChannelName(r), timestamp, now))
    case Expired => Ok(Refusal(r, "expired before an approval decision was reached", timestamp, now))
    case ParameterHashMismatch => Ok(Refusal(r, DRIFTED, timestamp, now))
    case _ =>
      if r.execution.None? then Err(NotTerminal)
      else
        var x := r.execution.value;
        Ok(Tier2(r, AuditDecision(true, "approved by " + ChannelName(r)),
                 Some(if x.outcome.Ok? then Success(Some(x.outcome.value)) else Failure(x.outcome.error)),
                 timestamp, SatSub(x.executedAt, r.intent.submittedAt)))
  }

  function Refusal(r: LinkedRecord, reason: string, timestamp: nat, now: Instant): Event {
    Tier2(r, AuditDecision(false, reason), None, timestamp, SatSub(now, r.intent.submittedAt))
  }

  function Tier2(r: LinkedRecord, d: AuditDecision, outcome: Option<AuditOutcome>, timestamp: nat,
                 duration: nat): Event {
    Event(timestamp, Hex.Encode(r.intent.proposer), r.intent.capability, "tier2", r.intent.parameters, d, outcome,
          duration, Some(Hex.Encode(r.intent.id)))
  }
}
