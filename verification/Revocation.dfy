/** Key revocation: certificates, their wire form, and the manager that accepts
    them over five paths and by threshold vote. */
module Revocation {
  import opened Prelude

  type Key = Bytes32
  type Milliseconds = u64

  datatype Reason =
    | KeyHolderRevoked | KeyCompromised | KeySuperseded | AffiliationChanged
    | CaRevoked | ThresholdRevoked | SecurityEvent | Unspecified

  function ReasonCode(r: Reason): byte {
    match r
    case KeyHolderRevoked => 1
    case KeyCompromised => 2
    case KeySuperseded => 3
    case AffiliationChanged => 4
    case CaRevoked => 5
    case ThresholdRevoked => 6
    case SecurityEvent => 7
    case Unspecified => 0xFF
  }

  function ReasonOf(code: byte): (r: Reason)
    ensures ReasonCode(r) == if 1 <= code <= 7 then code else 0xFF
  {
    match code
    case 1 => KeyHolderRevoked
    case 2 => KeyCompromised
    case 3 => KeySuperseded
    case 4 => AffiliationChanged
    case 5 => CaRevoked
    case 6 => ThresholdRevoked
    case 7 => SecurityEvent
    case _ => Unspecified
  }

  datatype Certificate = Certificate(
    revokedKeyId: Key,
    timestamp: u64,
    sequence: u64,
    reason: Reason,
    revokerId: Key,
    signature: Bytes64,
    supersededBy: Option<Key>)

  datatype Witness = Witness(revokedKeyId: Key, witnessId: Key, timestamp: u64, reason: Reason, signature: Bytes64)

  // ---------------------------------------------------------------------
  // Signed bytes.

  /** "AXIOM-REVOKE", a zero and the version. */
  function RevokeHeader(): (h: seq<byte>)
    ensures |h| == 14
  {
    [65, 88, 73, 79, 77, 45, 82, 69, 86, 79, 75, 69, 0, 1]
  }

  /** "AXIOM-WITNESS", a zero and the version. */
  function WitnessHeader(): (h: seq<byte>)
    ensures |h| == 15
  {
    [65, 88, 73, 79, 77, 45, 87, 73, 84, 78, 69, 83, 83, 0, 1]
  }

  function SupersededBytes(s: Option<Key>): (r: seq<byte>)
    ensures |r| == if s.Some? then 33 else 1
  {
    if s.Some? then [1] + s.value else [0]
  }

  function SignedBytes(c: Certificate): (r: seq<byte>)
    ensures |r| == if c.supersededBy.Some? then 128 else 96
  {
    RevokeHeader() + (c.revokedKeyId + (LittleEndian64(c.timestamp) + (LittleEndian64(c.sequence)
    + ([ReasonCode(c.reason)] + (c.revokerId + SupersededBytes(c.supersededBy))))))
  }

  function WitnessBytes(w: Witness): (r: seq<byte>)
    ensures |r| == 88
  {
    WitnessHeader() + (w.revokedKeyId + (w.witnessId + (LittleEndian64(w.timestamp) + [ReasonCode(w.reason)])))
  }

  lemma LittleEndianBinds(m: u64, n: u64)
    requires LittleEndian64(m) == LittleEndian64(n)
    ensures m == n
  {
    assert FromLittleEndian64(LittleEndian64(m)) == FromLittleEndian64(LittleEndian64(n));
  }

  lemma ReasonBinds(a: Reason, b: Reason)
    requires [ReasonCode(a)] == [ReasonCode(b)]
    ensures a == b
  {
    assert [ReasonCode(a)][0] == [ReasonCode(b)][0];
  }

  lemma SupersededBinds(a: Option<Key>, b: Option<Key>)
    requires SupersededBytes(a) == SupersededBytes(b)
    ensures a == b
  {
    if a.Some? && b.Some? {
      Cut([1], [1], a.value, b.value);
    }
  }

  /** A certificate's signature covers every other field of it. */
  lemma SignedBytesBind(c: Certificate, d: Certificate)
    requires SignedBytes(c) == SignedBytes(d)
    ensures c == d.(signature := c.signature)
  {
    var r0, s0 := SupersededBytes(c.supersededBy), SupersededBytes(d.supersededBy);
    var r1, s1 := c.revokerId + r0, d.revokerId + s0;
    var r2, s2 := [ReasonCode(c.reason)] + r1, [ReasonCode(d.reason)] + s1;
    var r3, s3 := LittleEndian64(c.sequence) + r2, LittleEndian64(d.sequence) + s2;
    var r4, s4 := LittleEndian64(c.timestamp) + r3, LittleEndian64(d.timestamp) + s3;
    Cut(RevokeHeader(), RevokeHeader(), c.revokedKeyId + r4, d.revokedKeyId + s4);
    Cut(c.revokedKeyId, d.revokedKeyId, r4, s4);
    Cut(LittleEndian64(c.timestamp), LittleEndian64(d.timestamp), r3, s3);
    Cut(LittleEndian64(c.sequence), LittleEndian64(d.sequence), r2, s2);
    Cut([ReasonCode(c.reason)], [ReasonCode(d.reason)], r1, s1);
    Cut(c.revokerId, d.revokerId, r0, s0);
    LittleEndianBinds(c.timestamp, d.timestamp);
    LittleEndianBinds(c.sequence, d.sequence);
    ReasonBinds(c.reason, d.reason);
    SupersededBinds(c.supersededBy, d.supersededBy);
  }

  lemma WitnessBytesBind(v: Witness, w: Witness)
    requires WitnessBytes(v) == WitnessBytes(w)
    ensures v == w.(signature := v.signature)
  {
    var r1, s1 := LittleEndian64(v.timestamp) + [ReasonCode(v.reason)],
      LittleEndian64(w.timestamp) + [ReasonCode(w.reason)];
    Cut(WitnessHeader(), WitnessHeader(), v.revokedKeyId + (v.witnessId + r1), w.revokedKeyId + (w.witnessId + s1));
    Cut(v.revokedKeyId, w.revokedKeyId, v.witnessId + r1, w.witnessId + s1);
    Cut(v.witnessId, w.witnessId, r1, s1);
    Cut(LittleEndian64(v.timestamp), LittleEndian64(w.timestamp), [ReasonCode(v.reason)], [ReasonCode(w.reason)]);
    LittleEndianBinds(v.timestamp, w.timestamp);
    ReasonBinds(v.reason, w.reason);
  }

  /** A vote never passes for a certificate. */
  lemma DomainsSeparate(c: Certificate, w: Witness)
    ensures SignedBytes(c) != WitnessBytes(w)
  {
    assert |SignedBytes(c)| != |WitnessBytes(w)|;
  }

  // ---------------------------------------------------------------------
  // Wire form.

  datatype WireError = MalformedData | InvalidHeader

  /** "AXIOM-REV", a zero and the version. */
  function WireHeader(): (h: seq<byte>)
    ensures |h| == 11
  {
    [65, 88, 73, 79, 77, 45, 82, 69, 86, 0, 1]
  }

  function Wire(c: Certificate): (r: seq<byte>)
    ensures |r| == if c.supersededBy.Some? then 189 else 157
  {
    WireHeader() + (c.revokedKeyId + (LittleEndian64(c.timestamp) + (LittleEndian64(c.sequence)
    + ([ReasonCode(c.reason)] + (c.revokerId + (c.signature + SupersededBytes(c.supersededBy)))))))
  }

  function FromWire(s: seq<byte>): Result<Certificate, WireError> {
    if |s| < 157 then Err(MalformedData)
    else if s[0..11] != WireHeader() then Err(InvalidHeader)
    else if s[156] == 1 && |s| < 189 then Err(MalformedData)
    else
      Ok(Certificate(s[11..43], FromLittleEndian64(s[43..51]), FromLittleEndian64(s[51..59]), ReasonOf(s[59]),
                     s[60..92], s[92..156], if s[156] == 1 then Some(s[157..189]) else None))
  }

  /** What was serialized is read back, whatever follows it. */
  lemma WireRoundTrip(c: Certificate, rest: seq<byte>)
    ensures FromWire(Wire(c) + rest) == Ok(c)
  {
    var s := Wire(c) + rest;
    assert s[0..11] == WireHeader() && s[11..43] == c.revokedKeyId;
    assert s[43..51] == LittleEndian64(c.timestamp) && s[51..59] == LittleEndian64(c.sequence);
    assert s[59] == ReasonCode(c.reason) && s[60..92] == c.revokerId && s[92..156] == c.signature;
    if c.supersededBy.Some? {
      assert s[156] == 1 && s[157..189] == c.supersededBy.value;
    } else {
      assert s[156] == 0;
    }
  }

  method SerializeRevocation(c: Certificate) returns (bytes: seq<byte>)
    ensures bytes == Wire(c)
  {
    bytes := WireHeader();
    bytes := bytes + c.revokedKeyId;
    bytes := bytes + LittleEndian64(c.timestamp);
    bytes := bytes + LittleEndian64(c.sequence);
    bytes := bytes + [ReasonCode(c.reason)];
    bytes := bytes + c.revokerId;
    bytes := bytes + c.signature;
    if c.supersededBy.Some? {
      bytes := bytes + [1];
      bytes := bytes + c.supersededBy.value;
    } else {
      bytes := bytes + [0];
    }
  }

  method DeserializeRevocation(data: seq<byte>) returns (r: Result<Certificate, WireError>)
    ensures r == FromWire(data)
  {
    if |data| < 11 + 32 + 8 + 8 + 1 + 32 + 64 + 1 {
      return Err(MalformedData);
    }
    if data[0..11] != WireHeader() {
      return Err(InvalidHeader);
    }
    var offset := 11;
    var revokedKeyId := data[offset..offset + 32];
    offset := offset + 32;
    var timestamp := FromLittleEndian64(data[offset..offset + 8]);
    offset := offset + 8;
    var sequence := FromLittleEndian64(data[offset..offset + 8]);
    offset := offset + 8;
    var reason := ReasonOf(data[offset]);
    offset := offset + 1;
    var revokerId := data[offset..offset + 32];
    offset := offset + 32;
    var signature := data[offset..offset + 64];
    offset := offset + 64;
    var supersededBy: Option<Key> := None;
    if data[offset] == 1 {
      if |data| < offset + 1 + 32 {
        return Err(MalformedData);
      }
      supersededBy := Some(data[offset + 1..offset + 33]);
    }
    return Ok(Certificate(revokedKeyId, timestamp, sequence, reason, revokerId, signature, supersededBy));
  }

  // ---------------------------------------------------------------------
  // The manager.

  datatype Source = Direct | Authority | WebOfTrust(fromPeer: Key) | Broadcast | Crl

  datatype Config = Config(minTrustLevel: u8, witnessesRequired: u8, maxCertificateAge: u64, allowSelfRevocation: bool)

  datatype Trust = Trust(peerId: Key, trustLevel: u8, canPropagate: bool, canWitness: bool)

  datatype Entry = Entry(certificate: Certificate, receivedAt: Milliseconds, source: Source, witnesses: seq<Witness>)

  /** `invalidated` lists the keys the session invalidators were called for, in order. */
  datatype Manager = Manager(
    revoked: map<Key, Entry>,
    pending: map<Key, seq<Witness>>,
    trust: map<Key, Trust>,
    issuers: map<Key, seq<Key>>,
    invalidated: seq<Key>)

  datatype Action =
    | Revoked(keyId: Key)
    | AlreadyRevoked
    | WitnessRecorded(keyId: Key, current: nat, required: nat)
    | ThresholdReached(keyId: Key)

  datatype RevocationError =
    | CertificateExpired | SelfRevocationDisabled | InvalidRevoker | InvalidSignature | NotAuthorized
    | UntrustedSource | InsufficientTrust | PropagationNotAllowed
    | WitnessNotAllowed | WitnessIdMismatch | DuplicateWitness

  /** Ed25519; a key that is not on the curve verifies nothing. */
  type Verifier = (Key, seq<byte>, Bytes64) -> bool

  predicate CertificateVerifies(verify: Verifier, c: Certificate, key: Key) {
    verify(key, SignedBytes(c), c.signature)
  }

  predicate WitnessVerifies(verify: Verifier, w: Witness, key: Key) {
    verify(key, WitnessBytes(w), w.signature)
  }

  function IssuersOf(m: Manager, key: Key): seq<Key> {
    if key in m.issuers then m.issuers[key] else []
  }

  /** The check shared by every transport: the holder's own signature, or a registered issuer's. */
  function SelfOrIssuerError(verify: Verifier, cfg: Config, m: Manager, c: Certificate): Option<RevocationError> {
    if c.revokerId == c.revokedKeyId then
      if !cfg.allowSelfRevocation then Some(SelfRevocationDisabled)
      else if !CertificateVerifies(verify, c, c.revokedKeyId) then Some(InvalidSignature)
      else None
    else IssuerError(verify, m, c)
  }

  function IssuerError(verify: Verifier, m: Manager, c: Certificate): Option<RevocationError> {
    if !CertificateVerifies(verify, c, c.revokerId) then Some(InvalidSignature)
    else if c.revokerId !in IssuersOf(m, c.revokedKeyId) then Some(NotAuthorized)
    else None
  }

  function SourceError(verify: Verifier, cfg: Config, m: Manager, c: Certificate,
                       source: Source): Option<RevocationError> {
    match source
    case Direct =>
      if !cfg.allowSelfRevocation then Some(SelfRevocationDisabled)
      else if c.revokerId != c.revokedKeyId then Some(InvalidRevoker)
      else if !CertificateVerifies(verify, c, c.revokedKeyId) then Some(InvalidSignature)
      else None
    case Authority => IssuerError(verify, m, c)
    case WebOfTrust(peer) =>
      if peer !in m.trust then Some(UntrustedSource)
      else if m.trust[peer].trustLevel < cfg.minTrustLevel then Some(InsufficientTrust)
      else if !m.trust[peer].canPropagate then Some(PropagationNotAllowed)
      else SelfOrIssuerError(verify, cfg, m, c)
    case _ => SelfOrIssuerError(verify, cfg, m, c)
  }

  function Revoke(m: Manager, key: Key, e: Entry): Manager {
    m.(revoked := m.revoked[key := e], invalidated := m.invalidated + [key])
  }

  datatype Outcome = Outcome(manager: Manager, result: Result<Action, RevocationError>)

  function ProcessCertificate(verify: Verifier, cfg: Config, m: Manager, c: Certificate, source: Source,
                              now: Milliseconds): Outcome {
    if c.revokedKeyId in m.revoked then Outcome(m, Ok(AlreadyRevoked))
    else if SatSub(now, c.timestamp) > cfg.maxCertificateAge then Outcome(m, Err(CertificateExpired))
    else
      var error := SourceError(verify, cfg, m, c, source);
      if error.Some? then Outcome(m, Err(error.value))
      else Outcome(Revoke(m, c.revokedKeyId, Entry(c, now, source, [])), Ok(Revoked(c.revokedKeyId)))
  }

  /** The certificate verifies under the key it revokes, and that is allowed. */
  predicate SelfSigned(verify: Verifier, cfg: Config, c: Certificate) {
    cfg.allowSelfRevocation && c.revokerId == c.revokedKeyId && verify(c.revokedKeyId, SignedBytes(c), c.signature)
  }

  /** The certificate verifies under a registered issuer of the key it revokes. */
  predicate IssuerSigned(verify: Verifier, m: Manager, c: Certificate) {
    && verify(c.revokerId, SignedBytes(c), c.signature)
    && c.revokedKeyId in m.issuers && c.revokerId in m.issuers[c.revokedKeyId]
  }

  /** What each source asks of a certificate. */
  predicate Authorized(verify: Verifier, cfg: Config, m: Manager, c: Certificate, source: Source) {
    match source
    case Direct => SelfSigned(verify, cfg, c)
    case Authority => IssuerSigned(verify, m, c)
    case WebOfTrust(p) =>
      && p in m.trust && m.trust[p].trustLevel >= cfg.minTrustLevel && m.trust[p].canPropagate
      && (SelfSigned(verify, cfg, c) || (c.revokerId != c.revokedKeyId && IssuerSigned(verify, m, c)))
    case _ => SelfSigned(verify, cfg, c) || (c.revokerId != c.revokedKeyId && IssuerSigned(verify, m, c))
  }

  /** A certificate revokes its key exactly when the key is not revoked, the certificate is
      not older than the limit, and it is authorized for the source it came from; then it is
      on record with its source and time and the invalidators are called for the key. A
      refused one changes nothing. */
  lemma CertificateExact(verify: Verifier, cfg: Config, m: Manager, c: Certificate, source: Source, now: Milliseconds)
    ensures var out := ProcessCertificate(verify, cfg, m, c, source, now);
            && (out.result == Ok(Revoked(c.revokedKeyId)) <==>
                  && c.revokedKeyId !in m.revoked && now <= c.timestamp as int + cfg.maxCertificateAge as int
                  && Authorized(verify, cfg, m, c, source))
            && (out.result == Ok(Revoked(c.revokedKeyId)) ==>
                  && out.manager.revoked == m.revoked[c.revokedKeyId := Entry(c, now, source, [])]
                  && out.manager.invalidated == m.invalidated + [c.revokedKeyId]
                  && out.manager.pending == m.pending && out.manager.trust == m.trust
                  && out.manager.issuers == m.issuers)
            && (out.result != Ok(Revoked(c.revokedKeyId)) ==> out.manager == m)
            && (out.result == Ok(AlreadyRevoked) <==> c.revokedKeyId in m.revoked)
            && (out.result == Err(CertificateExpired) <==>
                  c.revokedKeyId !in m.revoked && now > c.timestamp as int + cfg.maxCertificateAge as int)
  {
  }

  /** A vote counts exactly when its key is not revoked, the voter is trusted to witness,
      its signature and identity are the voter's, and the voter has not voted; a counted
      vote that makes up the number required revokes the key with all votes on record, any
      other waits with those before it. What does not count changes nothing. */
  lemma VoteExact(verify: Verifier, cfg: Config, m: Manager, w: Witness, voter: Key, now: Milliseconds)
    ensures var out := ProcessVote(verify, cfg, m, w, voter, now);
            var before := if w.revokedKeyId in m.pending then m.pending[w.revokedKeyId] else [];
            if && w.revokedKeyId !in m.revoked && voter in m.trust && m.trust[voter].canWitness
               && verify(voter, WitnessBytes(w), w.signature) && w.witnessId == voter
               && forall i :: 0 <= i < |before| ==> before[i].witnessId != voter
            then
              if |before| + 1 >= cfg.witnessesRequired as int then
                && out.result == Ok(ThresholdReached(w.revokedKeyId))
                && out.manager.revoked.Keys == m.revoked.Keys + {w.revokedKeyId}
                && out.manager.revoked[w.revokedKeyId].witnesses == before + [w]
                && out.manager.revoked[w.revokedKeyId].receivedAt == now
                && out.manager.revoked[w.revokedKeyId].source == Direct
                && out.manager.revoked[w.revokedKeyId].certificate
                     == Certificate(w.revokedKeyId, now, 0, ThresholdRevoked, seq(32, _ => 0), seq(64, _ => 0), None)
                && (forall k :: k in m.revoked ==> out.manager.revoked[k] == m.revoked[k])
                && out.manager.pending == m.pending - {w.revokedKeyId}
                && out.manager.invalidated == m.invalidated + [w.revokedKeyId]
                && out.manager.trust == m.trust && out.manager.issuers == m.issuers
              else
                && out.result == Ok(WitnessRecorded(w.revokedKeyId, |before| + 1, cfg.witnessesRequired as int))
                && out.manager == m.(pending := m.pending[w.revokedKeyId := before + [w]])
            else
              && out.manager == m
              && (out.result == Ok(AlreadyRevoked) <==> w.revokedKeyId in m.revoked)
              && (w.revokedKeyId !in m.revoked ==> out.result.Err?)
  {
  }

  /** How many votes revoke a key: the configured number, but never none. */
  function Quorum(cfg: Config): nat {
    if cfg.witnessesRequired == 0 then 1 else cfg.witnessesRequired
  }

  function PendingOf(m: Manager, key: Key): seq<Witness> {
    if key in m.pending then m.pending[key] else []
  }

  predicate HasVoted(votes: seq<Witness>, who: Key) {
    exists i :: 0 <= i < |votes| && votes[i].witnessId == who
  }

  function ThresholdEntry(key: Key, votes: seq<Witness>, now: Milliseconds): Entry {
    Entry(Certificate(key, now, 0, ThresholdRevoked, Zeros32(), Zeros64(), None), now, Direct, votes)
  }

  function Zeros32(): Bytes32 {
    seq(32, _ => 0)
  }

  function Zeros64(): Bytes64 {
    seq(64, _ => 0)
  }

  function VoteError(verify: Verifier, m: Manager, w: Witness, key: Key): Option<RevocationError> {
    if key !in m.trust then Some(UntrustedSource)
    else if !m.trust[key].canWitness then Some(WitnessNotAllowed)
    else if !WitnessVerifies(verify, w, key) then Some(InvalidSignature)
    else if w.witnessId != key then Some(WitnessIdMismatch)
    else if HasVoted(PendingOf(m, w.revokedKeyId), key) then Some(DuplicateWitness)
    else None
  }

  function ProcessVote(verify: Verifier, cfg: Config, m: Manager, w: Witness, key: Key, now: Milliseconds): Outcome {
    if w.revokedKeyId in m.revoked then Outcome(m, Ok(AlreadyRevoked))
    else
      var error := VoteError(verify, m, w, key);
      if error.Some? then Outcome(m, Err(error.value))
      else
        var votes := PendingOf(m, w.revokedKeyId) + [w];
        if |votes| >= cfg.witnessesRequired then
          var entry := ThresholdEntry(w.revokedKeyId, votes, now);
          Outcome(Revoke(m, w.revokedKeyId, entry).(pending := m.pending - {w.revokedKeyId}),
                  Ok(ThresholdReached(w.revokedKeyId)))
        else
          Outcome(m.(pending := m.pending[w.revokedKeyId := votes]),
                  Ok(WitnessRecorded(w.revokedKeyId, |votes|, cfg.witnessesRequired)))
  }

  function RegisterIssuer(m: Manager, key: Key, issuer: Key): Manager {
    var known := IssuersOf(m, key);
    m.(issuers := m.issuers[key := if issuer in known then known else known + [issuer]])
  }

  /** A key's issuers are those it had and the new one, each as often as before. */
  lemma RegisterExact(m: Manager, key: Key, issuer: Key)
    ensures var v := RegisterIssuer(m, key, issuer);
            && key in v.issuers && issuer in v.issuers[key]
            && (key in m.issuers ==> m.issuers[key] <= v.issuers[key])
            && (key in m.issuers && issuer in m.issuers[key] ==> v.issuers[key] == m.issuers[key])
            && (forall i :: i in v.issuers[key] ==> i == issuer || (key in m.issuers && i in m.issuers[key]))
            && v == m.(issuers := m.issuers[key := v.issuers[key]])
  {
  }

  const EMPTY: Manager := Manager(map[], map[], map[], map[], [])

  class RevocationManager {
    const verify: Verifier
    const config: Config
    var state: Manager

    constructor (verify: Verifier, config: Config)
      ensures this.verify == verify && this.config == config && state == EMPTY
    {
      this.verify := verify;
      this.config := config;
      state := EMPTY;
    }

    method AddTrust(t: Trust)
      modifies this
      ensures state == old(state).(trust := old(state).trust[t.peerId := t])
    {
      state := state.(trust := state.trust[t.peerId := t]);
    }

    method RemoveTrust(peer: Key)
      modifies this
      ensures state == old(state).(trust := old(state).trust - {peer})
    {
      state := state.(trust := state.trust - {peer});
    }

    method RegisterKeyIssuer(key: Key, issuer: Key)
      modifies this
      ensures state == RegisterIssuer(old(state), key, issuer)
    {
      var issuers := if key in state.issuers then state.issuers[key] else [];
      if issuer !in issuers {
        issuers := issuers + [issuer];
      }
      state := state.(issuers := state.issuers[key := issuers]);
    }

    method ProcessRevocation(c: Certificate, source: Source, now: Milliseconds)
      returns (r: Result<Action, RevocationError>)
      modifies this
      ensures Outcome(state, r) == ProcessCertificate(verify, config, old(state), c, source, now)
    {
      if c.revokedKeyId in state.revoked {
        return Ok(AlreadyRevoked);
      }
      if SatSub(now, c.timestamp) > config.maxCertificateAge {
        return Err(CertificateExpired);
      }
      var error := SourceError(verify, config, state, c, source);
      if error.Some? {
        return Err(error.value);
      }
      var key := c.revokedKeyId;
      state := state.(revoked := state.revoked[key := Entry(c, now, source, [])]);
      state := state.(invalidated := state.invalidated + [key]);
      return Ok(Revoked(key));
    }

    method ProcessWitnessVote(w: Witness, key: Key, now: Milliseconds) returns (r: Result<Action, RevocationError>)
      modifies this
      ensures Outcome(state, r) == ProcessVote(verify, config, old(state), w, key, now)
    {
      if w.revokedKeyId in state.revoked {
        return Ok(AlreadyRevoked);
      }
      if key !in state.trust {
        return Err(UntrustedSource);
      }
      if !state.trust[key].canWitness {
        return Err(WitnessNotAllowed);
      }
      if !WitnessVerifies(verify, w, key) {
        return Err(InvalidSignature);
      }
      if w.witnessId != key {
        return Err(WitnessIdMismatch);
      }
      var votes := if w.revokedKeyId in state.pending then state.pending[w.revokedKeyId] else [];
      if HasVoted(votes, w.witnessId) {
        return Err(DuplicateWitness);
      }
      votes := votes + [w];
      var required := config.witnessesRequired;
      if |votes| >= required {
        state := state.(pending := state.pending - {w.revokedKeyId});
        state := state.(revoked := state.revoked[w.revokedKeyId := ThresholdEntry(w.revokedKeyId, votes, now)]);
        state := state.(invalidated := state.invalidated + [w.revokedKeyId]);
        return Ok(ThresholdReached(w.revokedKeyId));
      }
      state := state.(pending := state.pending[w.revokedKeyId := votes]);
      return Ok(WitnessRecorded(w.revokedKeyId, |votes|, required));
    }
  }
}
