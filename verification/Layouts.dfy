/** What stands where in the byte strings that are sent and signed, said by position and
    in the numbers of the formats. */
module Layouts {
  import opened Prelude
  import opened Frame
  import opened Codec
  import Negotiation
  import Revocation

  /** The bytes are the characters of an ASCII text. */
  predicate Spells(s: seq<byte>, text: string) {
    |s| == |text| && forall i :: 0 <= i < |s| ==> s[i] as int == text[i] as int
  }

  // ---------------------------------------------------------------------
  // Codes.

  const FRAME_TYPES: seq<FrameType> :=
    [Intent, Fulfill, Stream, Sync, Trust, Route, FrameType.Compress, Bridge, Announce, Flow, FrameType.Error,
     FrameType.Fragment, Ping, Pong, FrameType.Ack, Nack, Join, Leave]

  const PAYLOAD_TYPES: seq<PayloadType> :=
    [RawBytes, Tensor, Embed, Delta, IntentDesc, Graph, Legacy, DictRef, Kv, ErrorInfo, TrustData, RouteInfo, FlowInfo]

  /** Types are numbered in the order of their list; other codes stand for themselves. */
  lemma CodesInOrder(i: nat)
    ensures i < |FRAME_TYPES| ==> FrameTypeCode(FRAME_TYPES[i]) as int == i
    ensures i < |PAYLOAD_TYPES| ==> PayloadTypeCode(PAYLOAD_TYPES[i]) as int == i
    ensures i < 4 ==> TrustCode([Full, Sig, Compressed, Raw][i]) as int == i
    ensures i < 4 ==> PriorityCode([Low, Normal, High, Critical][i]) as int == i
  {
    if i < |FRAME_TYPES| {
      FrameCode(i);
    }
    if i < |PAYLOAD_TYPES| {
      PayloadCode(i);
    }
  }

  lemma FrameCode(i: nat)
    requires i < |FRAME_TYPES|
    ensures FrameTypeCode(FRAME_TYPES[i]) as int == i
  {
  }

  lemma PayloadCode(i: nat)
    requires i < |PAYLOAD_TYPES|
    ensures PayloadTypeCode(PAYLOAD_TYPES[i]) as int == i
  {
  }

  // ---------------------------------------------------------------------
  // Frames.

  function Number(s: seq<byte>): nat {
    if s == [] then 0 else Number(s[..|s| - 1]) * 256 + s[|s| - 1] as int
  }

  /** The first 24 bits, from the highest: magic 2, version 4, type 5, flags 3 (fragmented,
      compressed, encrypted), trust 2, priority 2, trace 1, routing 1, reserved 4. */
  lemma PackedLayout(h: Header, hasTrace: bool, hasRouting: bool)
    requires h.version < 16 && FrameTypeCode(h.frameType) < 32
    ensures Number(PackedBytes(h, hasTrace, hasRouting)) ==
            (((((((2 * 16 + h.version as int) * 32 + FrameTypeCode(h.frameType) as int) * 8
              + (if h.flags.fragmented then 4 else 0) + (if h.flags.compressed then 2 else 0)
              + (if h.flags.encrypted then 1 else 0)) * 4
              + TrustCode(h.trustLevel) as int) * 4
              + PriorityCode(h.priority) as int) * 2
              + (if hasTrace then 1 else 0)) * 2
              + (if hasRouting then 1 else 0)) * 16
  {
    var r := PackedBytes(h, hasTrace, hasRouting);
    var ft := FrameTypeCode(h.frameType) as int;
    var trace, routing := if hasTrace then 1 else 0, if hasRouting then 1 else 0;
    Split(ft, 8);
    PackedAt(h, hasTrace, hasRouting, ft / 8, ft % 8, trace, routing);
    assert r == [r[0], r[1], r[2]];
    Three(r[0], r[1], r[2]);
    Packed(h.version as int, ft / 8, ft % 8, FlagsCode(h.flags) as int, TrustCode(h.trustLevel) as int,
           PriorityCode(h.priority) as int, trace, routing, r[0] as int, r[1] as int, r[2] as int);
  }

  lemma PackedAt(h: Header, hasTrace: bool, hasRouting: bool, high: nat, low: nat, trace: nat, routing: nat)
    requires h.version < 16 && FrameTypeCode(h.frameType) < 32
    requires high == FrameTypeCode(h.frameType) as int / 8 && low == FrameTypeCode(h.frameType) as int % 8
    requires trace == (if hasTrace then 1 else 0) && routing == if hasRouting then 1 else 0
    ensures var r := PackedBytes(h, hasTrace, hasRouting);
            && r[0] as int == 2 * 64 + h.version as int * 4 + high
            && r[1] as int == low * 32 + FlagsCode(h.flags) as int * 4 + TrustCode(h.trustLevel) as int
            && r[2] as int == PriorityCode(h.priority) as int * 64 + trace * 32 + routing * 16
  {
  }

  lemma Split(n: nat, d: nat)
    requires d > 0
    ensures n == n / d * d + n % d
  {
  }

  lemma Packed(version: nat, high: nat, low: nat, flags: nat, trust: nat, priority: nat, trace: nat, routing: nat,
               a: nat, b: nat, c: nat)
    requires a == 2 * 64 + version * 4 + high && b == low * 32 + flags * 4 + trust
    requires c == priority * 64 + trace * 32 + routing * 16
    ensures a * 65536 + b * 256 + c ==
            (((((((2 * 16 + version) * 32 + (high * 8 + low)) * 8 + flags) * 4 + trust) * 4 + priority) * 2 + trace) * 2
              + routing) * 16
  {
  }

  lemma Three(a: byte, b: byte, c: byte)
    ensures Number([a, b, c]) == a as int * 65536 + b as int * 256 + c as int
  {
    assert [a, b, c][..2] == [a, b] && [a, b][..1] == [a] && [a][..0] == [];
    assert Number([a]) == a as int && Number([a, b]) == a as int * 256 + b as int;
  }

  /** Then the clock, seconds in five bytes and counter in two, the hash and the sender. */
  lemma HeaderLayout(h: Header, hasTrace: bool, hasRouting: bool)
    requires h.clock.physical < 0x100_0000_0000
    ensures var w := FixedHeaderBytes(h, hasTrace, hasRouting);
            && |w| == 58 && w[0..3] == PackedBytes(h, hasTrace, hasRouting)
            && Number(w[3..8]) == h.clock.physical as int && Number(w[8..10]) == h.clock.logical as int
            && w[10..26] == h.intentHash && w[26..58] == h.senderId
  {
    var w := FixedHeaderBytes(h, hasTrace, hasRouting);
    var p := h.clock.physical as int;
    var high, low := p / 0x1_0000_0000, p % 0x1_0000_0000;
    assert w[3..10] == ClockBytes(h.clock);
    assert w[3..8] == [high % 0x100] + BigEndian32(low) && w[8..10] == BigEndian16(h.clock.logical);
    Five(high % 0x100, BigEndian32(low));
    BigNumber32(low);
    BigNumber16(h.clock.logical);
  }

  lemma BigNumber16(n: u16)
    ensures Number(BigEndian16(n)) == n as int
  {
    var s := BigEndian16(n);
    assert s[..1] == [s[0]] && s[..1][..0] == [];
    assert Number(s[..1]) == s[0] as int;
  }

  lemma BigNumber32(n: u32)
    ensures Number(BigEndian32(n)) == n as int
  {
    var s := BigEndian32(n);
    Four(s);
  }

  lemma Four(s: seq<byte>)
    requires |s| == 4
    ensures Number(s) == ((s[0] as int * 256 + s[1] as int) * 256 + s[2] as int) * 256 + s[3] as int
  {
    assert s[..3][..2] == s[..2] && s[..2][..1] == s[..1] && s[..1][..0] == [];
    assert Number(s[..1]) == s[0] as int;
    assert Number(s[..2]) == s[0] as int * 256 + s[1] as int;
    assert Number(s[..3]) == (s[0] as int * 256 + s[1] as int) * 256 + s[2] as int;
  }

  lemma Five(a: byte, s: seq<byte>)
    requires |s| == 4
    ensures Number([a] + s) == a as int * 0x1_0000_0000 + Number(s)
  {
    var t := [a] + s;
    Four(s);
    assert t[..4] == [a] + s[..3];
    Four(t[..4]);
  }

  /** The payload header: a type of 4 bits, a length of 24 and flags of 4. */
  lemma PayloadHeaderLayout(t: PayloadType, length: u32, flags: u8)
    requires PayloadTypeCode(t) < 16 && length < 0x100_0000 && flags < 16
    ensures Number(PayloadHeaderBytes(t, length, flags))
         == (PayloadTypeCode(t) as int * 0x100_0000 + length as int) * 16 + flags as int
  {
    var u := PayloadTypeOf(PayloadTypeCode(t));
    SameCode(t, u, length, flags);
    PayloadHeaderRoundTrip(PayloadHeader(u, length, flags));
    ReadsAs(PayloadHeaderBytes(u, length, flags), u, length, flags);
  }

  /** Only the code of a type is written. */
  lemma SameCode(t: PayloadType, u: PayloadType, length: u32, flags: u8)
    requires PayloadTypeCode(t) == PayloadTypeCode(u)
    ensures PayloadHeaderBytes(t, length, flags) == PayloadHeaderBytes(u, length, flags)
  {
  }

  lemma ReadsAs(s: seq<byte>, u: PayloadType, length: u32, flags: u8)
    requires |s| == 4 && DecodePayloadHeader(s) == PayloadHeader(u, length, flags)
    ensures Number(s) == (PayloadTypeCode(u) as int * 0x100_0000 + length as int) * 16 + flags as int
  {
    Four(s);
    Nibbled(s, u, length, flags);
  }

  /** What the four bytes read as, from what the decoder reads in them. */
  lemma Nibbled(s: seq<byte>, u: PayloadType, length: u32, flags: u8)
    requires |s| == 4 && DecodePayloadHeader(s) == PayloadHeader(u, length, flags)
    ensures ((s[0] as int * 256 + s[1] as int) * 256 + s[2] as int) * 256 + s[3] as int
         == (PayloadTypeCode(u) as int * 0x100_0000 + length as int) * 16 + flags as int
  {
    Split(s[0] as int, 16);
    Split(s[3] as int, 16);
    assert PayloadTypeCode(u) as int == s[0] as int / 16 by {
      Small(s[0] as int / 16, 16);
    }
    Quartets(s[0] as int / 16, s[0] as int % 16, s[1] as int, s[2] as int, s[3] as int / 16, s[3] as int % 16);
  }

  lemma Small(n: nat, bound: nat)
    requires n < bound
    ensures n % bound == n
  {
  }

  lemma Quartets(code: nat, a: nat, b: nat, c: nat, d: nat, flags: nat)
    ensures (((code * 16 + a) * 256 + b) * 256 + c) * 256 + (d * 16 + flags)
         == (code * 0x100_0000 + (a * 0x10_0000 + b * 0x1000 + c * 16 + d)) * 16 + flags
  {
  }

  /** The parts of a frame, each from where the one before it ends. */
  lemma FrameLayout(f: Frame)
    requires |f.payload| <= MAX_PAYLOAD_SIZE
    ensures var w := Wire(f);
            var a := 58;
            var b := a + if f.traceId.Some? then 8 else 0;
            var c := b + if f.routing.Some? then 33 else 0;
            var d := c + if f.fragment.Some? then 4 else 0;
            && |w| == d + 4 + |f.payload| + AuthSize(f.auth)
            && w[0..a] == FixedHeaderBytes(f.header, f.traceId.Some?, f.routing.Some?)
            && (f.traceId.Some? ==> w[a..b] == f.traceId.value)
            && (f.routing.Some? ==> w[b..b + 32] == f.routing.value.destination && w[b + 32] == f.routing.value.ttl)
            && (f.fragment.Some? ==>
                  && w[c..c + 2] == BigEndian16(f.fragment.value.sequence)
                  && w[c + 2..d] == BigEndian16(f.fragment.value.total))
            && w[d..d + 4] == PayloadHeaderBytes(f.payloadHeader.payloadType, |f.payload|, f.payloadHeader.flags)
            && w[d + 4..d + 4 + |f.payload|] == f.payload
            && (f.auth.Signature? ==> w[d + 4 + |f.payload|..] == f.auth.sig)
            && (f.auth.Token? ==> w[d + 4 + |f.payload|..] == f.auth.token)
  {
    Parts(f, FixedHeaderBytes(f.header, f.traceId.Some?, f.routing.Some?), TraceBytes(f.traceId),
          RoutingBytes(f.routing), FragmentBytes(f.fragment),
          PayloadHeaderBytes(f.payloadHeader.payloadType, |f.payload|, f.payloadHeader.flags), AuthBytes(f.auth));
    if f.routing.Some? {
      RoutingLayout(f.routing.value, Wire(f), 58 + |TraceBytes(f.traceId)|);
    }
    if f.fragment.Some? {
      FragmentLayout(f.fragment.value, Wire(f), 58 + |TraceBytes(f.traceId)| + |RoutingBytes(f.routing)|);
    }
  }

  lemma RoutingLayout(r: RoutingExt, w: seq<byte>, b: nat)
    requires b + 33 <= |w| && w[b..b + 33] == RoutingBytes(Some(r))
    ensures w[b..b + 32] == r.destination && w[b + 32] == r.ttl
  {
    var s := w[b..b + 33];
    assert s == r.destination + [r.ttl];
    assert w[b..b + 32] == s[..32] && w[b + 32] == s[32];
  }

  lemma FragmentLayout(g: FragmentInfo, w: seq<byte>, c: nat)
    requires c + 4 <= |w| && w[c..c + 4] == FragmentBytes(Some(g))
    ensures w[c..c + 2] == BigEndian16(g.sequence) && w[c + 2..c + 4] == BigEndian16(g.total)
  {
    var s := w[c..c + 4];
    assert s == BigEndian16(g.sequence) + BigEndian16(g.total);
    assert w[c..c + 2] == s[..2] && w[c + 2..c + 4] == s[2..];
  }

  lemma Parts(f: Frame, h: seq<byte>, t: seq<byte>, r: seq<byte>, g: seq<byte>, p: seq<byte>, s: seq<byte>)
    requires |f.payload| <= MAX_PAYLOAD_SIZE && |h| == 58 && |p| == 4
    requires Wire(f) == (h + (t + (r + (g + (p + f.payload))))) + s
    ensures var w := Wire(f);
            var b, c, d := 58 + |t|, 58 + |t| + |r|, 58 + |t| + |r| + |g|;
            && |w| == d + 4 + |f.payload| + |s|
            && w[0..58] == h && w[58..b] == t && w[b..c] == r && w[c..d] == g && w[d..d + 4] == p
            && w[d + 4..d + 4 + |f.payload|] == f.payload && w[d + 4 + |f.payload|..] == s
  {
    var w, y := Wire(f), f.payload;
    Associate(p, y, s);
    Associate(g, p + y, s);
    Associate(r, g + (p + y), s);
    Associate(t, r + (g + (p + y)), s);
    Associate(h, t + (r + (g + (p + y))), s);
    var b, c, d := 58 + |t|, 58 + |t| + |r|, 58 + |t| + |r| + |g|;
    Peel(w, 0, h, t + (r + (g + (p + (y + s)))));
    Peel(w, 58, t, r + (g + (p + (y + s))));
    Peel(w, b, r, g + (p + (y + s)));
    Peel(w, c, g, p + (y + s));
    Peel(w, d, p, y + s);
    Peel(w, d + 4, y, s);
  }

  lemma Peel(w: seq<byte>, a: nat, x: seq<byte>, rest: seq<byte>)
    requires a <= |w| && w[a..] == x + rest
    ensures a + |x| <= |w| && w[a..a + |x|] == x && w[a + |x|..] == rest
  {
    assert w[a..a + |x|] == w[a..][..|x|] && w[a + |x|..] == w[a..][|x|..];
  }

  /** What is signed: the frame as sent with the TTL at zero, up to the authentication. */
  lemma SignedLayout(f: Frame)
    requires |f.payload| <= MAX_PAYLOAD_SIZE
    ensures var g := if f.routing.Some? then f.(routing := Some(f.routing.value.(ttl := 0))) else f;
            && |Wire(g)| - AuthSize(f.auth) >= 0
            && SignatureBytes(f) == Wire(g)[..|Wire(g)| - AuthSize(f.auth)]
  {
    var g := if f.routing.Some? then f.(routing := Some(f.routing.value.(ttl := 0))) else f;
    assert Wire(g) == UnsignedBytes(g) + AuthBytes(f.auth);
  }

  /** Of an oversized frame, zeros are signed, as many as it would have bytes. */
  lemma OversizedLayout(f: Frame)
    requires |f.payload| > MAX_PAYLOAD_SIZE
    ensures |SignatureBytes(f)| == WireSize(f) - AuthSize(f.auth)
    ensures forall i :: 0 <= i < |SignatureBytes(f)| ==> SignatureBytes(f)[i] == 0
  {
  }

  // ---------------------------------------------------------------------
  // Trust negotiation.

  lemma ResponseTranscriptLayout(challenger: Bytes32, responder: Bytes32, nonce: Bytes32)
    ensures var t := Negotiation.ResponseTranscript(challenger, responder, nonce);
            && Spells(t[0..27], "AXIOM/negotiate-" + "response/v1")
            && t[27..59] == challenger && t[59..91] == responder && t[91..123] == nonce
  {
    var t := Negotiation.ResponseTranscript(challenger, responder, nonce);
    assert t[0..27] == Negotiation.ResponseDomain();
  }

  lemma AckTranscriptLayout(initiator: Bytes32, responder: Bytes32, ni: Bytes32, nc: Bytes32, level: TrustLevel)
    ensures var t := Negotiation.AckTranscript(initiator, responder, ni, nc, level);
            && Spells(t[0..22], "AXIOM/negotiate-" + "ack/v1")
            && t[22..54] == initiator && t[54..86] == responder && t[86..118] == ni && t[118..150] == nc
            && t[150] == TrustCode(level)
  {
    var t := Negotiation.AckTranscript(initiator, responder, ni, nc, level);
    assert t[0..22] == Negotiation.AckDomain();
  }

  lemma HelloLayout(p: Negotiation.HelloPayload)
    ensures var s := Negotiation.EncodeHello(p);
            && Number(s[0..2]) == p.version as int && s[2..34] == p.publicKey && s[34] == TrustCode(p.requestedTrust)
            && Number(s[35..39]) == p.capabilities as int && s[39..71] == p.initiatorNonce
  {
    var s := Negotiation.EncodeHello(p);
    assert s[0..2] == BigEndian16(p.version) && s[35..39] == BigEndian32(p.capabilities);
    BigNumber16(p.version);
    BigNumber32(p.capabilities);
  }

  lemma ChallengeLayout(p: Negotiation.ChallengePayload)
    ensures var s := Negotiation.EncodeChallenge(p);
            && s[0..32] == p.nonce && Number(s[32..36]) * 0x1_0000_0000 + Number(s[36..40]) == p.timestamp as int
            && Number(s[40..44]) == p.expirySecs as int
  {
    var s := Negotiation.EncodeChallenge(p);
    assert s[40..44] == BigEndian32(p.expirySecs) && s[32..40] == BigEndian64(p.timestamp);
    assert s[32..36] == s[32..40][..4] && s[36..40] == s[32..40][4..];
    BigNumber32(p.expirySecs);
    BigNumber32(p.timestamp / 0x1_0000_0000);
    BigNumber32(p.timestamp % 0x1_0000_0000);
  }

  lemma ResponseAndAckLayout(r: Negotiation.ResponsePayload, a: Negotiation.AckPayload)
    ensures var s := Negotiation.EncodeResponse(r); s[0..32] == r.nonce && s[32..96] == r.signature
    ensures var s := Negotiation.EncodeAck(a);
            s[0] == TrustCode(a.trustLevel) && s[1..33] == a.publicKey && s[33..97] == a.signature
  {
    assert Negotiation.EncodeResponse(r)[0..32] == r.nonce;
    assert Negotiation.EncodeAck(a)[1..33] == a.publicKey;
  }

  // ---------------------------------------------------------------------
  // Revocation.

  /** Little-endian: the last byte is the highest. */
  lemma LittleEndianLayout(n: u64)
    ensures var r := LittleEndian64(n);
            Number([r[7], r[6], r[5], r[4]]) * 0x1_0000_0000 + Number([r[3], r[2], r[1], r[0]]) == n as int
  {
    var r, b := LittleEndian64(n), BigEndian64(n);
    assert [r[7], r[6], r[5], r[4]] == b[..4] && [r[3], r[2], r[1], r[0]] == b[4..];
    BigNumber32(n / 0x1_0000_0000);
    BigNumber32(n % 0x1_0000_0000);
  }

  lemma CertificateLayout(c: Revocation.Certificate)
    ensures var s := Revocation.SignedBytes(c);
            && Spells(s[0..12], "AXIOM-REVOKE") && s[12] == 0 && s[13] == 1
            && s[14..46] == c.revokedKeyId && s[46..54] == LittleEndian64(c.timestamp)
            && s[54..62] == LittleEndian64(c.sequence) && s[62] == Revocation.ReasonCode(c.reason)
            && s[63..95] == c.revokerId
            && (c.supersededBy.None? ==> s[95..] == [0])
            && (c.supersededBy.Some? ==> s[95] == 1 && s[96..128] == c.supersededBy.value)
  {
    var s := Revocation.SignedBytes(c);
    var tail := Revocation.SupersededBytes(c.supersededBy);
    SevenParts(Revocation.RevokeHeader(), c.revokedKeyId, LittleEndian64(c.timestamp), LittleEndian64(c.sequence),
               Revocation.ReasonCode(c.reason), c.revokerId, tail, s);
    assert s[0..12] == Revocation.RevokeHeader()[0..12] && s[12] == s[0..14][12] && s[13] == s[0..14][13];
    if c.supersededBy.Some? {
      assert s[95] == tail[0] && s[96..128] == tail[1..33];
    }
  }

  lemma SevenParts(h: seq<byte>, k: seq<byte>, t: seq<byte>, q: seq<byte>, r: byte, v: seq<byte>, z: seq<byte>,
                   s: seq<byte>)
    requires |h| == 14 && |k| == 32 && |t| == 8 && |q| == 8 && |v| == 32
    requires s == h + (k + (t + (q + ([r] + (v + z)))))
    ensures |s| == 95 + |z| && s[0..14] == h && s[14..46] == k && s[46..54] == t && s[54..62] == q && s[62] == r
    ensures s[63..95] == v && s[95..] == z
  {
  }

  lemma WitnessLayout(w: Revocation.Witness)
    ensures var s := Revocation.WitnessBytes(w);
            && Spells(s[0..13], "AXIOM-WITNESS") && s[13] == 0 && s[14] == 1
            && s[15..47] == w.revokedKeyId && s[47..79] == w.witnessId
            && s[79..87] == LittleEndian64(w.timestamp) && s[87] == Revocation.ReasonCode(w.reason)
  {
    var s := Revocation.WitnessBytes(w);
    assert s[0..15] == Revocation.WitnessHeader();
    assert s[0..13] == Revocation.WitnessHeader()[0..13];
  }

  /** Reasons are numbered from one in the order of their list; the last is 255. */
  lemma ReasonsInOrder(i: nat)
    requires i < 7
    ensures Revocation.ReasonCode([Revocation.KeyHolderRevoked, Revocation.KeyCompromised, Revocation.KeySuperseded,
                                   Revocation.AffiliationChanged, Revocation.CaRevoked, Revocation.ThresholdRevoked,
                                   Revocation.SecurityEvent][i]) as int == i + 1
    ensures Revocation.ReasonCode(Revocation.Unspecified) == 255
  {
  }

  /** The serialized certificate: a header of its own, then the same fields with the
      signature before what supersedes the key. */
  lemma WireLayout(c: Revocation.Certificate)
    ensures var s := Revocation.Wire(c);
            && Spells(s[0..9], "AXIOM-REV") && s[9] == 0 && s[10] == 1
            && s[11..43] == c.revokedKeyId && s[43..51] == LittleEndian64(c.timestamp)
            && s[51..59] == LittleEndian64(c.sequence) && s[59] == Revocation.ReasonCode(c.reason)
            && s[60..92] == c.revokerId && s[92..156] == c.signature
            && (c.supersededBy.None? ==> s[156..] == [0])
            && (c.supersededBy.Some? ==> s[156] == 1 && s[157..189] == c.supersededBy.value)
  {
    var s := Revocation.Wire(c);
    var tail := Revocation.SupersededBytes(c.supersededBy);
    EightParts(Revocation.WireHeader(), c.revokedKeyId, LittleEndian64(c.timestamp), LittleEndian64(c.sequence),
               Revocation.ReasonCode(c.reason), c.revokerId, c.signature, tail, s);
    assert s[0..9] == Revocation.WireHeader()[0..9] && s[9] == s[0..11][9] && s[10] == s[0..11][10];
    if c.supersededBy.Some? {
      assert s[156] == tail[0] && s[157..189] == tail[1..33];
    }
  }

  lemma EightParts(h: seq<byte>, k: seq<byte>, t: seq<byte>, q: seq<byte>, r: byte, v: seq<byte>, g: seq<byte>,
                   z: seq<byte>, s: seq<byte>)
    requires |h| == 11 && |k| == 32 && |t| == 8 && |q| == 8 && |v| == 32 && |g| == 64
    requires s == h + (k + (t + (q + ([r] + (v + (g + z))))))
    ensures |s| == 156 + |z| && s[0..11] == h && s[11..43] == k && s[43..51] == t && s[51..59] == q && s[59] == r
    ensures s[60..92] == v && s[92..156] == g && s[156..] == z
  {
  }

  /** The reader refuses exactly what is too short, for its last field included, or has
      another header. */
  lemma ReadErrors(s: seq<byte>)
    ensures Revocation.FromWire(s) == Err(Revocation.MalformedData) <==>
            |s| < 157 || (HasHeader(s) && s[156] == 1 && |s| < 189)
    ensures Revocation.FromWire(s) == Err(Revocation.InvalidHeader) <==> |s| >= 157 && !HasHeader(s)
  {
    if |s| >= 157 {
      assert s[0..11] == Revocation.WireHeader() <==> HasHeader(s) by {
        assert Spells(Revocation.WireHeader()[0..9], "AXIOM-REV");
        if HasHeader(s) {
          assert forall i :: 0 <= i < 9 ==> s[0..9][i] == s[i];
          assert s[0..11] == Revocation.WireHeader();
        }
        if s[0..11] == Revocation.WireHeader() {
          assert s[0..9] == Revocation.WireHeader()[0..9] && s[9] == s[0..11][9] && s[10] == s[0..11][10];
        }
      }
    }
  }

  predicate HasHeader(s: seq<byte>)
    requires |s| >= 157
  {
    Spells(s[0..9], "AXIOM-REV") && s[9] == 0 && s[10] == 1
  }
}
