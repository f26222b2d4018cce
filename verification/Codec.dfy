/** The frame wire format: what the encoder writes, what the decoder reads, and
    the proof that each undoes the other. */
module Codec {
  import opened Prelude
  import opened Frame

  // ---------------------------------------------------------------------
  // The bytes of each field. The packed fields occupy disjoint bits, so a
  // bitwise or of shifted fields is a sum of scaled ones.

  function PackedBytes(h: Header, hasTrace: bool, hasRouting: bool): (r: seq<byte>)
    ensures |r| == 3
  {
    var ft := FrameTypeCode(h.frameType) as int;
    [ MAGIC * 64 + h.version as int % 16 * 4 + ft / 8 % 4,
      ft % 8 * 32 + FlagsCode(h.flags) as int % 8 * 4 + TrustCode(h.trustLevel) as int % 4,
      PriorityCode(h.priority) as int % 4 * 64
        + (if hasTrace then 0x20 else 0) + (if hasRouting then 0x10 else 0) ]
  }

  function ClockBytes(c: HybridClock): (r: seq<byte>)
    ensures |r| == 7
  {
    [c.physical / 0x1_0000_0000 % 0x100] + BigEndian32(c.physical % 0x1_0000_0000) + BigEndian16(c.logical)
  }

  function FixedHeaderBytes(h: Header, hasTrace: bool, hasRouting: bool): (r: seq<byte>)
    ensures |r| == FIXED_HEADER_SIZE
  {
    PackedBytes(h, hasTrace, hasRouting) + (ClockBytes(h.clock) + (h.intentHash + h.senderId))
  }

  function TraceBytes(t: Option<TraceId>): (r: seq<byte>)
    ensures |r| == if t.Some? then 8 else 0
  {
    if t.Some? then t.value else []
  }

  function RoutingBytes(r: Option<RoutingExt>): (s: seq<byte>)
    ensures |s| == if r.Some? then 33 else 0
  {
    if r.Some? then r.value.destination + [r.value.ttl] else []
  }

  function FragmentBytes(f: Option<FragmentInfo>): (s: seq<byte>)
    ensures |s| == if f.Some? then 4 else 0
  {
    if f.Some? then BigEndian16(f.value.sequence) + BigEndian16(f.value.total) else []
  }

  function PayloadHeaderBytes(t: PayloadType, length: u32, flags: u8): (r: seq<byte>)
    ensures |r| == 4
  {
    [ PayloadTypeCode(t) as int % 16 * 16 + length / 0x10_0000 % 16,
      length / 0x1000 % 0x100,
      length / 16 % 0x100,
      length % 16 * 16 + flags % 16 ]
  }

  function AuthBytes(a: Authentication): (r: seq<byte>)
    ensures |r| == AuthSize(a)
  {
    match a
    case Signature(s) => s
    case Token(t) => t
    case NoAuth => []
  }

  function BodyBytes(f: Frame): seq<byte>
    requires |f.payload| <= MAX_PAYLOAD_SIZE
  {
    PayloadHeaderBytes(f.payloadHeader.payloadType, |f.payload|, f.payloadHeader.flags) + f.payload
  }

  /** Everything before the authentication. */
  function UnsignedBytes(f: Frame): seq<byte>
    requires |f.payload| <= MAX_PAYLOAD_SIZE
  {
    FixedHeaderBytes(f.header, f.traceId.Some?, f.routing.Some?)
    + (TraceBytes(f.traceId) + (RoutingBytes(f.routing) + (FragmentBytes(f.fragment) + BodyBytes(f))))
  }

  function Wire(f: Frame): seq<byte>
    requires |f.payload| <= MAX_PAYLOAD_SIZE
  {
    UnsignedBytes(f) + AuthBytes(f.auth)
  }

  function WireSize(f: Frame): nat {
    FIXED_HEADER_SIZE
    + (if f.traceId.Some? then 8 else 0)
    + (if f.routing.Some? then 33 else 0)
    + (if f.fragment.Some? then 4 else 0)
    + 4 + |f.payload| + AuthSize(f.auth)
  }

  // ---------------------------------------------------------------------
  // Reading each field back.

  datatype Fixed = Fixed(header: Header, hasTrace: bool, hasRouting: bool)

  function ClockOf(s: seq<byte>): (c: HybridClock)
    requires |s| == 7
    ensures c.physical < 0x100_0000_0000
  {
    HybridClock(s[0] as int * 0x1_0000_0000 + FromBigEndian32(s[1..5]), FromBigEndian16(s[5..7]))
  }

  function DecodeFixedHeader(s: seq<byte>): Result<Fixed, CodecError>
    requires |s| == FIXED_HEADER_SIZE
  {
    var b0, b1, b2 := s[0], s[1], s[2];
    if b0 / 64 != MAGIC then Err(InvalidMagic)
    else if b0 / 4 % 16 != PROTOCOL_VERSION then Err(UnsupportedVersion(b0 / 4 % 16))
    else
      Ok(Fixed(
        Header(b0 / 4 % 16,
               FrameTypeOf(b0 % 4 * 8 + b1 / 32 % 8),
               FlagsOf(b1 / 4 % 8),
               TrustOf(b1 % 4),
               PriorityOf(b2 / 64),
               ClockOf(s[3..10]),
               s[10..26],
               s[26..58]),
        b2 / 32 % 2 != 0,
        b2 / 16 % 2 != 0))
  }

  function DecodePayloadHeader(s: seq<byte>): PayloadHeader
    requires |s| == 4
  {
    PayloadHeader(
      PayloadTypeOf(s[0] / 16),
      s[0] as int % 16 * 0x10_0000 + s[1] as int * 0x1000 + s[2] as int * 16 + s[3] as int / 16,
      s[3] % 16)
  }

  /** A field read off the front of a byte string, and what follows it. */
  datatype Taken<+T> = Taken(value: T, rest: seq<byte>)

  function TakeTrace(present: bool, s: seq<byte>): Result<Taken<Option<TraceId>>, CodecError> {
    if !present then Ok(Taken(None, s))
    else if |s| < 8 then Err(TruncatedFrame)
    else Ok(Taken(Some(s[..8]), s[8..]))
  }

  function TakeRouting(present: bool, s: seq<byte>): Result<Taken<Option<RoutingExt>>, CodecError> {
    if !present then Ok(Taken(None, s))
    else if |s| < 33 then Err(TruncatedFrame)
    else Ok(Taken(Some(RoutingExt(s[..32], s[32])), s[33..]))
  }

  function TakeFragment(present: bool, s: seq<byte>): Result<Taken<Option<FragmentInfo>>, CodecError> {
    if !present then Ok(Taken(None, s))
    else if |s| < 4 then Err(TruncatedFrame)
    else Ok(Taken(Some(FragmentInfo(FromBigEndian16(s[..2]), FromBigEndian16(s[2..4]))), s[4..]))
  }

  function DecodeAuth(t: TrustLevel, s: seq<byte>): (a: Authentication)
    requires |s| == AuthOverhead(t)
    ensures AuthMatches(t, a) && AuthBytes(a) == s
  {
    match t
    case Full => Signature(s)
    case Sig => Signature(s)
    case Compressed => Token(s)
    case Raw => NoAuth
  }

  datatype Body = Body(payloadHeader: PayloadHeader, payload: seq<byte>, auth: Authentication)

  /** Payload header, payload and authentication. */
  function DecodeBody(t: TrustLevel, s: seq<byte>): Result<Body, CodecError> {
    if |s| < 4 then Err(TruncatedFrame)
    else
      var ph := DecodePayloadHeader(s[..4]);
      var end := 4 + ph.length;
      if ph.length > MAX_PAYLOAD_SIZE then Err(PayloadTooLarge(ph.length))
      else if |s| < end + AuthOverhead(t) then Err(TruncatedFrame)
      else Ok(Body(ph, s[4..end], DecodeAuth(t, s[end..end + AuthOverhead(t)])))
  }

  datatype Extensions = Extensions(
    traceId: Option<TraceId>,
    routing: Option<RoutingExt>,
    fragment: Option<FragmentInfo>)

  function TakeExtensions(fixed: Fixed, s: seq<byte>): Result<Taken<Extensions>, CodecError> {
    var a := TakeTrace(fixed.hasTrace, s);
    if a.Err? then Err(a.error)
    else
      var b := TakeRouting(fixed.hasRouting, a.value.rest);
      if b.Err? then Err(b.error)
      else
        var c := TakeFragment(fixed.header.flags.fragmented, b.value.rest);
        if c.Err? then Err(c.error)
        else Ok(Taken(Extensions(a.value.value, b.value.value, c.value.value), c.value.rest))
  }

  function Assemble(h: Header, e: Extensions, b: Body): Frame {
    Frame(h, e.traceId, e.routing, e.fragment, b.payloadHeader, b.payload, b.auth)
  }

  function DecodeFrame(s: seq<byte>): Result<Frame, CodecError> {
    if |s| < MIN_FRAME_SIZE then Err(BufferTooSmall(MIN_FRAME_SIZE, |s|))
    else
      var fixed := DecodeFixedHeader(s[..FIXED_HEADER_SIZE]);
      if fixed.Err? then Err(fixed.error)
      else
        var ext := TakeExtensions(fixed.value, s[FIXED_HEADER_SIZE..]);
        if ext.Err? then Err(ext.error)
        else
          var body := DecodeBody(fixed.value.header.trustLevel, ext.value.rest);
          if body.Err? then Err(body.error)
          else Ok(Assemble(fixed.value.header, ext.value.value, body.value))
  }

  // ---------------------------------------------------------------------
  // Field by field, decoding undoes encoding.

  lemma PackedByte0(version: nat, code: nat)
    requires version < 16 && code < 32
    ensures var b := MAGIC * 64 + version % 16 * 4 + code / 8 % 4;
            b / 64 == MAGIC && b / 4 % 16 == version && b % 4 == code / 8
  {
  }

  lemma PackedByte1(code: nat, flags: nat, trust: nat)
    requires flags < 8 && trust < 4
    ensures var b := code % 8 * 32 + flags % 8 * 4 + trust % 4;
            b / 32 % 8 == code % 8 && b / 4 % 8 == flags && b % 4 == trust
  {
  }

  lemma PackedByte2(priority: nat, hasTrace: bool, hasRouting: bool)
    requires priority < 4
    ensures var b := priority % 4 * 64 + (if hasTrace then 0x20 else 0) + (if hasRouting then 0x10 else 0);
            b / 64 == priority && (b / 32 % 2 != 0) == hasTrace && (b / 16 % 2 != 0) == hasRouting
  {
  }

  lemma VersionAndTypeRoundTrip(h: Header, hasTrace: bool, hasRouting: bool)
    requires WellFormedHeader(h)
    ensures var p := PackedBytes(h, hasTrace, hasRouting);
            && p[0] / 64 == MAGIC
            && p[0] / 4 % 16 == h.version
            && FrameTypeOf(p[0] % 4 * 8 + p[1] / 32 % 8) == h.frameType
  {
    var code := FrameTypeCode(h.frameType);
    FrameTypeInverse(h.frameType);
    PackedByte0(h.version, code);
    PackedByte1(code, FlagsCode(h.flags), TrustCode(h.trustLevel));
    assert code / 8 * 8 + code % 8 == code;
  }

  lemma FlagsAndTrustRoundTrip(h: Header, hasTrace: bool, hasRouting: bool)
    ensures var p := PackedBytes(h, hasTrace, hasRouting);
            && FlagsOf(p[1] / 4 % 8) == h.flags
            && TrustOf(p[1] % 4) == h.trustLevel
            && PriorityOf(p[2] / 64) == h.priority
            && (p[2] / 32 % 2 != 0) == hasTrace
            && (p[2] / 16 % 2 != 0) == hasRouting
  {
    FlagsInverse(h.flags);
    PackedByte1(FrameTypeCode(h.frameType), FlagsCode(h.flags), TrustCode(h.trustLevel));
    PackedByte2(PriorityCode(h.priority), hasTrace, hasRouting);
  }

  lemma ClockRoundTrip(c: HybridClock)
    requires c.physical < 0x100_0000_0000
    ensures ClockOf(ClockBytes(c)) == c
  {
    var s := ClockBytes(c);
    assert s[1..5] == BigEndian32(c.physical % 0x1_0000_0000);
    assert s[5..7] == BigEndian16(c.logical);
  }

  lemma FixedRoundTrip(h: Header, hasTrace: bool, hasRouting: bool)
    requires WellFormedHeader(h)
    ensures DecodeFixedHeader(FixedHeaderBytes(h, hasTrace, hasRouting)) == Ok(Fixed(h, hasTrace, hasRouting))
  {
    var s := FixedHeaderBytes(h, hasTrace, hasRouting);
    VersionAndTypeRoundTrip(h, hasTrace, hasRouting);
    FlagsAndTrustRoundTrip(h, hasTrace, hasRouting);
    ClockRoundTrip(h.clock);
    assert s[..3] == PackedBytes(h, hasTrace, hasRouting);
    assert s[3..10] == ClockBytes(h.clock);
    assert s[10..26] == h.intentHash && s[26..58] == h.senderId;
  }

  lemma PayloadHeaderRoundTrip(ph: PayloadHeader)
    requires CanonicalPayloadType(ph.payloadType) && ph.flags < 16 && ph.length <= MAX_PAYLOAD_SIZE
    ensures DecodePayloadHeader(PayloadHeaderBytes(ph.payloadType, ph.length, ph.flags)) == ph
  {
    var code := PayloadTypeCode(ph.payloadType);
    var s := PayloadHeaderBytes(ph.payloadType, ph.length, ph.flags);
    PayloadTypeInverse(ph.payloadType);
    assert s[0] / 16 == code && s[0] % 16 == ph.length / 0x10_0000 % 16 by {
      Nibbles(code, ph.length / 0x10_0000 % 16);
    }
    assert s[3] / 16 == ph.length % 16 && s[3] % 16 == ph.flags by {
      Nibbles(ph.length % 16, ph.flags);
    }
    LengthDigits(ph.length);
  }

  lemma Nibbles(high: nat, low: nat)
    requires high < 16 && low < 16
    ensures (high * 16 + low) / 16 == high && (high * 16 + low) % 16 == low
  {
  }

  lemma LengthDigits(n: nat)
    requires n <= MAX_PAYLOAD_SIZE
    ensures n / 0x10_0000 % 16 * 0x10_0000 + n / 0x1000 % 0x100 * 0x1000 + n / 16 % 0x100 * 16 + n % 16 == n
  {
    var a := n / 16;
    var b := a / 0x100;
    assert b == n / 0x1000;
    assert b / 0x100 == n / 0x10_0000;
  }

  lemma TraceRoundTrip(x: Option<TraceId>, rest: seq<byte>)
    ensures TakeTrace(x.Some?, TraceBytes(x) + rest) == Ok(Taken(x, rest))
  {
    SplitAt(TraceBytes(x), rest);
  }

  lemma RoutingRoundTrip(x: Option<RoutingExt>, rest: seq<byte>)
    ensures TakeRouting(x.Some?, RoutingBytes(x) + rest) == Ok(Taken(x, rest))
  {
    SplitAt(RoutingBytes(x), rest);
    if x.Some? {
      var s := RoutingBytes(x) + rest;
      assert s[..32] == x.value.destination && s[32] == x.value.ttl;
    }
  }

  lemma FragmentRoundTrip(x: Option<FragmentInfo>, rest: seq<byte>)
    ensures TakeFragment(x.Some?, FragmentBytes(x) + rest) == Ok(Taken(x, rest))
  {
    SplitAt(FragmentBytes(x), rest);
    if x.Some? {
      var s := FragmentBytes(x) + rest;
      assert s[..2] == BigEndian16(x.value.sequence) && s[2..4] == BigEndian16(x.value.total);
    }
  }

  function ExtensionBytes(e: Extensions): seq<byte> {
    TraceBytes(e.traceId) + (RoutingBytes(e.routing) + FragmentBytes(e.fragment))
  }

  lemma ExtensionsRoundTrip(e: Extensions, h: Header, rest: seq<byte>)
    requires h.flags.fragmented == e.fragment.Some?
    ensures TakeExtensions(Fixed(h, e.traceId.Some?, e.routing.Some?), ExtensionBytes(e) + rest)
         == Ok(Taken(e, rest))
  {
    var a, b, c := TraceBytes(e.traceId), RoutingBytes(e.routing), FragmentBytes(e.fragment);
    assert ExtensionBytes(e) + rest == a + (b + (c + rest));
    TraceRoundTrip(e.traceId, b + (c + rest));
    RoutingRoundTrip(e.routing, c + rest);
    FragmentRoundTrip(e.fragment, rest);
  }

  lemma AuthRoundTrip(t: TrustLevel, a: Authentication)
    requires AuthMatches(t, a)
    ensures AuthSize(a) == AuthOverhead(t) && DecodeAuth(t, AuthBytes(a)) == a
  {
  }

  predicate WellFormedBody(t: TrustLevel, b: Body) {
    && CanonicalPayloadType(b.payloadHeader.payloadType)
    && b.payloadHeader.flags < 16
    && b.payloadHeader.length == |b.payload| <= MAX_PAYLOAD_SIZE
    && AuthMatches(t, b.auth)
  }

  function BodyWire(b: Body): seq<byte>
    requires |b.payload| <= MAX_PAYLOAD_SIZE
  {
    PayloadHeaderBytes(b.payloadHeader.payloadType, |b.payload|, b.payloadHeader.flags)
    + (b.payload + AuthBytes(b.auth))
  }

  lemma BodyRoundTrip(t: TrustLevel, b: Body, rest: seq<byte>)
    requires WellFormedBody(t, b)
    ensures DecodeBody(t, BodyWire(b) + rest) == Ok(b)
  {
    var p := PayloadHeaderBytes(b.payloadHeader.payloadType, |b.payload|, b.payloadHeader.flags);
    var a := AuthBytes(b.auth);
    var s := BodyWire(b) + rest;
    var end := 4 + |b.payload|;
    AuthRoundTrip(t, b.auth);
    PayloadHeaderRoundTrip(b.payloadHeader);
    Slices(p, b.payload, a, rest);
  }

  lemma Slices(p: seq<byte>, x: seq<byte>, a: seq<byte>, rest: seq<byte>)
    ensures var s := (p + (x + a)) + rest;
            s[..|p|] == p && s[|p|..|p| + |x|] == x && s[|p| + |x|..|p| + |x| + |a|] == a
  {
  }

  function ExtensionsOf(f: Frame): Extensions {
    Extensions(f.traceId, f.routing, f.fragment)
  }

  function BodyOf(f: Frame): Body {
    Body(f.payloadHeader, f.payload, f.auth)
  }

  lemma WireLayout(f: Frame)
    requires |f.payload| <= MAX_PAYLOAD_SIZE
    ensures Wire(f) == FixedHeaderBytes(f.header, f.traceId.Some?, f.routing.Some?)
                       + (ExtensionBytes(ExtensionsOf(f)) + BodyWire(BodyOf(f)))
    ensures |Wire(f)| == WireSize(f)
  {
  }

  /** Every well-formed frame, followed by anything, decodes to itself. */
  lemma DecodeWire(f: Frame, rest: seq<byte>)
    requires WellFormed(f)
    ensures DecodeFrame(Wire(f) + rest) == Ok(f)
  {
    var h := FixedHeaderBytes(f.header, f.traceId.Some?, f.routing.Some?);
    var e, b := ExtensionBytes(ExtensionsOf(f)), BodyWire(BodyOf(f));
    WireLayout(f);
    assert Wire(f) + rest == h + (e + (b + rest));
    SplitAt(h, e + (b + rest));
    FixedRoundTrip(f.header, f.traceId.Some?, f.routing.Some?);
    ExtensionsRoundTrip(ExtensionsOf(f), f.header, b + rest);
    BodyRoundTrip(f.header.trustLevel, BodyOf(f), rest);
  }

  // ---------------------------------------------------------------------
  // Every accepted buffer is an encoding, up to the four reserved bits.

  function ClearReserved(s: seq<byte>): seq<byte>
    requires |s| >= 3
  {
    s[2 := s[2] / 16 * 16]
  }

  lemma UnpackedByte0(b0: nat, b1: nat)
    requires b0 < 0x100 && b1 < 0x100 && b0 / 64 == MAGIC && b0 / 4 % 16 == PROTOCOL_VERSION
    ensures var code := b0 % 4 * 8 + b1 / 32 % 8;
            code / 8 % 4 == b0 % 4 && code % 8 == b1 / 32 && b0 == MAGIC * 64 + PROTOCOL_VERSION * 4 + b0 % 4
  {
  }

  lemma UnpackedByte1(b: nat)
    requires b < 0x100
    ensures b == b / 32 * 32 + b / 4 % 8 * 4 + b % 4
  {
  }

  lemma UnpackedByte2(b: nat)
    requires b < 0x100
    ensures b / 16 * 16 == b / 64 * 64 + b / 32 % 2 * 32 + b / 16 % 2 * 16
  {
  }

  lemma VersionAndTypeCanonical(s: seq<byte>)
    requires |s| == FIXED_HEADER_SIZE && DecodeFixedHeader(s).Ok?
    ensures var x := DecodeFixedHeader(s).value;
            && PackedBytes(x.header, x.hasTrace, x.hasRouting)[0] == s[0]
            && FrameTypeCode(x.header.frameType) % 8 == s[1] / 32
  {
    UnpackedByte0(s[0], s[1]);
  }

  lemma TypeBits(s: seq<byte>)
    requires |s| == FIXED_HEADER_SIZE && DecodeFixedHeader(s).Ok?
    ensures FrameTypeCode(DecodeFixedHeader(s).value.header.frameType) as int % 8 == s[1] as int / 32
  {
    VersionAndTypeCanonical(s);
  }

  lemma FlagBits(s: seq<byte>)
    requires |s| == FIXED_HEADER_SIZE && DecodeFixedHeader(s).Ok?
    ensures FlagsCode(DecodeFixedHeader(s).value.header.flags) as int % 8 == s[1] as int / 4 % 8
    ensures TrustCode(DecodeFixedHeader(s).value.header.trustLevel) as int % 4 == s[1] as int % 4
  {
    FlagsCodeInverse(s[1] / 4 % 8);
  }

  lemma FlagsAndTrustCanonical(s: seq<byte>)
    requires |s| == FIXED_HEADER_SIZE && DecodeFixedHeader(s).Ok?
    ensures var x := DecodeFixedHeader(s).value;
            PackedBytes(x.header, x.hasTrace, x.hasRouting)[1] == s[1]
  {
    TypeBits(s);
    FlagBits(s);
    UnpackedByte1(s[1]);
  }

  lemma PriorityCanonical(s: seq<byte>)
    requires |s| == FIXED_HEADER_SIZE && DecodeFixedHeader(s).Ok?
    ensures var x := DecodeFixedHeader(s).value;
            PackedBytes(x.header, x.hasTrace, x.hasRouting)[2] == s[2] / 16 * 16
  {
    assert PriorityCode(DecodeFixedHeader(s).value.header.priority) == s[2] / 64;
    UnpackedByte2(s[2]);
  }

  lemma Rejoin16(s: seq<byte>)
    requires |s| == 2
    ensures BigEndian16(FromBigEndian16(s)) == s
  {
  }

  lemma Halves(high: u16, low: u16)
    ensures (high as int * 0x1_0000 + low as int) / 0x1_0000 == high
    ensures (high as int * 0x1_0000 + low as int) % 0x1_0000 == low
  {
  }

  lemma Rejoin32(s: seq<byte>)
    requires |s| == 4
    ensures BigEndian32(FromBigEndian32(s)) == s
  {
    Rejoin16(s[..2]);
    Rejoin16(s[2..]);
    Halves(FromBigEndian16(s[..2]), FromBigEndian16(s[2..]));
    assert s[..2] + s[2..] == s;
  }

  lemma ClockCanonical(s: seq<byte>)
    requires |s| == 7
    ensures ClockBytes(ClockOf(s)) == s
  {
    Rejoin32(s[1..5]);
    Rejoin16(s[5..7]);
    var n := FromBigEndian32(s[1..5]);
    var p := s[0] as int * 0x1_0000_0000 + n;
    assert p / 0x1_0000_0000 == s[0] && p % 0x1_0000_0000 == n;
  }

  lemma FixedCanonical(s: seq<byte>)
    requires |s| == FIXED_HEADER_SIZE && DecodeFixedHeader(s).Ok?
    ensures var x := DecodeFixedHeader(s).value;
            && WellFormedHeader(x.header)
            && FixedHeaderBytes(x.header, x.hasTrace, x.hasRouting) == ClearReserved(s)
  {
    var x := DecodeFixedHeader(s).value;
    VersionAndTypeCanonical(s);
    FlagsAndTrustCanonical(s);
    PriorityCanonical(s);
    ClockCanonical(s[3..10]);
    assert PackedBytes(x.header, x.hasTrace, x.hasRouting) == ClearReserved(s)[..3];
    assert ClearReserved(s) == ClearReserved(s)[..3] + (s[3..10] + (s[10..26] + s[26..58]));
  }

  lemma TraceCanonical(present: bool, s: seq<byte>)
    requires TakeTrace(present, s).Ok?
    ensures var x := TakeTrace(present, s).value;
            x.value.Some? == present && s == TraceBytes(x.value) + x.rest
  {
  }

  lemma RoutingCanonical(present: bool, s: seq<byte>)
    requires TakeRouting(present, s).Ok?
    ensures var x := TakeRouting(present, s).value;
            x.value.Some? == present && s == RoutingBytes(x.value) + x.rest
  {
  }

  lemma FragmentCanonical(present: bool, s: seq<byte>)
    requires TakeFragment(present, s).Ok?
    ensures var x := TakeFragment(present, s).value;
            x.value.Some? == present && s == FragmentBytes(x.value) + x.rest
  {
    if present {
      Rejoin16(s[..2]);
      Rejoin16(s[2..4]);
    }
  }

  lemma Reassociate(a: seq<byte>, b: seq<byte>, c: seq<byte>, d: seq<byte>)
    ensures a + (b + (c + d)) == (a + (b + c)) + d
  {
  }

  lemma ExtensionsCanonical(fixed: Fixed, s: seq<byte>)
    requires TakeExtensions(fixed, s).Ok?
    ensures var x := TakeExtensions(fixed, s).value;
            && s == ExtensionBytes(x.value) + x.rest
            && x.value.traceId.Some? == fixed.hasTrace
            && x.value.routing.Some? == fixed.hasRouting
            && x.value.fragment.Some? == fixed.header.flags.fragmented
  {
    var a := TakeTrace(fixed.hasTrace, s).value;
    var b := TakeRouting(fixed.hasRouting, a.rest).value;
    var c := TakeFragment(fixed.header.flags.fragmented, b.rest).value;
    TraceCanonical(fixed.hasTrace, s);
    RoutingCanonical(fixed.hasRouting, a.rest);
    FragmentCanonical(fixed.header.flags.fragmented, b.rest);
    Reassociate(TraceBytes(a.value), RoutingBytes(b.value), FragmentBytes(c.value), c.rest);
  }

  lemma BodyCanonical(t: TrustLevel, s: seq<byte>)
    requires DecodeBody(t, s).Ok?
    ensures WellFormedBody(t, DecodeBody(t, s).value)
    ensures BodyWire(DecodeBody(t, s).value) <= s
  {
    var b := DecodeBody(t, s).value;
    PayloadHeaderWellFormed(s[..4]);
    PayloadHeaderCanonical(s[..4]);
    var end := 4 + b.payloadHeader.length;
    var stop := end + AuthOverhead(t);
    assert s[..stop] == s[..4] + (s[4..end] + s[end..stop]);
  }

  lemma PayloadHeaderWellFormed(s: seq<byte>)
    requires |s| == 4
    ensures var ph := DecodePayloadHeader(s);
            CanonicalPayloadType(ph.payloadType) && ph.flags < 16 && ph.length <= MAX_PAYLOAD_SIZE
  {
  }

  lemma PayloadHeaderCanonical(s: seq<byte>)
    requires |s| == 4
    ensures var ph := DecodePayloadHeader(s);
            PayloadHeaderBytes(ph.payloadType, ph.length, ph.flags) == s
  {
    var code, high, low, flags := s[0] as int / 16, s[0] as int % 16, s[3] as int / 16, s[3] as int % 16;
    DigitsOfLength(high, s[1], s[2], low);
    assert PayloadTypeCode(PayloadTypeOf(code)) % 16 == code;
    assert code * 16 + high == s[0];
    assert low * 16 + flags == s[3];
  }

  lemma DigitsOfLength(a: nat, b: nat, c: nat, d: nat)
    requires a < 16 && b < 0x100 && c < 0x100 && d < 16
    ensures var n := a * 0x10_0000 + b * 0x1000 + c * 16 + d;
            n / 0x10_0000 % 16 == a && n / 0x1000 % 0x100 == b && n / 16 % 0x100 == c && n % 16 == d
  {
    var n := a * 0x10_0000 + b * 0x1000 + c * 16 + d;
    assert n / 16 == a * 0x1_0000 + b * 0x100 + c;
    assert n / 0x1000 == a * 0x100 + b;
    assert n / 0x10_0000 == a;
  }

  lemma DecodedIsWellFormed(s: seq<byte>)
    requires DecodeFrame(s).Ok?
    ensures WellFormed(DecodeFrame(s).value)
  {
    var fixed := DecodeFixedHeader(s[..FIXED_HEADER_SIZE]).value;
    FixedCanonical(s[..FIXED_HEADER_SIZE]);
    ExtensionsCanonical(fixed, s[FIXED_HEADER_SIZE..]);
    BodyCanonical(fixed.header.trustLevel, TakeExtensions(fixed, s[FIXED_HEADER_SIZE..]).value.rest);
  }

  lemma PrefixThrough(a: seq<byte>, b: seq<byte>, c: seq<byte>, d: seq<byte>)
    requires c <= d
    ensures a + (b + c) <= a + (b + d)
  {
  }

  lemma ClearReservedSplit(s: seq<byte>)
    requires |s| >= FIXED_HEADER_SIZE
    ensures ClearReserved(s) == ClearReserved(s[..FIXED_HEADER_SIZE]) + s[FIXED_HEADER_SIZE..]
  {
  }

  /** An accepted buffer starts with the encoding of the frame it decodes to,
      apart from the four reserved bits of its third byte, which are ignored;
      and that frame is well formed. */
  lemma DecodedIsWire(s: seq<byte>)
    requires DecodeFrame(s).Ok?
    ensures WellFormed(DecodeFrame(s).value)
    ensures Wire(DecodeFrame(s).value) <= ClearReserved(s)
  {
    var f := DecodeFrame(s).value;
    var first, rest := s[..FIXED_HEADER_SIZE], s[FIXED_HEADER_SIZE..];
    DecodedIsWellFormed(s);
    FixedCanonical(first);
    var fixed := DecodeFixedHeader(first).value;
    ExtensionsCanonical(fixed, rest);
    var ext := TakeExtensions(fixed, rest).value;
    BodyCanonical(fixed.header.trustLevel, ext.rest);
    WireLayout(f);
    ClearReservedSplit(s);
    PrefixThrough(ClearReserved(first), ExtensionBytes(ext.value), BodyWire(BodyOf(f)), ext.rest);
  }

  /** A frame survives encoding and decoding exactly when it is well formed. */
  lemma RoundTripIffWellFormed(f: Frame)
    requires |f.payload| <= MAX_PAYLOAD_SIZE
    ensures DecodeFrame(Wire(f)) == Ok(f) <==> WellFormed(f)
  {
    if WellFormed(f) {
      DecodeWire(f, []);
      assert Wire(f) + [] == Wire(f);
    } else if DecodeFrame(Wire(f)) == Ok(f) {
      DecodedIsWire(Wire(f));
    }
  }

  // ---------------------------------------------------------------------
  // The bytes that are signed.

  /** A frame as it is signed: a relay may lower the TTL, so the TTL is zeroed. */
  function Canonical(f: Frame): Frame {
    if f.routing.Some? then f.(routing := Some(f.routing.value.(ttl := 0))) else f
  }

  /** Encoding an oversized frame fails, and the failure is ignored: what is
      signed then is the zeroed buffer. */
  function SignatureBytes(f: Frame): seq<byte> {
    if |f.payload| <= MAX_PAYLOAD_SIZE then UnsignedBytes(Canonical(f))
    else Repeat(WireSize(f) - AuthSize(f.auth), 0)
  }

  /** `f` and `g` differ at most in their TTL and their authentication. */
  predicate SameSigned(f: Frame, g: Frame) {
    && f.header == g.header
    && f.traceId == g.traceId
    && f.routing.Some? == g.routing.Some?
    && (f.routing.Some? ==> f.routing.value.destination == g.routing.value.destination)
    && f.fragment == g.fragment
    && f.payloadHeader == g.payloadHeader
    && f.payload == g.payload
  }

  function BlankAuth(t: TrustLevel): (a: Authentication)
    ensures AuthMatches(t, a) && AuthBytes(a) == Repeat(AuthOverhead(t), 0)
  {
    match t
    case Full => Signature(Repeat(AuthOverhead(t), 0))
    case Sig => Signature(Repeat(AuthOverhead(t), 0))
    case Compressed => Token(Repeat(AuthOverhead(t), 0))
    case Raw => NoAuth
  }

  lemma ZerosSplit(s: seq<byte>, m: nat, n: nat)
    requires m <= n
    ensures s + Repeat<byte>(n, 0) == (s + Repeat<byte>(m, 0)) + Repeat<byte>(n - m, 0)
  {
    assert Repeat<byte>(n, 0) == Repeat<byte>(m, 0) + Repeat<byte>(n - m, 0);
  }

  /** The canonical frame with a blank authentication. */
  function Blanked(f: Frame): Frame {
    Canonical(f).(auth := BlankAuth(f.header.trustLevel))
  }

  lemma BlankedWire(f: Frame)
    requires WellFormed(f)
    ensures WellFormed(Blanked(f))
    ensures Wire(Blanked(f)) == SignatureBytes(f) + Repeat<byte>(AuthOverhead(f.header.trustLevel), 0)
  {
    assert UnsignedBytes(Blanked(f)) == UnsignedBytes(Canonical(f));
  }

  /** Signed bytes followed by enough zeros decode to the blanked frame, so they determine it. */
  lemma DecodeSignatureBytes(f: Frame, zeros: nat)
    requires WellFormed(f) && zeros >= AuthOverhead(f.header.trustLevel)
    ensures DecodeFrame(SignatureBytes(f) + Repeat(zeros, 0)) == Ok(Blanked(f))
  {
    var n := AuthOverhead(f.header.trustLevel);
    BlankedWire(f);
    DecodeWire(Blanked(f), Repeat(zeros - n, 0));
    ZerosSplit(SignatureBytes(f), n, zeros);
  }

  lemma SignatureIgnores(f: Frame, g: Frame)
    requires SameSigned(f, g)
    ensures SignatureBytes(f) == SignatureBytes(g)
  {
    assert Canonical(f).(auth := g.auth) == Canonical(g);
  }

  /** A signature covers everything but the TTL and the authentication. */
  lemma SignatureCovers(f: Frame, g: Frame)
    requires WellFormed(f) && WellFormed(g)
    ensures SignatureBytes(f) == SignatureBytes(g) <==> SameSigned(f, g)
  {
    if SignatureBytes(f) == SignatureBytes(g) {
      var zeros := AuthOverhead(f.header.trustLevel) + AuthOverhead(g.header.trustLevel);
      DecodeSignatureBytes(f, zeros);
      DecodeSignatureBytes(g, zeros);
      assert Blanked(f) == Blanked(g);
    }
    if SameSigned(f, g) {
      SignatureIgnores(f, g);
    }
  }

  /** Beyond the size limit a signature covers only the length. */
  lemma OversizedSignatureCoversOnlyLength(f: Frame, g: Frame)
    requires |f.payload| > MAX_PAYLOAD_SIZE && |g.payload| > MAX_PAYLOAD_SIZE
    ensures SignatureBytes(f) == SignatureBytes(g)
       <==> WireSize(f) - AuthSize(f.auth) == WireSize(g) - AuthSize(g.auth)
  {
    assert |SignatureBytes(f)| == WireSize(f) - AuthSize(f.auth);
    assert |SignatureBytes(g)| == WireSize(g) - AuthSize(g.auth);
  }

  // ---------------------------------------------------------------------
  // The other two readers.

  function DecodeHeader(s: seq<byte>): Result<Header, CodecError> {
    if |s| < FIXED_HEADER_SIZE then Err(BufferTooSmall(FIXED_HEADER_SIZE, |s|))
    else
      var fixed := DecodeFixedHeader(s[..FIXED_HEADER_SIZE]);
      if fixed.Err? then Err(fixed.error) else Ok(fixed.value.header)
  }

  /** Where the payload header starts. */
  function PayloadHeaderOffset(fixed: Fixed): nat {
    FIXED_HEADER_SIZE
    + (if fixed.hasTrace then 8 else 0)
    + (if fixed.hasRouting then 33 else 0)
    + (if fixed.header.flags.fragmented then 4 else 0)
  }

  function PayloadSlice(s: seq<byte>): Result<seq<byte>, CodecError> {
    if |s| < MIN_FRAME_SIZE then Err(BufferTooSmall(MIN_FRAME_SIZE, |s|))
    else
      var fixed := DecodeFixedHeader(s[..FIXED_HEADER_SIZE]);
      if fixed.Err? then Err(fixed.error)
      else
        var start := PayloadHeaderOffset(fixed.value);
        if |s| < start + 4 then Err(TruncatedFrame)
        else
          var end := start + 4 + DecodePayloadHeader(s[start..start + 4]).length;
          if |s| < end then Err(TruncatedFrame) else Ok(s[start + 4..end])
  }

  lemma DecodeHeaderAgrees(s: seq<byte>)
    requires DecodeFrame(s).Ok?
    ensures DecodeHeader(s) == Ok(DecodeFrame(s).value.header)
  {
  }

  /** Taking the extensions is skipping to the payload header, and fails only
      where skipping runs off the buffer. */
  lemma TakeIsSkip(fixed: Fixed, s: seq<byte>)
    requires |s| >= FIXED_HEADER_SIZE
    ensures var x := TakeExtensions(fixed, s[FIXED_HEADER_SIZE..]);
            && (x.Ok? <==> PayloadHeaderOffset(fixed) <= |s|)
            && (x.Ok? ==> x.value.rest == s[PayloadHeaderOffset(fixed)..])
            && (x.Err? ==> x.error == TruncatedFrame)
  {
  }

  /** Which error a buffer gets: first for its length, then, from the first byte, for the
      two bits of magic and the four of version. */
  lemma DecodeErrors(s: seq<byte>)
    ensures |s| < 62 ==> DecodeFrame(s) == Err(BufferTooSmall(62, |s|))
    ensures |s| >= 62 && !(128 <= s[0] < 192) ==> DecodeFrame(s) == Err(InvalidMagic)
    ensures |s| >= 62 && 128 <= s[0] < 192 && s[0] as int / 4 % 16 != 1 ==>
              DecodeFrame(s) == Err(UnsupportedVersion(s[0] as int / 4 % 16))
    ensures |s| >= 62 && 128 <= s[0] < 192 && s[0] as int / 4 % 16 == 1 ==>
              DecodeFrame(s).Ok? || DecodeFrame(s) == Err(TruncatedFrame)
  {
    if |s| >= 62 {
      assert s[..FIXED_HEADER_SIZE][0] == s[0];
      assert 128 <= s[0] < 192 <==> s[0] / 64 == 2;
    }
  }

  /** The header reader needs the 58 bytes of a header only, with magic and version as above. */
  lemma HeaderErrors(s: seq<byte>)
    ensures |s| < 58 ==> DecodeHeader(s) == Err(BufferTooSmall(58, |s|))
    ensures |s| >= 58 && !(128 <= s[0] < 192) ==> DecodeHeader(s) == Err(InvalidMagic)
    ensures |s| >= 58 && 128 <= s[0] < 192 && s[0] as int / 4 % 16 != 1 ==>
              DecodeHeader(s) == Err(UnsupportedVersion(s[0] as int / 4 % 16))
    ensures |s| >= 58 && 128 <= s[0] < 192 && s[0] as int / 4 % 16 == 1 ==>
              DecodeHeader(s).Ok? && DecodeHeader(s).value.senderId == s[26..58]
  {
    if |s| >= 58 {
      assert s[..FIXED_HEADER_SIZE][0] == s[0] && s[..FIXED_HEADER_SIZE][26..58] == s[26..58];
      assert 128 <= s[0] < 192 <==> s[0] / 64 == 2;
    }
  }

  /** The zero-copy reader returns the decoder's payload whenever the decoder
      succeeds; otherwise it fails like the decoder, except that it does not notice
      an authentication that is cut off after the payload. */
  lemma PayloadSliceAgrees(s: seq<byte>)
    ensures match DecodeFrame(s)
            case Ok(f) => PayloadSlice(s) == Ok(f.payload)
            case Err(e) =>
              || PayloadSlice(s) == Err(e)
              || (&& e == TruncatedFrame
                  && PayloadSlice(s).Ok?
                  && var fixed := DecodeFixedHeader(s[..FIXED_HEADER_SIZE]).value;
                     |s| < PayloadHeaderOffset(fixed) + 4 + |PayloadSlice(s).value|
                           + AuthOverhead(fixed.header.trustLevel))
  {
    if |s| >= MIN_FRAME_SIZE && DecodeFixedHeader(s[..FIXED_HEADER_SIZE]).Ok? {
      var fixed := DecodeFixedHeader(s[..FIXED_HEADER_SIZE]).value;
      var start := PayloadHeaderOffset(fixed);
      TakeIsSkip(fixed, s);
      if start + 4 <= |s| {
        BodyOfSlice(fixed.header.trustLevel, s, start);
      }
    }
  }

  lemma BodyOfSlice(t: TrustLevel, s: seq<byte>, start: nat)
    requires start + 4 <= |s|
    ensures var length := DecodePayloadHeader(s[start..start + 4]).length;
            var b := DecodeBody(t, s[start..]);
            && (b.Ok? <==> start + 4 + length + AuthOverhead(t) <= |s|)
            && (b.Ok? ==> b.value.payload == s[start + 4..start + 4 + length])
            && (b.Err? ==> b.error == TruncatedFrame)
  {
    assert s[start..][..4] == s[start..start + 4];
    PayloadHeaderWellFormed(s[start..start + 4]);
  }
}
