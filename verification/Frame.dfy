/** AXIOM frames and the numeric codes of their fields. */
module Frame {
  import opened Prelude

  const PROTOCOL_VERSION: nat := 1
  const MAGIC: nat := 2
  const MAX_PAYLOAD_SIZE: nat := 0xFF_FFFF
  const FIXED_HEADER_SIZE: nat := 58
  const MIN_FRAME_SIZE: nat := 62

  type TraceId = s: seq<byte> | |s| == 8 witness [0, 0, 0, 0, 0, 0, 0, 0]
  type Bytes16 = s: seq<byte> | |s| == 16 witness seq(16, _ => 0)

  datatype FrameType =
    | Intent | Fulfill | Stream | Sync | Trust | Route | Compress | Bridge | Announce
    | Flow | Error | Fragment | Ping | Pong | Ack | Nack | Join | Leave
    | Reserved(code: u8)

  datatype TrustLevel = Full | Sig | Compressed | Raw

  datatype Priority = Low | Normal | High | Critical

  datatype Flags = Flags(encrypted: bool, compressed: bool, fragmented: bool)

  datatype PayloadType =
    | RawBytes | Tensor | Embed | Delta | IntentDesc | Graph | Legacy | DictRef | Kv
    | ErrorInfo | TrustData | RouteInfo | FlowInfo
    | ReservedPayload(code: u8)

  /** 40 bits of seconds on the wire, 16 bits of logical counter. */
  datatype HybridClock = HybridClock(physical: u64, logical: u16)

  datatype RoutingExt = RoutingExt(destination: Bytes32, ttl: u8)

  datatype FragmentInfo = FragmentInfo(sequence: u16, total: u16)

  datatype Header = Header(
    version: u8,
    frameType: FrameType,
    flags: Flags,
    trustLevel: TrustLevel,
    priority: Priority,
    clock: HybridClock,
    intentHash: Bytes16,
    senderId: Bytes32)

  datatype PayloadHeader = PayloadHeader(payloadType: PayloadType, length: u32, flags: u8)

  datatype Authentication = Signature(sig: Bytes64) | Token(token: Bytes16) | NoAuth

  datatype Frame = Frame(
    header: Header,
    traceId: Option<TraceId>,
    routing: Option<RoutingExt>,
    fragment: Option<FragmentInfo>,
    payloadHeader: PayloadHeader,
    payload: seq<byte>,
    auth: Authentication)

  datatype CodecError =
    | BufferTooSmall(needed: nat, have: nat)
    | PayloadTooLarge(size: nat)
    | InvalidMagic
    | UnsupportedVersion(version: nat)
    | TruncatedFrame

  function FrameTypeCode(t: FrameType): u8 {
    match t
    case Intent => 0x00
    case Fulfill => 0x01
    case Stream => 0x02
    case Sync => 0x03
    case Trust => 0x04
    case Route => 0x05
    case Compress => 0x06
    case Bridge => 0x07
    case Announce => 0x08
    case Flow => 0x09
    case Error => 0x0A
    case Fragment => 0x0B
    case Ping => 0x0C
    case Pong => 0x0D
    case Ack => 0x0E
    case Nack => 0x0F
    case Join => 0x10
    case Leave => 0x11
    case Reserved(v) => v
  }

  function FrameTypeOf(code: u8): (t: FrameType)
    ensures FrameTypeCode(t) == code
    ensures t.Reserved? <==> code >= 0x12
  {
    match code
    case 0x00 => Intent
    case 0x01 => Fulfill
    case 0x02 => Stream
    case 0x03 => Sync
    case 0x04 => Trust
    case 0x05 => Route
    case 0x06 => Compress
    case 0x07 => Bridge
    case 0x08 => Announce
    case 0x09 => Flow
    case 0x0A => Error
    case 0x0B => Fragment
    case 0x0C => Ping
    case 0x0D => Pong
    case 0x0E => Ack
    case 0x0F => Nack
    case 0x10 => Join
    case 0x11 => Leave
    case v => Reserved(v)
  }

  function PayloadTypeCode(t: PayloadType): u8 {
    match t
    case RawBytes => 0x0
    case Tensor => 0x1
    case Embed => 0x2
    case Delta => 0x3
    case IntentDesc => 0x4
    case Graph => 0x5
    case Legacy => 0x6
    case DictRef => 0x7
    case Kv => 0x8
    case ErrorInfo => 0x9
    case TrustData => 0xA
    case RouteInfo => 0xB
    case FlowInfo => 0xC
    case ReservedPayload(v) => v
  }

  function PayloadTypeOf(code: u8): (t: PayloadType)
    ensures PayloadTypeCode(t) == code % 16
    ensures t.ReservedPayload? <==> code % 16 >= 0xD
  {
    match code % 16
    case 0x0 => RawBytes
    case 0x1 => Tensor
    case 0x2 => Embed
    case 0x3 => Delta
    case 0x4 => IntentDesc
    case 0x5 => Graph
    case 0x6 => Legacy
    case 0x7 => DictRef
    case 0x8 => Kv
    case 0x9 => ErrorInfo
    case 0xA => TrustData
    case 0xB => RouteInfo
    case 0xC => FlowInfo
    case v => ReservedPayload(v)
  }

  function TrustCode(t: TrustLevel): u8 {
    match t
    case Full => 0
    case Sig => 1
    case Compressed => 2
    case Raw => 3
  }

  function TrustOf(code: u8): (t: TrustLevel)
    ensures TrustCode(t) == code % 4
  {
    match code % 4
    case 0 => Full
    case 1 => Sig
    case 2 => Compressed
    case _ => Raw
  }

  function PriorityCode(p: Priority): u8 {
    match p
    case Low => 0
    case Normal => 1
    case High => 2
    case Critical => 3
  }

  function PriorityOf(code: u8): (p: Priority)
    ensures PriorityCode(p) == code % 4
  {
    match code % 4
    case 0 => Low
    case 1 => Normal
    case 2 => High
    case _ => Critical
  }

  function FlagsCode(f: Flags): (code: u8)
    ensures code < 8
  {
    (if f.encrypted then 1 else 0) + (if f.compressed then 2 else 0) + (if f.fragmented then 4 else 0)
  }

  function FlagsOf(code: u8): Flags {
    Flags(code % 2 != 0, code / 2 % 2 != 0, code / 4 % 2 != 0)
  }

  function AuthOverhead(t: TrustLevel): nat {
    match t
    case Full => 64
    case Sig => 64
    case Compressed => 16
    case Raw => 0
  }

  function AuthSize(a: Authentication): nat {
    match a
    case Signature(_) => 64
    case Token(_) => 16
    case NoAuth => 0
  }

  predicate AuthMatches(t: TrustLevel, a: Authentication) {
    match t
    case Full => a.Signature?
    case Sig => a.Signature?
    case Compressed => a.Token?
    case Raw => a.NoAuth?
  }

  /** Frame types that fit in five bits and are not another name of a known one. */
  predicate CanonicalFrameType(t: FrameType) {
    t.Reserved? ==> 0x12 <= t.code < 32
  }

  predicate CanonicalPayloadType(t: PayloadType) {
    t.ReservedPayload? ==> 0xD <= t.code < 16
  }

  predicate WellFormedHeader(h: Header) {
    && h.version == PROTOCOL_VERSION
    && CanonicalFrameType(h.frameType)
    && h.clock.physical < 0x100_0000_0000
  }

  /** Frames the wire format can represent. */
  predicate WellFormed(f: Frame) {
    && WellFormedHeader(f.header)
    && CanonicalPayloadType(f.payloadHeader.payloadType)
    && f.payloadHeader.flags < 16
    && f.payloadHeader.length == |f.payload| <= MAX_PAYLOAD_SIZE
    && (f.fragment.Some? <==> f.header.flags.fragmented)
    && AuthMatches(f.header.trustLevel, f.auth)
  }

  /** On canonical values the codes are inverses. */
  lemma FrameTypeInverse(t: FrameType)
    requires CanonicalFrameType(t)
    ensures FrameTypeCode(t) < 32 && FrameTypeOf(FrameTypeCode(t)) == t
  {
  }

  lemma PayloadTypeInverse(t: PayloadType)
    requires CanonicalPayloadType(t)
    ensures PayloadTypeCode(t) < 16 && PayloadTypeOf(PayloadTypeCode(t)) == t
  {
  }

  lemma FlagsCodeInverse(code: u8)
    requires code < 8
    ensures FlagsCode(FlagsOf(code)) == code
  {
    assert code == code / 4 * 4 + code / 2 % 2 * 2 + code % 2;
  }

  lemma FlagsInverse(f: Flags)
    ensures FlagsOf(FlagsCode(f)) == f
  {
  }
}
