/** The frame decoder: reads a buffer while advancing an offset. */
module Decoder {
  import opened Prelude
  import opened Frame
  import opened Codec

  method Decode(buffer: seq<byte>) returns (r: Result<Frame, CodecError>)
    ensures r == DecodeFrame(buffer)
  {
    if |buffer| < MIN_FRAME_SIZE {
      return Err(BufferTooSmall(MIN_FRAME_SIZE, |buffer|));
    }
    var fixed := DecodeFixedHeader(buffer[..FIXED_HEADER_SIZE]);
    if fixed.Err? {
      return Err(fixed.error);
    }
    var e, offset := DecodeExtensions(buffer, fixed.value);
    if e.Err? {
      return Err(e.error);
    }
    var body := DecodeTail(buffer, offset, fixed.value.header.trustLevel);
    if body.Err? {
      return Err(body.error);
    }
    return Ok(Assemble(fixed.value.header, e.value, body.value));
  }

  method DecodeExtensions(buffer: seq<byte>, fixed: Fixed)
    returns (r: Result<Extensions, CodecError>, offset: nat)
    requires |buffer| >= FIXED_HEADER_SIZE
    ensures var x := TakeExtensions(fixed, buffer[FIXED_HEADER_SIZE..]);
            match x
            case Ok(t) => r == Ok(t.value) && offset <= |buffer| && buffer[offset..] == t.rest
            case Err(e) => r == Err(e)
  {
    offset := FIXED_HEADER_SIZE;
    var trace: Option<TraceId> := None;
    if fixed.hasTrace {
      if |buffer| < offset + 8 {
        return Err(TruncatedFrame), offset;
      }
      trace := Some(buffer[offset..offset + 8]);
      assert buffer[FIXED_HEADER_SIZE..][..8] == buffer[offset..offset + 8];
      offset := offset + 8;
    }
    assert TakeTrace(fixed.hasTrace, buffer[FIXED_HEADER_SIZE..]) == Ok(Taken(trace, buffer[offset..]));
    ghost var start := offset;
    var routing: Option<RoutingExt> := None;
    if fixed.hasRouting {
      if |buffer| < offset + 33 {
        return Err(TruncatedFrame), offset;
      }
      routing := Some(RoutingExt(buffer[offset..offset + 32], buffer[offset + 32]));
      assert buffer[start..][..32] == buffer[offset..offset + 32];
      offset := offset + 33;
    }
    assert TakeRouting(fixed.hasRouting, buffer[start..]) == Ok(Taken(routing, buffer[offset..]));
    start := offset;
    var fragment: Option<FragmentInfo> := None;
    if fixed.header.flags.fragmented {
      if |buffer| < offset + 4 {
        return Err(TruncatedFrame), offset;
      }
      fragment := Some(FragmentInfo(FromBigEndian16(buffer[offset..offset + 2]),
                                    FromBigEndian16(buffer[offset + 2..offset + 4])));
      offset := offset + 4;
      assert buffer[start..][..2] == buffer[start..start + 2];
      assert buffer[start..][2..4] == buffer[start + 2..start + 4];
    }
    assert TakeFragment(fixed.header.flags.fragmented, buffer[start..]) == Ok(Taken(fragment, buffer[offset..]));
    return Ok(Extensions(trace, routing, fragment)), offset;
  }

  method DecodeTail(buffer: seq<byte>, start: nat, t: TrustLevel) returns (r: Result<Body, CodecError>)
    requires start <= |buffer|
    ensures r == DecodeBody(t, buffer[start..])
  {
    var offset := start;
    if |buffer| < offset + 4 {
      return Err(TruncatedFrame);
    }
    var ph := DecodePayloadHeader(buffer[offset..offset + 4]);
    assert buffer[start..][..4] == buffer[offset..offset + 4];
    offset := offset + 4;
    if ph.length > MAX_PAYLOAD_SIZE {
      return Err(PayloadTooLarge(ph.length));
    }
    var end := offset + ph.length + AuthOverhead(t);
    if |buffer| < end {
      return Err(TruncatedFrame);
    }
    var payload := buffer[offset..offset + ph.length];
    offset := offset + ph.length;
    assert buffer[start..][4..4 + ph.length] == payload;
    assert buffer[start..][offset - start..end - start] == buffer[offset..end];
    return Ok(Body(ph, payload, DecodeAuth(t, buffer[offset..end])));
  }

  method SkipToPayload(buffer: seq<byte>) returns (r: Result<seq<byte>, CodecError>)
    ensures r == PayloadSlice(buffer)
  {
    if |buffer| < MIN_FRAME_SIZE {
      return Err(BufferTooSmall(MIN_FRAME_SIZE, |buffer|));
    }
    var fixed := DecodeFixedHeader(buffer[..FIXED_HEADER_SIZE]);
    if fixed.Err? {
      return Err(fixed.error);
    }
    var offset := FIXED_HEADER_SIZE;
    if fixed.value.hasTrace {
      offset := offset + 8;
    }
    if fixed.value.hasRouting {
      offset := offset + 32 + 1;
    }
    if fixed.value.header.flags.fragmented {
      offset := offset + 4;
    }
    if |buffer| < offset + 4 {
      return Err(TruncatedFrame);
    }
    var length := DecodePayloadHeader(buffer[offset..offset + 4]).length;
    offset := offset + 4;
    if |buffer| < offset + length {
      return Err(TruncatedFrame);
    }
    return Ok(buffer[offset..offset + length]);
  }
}
