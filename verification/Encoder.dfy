/** The frame encoder: writes into a caller's buffer while advancing an offset. */
module Encoder {
  import opened Prelude
  import opened Frame
  import opened Codec

  /** `buffer` with `src` written at `offset`. */
  function Overwrite(buffer: seq<byte>, offset: nat, src: seq<byte>): (r: seq<byte>)
    requires offset + |src| <= |buffer|
    ensures |r| == |buffer|
  {
    buffer[..offset] + src + buffer[offset + |src|..]
  }

  lemma OverwriteTwice(buffer: seq<byte>, offset: nat, a: seq<byte>, b: seq<byte>)
    requires offset + |a| + |b| <= |buffer|
    ensures Overwrite(Overwrite(buffer, offset, a), offset + |a|, b) == Overwrite(buffer, offset, a + b)
  {
  }

  lemma OverwriteNothing(buffer: seq<byte>, offset: nat)
    requires offset <= |buffer|
    ensures Overwrite(buffer, offset, []) == buffer
  {
  }

  /** `copy_from_slice` into the buffer at `offset`, returning the advanced offset. */
  method CopyFromSlice(buffer: array<byte>, offset: nat, src: seq<byte>) returns (end: nat)
    requires offset + |src| <= buffer.Length
    modifies buffer
    ensures end == offset + |src|
    ensures buffer[..] == Overwrite(old(buffer[..]), offset, src)
  {
    forall i | 0 <= i < |src| {
      buffer[offset + i] := src[i];
    }
    end := offset + |src|;
  }

  /** `offset` is where the slice that is handed over begins. */
  method EncodeFixedHeader(header: Header, hasTrace: bool, hasRouting: bool, buffer: array<byte>, offset: nat)
    returns (r: Result<nat, CodecError>)
    requires offset <= buffer.Length
    modifies buffer
    ensures r == if buffer.Length - offset < FIXED_HEADER_SIZE
                 then Err(BufferTooSmall(FIXED_HEADER_SIZE, buffer.Length - offset)) else Ok(FIXED_HEADER_SIZE)
    ensures r.Ok? ==> buffer[..] == Overwrite(old(buffer[..]), offset, FixedHeaderBytes(header, hasTrace, hasRouting))
    ensures r.Err? ==> buffer[..] == old(buffer[..])
  {
    if buffer.Length - offset < FIXED_HEADER_SIZE {
      return Err(BufferTooSmall(FIXED_HEADER_SIZE, buffer.Length - offset));
    }
    ghost var was := buffer[..];
    var packed, clock := PackedBytes(header, hasTrace, hasRouting), ClockBytes(header.clock);
    var end := CopyFromSlice(buffer, offset, packed);
    end := CopyFromSlice(buffer, end, clock);
    OverwriteTwice(was, offset, packed, clock);
    end := CopyFromSlice(buffer, end, header.intentHash);
    OverwriteTwice(was, offset, packed + clock, header.intentHash);
    end := CopyFromSlice(buffer, end, header.senderId);
    OverwriteTwice(was, offset, packed + clock + header.intentHash, header.senderId);
    assert packed + clock + header.intentHash + header.senderId == FixedHeaderBytes(header, hasTrace, hasRouting);
    return Ok(FIXED_HEADER_SIZE);
  }

  method EncodeTrace(trace: Option<TraceId>, buffer: array<byte>, offset: nat) returns (end: nat)
    requires offset + |TraceBytes(trace)| <= buffer.Length
    modifies buffer
    ensures end == offset + |TraceBytes(trace)|
    ensures buffer[..] == Overwrite(old(buffer[..]), offset, TraceBytes(trace))
  {
    end := offset;
    if trace.Some? {
      end := CopyFromSlice(buffer, offset, trace.value);
    } else {
      OverwriteNothing(buffer[..], offset);
    }
  }

  method EncodeRouting(routing: Option<RoutingExt>, buffer: array<byte>, offset: nat) returns (end: nat)
    requires offset + |RoutingBytes(routing)| <= buffer.Length
    modifies buffer
    ensures end == offset + |RoutingBytes(routing)|
    ensures buffer[..] == Overwrite(old(buffer[..]), offset, RoutingBytes(routing))
  {
    ghost var was := buffer[..];
    end := offset;
    if routing.Some? {
      end := CopyFromSlice(buffer, end, routing.value.destination);
      end := CopyFromSlice(buffer, end, [routing.value.ttl]);
      OverwriteTwice(was, offset, routing.value.destination, [routing.value.ttl]);
    } else {
      OverwriteNothing(was, offset);
    }
  }

  method EncodeFragment(fragment: Option<FragmentInfo>, buffer: array<byte>, offset: nat) returns (end: nat)
    requires offset + |FragmentBytes(fragment)| <= buffer.Length
    modifies buffer
    ensures end == offset + |FragmentBytes(fragment)|
    ensures buffer[..] == Overwrite(old(buffer[..]), offset, FragmentBytes(fragment))
  {
    ghost var was := buffer[..];
    end := offset;
    if fragment.Some? {
      var sequence, total := BigEndian16(fragment.value.sequence), BigEndian16(fragment.value.total);
      end := CopyFromSlice(buffer, end, sequence);
      end := CopyFromSlice(buffer, end, total);
      OverwriteTwice(was, offset, sequence, total);
    } else {
      OverwriteNothing(was, offset);
    }
  }

  /** What `encode` returns for a buffer of `room` bytes. */
  function Encoded(frame: Frame, room: nat): Result<nat, CodecError> {
    if room < WireSize(frame) then Err(BufferTooSmall(WireSize(frame), room))
    else if |frame.payload| > MAX_PAYLOAD_SIZE then Err(PayloadTooLarge(|frame.payload|))
    else Ok(WireSize(frame))
  }

  method Encode(frame: Frame, buffer: array<byte>) returns (r: Result<nat, CodecError>)
    modifies buffer
    ensures r == Encoded(frame, buffer.Length)
    ensures r.Ok? ==> |Wire(frame)| == r.value <= buffer.Length
    ensures r.Ok? ==> buffer[..] == Overwrite(old(buffer[..]), 0, Wire(frame))
    ensures r.Err? ==> buffer[..] == old(buffer[..])
  {
    var required := WireSize(frame);
    if buffer.Length < required {
      return Err(BufferTooSmall(required, buffer.Length));
    }
    if |frame.payload| > MAX_PAYLOAD_SIZE {
      return Err(PayloadTooLarge(|frame.payload|));
    }
    var offset := EncodeAll(frame, buffer);
    return Ok(offset);
  }

  method EncodeAll(frame: Frame, buffer: array<byte>) returns (offset: nat)
    requires |frame.payload| <= MAX_PAYLOAD_SIZE && WireSize(frame) <= buffer.Length
    modifies buffer
    ensures offset == |Wire(frame)| == WireSize(frame)
    ensures buffer[..] == Overwrite(old(buffer[..]), 0, Wire(frame))
  {
    ghost var was := buffer[..];
    ghost var a := FixedHeaderBytes(frame.header, frame.traceId.Some?, frame.routing.Some?);
    ghost var e := BodyWire(BodyOf(frame));
    WireLayout(frame);
    var head := EncodeFixedHeader(frame.header, frame.traceId.Some?, frame.routing.Some?, buffer, 0);
    offset := EncodeExtensions(frame, buffer, head.value);
    OverwriteTwice(was, 0, a, ExtensionBytes(ExtensionsOf(frame)));
    offset := EncodeBody(frame, buffer, offset);
    OverwriteTwice(was, 0, a + ExtensionBytes(ExtensionsOf(frame)), e);
    Associate(a, ExtensionBytes(ExtensionsOf(frame)), e);
  }

  method EncodeExtensions(frame: Frame, buffer: array<byte>, offset: nat) returns (end: nat)
    requires offset + |ExtensionBytes(ExtensionsOf(frame))| <= buffer.Length
    modifies buffer
    ensures end == offset + |ExtensionBytes(ExtensionsOf(frame))|
    ensures buffer[..] == Overwrite(old(buffer[..]), offset, ExtensionBytes(ExtensionsOf(frame)))
  {
    ghost var was := buffer[..];
    ghost var b, c, d := TraceBytes(frame.traceId), RoutingBytes(frame.routing), FragmentBytes(frame.fragment);
    end := EncodeTrace(frame.traceId, buffer, offset);
    end := EncodeRouting(frame.routing, buffer, end);
    OverwriteTwice(was, offset, b, c);
    end := EncodeFragment(frame.fragment, buffer, end);
    OverwriteTwice(was, offset, b + c, d);
    Associate(b, c, d);
  }

  function PayloadBytes(frame: Frame): seq<byte>
    requires |frame.payload| <= MAX_PAYLOAD_SIZE
  {
    PayloadHeaderBytes(frame.payloadHeader.payloadType, |frame.payload|, frame.payloadHeader.flags)
  }

  lemma BodyLayout(frame: Frame)
    requires |frame.payload| <= MAX_PAYLOAD_SIZE
    ensures BodyWire(BodyOf(frame)) == (PayloadBytes(frame) + frame.payload) + AuthBytes(frame.auth)
  {
    Associate(PayloadBytes(frame), frame.payload, AuthBytes(frame.auth));
  }

  method EncodeBody(frame: Frame, buffer: array<byte>, offset: nat) returns (end: nat)
    requires |frame.payload| <= MAX_PAYLOAD_SIZE
    requires offset + |BodyWire(BodyOf(frame))| <= buffer.Length
    modifies buffer
    ensures end == offset + |BodyWire(BodyOf(frame))|
    ensures buffer[..] == Overwrite(old(buffer[..]), offset, BodyWire(BodyOf(frame)))
  {
    ghost var was := buffer[..];
    BodyLayout(frame);
    var ph, auth := PayloadBytes(frame), AuthBytes(frame.auth);
    end := CopyFromSlice(buffer, offset, ph);
    end := CopyFromSlice(buffer, end, frame.payload);
    OverwriteTwice(was, offset, ph, frame.payload);
    end := CopyFromSlice(buffer, end, auth);
    OverwriteTwice(was, offset, ph + frame.payload, auth);
  }

  method SignatureData(frame: Frame) returns (data: seq<byte>)
    ensures data == SignatureBytes(frame)
  {
    var canonical := frame;
    if frame.routing.Some? {
      canonical := frame.(routing := Some(frame.routing.value.(ttl := 0)));
    }
    var total := WireSize(canonical);
    var size := total - AuthSize(canonical.auth);
    var buffer := new byte[total](_ => 0);
    var r := Encode(canonical, buffer);
    data := buffer[..size];
    if r.Ok? {
      assert buffer[..] == Wire(canonical);
    } else {
      assert data == Repeat(size, 0);
    }
  }
}
