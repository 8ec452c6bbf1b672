/**
 The SPOP wire format the readiness probe speaks: variable-length integers and
 frames (HAProxy's doc/SPOE.txt, section 3.1 and section 3.2).
 */
module Spop {
  import opened Wrappers

  type byte = x: int | 0 <= x < 256

  // ---------------------------------------------------------------------
  // What a varint is: one byte below 240, or a lead byte of at least 240
  // followed by continuation bytes (128 and above) and one final byte below
  // 128. Its value is positional and needs no reference to the encoder.

  predicate WellFormedTail(b: seq<byte>) {
    && |b| >= 1
    && b[|b| - 1] < 128
    && forall i :: 0 <= i < |b| - 1 ==> b[i] >= 128
  }

  predicate WellFormed(b: seq<byte>) {
    if |b| == 1 then b[0] < 240 else |b| >= 2 && b[0] >= 240 && WellFormedTail(b[1..])
  }

  function TailValue(b: seq<byte>): nat {
    if b == [] then 0 else b[0] + 128 * TailValue(b[1..])
  }

  function Value(b: seq<byte>): nat
    requires WellFormed(b)
  {
    b[0] + 16 * TailValue(b[1..])
  }

  // ---------------------------------------------------------------------
  // Encoding

  function EncodeTail(r: nat): seq<byte> {
    if r < 128 then [r] else [128 + r % 128] + EncodeTail((r - 128) / 128)
  }

  function Encode(v: nat): seq<byte> {
    if v < 240 then [v] else [240 + v % 16] + EncodeTail((v - 240) / 16)
  }

  /** Bitwise or of an integer with a mask, cut to one byte. */
  function OrByte(value: nat, mask: bv8): byte {
    (((value % 256) as bv8) | mask) as int
  }

  lemma Or240OfByte(b: bv8)
    ensures (b | 240) as int == 240 + (b as int) % 16
  {
    assert (b | 240) == 240 + (b & 15);
    assert b & 15 == b % 16;
  }

  lemma Or128OfByte(b: bv8)
    ensures (b | 128) as int == 128 + (b as int) % 128
  {
  }

  lemma LowBits(value: nat)
    ensures value % 256 % 16 == value % 16
    ensures value % 256 % 128 == value % 128
  {
    var q := value / 256;
    assert value == 16 * (16 * q) + value % 256;
    assert value == 128 * (2 * q) + value % 256;
  }

  lemma OrByteIsOffset(value: nat)
    ensures OrByte(value, 240) == 240 + value % 16
    ensures OrByte(value, 128) == 128 + value % 128
  {
    var b := (value % 256) as bv8;
    var low := b as int;
    assert low == value % 256;
    Or240OfByte(b);
    Or128OfByte(b);
    LowBits(value);
  }

  method EncodeVarint(value: int) returns (out: Option<seq<byte>>)
    ensures value < 0 ==> out.None?
    ensures value >= 0 ==> out == Some(Encode(value))
  {
    if value < 0 {
      return None;
    }
    if value < 240 {
      return Some([value]);
    }
    OrByteIsOffset(value);
    var bytes: seq<byte> := [OrByte(value, 240)];
    var rest: nat := (value - 240) / 16;
    while rest >= 128
      invariant bytes + EncodeTail(rest) == Encode(value)
    {
      OrByteIsOffset(rest);
      assert bytes + EncodeTail(rest) == (bytes + [128 + rest % 128]) + EncodeTail((rest - 128) / 128);
      bytes := bytes + [OrByte(rest, 128)];
      rest := (rest - 128) / 128;
    }
    out := Some(bytes + [rest]);
  }

  // ---------------------------------------------------------------------
  // Decoding. None is the IndexError of reading past the end of the data.

  function DecodeTail(data: seq<byte>, offset: nat): Option<(nat, nat)>
    decreases |data| - offset
  {
    if offset >= |data| then None
    else if data[offset] < 128 then Some((data[offset], offset + 1))
    else
      match DecodeTail(data, offset + 1)
      case None => None
      case Some((r, end)) => Some((data[offset] + 128 * r, end))
  }

  function Decode(data: seq<byte>, offset: nat): Option<(nat, nat)> {
    if offset >= |data| then None
    else if data[offset] < 240 then Some((data[offset], offset + 1))
    else
      match DecodeTail(data, offset + 1)
      case None => None
      case Some((r, end)) => Some((data[offset] + 16 * r, end))
  }

  method DecodeVarint(data: seq<byte>, offset: nat) returns (r: Option<(nat, nat)>)
    ensures r == Decode(data, offset)
  {
    if offset >= |data| {
      return None;
    }
    var value: nat := data[offset];
    var next := offset + 1;
    if value < 240 {
      return Some((value, next));
    }
    var scale: nat := 16;
    while true
      invariant offset < next <= |data|
      invariant Decode(data, offset).Some? == DecodeTail(data, next).Some?
      invariant DecodeTail(data, next).Some? ==>
        Decode(data, offset).value ==
          (value + scale * DecodeTail(data, next).value.0, DecodeTail(data, next).value.1)
      decreases |data| - next
    {
      if next >= |data| {
        return None;
      }
      var b := data[next];
      ghost var before := value;
      ghost var here := DecodeTail(data, next);
      value := value + b * scale;
      next := next + 1;
      if b < 128 {
        return Some((value, next));
      }
      ghost var after := DecodeTail(data, next);
      if after.Some? {
        ShiftedDigit(before, scale, b, after.value.0);
      }
      scale := scale * 128;
    }
  }

  lemma ShiftedDigit(value: nat, scale: nat, digit: nat, rest: nat)
    ensures value + scale * (digit + 128 * rest) == (value + digit * scale) + (scale * 128) * rest
  {
  }

  // ---------------------------------------------------------------------
  // Encode and Decode against the definition

  lemma {:induction false} EncodeTailDenotes(r: nat)
    ensures WellFormedTail(EncodeTail(r))
    ensures TailValue(EncodeTail(r)) == r
    decreases r
  {
    if r >= 128 {
      EncodeTailDenotes((r - 128) / 128);
      assert EncodeTail(r)[1..] == EncodeTail((r - 128) / 128);
    }
  }

  lemma EncodeDenotes(v: nat)
    ensures WellFormed(Encode(v))
    ensures Value(Encode(v)) == v
  {
    if v >= 240 {
      EncodeTailDenotes((v - 240) / 16);
      assert Encode(v)[1..] == EncodeTail((v - 240) / 16);
    }
  }

  lemma {:induction false} TailIsDetermined(b: seq<byte>)
    requires WellFormedTail(b)
    ensures EncodeTail(TailValue(b)) == b
    decreases |b|
  {
    if |b| > 1 {
      TailIsDetermined(b[1..]);
      assert b == [b[0]] + b[1..];
    }
  }

  /** Every well-formed string is the encoding of its value. */
  lemma EncodeOfValue(b: seq<byte>)
    requires WellFormed(b)
    ensures Encode(Value(b)) == b
  {
    if |b| > 1 {
      TailIsDetermined(b[1..]);
      assert b == [b[0]] + b[1..];
      var t := TailValue(b[1..]);
      assert (b[0] + 16 * t - 240) / 16 == t;
      assert (b[0] + 16 * t) % 16 == b[0] - 240;
    }
  }

  lemma {:induction false} DecodeTailIsPrefix(data: seq<byte>, offset: nat, r: nat, end: nat)
    ensures DecodeTail(data, offset) == Some((r, end)) <==>
      offset < end <= |data| && WellFormedTail(data[offset..end]) && TailValue(data[offset..end]) == r
    decreases |data| - offset
  {
    if offset < |data| {
      if offset + 1 < end <= |data| {
        var b := data[offset..end];
        assert b[1..] == data[offset + 1..end];
        assert WellFormedTail(b) <==> b[0] >= 128 && WellFormedTail(b[1..]);
        DecodeTailIsPrefix(data, offset + 1, TailValue(b[1..]), end);
      } else if DecodeTail(data, offset + 1).Some? {
        var (r', e') := DecodeTail(data, offset + 1).value;
        DecodeTailIsPrefix(data, offset + 1, r', e');
      }
      if DecodeTail(data, offset + 1).Some? {
        var (r', e') := DecodeTail(data, offset + 1).value;
        DecodeTailIsPrefix(data, offset + 1, r', e');
      }
    }
  }

  /**
   Decoding at any offset of any data returns (v, end) exactly when the bytes
   up to `end` are a well-formed varint of value v.
   */
  lemma DecodeIsPrefix(data: seq<byte>, offset: nat, v: nat, end: nat)
    ensures Decode(data, offset) == Some((v, end)) <==>
      offset < end <= |data| && WellFormed(data[offset..end]) && Value(data[offset..end]) == v
  {
    if offset < |data| {
      if offset < end <= |data| {
        var b := data[offset..end];
        assert b[1..] == data[offset + 1..end];
        DecodeTailIsPrefix(data, offset + 1, TailValue(b[1..]), end);
      }
      if DecodeTail(data, offset + 1).Some? {
        var (r', e') := DecodeTail(data, offset + 1).value;
        DecodeTailIsPrefix(data, offset + 1, r', e');
      }
    }
  }

  /** decode(encode(v)) == v wherever the encoding sits, and it consumes exactly the encoding. */
  lemma DecodeEncode(before: seq<byte>, v: nat, after: seq<byte>)
    ensures Decode(before + Encode(v) + after, |before|) == Some((v, |before + Encode(v)|))
  {
    var data := before + Encode(v) + after;
    EncodeDenotes(v);
    assert data[|before|..|before + Encode(v)|] == Encode(v);
    DecodeIsPrefix(data, |before|, v, |before + Encode(v)|);
  }

  /** No varint is a prefix of another, whatever precedes or follows it. */
  lemma PrefixFree(data: seq<byte>, offset: nat, end1: nat, end2: nat)
    requires offset < end1 <= |data| && WellFormed(data[offset..end1])
    requires offset < end2 <= |data| && WellFormed(data[offset..end2])
    ensures end1 == end2
  {
    DecodeIsPrefix(data, offset, Value(data[offset..end1]), end1);
    DecodeIsPrefix(data, offset, Value(data[offset..end2]), end2);
  }

  // ---------------------------------------------------------------------
  // Frames

  const FLAG_FIN := 1

  datatype Frame = Frame(frameType: byte, streamId: nat, frameId: nat, payload: seq<byte>)

  /** struct.pack(">I", n) */
  function BigEndian32(n: nat): (b: seq<byte>)
    requires n < 0x1_0000_0000
    ensures |b| == 4
  {
    [n / 0x100_0000, n / 0x1_0000 % 256, n / 0x100 % 256, n % 256]
  }

  /** struct.unpack(">I", b) */
  function FromBigEndian32(b: seq<byte>): nat
    requires |b| == 4
  {
    var (w: int, x: int, y: int, z: int) := (b[0], b[1], b[2], b[3]);
    w * 0x100_0000 + x * 0x1_0000 + y * 0x100 + z
  }

  function Body(f: Frame): seq<byte> {
    [f.frameType] + BigEndian32(FLAG_FIN) + Encode(f.streamId) + Encode(f.frameId) + f.payload
  }

  predicate Sendable(f: Frame) {
    |Body(f)| < 0x1_0000_0000
  }

  /** The bytes on the wire; a body of 2^32 bytes or more is a struct.error. */
  function FrameBytes(f: Frame): seq<byte>
    requires Sendable(f)
  {
    BigEndian32(|Body(f)|) + Body(f)
  }

  /** What reading one frame off `stream` yields: type, stream id, bytes used. */
  function ParseFrame(stream: seq<byte>): Option<(byte, nat, nat)> {
    if |stream| < 4 then None
    else
      var length := FromBigEndian32(stream[..4]);
      if |stream| < 4 + length || length == 0 then None
      else
        var body := stream[4..4 + length];
        match Decode(body, 5)
        case None => None
        case Some((streamId, _)) => Some((body[0], streamId, 4 + length))
  }

  /** The first n frames of `stream` and what is left after them. */
  function ParseFrames(stream: seq<byte>, n: nat): Option<(seq<(byte, nat)>, seq<byte>)> {
    if n == 0 then Some(([], stream))
    else
      match ParseFrame(stream)
      case None => None
      case Some((frameType, streamId, used)) =>
        if used > |stream| then None
        else
          match ParseFrames(stream[used..], n - 1)
          case None => None
          case Some((more, rest)) => Some(([(frameType, streamId)] + more, rest))
  }

  predicate AllSendable(frames: seq<Frame>) {
    forall i :: 0 <= i < |frames| ==> Sendable(frames[i])
  }

  function Wire(frames: seq<Frame>): seq<byte>
    requires AllSendable(frames)
  {
    if frames == [] then [] else FrameBytes(frames[0]) + Wire(frames[1..])
  }

  function Headers(frames: seq<Frame>): seq<(byte, nat)> {
    if frames == [] then [] else [(frames[0].frameType, frames[0].streamId)] + Headers(frames[1..])
  }

  lemma BigEndianRoundTrip(n: nat)
    requires n < 0x1_0000_0000
    ensures FromBigEndian32(BigEndian32(n)) == n
  {
    var q1 := n / 0x100;
    var q2 := n / 0x1_0000;
    var q3 := n / 0x100_0000;
    assert n == q1 * 256 + n % 256;
    assert q1 == q2 * 256 + q1 % 256;
    assert q2 == q3 * 256 + q2 % 256;
  }

  /** A frame is read back whole, and nothing of what follows it is consumed. */
  lemma ReadBackOne(f: Frame, rest: seq<byte>)
    requires Sendable(f)
    ensures ParseFrame(FrameBytes(f) + rest) == Some((f.frameType, f.streamId, |FrameBytes(f)|))
  {
    var stream := FrameBytes(f) + rest;
    var body := Body(f);
    BigEndianRoundTrip(|body|);
    assert stream[..4] == BigEndian32(|body|);
    assert stream[4..4 + |body|] == body;
    var head := [f.frameType] + BigEndian32(FLAG_FIN);
    assert body == head + Encode(f.streamId) + (Encode(f.frameId) + f.payload);
    DecodeEncode(head, f.streamId, Encode(f.frameId) + f.payload);
  }

  /**
   The layout on the wire: four bytes of length, the type, four bytes of flags
   with FIN alone set, the stream's varint, the frame's, the payload.
   */
  lemma FrameLayout(f: Frame)
    requires Sendable(f)
    ensures
      var wire := FrameBytes(f);
      && |wire| >= 9 && FromBigEndian32(wire[..4]) == |wire| - 4
      && wire[4] == f.frameType && wire[5..9] == [0, 0, 0, 1]
      && wire[9..] == Encode(f.streamId) + Encode(f.frameId) + f.payload
  {
    BigEndianRoundTrip(|Body(f)|);
    var head := BigEndian32(|Body(f)|) + ([f.frameType] + BigEndian32(FLAG_FIN));
    var rest := Encode(f.streamId) + Encode(f.frameId) + f.payload;
    assert FrameBytes(f) == head + rest;
    assert BigEndian32(FLAG_FIN) == [0, 0, 0, 1];
    assert head[..4] == BigEndian32(|Body(f)|) && head[4] == f.frameType && head[5..9] == BigEndian32(FLAG_FIN);
    hide BigEndian32, FrameBytes;
    assert (head + rest)[..4] == head[..4] && (head + rest)[5..9] == head[5..9] && (head + rest)[9..] == rest;
  }

  /** Any concatenation of frames reads back as exactly those frames, in order. */
  lemma {:induction false} ReadBackAll(frames: seq<Frame>, rest: seq<byte>)
    requires AllSendable(frames)
    ensures ParseFrames(Wire(frames) + rest, |frames|) == Some((Headers(frames), rest))
    decreases |frames|
  {
    if frames == [] {
      assert Wire(frames) + rest == rest;
    } else {
      var first := FrameBytes(frames[0]);
      var more := Wire(frames[1..]) + rest;
      assert Wire(frames) + rest == first + more;
      ReadBackOne(frames[0], more);
      assert (first + more)[|first|..] == more;
      ReadBackAll(frames[1..], rest);
    }
  }

  // ---------------------------------------------------------------------
  // Reading from a socket that delivers the bytes in pieces of its choosing

  datatype Received = Chunk(data: seq<byte>) | Closed | TimedOut | Reset

  datatype ReadError = AgentClosed | ReadTimeout | ConnectionLost | Malformed

  class Connection {
    var incoming: seq<byte>  // what the peer sends before it closes

    constructor (incoming: seq<byte>)
      ensures this.incoming == incoming
    {
      this.incoming := incoming;
    }

    method Recv(max: nat) returns (r: Received)
      requires max > 0
      modifies this
      ensures r.Chunk? ==> 0 < |r.data| <= max && old(incoming) == r.data + incoming
      ensures !r.Chunk? ==> incoming == old(incoming)
      ensures r.Closed? ==> incoming == []
    {
      if * {
        return TimedOut;
      }
      if * {
        return Reset;
      }
      if incoming == [] {
        return Closed;
      }
      var n :| 0 < n <= max && n <= |incoming|;
      r := Chunk(incoming[..n]);
      incoming := incoming[n..];
    }

    method RecvExact(size: nat) returns (r: Result<seq<byte>, ReadError>)
      modifies this
      ensures |incoming| <= |old(incoming)| && incoming == old(incoming)[|old(incoming)| - |incoming|..]
      ensures r.Success? ==> |r.value| == size && old(incoming) == r.value + incoming
      ensures r.Failure? ==> |old(incoming)| - |incoming| < size
      ensures r == Failure(AgentClosed) ==> incoming == [] && |old(incoming)| < size
      ensures r.Failure? ==> r.error != Malformed
    {
      var data: seq<byte> := [];
      while |data| < size
        invariant |data| <= size
        invariant old(incoming) == data + incoming
        decreases size - |data|
      {
        var chunk := Recv(size - |data|);
        match chunk {
          case Closed => return Failure(AgentClosed);
          case TimedOut => return Failure(ReadTimeout);
          case Reset => return Failure(ConnectionLost);
          case Chunk(more) =>
            assert data + (more + incoming) == (data + more) + incoming;
            data := data + more;
        }
      }
      r := Success(data);
    }

    /** Read one frame; a success is the parse of what was waiting, however it was cut into pieces. */
    method ReadFrame() returns (r: Result<(byte, nat), ReadError>)
      modifies this
      ensures r.Success? ==>
        var parsed := ParseFrame(old(incoming));
        && parsed.Some?
        && parsed.value.2 <= |old(incoming)|
        && r.value == (parsed.value.0, parsed.value.1)
        && incoming == old(incoming)[parsed.value.2..]
      ensures ParseFrame(old(incoming)).Some? && r.Failure? ==> r.error.ReadTimeout? || r.error.ConnectionLost?
      ensures |incoming| <= |old(incoming)| && incoming == old(incoming)[|old(incoming)| - |incoming|..]
    {
      var header := RecvExact(4);
      if header.Failure? {
        return Failure(header.error);
      }
      ghost var rest := incoming;
      assert old(incoming)[..4] == header.value;
      assert old(incoming)[4..] == rest;
      var length := FromBigEndian32(header.value);
      var body := RecvExact(length);
      if body.Failure? {
        return Failure(body.error);
      }
      assert old(incoming)[4..4 + length] == body.value;
      assert old(incoming)[4 + length..] == incoming;
      if length == 0 {
        return Failure(Malformed);
      }
      var id := DecodeVarint(body.value, 5);
      if id.None? {
        return Failure(Malformed);
      }
      r := Success((body.value[0], id.value.0));
    }
  }
}
