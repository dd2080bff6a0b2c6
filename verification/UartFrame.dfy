/**
 The 16-byte fixture frame: header A5 5A, type, length, ten payload bytes, CRC-16 low byte first
 (Modbus over Serial Line V1.02, section 6.2.2), and the reader that finds it in a chopped-up stream.
 */
module UartFrame {
  import opened Common

  type byte = bv8

  const K_FRAME_SIZE := 16
  const K_BODY_SIZE := 14
  const K_PAYLOAD_SIZE := 10

  // ---------------------------------------------------------------- checksum

  function ShiftBit(crc: bv16): bv16 {
    if crc & 1 != 0 then (crc >> 1) ^ 0xA001 else crc >> 1
  }

  function ShiftBits(crc: bv16, n: nat): bv16
    decreases n
  {
    if n == 0 then crc else ShiftBits(ShiftBit(crc), n - 1)
  }

  function ShiftFour(crc: bv16): bv16 { ShiftBit(ShiftBit(ShiftBit(ShiftBit(crc)))) }

  function ShiftByte(crc: bv16): bv16 { ShiftFour(ShiftFour(crc)) }

  function Mix(crc: bv16, data: byte): bv16 { crc ^ (data as bv16) }

  function Update(crc: bv16, data: byte): bv16 { ShiftByte(Mix(crc, data)) }

  function CrcFrom(crc: bv16, data: seq<byte>): bv16
    decreases data
  {
    if data == [] then crc else CrcFrom(Update(crc, data[0]), data[1..])
  }

  function Crc(data: seq<byte>): bv16 { CrcFrom(0xFFFF, data) }

  method Crc16Modbus(data: seq<byte>) returns (crc: bv16)
    ensures crc == Crc(data)
  {
    crc := 0xFFFF;
    assert data[0..] == data;
    for i := 0 to |data|
      invariant Crc(data) == CrcFrom(crc, data[i..])
    {
      CrcStep(crc, data, i);
      ghost var mixed := Mix(crc, data[i]);
      crc := crc ^ (data[i] as bv16);
      for bit := 0 to 8
        invariant ShiftBits(mixed, 8) == ShiftBits(crc, 8 - bit)
      {
        OneShift(crc, 8 - bit);
        crc := if crc & 1 != 0 then (crc >> 1) ^ 0xA001 else crc >> 1;
      }
      OneShift(crc, 0);
      EightShifts(mixed);
    }
  }

  lemma CrcStep(crc: bv16, data: seq<byte>, i: nat)
    requires i < |data|
    ensures CrcFrom(crc, data[i..]) == CrcFrom(ShiftByte(Mix(crc, data[i])), data[i + 1..])
  {
    assert data[i..][0] == data[i] && data[i..][1..] == data[i + 1..];
  }

  lemma OneShift(crc: bv16, n: nat)
    ensures ShiftBits(crc, n) == if n == 0 then crc else ShiftBits(ShiftBit(crc), n - 1)
  {
  }

  lemma FourShifts(crc: bv16, n: nat)
    requires n >= 4
    ensures ShiftBits(crc, n) == ShiftBits(ShiftFour(crc), n - 4)
  {
    OneShift(crc, n);
    var c1 := ShiftBit(crc);
    OneShift(c1, n - 1);
    var c2 := ShiftBit(c1);
    OneShift(c2, n - 2);
    OneShift(ShiftBit(c2), n - 3);
  }

  lemma EightShifts(crc: bv16)
    ensures ShiftBits(crc, 8) == ShiftByte(crc)
  {
    FourShifts(crc, 8);
    FourShifts(ShiftFour(crc), 4);
  }

  lemma {:induction false} CrcAppend(crc: bv16, a: seq<byte>, b: seq<byte>)
    ensures CrcFrom(crc, a + b) == CrcFrom(CrcFrom(crc, a), b)
    decreases a
  {
    if a == [] {
      assert a + b == b;
    } else {
      CrcAppend(Update(crc, a[0]), a[1..], b);
      assert (a + b)[0] == a[0] && (a + b)[1..] == a[1..] + b;
    }
  }

  function Low(crc: bv16): byte { (crc & 0xFF) as byte }
  function High(crc: bv16): byte { (crc >> 8) as byte }
  function Join(low: byte, high: byte): bv16 { (low as bv16) | ((high as bv16) << 8) }

  lemma JoinHalves(crc: bv16, low: byte, high: byte)
    ensures Join(Low(crc), High(crc)) == crc
    ensures Low(Join(low, high)) == low && High(Join(low, high)) == high
  {
  }

  /** Running the checksum on over its own two bytes, low first, always ends at zero. */
  lemma ChecksumCancels(crc: bv16)
    ensures Update(Update(crc, Low(crc)), High(crc)) == 0
  {
    var mixed := Mix(crc, Low(crc));
    assert mixed == crc & 0xFF00;
    ShiftZeros(mixed);
    assert ShiftByte(mixed) == crc >> 8;
    assert Mix(crc >> 8, High(crc)) == 0;
    assert ShiftByte(0) == 0;
  }

  lemma ShiftZeros(crc: bv16)
    requires crc & 0xFF == 0
    ensures ShiftByte(crc) == crc >> 8
  {
  }

  /** Each bit shift can be undone, so no two register states merge. */
  lemma ShiftBitInjective(a: bv16, b: bv16)
    requires ShiftBit(a) == ShiftBit(b)
    ensures a == b
  {
  }

  lemma ShiftFourInjective(a: bv16, b: bv16)
    requires ShiftFour(a) == ShiftFour(b)
    ensures a == b
  {
    var a1, b1 := ShiftBit(a), ShiftBit(b);
    var a2, b2 := ShiftBit(a1), ShiftBit(b1);
    ShiftBitInjective(ShiftBit(a2), ShiftBit(b2));
    ShiftBitInjective(a2, b2);
    ShiftBitInjective(a1, b1);
    ShiftBitInjective(a, b);
  }

  lemma ShiftByteInjective(a: bv16, b: bv16)
    requires ShiftByte(a) == ShiftByte(b)
    ensures a == b
  {
    ShiftFourInjective(ShiftFour(a), ShiftFour(b));
    ShiftFourInjective(a, b);
  }

  /** Register states that differ only in the low half differ in the high half one byte later. */
  lemma HighHalfSeparates(a: bv16, b: bv16)
    requires a & 0xFF00 == b & 0xFF00
    requires ShiftByte(a) & 0xFF00 == ShiftByte(b) & 0xFF00
    ensures a == b
  {
  }

  lemma MixKeepsHighHalf(a: bv16, x: byte)
    ensures Mix(a, x) & 0xFF00 == a & 0xFF00
  {
  }

  lemma MixSeparatesBytes(a: bv16, x: byte, y: byte)
    requires Mix(a, x) == Mix(a, y)
    ensures x == y
  {
  }

  lemma MixedStatesAgree(a: bv16, b: bv16, x: byte, y: byte)
    requires a & 0xFF00 == b & 0xFF00
    requires Mix(ShiftByte(a), x) == Mix(ShiftByte(b), y)
    ensures a == b
  {
    MixKeepsHighHalf(ShiftByte(a), x);
    MixKeepsHighHalf(ShiftByte(b), y);
    HighHalfSeparates(a, b);
  }

  lemma FirstBytesAgree(crc: bv16, a0: byte, a1: byte, b0: byte, b1: byte)
    requires Update(Update(crc, a0), a1) == Update(Update(crc, b0), b1)
    ensures a0 == b0
  {
    var a, b := Mix(crc, a0), Mix(crc, b0);
    ShiftByteInjective(Mix(ShiftByte(a), a1), Mix(ShiftByte(b), b1));
    MixKeepsHighHalf(crc, a0);
    MixKeepsHighHalf(crc, b0);
    MixedStatesAgree(a, b, a1, b1);
    MixSeparatesBytes(crc, a0, b0);
  }

  /** Two different byte pairs take any register state to different states. */
  lemma PairsStayApart(crc: bv16, a0: byte, a1: byte, b0: byte, b1: byte)
    requires Update(Update(crc, a0), a1) == Update(Update(crc, b0), b1)
    ensures a0 == b0 && a1 == b1
  {
    FirstBytesAgree(crc, a0, a1, b0, b1);
    ShiftByteInjective(Mix(Update(crc, a0), a1), Mix(Update(crc, a0), b1));
    MixSeparatesBytes(Update(crc, a0), a1, b1);
  }

  lemma MixIsInjective(a: bv16, b: bv16, x: byte)
    requires Mix(a, x) == Mix(b, x)
    ensures a == b
  {
  }

  lemma {:induction false} DifferenceSurvives(a: bv16, b: bv16, data: seq<byte>)
    requires a != b
    ensures CrcFrom(a, data) != CrcFrom(b, data)
    decreases data
  {
    if data != [] {
      if Update(a, data[0]) == Update(b, data[0]) {
        ShiftByteInjective(Mix(a, data[0]), Mix(b, data[0]));
        MixIsInjective(a, b, data[0]);
        assert false;
      }
      DifferenceSurvives(Update(a, data[0]), Update(b, data[0]), data[1..]);
    }
  }

  /** Messages of any length that differ only within two adjacent bytes never share a checksum. */
  lemma AdjacentErrorsDetected(front: seq<byte>, a: seq<byte>, b: seq<byte>, rest: seq<byte>)
    requires |a| == |b| == 2 && a != b
    ensures Crc(front + a + rest) != Crc(front + b + rest)
  {
    var crc := Crc(front);
    assert front + a + rest == front + (a + rest) && front + b + rest == front + (b + rest);
    CrcAppend(0xFFFF, front, a + rest);
    CrcAppend(0xFFFF, front, b + rest);
    CrcAppend(crc, a, rest);
    CrcAppend(crc, b, rest);
    CrcOfPair(crc, a);
    CrcOfPair(crc, b);
    if CrcFrom(crc, a) == CrcFrom(crc, b) {
      PairsStayApart(crc, a[0], a[1], b[0], b[1]);
      assert false;
    }
    DifferenceSurvives(CrcFrom(crc, a), CrcFrom(crc, b), rest);
  }

  lemma CrcOfPair(crc: bv16, pair: seq<byte>)
    requires |pair| == 2
    ensures CrcFrom(crc, pair) == Update(Update(crc, pair[0]), pair[1])
  {
    assert pair[1..] == [pair[1]];
    assert CrcFrom(crc, pair) == CrcFrom(Update(crc, pair[0]), [pair[1]]);
    assert CrcFrom(Update(Update(crc, pair[0]), pair[1]), []) == Update(Update(crc, pair[0]), pair[1]);
  }

  // ---------------------------------------------------------------- frames

  function Body(kind: byte, payload: seq<byte>, payloadSize: byte): seq<byte> {
    [0xA5, 0x5A, kind, payloadSize] + payload
  }

  function MakeUartFrame(kind: byte, payload: seq<byte>, payloadSize: byte): (frame: seq<byte>)
    requires |payload| == K_PAYLOAD_SIZE
    ensures |frame| == K_FRAME_SIZE && Crc(frame) == 0
  {
    var body := Body(kind, payload, payloadSize);
    var crc := Crc(body);
    ResidueIsZero(body);
    body + [Low(crc), High(crc)]
  }

  lemma ResidueIsZero(body: seq<byte>)
    ensures Crc(body + [Low(Crc(body)), High(Crc(body))]) == 0
  {
    var crc := Crc(body);
    var tail := [Low(crc), High(crc)];
    CrcAppend(0xFFFF, body, tail);
    CrcOfPair(crc, tail);
    ChecksumCancels(crc);
  }

  datatype FrameError = BadHeader | BadTypeOrLength | BadPayload | BadCrc

  /** Accepts exactly one frame: the one that is built for the expected type, length and payload. */
  method ValidateUartFrame(frame: seq<byte>, expectedType: byte, expectedLength: byte, expectedPayload: seq<byte>)
    returns (error: Option<FrameError>)
    requires |frame| == K_FRAME_SIZE && |expectedPayload| == K_PAYLOAD_SIZE
    ensures error.None? <==> frame == MakeUartFrame(expectedType, expectedPayload, expectedLength)
    ensures error == Some(BadHeader) <==> frame[..2] != [0xA5, 0x5A]
    ensures error == Some(BadCrc) <==>
            frame[..K_BODY_SIZE] == Body(expectedType, expectedPayload, expectedLength) && Crc(frame) != 0
  {
    ResidueDetermines(frame);
    if frame[0] != 0xA5 || frame[1] != 0x5A {
      return Some(BadHeader);
    }
    if frame[2] != expectedType || frame[3] != expectedLength {
      return Some(BadTypeOrLength);
    }
    if frame[4..K_BODY_SIZE] != expectedPayload {
      assert frame[..K_BODY_SIZE][4..] != Body(expectedType, expectedPayload, expectedLength)[4..];
      return Some(BadPayload);
    }
    assert frame[..K_BODY_SIZE] == Body(expectedType, expectedPayload, expectedLength);
    var expectedCrc := Crc16Modbus(frame[..K_BODY_SIZE]);
    var receivedCrc := Join(frame[14], frame[15]);
    JoinHalves(expectedCrc, frame[14], frame[15]);
    if receivedCrc != expectedCrc {
      return Some(BadCrc);
    }
    assert frame == frame[..K_BODY_SIZE] + [frame[14], frame[15]];
    return None;
  }

  /** The last two bytes are the checksum of the rest exactly when the checksum of all is zero. */
  lemma ResidueDetermines(frame: seq<byte>)
    requires |frame| == K_FRAME_SIZE
    ensures Crc(frame) == 0 <==> Join(frame[14], frame[15]) == Crc(frame[..K_BODY_SIZE])
  {
    var body, tail := frame[..K_BODY_SIZE], frame[K_BODY_SIZE..];
    var crc := Crc(body);
    assert frame == body + tail;
    CrcAppend(0xFFFF, body, tail);
    CrcOfPair(crc, tail);
    ChecksumCancels(crc);
    JoinHalves(crc, frame[14], frame[15]);
    if Crc(frame) == 0 {
      PairsStayApart(crc, tail[0], tail[1], Low(crc), High(crc));
    }
  }

  /** A frame damaged within any two adjacent bytes is not a frame that could have been built at all. */
  lemma DamagedFrameRejected(frame: seq<byte>, damaged: seq<byte>, i: nat)
    requires |frame| == |damaged| == K_FRAME_SIZE && i + 2 <= K_FRAME_SIZE
    requires Crc(frame) == 0
    requires frame[..i] == damaged[..i] && frame[i + 2..] == damaged[i + 2..] && frame != damaged
    ensures Crc(damaged) != 0
    ensures forall kind, payload, size :: |payload| == K_PAYLOAD_SIZE ==> damaged != MakeUartFrame(kind, payload, size)
  {
    var a, b := frame[i..i + 2], damaged[i..i + 2];
    assert frame == frame[..i] + a + frame[i + 2..];
    assert damaged == frame[..i] + b + frame[i + 2..];
    AdjacentErrorsDetected(frame[..i], a, b, frame[i + 2..]);
  }

  // ---------------------------------------------------------------- synchroniser

  predicate HeaderAt(stream: seq<byte>, i: nat) {
    i + 1 < |stream| && stream[i] == 0xA5 && stream[i + 1] == 0x5A
  }

  /** Position of the first header, or the stream's length when there is none. */
  function FindHeader(stream: seq<byte>): (header: nat)
    ensures header < |stream| <==> exists i: nat :: HeaderAt(stream, i)
    ensures header < |stream| ==> HeaderAt(stream, header)
    ensures header <= |stream| && forall i: nat :: i < header ==> !HeaderAt(stream, i)
  {
    FindHeaderFrom(stream, 0)
  }

  function FindHeaderFrom(stream: seq<byte>, start: nat): (header: nat)
    requires start <= |stream| && forall i: nat :: i < start ==> !HeaderAt(stream, i)
    ensures start <= header <= |stream|
    ensures header < |stream| ==> HeaderAt(stream, header)
    ensures forall i: nat :: i < header ==> !HeaderAt(stream, i)
    decreases |stream| - start
  {
    if start == |stream| || HeaderAt(stream, start) then start else FindHeaderFrom(stream, start + 1)
  }

  /** The frame a stream contains: the 16 bytes from its first header on, once they are all there. */
  ghost predicate Carries(stream: seq<byte>, frame: seq<byte>) {
    exists header: nat ::
      && HeaderAt(stream, header) && (forall i: nat :: i < header ==> !HeaderAt(stream, i))
      && header + K_FRAME_SIZE <= |stream| && frame == stream[header..header + K_FRAME_SIZE]
  }

  /** It carries this frame and no other. */
  ghost predicate CarriesOnly(stream: seq<byte>, frame: seq<byte>) {
    Carries(stream, frame) && forall other :: Carries(stream, other) ==> other == frame
  }

  ghost predicate NoFrameIn(stream: seq<byte>) { forall frame :: !Carries(stream, frame) }

  /** No header starts in the bytes already thrown away. */
  ghost predicate HeaderFree(dropped: seq<byte>, received: seq<byte>) {
    forall i: nat :: i < |dropped| ==> !HeaderAt(dropped + received, i)
  }

  lemma CarriesIsStable(stream: seq<byte>, more: seq<byte>, frame: seq<byte>)
    requires Carries(stream, frame)
    ensures Carries(stream + more, frame)
  {
    var header: nat :|
      && HeaderAt(stream, header) && (forall i: nat :: i < header ==> !HeaderAt(stream, i))
      && header + K_FRAME_SIZE <= |stream| && frame == stream[header..header + K_FRAME_SIZE];
    var longer := stream + more;
    assert HeaderAt(longer, header);
    forall i: nat | i < header
      ensures !HeaderAt(longer, i)
    {
      assert !HeaderAt(stream, i);
    }
    assert longer[header..header + K_FRAME_SIZE] == frame;
  }

  lemma CarriesOneFrame(stream: seq<byte>, frame: seq<byte>)
    requires Carries(stream, frame)
    ensures CarriesOnly(stream, frame)
  {
  }

  /** What one pass of the receive loop meets. */
  datatype Arrival = Chunk(bytes: seq<byte>) | Broken | CancelSeen

  datatype ReadOutcome = FrameRead(frame: seq<byte>) | TimedOut | ReadFailed | ReadCanceled

  function Bytes(arrivals: seq<Arrival>): seq<byte> {
    if arrivals == [] then []
    else (if arrivals[0].Chunk? then arrivals[0].bytes else []) + Bytes(arrivals[1..])
  }

  lemma {:induction false} BytesAppend(a: seq<Arrival>, b: seq<Arrival>)
    ensures Bytes(a + b) == Bytes(a) + Bytes(b)
  {
    if a == [] {
      assert a + b == b;
    } else {
      BytesAppend(a[1..], b);
      assert (a + b)[0] == a[0] && (a + b)[1..] == a[1..] + b;
      AppendAssociates(if a[0].Chunk? then a[0].bytes else [], Bytes(a[1..]), Bytes(b));
    }
  }

  lemma NoFrameYet(dropped: seq<byte>, received: seq<byte>)
    requires HeaderFree(dropped, received)
    requires var header := FindHeader(received); header == |received| || |received| - header < K_FRAME_SIZE
    ensures NoFrameIn(dropped + received)
  {
    var stream, first := dropped + received, FindHeader(received);
    assert first < |received| ==> HeaderAt(stream, |dropped| + first);
    forall i: nat | HeaderAt(stream, i)
      ensures |dropped| <= i && HeaderAt(received, i - |dropped|)
    {
    }
  }

  lemma FrameFound(dropped: seq<byte>, received: seq<byte>)
    requires HeaderFree(dropped, received)
    requires FindHeader(received) + K_FRAME_SIZE <= |received|
    ensures Carries(dropped + received, received[FindHeader(received)..FindHeader(received) + K_FRAME_SIZE])
  {
    var stream, header := dropped + received, |dropped| + FindHeader(received);
    assert HeaderAt(stream, header);
    forall i: nat | i < header
      ensures !HeaderAt(stream, i)
    {
      if i >= |dropped| {
        assert !HeaderAt(received, i - |dropped|);
      }
    }
    SliceShifts(dropped, received, FindHeader(received), K_FRAME_SIZE);
  }

  lemma SliceShifts(front: seq<byte>, back: seq<byte>, start: nat, n: nat)
    requires start + n <= |back|
    ensures (front + back)[|front| + start..|front| + start + n] == back[start..start + n]
  {
    assert forall i :: start <= i < start + n ==> (front + back)[|front| + i] == back[i];
  }

  /** Throwing away all but the last byte of a header-free buffer cannot lose a header. */
  lemma KeepingOneIsEnough(dropped: seq<byte>, received: seq<byte>)
    requires HeaderFree(dropped, received)
    requires FindHeader(received) == |received| && |received| > 0
    ensures HeaderFree(dropped + received[..|received| - 1], received[|received| - 1..])
    ensures dropped + received[..|received| - 1] + received[|received| - 1..] == dropped + received
  {
    DropSplits(dropped, received, |received| - 1);
    forall i: nat | i < |dropped| + |received| - 1
      ensures !HeaderAt(dropped + received, i)
    {
      if i < |dropped| {
        assert !HeaderAt(dropped + received, i);
      } else {
        assert !HeaderAt(received, i - |dropped|);
      }
    }
  }

  /**
   Reads until the frame is complete, the arrivals end (deadline), or an error or cancellation comes.
   The frame is the one the whole stream carries, however the stream was cut into chunks; while no
   header is in sight all but the last byte is thrown away, and no header is lost by that.
   */
  method ReadUartFrame(arrivals: seq<Arrival>) returns (outcome: ReadOutcome, used: nat)
    ensures used <= |arrivals| && forall i :: 0 <= i < used ==> arrivals[i].Chunk?
    ensures outcome.FrameRead? ==>
              CarriesOnly(Bytes(arrivals[..used]), outcome.frame) && CarriesOnly(Bytes(arrivals), outcome.frame)
    ensures forall n: nat :: n < used ==> NoFrameIn(Bytes(arrivals[..n]))
    ensures outcome.TimedOut? ==> used == |arrivals| && NoFrameIn(Bytes(arrivals))
    ensures outcome.ReadFailed? ==> used < |arrivals| && arrivals[used].Broken?
    ensures outcome.ReadCanceled? ==> used < |arrivals| && arrivals[used].CancelSeen?
  {
    var received: seq<byte> := [];
    ghost var dropped: seq<byte> := [];
    used := 0;
    while used < |arrivals|
      invariant used <= |arrivals| && forall i :: 0 <= i < used ==> arrivals[i].Chunk?
      invariant Buffers(arrivals, used, dropped, received) && NoFrameIn(Bytes(arrivals[..used]))
    {
      NoFrameBefore(arrivals, used);
      if arrivals[used].CancelSeen? {
        return ReadCanceled, used;
      }
      if arrivals[used].Broken? {
        return ReadFailed, used;
      }
      ChunkBuffers(arrivals, used, dropped, received);
      received := received + arrivals[used].bytes;
      used := used + 1;

      var header := FindHeader(received);
      if header < |received| && |received| - header >= K_FRAME_SIZE {
        FrameFound(dropped, received);
        LaterBytesDoNotMatter(arrivals, used, received[header..header + K_FRAME_SIZE]);
        return FrameRead(received[header..header + K_FRAME_SIZE]), used;
      }
      NoFrameYet(dropped, received);
      if header == |received| && |received| > 1 {
        KeepingOneIsEnough(dropped, received);
        dropped, received := dropped + received[..|received| - 1], received[|received| - 1..];
      }
    }
    NoFrameBefore(arrivals, used);
    assert arrivals[..used] == arrivals;
    return TimedOut, used;
  }

  /** What was thrown away and what is buffered make up all that came, and no header was thrown away. */
  ghost predicate Buffers(arrivals: seq<Arrival>, used: nat, dropped: seq<byte>, received: seq<byte>)
    requires used <= |arrivals|
  {
    && Bytes(arrivals[..used]) == dropped + received
    && HeaderFree(dropped, received) && (|dropped| > 0 ==> |received| > 0)
  }

  lemma ChunkBuffers(arrivals: seq<Arrival>, used: nat, dropped: seq<byte>, received: seq<byte>)
    requires used < |arrivals| && arrivals[used].Chunk? && Buffers(arrivals, used, dropped, received)
    ensures Buffers(arrivals, used + 1, dropped, received + arrivals[used].bytes)
  {
    BytesSnoc(arrivals, used);
    StillNoHeader(dropped, received, arrivals[used].bytes);
    AppendAssociates(dropped, received, arrivals[used].bytes);
  }

  lemma BytesSnoc(arrivals: seq<Arrival>, used: nat)
    requires used < |arrivals| && arrivals[used].Chunk?
    ensures Bytes(arrivals[..used + 1]) == Bytes(arrivals[..used]) + arrivals[used].bytes
  {
    assert arrivals[..used + 1] == arrivals[..used] + [arrivals[used]];
    BytesAppend(arrivals[..used], [arrivals[used]]);
    assert Bytes([arrivals[used]]) == arrivals[used].bytes + Bytes([]);
  }

  lemma LaterBytesDoNotMatter(arrivals: seq<Arrival>, used: nat, frame: seq<byte>)
    requires used <= |arrivals| && Carries(Bytes(arrivals[..used]), frame)
    ensures CarriesOnly(Bytes(arrivals[..used]), frame) && CarriesOnly(Bytes(arrivals), frame)
  {
    assert arrivals == arrivals[..used] + arrivals[used..];
    BytesAppend(arrivals[..used], arrivals[used..]);
    CarriesIsStable(Bytes(arrivals[..used]), Bytes(arrivals[used..]), frame);
    CarriesOneFrame(Bytes(arrivals[..used]), frame);
    CarriesOneFrame(Bytes(arrivals), frame);
  }

  lemma NoFrameBefore(arrivals: seq<Arrival>, used: nat)
    requires used <= |arrivals| && NoFrameIn(Bytes(arrivals[..used]))
    ensures forall n: nat :: n <= used ==> NoFrameIn(Bytes(arrivals[..n]))
  {
    forall n: nat | n <= used
      ensures NoFrameIn(Bytes(arrivals[..n]))
    {
      assert arrivals[..used][..n] == arrivals[..n];
      forall frame | Carries(Bytes(arrivals[..n]), frame)
        ensures false
      {
        LaterBytesDoNotMatter(arrivals[..used], n, frame);
      }
    }
  }

  lemma DropSplits(dropped: seq<byte>, received: seq<byte>, n: nat)
    requires n <= |received|
    ensures dropped + received[..n] + received[n..] == dropped + received
  {
  }

  lemma StillNoHeader(dropped: seq<byte>, received: seq<byte>, more: seq<byte>)
    requires HeaderFree(dropped, received)
    requires |dropped| > 0 ==> |received| > 0
    ensures HeaderFree(dropped, received + more)
  {
    forall i: nat | i < |dropped|
      ensures !HeaderAt(dropped + (received + more), i)
    {
      assert !HeaderAt(dropped + received, i);
    }
  }
}
