/**
 The NEC pulse codec of the infrared service: frame encoder, tolerant decoder with overlapping
 windows, packet and scancode interpretation. Durations are microseconds held in 32-bit words.
 */
module NecCodec {
  import opened Common

  const K_PACKET_BYTES := 4
  const K_FRAME_LENGTH := 2 + K_PACKET_BYTES * 16 + 1
  const K_NEC_HDR_PULSE_US: u32 := 9000
  const K_NEC_HDR_SPACE_US: u32 := 4500
  const K_NEC_BIT_PULSE_US: u32 := 560
  const K_NEC_ZERO_SPACE_US: u32 := 560
  const K_NEC_ONE_SPACE_US: u32 := 1690

  /** The largest per-element deviation for which every packet still decodes. */
  const K_MAX_JITTER_US := 279

  datatype Protocol = NoProtocol | Nec | NecX | Nec32

  // ---------------------------------------------------------------- tolerance test

  function Wrap32(x: nat): u32 { x % 0x1_0000_0000 }

  /** Both sums are unsigned 32-bit and wrap around. */
  predicate Approx(value: u32, target: u32, tolerance: u32) {
    Wrap32(value + tolerance) >= target && value <= Wrap32(target + tolerance)
  }

  predicate Near(value: int, target: int, tolerance: int) {
    target - tolerance <= value <= target + tolerance
  }

  /** The wrapping test is the distance test for every value exactly when no sum it needs wraps. */
  lemma ApproxIsDistance(target: u32, tolerance: u32)
    ensures (forall value: u32 :: Approx(value, target, tolerance) <==> Near(value, target, tolerance))
            <==> target == 0 || target + 2 * tolerance < 0x1_0000_0000
  {
    if target > 0 && target + 2 * tolerance >= 0x1_0000_0000 {
      var wrapped: u32 := 0x1_0000_0000 - tolerance;
      assert Near(wrapped, target, tolerance) && !Approx(wrapped, target, tolerance);
    }
  }

  // ---------------------------------------------------------------- bytes and bits

  /** 1 << bit */
  function Weight(bit: nat): nat {
    if bit == 0 then 1 else 2 * Weight(bit - 1)
  }

  /** byte & (1 << bit) is non-zero */
  predicate Bit(byte: nat, bit: nat) {
    if bit == 0 then byte % 2 == 1 else Bit(byte / 2, bit - 1)
  }

  /** byte | (1 << bit), for a byte in which that bit may already be set */
  function SetBit(byte: nat, bit: nat): nat {
    if Bit(byte, bit) then byte else byte + Weight(bit)
  }

  function Complement(byte: u8): u8 { 255 - byte }

  lemma {:induction false} BitsDetermineNumber(x: nat, y: nat, width: nat)
    requires x < Weight(width) && y < Weight(width)
    requires forall bit :: 0 <= bit < width ==> (Bit(x, bit) <==> Bit(y, bit))
    ensures x == y
  {
    if width > 0 {
      assert Bit(x, 0) == Bit(y, 0);
      forall bit | 0 <= bit < width - 1
        ensures Bit(x / 2, bit) <==> Bit(y / 2, bit)
      {
        assert Bit(x, bit + 1) == Bit(y, bit + 1);
      }
      BitsDetermineNumber(x / 2, y / 2, width - 1);
    }
  }

  lemma ByteWidth()
    ensures Weight(8) == 256
  {
    assert Weight(4) == 16;
  }

  /** Setting a bit above every set bit changes that bit and no other. */
  lemma {:induction false} SetBitAbove(byte: nat, bit: nat)
    requires byte < Weight(bit)
    ensures !Bit(byte, bit) && Bit(byte + Weight(bit), bit)
    ensures forall k :: 0 <= k < bit ==> (Bit(byte + Weight(bit), k) <==> Bit(byte, k))
  {
    if bit > 0 {
      var half := Weight(bit - 1);
      assert (byte + 2 * half) / 2 == byte / 2 + half;
      SetBitAbove(byte / 2, bit - 1);
      forall k | 0 <= k < bit
        ensures Bit(byte + Weight(bit), k) <==> Bit(byte, k)
      {
        if k > 0 {
          assert Bit(byte / 2 + half, k - 1) <==> Bit(byte / 2, k - 1);
        }
      }
    }
  }

  // ---------------------------------------------------------------- packets

  datatype Meaning = Meaning(address: u16, command: u16, protocol: Protocol)

  function Word(low: u8, high: u8): u16 { low as int + high as int * 256 }

  function MakeNecCommand(command: u8): u16 { Word(command, Complement(command)) }

  function MakeNecBytes(address: u16, command: u16): seq<u8> {
    [address % 256, address / 256, command % 256, command / 256]
  }

  function MakeStandardNecBytes(address: u8, command: u8): seq<u8> {
    [address, Complement(address), command, Complement(command)]
  }

  function ParseNecBytes(bytes: seq<u8>): Option<Meaning> {
    if |bytes| != K_PACKET_BYTES then None
    else
      Some(Meaning(Word(bytes[0], bytes[1]), Word(bytes[2], bytes[3]),
                   if bytes[1] == Complement(bytes[0]) then Nec
                   else if bytes[3] == Complement(bytes[2]) then NecX
                   else Nec32))
  }

  /** Packing and parsing are inverse, and a four-byte packet is packed from what it parses to. */
  lemma PackParseInverse(address: u16, command: u16, bytes: seq<u8>)
    ensures ParseNecBytes(MakeNecBytes(address, command)).Some?
    ensures ParseNecBytes(MakeNecBytes(address, command)).value.address == address
    ensures ParseNecBytes(MakeNecBytes(address, command)).value.command == command
    ensures ParseNecBytes(bytes).Some? <==> |bytes| == K_PACKET_BYTES
    ensures |bytes| == K_PACKET_BYTES ==>
              MakeNecBytes(ParseNecBytes(bytes).value.address, ParseNecBytes(bytes).value.command) == bytes
  {
    if |bytes| == K_PACKET_BYTES {
      var packed := MakeNecBytes(ParseNecBytes(bytes).value.address, ParseNecBytes(bytes).value.command);
      assert packed[0] == bytes[0] && packed[1] == bytes[1] && packed[2] == bytes[2] && packed[3] == bytes[3];
    }
  }

  // ---------------------------------------------------------------- scancodes

  datatype Scancode = Scancode(protocol: Protocol, value: u32, repeated: bool)
  datatype Decoded = Decoded(data: seq<u8>, meaning: Meaning)

  function DecodeScancode(code: Scancode): Option<Decoded> {
    var command := MakeNecCommand(code.value % 256);
    match code.protocol
    case NoProtocol => None
    case Nec =>
      var address := code.value / 256 % 256;
      Some(Decoded(MakeStandardNecBytes(address, code.value % 256),
                   Meaning(Word(address, Complement(address)), command, Nec)))
    case NecX =>
      var address := code.value / 256 % 0x1_0000;
      Some(Decoded(MakeNecBytes(address, command), Meaning(address, command, NecX)))
    case Nec32 =>
      var address, command32 := code.value / 0x1_0000, code.value % 0x1_0000;
      Some(Decoded(MakeNecBytes(address, command32), Meaning(address, command32, Nec32)))
  }

  /** Neither half of the address, nor (for NEC32) of the command, is its own check byte. */
  predicate UnambiguousScancode(code: Scancode) {
    match code.protocol
    case NoProtocol => true
    case Nec => true
    case NecX => code.value / 0x1_0000 % 256 != Complement(code.value / 256 % 256)
    case Nec32 =>
      && code.value / 0x100_0000 != Complement(code.value / 0x1_0000 % 256)
      && code.value / 256 % 256 != Complement(code.value % 256)
  }

  /** The kernel's scancode and the same packet decoded from pulses say the same. */
  predicate Agrees(code: Scancode)
    requires DecodeScancode(code).Some?
  {
    var data, meaning := DecodeScancode(code).value.data, DecodeScancode(code).value.meaning;
    ParseNecBytes(data).Some? &&
    var parsed := ParseNecBytes(data).value;
    && parsed.address == meaning.address && parsed.command == meaning.command
    && (parsed.protocol == meaning.protocol <==> UnambiguousScancode(code))
  }

  lemma NecXAgrees(code: Scancode)
    requires code.protocol == NecX
    ensures Agrees(code)
  {
    HalvesOfWord(code.value / 256);
    ShiftTwice(code.value);
  }

  lemma Nec32Agrees(code: Scancode)
    requires code.protocol == Nec32
    ensures Agrees(code)
  {
    HalvesOfWord(code.value);
    ShiftTwice(code.value / 0x1_0000);
    ShiftTwice(code.value);
  }

  /**
   The kernel's scancode and the same packet decoded from pulses agree on data, address and command;
   they agree on the protocol name too exactly for unambiguous codes.
   */
  lemma ScancodeAgreesWithPulses(code: Scancode)
    requires DecodeScancode(code).Some?
    ensures ParseNecBytes(DecodeScancode(code).value.data).Some?
    ensures var parsed := ParseNecBytes(DecodeScancode(code).value.data).value;
            var meaning := DecodeScancode(code).value.meaning;
            && parsed.address == meaning.address && parsed.command == meaning.command
            && (parsed.protocol == meaning.protocol <==> UnambiguousScancode(code))
  {
    match code.protocol {
      case Nec =>
      case NecX => NecXAgrees(code);
      case Nec32 => Nec32Agrees(code);
    }
  }

  lemma HalvesOfWord(x: nat)
    ensures x % 0x1_0000 % 256 == x % 256
    ensures x % 0x1_0000 / 256 == x / 256 % 256
  {
    var q, r := x / 0x1_0000, x % 0x1_0000;
    assert x == 256 * (256 * q + r / 256) + r % 256;
    assert x / 256 == 256 * q + r / 256;
  }

  lemma ShiftTwice(x: nat)
    ensures x / 256 / 256 == x / 0x1_0000
    ensures x / 0x1_0000 / 256 == x / 0x100_0000
  {
  }

  // ---------------------------------------------------------------- encoder

  /** Element i of the frame for these bytes: header, then a pulse and a space per bit, then a stop pulse. */
  function FrameElement(bytes: seq<u8>, i: nat): u32
    requires i < 2 + |bytes| * 16 + 1
  {
    if i == 0 then K_NEC_HDR_PULSE_US
    else if i == 1 then K_NEC_HDR_SPACE_US
    else if i % 2 == 0 then K_NEC_BIT_PULSE_US
    else CellSpace(bytes, (i - 3) / 2)
  }

  /** The space of bit number n of the packet, bytes in order, least significant bit first. */
  function CellSpace(bytes: seq<u8>, n: nat): u32
    requires n < |bytes| * 8
  {
    if Bit(bytes[n / 8], n % 8) then K_NEC_ONE_SPACE_US else K_NEC_ZERO_SPACE_US
  }

  lemma CellElements(bytes: seq<u8>, n: nat)
    requires n < |bytes| * 8
    ensures FrameElement(bytes, 2 + 2 * n) == K_NEC_BIT_PULSE_US
    ensures FrameElement(bytes, 3 + 2 * n) == CellSpace(bytes, n)
  {
    assert (3 + 2 * n - 3) / 2 == n;
  }

  function Frame(bytes: seq<u8>): (frame: seq<u32>)
    ensures |frame| == 2 + |bytes| * 16 + 1
  {
    seq(2 + |bytes| * 16 + 1, i requires 0 <= i < 2 + |bytes| * 16 + 1 => FrameElement(bytes, i))
  }

  /** A beginning of the frame, element by element. */
  ghost predicate BeginsFrame(bytes: seq<u8>, pulses: seq<u32>) {
    |pulses| <= 2 + |bytes| * 16 + 1 && forall i :: 0 <= i < |pulses| ==> pulses[i] == FrameElement(bytes, i)
  }

  lemma CellBeginsFrame(bytes: seq<u8>, pulses: seq<u32>, n: nat)
    requires n < |bytes| * 8 && |pulses| == 2 + 2 * n && BeginsFrame(bytes, pulses)
    ensures BeginsFrame(bytes, pulses + [K_NEC_BIT_PULSE_US, CellSpace(bytes, n)])
  {
    CellElements(bytes, n);
  }

  lemma WholeFrame(bytes: seq<u8>, pulses: seq<u32>)
    requires |pulses| == 2 + |bytes| * 16 && BeginsFrame(bytes, pulses)
    ensures pulses + [K_NEC_BIT_PULSE_US] == Frame(bytes)
  {
    var whole, frame := pulses + [K_NEC_BIT_PULSE_US], Frame(bytes);
    assert |whole| == |frame|;
    forall i | 0 <= i < |frame|
      ensures whole[i] == frame[i]
    {
      assert frame[i] == FrameElement(bytes, i);
    }
  }

  method EncodeNecPacket(bytes: seq<u8>) returns (pulses: seq<u32>)
    ensures pulses == Frame(bytes)
  {
    pulses := [K_NEC_HDR_PULSE_US, K_NEC_HDR_SPACE_US];
    for index := 0 to |bytes|
      invariant |pulses| == 2 + index * 16 && BeginsFrame(bytes, pulses)
    {
      for bit := 0 to 8
        invariant |pulses| == 2 + index * 16 + bit * 2 && BeginsFrame(bytes, pulses)
      {
        CellBeginsFrame(bytes, pulses, 8 * index + bit);
        assert (8 * index + bit) / 8 == index && (8 * index + bit) % 8 == bit;
        var space := if Bit(bytes[index], bit) then K_NEC_ONE_SPACE_US else K_NEC_ZERO_SPACE_US;
        pulses := pulses + [K_NEC_BIT_PULSE_US, space];
      }
    }
    WholeFrame(bytes, pulses);
    pulses := pulses + [K_NEC_BIT_PULSE_US];
  }

  // ---------------------------------------------------------------- decoder

  predicate HeaderPulse(value: u32) { Approx(value, K_NEC_HDR_PULSE_US, 2500) }
  predicate HeaderSpace(value: u32) { Approx(value, K_NEC_HDR_SPACE_US, 1800) }
  predicate BitPulse(value: u32) { Approx(value, K_NEC_BIT_PULSE_US, 450) }
  predicate OneSpace(value: u32) { Approx(value, K_NEC_ONE_SPACE_US, 850) }
  predicate ZeroSpace(value: u32) { Approx(value, K_NEC_ZERO_SPACE_US, 500) }

  /** Pulse and space of bit number n of a frame that starts at `start`. */
  predicate CellAt(d: seq<u32>, start: nat, n: nat)
    requires start + K_FRAME_LENGTH <= |d| && n < 32
  {
    BitPulse(d[start + 2 + 2 * n]) && (OneSpace(d[start + 3 + 2 * n]) || ZeroSpace(d[start + 3 + 2 * n]))
  }

  predicate FrameAt(d: seq<u32>, start: nat) {
    && start + K_FRAME_LENGTH <= |d|
    && HeaderPulse(d[start]) && HeaderSpace(d[start + 1])
    && forall n :: 0 <= n < 32 ==> CellAt(d, start, n)
  }

  /** A byte whose bits are the "one" spaces of the k-th group of eight cells. */
  predicate ByteAt(d: seq<u32>, start: nat, k: nat, byte: u8)
    requires start + K_FRAME_LENGTH <= |d| && k < 4
  {
    forall bit :: 0 <= bit < 8 ==> (Bit(byte, bit) <==> OneSpace(d[start + 3 + 2 * (8 * k + bit)]))
  }

  predicate PacketAt(d: seq<u32>, start: nat, packet: seq<u8>) {
    && start + K_FRAME_LENGTH <= |d|
    && |packet| == K_PACKET_BYTES
    && forall k :: 0 <= k < 4 ==> ByteAt(d, start, k, packet[k])
  }

  lemma PacketIsUnique(d: seq<u32>, start: nat, p: seq<u8>, q: seq<u8>)
    requires PacketAt(d, start, p) && PacketAt(d, start, q)
    ensures p == q
  {
    forall k | 0 <= k < 4
      ensures p[k] == q[k]
    {
      assert ByteAt(d, start, k, p[k]) && ByteAt(d, start, k, q[k]);
      ByteWidth();
      BitsDetermineNumber(p[k], q[k], 8);
    }
  }

  /** What the bits of one byte are once the first `count` cells of its group were read. */
  ghost predicate BitsRead(d: seq<u32>, start: nat, k: nat, count: nat, byte: nat)
    requires start + K_FRAME_LENGTH <= |d| && k < 4 && count <= 8
  {
    && byte < Weight(count)
    && forall bit :: 0 <= bit < count ==> (Bit(byte, bit) <==> OneSpace(d[start + 3 + 2 * (8 * k + bit)]))
  }

  ghost predicate CellsRead(d: seq<u32>, start: nat, count: nat)
    requires start + K_FRAME_LENGTH <= |d| && count <= 32
  {
    forall n :: 0 <= n < count ==> CellAt(d, start, n)
  }

  lemma BitIsRead(d: seq<u32>, start: nat, k: nat, bit: nat, byte: nat, next: nat)
    requires start + K_FRAME_LENGTH <= |d| && k < 4 && bit < 8 && BitsRead(d, start, k, bit, byte)
    requires next == if OneSpace(d[start + 3 + 2 * (8 * k + bit)]) then SetBit(byte, bit) else byte
    ensures BitsRead(d, start, k, bit + 1, next)
  {
    SetBitAbove(byte, bit);
    forall j | 0 <= j < bit + 1
      ensures Bit(next, j) <==> OneSpace(d[start + 3 + 2 * (8 * k + j)])
    {
      assert j < bit ==> (Bit(byte, j) <==> OneSpace(d[start + 3 + 2 * (8 * k + j)]));
    }
  }

  method DecodeNecPacketFrom(durations: seq<u32>, start: nat) returns (ok: bool, output: seq<u8>)
    ensures ok <==> FrameAt(durations, start)
    ensures ok ==> PacketAt(durations, start, output)
    ensures !ok ==> output == []
  {
    if |durations| < start + K_FRAME_LENGTH {
      return false, [];
    }
    if !HeaderPulse(durations[start]) || !HeaderSpace(durations[start + 1]) {
      return false, [];
    }
    var bytes: seq<u8> := [];
    var index := start + 2;
    for k := 0 to 4
      invariant |bytes| == k && index == start + 2 + 16 * k && CellsRead(durations, start, 8 * k)
      invariant forall j :: 0 <= j < k ==> ByteAt(durations, start, j, bytes[j])
    {
      var byte: nat := 0;
      for bit := 0 to 8
        invariant index == start + 2 + 2 * (8 * k + bit) && CellsRead(durations, start, 8 * k + bit)
        invariant BitsRead(durations, start, k, bit, byte)
      {
        var pulse, space := durations[index], durations[index + 1];
        index := index + 2;
        if !BitPulse(pulse) {
          assert !CellAt(durations, start, 8 * k + bit);
          return false, [];
        }
        ghost var before := byte;
        if OneSpace(space) {
          byte := SetBit(byte, bit);
        } else if !ZeroSpace(space) {
          assert !CellAt(durations, start, 8 * k + bit);
          return false, [];
        }
        BitIsRead(durations, start, k, bit, before, byte);
        assert CellAt(durations, start, 8 * k + bit);
      }
      ByteWidth();
      bytes := bytes + [byte];
    }
    return true, bytes;
  }

  /** The packet at the first position where a frame decodes. */
  ghost predicate Decodes(d: seq<u32>, packet: seq<u8>) {
    exists start: nat :: FirstFrame(d, start) && PacketAt(d, start, packet)
  }

  predicate FirstFrame(d: seq<u32>, start: nat) {
    FrameAt(d, start) && forall j: nat :: j < start ==> !FrameAt(d, j)
  }

  ghost predicate Undecodable(d: seq<u32>) { forall start: nat :: !FrameAt(d, start) }

  lemma DecodesIsUnique(d: seq<u32>, p: seq<u8>, q: seq<u8>)
    requires Decodes(d, p) && Decodes(d, q)
    ensures p == q
  {
    var i: nat :| FirstFrame(d, i) && PacketAt(d, i, p);
    var j: nat :| FirstFrame(d, j) && PacketAt(d, j, q);
    assert i == j;
    PacketIsUnique(d, i, p, q);
  }

  method DecodeNecPacket(durations: seq<u32>) returns (ok: bool, output: seq<u8>)
    ensures ok ==> Decodes(durations, output)
    ensures !ok ==> Undecodable(durations) && output == []
  {
    var i := 0;
    while i + 2 < |durations|
      invariant forall j: nat :: j < i ==> !FrameAt(durations, j)
    {
      ok, output := DecodeNecPacketFrom(durations, i);
      if ok {
        assert FirstFrame(durations, i);
        return;
      }
      i := i + 1;
    }
    return false, [];
  }

  // ---------------------------------------------------------------- the tolerance theorem

  ghost predicate Jittered(d: seq<u32>, frame: seq<u32>, jitter: int) {
    |d| == |frame| && forall i :: 0 <= i < |d| ==> Near(d[i], frame[i], jitter)
  }

  /** No duration that the header test would take for a leader pulse. */
  ghost predicate NoLeader(d: seq<u32>) {
    forall i :: 0 <= i < |d| ==> !(6500 <= d[i] <= 11500)
  }

  lemma LeaderWindow(value: u32)
    ensures HeaderPulse(value) <==> 6500 <= value <= 11500
    ensures HeaderSpace(value) <==> 2700 <= value <= 6300
    ensures BitPulse(value) <==> 110 <= value <= 1010
    ensures OneSpace(value) <==> 840 <= value <= 2540
    ensures ZeroSpace(value) <==> 60 <= value <= 1060
  {
  }

  /** Only the first element of a jittered frame passes the leader-pulse test. */
  lemma NoLeaderInside(bytes: seq<u8>, d: seq<u32>, i: nat)
    requires Jittered(d, Frame(bytes), K_MAX_JITTER_US) && 0 < i < |d|
    ensures !HeaderPulse(d[i])
  {
    LeaderWindow(d[i]);
    assert Near(d[i], FrameElement(bytes, i), K_MAX_JITTER_US);
  }

  lemma JitteredCell(bytes: seq<u8>, d: seq<u32>, start: nat, n: nat)
    requires |bytes| == K_PACKET_BYTES && start + K_FRAME_LENGTH <= |d| && n < 32
    requires Jittered(d[start..start + K_FRAME_LENGTH], Frame(bytes), K_MAX_JITTER_US)
    ensures CellAt(d, start, n)
    ensures OneSpace(d[start + 3 + 2 * n]) <==> Bit(bytes[n / 8], n % 8)
  {
    var part := d[start..start + K_FRAME_LENGTH];
    var pulse, space := d[start + 2 + 2 * n], d[start + 3 + 2 * n];
    assert part[2 + 2 * n] == pulse && part[3 + 2 * n] == space;
    assert Near(pulse, FrameElement(bytes, 2 + 2 * n), K_MAX_JITTER_US);
    assert Near(space, FrameElement(bytes, 3 + 2 * n), K_MAX_JITTER_US);
    CellElements(bytes, n);
    LeaderWindow(pulse);
    LeaderWindow(space);
  }

  lemma JitteredFrameAt(bytes: seq<u8>, d: seq<u32>, start: nat)
    requires |bytes| == K_PACKET_BYTES && start + K_FRAME_LENGTH <= |d|
    requires Jittered(d[start..start + K_FRAME_LENGTH], Frame(bytes), K_MAX_JITTER_US)
    ensures FrameAt(d, start) && PacketAt(d, start, bytes)
  {
    var part := d[start..start + K_FRAME_LENGTH];
    assert part[0] == d[start] && part[1] == d[start + 1];
    assert Near(part[0], FrameElement(bytes, 0), K_MAX_JITTER_US);
    assert Near(part[1], FrameElement(bytes, 1), K_MAX_JITTER_US);
    LeaderWindow(d[start]);
    LeaderWindow(d[start + 1]);
    forall n | 0 <= n < 32
      ensures CellAt(d, start, n)
    {
      JitteredCell(bytes, d, start, n);
    }
    forall k | 0 <= k < 4
      ensures ByteAt(d, start, k, bytes[k])
    {
      forall bit | 0 <= bit < 8
        ensures Bit(bytes[k], bit) <==> OneSpace(d[start + 3 + 2 * (8 * k + bit)])
      {
        JitteredCell(bytes, d, start, 8 * k + bit);
        assert (8 * k + bit) / 8 == k && (8 * k + bit) % 8 == bit;
      }
    }
  }

  /**
   Resynchronisation and round trip in one: whatever leader-free durations come first and whatever
   follows, a frame jittered by at most 279 us per element decodes to the packet it encodes.
   */
  lemma JitteredFrameDecodes(prefix: seq<u32>, bytes: seq<u8>, frame: seq<u32>, suffix: seq<u32>)
    requires |bytes| == K_PACKET_BYTES && NoLeader(prefix)
    requires Jittered(frame, Frame(bytes), K_MAX_JITTER_US)
    ensures FirstFrame(prefix + frame + suffix, |prefix|)
    ensures forall packet :: Decodes(prefix + frame + suffix, packet) <==> packet == bytes
  {
    var d := prefix + frame + suffix;
    var start := |prefix|;
    assert d[start..start + K_FRAME_LENGTH] == frame;
    JitteredFrameAt(bytes, d, start);
    forall j: nat | j < start
      ensures !FrameAt(d, j)
    {
      if j + K_FRAME_LENGTH <= |d| {
        assert d[j] == prefix[j];
        LeaderWindow(d[j]);
      }
    }
    assert FirstFrame(d, start) && PacketAt(d, start, bytes);
    forall packet | Decodes(d, packet)
      ensures packet == bytes
    {
      DecodesIsUnique(d, packet, bytes);
    }
  }

  /** Every per-element deviation up to `jitter` still decodes, for every address and command. */
  ghost predicate ToleratesJitter(jitter: nat) {
    forall address: u16, command: u16, d: seq<u32> |
      Jittered(d, Frame(MakeNecBytes(address, command)), jitter) ::
      Decodes(d, MakeNecBytes(address, command))
  }

  /** 279 us is the exact tolerance of the codec: a zero space stretched by 280 us reads as a one. */
  lemma JitterToleranceIsExact(jitter: nat)
    ensures ToleratesJitter(jitter) <==> jitter <= K_MAX_JITTER_US
  {
    if jitter <= K_MAX_JITTER_US {
      forall address: u16, command: u16, d: seq<u32> |
        Jittered(d, Frame(MakeNecBytes(address, command)), jitter)
        ensures Decodes(d, MakeNecBytes(address, command))
      {
        var bytes := MakeNecBytes(address, command);
        assert Jittered(d, Frame(bytes), K_MAX_JITTER_US);
        JitteredFrameDecodes([], bytes, d, []);
        assert [] + d + [] == d;
      }
    } else {
      StretchedZeroMisreads();
      var bytes := MakeNecBytes(0, 0);
      var d := Frame(bytes)[3 := 840];
      assert Jittered(d, Frame(bytes), jitter);
      assert !Decodes(d, bytes);
    }
  }

  lemma StretchedZeroMisreads()
    ensures !Decodes(Frame(MakeNecBytes(0, 0))[3 := 840], MakeNecBytes(0, 0))
  {
    var bytes := MakeNecBytes(0, 0);
    var d := Frame(bytes)[3 := 840];
    assert OneSpace(d[0 + 3 + 2 * (8 * 0 + 0)]) && !Bit(bytes[0], 0);
    assert !ByteAt(d, 0, 0, bytes[0]);
    forall start: nat | FirstFrame(d, start)
      ensures !PacketAt(d, start, bytes)
    {
      assert start == 0;
    }
  }
}
