/**
 The infrared receiver session: words read from the LIRC device are cut into pulse trains, decoded,
 de-duplicated against the previous packet and queued, and each poll hands out one queued packet.
 */
module IrReceiver {
  import opened Common
  import opened NecCodec

  const K_BUFFER_LIMIT := 160
  const K_LONG_SPACE_US := 12000

  datatype Message =
    | Blank | Waiting | RawSignal | RepeatReceived | ScancodeReceived
    | PacketReceived(protocol: Protocol) | AddressMismatch
    | ReceiveFailed | Unavailable | OpenFailed | ModeFailed

  datatype Snapshot = Snapshot(
    isOpen: bool, signalSeen: bool, dataChanged: bool, addressMatched: bool,
    filterEnabled: bool, expectedAddress: u16,
    address: u16, command: u16, data: seq<u8>, protocol: Protocol, message: Message)

  const FRESH := Snapshot(false, false, false, false, false, 0, 0, 0, [], NoProtocol, Blank)

  datatype Mode = ScancodeMode | Mode2 | RawMode

  /** One element of a device read: a mode2 or raw word, or a kernel scancode. */
  datatype Item = Word(word: u32) | Code(code: Scancode)

  /** What one poll reads: successive full reads, then "would block" or end of file, or an error. */
  datatype DeviceReads = DeviceReads(chunks: seq<seq<Item>>, broken: bool)

  // ---------------------------------------------------------------- mode2 words

  function Kind(word: u32): nat { word / 0x100_0000 }
  function Value(word: u32): u32 { word % 0x100_0000 }

  predicate IsSpace(word: u32) { Kind(word) == 0 }
  predicate IsPulse(word: u32) { Kind(word) == 1 }
  predicate IsTimeout(word: u32) { Kind(word) == 3 }
  predicate IsOverflow(word: u32) { Kind(word) == 4 }
  predicate IsLongSpace(word: u32) { IsSpace(word) && Value(word) > K_LONG_SPACE_US }

  /** Ends the current pulse train and is not part of the next one. */
  predicate IsBoundary(word: u32) { IsTimeout(word) || IsOverflow(word) || IsLongSpace(word) }

  /** Contributes a duration to the current pulse train. */
  predicate IsData(word: u32) { (IsSpace(word) || IsPulse(word)) && !IsLongSpace(word) }

  // ---------------------------------------------------------------- one packet

  /** The snapshot after a packet was recognised, compared with the packet before it. */
  function Adopt(state: Snapshot, packet: Decoded): Snapshot {
    var meaning := packet.meaning;
    var matched := !state.filterEnabled || meaning.address == state.expectedAddress;
    state.(signalSeen := true,
           dataChanged := packet.data != state.data || meaning.address != state.address
                          || meaning.command != state.command || meaning.protocol != state.protocol
                          || matched != state.addressMatched,
           data := packet.data, address := meaning.address, command := meaning.command,
           protocol := meaning.protocol, addressMatched := matched,
           message := if matched then PacketReceived(meaning.protocol) else AddressMismatch)
  }

  /** finalize_receive: what a pulse train does to the receive state. */
  ghost function Finalized(state: Snapshot, d: seq<u32>): Snapshot {
    if exists packet :: Decodes(d, packet) then
      var packet :| Decodes(d, packet);
      Adopt(state, Decoded(packet, ParseNecBytes(packet).value))
    else
      state.(signalSeen := true, dataChanged := false, message := RawSignal)
  }

  /** finalize_receive_scancode: a repeat or a foreign protocol leaves the packet fields alone. */
  function FinalizedCode(state: Snapshot, code: Scancode): Snapshot {
    if code.repeated then state.(signalSeen := true, dataChanged := false, message := RepeatReceived)
    else match DecodeScancode(code)
      case None => state.(signalSeen := true, dataChanged := false, message := ScancodeReceived)
      case Some(packet) => Adopt(state, packet)
  }

  lemma FinalizedPacket(state: Snapshot, d: seq<u32>, packet: seq<u8>)
    requires Decodes(d, packet)
    ensures Finalized(state, d) == Adopt(state, Decoded(packet, ParseNecBytes(packet).value))
  {
    forall other | Decodes(d, other)
      ensures other == packet
    {
      DecodesIsUnique(d, other, packet);
    }
  }

  // ---------------------------------------------------------------- the queue specification

  /** The session's stream state: unfinished pulse train, receive state, packets not yet polled. */
  datatype Core = Core(buffer: seq<u32>, state: Snapshot, pending: seq<Snapshot>)

  function Queued(pending: seq<Snapshot>, state: Snapshot): seq<Snapshot> {
    if state.dataChanged then pending + [state] else pending
  }

  ghost function Flush(core: Core): Core {
    var state := Finalized(core.state, core.buffer);
    Core([], state, Queued(core.pending, state))
  }

  ghost function FlushIfAny(core: Core): Core {
    if core.buffer == [] then core else Flush(core)
  }

  /** After a duration was appended: a complete frame or an over-long train ends at once. */
  ghost function Settle(core: Core): Core {
    if |core.buffer| >= K_FRAME_LENGTH && !Undecodable(core.buffer) then Flush(core)
    else if |core.buffer| > K_BUFFER_LIMIT then Flush(core)
    else core
  }

  ghost function Accept(core: Core, mode: Mode, item: Item): Core {
    match item
    case Code(code) =>
      if mode.ScancodeMode? then
        var state := FinalizedCode(core.state, code);
        core.(state := state, pending := Queued(core.pending, state))
      else core
    case Word(word) =>
      match mode
      case ScancodeMode => core
      case RawMode => Settle(core.(buffer := core.buffer + [word]))
      case Mode2 =>
        if IsBoundary(word) then FlushIfAny(core)
        else if IsData(word) then Settle(core.(buffer := core.buffer + [Value(word)]))
        else Settle(core)
  }

  ghost function Feed(core: Core, mode: Mode, items: seq<Item>): Core
    decreases items
  {
    if items == [] then core else Feed(Accept(core, mode, items[0]), mode, items[1..])
  }

  /** Feeding a stream is independent of where the reads cut it. */
  lemma {:induction false} FeedAppend(core: Core, mode: Mode, a: seq<Item>, b: seq<Item>)
    ensures Feed(core, mode, a + b) == Feed(Feed(core, mode, a), mode, b)
    decreases a
  {
    if a == [] {
      assert a + b == b;
    } else {
      FeedAppend(Accept(core, mode, a[0]), mode, a[1..], b);
      assert (a + b)[0] == a[0] && (a + b)[1..] == a[1..] + b;
    }
  }

  lemma FeedSnoc(core: Core, mode: Mode, items: seq<Item>, last: Item)
    ensures Feed(core, mode, items + [last]) == Accept(Feed(core, mode, items), mode, last)
  {
    FeedAppend(core, mode, items, [last]);
    assert Feed(Feed(core, mode, items), mode, [last]) == Accept(Feed(core, mode, items), mode, last);
  }

  // ---------------------------------------------------------------- the session object

  /** What the device advertises and how opening it goes. */
  datatype Probe = Probe(available: bool, hasMode2: bool, hasRaw: bool, hasScancode: bool,
                         necEnabled: bool, opens: bool, scancodeAccepted: bool, rawAccepted: bool)

  predicate PrefersScancodes(probe: Probe) {
    probe.hasScancode && (probe.necEnabled || !(probe.hasMode2 || probe.hasRaw))
  }

  predicate StartsScancodes(probe: Probe) { PrefersScancodes(probe) && probe.scancodeAccepted }

  class IrReceiverSession {
    var isOpen: bool
    var scancodeMode: bool
    var mode2: bool
    var buffer: seq<u32>
    var pending: seq<Snapshot>
    var receiveState: Snapshot
    var snapshot: Snapshot

    constructor ()
      ensures !isOpen && buffer == [] && pending == [] && snapshot == FRESH && receiveState == FRESH
    {
      isOpen, scancodeMode, mode2 := false, false, true;
      buffer, pending, receiveState, snapshot := [], [], FRESH, FRESH;
    }

    function CurrentMode(): Mode
      reads this
    {
      if scancodeMode then ScancodeMode else if mode2 then Mode2 else RawMode
    }

    function Stream(): Core
      reads this
    {
      Core(buffer, receiveState, pending)
    }

    /** A second start only changes the visible filter: the receive state keeps the first one. */
    method Start(probe: Probe, expectedAddress: u16, filterAddress: bool) returns (ok: bool)
      requires !isOpen ==> buffer == []
      modifies this
      ensures old(isOpen) ==>
                && ok && isOpen && Stream() == old(Stream()) && CurrentMode() == old(CurrentMode())
                && snapshot == old(snapshot).(expectedAddress := expectedAddress, filterEnabled := filterAddress)
      ensures !old(isOpen) ==>
                && ok == isOpen
                && (ok <==> probe.available && probe.opens && (StartsScancodes(probe) || probe.rawAccepted))
                && buffer == [] && pending == []
                && (ok ==>
                      && receiveState == FRESH.(expectedAddress := expectedAddress, filterEnabled := filterAddress)
                      && snapshot == receiveState.(isOpen := true, message := Waiting)
                      && scancodeMode == StartsScancodes(probe) && mode2 == probe.hasMode2)
                && (!ok ==>
                      snapshot == FRESH.(expectedAddress := expectedAddress, filterEnabled := filterAddress,
                                         message := if !probe.available then Unavailable
                                                    else if !probe.opens then OpenFailed else ModeFailed))
    {
      if isOpen {
        snapshot := snapshot.(expectedAddress := expectedAddress, filterEnabled := filterAddress);
        return true;
      }
      snapshot := FRESH.(expectedAddress := expectedAddress, filterEnabled := filterAddress);
      pending := [];
      receiveState := snapshot;
      if !probe.available {
        snapshot := snapshot.(message := Unavailable);
        return false;
      }
      isOpen := probe.opens;
      if !isOpen {
        snapshot := snapshot.(message := OpenFailed);
        return false;
      }
      scancodeMode := false;
      mode2 := probe.hasMode2;
      if PrefersScancodes(probe) {
        if probe.scancodeAccepted {
          scancodeMode := true;
        }
      }
      if !scancodeMode {
        if !probe.rawAccepted {
          snapshot := snapshot.(message := ModeFailed);
          Stop();
          return false;
        }
      }
      snapshot := snapshot.(isOpen := true, message := Waiting);
      buffer := [];
      return true;
    }

    method Stop()
      modifies this
      ensures !isOpen && !scancodeMode && mode2 == old(mode2)
      ensures buffer == [] && pending == [] && receiveState == FRESH
      ensures snapshot == old(snapshot).(isOpen := false)
    {
      isOpen := false;
      scancodeMode := false;
      buffer := [];
      pending := [];
      receiveState := FRESH;
      if snapshot.isOpen {
        snapshot := snapshot.(isOpen := false);
      }
    }

    method FinalizeReceive(durations: seq<u32>)
      modifies this`receiveState, this`pending
      ensures receiveState == Finalized(old(receiveState), durations)
      ensures pending == Queued(old(pending), receiveState)
    {
      receiveState := receiveState.(dataChanged := false);
      var ok, packet := DecodeNecPacket(durations);
      if ok {
        FinalizedPacket(old(receiveState), durations, packet);
        var meaning := ParseNecBytes(packet).value;
        var matched := !receiveState.filterEnabled || meaning.address == receiveState.expectedAddress;
        var changed := packet != receiveState.data || meaning.address != receiveState.address
                       || meaning.command != receiveState.command
                       || meaning.protocol != receiveState.protocol
                       || matched != receiveState.addressMatched;
        receiveState := receiveState.(
          signalSeen := true, dataChanged := changed, data := packet, address := meaning.address,
          command := meaning.command, protocol := meaning.protocol, addressMatched := matched,
          message := if matched then PacketReceived(meaning.protocol) else AddressMismatch);
      } else {
        NothingDecodes(durations);
        receiveState := receiveState.(signalSeen := true, message := RawSignal);
      }
      if receiveState.dataChanged {
        pending := pending + [receiveState];
      }
    }

    method AcceptCode(code: Scancode)
      modifies this`receiveState, this`pending
      ensures receiveState == FinalizedCode(old(receiveState), code)
      ensures pending == Queued(old(pending), receiveState)
    {
      receiveState := receiveState.(dataChanged := false);
      if code.repeated {
        receiveState := receiveState.(signalSeen := true, message := RepeatReceived);
      } else {
        var packet := DecodeScancode(code);
        match packet
        case None =>
          receiveState := receiveState.(signalSeen := true, message := ScancodeReceived);
        case Some(decoded) =>
          receiveState := Adopt(receiveState, decoded);
      }
      if receiveState.dataChanged {
        pending := pending + [receiveState];
      }
    }

    method AcceptWord(word: u32)
      requires !scancodeMode
      modifies this`receiveState, this`pending, this`buffer
      ensures Stream() == Accept(old(Stream()), CurrentMode(), Word(word))
    {
      if mode2 {
        if IsTimeout(word) || IsOverflow(word) {
          if buffer != [] {
            FinalizeReceive(buffer);
            buffer := [];
          }
          return;
        }
        if IsSpace(word) || IsPulse(word) {
          var value := Value(word);
          if IsSpace(word) && value > K_LONG_SPACE_US {
            if buffer != [] {
              FinalizeReceive(buffer);
              buffer := [];
            }
            return;
          }
          buffer := buffer + [value];
        }
      } else {
        buffer := buffer + [word];
      }
      EndFinishedTrain();
    }

    method EndFinishedTrain()
      modifies this`receiveState, this`pending, this`buffer
      ensures Stream() == Settle(old(Stream()))
    {
      if |buffer| >= K_FRAME_LENGTH {
        var ok, _ := DecodeNecPacket(buffer);
        if ok {
          SomethingDecodes(buffer);
          FinalizeReceive(buffer);
          buffer := [];
        }
      }
      if |buffer| > K_BUFFER_LIMIT {
        FinalizeReceive(buffer);
        buffer := [];
      }
    }

    /**
     Drains the device, then hands out the oldest queued packet if there is one. The outcome depends
     only on the words read, not on how the reads were cut.
     */
    method Poll(input: DeviceReads) returns (result: Snapshot)
      modifies this
      ensures result == snapshot && (!input.broken ==> CurrentMode() == old(CurrentMode()))
      ensures !old(isOpen) ==>
                && !isOpen && Stream() == old(Stream())
                && snapshot == old(snapshot).(dataChanged := false) == result
      ensures old(isOpen) && input.broken ==>
                && !isOpen && Stream() == Core([], FRESH, [])
                && snapshot == old(snapshot).(dataChanged := false, message := ReceiveFailed, isOpen := false) == result
      ensures old(isOpen) && !input.broken ==>
                var after := Feed(old(Stream()), old(CurrentMode()), Flatten(input.chunks));
                && isOpen && buffer == after.buffer && receiveState == after.state
                && pending == (if after.pending == [] then [] else after.pending[1..])
                && snapshot == if after.pending == [] then old(snapshot).(dataChanged := false) else after.pending[0]
    {
      snapshot := snapshot.(dataChanged := false);
      if !isOpen {
        return snapshot;
      }
      ghost var start := Stream();
      ghost var seen := [];
      for c := 0 to |input.chunks|
        invariant isOpen && CurrentMode() == old(CurrentMode())
        invariant snapshot == old(snapshot).(dataChanged := false)
        invariant seen == Flatten(input.chunks[..c])
        invariant Stream() == Feed(start, CurrentMode(), seen)
      {
        var items := input.chunks[c];
        for i := 0 to |items|
          invariant isOpen && CurrentMode() == old(CurrentMode())
          invariant snapshot == old(snapshot).(dataChanged := false)
          invariant seen == Flatten(input.chunks[..c]) + items[..i]
          invariant Stream() == Feed(start, CurrentMode(), seen)
        {
          FeedSnoc(start, CurrentMode(), seen, items[i]);
          match items[i] {
            case Word(word) =>
              if !scancodeMode {
                AcceptWord(word);
              }
            case Code(code) =>
              if scancodeMode {
                AcceptCode(code);
              }
          }
          seen := seen + [items[i]];
        }
        FlattenSnoc(input.chunks[..c], items);
        assert input.chunks[..c + 1] == input.chunks[..c] + [items];
      }
      assert input.chunks[..|input.chunks|] == input.chunks;
      if input.broken {
        snapshot := snapshot.(message := ReceiveFailed);
        Stop();
        return snapshot;
      }
      if pending != [] {
        snapshot := pending[0];
        pending := pending[1..];
      }
      return snapshot;
    }
  }

  lemma NothingDecodes(d: seq<u32>)
    requires Undecodable(d)
    ensures forall packet :: !Decodes(d, packet)
  {
  }

  lemma SomethingDecodes(d: seq<u32>)
    requires exists packet :: Decodes(d, packet)
    ensures !Undecodable(d)
  {
  }
}
