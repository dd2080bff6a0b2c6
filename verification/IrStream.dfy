/**
 End to end through the receiver: which packets a stream of mode2 words delivers, in which order, and
 how polls hand them out.
 */
module IrStream {
  import opened Common
  import opened NecCodec
  import opened IrReceiver

  // ---------------------------------------------------------------- streams of words

  function Values(words: seq<u32>): (d: seq<u32>)
    ensures |d| == |words|
  {
    seq(|words|, i requires 0 <= i < |words| => Value(words[i]))
  }

  function Items(words: seq<u32>): (items: seq<Item>)
    ensures |items| == |words|
  {
    seq(|words|, i requires 0 <= i < |words| => Word(words[i]))
  }

  lemma ItemsAppend(a: seq<u32>, b: seq<u32>)
    ensures Items(a + b) == Items(a) + Items(b)
  {
  }

  ghost predicate AllData(words: seq<u32>) { forall i :: 0 <= i < |words| ==> IsData(words[i]) }

  /**
   What can be on the air: a gap between trains, leader-free noise ended by a gap, or a jittered frame
   straight after leader-free noise.
   */
  datatype Segment =
    | Gap(gap: u32)
    | Static(noise: seq<u32>, gap: u32)
    | Burst(lead: seq<u32>, packet: seq<u8>, frame: seq<u32>)

  /** Noise before a frame leaves room for it in the buffer: at most 94 durations, modulo the cap. */
  predicate RoomAfter(leadLength: nat) { leadLength % (K_BUFFER_LIMIT + 1) <= 94 }

  ghost predicate IsBurst(lead: seq<u32>, packet: seq<u8>, frame: seq<u32>) {
    && AllData(lead) && NoLeader(Values(lead))
    && |packet| == K_PACKET_BYTES
    && AllData(frame) && Jittered(Values(frame), Frame(packet), K_MAX_JITTER_US)
  }

  ghost predicate WellFormed(segment: Segment) {
    match segment
    case Gap(gap) => IsBoundary(gap)
    case Static(noise, gap) => AllData(noise) && NoLeader(Values(noise)) && IsBoundary(gap)
    case Burst(lead, packet, frame) => IsBurst(lead, packet, frame) && RoomAfter(|lead|)
  }

  function SegmentWords(segment: Segment): seq<u32> {
    match segment
    case Gap(gap) => [gap]
    case Static(noise, gap) => noise + [gap]
    case Burst(lead, _, frame) => lead + frame
  }

  function StreamWords(segments: seq<Segment>): seq<u32> {
    if segments == [] then [] else SegmentWords(segments[0]) + StreamWords(segments[1..])
  }

  function Packets(segments: seq<Segment>): seq<seq<u8>> {
    if segments == [] then []
    else (if segments[0].Burst? then [segments[0].packet] else []) + Packets(segments[1..])
  }

  // ---------------------------------------------------------------- what the receiver should queue

  /** The packets that differ from the one before them, starting from `last`. */
  function Distinct(last: seq<u8>, packets: seq<seq<u8>>): seq<seq<u8>>
    decreases packets
  {
    if packets == [] then []
    else (if packets[0] == last then [] else [packets[0]]) + Distinct(packets[0], packets[1..])
  }

  /** The packet fields of a receive state all come from its last packet. */
  predicate Coherent(state: Snapshot) {
    || (state.data == [])
    || (|state.data| == K_PACKET_BYTES && Describes(state, state.data, state.filterEnabled, state.expectedAddress))
  }

  predicate Describes(shown: Snapshot, packet: seq<u8>, filterEnabled: bool, expectedAddress: u16)
    requires |packet| == K_PACKET_BYTES
  {
    var meaning := ParseNecBytes(packet).value;
    && shown.data == packet
    && shown.address == meaning.address && shown.command == meaning.command
    && shown.protocol == meaning.protocol
    && shown.addressMatched == (!filterEnabled || meaning.address == expectedAddress)
    && shown.filterEnabled == filterEnabled && shown.expectedAddress == expectedAddress
  }

  /** A queued snapshot announces a change and shows exactly this packet. */
  predicate Announces(shown: Snapshot, packet: seq<u8>, filterEnabled: bool, expectedAddress: u16) {
    && |packet| == K_PACKET_BYTES
    && shown.dataChanged && shown.signalSeen
    && Describes(shown, packet, filterEnabled, expectedAddress)
  }

  predicate AnnounceAll(shown: seq<Snapshot>, packets: seq<seq<u8>>, filterEnabled: bool, expectedAddress: u16) {
    |shown| == |packets|
    && forall i :: 0 <= i < |shown| ==> Announces(shown[i], packets[i], filterEnabled, expectedAddress)
  }

  lemma {:induction false} DistinctNeighbours(last: seq<u8>, packets: seq<seq<u8>>)
    ensures forall i :: 0 < i < |Distinct(last, packets)| ==>
                          Distinct(last, packets)[i] != Distinct(last, packets)[i - 1]
    ensures |Distinct(last, packets)| > 0 ==> Distinct(last, packets)[0] != last
    decreases packets
  {
    if packets != [] {
      DistinctNeighbours(packets[0], packets[1..]);
    }
  }

  // ---------------------------------------------------------------- single segments

  lemma AdoptPacket(state: Snapshot, packet: seq<u8>)
    requires Coherent(state) && |packet| == K_PACKET_BYTES
    ensures var next := Adopt(state, Decoded(packet, ParseNecBytes(packet).value));
            && Coherent(next) && next.data == packet
            && Describes(next, packet, state.filterEnabled, state.expectedAddress)
            && next.signalSeen
            && (next.dataChanged <==> packet != state.data)
  {
  }

  /** No frame starts in leader-free noise followed by an unfinished jittered frame. */
  lemma UnfinishedTrain(noise: seq<u32>, packet: seq<u8>, frame: seq<u32>, m: nat)
    requires NoLeader(noise) && |packet| == K_PACKET_BYTES
    requires Jittered(frame, Frame(packet), K_MAX_JITTER_US) && m < |frame|
    ensures Undecodable(noise + frame[..m])
  {
    var d := noise + frame[..m];
    forall start: nat
      ensures !FrameAt(d, start)
    {
      if start + K_FRAME_LENGTH <= |d| {
        assert d[start] == noise[start];
        LeaderWindow(d[start]);
      }
    }
  }

  lemma NoiseIsUndecodable(noise: seq<u32>)
    requires NoLeader(noise)
    ensures Undecodable(noise)
  {
    forall start: nat
      ensures !FrameAt(noise, start)
    {
      if start + K_FRAME_LENGTH <= |noise| {
        LeaderWindow(noise[start]);
      }
    }
  }

  /** A train that does not decode changes no packet field and queues nothing. */
  lemma FlushOfUndecodable(core: Core)
    requires Undecodable(core.buffer)
    ensures Flush(core) == Core([], core.state.(signalSeen := true, dataChanged := false, message := RawSignal),
                                core.pending)
  {
    NothingDecodes(core.buffer);
  }

  /** State before and after words that deliver no packet. */
  predicate SamePackets(before: Core, after: Core) {
    && after.pending == before.pending
    && after.state.data == before.state.data && after.state.address == before.state.address
    && after.state.command == before.state.command && after.state.protocol == before.state.protocol
    && after.state.addressMatched == before.state.addressMatched
    && after.state.filterEnabled == before.state.filterEnabled
    && after.state.expectedAddress == before.state.expectedAddress
  }

  lemma NoiseStep(core: Core, word: u32)
    requires NoLeader(core.buffer) && |core.buffer| <= K_BUFFER_LIMIT
    requires IsData(word) && NoLeader([Value(word)])
    ensures var after := Accept(core, Mode2, Word(word));
            && SamePackets(core, after) && NoLeader(after.buffer)
            && |after.buffer| == (|core.buffer| + 1) % (K_BUFFER_LIMIT + 1)
  {
    var next := core.(buffer := core.buffer + [Value(word)]);
    assert [Value(word)][0] == Value(word);
    NoiseIsUndecodable(next.buffer);
    FlushOfUndecodable(next);
    assert Accept(core, Mode2, Word(word)) == Settle(next);
  }

  lemma CountModulo(held: nat, n: nat)
    requires n > 0
    ensures ((held + 1) % (K_BUFFER_LIMIT + 1) + (n - 1)) % (K_BUFFER_LIMIT + 1) == (held + n) % (K_BUFFER_LIMIT + 1)
  {
    var cycle := K_BUFFER_LIMIT + 1;
    var rest := (held + 1) % cycle + (n - 1);
    RemainderIs(held + n, (held + 1) / cycle + rest / cycle, rest % cycle);
  }

  lemma RemainderIs(x: nat, q: nat, r: nat)
    requires r <= K_BUFFER_LIMIT && x == (K_BUFFER_LIMIT + 1) * q + r
    ensures x % (K_BUFFER_LIMIT + 1) == r
  {
    var other := x / (K_BUFFER_LIMIT + 1);
    assert other == q;
  }

  lemma TailOfNoise(words: seq<u32>)
    requires AllData(words) && NoLeader(Values(words)) && words != []
    ensures AllData(words[1..]) && NoLeader(Values(words[1..]))
    ensures Items(words)[1..] == Items(words[1..])
  {
    assert forall i :: 0 <= i < |words[1..]| ==> Values(words[1..])[i] == Values(words)[i + 1];
  }

  /** Leader-free words of any number deliver nothing; the buffer is emptied each time it reaches 161. */
  lemma {:induction false} NoiseDelivers(core: Core, words: seq<u32>)
    requires NoLeader(core.buffer) && |core.buffer| <= K_BUFFER_LIMIT
    requires AllData(words) && NoLeader(Values(words))
    ensures var after := Feed(core, Mode2, Items(words));
            && SamePackets(core, after) && NoLeader(after.buffer)
            && |after.buffer| == (|core.buffer| + |words|) % (K_BUFFER_LIMIT + 1)
    decreases words
  {
    if words != [] {
      assert Values(words)[0] == Value(words[0]);
      NoiseStep(core, words[0]);
      var next := Accept(core, Mode2, Word(words[0]));
      TailOfNoise(words);
      NoiseDelivers(next, words[1..]);
      CountModulo(|core.buffer|, |words|);
      assert Feed(core, Mode2, Items(words)) == Feed(next, Mode2, Items(words[1..]));
    }
  }

  /** Words that stay below the cap without completing a frame only lengthen the buffer. */
  lemma {:induction false} Accumulate(core: Core, noise: seq<u32>, packet: seq<u8>, frame: seq<u32>, m: nat, n: nat)
    requires NoLeader(noise) && |packet| == K_PACKET_BYTES && AllData(frame)
    requires Jittered(Values(frame), Frame(packet), K_MAX_JITTER_US)
    requires m <= n < |frame| && |noise| + n <= K_BUFFER_LIMIT
    requires core.buffer == noise + Values(frame)[..m]
    ensures Feed(core, Mode2, Items(frame[m..n])) == core.(buffer := noise + Values(frame)[..n])
    decreases n - m
  {
    if m < n {
      var next := core.(buffer := core.buffer + [Value(frame[m])]);
      assert next.buffer == noise + Values(frame)[..m + 1];
      UnfinishedTrain(noise, packet, Values(frame), m + 1);
      assert Items(frame[m..n])[0] == Word(frame[m]) && Items(frame[m..n])[1..] == Items(frame[m + 1..n]);
      assert Accept(core, Mode2, Word(frame[m])) == next;
      Accumulate(next, noise, packet, frame, m + 1, n);
    }
  }

  lemma FullTrainSettles(core: Core, noise: seq<u32>, packet: seq<u8>, d: seq<u32>)
    requires NoLeader(noise) && |packet| == K_PACKET_BYTES
    requires Jittered(d, Frame(packet), K_MAX_JITTER_US) && core.buffer == noise + d
    ensures var state := Adopt(core.state, Decoded(packet, ParseNecBytes(packet).value));
            Settle(core) == Core([], state, Queued(core.pending, state))
  {
    assert core.buffer == noise + d + [];
    JitteredFrameDecodes(noise, packet, d, []);
    assert Decodes(core.buffer, packet);
    SomethingDecodes(core.buffer);
    FinalizedPacket(core.state, core.buffer, packet);
  }

  lemma DataWordSettles(core: Core, word: u32, d: seq<u32>)
    requires IsData(word) && d == core.buffer + [Value(word)]
    ensures Accept(core, Mode2, Word(word)) == Settle(core.(buffer := d))
  {
  }

  /** All words of a frame but the last only lengthen the buffer. */
  lemma FrameBody(core: Core, packet: seq<u8>, frame: seq<u32>)
    requires NoLeader(core.buffer) && |core.buffer| <= 94
    requires IsBurst([], packet, frame)
    ensures Feed(core, Mode2, Items(frame[..|frame| - 1]))
            == core.(buffer := core.buffer + Values(frame)[..|frame| - 1])
  {
    assert core.buffer + Values(frame)[..0] == core.buffer;
    assert frame[0..|frame| - 1] == frame[..|frame| - 1];
    Accumulate(core, core.buffer, packet, frame, 0, |frame| - 1);
  }

  lemma ItemsSnoc(words: seq<u32>)
    requires |words| > 0
    ensures Items(words) == Items(words[..|words| - 1]) + [Word(words[|words| - 1])]
    ensures Values(words) == Values(words)[..|words| - 1] + [Value(words[|words| - 1])]
  {
  }

  /** A frame after leader-free durations that leave room for it is recognised at its last word. */
  lemma FrameDelivers(core: Core, packet: seq<u8>, frame: seq<u32>)
    requires NoLeader(core.buffer) && |core.buffer| <= 94
    requires IsBurst([], packet, frame)
    ensures var state := Adopt(core.state, Decoded(packet, ParseNecBytes(packet).value));
            Feed(core, Mode2, Items(frame)) == Core([], state, Queued(core.pending, state))
  {
    var d, last := Values(frame), frame[|frame| - 1];
    var before := core.(buffer := core.buffer + d[..|frame| - 1]);
    FrameBody(core, packet, frame);
    ItemsSnoc(frame);
    FeedSnoc(core, Mode2, Items(frame[..|frame| - 1]), Word(last));
    assert core.buffer + d == before.buffer + [Value(last)];
    DataWordSettles(before, last, core.buffer + d);
    FullTrainSettles(core.(buffer := core.buffer + d), core.buffer, packet, d);
  }

  /** Everything in a jittered frame after its first element is leader-free. */
  lemma TailIsNoise(packet: seq<u8>, frame: seq<u32>, m: nat)
    requires IsBurst([], packet, frame) && 0 < m <= |frame|
    ensures AllData(frame[m..]) && NoLeader(Values(frame[m..]))
  {
    forall i | 0 <= i < |frame[m..]|
      ensures !(6500 <= Values(frame[m..])[i] <= 11500)
    {
      assert Values(frame[m..])[i] == Values(frame)[m + i];
      NoLeaderInside(packet, Values(frame), m + i);
      LeaderWindow(Values(frame[m..])[i]);
    }
  }

  /** Without room, the word that brings the buffer to 161 ends an undecodable train. */
  lemma CutInsideFrame(core: Core, packet: seq<u8>, frame: seq<u32>, n: nat)
    requires NoLeader(core.buffer) && |core.buffer| + n == K_BUFFER_LIMIT
    requires IsBurst([], packet, frame) && n + 1 < |frame|
    ensures var after := Feed(core, Mode2, Items(frame[..n + 1]));
            SamePackets(core, after) && after.buffer == []
  {
    var noise := core.buffer;
    assert noise + Values(frame)[..0] == noise;
    Accumulate(core, noise, packet, frame, 0, n);
    var before := core.(buffer := noise + Values(frame)[..n]);
    var full := core.(buffer := before.buffer + [Value(frame[n])]);
    assert full.buffer == noise + Values(frame)[..n + 1];
    UnfinishedTrain(noise, packet, Values(frame), n + 1);
    FlushOfUndecodable(full);
    assert Items(frame[..n + 1]) == Items(frame[0..n]) + [Word(frame[n])];
    FeedSnoc(core, Mode2, Items(frame[0..n]), Word(frame[n]));
    assert Accept(before, Mode2, Word(frame[n])) == Flush(full);
  }

  /** Without room the buffer is cut inside the frame, and the rest of it is noise. */
  lemma FrameIsCut(core: Core, packet: seq<u8>, frame: seq<u32>)
    requires NoLeader(core.buffer) && 94 < |core.buffer| <= K_BUFFER_LIMIT
    requires IsBurst([], packet, frame)
    ensures var after := Feed(core, Mode2, Items(frame));
            SamePackets(core, after) && NoLeader(after.buffer)
  {
    var n := K_BUFFER_LIMIT - |core.buffer|;
    CutInsideFrame(core, packet, frame, n);
    TailIsNoise(packet, frame, n + 1);
    assert frame == frame[..n + 1] + frame[n + 1..];
    ItemsAppend(frame[..n + 1], frame[n + 1..]);
    FeedAppend(core, Mode2, Items(frame[..n + 1]), Items(frame[n + 1..]));
    NoiseDelivers(Feed(core, Mode2, Items(frame[..n + 1])), frame[n + 1..]);
  }

  /**
   Starting from an empty buffer, a frame is received exactly when the noise straight before it leaves
   room: its length, counted modulo the 161 at which the buffer is emptied, is at most 94.
   */
  lemma BurstReceivedIffRoom(core: Core, lead: seq<u32>, packet: seq<u8>, frame: seq<u32>)
    requires core.buffer == [] && Coherent(core.state)
    requires IsBurst(lead, packet, frame)
    ensures var after := Feed(core, Mode2, Items(lead + frame));
            if RoomAfter(|lead|) then
              && after.buffer == []
              && Coherent(after.state) && after.state.data == packet
              && after.state.filterEnabled == core.state.filterEnabled
              && after.state.expectedAddress == core.state.expectedAddress
              && (if packet == core.state.data then after.pending == core.pending
                  else
                    && |after.pending| == |core.pending| + 1
                    && after.pending[..|core.pending|] == core.pending
                    && Announces(after.pending[|core.pending|], packet,
                                 core.state.filterEnabled, core.state.expectedAddress))
            else SamePackets(core, after)
  {
    ItemsAppend(lead, frame);
    FeedAppend(core, Mode2, Items(lead), Items(frame));
    NoiseDelivers(core, lead);
    var quiet := Feed(core, Mode2, Items(lead));
    if RoomAfter(|lead|) {
      FrameDelivers(quiet, packet, frame);
      AdoptPacket(quiet.state, packet);
    } else {
      FrameIsCut(quiet, packet, frame);
    }
  }

  lemma GapDelivers(core: Core, gap: u32)
    requires NoLeader(core.buffer) && IsBoundary(gap)
    ensures var after := Feed(core, Mode2, Items([gap]));
            SamePackets(core, after) && after.buffer == []
  {
    NoiseIsUndecodable(core.buffer);
    FlushOfUndecodable(core);
    assert Items([gap]) == [Word(gap)];
    assert Feed(core, Mode2, [Word(gap)]) == Accept(core, Mode2, Word(gap));
  }

  // ---------------------------------------------------------------- whole streams

  function LastOr(last: seq<u8>, packets: seq<seq<u8>>): seq<u8> {
    if packets == [] then last else packets[|packets| - 1]
  }

  lemma {:induction false} DistinctAppend(last: seq<u8>, p: seq<seq<u8>>, q: seq<seq<u8>>)
    ensures Distinct(last, p + q) == Distinct(last, p) + Distinct(LastOr(last, p), q)
    decreases p
  {
    if p == [] {
      assert p + q == q;
    } else {
      DistinctAppend(p[0], p[1..], q);
      assert (p + q)[0] == p[0] && (p + q)[1..] == p[1..] + q;
      var head := if p[0] == last then [] else [p[0]];
      var tail, more := Distinct(p[0], p[1..]), Distinct(LastOr(last, p), q);
      assert LastOr(p[0], p[1..]) == LastOr(last, p);
      AppendAssociates(head, tail, more);
    }
  }

  /** From `before` to `after`, exactly these packets arrived: all queued in order, repeats left out. */
  predicate Delivers(before: Core, after: Core, packets: seq<seq<u8>>) {
    && after.buffer == [] && Coherent(after.state)
    && after.state.data == LastOr(before.state.data, packets)
    && after.state.filterEnabled == before.state.filterEnabled
    && after.state.expectedAddress == before.state.expectedAddress
    && before.pending <= after.pending
    && AnnounceAll(after.pending[|before.pending|..], Distinct(before.state.data, packets),
                   before.state.filterEnabled, before.state.expectedAddress)
  }

  lemma DeliversThen(a: Core, b: Core, c: Core, p: seq<seq<u8>>, q: seq<seq<u8>>)
    requires Delivers(a, b, p) && Delivers(b, c, q)
    ensures Delivers(a, c, p + q)
  {
    DistinctAppend(a.state.data, p, q);
    assert c.pending[|a.pending|..] == b.pending[|a.pending|..] + c.pending[|b.pending|..];
  }

  lemma QuietDelivers(before: Core, after: Core)
    requires SamePackets(before, after) && after.buffer == [] && Coherent(before.state)
    ensures Delivers(before, after, [])
  {
    assert after.pending[|before.pending|..] == [];
  }

  lemma SegmentDelivers(core: Core, segment: Segment)
    requires core.buffer == [] && Coherent(core.state) && WellFormed(segment)
    ensures Delivers(core, Feed(core, Mode2, Items(SegmentWords(segment))),
                     if segment.Burst? then [segment.packet] else [])
  {
    var after := Feed(core, Mode2, Items(SegmentWords(segment)));
    match segment {
      case Gap(gap) =>
        GapDelivers(core, gap);
        QuietDelivers(core, after);
      case Static(noise, gap) =>
        NoiseDelivers(core, noise);
        ItemsAppend(noise, [gap]);
        FeedAppend(core, Mode2, Items(noise), Items([gap]));
        GapDelivers(Feed(core, Mode2, Items(noise)), gap);
        QuietDelivers(core, after);
      case Burst(lead, packet, frame) =>
        BurstReceivedIffRoom(core, lead, packet, frame);
        assert Distinct(packet, []) == [];
        assert Distinct(core.state.data, [packet]) == if packet == core.state.data then [] else [packet];
    }
  }

  /**
   End to end: from an empty buffer, a stream of gaps, static and jittered frames queues exactly the
   packets sent, in order, with consecutive duplicates collapsed, each shown with its own address,
   command, protocol and filter verdict.
   */
  lemma {:induction false} StreamDelivers(core: Core, segments: seq<Segment>)
    requires core.buffer == [] && Coherent(core.state)
    requires forall i :: 0 <= i < |segments| ==> WellFormed(segments[i])
    ensures Delivers(core, Feed(core, Mode2, Items(StreamWords(segments))), Packets(segments))
    decreases segments
  {
    if segments == [] {
      QuietDelivers(core, core);
    } else {
      var words, rest := SegmentWords(segments[0]), segments[1..];
      var mid := Feed(core, Mode2, Items(words));
      SegmentDelivers(core, segments[0]);
      StreamDelivers(mid, rest);
      ItemsAppend(words, StreamWords(rest));
      FeedAppend(core, Mode2, Items(words), Items(StreamWords(rest)));
      DeliversThen(core, mid, Feed(mid, Mode2, Items(StreamWords(rest))),
                   if segments[0].Burst? then [segments[0].packet] else [], Packets(rest));
    }
  }

  // ---------------------------------------------------------------- polling

  /** What a session shows and holds: the observable side of polling. */
  datatype Session = Session(core: Core, snapshot: Snapshot)

  /** One poll of an open session without a read error, as specified for IrReceiverSession.Poll. */
  ghost function PollOnce(session: Session, mode: Mode, chunks: seq<seq<Item>>): Session {
    var after := Feed(session.core, mode, Flatten(chunks));
    if after.pending == [] then Session(after, session.snapshot.(dataChanged := false))
    else Session(after.(pending := after.pending[1..]), after.pending[0])
  }

  ghost function PollAll(session: Session, mode: Mode, polls: seq<seq<seq<Item>>>): Session
    decreases polls
  {
    if polls == [] then session else PollAll(PollOnce(session, mode, polls[0]), mode, polls[1..])
  }

  /** The packet a poll hands out, if any. */
  ghost function HandedOut(session: Session, mode: Mode, chunks: seq<seq<Item>>): seq<Snapshot> {
    var next := PollOnce(session, mode, chunks);
    if next.snapshot.dataChanged then [next.snapshot] else []
  }

  /** The snapshots returned with data_changed set, in poll order. */
  ghost function Changed(session: Session, mode: Mode, polls: seq<seq<seq<Item>>>): seq<Snapshot>
    decreases polls
  {
    if polls == [] then []
    else
      var next := PollOnce(session, mode, polls[0]);
      HandedOut(session, mode, polls[0]) + Changed(next, mode, polls[1..])
  }

  ghost predicate AllChanged(pending: seq<Snapshot>) {
    forall i :: 0 <= i < |pending| ==> pending[i].dataChanged
  }

  lemma StepOnlyGrows(core: Core, mode: Mode, item: Item)
    requires AllChanged(core.pending)
    ensures core.pending <= Accept(core, mode, item).pending && AllChanged(Accept(core, mode, item).pending)
  {
  }

  lemma {:induction false} QueueOnlyGrows(core: Core, mode: Mode, items: seq<Item>)
    requires AllChanged(core.pending)
    ensures core.pending <= Feed(core, mode, items).pending && AllChanged(Feed(core, mode, items).pending)
    decreases items
  {
    if items != [] {
      var next := Accept(core, mode, items[0]);
      StepOnlyGrows(core, mode, items[0]);
      QueueOnlyGrows(next, mode, items[1..]);
    }
  }

  /** The same stream state with these packets still waiting at the front of the queue. */
  function Prepend(front: seq<Snapshot>, core: Core): Core { core.(pending := front + core.pending) }

  lemma PrependTwice(a: seq<Snapshot>, b: seq<Snapshot>, core: Core)
    ensures Prepend(a, Prepend(b, core)) == Prepend(a + b, core)
  {
    assert a + (b + core.pending) == a + b + core.pending;
  }

  /** Taking packets off the front of the queue does not disturb later feeding. */
  lemma {:induction false} FeedIgnoresQueue(core: Core, mode: Mode, items: seq<Item>, front: seq<Snapshot>)
    ensures Feed(Prepend(front, core), mode, items) == Prepend(front, Feed(core, mode, items))
    decreases items
  {
    if items != [] {
      var next := Accept(core, mode, items[0]);
      assert forall state :: Queued(front + core.pending, state) == front + Queued(core.pending, state);
      assert Accept(Prepend(front, core), mode, items[0]) == Prepend(front, next);
      FeedIgnoresQueue(next, mode, items[1..], front);
    }
  }

  function Concat(polls: seq<seq<seq<Item>>>): seq<Item> {
    if polls == [] then [] else Flatten(polls[0]) + Concat(polls[1..])
  }

  /** One poll moves the head of the queue to the caller and changes nothing else for later input. */
  lemma PollMovesHead(session: Session, mode: Mode, chunks: seq<seq<Item>>, later: seq<Item>)
    requires AllChanged(session.core.pending)
    ensures AllChanged(PollOnce(session, mode, chunks).core.pending)
    ensures Feed(session.core, mode, Flatten(chunks) + later)
            == Prepend(HandedOut(session, mode, chunks), Feed(PollOnce(session, mode, chunks).core, mode, later))
  {
    var fed := Feed(session.core, mode, Flatten(chunks));
    var next := PollOnce(session, mode, chunks);
    var head := HandedOut(session, mode, chunks);
    QueueOnlyGrows(session.core, mode, Flatten(chunks));
    FeedAppend(session.core, mode, Flatten(chunks), later);
    assert fed == Prepend(head, next.core);
    FeedIgnoresQueue(next.core, mode, later, head);
  }

  /**
   First in, first out, once each: the changed snapshots seen by successive polls, followed by what is
   still queued, are what the whole input queues, however it is spread over polls and reads.
   */
  lemma {:induction false} PollsAreFifo(session: Session, mode: Mode, polls: seq<seq<seq<Item>>>)
    requires AllChanged(session.core.pending)
    ensures Feed(session.core, mode, Concat(polls))
            == Prepend(Changed(session, mode, polls), PollAll(session, mode, polls).core)
    decreases polls
  {
    if polls != [] {
      var next, head := PollOnce(session, mode, polls[0]), HandedOut(session, mode, polls[0]);
      PollMovesHead(session, mode, polls[0], Concat(polls[1..]));
      PollsAreFifo(next, mode, polls[1..]);
      PrependTwice(head, Changed(next, mode, polls[1..]), PollAll(next, mode, polls[1..]).core);
    }
  }

  /** A poll per queued packet empties the queue. */
  lemma {:induction false} IdlePollsDrain(session: Session, mode: Mode, n: nat)
    requires |session.core.pending| <= n
    ensures PollAll(session, mode, seq(n, _ => [])).core.pending == []
    ensures Concat(seq(n, _ => [])) == []
    decreases n
  {
    if n > 0 {
      var polls: seq<seq<seq<Item>>> := seq(n, _ => []);
      assert polls[1..] == seq(n - 1, _ => []);
      assert PollOnce(session, mode, []).core.pending
             == if session.core.pending == [] then [] else session.core.pending[1..];
      IdlePollsDrain(PollOnce(session, mode, []), mode, n - 1);
    }
  }
}
