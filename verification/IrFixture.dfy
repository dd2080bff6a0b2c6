/**
 The infrared fixture test: four random frames are sent, then the fixture must answer with NEC32
 commands F1..F5 from its own address, in order. Device outcomes, time and cancellation are chosen by
 the environment; the receiver is the session of IrReceiver.
 */
module IrFixture {
  import opened Common
  import opened NecCodec
  import opened IrReceiver
  import opened IrStream

  const K_TX_PACKET_COUNT := 4
  const K_RX_PACKET_COUNT := 5
  const K_FIXTURE_ADDRESS: u16 := 0xED2F

  datatype ItemState = ItemPending | ItemRunning | ItemPassed | ItemFailed
  datatype RunState = Idle | Running | Passed | Failed | Canceled

  /** What random_dut_address can return. */
  predicate DutAddress(address: u16) {
    1 <= address <= 0xFFFE && address != K_FIXTURE_ADDRESS && address / 256 != Complement(address % 256)
  }

  /** What random_commands can contain. */
  predicate DutCommand(command: u16) { command % 256 == 0 && 1 <= command / 256 <= 0xFE }

  /** A frame sent by the test can only be read back as NEC32, and never as a fixture reply. */
  lemma SentFramesAreNec32(address: u16, command: u16)
    requires DutAddress(address) && DutCommand(command)
    ensures ParseNecBytes(MakeNecBytes(address, command)) == Some(Meaning(address, command, Nec32))
    ensures forall n: nat :: n < K_RX_PACKET_COUNT ==> MakeNecBytes(address, command) != Reply(n)
  {
    PackParseInverse(address, command, []);
    forall n: nat | n < K_RX_PACKET_COUNT
      ensures MakeNecBytes(address, command) != Reply(n)
    {
      PackParseInverse(K_FIXTURE_ADDRESS, ExpectedCommand(n), []);
    }
  }

  function ExpectedCommand(index: nat): u16
    requires index < K_RX_PACKET_COUNT
  {
    0x00F1 + index
  }

  function Reply(index: nat): seq<u8>
    requires index < K_RX_PACKET_COUNT
  {
    MakeNecBytes(K_FIXTURE_ADDRESS, ExpectedCommand(index))
  }

  /** Only changed packets from the fixture's address are looked at. */
  predicate Counts(shown: Snapshot) { shown.dataChanged && shown.addressMatched }

  function Counted(shown: seq<Snapshot>): seq<Snapshot> {
    if shown == [] then []
    else (if Counts(shown[0]) then [shown[0]] else []) + Counted(shown[1..])
  }

  predicate IsReply(shown: Snapshot, index: nat) {
    index < K_RX_PACKET_COUNT && shown.protocol == Nec32 && shown.command == ExpectedCommand(index)
  }

  /** The replies seen so far are the expected ones, in order. */
  predicate InOrder(seen: seq<Snapshot>) {
    forall i :: 0 <= i < |seen| ==> IsReply(seen[i], i)
  }

  /** What happened during one run, as far as the verdict depends on it. */
  datatype Trace = Trace(devicesReady: bool, framesSent: nat, receiverStarted: bool,
                         mode: Mode, polls: seq<seq<seq<Item>>>, broken: bool,
                         seen: seq<Snapshot>, canceled: bool)

  /** Four frames went out, the receiver opened, and the five expected replies came in order. */
  predicate PassingTrace(trace: Trace) {
    && trace.devicesReady && trace.framesSent == K_TX_PACKET_COUNT && trace.receiverStarted
    && !trace.canceled && |trace.seen| == K_RX_PACKET_COUNT && InOrder(trace.seen)
  }

  const FILTERED := FRESH.(expectedAddress := K_FIXTURE_ADDRESS, filterEnabled := true)

  /** The receiver as the test opens it. */
  const LISTENING := Session(Core([], FILTERED, []), FILTERED.(isOpen := true, message := Waiting))

  /** What the test counts is what the words read make the receiver deliver. */
  ghost predicate Faithful(trace: Trace) {
    trace.receiverStarted && !trace.broken ==>
      trace.seen == Counted(Changed(LISTENING, trace.mode, trace.polls))
  }

  class IrFixtureTestModel {
    var state: RunState
    var tx: ItemState
    var rx: ItemState
    var revision: nat
    var cancelRequested: bool

    constructor ()
      ensures state == Idle && tx == ItemPending && rx == ItemPending
    {
      state, tx, rx, revision, cancelRequested := Idle, ItemPending, ItemPending, 0, false;
    }

    /** Another thread may have requested cancellation by now; a request is never withdrawn. */
    method ObserveCancel() returns (canceled: bool)
      modifies this`cancelRequested
      ensures canceled == cancelRequested && (old(cancelRequested) ==> canceled)
    {
      if * {
        cancelRequested := true;
      }
      return cancelRequested;
    }

    method Fail(item: nat)
      modifies this`state, this`tx, this`rx, this`revision
      ensures state == Failed && revision == old(revision) + 1
      ensures tx == if item == 0 || old(tx) == ItemRunning then ItemFailed else old(tx)
      ensures rx == if item == 1 || old(rx) == ItemRunning then ItemFailed else old(rx)
    {
      if tx == ItemRunning {
        tx := ItemFailed;
      }
      if rx == ItemRunning {
        rx := ItemFailed;
      }
      if item == 0 {
        tx := ItemFailed;
      } else if item == 1 {
        rx := ItemFailed;
      }
      state := Failed;
      revision := revision + 1;
    }

    method Start()
      modifies this
      ensures state == Running && tx == ItemRunning && rx == ItemPending && !cancelRequested
      ensures revision == old(revision) + 1
    {
      cancelRequested := false;
      state, tx, rx := Running, ItemRunning, ItemPending;
      revision := revision + 1;
    }

    method SendFrames() returns (ok: bool, ghost sent: nat)
      requires state == Running && tx == ItemRunning && rx == ItemPending
      modifies this
      ensures sent <= K_TX_PACKET_COUNT && (old(cancelRequested) ==> cancelRequested)
      ensures ok ==> state == Running && tx == ItemRunning && rx == ItemPending
      ensures ok ==> sent == K_TX_PACKET_COUNT || cancelRequested
      ensures !ok ==> state == Failed && tx == ItemFailed && rx == ItemPending && sent < K_TX_PACKET_COUNT
    {
      sent := 0;
      for i := 0 to K_TX_PACKET_COUNT
        invariant sent == i && state == Running && tx == ItemRunning && rx == ItemPending
        invariant old(cancelRequested) ==> cancelRequested
      {
        var canceled := ObserveCancel();
        if canceled {
          break;
        }
        revision := revision + 1;
        var success: bool := *;
        if !success {
          Fail(0);
          return false, sent;
        }
        sent := sent + 1;
        if i + 1 < K_TX_PACKET_COUNT {
          canceled := ObserveCancel();
          if canceled {
            break;
          }
        }
      }
      return true, sent;
    }

    /** One polled packet, after `verified` good replies. */
    method CheckReply(received: Snapshot, verified: nat) returns (ok: bool, count: nat)
      requires state == Running && tx == ItemRunning && rx == ItemRunning && verified < K_RX_PACKET_COUNT
      modifies this`state, this`tx, this`rx, this`revision
      ensures ok <==> !Counts(received) || IsReply(received, verified)
      ensures count == verified + if ok && Counts(received) then 1 else 0
      ensures ok ==> state == Running && tx == ItemRunning && rx == ItemRunning
      ensures !ok ==> state == Failed && tx == ItemFailed && rx == ItemFailed
    {
      if received.dataChanged && received.addressMatched {
        if received.protocol != Nec32 {
          Fail(1);
          return false, verified;
        }
        if received.command != ExpectedCommand(verified) {
          Fail(1);
          return false, verified;
        }
        revision := revision + 1;
        return true, verified + 1;
      }
      return true, verified;
    }

    /**
     Polls the receiver until five replies are verified, a wrong one arrives, time runs out or the run
     is canceled. `polls` records the device input, so that the outcome is tied to the words received.
     */
    method ReceiveReplies(receiver: IrReceiverSession)
      returns (finished: bool, count: nat, ghost polls: seq<seq<seq<Item>>>, ghost broken: bool, ghost seen: seq<Snapshot>)
      requires state == Running && tx == ItemRunning && rx == ItemRunning && receiver.isOpen
      modifies this, receiver
      ensures !broken ==>
                seen == Counted(Changed(Session(old(receiver.Stream()), old(receiver.snapshot)),
                                        old(receiver.CurrentMode()), polls))
      ensures finished ==>
                && state == Running && tx == ItemRunning && rx == ItemRunning
                && count == |seen| <= K_RX_PACKET_COUNT && InOrder(seen)
      ensures !finished ==>
                && state == Failed && tx == ItemFailed && rx == ItemFailed
                && 0 < |seen| && InOrder(seen[..|seen| - 1]) && !IsReply(seen[|seen| - 1], |seen| - 1)
      ensures old(cancelRequested) ==> cancelRequested
    {
      count, polls, broken, seen := 0, [], false, [];
      ghost var start := Session(receiver.Stream(), receiver.snapshot);
      ghost var mode := receiver.CurrentMode();
      var timeLeft: nat := *;
      while timeLeft > 0 && count < K_RX_PACKET_COUNT
        invariant state == Running && tx == ItemRunning && rx == ItemRunning
        invariant count == |seen| <= K_RX_PACKET_COUNT && InOrder(seen)
        invariant old(cancelRequested) ==> cancelRequested
        invariant !broken ==>
                    && receiver.isOpen && receiver.CurrentMode() == mode
                    && Session(receiver.Stream(), receiver.snapshot) == PollAll(start, mode, polls)
                    && seen == Counted(Changed(start, mode, polls))
      {
        var canceled := ObserveCancel();
        if canceled {
          break;
        }
        var input: DeviceReads := *;
        broken := broken || input.broken;
        var received := receiver.Poll(input);
        if !broken {
          CountedPoll(start, mode, polls, input.chunks);
        }
        polls := polls + [input.chunks];
        seen := seen + if Counts(received) then [received] else [];
        finished, count := CheckReply(received, count);
        if !finished {
          assert seen[..|seen| - 1] == seen[..count];
          return false, count, polls, broken, seen;
        }
        timeLeft := timeLeft - 1;
        if count < K_RX_PACKET_COUNT {
          canceled := ObserveCancel();
          if canceled {
            break;
          }
        }
      }
      return true, count, polls, broken, seen;
    }

    /** The whole run. The verdict is PASSED exactly when everything it stands for happened. */
    method Run() returns (ghost trace: Trace)
      requires state == Running && tx == ItemRunning && rx == ItemPending
      modifies this
      ensures state == Passed || state == Failed || state == Canceled
      ensures state == Passed <==> PassingTrace(trace)
      ensures Faithful(trace)
      ensures state == Canceled <==> trace.canceled
      ensures trace.canceled ==> cancelRequested
      ensures state == Passed ==> tx == ItemPassed && rx == ItemPassed
      ensures state == Failed ==> tx != ItemRunning && rx != ItemRunning && (tx == ItemFailed || rx == ItemFailed)
    {
      trace := Trace(false, 0, false, Mode2, [], false, [], false);
      var senderAvailable: bool := *;
      if !senderAvailable {
        Fail(0);
        return;
      }
      var receiverAvailable: bool := *;
      if !receiverAvailable {
        Fail(1);
        return;
      }
      trace := trace.(devicesReady := true);
      var ok, sent := SendFrames();
      trace := trace.(framesSent := sent);
      if !ok {
        return;
      }
      var canceled := ObserveCancel();
      if canceled {
        state := Canceled;
        revision := revision + 1;
        trace := trace.(canceled := true);
        return;
      }
      var receiver := new IrReceiverSession();
      var probe: Probe := *;
      var started := receiver.Start(probe, K_FIXTURE_ADDRESS, true);
      if !started {
        Fail(1);
        return;
      }
      trace := trace.(receiverStarted := true, mode := receiver.CurrentMode());
      rx := ItemRunning;
      revision := revision + 1;
      ghost var polls, broken, seen;
      var finished, count;
      finished, count, polls, broken, seen := ReceiveReplies(receiver);
      trace := trace.(polls := polls, broken := broken, seen := seen);
      if !finished {
        return;
      }
      canceled := ObserveCancel();
      if canceled {
        state := Canceled;
        revision := revision + 1;
        trace := trace.(canceled := true);
        return;
      }
      if count != K_RX_PACKET_COUNT {
        Fail(1);
        return;
      }
      tx, rx, state := ItemPassed, ItemPassed, Passed;
      revision := revision + 1;
    }
  }

  // ---------------------------------------------------------------- from the air to the verdict

  lemma {:induction false} PollSnoc(session: Session, mode: Mode, polls: seq<seq<seq<Item>>>, chunks: seq<seq<Item>>)
    ensures PollAll(session, mode, polls + [chunks]) == PollOnce(PollAll(session, mode, polls), mode, chunks)
    ensures Changed(session, mode, polls + [chunks])
            == Changed(session, mode, polls) + HandedOut(PollAll(session, mode, polls), mode, chunks)
    decreases polls
  {
    var all := polls + [chunks];
    if polls == [] {
      assert all == [chunks] && all[1..] == [];
    } else {
      var next := PollOnce(session, mode, polls[0]);
      PollSnoc(next, mode, polls[1..], chunks);
      assert all[0] == polls[0] && all[1..] == polls[1..] + [chunks];
      AppendAssociates(HandedOut(session, mode, polls[0]), Changed(next, mode, polls[1..]),
                       HandedOut(PollAll(session, mode, polls), mode, chunks));
    }
  }

  lemma {:induction false} CountedAppend(a: seq<Snapshot>, b: seq<Snapshot>)
    ensures Counted(a + b) == Counted(a) + Counted(b)
  {
    if a == [] {
      assert a + b == b;
    } else {
      CountedAppend(a[1..], b);
      assert (a + b)[0] == a[0] && (a + b)[1..] == a[1..] + b;
      AppendAssociates(if Counts(a[0]) then [a[0]] else [], Counted(a[1..]), Counted(b));
    }
  }

  lemma CountedPoll(session: Session, mode: Mode, polls: seq<seq<seq<Item>>>, chunks: seq<seq<Item>>)
    ensures var next := PollOnce(PollAll(session, mode, polls), mode, chunks);
            && PollAll(session, mode, polls + [chunks]) == next
            && Counted(Changed(session, mode, polls + [chunks]))
               == Counted(Changed(session, mode, polls)) + if Counts(next.snapshot) then [next.snapshot] else []
  {
    PollSnoc(session, mode, polls, chunks);
    CountedAppend(Changed(session, mode, polls), HandedOut(PollAll(session, mode, polls), mode, chunks));
  }

  lemma {:induction false} AllCount(shown: seq<Snapshot>)
    requires forall i :: 0 <= i < |shown| ==> Counts(shown[i])
    ensures Counted(shown) == shown
  {
    if shown != [] {
      AllCount(shown[1..]);
    }
  }

  function Replies(): seq<seq<u8>> { seq(K_RX_PACKET_COUNT, i requires 0 <= i < K_RX_PACKET_COUNT => Reply(i)) }

  lemma ReplyMeaning(index: nat)
    requires index < K_RX_PACKET_COUNT
    ensures ParseNecBytes(Reply(index)) == Some(Meaning(K_FIXTURE_ADDRESS, ExpectedCommand(index), Nec32))
  {
    PackParseInverse(K_FIXTURE_ADDRESS, ExpectedCommand(index), []);
  }

  /**
   From the air to the verdict: if the fixture's five replies reach the receiver as jittered frames,
   repeated or not, among gaps, static and leader-free noise, and polling has drained the queue, then
   what the test counts is exactly the five expected replies in order.
   */
  lemma RepliesAreCounted(polls: seq<seq<seq<Item>>>, segments: seq<Segment>)
    requires forall i :: 0 <= i < |segments| ==> WellFormed(segments[i])
    requires Concat(polls) == Items(StreamWords(segments))
    requires Distinct([], Packets(segments)) == Replies()
    requires PollAll(LISTENING, Mode2, polls).core.pending == []
    ensures var seen := Counted(Changed(LISTENING, Mode2, polls));
            |seen| == K_RX_PACKET_COUNT && InOrder(seen)
  {
    StreamDelivers(LISTENING.core, segments);
    PollsAreFifo(LISTENING, Mode2, polls);
    var changed := Changed(LISTENING, Mode2, polls);
    var after := Feed(LISTENING.core, Mode2, Concat(polls));
    assert after.pending == changed + [] == changed;
    assert after.pending[|LISTENING.core.pending|..] == changed;
    assert AnnounceAll(changed, Replies(), true, K_FIXTURE_ADDRESS);
    forall i | 0 <= i < |changed|
      ensures Counts(changed[i]) && IsReply(changed[i], i)
    {
      assert Announces(changed[i], Reply(i), true, K_FIXTURE_ADDRESS);
      ReplyMeaning(i);
    }
    AllCount(changed);
  }

  /** With Run's contract: a run whose receiver heard such a stream passes unless it was canceled. */
  lemma GoodAirPasses(trace: Trace, segments: seq<Segment>)
    requires trace.devicesReady && trace.framesSent == K_TX_PACKET_COUNT && trace.receiverStarted
    requires Faithful(trace) && !trace.broken && trace.mode == Mode2 && !trace.canceled
    requires forall i :: 0 <= i < |segments| ==> WellFormed(segments[i])
    requires Concat(trace.polls) == Items(StreamWords(segments))
    requires Distinct([], Packets(segments)) == Replies()
    requires PollAll(LISTENING, Mode2, trace.polls).core.pending == []
    ensures PassingTrace(trace)
  {
    RepliesAreCounted(trace.polls, segments);
  }
}
