/**
 The factory upload worker and the UI thread that feeds it. Every lock section, with the worker-local
 code up to the next one, is one atomic step; Interfere stands for whatever the UI thread and the clock
 do between two steps. The locals of the worker's loop are fields here.
 */
module FactoryUpload {
  import opened Common
  import opened UploadProtocol
  import opened UploadLines

  // milliseconds
  const K_LINK_HEARTBEAT_INTERVAL := 1000
  const K_LISTENER_HEARTBEAT_STALE := 3000

  /** The status texts. */
  datatype Notice =
    | NoText | QueuedForUpload | DeviceNotFound | WaitingForDevice | OpenFailed | WaitingForHandshake
    | DeviceDisconnected | LinkLost | ReadFailed | HandshakeReady | HandshakeFailed | AckInvalid(text: string)
    | ResultRejected(text: string) | ResultUploaded | SendingResult | SendFailed(text: string)
    | WaitingForAck | HandshakeTimeout | AckTimeout

  datatype Snapshot = Snapshot(state: UploadState, notice: Notice, port: string, revision: nat)

  predicate SameDisplay(a: Snapshot, b: Snapshot) { a.state == b.state && a.notice == b.notice && a.port == b.port }

  datatype QueueError = EmptyPayload | LineTooLong | ServiceUnavailable | ListenerOffline | Busy

  /** What reading an ACK_RESULT line gives. */
  datatype AckContent = Unparsed(error: string) | Parsed(saved: bool, message: string)

  /** What the outside does to one iteration: the device search, the link check, and the serial read. */
  datatype Surroundings =
    Surroundings(path: string, openSucceeds: bool, sameInstance: bool, readFails: bool, received: string)

  function AckNotice(content: AckContent): Notice {
    match content
    case Unparsed(error) => AckInvalid(error)
    case Parsed(saved, message) => if saved then ResultUploaded else ResultRejected(message)
  }

  class FactoryUploadService {
    var workerJoinable: bool
    var stopRequested: bool
    var requestActive: bool
    var pending: Option<string>
    var pendingDeadline: nat
    var snapshot: Snapshot
    var listenerRunning: bool
    var heartbeat: nat
    var clock: nat
    // locals of the worker's loop
    var connected: bool
    var handshaked: bool
    var waiting: bool
    var active: Option<string>
    var port: string
    var rxBuffer: string
    var requestDeadline: nat
    var resultDeadline: nat
    var nextLinkHeartbeat: nat
    ghost var log: seq<Event>
    /** Every line that was acted on, in order. */
    ghost var handled: seq<string>
    /** A handshake could not be answered while an acknowledgement was outstanding. */
    ghost var orphaned: bool

    constructor (now: nat)
      ensures Lawful() && log == [] && !orphaned && !workerJoinable && clock == now
      ensures !connected && !waiting && active.None? && snapshot == Snapshot(Unavailable, NoText, "", 0)
    {
      workerJoinable, stopRequested, requestActive, pending, pendingDeadline := false, false, false, None, 0;
      snapshot, listenerRunning, heartbeat, clock := Snapshot(Unavailable, NoText, "", 0), false, 0, now;
      connected, handshaked, waiting, active, port, rxBuffer := false, false, false, None, "", "";
      requestDeadline, resultDeadline, nextLinkHeartbeat := 0, 0, 0;
      log, handled, orphaned := [], [], false;
    }

    ghost function Current(): Phase
      reads this
    {
      if active.Some? && waiting then Outstanding(active.value, resultDeadline)
      else if active.Some? then Held(active.value, requestDeadline)
      else if pending.Some? then Pending(pending.value, pendingDeadline)
      else Free
    }

    /** The fields agree with each other and with everything that happened so far. */
    ghost predicate Lawful()
      reads this
    {
      && Follow(log) == Tracking(Current(), snapshot.state)
      && (requestActive <==> pending.Some? || active.Some?)
      && (pending.None? || active.None?)
      && (waiting ==> active.Some?)
      && (active.Some? ==> connected)
      && (requestActive ==> !Terminal(snapshot.state))
    }

    /** Nothing is under way without a session. */
    predicate Anchored()
      reads this
    {
      connected || (active.None? && !waiting)
    }

    /** Nobody holds the request that is said to be active, so nobody will ever conclude it. */
    predicate Stuck()
      reads this
    {
      requestActive && pending.None? && active.None? && !waiting
    }

    /** Time and history go forward; a request to stop, a stuck request and, if possible, lawfulness stay. */
    twostate predicate Onward()
      reads this
    {
      && clock >= old(clock) && old(log) <= log
      && (old(stopRequested) ==> stopRequested) && (old(orphaned) ==> orphaned) && (old(Stuck()) ==> Stuck())
      && (old(Lawful()) ==> orphaned || Lawful())
    }

    /** A pending request is left alone; one that has come since has a deadline in the future. */
    twostate predicate KeepsPending()
      reads this
    {
      && (old(pending).Some? ==> pending == old(pending) && pendingDeadline == old(pendingDeadline))
      && (old(pending).None? && pending.Some? ==> pendingDeadline >= old(clock) + K_QUEUED_HANDSHAKE_TIMEOUT)
    }

    /** No request becomes active, none is sent, and one that was sent is only forgotten with its wait. */
    twostate predicate NothingBegins()
      reads this
    {
      && (active.Some? ==> active == old(active)) && (waiting ==> old(waiting))
      && (old(waiting) && !waiting ==> active.None?)
    }

    /** A pending request has the deadline it had before, or is a new one with a whole wait ahead. */
    twostate predicate KeepsPendingDeadline()
      reads this
    {
      pending.Some? ==>
        || (old(pending).Some? && pendingDeadline == old(pendingDeadline))
        || pendingDeadline >= old(clock) + K_QUEUED_HANDSHAKE_TIMEOUT
    }

    /** The deadlines of a stage that goes on are not moved. */
    twostate predicate KeepsDeadlines()
      reads this
    {
      && (old(active).Some? && active.Some? ==> requestDeadline == old(requestDeadline))
      && (old(waiting) && waiting ==> resultDeadline == old(resultDeadline))
      && KeepsPendingDeadline()
    }

    ghost method Note(event: Event)
      modifies this`log
      ensures log == old(log) + [event] && Follow(log) == Advance(Follow(old(log)), event)
    {
      log := log + [event];
      FollowSnoc(old(log), event);
    }

    // ---------------------------------------------------------------- shared state

    /** The revision rises exactly when something on display changes. */
    method SetSnapshot(state: UploadState, notice: Notice, port: string)
      modifies this`snapshot
      ensures snapshot.state == state && snapshot.notice == notice && snapshot.port == port
      ensures snapshot.revision == old(snapshot.revision) + if SameDisplay(old(snapshot), snapshot) then 0 else 1
    {
      if snapshot.state == state && snapshot.notice == notice && snapshot.port == port {
        return;
      }
      snapshot := Snapshot(state, notice, port, snapshot.revision + 1);
    }

    method Publish(state: UploadState, notice: Notice, port: string)
      modifies this`snapshot, this`log
      ensures snapshot.state == state && log == old(log) + [Published(state)]
      ensures old(Lawful()) && !Terminal(old(snapshot.state)) && !Terminal(state) ==> Lawful()
    {
      SetSnapshot(state, notice, port);
      Note(Published(state));
    }

    method Queue(payload: string) returns (error: Option<QueueError>)
      modifies this`pending, this`pendingDeadline, this`requestActive, this`snapshot, this`log
      ensures error.None? <==>
              && Sendable(Sanitized(payload)) && workerJoinable && listenerRunning
              && 0 < heartbeat <= clock <= heartbeat + K_LISTENER_HEARTBEAT_STALE
              && old(pending).None? && !old(requestActive)
      ensures error == Some(Busy) ==> old(pending).Some? || old(requestActive)
      ensures error == Some(EmptyPayload) <==> Sanitized(payload) == ""
      ensures error == Some(LineTooLong) <==> |ResultLine(Sanitized(payload))| > K_MAX_PROTOCOL_LINE + 1
      ensures error.None? ==>
                && pending == Some(Sanitized(payload)) && pendingDeadline == clock + K_QUEUED_HANDSHAKE_TIMEOUT
                && requestActive && snapshot.state == Queued && log == old(log) + [Accepted(Sanitized(payload), clock)]
      ensures error.Some? ==>
                && pending == old(pending) && pendingDeadline == old(pendingDeadline) && log == old(log)
                && requestActive == old(requestActive) && snapshot == old(snapshot)
      ensures old(Lawful()) ==> Lawful()
    {
      var line := Sanitized(payload);
      SanitizedHasNoBreaks(payload);
      if line == "" {
        return Some(EmptyPayload);
      }
      if |K_RESULT_COMMAND| + 1 + |line| > K_MAX_PROTOCOL_LINE {
        return Some(LineTooLong);
      }
      if !workerJoinable {
        return Some(ServiceUnavailable);
      }
      var heartbeatFresh := heartbeat > 0 && clock >= heartbeat && clock - heartbeat <= K_LISTENER_HEARTBEAT_STALE;
      if !listenerRunning || !heartbeatFresh {
        return Some(ListenerOffline);
      }
      if pending.Some? || requestActive {
        return Some(Busy);
      }
      pending := Some(line);
      pendingDeadline := clock + K_QUEUED_HANDSHAKE_TIMEOUT;
      requestActive := true;
      SetSnapshot(Queued, QueuedForUpload, snapshot.port);
      Note(Accepted(line, clock));
      return None;
    }

    /** Between two steps of the worker: time passes, the UI queues or asks to stop, any number of times. */
    method Interfere()
      modifies this`pending, this`pendingDeadline, this`requestActive, this`snapshot, this`log,
               this`stopRequested, this`clock
      ensures old(Lawful()) ==> Lawful()
      ensures Onward()
      ensures !Terminal(old(snapshot.state)) ==> !Terminal(snapshot.state)
      ensures KeepsPending()
    {
      var steps: nat := *;
      while steps > 0
        invariant old(Lawful()) ==> Lawful()
        invariant Onward()
        invariant !Terminal(old(snapshot.state)) ==> !Terminal(snapshot.state)
        invariant KeepsPending()
      {
        if * {
          var payload: string := *;
          var _ := Queue(payload);
        } else if * {
          stopRequested := true;
        } else {
          var passed: int := *;
          clock := clock + if passed > 0 then passed else 0;
        }
        steps := steps - 1;
      }
    }

    // ---------------------------------------------------------------- steps of the worker

    method TakePending()
      modifies this`pending, this`active, this`requestDeadline, this`log
      ensures if old(active).None? && old(pending).Some?
              then active == old(pending) && pending.None? && requestDeadline == clock + K_QUEUED_HANDSHAKE_TIMEOUT
                   && log == old(log) + [Taken(clock)]
              else active == old(active) && pending == old(pending) && requestDeadline == old(requestDeadline)
                   && log == old(log)
      ensures old(Lawful()) && connected ==> Lawful()
    {
      if active.None? && pending.Some? {
        active, pending := pending, None;
        requestDeadline := clock + K_QUEUED_HANDSHAKE_TIMEOUT;
        Note(Taken(clock));
      }
    }

    /** finish_request, and the worker forgetting the request. */
    method Conclude(notice: Notice)
      modifies this`requestActive, this`snapshot, this`log, this`active, this`waiting
      ensures !requestActive && active.None? && !waiting
      ensures snapshot.state == Failed && log == old(log) + [Verdict(false)]
      ensures old(Lawful()) && old(active).Some? ==> Lawful()
    {
      requestActive := false;
      SetSnapshot(Failed, notice, port);
      Note(Verdict(false));
      active, waiting := None, false;
    }

    /** expire_pending_request and fail_pending_request: the second does not look at the clock. */
    method FailPending(onlyExpired: bool, notice: Notice, shownPort: string) returns (failed: bool)
      modifies this`pending, this`requestActive, this`snapshot, this`log
      ensures failed <==> old(pending).Some? && (onlyExpired ==> clock > pendingDeadline)
      ensures failed ==>
                && pending.None? && !requestActive && snapshot.state == Failed && log == old(log) + [Verdict(false)]
      ensures !failed ==>
                && pending == old(pending) && requestActive == old(requestActive)
                && snapshot == old(snapshot) && log == old(log)
      ensures old(Lawful()) ==> Lawful()
    {
      if pending.None? || (onlyExpired && clock <= pendingDeadline) {
        return false;
      }
      pending := None;
      requestActive := false;
      SetSnapshot(Failed, notice, shownPort);
      Note(Verdict(false));
      return true;
    }

    method Connect()
      modifies this`connected, this`handshaked, this`waiting, this`rxBuffer, this`nextLinkHeartbeat, this`log
      ensures connected && !handshaked && !waiting && rxBuffer == "" && log == old(log) + [Connected]
      ensures nextLinkHeartbeat == clock + K_LINK_HEARTBEAT_INTERVAL
      ensures old(Lawful()) && !old(connected) ==> Lawful()
    {
      connected, handshaked, waiting, rxBuffer := true, false, false, "";
      nextLinkHeartbeat := clock + K_LINK_HEARTBEAT_INTERVAL;
      Note(Connected);
    }

    /** The link is gone, and with it whatever request was under way. */
    method DropLink(notice: Notice) returns (wasActive: bool)
      modifies this`requestActive, this`snapshot, this`log, this`active, this`waiting, this`connected
      ensures !connected && active.None? && !waiting
      ensures wasActive == (old(active).Some? || old(waiting))
      ensures wasActive ==> log == old(log) + [Verdict(false)] && snapshot.state == Failed && !requestActive
      ensures !wasActive ==>
                log == old(log) && snapshot == old(snapshot) && requestActive == old(requestActive)
      ensures old(Lawful()) ==> Lawful()
    {
      wasActive := active.Some? || waiting;
      if wasActive {
        Conclude(notice);
      }
      connected := false;
    }

    /**
     The handshake could not be answered. This keeps everything lawful exactly if no acknowledgement was
     outstanding: the request is failed, but the worker goes on waiting for its acknowledgement.
     */
    method RefuseHandshake()
      modifies this`requestActive, this`snapshot, this`log, this`active, this`orphaned
      ensures orphaned == (old(orphaned) || old(waiting))
      ensures old(active).Some? ==>
                active.None? && !requestActive && log == old(log) + [Verdict(false)] && snapshot.state == Failed
      ensures old(active).None? ==>
                && active.None? && log == old(log) && snapshot == old(snapshot)
                && requestActive == old(requestActive)
      ensures old(Lawful()) ==> (Lawful() <==> !old(waiting))
    {
      orphaned := orphaned || waiting;
      if active.Some? {
        requestActive := false;
        SetSnapshot(Failed, HandshakeFailed, port);
        Note(Verdict(false));
        active := None;
      }
    }

    method AnswerHandshake()
      requires Anchored()
      modifies this`handshaked, this`pending, this`pendingDeadline, this`requestActive, this`snapshot, this`log,
               this`stopRequested, this`clock
      ensures handshaked && Anchored() && Onward() && KeepsPending()
    {
      handshaked := true;
      if active.None? && !waiting {
        var terminal := Terminal(snapshot.state);
        Interfere();
        if !terminal {
          Publish(Ready, HandshakeReady, port);
        }
      }
    }

    /** Success is only for an acknowledgement that parsed and says saved; without a wait it is ignored. */
    method ReadAck(content: AckContent)
      modifies this`requestActive, this`snapshot, this`log, this`active, this`waiting
      ensures var saved := content.Parsed? && content.saved;
              if old(waiting)
              then log == old(log) + [AckRead(saved)] + [Verdict(saved)] && !requestActive && active.None? && !waiting
                   && snapshot.state == if saved then Succeeded else Failed
              else log == old(log) && requestActive == old(requestActive) && active == old(active) && !waiting
                   && snapshot == old(snapshot)
      ensures old(Lawful()) ==> Lawful()
    {
      if !waiting {
        return;
      }
      var saved := content.Parsed? && content.saved;
      requestActive := false;
      SetSnapshot(if saved then Succeeded else Failed, AckNotice(content), port);
      Note(AckRead(saved));
      Note(Verdict(saved));
      waiting, active := false, None;
    }

    /** The whole RESULT line went out. */
    method MarkSent(line: string)
      requires active.Some? && line == ResultLine(active.value)
      modifies this`waiting, this`resultDeadline, this`log
      ensures waiting && resultDeadline == clock + K_RESULT_ACK_TIMEOUT && log == old(log) + [Wrote(line, clock)]
      ensures old(Lawful()) && !old(waiting) ==> Lawful()
    {
      waiting := true;
      resultDeadline := clock + K_RESULT_ACK_TIMEOUT;
      Note(Wrote(line, clock));
    }

    // ---------------------------------------------------------------- the loop

    /** What an unfinished request may still be waiting for, as of these readings of the clock. */
    ghost predicate Timely(began: nat, now: nat)
      reads this
    {
      && (pending.Some? ==> began <= pendingDeadline)
      && (active.Some? && !waiting ==> now <= requestDeadline)
      && (waiting ==> now <= resultDeadline)
    }

    /** Publishes unless a verdict is on display; the check and the publication are separate steps. */
    method PublishProgress(state: UploadState, notice: Notice, shownPort: string)
      requires Anchored() && !Terminal(state)
      modifies this`pending, this`pendingDeadline, this`requestActive, this`snapshot, this`log,
               this`stopRequested, this`clock
      ensures Anchored() && Onward()
      ensures KeepsPending()
    {
      var terminal := Terminal(snapshot.state);
      Interfere();
      if !terminal {
        Publish(state, notice, shownPort);
      }
    }

    /** Neither found nor opened: a pending request fails, at once if there is a device, else in time. */
    method NoSession(onlyExpired: bool, failure: Notice, progress: Notice) returns (ghost mark: nat)
      requires Anchored() && !connected
      modifies this`pending, this`pendingDeadline, this`requestActive, this`snapshot, this`log,
               this`stopRequested, this`clock
      ensures Anchored() && Onward()
      ensures pending.Some? ==> old(clock) <= pendingDeadline
      ensures KeepsPendingDeadline()
      ensures |old(log)| <= mark < |log| && log[mark] == Missed(old(clock))
    {
      var failed := FailPending(onlyExpired, failure, port);
      mark := |log|;
      Note(Missed(clock));
      Interfere();
      if !failed {
        PublishProgress(Searching, progress, port);
      }
    }

    /** No session yet: look for the device and open it. */
    method Search(path: string, openSucceeds: bool) returns (ghost mark: nat)
      requires Anchored() && !connected
      modifies this`connected, this`handshaked, this`waiting, this`rxBuffer, this`nextLinkHeartbeat, this`port,
               this`pending, this`pendingDeadline, this`requestActive, this`snapshot, this`log,
               this`stopRequested, this`clock
      ensures Anchored() && Onward() && (connected <==> path != "" && openSucceeds)
      ensures connected ==> rxBuffer == ""
      ensures !connected && pending.Some? ==> old(clock) <= pendingDeadline
      ensures KeepsPendingDeadline()
      ensures !connected ==> |old(log)| <= mark < |log| && log[mark] == Missed(old(clock))
      ensures !waiting
    {
      mark := 0;
      port := path;
      if port == "" {
        mark := NoSession(true, DeviceNotFound, WaitingForDevice);
        return;
      }
      if !openSucceeds {
        mark := NoSession(false, OpenFailed, OpenFailed);
        return;
      }
      Connect();
      Interfere();
      PublishProgress(WaitingHandshake, WaitingForHandshake, port);
    }

    /** One line, with what becomes of answering it or reading it. */
    method HandleLine(line: string, answered: bool, content: AckContent)
      requires Anchored()
      modifies this`handshaked, this`pending, this`pendingDeadline, this`requestActive, this`snapshot, this`log,
               this`stopRequested, this`clock, this`active, this`waiting, this`orphaned, this`handled
      ensures Anchored() && Onward() && KeepsPending() && NothingBegins() && handled == old(handled) + [line]
      ensures IsHandshake(line) && answered ==> handshaked && active == old(active)
      ensures IsHandshake(line) && !answered ==> active.None? && waiting == old(waiting)
      ensures IsAck(line) && old(waiting) ==> active.None? && !waiting
      ensures !IsHandshake(line) ==> handshaked == old(handshaked)
      ensures !IsHandshake(line) && !(IsAck(line) && old(waiting)) ==> active == old(active) && waiting == old(waiting)
    {
      handled := handled + [line];
      if IsHandshake(line) {
        if answered {
          AnswerHandshake();
        } else {
          RefuseHandshake();
        }
      } else if IsAck(line) {
        ReadAck(content);
      }
    }

    /** One byte of the serial stream; a line is handled as soon as it ends. */
    method ReceiveCharacter(character: char) returns (ghost lines: seq<string>)
      requires Anchored()
      modifies this`handshaked, this`pending, this`pendingDeadline, this`requestActive, this`snapshot, this`log,
               this`stopRequested, this`clock, this`active, this`waiting, this`orphaned, this`handled, this`rxBuffer
      ensures Anchored() && Onward() && KeepsPending() && NothingBegins() && handled == old(handled) + lines
      ensures Assemble(old(rxBuffer), [character]) == Assembled(lines, rxBuffer)
    {
      lines := [];
      AssembleOne(rxBuffer, character);
      if character == '\r' {
        return;
      }
      if character != '\n' {
        rxBuffer := rxBuffer + [character];
        if |rxBuffer| > K_MAX_RX_LINE {
          rxBuffer := "";
        }
        return;
      }
      var line := rxBuffer;
      rxBuffer := "";
      if line == "" {
        return;
      }
      Interfere();
      var answered: bool, content: AckContent := *, *;
      HandleLine(line, answered, content);
      lines := [line];
    }

    /** Assembles lines and handles each, in order. */
    method Receive(received: string) returns (ghost lines: seq<string>)
      requires Anchored()
      modifies this`handshaked, this`pending, this`pendingDeadline, this`requestActive, this`snapshot, this`log,
               this`stopRequested, this`clock, this`active, this`waiting, this`orphaned, this`handled, this`rxBuffer
      ensures Anchored() && Onward() && KeepsPending() && NothingBegins() && handled == old(handled) + lines
      ensures Assemble(old(rxBuffer), received) == Assembled(lines, rxBuffer)
    {
      lines := [];
      for i := 0 to |received|
        invariant Anchored() && Onward() && KeepsPending() && NothingBegins() && handled == old(handled) + lines
        invariant Assemble(old(rxBuffer), received[..i]) == Assembled(lines, rxBuffer)
      {
        AssembleAppend(old(rxBuffer), received[..i], [received[i]]);
        assert received[..i + 1] == received[..i] + [received[i]];
        ghost var more := ReceiveCharacter(received[i]);
        lines := lines + more;
      }
      assert received[..|received|] == received;
    }

    /** One attempt to write the whole RESULT line. */
    method WriteResult()
      requires Anchored() && connected && active.Some? && !waiting
      modifies this`requestActive, this`snapshot, this`log, this`active, this`waiting, this`resultDeadline
      ensures Anchored() && Onward() && (active.Some? <==> waiting)
      ensures waiting ==>
                && active == old(active) && resultDeadline == clock + K_RESULT_ACK_TIMEOUT
                && snapshot == old(snapshot) && requestActive == old(requestActive)
    {
      var written: bool, error: string := *, *;
      if !written {
        Conclude(SendFailed(error));
      } else {
        MarkSent(ResultLine(active.value));
      }
    }

    method SendResult()
      requires Anchored() && connected && active.Some? && !waiting
      modifies this`pending, this`pendingDeadline, this`requestActive, this`snapshot, this`log,
               this`stopRequested, this`clock, this`active, this`waiting, this`resultDeadline
      ensures Anchored() && Onward() && KeepsPending() && (active.Some? <==> waiting)
      ensures waiting ==> active == old(active) && resultDeadline >= old(clock) + K_RESULT_ACK_TIMEOUT
    {
      Publish(Sending, SendingResult, port);
      Interfere();
      WriteResult();
      if waiting {
        Interfere();
        Publish(WaitingResultAck, WaitingForAck, port);
      }
    }

    /** The end of an iteration: send, or give up on a deadline. */
    method SendOrExpire()
      requires Anchored() && connected
      modifies this`pending, this`pendingDeadline, this`requestActive, this`snapshot, this`log,
               this`stopRequested, this`clock, this`active, this`waiting, this`resultDeadline
      ensures Anchored() && Onward() && KeepsPending()
      ensures active.Some? && !waiting ==> old(clock) <= requestDeadline && active == old(active) && !handshaked
      ensures waiting ==> old(clock) <= resultDeadline
      ensures waiting ==> (if old(waiting) then resultDeadline == old(resultDeadline) else handshaked && active.Some?)
      ensures waiting ==> active == old(active)
    {
      var now := clock;
      if active.Some? && !waiting && handshaked {
        SendResult();
      } else if active.Some? && !waiting && now > requestDeadline {
        Conclude(HandshakeTimeout);
      } else if waiting && now > resultDeadline {
        Conclude(AckTimeout);
      }
    }

    /** The same, and the wait for the next iteration. */
    method FinishIteration() returns (ghost mark: nat)
      requires Anchored() && connected
      modifies this`pending, this`pendingDeadline, this`requestActive, this`snapshot, this`log,
               this`stopRequested, this`clock, this`active, this`waiting, this`resultDeadline
      ensures Anchored() && Onward() && KeepsPending()
      ensures active.Some? && !waiting ==> old(clock) <= requestDeadline && active == old(active) && !handshaked
      ensures waiting ==> old(clock) <= resultDeadline
      ensures waiting ==> (if old(waiting) then resultDeadline == old(resultDeadline) else handshaked && active.Some?)
      ensures waiting ==> active == old(active)
      ensures |old(log)| <= mark < |log| && log[mark] == Looked(old(clock))
    {
      ghost var now := clock;
      SendOrExpire();
      mark := |log|;
      Note(Looked(now));
      Interfere();
    }

    /** The beat that tells the UI the listener is alive, and the search unless there is a session. */
    method BeginIteration(path: string, openSucceeds: bool) returns (ghost began: nat, ghost mark: nat)
      requires Anchored()
      modifies this`connected, this`handshaked, this`waiting, this`rxBuffer, this`nextLinkHeartbeat, this`port,
               this`pending, this`pendingDeadline, this`requestActive, this`snapshot, this`log,
               this`stopRequested, this`clock, this`heartbeat
      ensures Anchored() && Onward() && KeepsPendingDeadline()
      ensures heartbeat == old(clock) <= began <= clock && waiting == old(waiting)
      ensures connected <==> old(connected) || (path != "" && openSucceeds)
      ensures connected ==> rxBuffer == if old(connected) then old(rxBuffer) else ""
      ensures old(connected) ==> nextLinkHeartbeat == old(nextLinkHeartbeat)
      ensures !connected ==> |old(log)| <= mark < |log| && log[mark] == Missed(began)
      ensures !connected && pending.Some? ==> began <= pendingDeadline
    {
      mark := 0;
      heartbeat := clock;
      Interfere();
      began := clock;
      if !connected {
        mark := Search(path, openSucceeds);
      }
    }

    /**
     One iteration. A request that is still open afterwards had not passed the deadline of its stage when
     the clock was read, and the deadlines of a stage that goes on are those set when it began; if the link
     was dropped, whatever was under way has its verdict. With a link, the lines acted on are exactly those
     received, and no taken request is left unsent after a handshake.
     */
    method Iterate(env: Surroundings) returns (ghost began: nat, ghost now: nat, ghost mark: nat, dropped: bool)
      requires Anchored()
      modifies this
      ensures Anchored() && Onward() && KeepsDeadlines()
      ensures old(clock) <= began <= now <= clock
      ensures dropped ==> !connected && active.None? && !waiting
      ensures !dropped && old(Lawful()) && !orphaned ==> Timely(began, now)
      ensures !dropped ==>
                |old(log)| <= mark < |log| && log[mark] == if connected then Looked(now) else Missed(now)
      ensures old(connected) && old(clock) >= old(nextLinkHeartbeat) && !env.sameInstance ==> dropped
      ensures !old(connected) ==> (connected || dropped <==> env.path != "" && env.openSucceeds)
      ensures connected && handshaked && active.Some? ==> waiting
      ensures old(handled) <= handled
      ensures connected ==>
                Assemble(if old(connected) then old(rxBuffer) else "", env.received)
                == Assembled(handled[|old(handled)|..], rxBuffer)
      ensures heartbeat == old(clock) && listenerRunning == old(listenerRunning)
      ensures workerJoinable == old(workerJoinable)
    {
      began, mark := BeginIteration(env.path, env.openSucceeds);
      now, dropped := began, false;
      if !connected {
        return;
      }
      now, mark, dropped := UseLink(began, env);
    }

    /** The rest of an iteration, with a link that may turn out to be lost. */
    method UseLink(ghost began: nat, env: Surroundings) returns (ghost now: nat, ghost mark: nat, dropped: bool)
      requires connected && began <= clock
      modifies this`connected, this`handshaked, this`waiting, this`active, this`rxBuffer, this`orphaned,
               this`pending, this`pendingDeadline, this`requestActive, this`snapshot, this`log, this`nextLinkHeartbeat,
               this`stopRequested, this`clock, this`requestDeadline, this`resultDeadline, this`handled
      ensures Anchored() && Onward() && KeepsDeadlines() && began <= now <= clock && connected == !dropped
      ensures dropped ==> active.None? && !waiting
      ensures !dropped && old(Lawful()) && !orphaned ==> Timely(began, now)
      ensures !dropped ==> |old(log)| <= mark < |log| && log[mark] == Looked(now)
      ensures old(clock) >= old(nextLinkHeartbeat) && !env.sameInstance ==> dropped
      ensures !dropped && handshaked && active.Some? ==> waiting
      ensures old(handled) <= handled
      ensures !dropped ==> Assemble(old(rxBuffer), env.received) == Assembled(handled[|old(handled)|..], rxBuffer)
    {
      mark := 0;
      dropped := CheckLink(env.sameInstance);
      now := clock;
      if !dropped {
        now, mark, dropped := Serve(began, env);
      }
    }

    /** The part of an iteration that needs the link. */
    method Serve(ghost began: nat, env: Surroundings) returns (ghost now: nat, ghost mark: nat, dropped: bool)
      requires Anchored() && connected && began <= clock
      modifies this`connected, this`handshaked, this`waiting, this`active, this`rxBuffer, this`orphaned,
               this`pending, this`pendingDeadline, this`requestActive, this`snapshot, this`log,
               this`stopRequested, this`clock, this`requestDeadline, this`resultDeadline, this`handled
      ensures Anchored() && Onward() && KeepsDeadlines() && began <= now <= clock
      ensures dropped == env.readFails && connected == !dropped
      ensures dropped ==> active.None? && !waiting
      ensures !dropped && old(Lawful()) && !orphaned ==> Timely(began, now)
      ensures !dropped ==> |old(log)| <= mark < |log| && log[mark] == Looked(now)
      ensures !dropped && handshaked && active.Some? ==> waiting
      ensures old(handled) <= handled
      ensures !dropped ==> Assemble(old(rxBuffer), env.received) == Assembled(handled[|old(handled)|..], rxBuffer)
    {
      mark := 0;
      TakeRequest();
      dropped := ReadSerial(env.readFails, env.received);
      now := clock;
      if !dropped {
        mark := FinishIteration();
      }
    }

    method TakeRequest()
      requires connected
      modifies this`pending, this`pendingDeadline, this`requestActive, this`snapshot, this`log,
               this`stopRequested, this`clock, this`active, this`requestDeadline
      ensures Onward() && KeepsPendingDeadline()
      ensures old(active).Some? ==> active == old(active) && requestDeadline == old(requestDeadline)
      ensures active.None? ==> pending.None?
    {
      Interfere();
      TakePending();
    }

    method CheckLink(sameInstance: bool) returns (dropped: bool)
      requires Anchored() && connected
      modifies this`connected, this`handshaked, this`waiting, this`active, this`rxBuffer, this`nextLinkHeartbeat,
               this`pending, this`pendingDeadline, this`requestActive, this`snapshot, this`log,
               this`stopRequested, this`clock
      ensures Anchored() && Onward() && connected == !dropped
      ensures dropped <==> old(clock) >= old(nextLinkHeartbeat) && !sameInstance
      ensures !dropped ==>
                rxBuffer == old(rxBuffer) && active == old(active) && waiting == old(waiting) && KeepsPending()
      ensures dropped ==> active.None? && !waiting && KeepsPending()
      ensures dropped && old(active).Some? ==> old(log) + [Verdict(false)] <= log
    {
      dropped := false;
      if clock >= nextLinkHeartbeat {
        nextLinkHeartbeat := clock + K_LINK_HEARTBEAT_INTERVAL;
        if !sameInstance {
          var wasActive := DropLink(LinkLost);
          handshaked, rxBuffer := false, "";
          dropped := true;
          if !wasActive {
            PublishProgress(Searching, DeviceDisconnected, "");
          }
        }
      }
    }

    method ReadSerial(fails: bool, received: string) returns (dropped: bool)
      requires Anchored() && connected
      modifies this`connected, this`handshaked, this`waiting, this`active, this`rxBuffer, this`orphaned,
               this`handled, this`pending, this`pendingDeadline, this`requestActive, this`snapshot, this`log,
               this`stopRequested, this`clock
      ensures Anchored() && Onward() && KeepsPending() && NothingBegins() && dropped == fails && connected == !dropped
      ensures old(handled) <= handled
      ensures !dropped ==> Assemble(old(rxBuffer), received) == Assembled(handled[|old(handled)|..], rxBuffer)
    {
      Interfere();
      dropped := fails;
      if dropped {
        var _ := DropLink(ReadFailed);
        return;
      }
      ghost var lines := Receive(received);
      assert handled[|old(handled)|..] == lines;
      Interfere();
    }

    // ---------------------------------------------------------------- the service

    method Start() returns (started: bool)
      modifies this`workerJoinable, this`stopRequested
      ensures started == !old(workerJoinable) && workerJoinable
      ensures stopRequested == (old(stopRequested) && !started)
    {
      started := !workerJoinable;
      if started {
        stopRequested := false;
        workerJoinable := true;
      }
    }

    method Listen()
      requires Anchored()
      modifies this
      ensures Anchored() && Onward()
    {
      var iterations: nat := *;
      while !stopRequested && iterations > 0
        invariant Anchored() && Onward()
      {
        var env: Surroundings := *;
        var _, _, _, _ := Iterate(env);
        Interfere();
        iterations := iterations - 1;
      }
    }

    method Announce(running: bool)
      modifies this`listenerRunning, this`heartbeat, this`pending, this`pendingDeadline, this`requestActive,
               this`snapshot, this`log, this`stopRequested, this`clock
      ensures Onward() && listenerRunning == running
    {
      listenerRunning, heartbeat := running, clock;
      Interfere();
    }

    /** The worker thread, for any number of iterations, and the join that ends it. */
    method Run()
      requires !connected && active.None? && !waiting && workerJoinable
      modifies this
      ensures Anchored() && Onward() && !listenerRunning && !workerJoinable
    {
      Announce(true);
      Listen();
      Announce(false);
      workerJoinable := false;
    }

    /**
     The worker's locals die with it. The service can be started again as if nothing had happened exactly
     if no taken request was left without a verdict; otherwise that request blocks the queue for good.
     */
    method ForgetLocals()
      modifies this`connected, this`handshaked, this`waiting, this`active, this`rxBuffer
      ensures !connected && !waiting && active.None?
      ensures old(Lawful()) ==> (Lawful() <==> old(active).None?)
      ensures old(Lawful()) && old(active).Some? ==> Stuck()
      ensures old(Stuck()) ==> Stuck()
    {
      connected, handshaked, waiting, active, rxBuffer := false, false, false, None, "";
    }

    /** The service is started again after it was stopped, and runs. A stuck service stays stuck. */
    method Restart()
      requires !workerJoinable
      modifies this
      ensures Anchored() && !workerJoinable
      ensures old(Lawful()) && old(active).None? ==> orphaned || Lawful()
      ensures old(Lawful()) && old(active).Some? ==> Stuck()
      ensures old(Stuck()) ==> Stuck()
    {
      ForgetLocals();
      var _ := Start();
      Run();
    }

    /**
     Why the condition is needed, first half: any taken request that is sent, and then failed by a
     handshake that goes unanswered, leaves the worker waiting for an acknowledgement of nothing.
     */
    method OrphanTheAck()
      requires Lawful() && active.Some? && !waiting
      modifies this`waiting, this`resultDeadline, this`log, this`requestActive, this`snapshot, this`active,
               this`orphaned
      ensures waiting && active.None? && pending.None? && !requestActive && orphaned && !Lawful()
    {
      MarkSent(ResultLine(active.value));
      RefuseHandshake();
    }

    /**
     Second half: from such a state, for any next payload, the late acknowledgement is credited to the
     next request, of which nothing was ever written.
     */
    method StaleAckIsCredited(payload: string) returns (ghost before: seq<Event>)
      requires waiting && active.None? && pending.None? && !requestActive && Sendable(payload)
      requires workerJoinable && listenerRunning && 0 < heartbeat <= clock <= heartbeat + K_LISTENER_HEARTBEAT_STALE
      modifies this`pending, this`pendingDeadline, this`requestActive, this`snapshot, this`log, this`active,
               this`requestDeadline, this`waiting
      ensures snapshot.state == Succeeded && Follow(log).Broken?
      ensures log == before + [Accepted(payload, clock)] + [Taken(clock)] + [AckRead(true)] + [Verdict(true)]
    {
      before := log;
      SanitizedHasNoBreaks(payload);
      var error := Queue(payload);
      TakePending();
      ReadAck(Parsed(true, ""));
      UnsentAckBreaks(before, payload, clock);
    }
  }

  lemma UnsentAckBreaks(log: seq<Event>, payload: string, at: nat)
    ensures Follow(log + [Accepted(payload, at)] + [Taken(at)] + [AckRead(true)] + [Verdict(true)]).Broken?
  {
    var queued := log + [Accepted(payload, at)];
    var taken := queued + [Taken(at)];
    var acked := taken + [AckRead(true)];
    assert Follow(queued).Broken? || Follow(queued).phase.Pending? by {
      FollowSnoc(log, Accepted(payload, at));
    }
    assert Follow(taken).Broken? || Follow(taken).phase.Held? by {
      FollowSnoc(queued, Taken(at));
    }
    assert Follow(acked).Broken? by {
      FollowSnoc(taken, AckRead(true));
    }
    FollowSnoc(acked, Verdict(true));
  }
}
