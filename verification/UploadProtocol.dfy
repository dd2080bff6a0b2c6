/**
 What one upload request may go through, told by the events that a listener on the bench can see:
 the lines read and written, and what the status shows. The worker is checked against it in FactoryUpload.
 */
module UploadProtocol {
  datatype UploadState =
    | Unavailable | Searching | WaitingHandshake | Ready | Queued | Sending | WaitingResultAck | Succeeded | Failed

  predicate Terminal(state: UploadState) { state == Succeeded || state == Failed }

  const K_MAX_PROTOCOL_LINE := 511
  const K_RESULT_COMMAND := "M5FACTORY:RESULT"

  predicate IsBreak(c: char) { c == '\r' || c == '\n' }

  function Sanitized(payload: string): string {
    if payload == "" then ""
    else (if IsBreak(payload[0]) then "" else [payload[0]]) + Sanitized(payload[1..])
  }

  function ResultLine(payload: string): string { K_RESULT_COMMAND + " " + payload + "\n" }

  /** A payload that travels as exactly one protocol line. */
  ghost predicate Sendable(payload: string) {
    && payload != "" && |ResultLine(payload)| <= K_MAX_PROTOCOL_LINE + 1
    && forall i :: 0 <= i < |payload| ==> !IsBreak(payload[i])
  }

  lemma {:induction false} SanitizedHasNoBreaks(payload: string)
    ensures forall i :: 0 <= i < |Sanitized(payload)| ==> !IsBreak(Sanitized(payload)[i])
    ensures (forall i :: 0 <= i < |payload| ==> !IsBreak(payload[i])) ==> Sanitized(payload) == payload
  {
    if payload != "" {
      SanitizedHasNoBreaks(payload[1..]);
      assert payload == [payload[0]] + payload[1..];
    }
  }

  // ---------------------------------------------------------------- events

  // milliseconds
  const K_QUEUED_HANDSHAKE_TIMEOUT := 10000
  const K_RESULT_ACK_TIMEOUT := 60000

  /** `at` is the clock reading that the step itself made. */
  datatype Event =
    | Accepted(payload: string, at: nat)  // queue returned true
    | Connected                           // a new serial session was opened
    | Taken(at: nat)                      // the worker took the pending request
    | Wrote(line: string, at: nat)        // a RESULT line went out completely
    | AckRead(saved: bool)                // ACK_RESULT was read; saved only if it parsed and said so
    | Published(state: UploadState)       // the status shows progress
    | Verdict(success: bool)              // the status shows the end of a request
    | Looked(at: nat)                     // an iteration over an open session is done with its deadlines
    | Missed(at: nat)                     // an iteration without a session is done with its deadline

  /** `due` is when the stage must be over. */
  datatype Phase =
    | Free
    | Pending(payload: string, due: nat)
    | Held(payload: string, due: nat)
    | Outstanding(payload: string, due: nat)
    | Answered(payload: string, saved: bool)

  datatype Tracking = Broken | Tracking(phase: Phase, shown: UploadState)

  ghost function Advance(t: Tracking, event: Event): Tracking {
    if t.Broken? then Broken
    else match event
      case Accepted(payload, at) =>
        if t.phase.Free? && Sendable(payload)
        then Tracking(Pending(payload, at + K_QUEUED_HANDSHAKE_TIMEOUT), Queued) else Broken
      case Connected =>
        if t.phase.Free? || t.phase.Pending? then t else Broken
      case Taken(at) =>
        if t.phase.Pending? then t.(phase := Held(t.phase.payload, at + K_QUEUED_HANDSHAKE_TIMEOUT)) else Broken
      case Wrote(line, at) =>
        if t.phase.Held? && line == ResultLine(t.phase.payload)
        then t.(phase := Outstanding(t.phase.payload, at + K_RESULT_ACK_TIMEOUT)) else Broken
      case AckRead(saved) =>
        if t.phase.Outstanding? then t.(phase := Answered(t.phase.payload, saved)) else Broken
      case Published(state) =>
        if Terminal(t.shown) || Terminal(state) then Broken else t.(shown := state)
      case Verdict(success) =>
        if t.phase.Free? || success != (t.phase.Answered? && t.phase.saved) then Broken
        else Tracking(Free, if success then Succeeded else Failed)
      case Looked(at) =>
        if t.phase.Answered? || ((t.phase.Held? || t.phase.Outstanding?) && at > t.phase.due) then Broken else t
      case Missed(at) =>
        if t.phase.Pending? && at > t.phase.due then Broken else t
  }

  const START := Tracking(Free, Unavailable)

  ghost function FollowUpTo(log: seq<Event>, k: nat): Tracking
    requires k <= |log|
  {
    if k == 0 then START else Advance(FollowUpTo(log, k - 1), log[k - 1])
  }

  ghost function Follow(log: seq<Event>): Tracking { FollowUpTo(log, |log|) }

  /** What comes later does not change what has been followed. */
  lemma {:induction false} FollowPrefix(log: seq<Event>, event: Event, k: nat)
    requires k <= |log|
    ensures FollowUpTo(log + [event], k) == FollowUpTo(log, k)
  {
    if k > 0 {
      FollowPrefix(log, event, k - 1);
    }
  }

  lemma FollowSnoc(log: seq<Event>, event: Event)
    ensures Follow(log + [event]) == Advance(Follow(log), event)
  {
    FollowPrefix(log, event, |log|);
  }

  /** Once broken, always broken: a sound log is sound at every point of it. */
  lemma {:induction false} PrefixSound(log: seq<Event>, k: nat, n: nat)
    requires k <= n <= |log| && !FollowUpTo(log, n).Broken?
    ensures !FollowUpTo(log, k).Broken?
  {
    if k < n {
      PrefixSound(log, k, n - 1);
    }
  }

  lemma StepSound(log: seq<Event>, k: nat)
    requires k < |log| && !Follow(log).Broken?
    ensures !FollowUpTo(log, k).Broken? && !FollowUpTo(log, k + 1).Broken?
  {
    PrefixSound(log, k, |log|);
    PrefixSound(log, k + 1, |log|);
  }

  predicate Bounds(event: Event) { event.Accepted? || event.Verdict? }

  /** Nothing between a and b, both excluded, opens or closes a request. */
  predicate SameRequest(log: seq<Event>, a: nat, b: nat)
    requires b <= |log|
  {
    forall k :: a < k < b ==> !Bounds(log[k])
  }

  predicate SameSession(log: seq<Event>, a: nat, b: nat)
    requires b <= |log|
  {
    forall k :: a < k < b ==> !log[k].Connected?
  }

  /** How a request came this far: where it was accepted, written and acknowledged. */
  datatype Origin = Origin(accepted: nat, wrote: nat, acked: nat)

  predicate IsAccepted(event: Event, payload: string) { event.Accepted? && event.payload == payload }

  predicate IsWritten(event: Event, payload: string) { event.Wrote? && event.line == ResultLine(payload) }

  ghost predicate Traces(log: seq<Event>, n: nat, o: Origin)
    requires n <= |log| && !FollowUpTo(log, n).Broken?
  {
    var phase := FollowUpTo(log, n).phase;
    !phase.Free? ==>
      && o.accepted < n && IsAccepted(log[o.accepted], phase.payload) && SameRequest(log, o.accepted, n)
      && Sendable(phase.payload)
      && (!phase.Pending? && !phase.Held? ==>
            && o.accepted < o.wrote < n && IsWritten(log[o.wrote], phase.payload) && SameSession(log, o.wrote, n))
      && (phase.Answered? ==> o.wrote < o.acked < n && log[o.acked] == AckRead(phase.saved))
  }

  lemma {:induction false} OriginExists(log: seq<Event>, n: nat) returns (o: Origin)
    requires n <= |log| && !FollowUpTo(log, n).Broken?
    ensures Traces(log, n, o)
  {
    o := Origin(0, 0, 0);
    if n > 0 {
      o := OriginExists(log, n - 1);
      match log[n - 1]
      case Accepted(_, _) => o := Origin(n - 1, 0, 0);
      case Wrote(_, _) => o := o.(wrote := n - 1);
      case AckRead(_) => o := o.(acked := n - 1);
      case _ =>
    }
  }

  /**
   SUCCEEDED is only shown for a request whose whole RESULT line was written after it was accepted, and
   whose positive acknowledgement was read after that, on the same serial session.
   */
  lemma SuccessIsEarned(log: seq<Event>, i: nat) returns (payload: string, o: Origin)
    requires !Follow(log).Broken? && i < |log| && log[i] == Verdict(true)
    ensures o.accepted < o.wrote < o.acked < i
    ensures IsAccepted(log[o.accepted], payload) && SameRequest(log, o.accepted, i)
    ensures IsWritten(log[o.wrote], payload) && SameSession(log, o.wrote, i)
    ensures log[o.acked] == AckRead(true)
    ensures Sendable(payload)
  {
    StepSound(log, i);
    o := OriginExists(log, i);
    payload := FollowUpTo(log, i).phase.payload;
  }

  predicate HasAccepted(log: seq<Event>, a: nat, b: nat)
    requires b <= |log|
  {
    exists k :: a <= k < b && log[k].Accepted?
  }

  predicate HasVerdict(log: seq<Event>, a: nat, b: nat)
    requires b <= |log|
  {
    exists k :: a <= k < b && log[k].Verdict?
  }

  /** Since the last verdict, or ever, nothing was accepted if no request is open. */
  lemma {:induction false} FreeMeansClosed(log: seq<Event>, a: nat, b: nat)
    requires a < b <= |log| && !FollowUpTo(log, b).Broken?
    requires log[a].Accepted? && !HasVerdict(log, a, b)
    ensures !FollowUpTo(log, b).phase.Free?
    decreases b
  {
    if a < b - 1 {
      FreeMeansClosed(log, a, b - 1);
      assert !log[b - 1].Verdict?;
    }
  }

  lemma {:induction false} ClosedStaysClosed(log: seq<Event>, a: nat, b: nat)
    requires a < b <= |log| && !FollowUpTo(log, b).Broken?
    requires log[a].Verdict? && !HasAccepted(log, a, b)
    ensures FollowUpTo(log, b).phase.Free? && Terminal(FollowUpTo(log, b).shown)
    decreases b
  {
    if a < b - 1 {
      ClosedStaysClosed(log, a, b - 1);
      assert !log[b - 1].Accepted?;
    }
  }

  /** One verdict per accepted request. */
  lemma OneVerdictPerRequest(log: seq<Event>, i: nat, j: nat)
    requires !Follow(log).Broken? && i < j < |log|
    requires log[i].Verdict? && log[j].Verdict?
    ensures HasAccepted(log, i + 1, j)
  {
    StepSound(log, j);
    if !HasAccepted(log, i + 1, j) {
      ClosedStaysClosed(log, i, j);
    }
  }

  /** No request is accepted while another is open. */
  lemma OneRequestAtATime(log: seq<Event>, i: nat, j: nat)
    requires !Follow(log).Broken? && i < j < |log|
    requires log[i].Accepted? && log[j].Accepted?
    ensures HasVerdict(log, i + 1, j)
  {
    StepSound(log, j);
    if !HasVerdict(log, i + 1, j) {
      FreeMeansClosed(log, i, j);
    }
  }

  /** A verdict stays on display until the next request is accepted. */
  lemma VerdictSticks(log: seq<Event>, i: nat, j: nat)
    requires !Follow(log).Broken? && i < j < |log| && log[i].Verdict?
    requires log[j].Published?
    ensures HasAccepted(log, i + 1, j)
  {
    StepSound(log, j);
    if !HasAccepted(log, i + 1, j) {
      ClosedStaysClosed(log, i, j);
    }
  }

  // ---------------------------------------------------------------- in time

  /** The events after which a request is no longer in this stage; an answer awaits its verdict first. */
  predicate Leaves(stage: Phase, event: Event) {
    event.Verdict? || (stage.Pending? && event.Taken?) || (stage.Held? && event.Wrote?)
  }

  predicate HasLeft(log: seq<Event>, a: nat, b: nat, stage: Phase)
    requires b <= |log|
  {
    exists k :: a <= k < b && Leaves(stage, log[k])
  }

  /** Nothing else ends a stage, and nothing moves its due time. */
  lemma {:induction false} StageLasts(log: seq<Event>, a: nat, b: nat, stage: Phase)
    requires a < b <= |log| && !FollowUpTo(log, b).Broken?
    requires !FollowUpTo(log, a + 1).Broken? && FollowUpTo(log, a + 1).phase == stage && !stage.Free?
    requires !HasLeft(log, a + 1, b, stage)
    ensures FollowUpTo(log, b).phase == stage || (stage.Outstanding? && FollowUpTo(log, b).phase.Answered?)
    decreases b
  {
    if a + 1 < b {
      StageLasts(log, a, b - 1, stage);
      assert !Leaves(stage, log[b - 1]);
    }
  }

  lemma StageLeft(log: seq<Event>, i: nat, j: nat, stage: Phase)
    requires !Follow(log).Broken? && i < j < |log|
    requires !FollowUpTo(log, i + 1).Broken? && FollowUpTo(log, i + 1).phase == stage
    requires match stage
             case Pending(_, due) => log[j].Missed? && log[j].at > due
             case Held(_, due) => log[j].Looked? && log[j].at > due
             case Outstanding(_, due) => log[j].Looked? && log[j].at > due
             case _ => false
    ensures HasLeft(log, i + 1, j, stage)
  {
    StepSound(log, j);
    if !HasLeft(log, i + 1, j, stage) {
      StageLasts(log, i, j, stage);
    }
  }

  /** A request that cannot be taken has failed by the first search that comes after its deadline. */
  lemma PendingIsFailedInTime(log: seq<Event>, i: nat, j: nat)
    requires !Follow(log).Broken? && i < j < |log|
    requires log[i].Accepted? && log[j].Missed? && log[j].at > log[i].at + K_QUEUED_HANDSHAKE_TIMEOUT
    ensures exists k :: i < k < j && (log[k].Taken? || log[k].Verdict?)
  {
    StepSound(log, i);
    StageLeft(log, i, j, Pending(log[i].payload, log[i].at + K_QUEUED_HANDSHAKE_TIMEOUT));
  }

  /** A taken request is sent or has its verdict by the first iteration that passes its handshake deadline. */
  lemma TakenIsServedInTime(log: seq<Event>, i: nat, j: nat)
    requires !Follow(log).Broken? && i < j < |log|
    requires log[i].Taken? && log[j].Looked? && log[j].at > log[i].at + K_QUEUED_HANDSHAKE_TIMEOUT
    ensures exists k :: i < k < j && (log[k].Wrote? || log[k].Verdict?)
  {
    StepSound(log, i);
    StageLeft(log, i, j, FollowUpTo(log, i + 1).phase);
  }

  /** A sent request has its verdict by the first iteration that passes its acknowledgement deadline. */
  lemma SentIsConcludedInTime(log: seq<Event>, i: nat, j: nat)
    requires !Follow(log).Broken? && i < j < |log|
    requires log[i].Wrote? && log[j].Looked? && log[j].at > log[i].at + K_RESULT_ACK_TIMEOUT
    ensures HasVerdict(log, i + 1, j)
  {
    StepSound(log, i);
    StageLeft(log, i, j, FollowUpTo(log, i + 1).phase);
  }
}
