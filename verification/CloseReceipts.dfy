/**
 What the close machine accepts, said without its own check: which records from the
 peer it takes, what each refusal is for, and that over a whole run an endpoint whose
 verdict is not failed has taken nothing else.
 */
module CloseReceipts {
  import opened Prelude
  import opened RecordSequence
  import opened RecordSession
  import opened CloseRules

  /** The body says where its own envelope is, and its commitment covers the type, the peer's direction, the channel and both positions. */
  predicate Genuine(m: Machine, ack: bool, body: CloseBody, envelope: Position) {
    && body.CloseBody? && body.finalSend == envelope
    && body.commitment.ack == ack && body.commitment.direction != m.ch.side && body.commitment.binding == m.ch.binding
    && body.commitment.finalSend == envelope && body.commitment.expectedRecv == body.expectedRecv
  }

  /** A close is expected while the endpoint has none and owes nothing: before its own first record, or right after its own close. */
  predicate AwaitsClose(m: Machine) { m.state.Open? || m.state.AwaitingAck? }

  /** An ack is expected once there is an anchor to judge it by and none has been taken. */
  predicate AwaitsAck(m: Machine) { m.anchor.FrozenAt? && !m.peerAck && !m.state.Ended? }

  /** The passed-through rule: expectedRecv is next-send, or earlier than it. */
  predicate PassedThrough(body: CloseBody, nextSend: Position)
    requires body.CloseBody?
  {
    body.expectedRecv == nextSend || body.expectedRecv.Before(nextSend)
  }

  predicate EndsFailed(m': Machine) { m'.state.Ended? && m'.verdict == Some(Failed) }

  lemma EndedFailed(m: Machine, reason: Reason)
    requires m.Valid()
    ensures var (m', outcome) := Fatally(m, reason);
            EndsFailed(m') && outcome == FatalClose(reason) && m'.peerClose == m.peerClose && m'.peerAck == m.peerAck
  {}

  /**
   A close is taken exactly when it is expected, genuine, and declares nothing past
   next-send; it then puts the endpoint into the branch the two closes make. Anything
   else is fatal, for the first thing that is wrong with it.
   */
  lemma CloseAcceptedExactly(m: Machine, body: CloseBody, envelope: Position, completed: bool, nextSend: Position, now: nat)
    requires m.Valid()
    ensures var (m', outcome) := Receive(m, CloseMachineRecord(false, body), envelope, completed, nextSend, now);
            if AwaitsClose(m) && Genuine(m, false, body, envelope) && PassedThrough(body, nextSend)
            then outcome == PeerClose(m.state.AwaitingAck?) && m'.peerClose
                 && m'.state == (if m.recordsSent == 0 then CloseReceived else SimultaneousPending)
                 && m'.branch == Some(if m.recordsSent == 0 then SequentialResponder else Simultaneous)
            else outcome.FatalClose? && EndsFailed(m')
  {
    EndedFailed(m, BeyondMachine);
    var invalid := Validate(false, body, envelope, m.ch.binding, Opposite(m.ch.side), nextSend, None);
    if invalid.Some? { EndedFailed(m, InvalidRecord(invalid.value)); }
  }

  /** What the object's own transition sees of it. */
  lemma CloseTakenExactly(m: Machine, body: CloseBody, envelope: Position, completed: bool, nextSend: Position, now: nat)
    requires m.Valid()
    ensures ReceiveClose(m, body, envelope, completed, nextSend, now).1.PeerClose? <==>
              AwaitsClose(m) && Genuine(m, false, body, envelope) && PassedThrough(body, nextSend)
  {}

  lemma AckTakenExactly(m: Machine, body: CloseBody, envelope: Position, nextSend: Position)
    requires m.Valid()
    ensures ReceiveCloseAck(m, body, envelope, nextSend).1.PeerAck? <==>
              AwaitsAck(m) && Genuine(m, true, body, envelope) && body.expectedRecv == m.anchor.position
  {}

  lemma CloseRefusedFor(m: Machine, body: CloseBody, envelope: Position, completed: bool, nextSend: Position, now: nat)
    requires m.Valid()
    ensures var outcome := Receive(m, CloseMachineRecord(false, body), envelope, completed, nextSend, now).1;
            && (outcome == FatalClose(BeyondMachine) <==> !AwaitsClose(m))
            && (outcome == FatalClose(InvalidRecord(MalformedBody)) <==> AwaitsClose(m) && body.BadBody?)
            && (outcome == FatalClose(InvalidRecord(HeaderMismatch)) <==>
                  AwaitsClose(m) && body.CloseBody? && body.finalSend != envelope)
            && (outcome == FatalClose(InvalidRecord(CommitmentMismatch)) <==>
                  AwaitsClose(m) && body.CloseBody? && body.finalSend == envelope && !Genuine(m, false, body, envelope))
            && (outcome == FatalClose(InvalidRecord(PassedThroughRule)) <==>
                  AwaitsClose(m) && Genuine(m, false, body, envelope) && nextSend.Before(body.expectedRecv))
            && outcome != FatalClose(InvalidRecord(StrictRule))
  {}

  /** An ack is taken exactly when it is expected, genuine, and declares the anchor itself. */
  lemma AckAcceptedExactly(m: Machine, body: CloseBody, envelope: Position, completed: bool, nextSend: Position, now: nat)
    requires m.Valid()
    ensures var (m', outcome) := Receive(m, CloseMachineRecord(true, body), envelope, completed, nextSend, now);
            if AwaitsAck(m) && Genuine(m, true, body, envelope) && body.expectedRecv == m.anchor.position
            then outcome == PeerAck(m'.completed) && m'.peerAck
                 && (m'.completed <==> m.anchor.isAck || m.recordsSent == CLOSE_RECORDS_RESERVED)
            else outcome.FatalClose? && EndsFailed(m')
  {
    EndedFailed(m, BeyondMachine);
    if ExpectsAck(m) {
      var invalid := Validate(true, body, envelope, m.ch.binding, Opposite(m.ch.side), nextSend, Some(m.anchor.position));
      if invalid.Some? { EndedFailed(m, InvalidRecord(invalid.value)); }
    }
  }

  lemma AckRefusedFor(m: Machine, body: CloseBody, envelope: Position, completed: bool, nextSend: Position, now: nat)
    requires m.Valid()
    ensures var outcome := Receive(m, CloseMachineRecord(true, body), envelope, completed, nextSend, now).1;
            && (outcome == FatalClose(BeyondMachine) <==> !AwaitsAck(m))
            && (outcome == FatalClose(InvalidRecord(MalformedBody)) <==> AwaitsAck(m) && body.BadBody?)
            && (outcome == FatalClose(InvalidRecord(HeaderMismatch)) <==>
                  AwaitsAck(m) && body.CloseBody? && body.finalSend != envelope)
            && (outcome == FatalClose(InvalidRecord(CommitmentMismatch)) <==>
                  AwaitsAck(m) && body.CloseBody? && body.finalSend == envelope && !Genuine(m, true, body, envelope))
            && (outcome == FatalClose(InvalidRecord(StrictRule)) <==>
                  AwaitsAck(m) && Genuine(m, true, body, envelope) && body.expectedRecv != m.anchor.position)
            && outcome != FatalClose(InvalidRecord(PassedThroughRule))
  {}

  /** An application record is delivered, and changes nothing, until the peer has closed or proved its close; after that it is fatal. */
  lemma ApplicationAcceptedExactly(m: Machine, envelope: Position, completed: bool, nextSend: Position, now: nat)
    requires m.Valid()
    ensures var (m', outcome) := Receive(m, RpcRecord, envelope, completed, nextSend, now);
            if m.state.Ended? || m.peerClose || m.peerAck
            then outcome == FatalClose(BeyondMachine) && EndsFailed(m')
            else outcome == Application && m' == m
  {
    EndedFailed(m, BeyondMachine);
  }

  /** The peer's terminal error ends the channel with no answer; a malformed one is a fatal condition of its own, which still has one. */
  lemma ErrorEnds(m: Machine, conforming: bool, envelope: Position, completed: bool, nextSend: Position, now: nat)
    requires m.Valid()
    ensures var (m', outcome) := Receive(m, ErrorRecord(conforming), envelope, completed, nextSend, now);
            && EndsFailed(m')
            && outcome == (if conforming then PeerTerminalError else FatalClose(MalformedErrorBody))
            && (m'.MayProtectTerminalError() <==> m.MayProtectTerminalError() && !conforming)
  {}

  // ------------------------------------------------------------------ whole runs

  /** What a received record must be for the endpoint not to fail on it. */
  predicate Deserved(m: Machine, e: Event)
    requires e.Receives?
  {
    match e.inbound
    case RpcRecord => !m.state.Ended? && !m.peerClose && !m.peerAck
    case CloseMachineRecord(ack, body) =>
      && Genuine(m, ack, body, e.envelope)
      && if ack then AwaitsAck(m) && body.expectedRecv == m.anchor.position
         else AwaitsClose(m) && PassedThrough(body, e.nextSend)
    case ErrorRecord(_) => false
  }

  /** A received record that is not what it must be fails the endpoint, and one that is does not. */
  lemma ReceivedDecides(m: Machine, e: Event)
    requires m.Valid() && e.Receives?
    ensures !Deserved(m, e) ==> Apply(m, e).verdict == Some(Failed)
    ensures Deserved(m, e) && m.verdict != Some(Failed) ==> Apply(m, e).verdict != Some(Failed)
  {
    match e.inbound
    case RpcRecord => ApplicationAcceptedExactly(m, e.envelope, e.completed, e.nextSend, e.now);
    case CloseMachineRecord(ack, body) =>
      if ack {
        AckAcceptedExactly(m, body, e.envelope, e.completed, e.nextSend, e.now);
      } else {
        CloseAcceptedExactly(m, body, e.envelope, e.completed, e.nextSend, e.now);
      }
    case ErrorRecord(conforming) => ErrorEnds(m, conforming, e.envelope, e.completed, e.nextSend, e.now);
  }

  /** Every record of the run was what it had to be when it came. */
  ghost predicate AllDeserved(m: Machine, events: seq<Event>)
    requires m.Valid()
    decreases |events|
  {
    events == []
    || (var before, last := events[..|events| - 1], events[|events| - 1];
        AllDeserved(m, before) && (last.Receives? ==> Deserved(Run(m, before), last)))
  }

  /** None of the events is a failure of the endpoint's own or its terminal error. */
  predicate NoOwnFailure(events: seq<Event>) {
    forall i :: 0 <= i < |events| ==> !events[i].FailsElsewhere? && !events[i].TransmitsError?
  }

  predicate HasFailed(m: Machine) { m.verdict == Some(Failed) }

  lemma OthersDoNotFail(m: Machine, e: Event)
    requires m.Valid() && !e.Receives? && !e.FailsElsewhere? && !e.TransmitsError? && !HasFailed(m)
    ensures !HasFailed(Apply(m, e))
  {
    if e.Transmits? { TransmitKeeps(m, e); }
  }

  lemma FailedStays(m: Machine, e: Event)
    requires m.Valid() && HasFailed(m)
    ensures HasFailed(Apply(m, e))
  {
    ApplyKeeps(m, e);
  }

  /** One event fails an endpoint that had not failed exactly when it is a record that is not what it must be, or a failure of its own. */
  lemma EventDecides(m: Machine, e: Event)
    requires m.Valid() && !HasFailed(m)
    ensures e.Receives? ==> (HasFailed(Apply(m, e)) <==> !Deserved(m, e))
    ensures !e.Receives? && !e.FailsElsewhere? && !e.TransmitsError? ==> !HasFailed(Apply(m, e))
  {
    if e.Receives? {
      ReceivedDecides(m, e);
    } else if !e.FailsElsewhere? && !e.TransmitsError? {
      OthersDoNotFail(m, e);
    }
  }

  /**
   Over any run of a machine that had not failed: while it has not, it has taken no
   record that was not what it had to be; and if it fails neither by itself nor by its
   own error, it fails exactly because of such a record.
   */
  lemma {:induction false} FailedExactly(m: Machine, events: seq<Event>)
    requires m.Valid() && !HasFailed(m)
    ensures !HasFailed(Run(m, events)) ==> AllDeserved(m, events)
    ensures NoOwnFailure(events) ==> (HasFailed(Run(m, events)) <==> !AllDeserved(m, events))
    decreases |events|
  {
    if events != [] {
      var before, last := events[..|events| - 1], events[|events| - 1];
      FailedExactly(m, before);
      if HasFailed(Run(m, before)) {
        FailedStays(Run(m, before), last);
      } else {
        EventDecides(Run(m, before), last);
      }
    }
  }
}
