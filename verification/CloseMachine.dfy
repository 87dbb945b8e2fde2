/** The close machine as the object a channel holds, updated in place by each call. */
module CloseMachine {
  import opened Prelude
  import opened RecordSequence
  import opened RecordSession
  import opened CloseRules
  import CloseReceipts

  class E2eeCloseMachine {
    const ch: Channel
    var state: State
    var branch: Option<Branch>
    var anchor: Anchor
    var pending: Option<CloseRecord>
    var ackDue: AckDue
    var closeRecordsSent: nat
    var completed: bool
    var peerAckValidated: bool
    var peerCloseValidated: bool
    var waits: Waits
    var terminalErrorSent: bool
    var peerTerminalError: bool
    var verdict: Option<Verdict>

    ghost function Value(): Machine
      reads this
    {
      Machine(ch, state, branch, anchor, pending, ackDue, closeRecordsSent, completed, peerAckValidated,
              peerCloseValidated, waits, terminalErrorSent, peerTerminalError, verdict)
    }

    ghost predicate Valid()
      reads this
    {
      Value().Valid()
    }

    constructor (ch: Channel)
      ensures Valid() && Value() == Fresh(ch)
    {
      this.ch := ch;
      state, branch, verdict, pending := Open, None, None, None;
      anchor, ackDue, waits := NotFrozen, NoAckDue, Waits(0, None, None);
      closeRecordsSent, completed, peerAckValidated, peerCloseValidated := 0, false, false, false;
      terminalErrorSent, peerTerminalError := false, false;
    }

    // ------------------------------------------------------- private transitions

    method Fatal(reason: Reason) returns (outcome: ReceiveOutcome)
      requires Valid()
      modifies `state, `waits, `verdict, `pending
      ensures Valid() && (Value(), outcome) == Fatally(old(Value()), reason)
    {
      ghost var before := Value();
      pending := None;
      verdict := Resolve(verdict, Failed);
      state, waits := Ended, waits.(deadline := None);
      EndWithKeeps(before, Failed);
      return FatalClose(reason);
    }

    // ------------------------------------------------------------------- building

    method Build(ack: bool, purpose: Purpose, nextSend: Position, expectedRecv: Position) returns (r: Option<CloseRecord>)
      modifies `pending
      ensures var built := CloseRules.Build(old(Value()), ack, purpose, nextSend, expectedRecv);
              if built.None? then r.None? && Value() == old(Value())
              else r == Some(built.value.1) && Value() == built.value.0
    {
      if terminalErrorSent || peerTerminalError { return None; }
      if closeRecordsSent >= CLOSE_RECORDS_RESERVED { return None; }
      var record := CloseRecord(ack, MakeBody(ack, ch.side, ch.binding, nextSend, expectedRecv), nextSend, purpose);
      pending := Some(record);
      return Some(record);
    }

    method BuildClose(nextSend: Position, expectedRecv: Position) returns (r: Option<CloseRecord>)
      requires Valid()
      modifies `pending
      ensures Valid() && Value() == Apply(old(Value()), BuildsClose(nextSend, expectedRecv))
      ensures r.Some? <==> CloseRules.BuildClose(old(Value()), nextSend, expectedRecv).Some?
      ensures r.Some? ==> Value().pending == r
    {
      ApplyKeeps(Value(), BuildsClose(nextSend, expectedRecv));
      if state != Open { return None; }
      r := Build(false, InitialClose, nextSend, expectedRecv);
    }

    method BuildCloseAck(nextSend: Position, expectedRecv: Position) returns (r: Option<CloseRecord>)
      requires Valid()
      modifies `pending
      ensures Valid() && Value() == Apply(old(Value()), BuildsAck(nextSend, expectedRecv))
      ensures r.Some? <==> CloseRules.BuildCloseAck(old(Value()), nextSend, expectedRecv).Some?
      ensures r.Some? ==> Value().pending == r
    {
      ApplyKeeps(Value(), BuildsAck(nextSend, expectedRecv));
      var owed: Option<Purpose> := None;
      if state == CloseReceived || state == SimultaneousPending {
        if !ackDue.Undeclarable? { owed := Some(Acknowledgement); }
      } else if state == ConfirmationDue {
        owed := Some(FinalConfirmation);
      }
      if owed.None? { return None; }
      if ackDue.Declares? && expectedRecv != ackDue.expectedRecv { return None; }
      r := Build(true, owed.value, nextSend, expectedRecv);
    }

    // --------------------------------------------------------------- transmitting

    /** The anchor is fixed from the pair the first record really consumed, and never recomputed. */
    method FixAnchor(ack: bool, at: Position, epochCompleted: bool)
      modifies `anchor, `verdict
      ensures Value() == FreezeAnchor(old(Value()), ack, at, epochCompleted)
    {
      if anchor.NotFrozen? {
        var next := NextPosition(ch.l, at, epochCompleted);
        if next.None? {
          anchor := Unfreezable;
          verdict := Resolve(verdict, UncleanAbrupt);
        } else {
          anchor := FrozenAt(next.value, ack);
        }
      }
    }

    method NoteTransmitted(record: CloseRecord, at: Position, epochCompleted: bool, now: nat) returns (ok: bool)
      requires Valid()
      modifies this
      ensures Valid() && Value() == Apply(old(Value()), Transmits(record, at, epochCompleted, now))
      ensures ok <==> TransmittedOk(old(Value()), record, at)
    {
      ApplyKeeps(Value(), Transmits(record, at, epochCompleted, now));
      if pending.None? || pending.value != record || at != record.position { return false; }
      if (record.purpose == InitialClose && state != Open)
         || (record.purpose == Acknowledgement && state != CloseReceived && state != SimultaneousPending)
         || (record.purpose == FinalConfirmation && state != ConfirmationDue)
      {
        return false;
      }
      Commit(record, at, epochCompleted, now);
      return true;
    }

    /** The record is on the wire: count it, fix the anchor, and take the transition it answers. */
    method Commit(record: CloseRecord, at: Position, epochCompleted: bool, now: nat)
      requires Valid() && TransmittedOk(Value(), record, at)
      modifies this
      ensures Some(Value()) == CloseRules.NoteTransmitted(old(Value()), record, at, epochCompleted, now)
    {
      FixAnchor(record.ack, at, epochCompleted);
      pending, closeRecordsSent := None, closeRecordsSent + 1;
      Transit(record.purpose, now);
    }

    method Transit(purpose: Purpose, now: nat)
      requires Answers(state, purpose) && waits.armed < MAX_CLOSE_WAITS
      modifies `ackDue, `branch, `state, `completed, `verdict, `waits
      ensures Value() == Transition(old(Value()), purpose, now)
    {
      match purpose
      case InitialClose =>
        state, waits := AwaitingAck, ArmWait(waits, now);
      case Acknowledgement =>
        ackDue := NoAckDue;
        if state == CloseReceived {
          branch, state, waits := Some(SequentialResponder), AwaitingConfirmation, ArmWait(waits, now);
          return;
        }
        branch, waits := Some(Simultaneous), Lingers(waits, now);
        if peerAckValidated {
          state, completed, waits, verdict := Complete, true, waits.(deadline := None), Resolve(verdict, Clean);
          return;
        }
        state, waits := AwaitingSimultaneousAck, ArmWait(waits, now);
      case FinalConfirmation =>
        branch, waits := Some(SequentialInitiator), Lingers(waits, now);
        state, completed, waits, verdict := Complete, true, waits.(deadline := None), Resolve(verdict, Clean);
    }

    method NoteTerminalErrorTransmitted() returns (ok: bool)
      requires Valid()
      modifies this
      ensures Valid() && Value() == Apply(old(Value()), TransmitsError)
      ensures ok <==> NoteTerminalError(old(Value())).Some?
    {
      ApplyKeeps(Value(), TransmitsError);
      if terminalErrorSent || peerTerminalError { return false; }
      terminalErrorSent := true;
      pending := None;
      verdict := Resolve(verdict, Failed);
      state, waits := Ended, waits.(deadline := None);
      return true;
    }

    // ------------------------------------------------------------------ receiving

    method Receive(r: Inbound, envelope: Position, epochCompleted: bool, nextSend: Position, now: nat)
      returns (outcome: ReceiveOutcome)
      requires Valid()
      modifies this
      ensures Valid()
      ensures (Value(), outcome) == CloseRules.Receive(old(Value()), r, envelope, epochCompleted, nextSend, now)
    {
      ReceiveKeeps(Value(), r, envelope, epochCompleted, nextSend, now);
      match r
      case ErrorRecord(conforming) =>
        if !conforming {
          outcome := Fatal(MalformedErrorBody);
        } else {
          peerTerminalError := true;
          pending := None;
          verdict := Resolve(verdict, Failed);
          state, waits := Ended, waits.(deadline := None);
          outcome := PeerTerminalError;
        }
      case RpcRecord =>
        if state == Ended || peerCloseValidated || peerAckValidated || state == Complete {
          outcome := Fatal(BeyondMachine);
        } else {
          outcome := Application;
        }
      case CloseMachineRecord(ack, body) =>
        if state == Ended {
          outcome := Fatal(BeyondMachine);
        } else if ack {
          outcome := ReceiveCloseAck(body, envelope, nextSend);
        } else {
          outcome := ReceiveClose(body, envelope, epochCompleted, nextSend, now);
        }
    }

    method ReceiveClose(body: CloseBody, envelope: Position, epochCompleted: bool, nextSend: Position, now: nat)
      returns (outcome: ReceiveOutcome)
      requires Valid()
      modifies this
      ensures Valid()
      ensures (Value(), outcome) == CloseRules.ReceiveClose(old(Value()), body, envelope, epochCompleted, nextSend, now)
      ensures outcome.PeerClose? <==>
                && CloseReceipts.AwaitsClose(old(Value())) && CloseReceipts.Genuine(old(Value()), false, body, envelope)
                && CloseReceipts.PassedThrough(body, nextSend)
    {
      ghost var before := Value();
      CloseReceipts.CloseTakenExactly(before, body, envelope, epochCompleted, nextSend, now);
      ReceiveCloseKeeps(before, body, envelope, epochCompleted, nextSend, now);
      ghost var after := CloseRules.ReceiveClose(before, body, envelope, epochCompleted, nextSend, now);
      if state != Open && state != AwaitingAck {
        outcome := Fatal(BeyondMachine);
        return;
      }
      var invalid := Validate(false, body, envelope, ch.binding, Opposite(ch.side), nextSend, None);
      if invalid.Some? {
        outcome := Fatal(InvalidRecord(invalid.value));
        return;
      }
      peerCloseValidated := true;
      var next := NextPosition(ch.l, envelope, epochCompleted);
      if next.None? {
        ackDue := Undeclarable;
        verdict := Resolve(verdict, UncleanAbrupt);
      } else {
        ackDue := Declares(next.value);
      }
      if state == Open {
        branch := Some(SequentialResponder);
        state := CloseReceived;
        if ackDue.Undeclarable? { waits := ArmWait(waits, now); }
        assert Value() == after.0;
        return PeerClose(false);
      }
      branch := Some(Simultaneous);
      state := SimultaneousPending;
      assert Value() == after.0;
      return PeerClose(true);
    }

    method ReceiveCloseAck(body: CloseBody, envelope: Position, nextSend: Position) returns (outcome: ReceiveOutcome)
      requires Valid()
      modifies this
      ensures Valid() && (Value(), outcome) == CloseRules.ReceiveCloseAck(old(Value()), body, envelope, nextSend)
      ensures outcome.PeerAck? <==>
                && CloseReceipts.AwaitsAck(old(Value())) && CloseReceipts.Genuine(old(Value()), true, body, envelope)
                && body.expectedRecv == old(anchor.position)
    {
      CloseReceipts.AckTakenExactly(Value(), body, envelope, nextSend);
      ReceiveAckKeeps(Value(), body, envelope, nextSend);
      if !anchor.FrozenAt? || peerAckValidated
         || (state != AwaitingAck && state != AwaitingConfirmation && state != SimultaneousPending
             && state != AwaitingSimultaneousAck)
      {
        outcome := Fatal(BeyondMachine);
        return;
      }
      var invalid := Validate(true, body, envelope, ch.binding, Opposite(ch.side), nextSend, Some(anchor.position));
      if invalid.Some? {
        outcome := Fatal(InvalidRecord(invalid.value));
        return;
      }
      peerAckValidated := true;
      if state == AwaitingAck {
        branch := Some(SequentialInitiator);
        state := ConfirmationDue;
        return PeerAck(false);
      }
      if state == SimultaneousPending { return PeerAck(false); }
      state, completed, waits, verdict := Complete, true, waits.(deadline := None), Resolve(verdict, Clean);
      return PeerAck(true);
    }

    // -------------------------------------------------------------- other endings

    method NoteWaitExpired(now: nat) returns (ok: bool)
      requires Valid()
      modifies this
      ensures Valid() && Value() == Apply(old(Value()), Expires(now))
      ensures ok <==> old(Value()).WaitExpired(now)
    {
      ApplyKeeps(Value(), Expires(now));
      if waits.deadline.None? || now <= waits.deadline.value { return false; }
      pending := None;
      verdict := Resolve(verdict, UncleanAbrupt);
      state, waits := Ended, waits.(deadline := None);
      return true;
    }

    method NoteChannelEnded(incompleteReassembly: bool) returns (v: Verdict)
      requires Valid()
      modifies this
      ensures Valid() && Value() == Apply(old(Value()), ChannelEnds(incompleteReassembly))
      ensures verdict == Some(v)
    {
      ApplyKeeps(Value(), ChannelEnds(incompleteReassembly));
      if incompleteReassembly {
        verdict := Resolve(verdict, UncleanTruncation);
      } else if !completed {
        verdict := Resolve(verdict, UncleanAbrupt);
      }
      pending := None;
      state, waits := Ended, waits.(deadline := None);
      return verdict.value;
    }

    method NoteFatal() returns (v: Verdict)
      requires Valid()
      modifies this
      ensures Valid() && Value() == Apply(old(Value()), FailsElsewhere)
      ensures v == Failed && verdict == Some(Failed)
    {
      ApplyKeeps(Value(), FailsElsewhere);
      pending := None;
      verdict := Resolve(verdict, Failed);
      state, waits := Ended, waits.(deadline := None);
      return verdict.value;
    }
  }
}
