/**
 How a close phase ends and what an endpoint may still do on the way: the verdict of
 every ending, the one order verdicts are superseded in, what is owed and when, and
 how long the sender of the last record lingers.
 */
module CloseEndings {
  import opened Prelude
  import opened RecordSequence
  import opened RecordSession
  import opened CloseRules

  // ------------------------------------------------------------------- verdicts

  /** Failed over truncation over abrupt over clean. */
  predicate Supersedes(v: Verdict, w: Verdict) {
    match w
    case Clean => v != Clean
    case UncleanAbrupt => v == UncleanTruncation || v == Failed
    case UncleanTruncation => v == Failed
    case Failed => false
  }

  /** A later condition replaces the recorded verdict exactly when it is the worse one. */
  lemma WorstVerdictStands(recorded: Option<Verdict>, candidate: Verdict)
    ensures var v := Resolve(recorded, candidate);
            && v.Some? && (v == recorded || v == Some(candidate))
            && (recorded.Some? ==> (v == recorded <==> recorded == Some(candidate) || !Supersedes(candidate, recorded.value)))
            && !Supersedes(candidate, v.value)
  {}

  /** An ending as the machine takes it: whether it is one now, and what it is worth by itself. */
  function Worth(m: Machine, e: Event): Option<Verdict> {
    match e
    case Expires(now) => if m.waits.deadline.Some? && m.waits.deadline.value < now then Some(UncleanAbrupt) else None
    case ChannelEnds(incomplete) =>
      if incomplete then Some(UncleanTruncation) else if m.completed then Some(Clean) else Some(UncleanAbrupt)
    case FailsElsewhere => Some(Failed)
    case TransmitsError => if m.errorSent || m.peerError then None else Some(Failed)
    case _ => None
  }

  predicate IsEnding(e: Event) { e.Expires? || e.ChannelEnds? || e.FailsElsewhere? || e.TransmitsError? }

  /** It is over, nothing is pending and nothing is waited for, and what was achieved before stays. */
  predicate Over(m: Machine, m': Machine) {
    && m'.state.Ended? && m'.pending.None? && m'.waits == m.waits.(deadline := None)
    && m'.completed == m.completed && m'.peerAck == m.peerAck && m'.peerClose == m.peerClose
    && m'.anchor == m.anchor && m'.recordsSent == m.recordsSent && m'.peerError == m.peerError
  }

  /**
   Every ending: a wait that has run out, the channel's end with or without an
   unfinished message, a failure elsewhere and the endpoint's own terminal error each
   end the machine with their verdict or the worse one already there. A wait that has
   not run out, and an error after an error, are no endings and change nothing.
   */
  lemma EndingsGiveTheirVerdict(m: Machine, e: Event)
    requires m.Valid() && IsEnding(e)
    ensures var m' := Apply(m, e);
            if Worth(m, e).None? then m' == m
            else Over(m, m') && m'.verdict == Resolve(m.verdict, Worth(m, e).value)
                 && (m'.errorSent <==> m.errorSent || e.TransmitsError?)
  {
    match e
    case Expires(_) =>
    case ChannelEnds(_) => ChannelEndKeeps(m, e.incompleteReassembly);
    case FailsElsewhere =>
    case TransmitsError =>
  }

  /** On an endpoint with no verdict yet the verdict is the ending's own; and a recorded clean one falls only to truncation or failure. */
  lemma EndingsFromUndecided(m: Machine, e: Event)
    requires m.Valid() && IsEnding(e) && Worth(m, e).Some?
    ensures m.verdict.None? ==> Apply(m, e).verdict == Worth(m, e)
    ensures m.verdict == Some(Clean) ==>
              Apply(m, e).verdict == (if e.ChannelEnds? && !e.incompleteReassembly then Some(Clean)
                                      else if e.ChannelEnds? then Some(UncleanTruncation) else Some(Failed))
  {}

  /** How an exchange completes: the verdict resolved with clean, nothing waited for, owed or pending. */
  predicate CompletesWell(m: Machine, m': Machine) {
    && m'.verdict == Resolve(m.verdict, Clean)
    && m'.state.Complete? && m'.waits.deadline.None? && m'.Owes().None? && m'.pending.None?
  }

  lemma TransmitCompletes(m: Machine, e: Event)
    requires m.Valid() && e.Transmits? && !m.completed && Apply(m, e).completed
    ensures CompletesWell(m, Apply(m, e))
  {}

  lemma AckCompletes(m: Machine, body: CloseBody, envelope: Position, nextSend: Position)
    requires m.Valid() && !m.completed
    ensures var m' := ReceiveCloseAck(m, body, envelope, nextSend).0; m'.completed ==> CompletesWell(m, m')
  {}

  lemma CloseDoesNotComplete(m: Machine, body: CloseBody, envelope: Position, completed: bool, nextSend: Position, now: nat)
    requires m.Valid()
    ensures ReceiveClose(m, body, envelope, completed, nextSend, now).0.completed == m.completed
  {}

  lemma OthersDoNotComplete(m: Machine, e: Event)
    requires m.Valid() && !m.completed && !e.Transmits? && !(e.Receives? && e.inbound.CloseMachineRecord?)
    ensures !Apply(m, e).completed
  {
    match e
    case Receives(_, _, _, _, _) =>
    case ChannelEnds(_) =>
    case Expires(_) =>
    case BuildsClose(_, _) =>
    case BuildsAck(_, _) =>
    case _ =>
  }

  /**
   An exchange completes with the machine's own record or the peer's ack and with
   nothing else; it is then clean at once, unless a worse verdict was there, and no
   wait, debt or pending record is left.
   */
  lemma CompletionExactly(m: Machine, e: Event)
    requires m.Valid() && !m.completed && Apply(m, e).completed
    ensures e.Transmits? || (e.Receives? && e.inbound.CloseMachineRecord? && e.inbound.ack)
    ensures CompletesWell(m, Apply(m, e))
    ensures m.verdict.None? ==> Apply(m, e).verdict == Some(Clean)
  {
    if e.Transmits? {
      TransmitCompletes(m, e);
    } else if e.Receives? && e.inbound.CloseMachineRecord? {
      CloseDoesNotComplete(m, e.inbound.body, e.envelope, e.completed, e.nextSend, e.now);
      AckCompletes(m, e.inbound.body, e.envelope, e.nextSend);
    } else {
      OthersDoNotComplete(m, e);
    }
  }

  // ----------------------------------------------------------------------- gates

  /** The application phase is the time before any close-machine record, either way, and before any ending. */
  lemma ApplicationPhaseExactly(m: Machine)
    requires m.Valid()
    ensures m.MayProtectApplicationRecord() <==> m.recordsSent == 0 && !m.peerClose && !m.state.Ended?
  {}

  /** A close can be built exactly in the application phase, and declares the position and the expectation it is given. */
  lemma CloseBuiltExactly(m: Machine, nextSend: Position, expectedRecv: Position)
    requires m.Valid()
    ensures var b := BuildClose(m, nextSend, expectedRecv);
            && (b.Some? <==> m.recordsSent == 0 && !m.peerClose && !m.state.Ended?)
            && (b.Some? ==> BuiltAs(m, b.value, false, InitialClose, nextSend, expectedRecv))
  {}

  /** The record is pending, at next-send, and its body says so, with a commitment that covers all of it. */
  predicate BuiltAs(m: Machine, b: (Machine, CloseRecord), ack: bool, purpose: Purpose, nextSend: Position, expectedRecv: Position) {
    && b.0 == m.(pending := Some(b.1)) && b.1.ack == ack && b.1.purpose == purpose && b.1.position == nextSend
    && b.1.body.CloseBody? && b.1.body.finalSend == nextSend && b.1.body.expectedRecv == expectedRecv
    && b.1.body.commitment == Commitment(ack, m.ch.side, m.ch.binding, nextSend, expectedRecv)
  }

  /**
   An ack is owed for the peer's close until it has been sent, if there is a position
   it could declare; the sender of the first close owes the confirmation once the
   peer's ack has come, until it has been sent. Nothing else is ever owed.
   */
  lemma OwedExactly(m: Machine)
    requires m.Valid()
    ensures m.Owes() == Some(Acknowledgement) <==>
              !m.state.Ended? && m.peerClose && m.ackDue.Declares?
    ensures m.Owes() == Some(FinalConfirmation) <==>
              !m.state.Ended? && !m.completed && m.peerAck && !m.peerClose
    ensures m.Owes() != Some(InitialClose)
  {}

  /** What is owed can be built, with the fixed declaration if there is one; what is not owed cannot. */
  lemma AckBuiltExactly(m: Machine, nextSend: Position, expectedRecv: Position)
    requires m.Valid()
    ensures var b := BuildCloseAck(m, nextSend, expectedRecv);
            && (b.Some? <==> m.Owes().Some? && (m.peerClose ==> m.ackDue == Declares(expectedRecv)))
            && (b.Some? ==> BuiltAs(m, b.value, true, m.Owes().value, nextSend, expectedRecv))
  {}

  /** An outer close is always allowed before a close phase, after it, and once a wait has run out. */
  lemma OuterCloseAllowedOutside(m: Machine, now: nat)
    requires m.Valid()
    requires m.MayProtectApplicationRecord() || m.state.Ended? || m.completed
             || (m.waits.deadline.Some? && m.waits.deadline.value < now)
    ensures m.OuterCloseAllowed(now)
  {}

  // --------------------------------------------------------------------- the linger

  /** The records nothing has to answer: the confirmation, and either side's ack in a simultaneous close. */
  predicate IsLastRecord(m: Machine, purpose: Purpose) {
    purpose.FinalConfirmation? || (purpose.Acknowledgement? && m.recordsSent == 1)
  }

  /**
   The sender of the exchange's last record lingers from that record for the linger
   bound and not a moment longer; sending any other record starts no linger.
   */
  lemma LingersExactly(m: Machine, record: CloseRecord, at: Position, completed: bool, now: nat, later: nat)
    requires m.Valid() && TransmittedOk(m, record, at)
    ensures var m' := Apply(m, Transmits(record, at, completed, now));
            && (m'.IsLastRecordSender() <==> IsLastRecord(m, record.purpose))
            && (m'.ShouldLinger(later) <==> IsLastRecord(m, record.purpose) && later < now + T_CLOSE_LINGER_MAX)
  {
    TransmitKeeps(m, Transmits(record, at, completed, now));
  }

  /** No record received, no ending and nothing built starts or moves a linger. */
  lemma OnlyOwnRecordsLinger(m: Machine, e: Event)
    requires m.Valid() && !e.Transmits?
    ensures Apply(m, e).waits.linger == m.waits.linger
  {
    WaitArmedExactly(m, e);
  }
}
