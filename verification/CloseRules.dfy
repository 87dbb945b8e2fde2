/**
 The authenticated close machine of one endpoint: what it builds, what it accepts,
 how many records and waits it may use, and how its verdict moves. The commitment
 hash is ideal (it determines the fields it covers), an error body is conforming
 or not, and a thrown programming error is `None` with the machine unchanged.
 */
module CloseRules {
  import opened Prelude
  import opened RecordSequence
  import opened RecordSession

  const T_CLOSE: nat := 1_500
  const T_CLOSE_LINGER_MAX: nat := 1_000
  const CLOSE_RECORDS_RESERVED: nat := 2
  const MAX_CLOSE_WAITS: nat := 2

  // -------------------------------------------------------------------- records

  datatype Commitment = Commitment(ack: bool, direction: Side, binding: nat, finalSend: Position, expectedRecv: Position)

  datatype CloseBody = BadBody | CloseBody(finalSend: Position, expectedRecv: Position, commitment: Commitment)

  datatype Purpose = InitialClose | Acknowledgement | FinalConfirmation

  datatype CloseRecord = CloseRecord(ack: bool, body: CloseBody, position: Position, purpose: Purpose)

  /** An authenticated inner record, as far as the close phase looks into it. */
  datatype Inbound = RpcRecord | CloseMachineRecord(ack: bool, body: CloseBody) | ErrorRecord(conforming: bool)

  function MakeBody(ack: bool, direction: Side, binding: nat, finalSend: Position, expectedRecv: Position): CloseBody {
    CloseBody(finalSend, expectedRecv, Commitment(ack, direction, binding, finalSend, expectedRecv))
  }

  datatype Invalid = MalformedBody | HeaderMismatch | CommitmentMismatch | PassedThroughRule | StrictRule

  /** The receiver check. The record's type selects the rule: a close against the current next-send, an ack against the anchor. */
  function Validate(ack: bool, body: CloseBody, envelope: Position, binding: nat, sender: Side,
                    nextSend: Position, anchor: Option<Position>): Option<Invalid>
    requires ack ==> anchor.Some?
  {
    if body.BadBody? then Some(MalformedBody)
    else if body.finalSend != envelope then Some(HeaderMismatch)
    else if body.commitment != Commitment(ack, sender, binding, body.finalSend, body.expectedRecv) then Some(CommitmentMismatch)
    else if !ack then if nextSend.Before(body.expectedRecv) then Some(PassedThroughRule) else None
    else if body.expectedRecv != anchor.value then Some(StrictRule)
    else None
  }

  // ------------------------------------------------------------------- verdicts

  datatype Verdict = Clean | UncleanAbrupt | UncleanTruncation | Failed {
    function Rank(): nat {
      match this
      case Failed => 3
      case UncleanTruncation => 2
      case UncleanAbrupt => 1
      case Clean => 0
    }
  }

  function Resolve(recorded: Option<Verdict>, candidate: Verdict): Option<Verdict> {
    if recorded.None? || candidate.Rank() > recorded.value.Rank() then Some(candidate) else recorded
  }

  // -------------------------------------------------------------------- machine

  datatype State =
    | Open | AwaitingAck | CloseReceived | AwaitingConfirmation | SimultaneousPending | AwaitingSimultaneousAck
    | ConfirmationDue | Complete | Ended

  datatype Branch = SequentialInitiator | SequentialResponder | Simultaneous

  /** Where the own first close-machine record left the send direction, or that it left it nowhere. */
  datatype Anchor = NotFrozen | FrozenAt(position: Position, isAck: bool) | Unfreezable

  /** What an owed ack must declare, or that there is nothing it could declare. */
  datatype AckDue = NoAckDue | Declares(expectedRecv: Position) | Undeclarable

  datatype Waits = Waits(armed: nat, deadline: Option<nat>, linger: Option<nat>)

  datatype Channel = Channel(l: Limits, side: Side, binding: nat)

  datatype Machine = Machine(
    ch: Channel, state: State, branch: Option<Branch>, anchor: Anchor, pending: Option<CloseRecord>, ackDue: AckDue,
    recordsSent: nat, completed: bool, peerAck: bool, peerClose: bool, waits: Waits,
    errorSent: bool, peerError: bool, verdict: Option<Verdict>)
  {
    /** What the machine owes its peer. */
    function Owes(): Option<Purpose> {
      if state.CloseReceived? || state.SimultaneousPending? then
        if ackDue.Undeclarable? then None else Some(Acknowledgement)
      else if state.ConfirmationDue? then Some(FinalConfirmation)
      else None
    }

    predicate MayProtectTerminalError() { !errorSent && !peerError }

    predicate MayProtectApplicationRecord() { state.Open? }

    predicate WaitExpired(now: nat) { waits.deadline.Some? && now > waits.deadline.value }

    predicate OuterCloseAllowed(now: nat) { state.Open? || state.Ended? || state.Complete? || WaitExpired(now) }

    /** The sender of the exchange's last record lingers; nobody else has a linger deadline. */
    predicate IsLastRecordSender() { waits.linger.Some? }

    predicate ShouldLinger(now: nat) { IsLastRecordSender() && now < waits.linger.value }

    predicate Degenerate() { anchor.Unfreezable? || ackDue.Undeclarable? }

    /** A built record not yet transmitted declares its own position and, as an ack, what the peer's close left expected. */
    predicate PendingOk(r: CloseRecord) {
      && r.body.CloseBody? && r.body == MakeBody(r.ack, ch.side, ch.binding, r.position, r.body.expectedRecv)
      && match r.purpose
         case InitialClose => !r.ack && (state.Open? || state.CloseReceived?)
         case Acknowledgement =>
           r.ack && (state.CloseReceived? || state.SimultaneousPending?) && ackDue == Declares(r.body.expectedRecv)
         case FinalConfirmation => r.ack && state.ConfirmationDue?
    }

    /** What each state says about the records sent, the waits, and what the peer has proved. */
    predicate StateOk() {
      match state
      case Open =>
        recordsSent == 0 && waits == Waits(0, None, None) && !peerClose && !peerAck && !completed
        && ackDue.NoAckDue? && branch.None? && verdict.None?
      case AwaitingAck =>
        recordsSent == 1 && waits.armed == 1 && waits.deadline.Some? && !IsLastRecordSender()
        && !peerClose && !peerAck && !completed && ackDue.NoAckDue? && branch.None?
      case CloseReceived =>
        recordsSent == 0 && waits.armed == (if ackDue.Undeclarable? then 1 else 0) && !IsLastRecordSender()
        && peerClose && !peerAck && !completed && !ackDue.NoAckDue? && branch == Some(SequentialResponder)
      case AwaitingConfirmation =>
        recordsSent == 1 && waits.armed == 1 && waits.deadline.Some? && !IsLastRecordSender()
        && peerClose && !peerAck && !completed && ackDue.NoAckDue? && branch == Some(SequentialResponder)
      case SimultaneousPending =>
        recordsSent == 1 && waits.armed == 1 && waits.deadline.Some? && !IsLastRecordSender()
        && peerClose && !completed && !ackDue.NoAckDue? && branch == Some(Simultaneous)
      case AwaitingSimultaneousAck =>
        recordsSent == 2 && waits.armed == 2 && waits.deadline.Some? && IsLastRecordSender()
        && peerClose && !peerAck && !completed && ackDue.NoAckDue? && branch == Some(Simultaneous)
      case ConfirmationDue =>
        recordsSent == 1 && waits.armed == 1 && waits.deadline.Some? && !IsLastRecordSender()
        && !peerClose && peerAck && !completed && ackDue.NoAckDue? && branch == Some(SequentialInitiator)
      case Complete =>
        completed && ackDue.NoAckDue? && waits.deadline.None? && pending.None? && branch.Some? && 1 <= waits.armed
        && (branch.value.Simultaneous? || waits.armed == 1)
        && recordsSent == (if branch.value.SequentialResponder? then 1 else 2)
        && IsLastRecordSender() == !branch.value.SequentialResponder?
        && peerClose == !branch.value.SequentialInitiator?
      case Ended => waits.deadline.None? && pending.None? && verdict.Some?
    }

    predicate Valid() {
      && recordsSent <= CLOSE_RECORDS_RESERVED && waits.armed <= MAX_CLOSE_WAITS
      && (recordsSent == 0 <==> anchor.NotFrozen?)
      && (anchor.FrozenAt? && recordsSent > 0 && branch.Some? ==> anchor.isAck == branch.value.SequentialResponder?)
      && (anchor.FrozenAt? && branch.None? ==> !anchor.isAck)
      && (completed ==> peerAck) && (peerAck ==> anchor.FrozenAt?)
      && (errorSent || peerError ==> state.Ended? && verdict == Some(Failed))
      && (verdict == Some(Clean) ==> completed && !Degenerate())
      && (completed && verdict != Some(Clean) ==> verdict.Some? && state.Ended?)
      && (Degenerate() ==> verdict.Some?)
      && (verdict.Some? && verdict != Some(Clean) ==> state.Ended? || Degenerate())
      && (pending.Some? ==> PendingOk(pending.value))
      && StateOk()
    }
  }

  function Fresh(ch: Channel): (m: Machine)
    ensures m.Valid()
  {
    Machine(ch, Open, None, NotFrozen, None, NoAckDue, 0, false, false, false, Waits(0, None, None), false, false, None)
  }

  function ArmWait(w: Waits, at: nat): Waits
    requires w.armed < MAX_CLOSE_WAITS
  {
    w.(armed := w.armed + 1, deadline := Some(at + T_CLOSE))
  }

  function Lingers(w: Waits, at: nat): Waits { w.(linger := Some(at + T_CLOSE_LINGER_MAX)) }

  function Completed(m: Machine): Machine {
    m.(state := Complete, completed := true, waits := m.waits.(deadline := None), verdict := Resolve(m.verdict, Clean))
  }

  function EndWith(m: Machine, v: Verdict): Machine {
    m.(pending := None, verdict := Resolve(m.verdict, v), state := Ended, waits := m.waits.(deadline := None))
  }

  // ------------------------------------------------------------------- building

  function Build(m: Machine, ack: bool, purpose: Purpose, nextSend: Position, expectedRecv: Position)
    : Option<(Machine, CloseRecord)>
  {
    if m.errorSent || m.peerError || m.recordsSent >= CLOSE_RECORDS_RESERVED then None
    else
      var r := CloseRecord(ack, MakeBody(ack, m.ch.side, m.ch.binding, nextSend, expectedRecv), nextSend, purpose);
      Some((m.(pending := Some(r)), r))
  }

  function BuildClose(m: Machine, nextSend: Position, expectedRecv: Position): Option<(Machine, CloseRecord)> {
    if !m.state.Open? then None else Build(m, false, InitialClose, nextSend, expectedRecv)
  }

  function BuildCloseAck(m: Machine, nextSend: Position, expectedRecv: Position): Option<(Machine, CloseRecord)> {
    var owed := m.Owes();
    if owed.None? then None
    else if m.ackDue.Declares? && expectedRecv != m.ackDue.expectedRecv then None
    else Build(m, true, owed.value, nextSend, expectedRecv)
  }

  // --------------------------------------------------------------- transmitting

  predicate Answers(state: State, purpose: Purpose) {
    match purpose
    case InitialClose => state.Open?
    case Acknowledgement => state.CloseReceived? || state.SimultaneousPending?
    case FinalConfirmation => state.ConfirmationDue?
  }

  predicate TransmittedOk(m: Machine, record: CloseRecord, at: Position) {
    m.pending == Some(record) && at == record.position && Answers(m.state, record.purpose)
  }

  /** The anchor is fixed at the first close-machine record and never again. */
  function FreezeAnchor(m: Machine, ack: bool, at: Position, completed: bool): Machine {
    if !m.anchor.NotFrozen? then m
    else match NextPosition(m.ch.l, at, completed)
      case None => m.(anchor := Unfreezable, verdict := Resolve(m.verdict, UncleanAbrupt))
      case Some(anchor) => m.(anchor := FrozenAt(anchor, ack))
  }

  /** The transition a transmitted record takes. */
  function Transition(m: Machine, purpose: Purpose, now: nat): Machine
    requires Answers(m.state, purpose) && m.waits.armed < MAX_CLOSE_WAITS
  {
    match purpose
    case InitialClose => m.(state := AwaitingAck, waits := ArmWait(m.waits, now))
    case Acknowledgement =>
      if m.state.CloseReceived? then
        m.(ackDue := NoAckDue, branch := Some(SequentialResponder), state := AwaitingConfirmation,
           waits := ArmWait(m.waits, now))
      else if m.peerAck then
        Completed(m.(ackDue := NoAckDue, branch := Some(Simultaneous), waits := Lingers(m.waits, now)))
      else
        m.(ackDue := NoAckDue, branch := Some(Simultaneous), state := AwaitingSimultaneousAck,
           waits := ArmWait(Lingers(m.waits, now), now))
    case FinalConfirmation =>
      Completed(m.(branch := Some(SequentialInitiator), waits := Lingers(m.waits, now)))
  }

  function NoteTransmitted(m: Machine, record: CloseRecord, at: Position, completed: bool, now: nat): Option<Machine>
    requires m.Valid()
  {
    if !TransmittedOk(m, record, at) then None
    else
      var m1 := FreezeAnchor(m, record.ack, at, completed).(pending := None, recordsSent := m.recordsSent + 1);
      Some(Transition(m1, record.purpose, now))
  }

  function NoteTerminalError(m: Machine): Option<Machine> {
    if !m.MayProtectTerminalError() then None
    else Some(EndWith(m.(errorSent := true), Failed))
  }

  // ------------------------------------------------------------------ receiving

  datatype Reason = BeyondMachine | MalformedErrorBody | InvalidRecord(why: Invalid)

  datatype ReceiveOutcome =
    | Application
    | PeerClose(simultaneous: bool)
    | PeerAck(exchangeComplete: bool)
    | PeerTerminalError
    | FatalClose(reason: Reason)

  function Fatally(m: Machine, reason: Reason): (Machine, ReceiveOutcome) {
    (EndWith(m, Failed), FatalClose(reason))
  }

  predicate ExpectsAck(m: Machine) {
    && m.anchor.FrozenAt? && !m.peerAck
    && (m.state.AwaitingAck? || m.state.AwaitingConfirmation? || m.state.SimultaneousPending? || m.state.AwaitingSimultaneousAck?)
  }

  function ReceiveClose(m: Machine, body: CloseBody, envelope: Position, completed: bool, nextSend: Position, now: nat)
    : (Machine, ReceiveOutcome)
    requires m.Valid()
  {
    if !m.state.Open? && !m.state.AwaitingAck? then Fatally(m, BeyondMachine)
    else
      var invalid := Validate(false, body, envelope, m.ch.binding, Opposite(m.ch.side), nextSend, None);
      if invalid.Some? then Fatally(m, InvalidRecord(invalid.value))
      else
        var next := NextPosition(m.ch.l, envelope, completed);
        var due := if next.None? then Undeclarable else Declares(next.value);
        var verdict := if next.None? then Resolve(m.verdict, UncleanAbrupt) else m.verdict;
        if m.state.Open? then
          (m.(peerClose := true, ackDue := due, verdict := verdict, branch := Some(SequentialResponder),
              state := CloseReceived, waits := if next.None? then ArmWait(m.waits, now) else m.waits),
           PeerClose(false))
        else
          (m.(peerClose := true, ackDue := due, verdict := verdict, branch := Some(Simultaneous),
              state := SimultaneousPending),
           PeerClose(true))
  }

  function ReceiveCloseAck(m: Machine, body: CloseBody, envelope: Position, nextSend: Position): (Machine, ReceiveOutcome) {
    if !ExpectsAck(m) then Fatally(m, BeyondMachine)
    else
      var invalid := Validate(true, body, envelope, m.ch.binding, Opposite(m.ch.side), nextSend, Some(m.anchor.position));
      if invalid.Some? then Fatally(m, InvalidRecord(invalid.value))
      else
        var m1 := m.(peerAck := true);
        if m.state.AwaitingAck? then
          (m1.(branch := Some(SequentialInitiator), state := ConfirmationDue), PeerAck(false))
        else if m.state.SimultaneousPending? then (m1, PeerAck(false))
        else (Completed(m1), PeerAck(true))
  }

  function Receive(m: Machine, r: Inbound, envelope: Position, completed: bool, nextSend: Position, now: nat)
    : (Machine, ReceiveOutcome)
    requires m.Valid()
  {
    match r
    case ErrorRecord(conforming) =>
      if !conforming then Fatally(m, MalformedErrorBody)
      else (EndWith(m.(peerError := true), Failed), PeerTerminalError)
    case RpcRecord =>
      if m.state.Ended? || m.peerClose || m.peerAck || m.state.Complete? then Fatally(m, BeyondMachine)
      else (m, Application)
    case CloseMachineRecord(ack, body) =>
      if m.state.Ended? then Fatally(m, BeyondMachine)
      else if ack then ReceiveCloseAck(m, body, envelope, nextSend)
      else ReceiveClose(m, body, envelope, completed, nextSend, now)
  }

  // ------------------------------------------------------------- other endings

  function NoteWaitExpired(m: Machine, now: nat): Option<Machine> {
    if !m.WaitExpired(now) then None else Some(EndWith(m, UncleanAbrupt))
  }

  function NoteChannelEnded(m: Machine, incompleteReassembly: bool): Machine {
    if incompleteReassembly then EndWith(m, UncleanTruncation)
    else if !m.completed then EndWith(m, UncleanAbrupt)
    else m.(pending := None, state := Ended, waits := m.waits.(deadline := None))
  }

  function NoteFatal(m: Machine): Machine { EndWith(m, Failed) }

  // ----------------------------------------------------------------------- runs

  datatype Event =
    | BuildsClose(nextSend: Position, expectedRecv: Position)
    | BuildsAck(nextSend: Position, expectedRecv: Position)
    | Transmits(record: CloseRecord, at: Position, completed: bool, now: nat)
    | TransmitsError
    | Receives(inbound: Inbound, envelope: Position, completed: bool, nextSend: Position, now: nat)
    | Expires(now: nat)
    | ChannelEnds(incompleteReassembly: bool)
    | FailsElsewhere

  /** One event; a thrown misuse leaves the machine as it was. */
  function Apply(m: Machine, e: Event): Machine
    requires m.Valid()
  {
    match e
    case BuildsClose(p, q) => var b := BuildClose(m, p, q); if b.None? then m else b.value.0
    case BuildsAck(p, q) => var b := BuildCloseAck(m, p, q); if b.None? then m else b.value.0
    case Transmits(record, at, completed, now) =>
      var t := NoteTransmitted(m, record, at, completed, now); if t.None? then m else t.value
    case TransmitsError => var t := NoteTerminalError(m); if t.None? then m else t.value
    case Receives(r, envelope, completed, nextSend, now) => Receive(m, r, envelope, completed, nextSend, now).0
    case Expires(now) => var t := NoteWaitExpired(m, now); if t.None? then m else t.value
    case ChannelEnds(incomplete) => NoteChannelEnded(m, incomplete)
    case FailsElsewhere => NoteFatal(m)
  }

  function Run(m: Machine, events: seq<Event>): (end: Machine)
    requires m.Valid()
    ensures end.Valid()
    decreases |events|
  {
    if events == [] then m
    else
      var mid := Run(m, events[..|events| - 1]);
      ApplyKeeps(mid, events[|events| - 1]);
      Apply(mid, events[|events| - 1])
  }

  // ------------------------------------------------------------------- verdicts

  function RankOf(v: Option<Verdict>): int { if v.None? then -1 else v.value.Rank() }

  /** What no later event undoes. */
  predicate Persists(m: Machine, m': Machine) {
    && RankOf(m.verdict) <= RankOf(m'.verdict)
    && m.waits.armed <= m'.waits.armed && m.recordsSent <= m'.recordsSent
    && (!m.anchor.NotFrozen? ==> m'.anchor == m.anchor)
    && (m.completed ==> m'.completed) && (m.peerAck ==> m'.peerAck) && (m.peerClose ==> m'.peerClose)
    && (m.errorSent ==> m'.errorSent) && (m.peerError ==> m'.peerError)
    && (m.state.Ended? ==> m'.state.Ended?)
    && (m.ackDue.Undeclarable? ==> m'.ackDue.Undeclarable?)
    && m.ch == m'.ch
  }

  lemma EndWithKeeps(m: Machine, v: Verdict)
    requires m.Valid() && v != Clean
    ensures EndWith(m, v).Valid() && Persists(m, EndWith(m, v))
  {}

  lemma TerminalErrorKeeps(m: Machine)
    requires m.Valid()
    ensures var own := EndWith(m.(errorSent := true), Failed); own.Valid() && Persists(m, own)
    ensures var peers := EndWith(m.(peerError := true), Failed); peers.Valid() && Persists(m, peers)
  {}

  lemma ChannelEndKeeps(m: Machine, incomplete: bool)
    requires m.Valid()
    ensures NoteChannelEnded(m, incomplete).Valid() && Persists(m, NoteChannelEnded(m, incomplete))
  {
    if incomplete {
      EndWithKeeps(m, UncleanTruncation);
    } else if !m.completed {
      EndWithKeeps(m, UncleanAbrupt);
    }
  }

  lemma EndKeeps(m: Machine, e: Event)
    requires m.Valid() && (e.TransmitsError? || e.Expires? || e.ChannelEnds? || e.FailsElsewhere?)
    ensures Apply(m, e).Valid() && Persists(m, Apply(m, e))
  {
    match e
    case TransmitsError => TerminalErrorKeeps(m); assert Apply(m, e) == m || Apply(m, e) == EndWith(m.(errorSent := true), Failed);
    case Expires(_) => EndWithKeeps(m, UncleanAbrupt); assert Apply(m, e) == m || Apply(m, e) == EndWith(m, UncleanAbrupt);
    case ChannelEnds(incomplete) => ChannelEndKeeps(m, incomplete);
    case FailsElsewhere => EndWithKeeps(m, Failed);
  }

  lemma BuildKeeps(m: Machine, e: Event)
    requires m.Valid() && (e.BuildsClose? || e.BuildsAck?)
    ensures Apply(m, e).Valid() && Persists(m, Apply(m, e))
  {}

  lemma TransmitKeeps(m: Machine, e: Event)
    requires m.Valid() && e.Transmits?
    ensures Apply(m, e).Valid() && Persists(m, Apply(m, e))
  {
    if TransmittedOk(m, e.record, e.at) {
      match e.record.purpose
      case InitialClose =>
      case Acknowledgement =>
        if m.state.CloseReceived? {
        } else if m.peerAck {
        } else {
        }
      case FinalConfirmation =>
    }
  }

  lemma ReceiveCloseKeeps(m: Machine, body: CloseBody, envelope: Position, completed: bool, nextSend: Position, now: nat)
    requires m.Valid()
    ensures var m' := ReceiveClose(m, body, envelope, completed, nextSend, now).0; m'.Valid() && Persists(m, m')
  {
    EndWithKeeps(m, Failed);
  }

  lemma ReceiveAckKeeps(m: Machine, body: CloseBody, envelope: Position, nextSend: Position)
    requires m.Valid()
    ensures var m' := ReceiveCloseAck(m, body, envelope, nextSend).0; m'.Valid() && Persists(m, m')
  {
    EndWithKeeps(m, Failed);
  }

  lemma ReceiveKeeps(m: Machine, r: Inbound, envelope: Position, completed: bool, nextSend: Position, now: nat)
    requires m.Valid()
    ensures var m' := Receive(m, r, envelope, completed, nextSend, now).0; m'.Valid() && Persists(m, m')
  {
    EndWithKeeps(m, Failed);
    match r
    case CloseMachineRecord(ack, body) =>
      ReceiveAckKeeps(m, body, envelope, nextSend);
      ReceiveCloseKeeps(m, body, envelope, completed, nextSend, now);
    case ErrorRecord(_) => TerminalErrorKeeps(m);
    case RpcRecord =>
  }

  lemma QuietKeeps(m: Machine, e: Event)
    requires m.Valid() && !e.Transmits? && !e.Receives?
    ensures Apply(m, e).Valid() && Persists(m, Apply(m, e))
  {
    if e.BuildsClose? || e.BuildsAck? {
      BuildKeeps(m, e);
    } else {
      EndKeeps(m, e);
    }
  }

  /**
   Every event keeps the machine valid: in particular at most two close records,
   at most two waits, no third wait to arm and no third record to build.
   */
  lemma ApplyKeeps(m: Machine, e: Event)
    requires m.Valid()
    ensures Apply(m, e).Valid() && Persists(m, Apply(m, e))
  {
    if e.Transmits? {
      TransmitKeeps(m, e);
    } else if e.Receives? {
      ReceiveKeeps(m, e.inbound, e.envelope, e.completed, e.nextSend, e.now);
    } else {
      QuietKeeps(m, e);
    }
  }

  /** Over any events the verdict only rises, the anchor never moves, and nothing achieved is lost. */
  lemma {:induction false} RunPersists(m: Machine, events: seq<Event>)
    requires m.Valid()
    ensures Persists(m, Run(m, events))
    decreases |events|
  {
    if events != [] {
      RunPersists(m, events[..|events| - 1]);
      ApplyKeeps(Run(m, events[..|events| - 1]), events[|events| - 1]);
    }
  }

  /** A clean verdict is a completed exchange with the peer's proof, and a degenerate position rules it out for good. */
  lemma CleanMeansComplete(ch: Channel, events: seq<Event>)
    ensures var m := Run(Fresh(ch), events);
            && (m.verdict == Some(Clean) ==> m.completed && m.peerAck && !m.Degenerate())
            && (m.completed && m.verdict != Some(Clean) ==> m.state.Ended?)
  {}

  // -------------------------------------------------------------------- silence

  /** How many of the events were a terminal error this endpoint really sent. */
  function ErrorsSent(m: Machine, events: seq<Event>): nat
    requires m.Valid()
    decreases |events|
  {
    if events == [] then 0
    else
      var before := events[..|events| - 1];
      ErrorsSent(m, before)
      + if events[|events| - 1].TransmitsError? && NoteTerminalError(Run(m, before)).Some? then 1 else 0
  }

  /** One terminal error at most, over any run. */
  lemma {:induction false} OneTerminalError(m: Machine, events: seq<Event>)
    requires m.Valid()
    ensures ErrorsSent(m, events) <= 1
    ensures ErrorsSent(m, events) == 1 ==> Run(m, events).errorSent
    decreases |events|
  {
    if events != [] {
      OneTerminalError(m, events[..|events| - 1]);
      ApplyKeeps(Run(m, events[..|events| - 1]), events[|events| - 1]);
    }
  }

  /** After a terminal error in either direction, whatever happens, nothing more is built and no error is sent. */
  lemma {:induction false} SilentAfterTerminalError(m: Machine, events: seq<Event>, p: Position, q: Position)
    requires m.Valid() && !m.MayProtectTerminalError()
    ensures var end := Run(m, events);
            BuildClose(end, p, q).None? && BuildCloseAck(end, p, q).None? && NoteTerminalError(end).None?
            && end.verdict == Some(Failed)
  {
    RunPersists(m, events);
  }

  /** Once it is over - by an own record, the peer's, or any end - the application phase never comes back. */
  lemma {:induction false} ApplicationPhaseStaysOver(m: Machine, events: seq<Event>)
    requires m.Valid() && !m.MayProtectApplicationRecord()
    ensures !Run(m, events).MayProtectApplicationRecord()
  {
    RunPersists(m, events);
  }

  // ---------------------------------------------------------------- the outer close

  /** How an outer close now would change the verdict: an exchange still going on becomes abrupt. */
  predicate OuterCloseCosts(m: Machine) { NoteChannelEnded(m, false).verdict != m.verdict }

  /**
   In a close phase whose wait has not expired the outer close is refused exactly
   while it would cost the verdict. A degenerate exchange is abrupt already, so it
   has nothing to lose and is refused the close all the same until it ends.
   */
  lemma OuterCloseGuardsVerdict(m: Machine, now: nat)
    requires m.Valid() && !m.state.Open? && !m.WaitExpired(now)
    ensures !m.Degenerate() ==> (m.OuterCloseAllowed(now) <==> !OuterCloseCosts(m))
    ensures m.Degenerate() ==> !OuterCloseCosts(m) && (m.OuterCloseAllowed(now) <==> m.state.Ended? || m.state.Complete?)
  {
    if m.state.Ended? || m.state.Complete? {
      EndedKeepsVerdict(m);
    }
  }

  lemma EndedKeepsVerdict(m: Machine)
    requires m.Valid() && (m.state.Ended? || m.state.Complete?)
    ensures !OuterCloseCosts(m)
  {}

  // ---------------------------------------------------------------------- waits

  /** The event is a transmission of the machine's own pending record, and which. */
  predicate SendsOwn(m: Machine, e: Event, purpose: Purpose) {
    e.Transmits? && TransmittedOk(m, e.record, e.at) && e.record.purpose == purpose
  }

  /** A peer's close at the very last position of its direction: there is no ack to declare. */
  predicate ReceivesLastPositionClose(m: Machine, e: Event) {
    && e.Receives? && e.inbound.CloseMachineRecord? && !e.inbound.ack && m.state.Open?
    && Validate(false, e.inbound.body, e.envelope, m.ch.binding, Opposite(m.ch.side), e.nextSend, None).None?
    && NextPosition(m.ch.l, e.envelope, e.completed).None?
  }

  /** How one event moves the wait count, the deadline and the linger. */
  predicate TimesMove(m: Machine, e: Event, m': Machine) {
    var arms := SendsOwn(m, e, InitialClose) || (SendsOwn(m, e, Acknowledgement) && !m.peerAck)
                || ReceivesLastPositionClose(m, e);
    && m'.waits.armed == m.waits.armed + (if arms then 1 else 0)
    && (arms ==> (e.Transmits? || e.Receives?) && m'.waits.deadline == Some(e.now + T_CLOSE))
    && (!arms ==> m'.waits.deadline == m.waits.deadline || m'.waits.deadline.None?)
    && (m'.waits.linger == m.waits.linger
        || (e.Transmits? && m'.waits.linger == Some(e.now + T_CLOSE_LINGER_MAX) && m.waits.deadline.Some? && m.waits.armed == 1))
  }

  lemma TransmitTimes(m: Machine, e: Event)
    requires m.Valid() && e.Transmits?
    ensures TimesMove(m, e, Apply(m, e))
  {
    if TransmittedOk(m, e.record, e.at) {
      match e.record.purpose
      case InitialClose =>
      case Acknowledgement =>
        if m.state.CloseReceived? {
        } else if m.peerAck {
        } else {
        }
      case FinalConfirmation =>
    }
  }

  predicate NoWaitArmed(m: Machine, m': Machine) {
    m'.waits.armed == m.waits.armed && (m'.waits.deadline == m.waits.deadline || m'.waits.deadline.None?) && m'.waits.linger == m.waits.linger
  }

  lemma ReceiveAckTimes(m: Machine, body: CloseBody, envelope: Position, nextSend: Position)
    ensures NoWaitArmed(m, ReceiveCloseAck(m, body, envelope, nextSend).0)
  {}

  lemma ReceiveCloseTimes(m: Machine, body: CloseBody, envelope: Position, completed: bool, nextSend: Position, now: nat)
    requires m.Valid()
    ensures var m' := ReceiveClose(m, body, envelope, completed, nextSend, now).0;
            if m.state.Open? && Validate(false, body, envelope, m.ch.binding, Opposite(m.ch.side), nextSend, None).None?
               && NextPosition(m.ch.l, envelope, completed).None?
            then m'.waits.armed == m.waits.armed + 1 && m'.waits.deadline == Some(now + T_CLOSE) && m'.waits.linger == m.waits.linger
            else NoWaitArmed(m, m')
  {}

  lemma ReceiveTimes(m: Machine, e: Event)
    requires m.Valid() && e.Receives?
    ensures TimesMove(m, e, Apply(m, e))
  {
    var m' := Apply(m, e);
    match e.inbound
    case CloseMachineRecord(ack, body) =>
      if m.state.Ended? {
        assert NoWaitArmed(m, m');
      } else if ack {
        ReceiveAckTimes(m, body, e.envelope, e.nextSend);
      } else {
        ReceiveCloseTimes(m, body, e.envelope, e.completed, e.nextSend, e.now);
      }
    case ErrorRecord(_) =>
      assert NoWaitArmed(m, m');
    case RpcRecord =>
      assert NoWaitArmed(m, m');
  }

  lemma OtherTimes(m: Machine, e: Event)
    requires m.Valid() && !e.Transmits? && !e.Receives?
    ensures NoWaitArmed(m, Apply(m, e))
  {}

  /**
   Exactly which events arm a wait: the endpoint's own close, its own ack unless
   that already completes the exchange, and one event that is not its own record -
   a close read at the last position the peer's direction has. Nothing else sets
   or moves a deadline.
   */
  lemma WaitArmedExactly(m: Machine, e: Event)
    requires m.Valid()
    ensures TimesMove(m, e, Apply(m, e))
  {
    match e
    case Transmits(_, _, _, _) => TransmitTimes(m, e);
    case Receives(_, _, _, _, _) => ReceiveTimes(m, e);
    case _ => OtherTimes(m, e);
  }

  /** A full epoch in one record, as often as asked. */
  lemma {:induction false} WholeEpochs(l: Limits, n: nat)
    requires l.Valid() && n <= l.epochMax
    ensures After(l, START, seq(n, _ => l.rekeyBytes)) == Direction(n, 0, 0, 0, false)
  {
    if n > 0 {
      WholeEpochs(l, n - 1);
      assert seq(n, _ => l.rekeyBytes)[..n - 1] == seq(n - 1, _ => l.rekeyBytes);
    }
  }

  /** Traffic that leaves a direction where one close record ends it. */
  lemma BeforeTheLastPosition(l: Limits) returns (sizes: seq<nat>)
    requires l.Valid()
    ensures var d := After(l, START, sizes);
            d.Live(l) && d.epoch == l.epochMax && CompletesEpoch(l, d, CLOSE_RECORD_BYTES)
  {
    sizes := seq(l.epochMax, _ => l.rekeyBytes);
    WholeEpochs(l, l.epochMax);
    if l.rekeyRecords > 1 {
      var longer := sizes + [l.rekeyBytes - 1];
      assert longer[..|sizes|] == sizes;
      sizes := longer;
    }
  }

  /**
   "Only an own record arms a wait" is false under any limits, of the last position
   of the last epoch: a peer that spent its reserve and closes with that record
   leaves nothing to declare, and the wait begins with no own record sent.
   */
  lemma WaitArmedWithoutOwnRecord(m: Machine, nextSend: Position, now: nat) returns (sizes: seq<nat>)
    requires m.Valid() && m.state.Open? && m.ch.l.Valid()
    ensures var d := After(m.ch.l, START, sizes);
            var body := MakeBody(false, Opposite(m.ch.side), m.ch.binding, d.At(), nextSend);
            var e := Receives(CloseMachineRecord(false, body), d.At(), CompletesEpoch(m.ch.l, d, CLOSE_RECORD_BYTES), nextSend, now);
            && !d.exhausted && ReceivesLastPositionClose(m, e)
            && Apply(m, e).waits == Waits(1, Some(now + T_CLOSE), None) && Apply(m, e).recordsSent == 0
  {
    sizes := BeforeTheLastPosition(m.ch.l);
  }

  // --------------------------------------------------------------------- timing

  /** The machine at a time on its caller's clock, and when its first wait was armed. */
  datatype Timed = Timed(m: Machine, clock: nat, start: Option<nat>)

  /**
   An event at time t: the clock does not run back, stamped events carry t, and an
   expired wait is noticed before anything else, at the first tick it has expired.
   */
  predicate Prompt(s: Timed, e: Event, t: nat) {
    && s.clock <= t
    && (e.Transmits? ==> e.now == t) && (e.Receives? ==> e.now == t) && (e.Expires? ==> e.now == t)
    && (s.m.waits.deadline.Some? && t > s.m.waits.deadline.value ==> e.Expires? && t == s.m.waits.deadline.value + 1)
  }

  function Tick(s: Timed, e: Event, t: nat): Timed
    requires s.m.Valid()
  {
    var m' := Apply(s.m, e);
    Timed(m', t, if s.start.None? && m'.waits.armed > s.m.waits.armed then Some(t) else s.start)
  }

  ghost predicate Reaches(s: Timed, events: seq<(Event, nat)>, end: Timed)
    decreases |events|
  {
    && s.m.Valid()
    && if events == [] then end == s
       else
         var last := events[|events| - 1];
         exists mid :: Reaches(s, events[..|events| - 1], mid) && mid.m.Valid() && Prompt(mid, last.0, last.1)
                       && end == Tick(mid, last.0, last.1)
  }

  /** Still busy: waiting on the peer, or lingering after the last record. */
  predicate Busy(s: Timed) { s.m.waits.deadline.Some? || s.m.ShouldLinger(s.clock) }

  predicate OnSchedule(s: Timed) {
    && s.m.Valid()
    && (s.m.waits.armed > 0 <==> s.start.Some?)
    && (s.m.waits.linger.Some? ==> s.start.Some? && s.m.waits.linger.value <= s.start.value + T_CLOSE + T_CLOSE_LINGER_MAX)
    && (s.m.waits.deadline.Some? ==>
          s.start.Some? && s.clock <= s.m.waits.deadline.value <= s.start.value + s.m.waits.armed * T_CLOSE)
  }

  lemma TickOnSchedule(s: Timed, e: Event, t: nat)
    requires OnSchedule(s) && Prompt(s, e, t)
    ensures OnSchedule(Tick(s, e, t))
  {
    WaitArmedExactly(s.m, e);
    ApplyKeeps(s.m, e);
  }

  /**
   On every timed run whose expiries are noticed, an endpoint is done with the close
   phase no later than two waits after its first wait began, or one wait and a linger:
   the second wait and the linger begin together.
   */
  lemma {:induction false} ClosePhaseIsBounded(s: Timed, events: seq<(Event, nat)>, end: Timed)
    requires s == Timed(Fresh(s.m.ch), s.clock, None) && Reaches(s, events, end)
    ensures OnSchedule(end)
    ensures Busy(end) ==>
              end.start.Some?
              && (end.clock <= end.start.value + 2 * T_CLOSE || end.clock <= end.start.value + T_CLOSE + T_CLOSE_LINGER_MAX)
    decreases |events|
  {
    if events != [] {
      var last := events[|events| - 1];
      var mid :| Reaches(s, events[..|events| - 1], mid) && mid.m.Valid() && Prompt(mid, last.0, last.1)
                 && end == Tick(mid, last.0, last.1);
      ClosePhaseIsBounded(s, events[..|events| - 1], mid);
      TickOnSchedule(mid, last.0, last.1);
    }
  }
}
