/**
 Agreement of an honest pair. If both ends start with room for their two close
 records, no end takes the peer's close while its own first close record is built and
 not yet committed, and every record sent is eventually accepted untampered, then
 under every interleaving of application sends, the turns of the sections and
 deliveries nothing is refused; and both verdicts are clean, with both ends on one
 branch after three records or four, unless an end without the whole reserve answered
 a simultaneous close before it had the peer's answer. With the reserve on both sides
 that cannot happen.
 */
module CloseAgreement {
  import opened Prelude
  import opened RecordSequence
  import opened RecordSession
  import opened CloseRules
  import opened CloseProtocol
  import opened CloseCrossing

  const C := CLOSE_RECORD_BYTES

  /** The two close records, without the error the reserve keeps room for as well. */
  const CLOSES: seq<nat> := [C, C]

  predicate Honest(act: Action) {
    act.SendApplication? || act.PlanClose? || act.PlanOwed? || act == Protect(Admitted) || act.Note? || act.Accept?
  }

  /** The end as it will be when it has committed the record it has on the wire. */
  function Noted(x: Endpoint): Endpoint
    requires x.m.Valid()
  {
    Notes(x, 0)
  }

  /** How many of y's close-machine records x has accepted. */
  function Heard(x: Endpoint, y: Endpoint): nat {
    if HeardClose(x, y) then x.got - y.FirstClose() else 0
  }

  /** The first close-machine record was an ack: the endpoint is the sequential responder. */
  predicate Responder(x: Endpoint) { x.m.anchor.FrozenAt? && x.m.anchor.isAck }

  /** Each state is determined by what was sent and heard, and the other way round. */
  predicate Phase(x: Endpoint, y: Endpoint) {
    var sent, heard := x.closes, Heard(x, y);
    && (sent > 0 ==> x.m.anchor.FrozenAt?)
    && (!x.m.state.Ended? ==> x.m.recordsSent == sent)
    && match x.m.state
       case Open => sent == 0 && heard == 0
       case AwaitingAck => sent == 1 && heard == 0 && !Responder(x)
       case CloseReceived => sent == 0 && heard == 1 && !Responder(y)
       case AwaitingConfirmation => sent == 1 && heard == 1 && Responder(x) && !Responder(y)
       case SimultaneousPending => sent == 1 && heard == (if x.m.peerAck then 2 else 1) && !Responder(x) && !Responder(y)
       case AwaitingSimultaneousAck => sent == 2 && heard == 1 && !Responder(x) && !Responder(y)
       case ConfirmationDue => sent == 1 && heard == 1 && !Responder(x) && Responder(y)
       case Complete =>
         x.m.branch.Some?
         && (match x.m.branch.value
             case SequentialInitiator => sent == 2 && heard == 1 && !Responder(x) && Responder(y)
             case SequentialResponder => sent == 1 && heard == 2 && Responder(x) && !Responder(y)
             case Simultaneous => sent == 2 && heard == 2 && !Responder(x) && !Responder(y))
       case Ended => GaveUp(x) && sent == 2 && heard == 1 && y.closes == 2 && !Responder(x) && !Responder(y)
  }

  /** The one way an honest end fails: its direction spent on its own ack, it cannot take the peer's. */
  predicate GaveUp(x: Endpoint) {
    x.out.Stands().exhausted && x.m.branch == Some(Simultaneous) && x.m.verdict == Some(UncleanAbrupt) && !x.m.completed
  }

  /** A close-machine record of x as its peer must find it; an ack declares exactly the peer's anchor. */
  predicate WellMade(x: Endpoint, y: Endpoint, i: nat, ack: bool)
    requires i < |x.out.sent|
  {
    var c := x.out.sent[i].content;
    && c.CloseMachineContent? && c.ack == ack && c.body.CloseBody?
    && c.body == MakeBody(ack, x.m.ch.side, x.m.ch.binding, x.out.sent[i].at, c.body.expectedRecv)
    && (ack ==> y.m.anchor.FrozenAt? && c.body.expectedRecv == y.m.anchor.position)
  }

  ghost predicate RecordsWellMade(x: Endpoint, y: Endpoint) {
    && 0 <= x.FirstClose() && x.FirstClose() + x.closes == |x.out.sent|
    && (x.closes > 0 ==>
          && WellMade(x, y, x.FirstClose(), Responder(x))
          && x.m.anchor.FrozenAt? && !x.out.Sched(x.FirstClose() + 1).exhausted
          && x.m.anchor.position == x.out.At(x.FirstClose() + 1))
    && (x.closes > 1 ==> WellMade(x, y, x.FirstClose() + 1, true))
  }

  /** The end started with the whole reserve: room for its close records, and for the error nobody needs. */
  predicate Ample(x: Endpoint) { HasCapacity(x.out.l, x.out.start, RESERVE) }

  /** Room for the close records still to be sent, only the second of which may spend the direction; and what is left of the reserve. */
  predicate Room(x: Endpoint) {
    var d := x.out.Stands();
    && x.closes <= 2
    && (x.closes < 2 ==> d.Live(x.out.l) && d.Coherent() && HasCapacity(x.out.l, d, CLOSES[x.closes..]))
    && (!d.exhausted ==> d.Live(x.out.l) && d.Coherent())
    && (Ample(x) <==> HasCapacity(x.out.l, d, RESERVE[x.closes..]))
  }

  ghost predicate Half(x: Endpoint, y: Endpoint) {
    && x.m.ch.side == Opposite(y.m.ch.side) && x.m.ch.binding == y.m.ch.binding
    && !x.m.errorSent && !x.m.peerError && !x.m.Degenerate()
    && Phase(x, y) && Room(x) && RecordsWellMade(x, y)
    && (x.m.ackDue.Declares? ==> y.m.anchor.FrozenAt? && x.m.ackDue.expectedRecv == y.m.anchor.position)
  }

  /** Two ends that fit, each with its half of the agreement. */
  ghost predicate Matched(x: Endpoint, y: Endpoint) { Fits(x, y) && Fits(y, x) && Half(x, y) && Half(y, x) }

  /** The record in the section answers the machine's state, at the next position, and as an ack declares the peer's anchor. */
  predicate BuiltWell(x: Endpoint, y: Endpoint, r: CloseRecord) {
    && x.m.pending == Some(r) && r.position == x.out.Stands().At() && Answers(x.m.state, r.purpose)
    && r.body.CloseBody? && r.body == MakeBody(r.ack, x.m.ch.side, x.m.ch.binding, r.position, r.body.expectedRecv)
    && r.ack == !r.purpose.InitialClose?
    && (r.ack ==> y.m.anchor.FrozenAt? && r.body.expectedRecv == y.m.anchor.position)
  }

  /** What the section holds can be sent and committed; an end that has given up commits nothing. */
  predicate Held(x: Endpoint, y: Endpoint) {
    match x.section
    case Idle => true
    case Planned(r) => BuiltWell(x, y, r)
    case OnWire(r) => x.m.state.Ended? || (x.out.sent != [] && TransmittedOk(x.m, r, Last(x.out).at))
  }

  /** One end of an honest pair, its own record and the peer's counted as committed once they are on the wire. */
  ghost predicate Sided(x: Endpoint, y: Endpoint) {
    x.m.Valid() && y.m.Valid() && Half(Noted(x), Noted(y)) && Held(x, Noted(y))
  }

  ghost predicate Pair(x: Endpoint, y: Endpoint) {
    && Consistent(x, y)
    && forall w {:trigger Own(System(x, y), w)} :: Sided(Own(System(x, y), w), Peer(System(x, y), w))
  }

  /** As before, but for what is built and the waits. */
  predicate LikeBefore(x: Endpoint, x': Endpoint) {
    && x'.out == x.out && x'.got == x.got && x'.closes == x.closes
    && x'.m == x.m.(pending := x'.m.pending, waits := x'.m.waits)
  }

  lemma LikeBeforePhases(x: Endpoint, x': Endpoint, y: Endpoint)
    requires Phase(x, y) && Phase(y, x) && LikeBefore(x, x')
    ensures Phase(x', y) && Phase(y, x')
  {
    assert Heard(x', y) == Heard(x, y) && Heard(y, x') == Heard(y, x);
  }

  lemma LikeBeforeRecords(x: Endpoint, x': Endpoint, y: Endpoint)
    requires RecordsWellMade(x, y) && RecordsWellMade(y, x) && LikeBefore(x, x')
    ensures RecordsWellMade(x', y) && RecordsWellMade(y, x')
  {}

  lemma LikeBeforeHalves(x: Endpoint, x': Endpoint, y: Endpoint)
    requires Half(x, y) && Half(y, x) && LikeBefore(x, x')
    ensures Half(x', y) && Half(y, x')
  {
    LikeBeforePhases(x, x', y);
    LikeBeforeRecords(x, x', y);
  }

  lemma NotedFits(x: Endpoint, y: Endpoint)
    requires Consistent(x, y)
    ensures Consistent(Noted(x), Noted(y))
  {
    NoteKeeps(x, y, 0);
    Mutual(Noted(x), y);
    NoteKeeps(y, Noted(x), 0);
    Mutual(Noted(y), Noted(x));
  }

  lemma PairSides(x: Endpoint, y: Endpoint)
    requires Pair(x, y)
    ensures Sided(x, y) && Sided(y, x)
  {
    var s := System(x, y);
    assert Own(s, TheClient) == x && Own(s, TheNode) == y;
  }

  lemma SidesPair(x: Endpoint, y: Endpoint)
    requires Consistent(x, y) && Sided(x, y) && Sided(y, x)
    ensures Pair(x, y)
  {}

  lemma PairIsMatched(x: Endpoint, y: Endpoint)
    requires Pair(x, y)
    ensures Matched(Noted(x), Noted(y)) && Held(x, Noted(y))
  {
    PairSides(x, y);
    NotedFits(x, y);
    BothFit(Noted(x), Noted(y));
  }

  /** A step is known by what it makes of the end once committed. */
  lemma PairAfter(x: Endpoint, x': Endpoint, y: Endpoint)
    requires Pair(x, y) && Consistent(x', y)
    requires Half(Noted(x'), Noted(y)) && Half(Noted(y), Noted(x')) && Held(x', Noted(y))
    requires Noted(x).m.anchor.FrozenAt? ==> Noted(x').m.anchor == Noted(x).m.anchor
    ensures Pair(x', y)
  {
    PairSides(x, y);
    SidesPair(x', y);
  }

  // ----------------------------------------------------------------------- room

  /** A close record finds room, leaves room for the other, and leaves what was there of the reserve behind it. */
  lemma RoomForNext(l: Limits, d: Direction, k: nat)
    requires l.Valid() && d.Live(l) && d.Coherent() && k < 2 && HasCapacity(l, d, CLOSES[k..])
    ensures HasCapacity(l, d, [C])
    ensures var e := Step(l, d, C);
            && (k == 0 ==> !e.exhausted && HasCapacity(l, e, CLOSES[1..]))
            && (!e.exhausted ==> e.Live(l) && e.Coherent())
            && (HasCapacity(l, d, RESERVE[k..]) <==> HasCapacity(l, e, RESERVE[k + 1..]))
  {
    var e := Step(l, d, C);
    AdvanceKeeps(l, d, C);
    CoherentCapacityIsExact(l, d, [C]);
    CoherentCapacityIsExact(l, d, CLOSES[k..]);
    CoherentCapacityIsExact(l, d, RESERVE[k..]);
    assert CLOSES[k..][0] == C && CLOSES[k..][1..] == CLOSES[k + 1..];
    assert RESERVE[k..][0] == C && RESERVE[k..][1..] == RESERVE[k + 1..];
    assert Protectable(l, d, [C]);
    if !e.exhausted {
      CoherentCapacityIsExact(l, e, CLOSES[k + 1..]);
      CoherentCapacityIsExact(l, e, RESERVE[k + 1..]);
    } else {
      assert |CLOSES[k + 1..]| == 1 - k && |RESERVE[k + 1..]| == 2 - k;
    }
  }

  lemma ReserveHoldsCloses(l: Limits, d: Direction, k: nat)
    requires l.Valid() && d.Live(l) && k <= 2 && HasCapacity(l, d, RESERVE[k..])
    ensures HasCapacity(l, d, CLOSES[k..])
  {
    CapacityMonotone(l, d.epoch, d.records, d.bytes, RESERVE[k..], d.epoch, d.records, d.bytes, CLOSES[k..]);
  }

  lemma RoomAfterApplication(l: Limits, d: Direction, size: nat)
    requires l.Valid() && d.Live(l) && d.Coherent() && HasCapacity(l, d, [size] + RESERVE)
    ensures HasCapacity(l, d, RESERVE[0..])
    ensures var e := Step(l, d, size);
            e.Live(l) && e.Coherent() && HasCapacity(l, e, RESERVE[0..]) && HasCapacity(l, e, CLOSES[0..])
  {
    var e := Step(l, d, size);
    CapacityAfterOne(l, d, [size] + RESERVE);
    assert ([size] + RESERVE)[1..] == RESERVE == RESERVE[0..];
    AdvanceKeeps(l, d, size);
    CapacityMonotone(l, e.epoch, e.records, e.bytes, RESERVE[0..], d.epoch, d.records, d.bytes, RESERVE[0..]);
    ReserveHoldsCloses(l, e, 0);
  }

  lemma StandsAfter(t: Track, size: nat, content: Content)
    ensures t.With(size, content).Stands() == Step(t.l, t.Stands(), size)
  {
    WithExtends(t, size, content);
    SchedNext(t.With(size, content), |t.sent|);
  }

  // ---------------------------------------------------------------- applications

  lemma ApplicationHalves(x: Endpoint, y: Endpoint, size: nat)
    requires Half(x, y) && Half(y, x) && x.out.l.Valid() && SendsApplication(x, size) != x
    ensures var x' := SendsApplication(x, size); Half(x', y) && Half(y, x')
  {
    var x' := x.(out := x.out.With(size, App));
    RoomAfterApplication(x.out.l, x.out.Stands(), size);
    StandsAfter(x.out, size, App);
    WithExtends(x.out, size, App);
    assert Heard(y, x') == 0 == Heard(y, x);
  }

  lemma ApplicationKeeps(x: Endpoint, y: Endpoint, size: nat)
    requires Pair(x, y)
    ensures Pair(SendsApplication(x, size), y)
  {
    SendApplicationKeeps(x, y, size);
    PairIsMatched(x, y);
    if SendsApplication(x, size) != x {
      ApplicationHalves(x, Noted(y), size);
      PairAfter(x, SendsApplication(x, size), y);
    }
  }

  // --------------------------------------------------------------- close records

  /** What an honest endpoint's own close record changes. */
  ghost predicate Sends(x: Endpoint, x': Endpoint, y: Endpoint, ack: bool) {
    && x'.got == x.got && x'.m.ch == x.m.ch && x'.FirstClose() == x.FirstClose()
    && x'.closes == x.closes + 1 && x'.m.recordsSent == x.m.recordsSent + 1
    && x'.m.errorSent == x.m.errorSent && x'.m.peerError == x.m.peerError
    && !x'.m.Degenerate() && x'.m.peerAck == x.m.peerAck && x'.m.ackDue.NoAckDue?
    && (x.closes > 0 ==> x'.m.anchor == x.m.anchor)
    && (x.closes == 0 ==>
          && x'.m.anchor.FrozenAt? && x'.m.anchor.isAck == ack
          && !x'.out.Stands().exhausted && x'.m.anchor.position == x'.out.Stands().At())
    && Extends(x'.out, x.out) && |x'.out.sent| == |x.out.sent| + 1
    && WellMade(x', y, |x.out.sent|, ack) && Room(x')
  }

  /** Where a transmitted record takes the state. */
  predicate Advances(m: Machine, m': Machine, purpose: Purpose) {
    && Answers(m.state, purpose)
    && match purpose
       case InitialClose => m'.state.AwaitingAck?
       case Acknowledgement =>
         if m.state.CloseReceived? then m'.state.AwaitingConfirmation?
         else if m.peerAck then m'.state.Complete? && m'.branch == Some(Simultaneous)
         else m'.state.AwaitingSimultaneousAck?
       case FinalConfirmation => m'.state.Complete? && m'.branch == Some(SequentialInitiator)
  }

  function OnTheWire(x: Endpoint, r: CloseRecord): Endpoint { Put(x, r).(section := OnWire(r)) }

  lemma SentRoom(x: Endpoint, content: Content)
    requires x.out.l.Valid() && Room(x) && x.closes < 2
    ensures HasCapacity(x.out.l, x.out.Stands(), [C])
    ensures var l, k, e := x.out.l, x.closes, x.out.With(C, content).Stands();
            && (k == 0 ==> !e.exhausted && HasCapacity(l, e, CLOSES[1..]))
            && (!e.exhausted ==> e.Live(l) && e.Coherent())
            && (HasCapacity(l, x.out.Stands(), RESERVE[k..]) <==> HasCapacity(l, e, RESERVE[k + 1..]))
  {
    StandsAfter(x.out, C, content);
    RoomForNext(x.out.l, x.out.Stands(), x.closes);
  }

  lemma NotedAdvances(m: Machine, r: CloseRecord, at: Position, completed: bool)
    requires m.Valid() && TransmittedOk(m, r, at)
    ensures Advances(m, NoteTransmitted(m, r, at, completed, 0).value, r.purpose)
  {}

  /** The record committed at the position it was put at. */
  lemma SentIsNoted(x: Endpoint, y: Endpoint, r: CloseRecord)
    requires x.m.Valid() && BuiltWell(x, y, r)
    ensures var d := x.out.Stands();
            && TransmittedOk(x.m, r, d.At())
            && Noted(OnTheWire(x, r))
               == Put(x, r).(m := NoteTransmitted(x.m, r, d.At(), CompletesEpoch(x.out.l, d, C), 0).value, section := Idle)
  {}

  /** The machine's own part of a sent record: the count, the anchor and the transition. */
  lemma SentMachine(x: Endpoint, r: CloseRecord, m': Machine)
    requires x.m.Valid() && x.out.Valid() && !x.out.Stands().exhausted && x.m.ch.l == x.out.l && !x.m.Degenerate()
    requires TransmittedOk(x.m, r, x.out.Stands().At())
    requires m' == NoteTransmitted(x.m, r, x.out.Stands().At(), CompletesEpoch(x.out.l, x.out.Stands(), C), 0).value
    requires x.m.anchor.NotFrozen? ==> !x.out.With(C, CloseMachineContent(r.ack, r.body)).Stands().exhausted
    ensures Advances(x.m, m', r.purpose) && KeepsClaims(x.m, m') && m'.recordsSent == x.m.recordsSent + 1
    ensures m'.errorSent == x.m.errorSent && !m'.Degenerate() && m'.ackDue.NoAckDue? && !m'.state.Ended? && !x.m.state.Ended?
    ensures m'.anchor == if x.m.anchor.NotFrozen?
                         then FrozenAt(x.out.With(C, CloseMachineContent(r.ack, r.body)).Stands().At(), r.ack) else x.m.anchor
  {
    var d := x.out.Stands();
    NotedAdvances(x.m, r, d.At(), CompletesEpoch(x.out.l, d, C));
    NotedMachine(x.m, r, d.At(), CompletesEpoch(x.out.l, d, C), 0);
    WithNext(x.out, C, CloseMachineContent(r.ack, r.body));
  }

  lemma NoPeerError(m: Machine)
    requires m.Valid() && !m.state.Ended?
    ensures !m.errorSent && !m.peerError
  {}

  lemma SendSends(x: Endpoint, y: Endpoint, r: CloseRecord)
    requires OwnHalf(x) && Half(x, y) && BuiltWell(x, y, r) && x.closes < 2
    ensures var x' := Noted(OnTheWire(x, r)); Sends(x, x', y, r.ack) && Advances(x.m, x'.m, r.purpose)
  {
    var content := CloseMachineContent(r.ack, r.body);
    SentRoom(x, content);
    WithExtends(x.out, C, content);
    SentIsNoted(x, y, r);
    SentMachine(x, r, Noted(OnTheWire(x, r)).m);
    NoPeerError(Noted(OnTheWire(x, r)).m);
  }

  lemma SenderPhase(x: Endpoint, x': Endpoint, y: Endpoint, purpose: Purpose)
    requires Half(x, y) && Half(y, x) && Sends(x, x', y, !purpose.InitialClose?) && Advances(x.m, x'.m, purpose)
    ensures Phase(x', y)
  {
    assert Heard(x', y) == Heard(x, y);
  }

  lemma SenderWellMade(x: Endpoint, x': Endpoint, y: Endpoint, ack: bool)
    requires RecordsWellMade(x, y) && Sends(x, x', y, ack) && x'.closes <= 2
    requires (x.closes > 0 ==> x.m.anchor.FrozenAt? && ack)
    ensures RecordsWellMade(x', y)
  {
    if x.closes > 0 {
      assert x'.out.sent[x.FirstClose()] == x.out.sent[x.FirstClose()];
      assert x'.out.Sched(x.FirstClose() + 1) == x.out.Sched(x.FirstClose() + 1);
    }
  }

  lemma SenderHalf(x: Endpoint, x': Endpoint, y: Endpoint, purpose: Purpose)
    requires Half(x, y) && Half(y, x) && Sends(x, x', y, !purpose.InitialClose?) && Advances(x.m, x'.m, purpose)
    ensures Half(x', y)
  {
    SenderPhase(x, x', y, purpose);
    SenderWellMade(x, x', y, !purpose.InitialClose?);
  }

  lemma PeerHalf(x: Endpoint, x': Endpoint, y: Endpoint, ack: bool)
    requires Half(x, y) && Half(y, x) && Sends(x, x', y, ack) && y.got <= |x.out.sent|
    requires x.closes == 0 ==> x.m.anchor.NotFrozen?
    ensures Half(y, x')
  {
    assert Heard(y, x') == Heard(y, x);
    assert y.closes > 0 && Responder(y) ==> x.closes > 0;
  }

  /** What is left to show of a step, once the ends are known to fit. */
  ghost predicate LeavesHalves(x: Endpoint, x': Endpoint, y: Endpoint) {
    && x.m.Valid() && x'.m.Valid() && Half(Noted(x'), y) && Half(y, Noted(x')) && Held(x', y)
    && (Noted(x).m.anchor.FrozenAt? ==> Noted(x').m.anchor == Noted(x).m.anchor)
  }

  lemma LeavesPair(x: Endpoint, x': Endpoint, y: Endpoint)
    requires Pair(x, y) && Consistent(x', y) && LeavesHalves(x, x', Noted(y))
    ensures Pair(x', y)
  {
    PairAfter(x, x', y);
  }

  /** An end with a record to send has sent at most one. */
  lemma MaySend(x: Endpoint, y: Endpoint, purpose: Purpose)
    requires x.m.Valid() && Phase(x, y) && Answers(x.m.state, purpose)
    ensures x.closes < 2 && (x.closes == 0 ==> x.m.anchor.NotFrozen?)
  {}

  lemma SentHeld(x: Endpoint, y: Endpoint, r: CloseRecord)
    requires x.m.Valid() && BuiltWell(x, y, r)
    ensures Held(OnTheWire(x, r), y)
  {
    SentIsNoted(x, y, r);
  }

  lemma SentHalves(x: Endpoint, y: Endpoint, r: CloseRecord)
    requires Matched(x, y) && BuiltWell(x, y, r)
    ensures var x' := Noted(OnTheWire(x, r));
            && Half(x', y) && Half(y, x') && x.closes < 2 && Sends(x, x', y, r.ack) && Advances(x.m, x'.m, r.purpose)
            && (x.m.anchor.FrozenAt? ==> x'.m.anchor == x.m.anchor)
  {
    MaySend(x, y, r.purpose);
    SendSends(x, y, r);
    SenderHalf(x, Noted(OnTheWire(x, r)), y, r.purpose);
    PeerHalf(x, Noted(OnTheWire(x, r)), y, r.ack);
  }

  lemma ProtectLeavesHalves(x: Endpoint, y: Endpoint)
    requires Matched(x, y) && x.section.Planned? && BuiltWell(x, y, x.section.record)
    ensures var x', r := OnTheWire(x, x.section.record), x.section.record;
            && LeavesHalves(x, x', y) && x.closes < 2 && Noted(x').closes == x.closes + 1 && Advances(x.m, Noted(x').m, r.purpose)
  {
    SentHeld(x, y, x.section.record);
    SentHalves(x, y, x.section.record);
    UnsentIsNoted(x);
  }

  lemma UnsentIsNoted(x: Endpoint)
    requires x.m.Valid() && !x.section.OnWire?
    ensures Noted(x) == x
  {}

  /** Protecting what the section holds: one record on, the machine known to be able to commit it. */
  lemma ProtectKeepsPair(x: Endpoint, y: Endpoint)
    requires Pair(x, y) && x.section.Planned?
    ensures var x', r := Protects(x, Admitted), x.section.record;
            && x' == OnTheWire(x, r) && Pair(x', y)
            && Noted(x) == x && Noted(x').closes == x.closes + 1 && Advances(x.m, Noted(x').m, r.purpose)
  {
    var r := x.section.record;
    PairIsMatched(x, y);
    UnsentIsNoted(x);
    ProtectLeavesHalves(x, Noted(y));
    SentRoom(x, CloseMachineContent(r.ack, r.body));
    ProtectKeeps(x, y, Admitted);
    LeavesPair(x, OnTheWire(x, r), y);
  }

  // ------------------------------------------------------------ planning, committing

  /** The section takes a record that fits the pair. */
  predicate PlannedFor(x: Endpoint, x': Endpoint, y: Endpoint, purpose: Purpose) {
    && x'.section.Planned? && x'.section.record.purpose == purpose && x' == x.(m := x'.m, section := x'.section)
    && x'.m == x.m.(pending := Some(x'.section.record)) && BuiltWell(x', y, x'.section.record)
  }

  lemma PlansWell(x: Endpoint, x': Endpoint, y: Endpoint, purpose: Purpose)
    requires Pair(x, y) && Consistent(x', y) && x.section.Idle? && PlannedFor(x, x', Noted(y), purpose)
    ensures Pair(x', y)
  {
    PairIsMatched(x, y);
    LikeBeforeHalves(x, x', Noted(y));
    PairAfter(x, x', y);
  }

  /** Only the peer's log enters what is built. */
  lemma PlansAgainstLog(x: Endpoint, y: Endpoint, y': Endpoint)
    requires CanPlay(x, y) && CanPlay(x, y') && y'.out == y.out
    ensures PlansClose(x, y) == PlansClose(x, y') && PlansOwed(x, y) == PlansOwed(x, y')
  {}

  lemma OpenExpects(x: Endpoint, y: Endpoint)
    requires Matched(x, y) && x.m.state.Open?
    ensures !x.out.Stands().exhausted && !y.out.Sched(x.got).exhausted
  {
    if x.got == |y.out.sent| {
      assert y.closes == 0;
    } else {
      assert y.out.Placed(x.got);
    }
  }

  lemma CloseIsPlanned(x: Endpoint, y: Endpoint)
    requires Matched(x, y) && x.section.Idle? && x.m.state.Open?
    ensures PlannedFor(x, PlansClose(x, y), y, InitialClose)
  {
    OpenExpects(x, y);
  }

  lemma ClosePlannedIn(x: Endpoint, y: Endpoint)
    requires Pair(x, y) && x.section.Idle? && x.m.state.Open?
    ensures PlannedFor(x, PlansClose(x, y), Noted(y), InitialClose)
  {
    PairIsMatched(x, y);
    PlansAgainstLog(x, y, Noted(y));
    UnsentIsNoted(x);
    CloseIsPlanned(x, Noted(y));
  }

  lemma PlanCloseKeepsPair(x: Endpoint, y: Endpoint)
    requires Pair(x, y)
    ensures var x' := PlansClose(x, y);
            && Pair(x', y)
            && if x.section.Idle? && x.m.state.Open? then PlannedFor(x, x', Noted(y), InitialClose) else x' == x
  {
    PlanCloseKeeps(x, y);
    if x.section.Idle? && x.m.state.Open? {
      ClosePlannedIn(x, y);
      PlansWell(x, PlansClose(x, y), y, InitialClose);
    }
  }

  lemma OwedExpects(x: Endpoint, y: Endpoint)
    requires Matched(x, y) && x.m.Owes().Some?
    ensures !x.out.Stands().exhausted && Declaration(x, y) == Some(y.m.anchor.position) && y.m.anchor.FrozenAt?
  {
    OwesMeansHeard(x, y);
    OwedDeclares(x.m);
    if x.m.state.ConfirmationDue? {
      assert x.got == y.FirstClose() + 1;
    }
  }

  lemma OwesMeansHeard(x: Endpoint, y: Endpoint)
    requires Half(x, y) && Half(y, x) && x.m.Owes().Some?
    ensures x.closes < 2 && y.closes > 0 && Heard(x, y) > 0
    ensures x.m.state.ConfirmationDue? ==> Heard(x, y) == 1
  {}

  lemma OwedDeclares(m: Machine)
    requires m.Valid() && m.Owes().Some?
    ensures if m.state.ConfirmationDue? then m.ackDue.NoAckDue? else m.ackDue.Declares?
  {}

  lemma OwedIsPlanned(x: Endpoint, y: Endpoint)
    requires Matched(x, y) && x.section.Idle? && x.m.Owes().Some?
    ensures PlannedFor(x, PlansOwed(x, y), y, x.m.Owes().value)
  {
    OwedExpects(x, y);
  }

  lemma OwedPlannedIn(x: Endpoint, y: Endpoint)
    requires Pair(x, y) && x.section.Idle? && x.m.Owes().Some?
    ensures PlannedFor(x, PlansOwed(x, y), Noted(y), x.m.Owes().value)
  {
    PairIsMatched(x, y);
    PlansAgainstLog(x, y, Noted(y));
    UnsentIsNoted(x);
    OwedIsPlanned(x, Noted(y));
  }

  lemma PlanOwedKeepsPair(x: Endpoint, y: Endpoint)
    requires Pair(x, y)
    ensures var x' := PlansOwed(x, y);
            && Pair(x', y)
            && if x.section.Idle? && x.m.Owes().Some? then PlannedFor(x, x', Noted(y), x.m.Owes().value) else x' == x
  {
    PlanOwedKeeps(x, y);
    if x.section.Idle? && x.m.Owes().Some? {
      OwedPlannedIn(x, y);
      PlansWell(x, PlansOwed(x, y), y, x.m.Owes().value);
    }
  }

  lemma TransitionTimes(m: Machine, purpose: Purpose, now: nat)
    requires Answers(m.state, purpose) && m.waits.armed < MAX_CLOSE_WAITS
    ensures Transition(m, purpose, now) == Transition(m, purpose, 0).(waits := Transition(m, purpose, now).waits)
  {
    match purpose
    case InitialClose =>
    case Acknowledgement =>
      if m.state.CloseReceived? {
      } else if m.peerAck {
      } else {
      }
    case FinalConfirmation =>
  }

  /** The time of a commit moves only the waits. */
  lemma NotedAtAnyTime(m: Machine, r: CloseRecord, at: Position, completed: bool, now: nat)
    requires m.Valid() && TransmittedOk(m, r, at)
    ensures var early, m' := NoteTransmitted(m, r, at, completed, 0).value, NoteTransmitted(m, r, at, completed, now).value;
            m' == early.(waits := m'.waits)
  {
    TransitionTimes(FreezeAnchor(m, r.ack, at, completed).(pending := None, recordsSent := m.recordsSent + 1), r.purpose, now);
  }

  lemma NotesLike(x: Endpoint, now: nat)
    requires x.m.Valid() && Notes(x, now).m.Valid()
    ensures var x' := Notes(x, now);
            LikeBefore(Noted(x), x') && LikeBefore(Noted(x), Noted(x')) && (x.section.OnWire? && x.out.sent != [] ==> x'.section.Idle?)
  {
    if x.section.OnWire? && x.out.sent != [] && TransmittedOk(x.m, x.section.record, Last(x.out).at) {
      NotedAtAnyTime(x.m, x.section.record, Last(x.out).at, Last(x.out).completes, now);
    }
  }

  lemma NoteKeepsPair(x: Endpoint, y: Endpoint, now: nat)
    requires Pair(x, y)
    ensures var x' := Notes(x, now); Pair(x', y) && LikeBefore(Noted(x), Noted(x')) && (x.section.OnWire? ==> x'.section.Idle?)
  {
    NoteKeeps(x, y, now);
    PairIsMatched(x, y);
    if x.section.OnWire? {
      OnWireIsSent(x, y);
      NotesLike(x, now);
      LikeBeforeHalves(Noted(x), Noted(Notes(x, now)), Noted(y));
      PairAfter(x, Notes(x, now), y);
    }
  }

  lemma OnWireIsSent(x: Endpoint, y: Endpoint)
    requires Consistent(x, y) && x.section.OnWire?
    ensures x.out.sent != []
  {
    BothFit(x, y);
  }

  // ------------------------------------------------------------------- accepting

  /** What accepting one more record changes on the accepting side. */
  predicate Hears(x: Endpoint, x': Endpoint) {
    && x'.got == x.got + 1 && x'.out == x.out && x'.m.ch == x.m.ch && !x'.m.state.Ended?
    && x'.closes == x.closes && x'.m.recordsSent == x.m.recordsSent && x'.m.anchor == x.m.anchor
    && !x'.m.errorSent && !x'.m.peerError && !x'.m.Degenerate()
  }

  lemma HearerHalves(x: Endpoint, x': Endpoint, y: Endpoint)
    requires Half(x, y) && Half(y, x) && Hears(x, x') && x'.got <= |y.out.sent| && y.got <= |x.out.sent| && Phase(x', y)
    requires x'.m.ackDue.Declares? ==> y.m.anchor.FrozenAt? && x'.m.ackDue.expectedRecv == y.m.anchor.position
    ensures Half(x', y) && Half(y, x')
  {
    HearerPhase(x, x', y);
    HearerRecords(x, x', y);
  }

  lemma HearerPhase(x: Endpoint, x': Endpoint, y: Endpoint)
    requires Phase(y, x) && Hears(x, x') && !x.m.errorSent
    ensures Phase(y, x')
  {
    assert Heard(y, x') == Heard(y, x);
  }

  lemma HearerRecords(x: Endpoint, x': Endpoint, y: Endpoint)
    requires RecordsWellMade(x, y) && RecordsWellMade(y, x) && Hears(x, x')
    ensures RecordsWellMade(x', y) && RecordsWellMade(y, x')
  {}

  /** Before the peer's first close record this endpoint is still in one of two states and takes application records. */
  lemma BeforeFirst(x: Endpoint, y: Endpoint)
    requires Matched(x, y) && x.got <= y.FirstClose()
    ensures (x.m.state.Open? || x.m.state.AwaitingAck?) && !x.m.peerClose && !x.m.peerAck && x.m.ackDue.NoAckDue?
    ensures Responder(y) && y.closes > 0 ==> x.m.state.AwaitingAck?
    ensures !x.out.Stands().exhausted
  {
    assert Heard(x, y) == 0;
  }

  lemma AcceptsApplication(x: Endpoint, y: Endpoint, now: nat)
    requires Matched(x, y) && x.got < |y.out.sent| && x.got < y.FirstClose()
    ensures Accepts(x, y, now) == x.(got := x.got + 1)
  {
    BeforeFirst(x, y);
    TakesApplication(x, y, now);
  }

  lemma TakesApplication(x: Endpoint, y: Endpoint, now: nat)
    requires CanPlay(x, y) && x.got < |y.out.sent| && y.out.sent[x.got].content.App? && !x.out.Stands().exhausted
    requires (x.m.state.Open? || x.m.state.AwaitingAck?) && !x.m.peerClose && !x.m.peerAck
    ensures Accepts(x, y, now) == x.(got := x.got + 1)
  {}

  lemma AcceptApplication(x: Endpoint, y: Endpoint, now: nat)
    requires Matched(x, y) && x.got < |y.out.sent| && x.got < y.FirstClose()
    ensures var x' := Accepts(x, y, now); Hears(x, x') && Half(x', y) && Half(y, x')
  {
    AcceptsApplication(x, y, now);
    BeforeFirst(x, y);
    var x' := x.(got := x.got + 1);
    assert Heard(x', y) == 0 == Heard(x, y);
    HearerHalves(x, x', y);
  }

  /** A received close declares no more than the receiver has sent. */
  lemma PassesThrough(x: Endpoint, y: Endpoint, i: nat)
    requires x.out.Valid() && y.got <= |x.out.sent| && DeclaresUpTo(y.out, x.out.At(y.got))
    requires i < |y.out.sent| && y.out.sent[i].content.CloseMachineContent?
    ensures y.out.sent[i].content.body.CloseBody?
    ensures !x.out.Stands().At().Before(y.out.sent[i].content.body.expectedRecv)
  {
    AtMonotone(x.out, y.got, |x.out.sent|);
  }

  /** The peer's close is valid, and what it leaves expected is the peer's anchor. */
  predicate ValidPeerClose(x: Endpoint, y: Endpoint)
    requires x.got < |y.out.sent|
  {
    var w := y.out.sent[x.got];
    && w.content.CloseMachineContent? && !w.content.ack && y.m.anchor.FrozenAt?
    && Validate(false, w.content.body, w.at, x.m.ch.binding, Opposite(x.m.ch.side), x.out.Stands().At(), None).None?
    && NextPosition(x.m.ch.l, w.at, w.completes) == Some(y.m.anchor.position)
  }

  lemma PeerCloseIsValid(x: Endpoint, y: Endpoint)
    requires Half(x, y) && Half(y, x) && y.out.Valid() && x.m.ch.l == x.out.l == y.out.l
    requires x.out.Valid() && y.got <= |x.out.sent| && DeclaresUpTo(y.out, x.out.At(y.got))
    requires x.got < |y.out.sent| && x.got == y.FirstClose() && !Responder(y)
    ensures ValidPeerClose(x, y)
  {
    assert WellMade(y, x, x.got, false);
    NextIsNext(y.out, x.got);
    PassesThrough(x, y, x.got);
  }

  /** The peer's first close record, when it is a close: its ack will declare the peer's anchor. */
  lemma AcceptPeerClose(x: Endpoint, y: Endpoint, now: nat)
    requires Matched(x, y) && x.got < |y.out.sent| && x.got == y.FirstClose() && !Responder(y)
    ensures var x' := Accepts(x, y, now);
            && Hears(x, x') && x'.m.state == (if x.m.state.Open? then CloseReceived else SimultaneousPending)
            && !x'.m.peerAck && y.m.anchor.FrozenAt? && x'.m.ackDue == Declares(y.m.anchor.position)
  {
    BeforeFirst(x, y);
    PeerCloseIsValid(x, y);
  }

  /** The peer's first close record, when it is an ack: it equals this endpoint's anchor. */
  lemma AcceptPeerAck(x: Endpoint, y: Endpoint, now: nat)
    requires Matched(x, y) && x.got < |y.out.sent| && x.got == y.FirstClose() && Responder(y)
    ensures var x' := Accepts(x, y, now); Hears(x, x') && x'.m.state.ConfirmationDue? && x'.m.ackDue.NoAckDue?
  {
    BeforeFirst(x, y);
    assert WellMade(y, x, x.got, true);
  }

  lemma AcceptFirst(x: Endpoint, y: Endpoint, now: nat)
    requires Matched(x, y) && x.got < |y.out.sent| && x.got == y.FirstClose()
    ensures var x' := Accepts(x, y, now); Hears(x, x') && Half(x', y) && Half(y, x')
  {
    BeforeFirst(x, y);
    if Responder(y) {
      AcceptPeerAck(x, y, now);
    } else {
      AcceptPeerClose(x, y, now);
    }
    HearerHalves(x, Accepts(x, y, now), y);
  }

  /** The peer's second record is its ack, and this endpoint waits for it, or has given up. */
  lemma BeforeSecond(x: Endpoint, y: Endpoint)
    requires Half(x, y) && Half(y, x) && x.got < |y.out.sent| && x.got > y.FirstClose()
    ensures y.closes == 2 && x.got == y.FirstClose() + 1 && WellMade(y, x, x.got, true) && Heard(x, y) == 1
    ensures x.m.state.AwaitingConfirmation? || x.m.state.SimultaneousPending? || x.m.state.AwaitingSimultaneousAck? || x.m.state.Ended?
    ensures x.m.state.AwaitingConfirmation? || x.m.state.SimultaneousPending? ==> !x.out.Stands().exhausted
  {}

  lemma AcceptSecondHears(x: Endpoint, y: Endpoint, now: nat)
    requires Matched(x, y) && x.got < |y.out.sent| && x.got > y.FirstClose()
    requires !x.m.state.Ended? && !x.out.Stands().exhausted
    ensures var x' := Accepts(x, y, now);
            && Hears(x, x') && Phase(x', y) && x'.m.ackDue == x.m.ackDue
            && x'.m.state == (if x.m.state.SimultaneousPending? then SimultaneousPending else Complete)
            && (x.m.state.SimultaneousPending? ==> x'.m.peerAck)
  {
    BeforeSecond(x, y);
    var w := y.out.sent[x.got];
    AckCompletes(x.m, w.content.body, w.at, x.out.Stands().At());
    assert Heard(Accepts(x, y, now), y) == 2;
  }

  /** The machine is as it was but for state, branch, waits, verdict and what is owed. */
  predicate SameButPhase(m: Machine, m': Machine) {
    && m'.ch == m.ch && m'.recordsSent == m.recordsSent && m'.anchor == m.anchor && m'.peerAck == m.peerAck
    && m'.errorSent == m.errorSent && m'.peerError == m.peerError
  }

  /** What an ack that equals the anchor makes of a machine that has heard the peer's close, or waits after it. */
  lemma AckCompletes(m: Machine, body: CloseBody, envelope: Position, nextSend: Position)
    requires m.Valid() && m.anchor.FrozenAt? && !m.peerAck && !m.Degenerate()
    requires m.state.AwaitingConfirmation? || m.state.SimultaneousPending? || m.state.AwaitingSimultaneousAck?
    requires body == MakeBody(true, Opposite(m.ch.side), m.ch.binding, envelope, m.anchor.position)
    ensures var (m', outcome) := ReceiveCloseAck(m, body, envelope, nextSend);
            && !outcome.FatalClose? && m'.peerAck && SameButPhase(m.(peerAck := true), m') && m'.ackDue == m.ackDue
            && m'.branch == m.branch && !m'.Degenerate()
            && m'.state == (if m.state.SimultaneousPending? then SimultaneousPending else Complete)
  {}

  lemma AcceptSecond(x: Endpoint, y: Endpoint, now: nat)
    requires Matched(x, y) && x.got < |y.out.sent| && x.got > y.FirstClose()
    requires !x.m.state.Ended? && !x.out.Stands().exhausted
    ensures var x' := Accepts(x, y, now);
            && Hears(x, x') && Half(x', y) && Half(y, x')
            && x'.m.state == (if x.m.state.SimultaneousPending? then SimultaneousPending else Complete)
            && (x.m.state.SimultaneousPending? ==> x'.m.peerAck)
  {
    AcceptSecondHears(x, y, now);
    HearerHalves(x, Accepts(x, y, now), y);
  }

  /** An end whose direction is spent has a record of the peer's still to accept only while it waits for the peer's ack. */
  lemma SpentWaits(x: Endpoint, y: Endpoint)
    requires Matched(x, y) && x.got < |y.out.sent| && !x.m.state.Ended? && x.out.Stands().exhausted
    ensures x.m.state.AwaitingSimultaneousAck? && y.closes == 2
  {
    if x.got <= y.FirstClose() {
      BeforeFirst(x, y);
    } else {
      BeforeSecond(x, y);
    }
  }

  /** How accepting moves an endpoint of an honest pair that has a position left: one record on, or not at all. */
  predicate AcceptsOne(x: Endpoint, x': Endpoint, y: Endpoint) {
    && x'.out == x.out && x'.closes == x.closes && x'.m.anchor == x.m.anchor
    && if x.got >= |y.out.sent| || x.m.state.Ended? then x' == x
       else x'.got == x.got + 1 && x'.m.recordsSent == x.m.recordsSent && !x'.m.state.Ended?
  }

  lemma MatchedAccepts(x: Endpoint, y: Endpoint, now: nat)
    requires Matched(x, y) && (x.got < |y.out.sent| && !x.m.state.Ended? ==> !x.out.Stands().exhausted)
    ensures var x' := Accepts(x, y, now); AcceptsOne(x, x', y) && Half(x', y) && Half(y, x')
  {
    if x.got >= |y.out.sent| || x.m.state.Ended? {
    } else if x.got < y.FirstClose() {
      AcceptApplication(x, y, now);
    } else if x.got == y.FirstClose() {
      AcceptFirst(x, y, now);
    } else {
      AcceptSecond(x, y, now);
    }
  }

  /** Taking a record before or after a commit is the same, but for the waits, when taking it does not interrupt. */
  predicate AcceptsAlike(x: Endpoint, y: Endpoint, now: nat)
    requires CanPlay(x, y) && Noted(x).m.Valid()
  {
    var x' := Accepts(x, y, now);
    x'.m.Valid() && LikeBefore(Accepts(Noted(x), y, now), Noted(x')) && Held(x', y)
  }

  /** With its own first record built, an end does not find the peer's. */
  lemma BuiltFindsNotFirst(x: Endpoint, y: Endpoint)
    requires Matched(x, y) && x.section.Planned? && Answers(x.m.state, x.section.record.purpose)
    requires !Interrupts(x, y) && x.got < |y.out.sent|
    ensures x.got != y.FirstClose()
    ensures x.got > y.FirstClose() ==> x.m.state.SimultaneousPending? && !x.out.Stands().exhausted
  {
    if x.got == y.FirstClose() {
      BeforeFirst(x, y);
    } else if x.got > y.FirstClose() {
      BeforeSecond(x, y);
    }
  }

  lemma AcceptsSecondPending(x: Endpoint, y: Endpoint, now: nat)
    requires Matched(x, y) && x.got < |y.out.sent| && x.got > y.FirstClose() && x.m.state.SimultaneousPending?
    requires !x.out.Stands().exhausted
    ensures Accepts(x, y, now) == x.(m := x.m.(peerAck := true), got := x.got + 1)
  {
    BeforeSecond(x, y);
  }

  lemma AcceptBuilt(x: Endpoint, y: Endpoint, now: nat)
    requires Matched(x, y) && x.section.Planned? && BuiltWell(x, y, x.section.record) && !Interrupts(x, y)
    ensures BuiltWell(Accepts(x, y, now), y, x.section.record)
  {
    if x.got < |y.out.sent| {
      BuiltFindsNotFirst(x, y);
      if x.got < y.FirstClose() {
        AcceptsApplication(x, y, now);
      } else {
        AcceptsSecondPending(x, y, now);
      }
    }
  }

  lemma AcceptKeepsSection(x: Endpoint, y: Endpoint, now: nat)
    requires CanPlay(x, y)
    ensures Accepts(x, y, now).section == x.section
  {}

  lemma AcceptUnsent(x: Endpoint, y: Endpoint, now: nat)
    requires Matched(x, y) && !x.section.OnWire? && Held(x, y) && !Interrupts(x, y)
    requires CanPlay(x, y) && Accepts(x, y, now).m.Valid()
    ensures Noted(x) == x && Noted(Accepts(x, y, now)) == Accepts(x, y, now) && Held(Accepts(x, y, now), y)
  {
    UnsentIsNoted(x);
    AcceptKeepsSection(x, y, now);
    UnsentIsNoted(Accepts(x, y, now));
    if x.section.Planned? { AcceptBuilt(x, y, now); }
  }

  /** What the end with a record on the wire is, given what it will be. */
  lemma BeforeNote(x: Endpoint)
    requires x.m.Valid() && x.section.OnWire? && x.out.sent != [] && TransmittedOk(x.m, x.section.record, Last(x.out).at)
    ensures Advances(x.m, Noted(x).m, x.section.record.purpose) && Noted(x).m.ch == x.m.ch
    ensures x.m.state.Open? || x.m.state.CloseReceived? ==> x.m.recordsSent == 0
    ensures x.m.recordsSent > 0 ==> Noted(x).m.anchor == x.m.anchor
  {
    NotedAdvances(x.m, x.section.record, Last(x.out).at, Last(x.out).completes);
    NotedMachine(x.m, x.section.record, Last(x.out).at, Last(x.out).completes, 0);
  }

  /** With its own ack on the wire, an end takes the peer's and completes at the commit. */
  lemma AcceptOnWireSecond(x: Endpoint, y: Endpoint, now: nat)
    requires CanPlay(x, y) && Matched(Noted(x), y) && x.section.OnWire? && Held(x, y) && x.out.sent != []
    requires !x.m.state.Ended? && !Interrupts(x, y) && x.got < |y.out.sent| && x.got > y.FirstClose()
    ensures x.m.state.SimultaneousPending? && !x.m.peerAck && ExpectsAck(x.m)
    ensures Noted(x).m.state.AwaitingSimultaneousAck? && WellMade(y, Noted(x), x.got, true)
  {
    BeforeSecond(Noted(x), y);
    BeforeNote(x);
    assert y.out.sent[x.got].content.CloseMachineContent?;
  }

  /** What taking the peer's second record makes of the end with its own on the wire, and of the end once committed. */
  lemma AcceptOnWireAlike(x: Endpoint, y: Endpoint, now: nat)
    requires CanPlay(x, y) && Matched(Noted(x), y) && x.section.OnWire? && Held(x, y) && x.out.sent != []
    requires !x.m.state.Ended? && !Interrupts(x, y) && x.got < |y.out.sent| && x.got > y.FirstClose()
    requires !x.out.Stands().exhausted
    ensures Accepts(x, y, now) == x.(m := x.m.(peerAck := true), got := x.got + 1)
    ensures Accepts(Noted(x), y, now) == Noted(x).(m := Completed(Noted(x).m.(peerAck := true)), got := x.got + 1)
  {
    AcceptOnWireSecond(x, y, now);
    BeforeNote(x);
  }

  /** The commit after the peer's ack: complete either way. */
  lemma NoteAfterAck(x: Endpoint)
    requires x.m.Valid() && x.section.OnWire? && x.out.sent != [] && TransmittedOk(x.m, x.section.record, Last(x.out).at)
    requires x.m.state.SimultaneousPending? && x.m.recordsSent > 0 && !x.m.peerAck && x.m.(peerAck := true).Valid()
    ensures var x', n := x.(m := x.m.(peerAck := true), got := x.got + 1), Noted(x);
            LikeBefore(n.(m := Completed(n.m.(peerAck := true)), got := x.got + 1), Noted(x')) && Held(x', x)
  {}

  /** Before the commit of its own close an end takes application records. */
  lemma AcceptSentApplication(x: Endpoint, y: Endpoint, now: nat)
    requires CanPlay(x, y) && Matched(Noted(x), y) && x.section.OnWire? && Held(x, y) && x.out.sent != []
    requires !x.m.state.Ended? && x.got < |y.out.sent| && x.got < y.FirstClose()
    ensures Accepts(x, y, now) == x.(got := x.got + 1) && Accepts(Noted(x), y, now) == Noted(x).(got := x.got + 1)
  {
    BeforeFirst(Noted(x), y);
    AcceptsApplication(Noted(x), y, now);
    ClosesBeforeNote(x);
    assert y.out.sent[x.got].content.App?;
  }

  lemma ClosesBeforeNote(x: Endpoint)
    requires x.m.Valid() && x.section.OnWire? && x.out.sent != [] && TransmittedOk(x.m, x.section.record, Last(x.out).at)
    requires Noted(x).m.state.Open? || Noted(x).m.state.AwaitingAck?
    ensures x.m.state.Open? && !x.m.peerClose && !x.m.peerAck
  {
    BeforeNote(x);
  }

  lemma NotesLater(x: Endpoint)
    requires x.m.Valid()
    ensures Noted(x.(got := x.got + 1)) == Noted(x).(got := x.got + 1)
  {}

  /** The peer's first close record cannot be taken before the commit of the own one. */
  lemma NotFirstOnWire(x: Endpoint, y: Endpoint)
    requires CanPlay(x, y) && Matched(Noted(x), y) && x.section.OnWire? && Held(x, y) && x.out.sent != []
    requires !x.m.state.Ended? && !Interrupts(x, y) && x.got < |y.out.sent|
    ensures x.got != y.FirstClose()
  {
    if x.got == y.FirstClose() {
      BeforeFirst(Noted(x), y);
      BeforeNote(x);
    }
  }

  lemma AcceptSentSecond(x: Endpoint, y: Endpoint, now: nat)
    requires CanPlay(x, y) && Matched(Noted(x), y) && x.section.OnWire? && Held(x, y) && x.out.sent != []
    requires !x.m.state.Ended? && !Interrupts(x, y) && x.got < |y.out.sent| && x.got > y.FirstClose()
    requires !x.out.Stands().exhausted && Accepts(x, y, now).m.Valid()
    ensures AcceptsAlike(x, y, now)
  {
    AcceptOnWireSecond(x, y, now);
    AcceptOnWireAlike(x, y, now);
    NoteAfterAck(x);
  }

  lemma AcceptSentFirst(x: Endpoint, y: Endpoint, now: nat)
    requires CanPlay(x, y) && Matched(Noted(x), y) && x.section.OnWire? && Held(x, y) && x.out.sent != []
    requires !x.m.state.Ended? && x.got < |y.out.sent| && x.got < y.FirstClose()
    ensures AcceptsAlike(x, y, now)
  {
    AcceptSentApplication(x, y, now);
    NotesLater(x);
  }

  lemma AcceptSent(x: Endpoint, y: Endpoint, now: nat)
    requires CanPlay(x, y) && Matched(Noted(x), y) && x.section.OnWire? && Held(x, y) && x.out.sent != []
    requires !Interrupts(x, y) && Accepts(x, y, now).m.Valid()
    requires x.got < |y.out.sent| && !x.m.state.Ended? ==> !x.out.Stands().exhausted
    ensures AcceptsAlike(x, y, now)
  {
    if x.got >= |y.out.sent| || x.m.state.Ended? {
    } else if x.got < y.FirstClose() {
      AcceptSentFirst(x, y, now);
    } else {
      NotFirstOnWire(x, y);
      AcceptSentSecond(x, y, now);
    }
  }

  /** An end that gives up, committed or not. */
  predicate GivesUp(x: Endpoint, x': Endpoint, y: Endpoint) {
    && x'.out == x.out && x'.got == x.got && x'.closes == x.closes
    && x'.m.ch == x.m.ch && x'.m.anchor == x.m.anchor && GaveUp(x') && x'.m.state.Ended?
    && !x'.m.errorSent && !x'.m.peerError && !x'.m.Degenerate()
    && (x'.m.ackDue.Declares? ==> y.m.anchor.FrozenAt? && x'.m.ackDue.expectedRecv == y.m.anchor.position)
  }

  lemma GivesUpHalves(x: Endpoint, x': Endpoint, y: Endpoint)
    requires Half(x, y) && Half(y, x) && x.m.state.AwaitingSimultaneousAck? && y.closes == 2 && GivesUp(x, x', y)
    ensures Half(x', y) && Half(y, x')
  {
    assert Heard(x', y) == Heard(x, y) == 1 && Heard(y, x') == Heard(y, x);
  }

  lemma EndsAbruptly(m: Machine)
    requires m.Valid() && (m.state.AwaitingSimultaneousAck? || m.state.SimultaneousPending?) && !m.Degenerate()
    ensures NoteChannelEnded(m, false)
            == m.(pending := None, verdict := Some(UncleanAbrupt), state := Ended, waits := m.waits.(deadline := None))
    ensures m.branch == Some(Simultaneous) && !m.completed && !m.errorSent && !m.peerError
  {}

  lemma PendingAckDeclares(m: Machine, r: CloseRecord)
    requires m.Valid() && m.pending == Some(r) && m.state.SimultaneousPending? && Answers(m.state, r.purpose) && !m.anchor.Unfreezable?
    ensures r.ack && r.body.CloseBody? && m.ackDue == Declares(r.body.expectedRecv) && !m.Degenerate() && m.recordsSent == 1
  {
    assert m.PendingOk(r);
  }

  /** With its ack on the wire, what the end owes is what the ack declares. */
  lemma OwesWhatItSent(x: Endpoint, y: Endpoint)
    requires x.m.Valid() && SectionOk(x) && RecordsWellMade(Noted(x), y) && x.section.OnWire? && x.m.state.SimultaneousPending?
    requires TransmittedOk(x.m, x.section.record, Last(x.out).at) && Noted(x).closes == 2 && !Noted(x).m.Degenerate()
    ensures !x.m.Degenerate() && y.m.anchor.FrozenAt? && x.m.ackDue == Declares(y.m.anchor.position)
    ensures Noted(x).m.anchor == x.m.anchor && Noted(x).m.ch == x.m.ch
  {
    BeforeNote(x);
    NotedAnchorIs(x);
    PendingAckDeclares(x.m, x.section.record);
    assert WellMade(Noted(x), y, |x.out.sent| - 1, true);
  }

  lemma NotedAnchorIs(x: Endpoint)
    requires x.m.Valid() && x.section.OnWire? && x.out.sent != [] && TransmittedOk(x.m, x.section.record, Last(x.out).at)
    requires x.m.state.SimultaneousPending?
    ensures Noted(x).m.anchor == x.m.anchor
  {
    NotedMachine(x.m, x.section.record, Last(x.out).at, Last(x.out).completes, 0);
  }

  /** What an end must be to give up as it does. */
  predicate AboutToGiveUp(x: Endpoint, y: Endpoint) {
    && x.m.Valid() && (x.m.state.AwaitingSimultaneousAck? || x.m.state.SimultaneousPending?) && !x.m.Degenerate()
    && (x.m.ackDue.Declares? ==> y.m.anchor.FrozenAt? && x.m.ackDue.expectedRecv == y.m.anchor.position)
    && Noted(x).m.ch == x.m.ch && Noted(x).m.anchor == x.m.anchor
    && Noted(x).m.state.AwaitingSimultaneousAck? && y.closes == 2
  }

  lemma SpentGivesUp(x: Endpoint, y: Endpoint)
    requires OwnHalf(x) && Matched(Noted(x), y) && Held(x, y)
    requires x.got < |y.out.sent| && !x.m.state.Ended? && x.out.Stands().exhausted
    ensures AboutToGiveUp(x, y)
  {
    if x.section.OnWire? {
      BeforeNote(x);
      SpentWaits(Noted(x), y);
      OwesWhatItSent(x, y);
    } else {
      UnsentIsNoted(x);
      SpentWaits(Noted(x), y);
    }
  }

  lemma EndedNotes(x: Endpoint)
    requires x.m.Valid() && x.m.state.Ended?
    ensures Noted(x) == x.(section := if x.section.OnWire? && x.out.sent != [] then Idle else x.section)
  {}

  lemma AcceptSpent(x: Endpoint, y: Endpoint, now: nat)
    requires OwnHalf(x) && Matched(Noted(x), y) && Held(x, y) && CanPlay(x, y) && Accepts(x, y, now).m.Valid()
    requires x.got < |y.out.sent| && !x.m.state.Ended? && x.out.Stands().exhausted
    ensures LeavesHalves(x, Accepts(x, y, now), y)
  {
    var x' := Accepts(x, y, now);
    SpentGivesUp(x, y);
    EndsAbruptly(x.m);
    assert x' == x.(m := NoteChannelEnded(x.m, false));
    EndedNotes(x');
    GivesUpHalves(Noted(x), Noted(x'), y);
  }

  lemma AcceptAlikeLeaves(x: Endpoint, y: Endpoint, now: nat)
    requires x.m.Valid() && CanPlay(x, y) && Matched(Noted(x), y) && AcceptsAlike(x, y, now)
    requires x.got < |y.out.sent| && !Noted(x).m.state.Ended? ==> !x.out.Stands().exhausted
    ensures LeavesHalves(x, Accepts(x, y, now), y)
  {
    MatchedAccepts(Noted(x), y, now);
    LikeBeforeHalves(Accepts(Noted(x), y, now), Noted(Accepts(x, y, now)), y);
  }

  lemma EndedStays(x: Endpoint)
    requires x.m.Valid()
    requires x.section.OnWire? ==>
               x.m.state.Ended? || (x.out.sent != [] && TransmittedOk(x.m, x.section.record, Last(x.out).at))
    ensures Noted(x).m.state.Ended? <==> x.m.state.Ended?
  {
    if x.section.OnWire? && !x.m.state.Ended? { BeforeNote(x); }
  }

  lemma AcceptLive(x: Endpoint, y: Endpoint, now: nat)
    requires OwnHalf(x) && Matched(Noted(x), y) && Held(x, y) && CanPlay(x, y) && Accepts(x, y, now).m.Valid()
    requires !Interrupts(x, y) && (x.got < |y.out.sent| && !x.m.state.Ended? ==> !x.out.Stands().exhausted)
    ensures LeavesHalves(x, Accepts(x, y, now), y)
  {
    EndedStays(x);
    if x.section.OnWire? { AcceptSent(x, y, now); } else { AcceptUnsent(x, y, now); LikeItself(Accepts(x, y, now)); }
    AcceptAlikeLeaves(x, y, now);
  }

  lemma LikeItself(x: Endpoint)
    ensures LikeBefore(x, x)
  {}

  lemma AcceptLeavesHalves(x: Endpoint, y: Endpoint, now: nat)
    requires OwnHalf(x) && Matched(Noted(x), y) && Held(x, y) && CanPlay(x, y) && Accepts(x, y, now).m.Valid()
    requires !Interrupts(x, y)
    ensures LeavesHalves(x, Accepts(x, y, now), y)
  {
    if x.got < |y.out.sent| && !x.m.state.Ended? && x.out.Stands().exhausted {
      AcceptSpent(x, y, now);
    } else {
      AcceptLive(x, y, now);
    }
  }

  /** Only the peer's log enters what is accepted. */
  lemma AcceptsAgainstLog(x: Endpoint, y: Endpoint, y': Endpoint, now: nat)
    requires CanPlay(x, y) && CanPlay(x, y') && y'.out == y.out
    ensures Accepts(x, y, now) == Accepts(x, y', now) && Interrupts(x, y) == Interrupts(x, y')
  {}

  lemma AcceptKeepsPair(x: Endpoint, y: Endpoint, now: nat)
    requires Pair(x, y) && !Interrupts(x, y)
    ensures Pair(Accepts(x, y, now), y)
  {
    AcceptKeeps(x, y, now);
    PairIsMatched(x, y);
    BothFit(x, y);
    AcceptsAgainstLog(x, y, Noted(y), now);
    AcceptLeavesHalves(x, Noted(y), now);
    LeavesPair(x, Accepts(x, y, now), y);
  }

  // ------------------------------------------------------------------------- runs

  /** Every honest step keeps the pair, but one that interrupts: nothing an honest peer sends is ever refused. */
  lemma {:induction false} HonestKeeps(x: Endpoint, y: Endpoint, act: Action)
    requires Pair(x, y) && Honest(act) && !(act.Accept? && Interrupts(x, y))
    ensures Pair(Act(x, y, act), y)
  {
    match act
    case SendApplication(size) => ApplicationKeeps(x, y, size);
    case PlanClose => PlanCloseKeepsPair(x, y);
    case PlanOwed => PlanOwedKeepsPair(x, y);
    case Protect(_) => if x.section.Planned? { ProtectKeepsPair(x, y); }
    case Note(now) => NoteKeepsPair(x, y, now);
    case Accept(now) => AcceptKeepsPair(x, y, now);
  }

  /** Both sides of an honest pair; that the two are consistent is part of what makes the system sound. */
  ghost predicate Agreeable(s: System) { forall w {:trigger Own(s, w)} :: Sided(Own(s, w), Peer(s, w)) }

  function Other(w: Who): Who { if w.TheClient? then TheNode else TheClient }

  lemma SystemIsPair(s: System, w: Who)
    requires Sound(s) && Agreeable(s)
    ensures Pair(Own(s, w), Peer(s, w))
  {
    assert Own(s, Other(w)) == Peer(s, w) && Peer(s, Other(w)) == Own(s, w);
    EndsConsistent(s, w);
    SidesPair(Own(s, w), Peer(s, w));
  }

  predicate AllHonest(moves: seq<Move>) { forall i :: 0 <= i < |moves| ==> Honest(moves[i].act) }

  /** Neither end was interrupted. */
  ghost predicate Uninterrupted(s: System, moves: seq<Move>)
    requires Sound(s)
  {
    forall w {:trigger Interrupted(s, moves, w)} :: !Interrupted(s, moves, w)
  }

  /** Both directions are the ones that were started. */
  predicate SameStarts(s: System, s': System) {
    && s'.client.out.l == s.client.out.l && s'.client.out.start == s.client.out.start
    && s'.node.out.l == s.node.out.l && s'.node.out.start == s.node.out.start
  }

  lemma StartKept(x: Endpoint, y: Endpoint, act: Action)
    requires CanPlay(x, y)
    ensures Act(x, y, act).out.l == x.out.l && Act(x, y, act).out.start == x.out.start
  {}

  /** A move is one end's step. */
  lemma NextMoves(s: System, move: Move, w: Who)
    requires Playable(s)
    ensures CanPlay(Own(s, w), Peer(s, w))
    ensures Own(Next(s, move), w) == if By(move) == w then Act(Own(s, w), Peer(s, w), move.act) else Own(s, w)
  {
    EndPlays(s, w);
  }

  lemma AgreeableNext(s: System, move: Move)
    requires Playable(s) && CanPlay(Own(s, By(move)), Peer(s, By(move)))
    requires var x', y := Act(Own(s, By(move)), Peer(s, By(move)), move.act), Peer(s, By(move)); Pair(x', y)
    ensures Agreeable(Next(s, move))
  {
    var x', y := Act(Own(s, By(move)), Peer(s, By(move)), move.act), Peer(s, By(move));
    PairSides(x', y);
    NextMoves(s, move, By(move));
    NextMoves(s, move, Other(By(move)));
  }

  lemma HonestNext(s: System, move: Move)
    requires Sound(s) && Agreeable(s) && Honest(move.act) && !InterruptsBy(s, move, By(move))
    ensures Agreeable(Next(s, move))
  {
    SystemIsPair(s, By(move));
    HonestKeeps(Own(s, By(move)), Peer(s, By(move)), move.act);
    AgreeableNext(s, move);
  }

  lemma StartsNext(s: System, move: Move)
    requires Playable(s)
    ensures SameStarts(s, Next(s, move))
  {
    EndPlays(s, By(move));
    StartKept(Own(s, By(move)), Peer(s, By(move)), move.act);
  }

  /** The run up to its last move. */
  ghost function ButLast(s: System, moves: seq<Move>): System
    requires Sound(s) && moves != []
  {
    Play(s, moves[..|moves| - 1])
  }

  lemma UninterruptedLast(s: System, moves: seq<Move>)
    requires Sound(s) && moves != [] && Uninterrupted(s, moves)
    ensures Uninterrupted(s, moves[..|moves| - 1])
    ensures var last := moves[|moves| - 1]; !InterruptsBy(ButLast(s, moves), last, By(last))
  {
    var before := moves[..|moves| - 1];
    forall w ensures !Interrupted(s, before, w) { assert !Interrupted(s, moves, w); }
    assert !Interrupted(s, moves, By(moves[|moves| - 1]));
  }

  lemma HonestLast(s: System, moves: seq<Move>)
    requires Sound(s) && moves != [] && Agreeable(ButLast(s, moves)) && Honest(moves[|moves| - 1].act)
    requires Uninterrupted(s, moves)
    ensures Agreeable(Play(s, moves)) && SameStarts(ButLast(s, moves), Play(s, moves))
  {
    UninterruptedLast(s, moves);
    HonestNext(ButLast(s, moves), moves[|moves| - 1]);
    StartsNext(ButLast(s, moves), moves[|moves| - 1]);
  }

  /** An honest run nobody is interrupted in. */
  ghost predicate Undisturbed(s: System, moves: seq<Move>)
    requires Sound(s)
  {
    AllHonest(moves) && Uninterrupted(s, moves)
  }

  lemma {:induction false} HonestRun(s: System, moves: seq<Move>)
    requires Sound(s) && Agreeable(s) && Undisturbed(s, moves)
    ensures Agreeable(Play(s, moves)) && SameStarts(s, Play(s, moves))
    decreases |moves|
  {
    if moves != [] {
      UninterruptedLast(s, moves);
      HonestRun(s, moves[..|moves| - 1]);
      HonestLast(s, moves);
    }
  }

  /** A direction with room for the two close records. */
  predicate HasRoom(l: Limits, d: Direction) { d.Live(l) && d.Coherent() && HasCapacity(l, d, CLOSES) }

  lemma StartIsAgreeable(l: Limits, binding: nat, clientStart: Direction, nodeStart: Direction)
    requires l.Valid() && HasRoom(l, clientStart) && HasRoom(l, nodeStart)
    ensures var s := Start(l, binding, clientStart, nodeStart);
            && Agreeable(s)
            && (Ample(s.client) <==> HasCapacity(l, clientStart, RESERVE)) && (Ample(s.node) <==> HasCapacity(l, nodeStart, RESERVE))
  {
    assert RESERVE[0..] == RESERVE && CLOSES[0..] == CLOSES;
  }

  // --------------------------------------------------------------------- settling

  /** The section is free, and the end has given up or has accepted everything there is and owes nothing. */
  predicate Done(x: Endpoint, y: Endpoint) {
    x.section.Idle? && (x.m.state.Ended? || (x.got == |y.out.sent| && x.m.Owes().None?))
  }

  predicate Begun(s: System) { !(s.client.m.state.Open? && s.node.m.state.Open?) }

  /** A close has begun, nothing is in flight to an end that still listens, and nothing is owed or under way. */
  predicate Settled(s: System) { Begun(s) && Done(s.client, s.node) && Done(s.node, s.client) }

  predicate CleanlyDone(x: Endpoint) { x.m.state.Complete? && x.m.verdict == Some(Clean) }

  predicate BothClean(s: System) { CleanlyDone(s.client) && CleanlyDone(s.node) }

  /** Three records when one side closed first, four when both did before hearing the other. */
  predicate SameBranch(s: System) {
    var c, n := s.client.m, s.node.m;
    || (c.branch == Some(SequentialInitiator) && n.branch == Some(SequentialResponder) && c.recordsSent + n.recordsSent == 3)
    || (c.branch == Some(SequentialResponder) && n.branch == Some(SequentialInitiator) && c.recordsSent + n.recordsSent == 3)
    || (c.branch == Some(Simultaneous) && n.branch == Some(Simultaneous) && c.recordsSent + n.recordsSent == 4)
  }

  lemma HeardEverything(x: Endpoint, y: Endpoint)
    requires Half(x, y) && Half(y, x) && x.got == |y.out.sent|
    ensures Heard(x, y) == y.closes
  {}

  lemma OneFits(l: Limits, d: Direction, size: nat)
    requires d.Live(l)
    ensures HasCapacity(l, d, [size])
  {
    assert [size][1..] == [];
  }

  /** With the reserve gone, both close records spend the direction; with it there, they do not. */
  lemma ShortIsSpent(x: Endpoint)
    requires Room(x) && x.closes == 2
    ensures Ample(x) <==> !x.out.Stands().exhausted
  {
    assert RESERVE[2..] == [ERROR_RECORD_MAX_BYTES];
    if !x.out.Stands().exhausted { OneFits(x.out.l, x.out.Stands(), ERROR_RECORD_MAX_BYTES); }
  }

  /** Where a settled end stands: complete and clean, or given up and short of the reserve. */
  lemma SettledEnd(x: Endpoint, y: Endpoint)
    requires Half(x, y) && Half(y, x) && Done(x, y) && Done(y, x) && !(x.m.state.Open? && y.m.state.Open?)
    requires x.m.Valid() && y.m.Valid()
    ensures if x.m.state.Ended? then GaveUp(x) && !Ample(x) else CleanlyDone(x)
  {
    if x.m.state.Ended? {
      ShortIsSpent(x);
    } else {
      HeardEverything(x, y);
      if !y.m.state.Ended? { HeardEverything(y, x); }
    }
  }

  lemma SettledBranches(x: Endpoint, y: Endpoint)
    requires Phase(x, y) && Phase(y, x) && CleanlyDone(x) && CleanlyDone(y)
    ensures SameBranch(System(x, y))
  {
    match x.m.branch.value
    case SequentialInitiator =>
    case SequentialResponder =>
    case Simultaneous =>
  }

  // --------------------------------------------------------------------- outcome

  /** Owing its ack of a simultaneous close, with the peer's ack not yet accepted. */
  predicate OwesFirst(x: Endpoint) { x.m.state.SimultaneousPending? && !x.m.peerAck }

  /** The move puts the end's answer on the wire. */
  predicate AcksFirst(s: System, move: Move, w: Who) {
    By(move) == w && move.act.Protect? && Own(s, w).section.Planned? && OwesFirst(Own(s, w))
  }

  /** At some move of the run the end answered a simultaneous close before it had accepted the peer's answer. */
  ghost predicate AckedFirst(s: System, moves: seq<Move>, w: Who)
    requires Sound(s)
    decreases |moves|
  {
    moves != []
    && var before := moves[..|moves| - 1];
       AckedFirst(s, before, w) || AcksFirst(Play(s, before), moves[|moves| - 1], w)
  }

  /** An end that waits for the peer's ack with its own on the wire, or has given up on it. */
  predicate Stranded(x: Endpoint)
    requires x.m.Valid()
  {
    Noted(x).m.state.AwaitingSimultaneousAck? || Noted(x).m.state.Ended?
  }

  lemma PlanStrandsNot(x: Endpoint, y: Endpoint)
    requires Pair(x, y)
    ensures PlansClose(x, y).m.Valid() && (Stranded(PlansClose(x, y)) <==> Stranded(x))
    ensures PlansOwed(x, y).m.Valid() && (Stranded(PlansOwed(x, y)) <==> Stranded(x))
  {
    PlanCloseKeepsPair(x, y);
    PlanOwedKeepsPair(x, y);
  }

  lemma ProtectStrands(x: Endpoint, y: Endpoint)
    requires Pair(x, y)
    ensures var x' := Protects(x, Admitted); x'.m.Valid() && (Stranded(x') <==> Stranded(x) || (x.section.Planned? && OwesFirst(x)))
  {
    if x.section.Planned? { ProtectKeepsPair(x, y); }
  }

  /** An end has both close records on the wire before it waits for the last ack, or gives up on it. */
  lemma StrandedHasSent(x: Endpoint, y: Endpoint)
    requires Pair(x, y) && Stranded(x)
    ensures x.closes == 2
  {
    PairIsMatched(x, y);
  }

  lemma SpentStrands(x: Endpoint, y: Endpoint)
    requires Pair(x, y) && x.got < |y.out.sent| && x.out.Stands().exhausted
    ensures Stranded(x)
  {
    PairIsMatched(x, y);
    if !Noted(x).m.state.Ended? { SpentWaits(Noted(x), Noted(y)); }
  }

  /** How taking a record shows from outside; an end with its direction spent is over. */
  predicate AcceptShows(x: Endpoint, x': Endpoint, y: Endpoint) {
    && x'.out == x.out && x'.closes == x.closes && x'.section == x.section
    && (x' == x || (x.got < |y.out.sent| && !x.m.state.Ended? && (x.out.Stands().exhausted ==> x'.m.state.Ended?)))
  }

  lemma AcceptOutline(x: Endpoint, y: Endpoint, now: nat)
    requires CanPlay(x, y)
    ensures AcceptShows(x, Accepts(x, y, now), y)
  {}

  lemma ShortSpent(x: Endpoint, y: Endpoint)
    requires Pair(x, y) && !Ample(x) && x.closes == 2
    ensures x.out.Stands().exhausted
  {
    PairIsMatched(x, y);
    ShortIsSpent(Noted(x));
  }

  /** Before and after: stranded exactly if the direction is spent. */
  lemma StrandedAlike(x: Endpoint, x': Endpoint, y: Endpoint)
    requires Pair(x, y) && Pair(x', y) && !Ample(x) && AcceptShows(x, x', y)
    ensures x.m.Valid() && x'.m.Valid() && (Stranded(x') <==> Stranded(x))
  {
    PairSides(x, y);
    PairSides(x', y);
    if x' != x {
      if x.out.Stands().exhausted {
        SpentStrands(x, y);
        EndedNotes(x');
      } else {
        if x.closes == 2 { ShortSpent(x, y); }
        if Stranded(x) { StrandedHasSent(x, y); }
        if Stranded(x') { StrandedHasSent(x', y); }
      }
    }
  }

  lemma AcceptStrandsNot(x: Endpoint, y: Endpoint, now: nat)
    requires Pair(x, y) && !Interrupts(x, y) && !Ample(x)
    ensures var x' := Accepts(x, y, now); x'.m.Valid() && (Stranded(x') <==> Stranded(x))
  {
    AcceptOutline(x, y, now);
    AcceptKeepsPair(x, y, now);
    StrandedAlike(x, Accepts(x, y, now), y);
  }

  /** A short end becomes stranded by answering first, stays so, and becomes so in no other way. */
  lemma ShortStep(x: Endpoint, y: Endpoint, act: Action)
    requires Pair(x, y) && Honest(act) && !(act.Accept? && Interrupts(x, y)) && !Ample(x)
    ensures var x' := Act(x, y, act);
            x'.m.Valid() && (Stranded(x') <==> Stranded(x) || (act.Protect? && x.section.Planned? && OwesFirst(x)))
  {
    match act
    case SendApplication(size) =>
    case PlanClose => PlanStrandsNot(x, y);
    case PlanOwed => PlanStrandsNot(x, y);
    case Protect(_) => ProtectStrands(x, y);
    case Note(now) => NoteKeepsPair(x, y, now);
    case Accept(now) => AcceptStrandsNot(x, y, now);
  }

  lemma ShortNext(s: System, move: Move, w: Who)
    requires Sound(s) && Agreeable(s) && Honest(move.act) && !InterruptsBy(s, move, By(move)) && !Ample(Own(s, w))
    ensures Own(Next(s, move), w).m.Valid() && Own(s, w).m.Valid()
    ensures Stranded(Own(Next(s, move), w)) <==> Stranded(Own(s, w)) || AcksFirst(s, move, w)
  {
    NextMoves(s, move, w);
    SystemIsPair(s, w);
    if By(move) == w {
      ShortStep(Own(s, w), Peer(s, w), move.act);
    }
  }

  ghost predicate IsStranded(s: System, w: Who)
    requires Sound(s)
  {
    EndPlays(s, w);
    Stranded(Own(s, w))
  }

  lemma ShortLast(s: System, moves: seq<Move>, w: Who)
    requires Sound(s) && moves != [] && Agreeable(ButLast(s, moves)) && Honest(moves[|moves| - 1].act)
    requires Uninterrupted(s, moves) && !Ample(Own(ButLast(s, moves), w))
    ensures IsStranded(Play(s, moves), w)
            <==> IsStranded(ButLast(s, moves), w) || AcksFirst(ButLast(s, moves), moves[|moves| - 1], w)
  {
    UninterruptedLast(s, moves);
    ShortNext(ButLast(s, moves), moves[|moves| - 1], w);
  }

  lemma {:induction false} ShortRun(s: System, moves: seq<Move>, w: Who)
    requires Sound(s) && Agreeable(s) && Undisturbed(s, moves) && !Ample(Own(s, w)) && !IsStranded(s, w)
    ensures IsStranded(Play(s, moves), w) <==> AckedFirst(s, moves, w)
    decreases |moves|
  {
    if moves != [] {
      var before := moves[..|moves| - 1];
      UninterruptedLast(s, moves);
      ShortRun(s, before, w);
      HonestRun(s, before);
      ShortLast(s, moves, w);
    }
  }

  /** Short of the reserve, and first to answer. */
  ghost predicate SpentEarly(s: System, moves: seq<Move>, w: Who)
    requires Sound(s)
  {
    !Ample(Own(s, w)) && AckedFirst(s, moves, w)
  }

  lemma SettledSystem(s: System, w: Who)
    requires Sound(s) && Agreeable(s) && Settled(s)
    ensures var x := Own(s, w); if x.m.state.Ended? then GaveUp(x) && !Ample(x) else CleanlyDone(x)
  {
    SystemIsPair(s, w);
    PairIsMatched(Own(s, w), Peer(s, w));
    SettledEnd(Own(s, w), Peer(s, w));
  }

  /** How an end of an undisturbed run ends. */
  ghost predicate EndsAs(s: System, moves: seq<Move>, w: Who)
    requires Sound(s)
  {
    var x := Own(Play(s, moves), w);
    if SpentEarly(s, moves, w) then x.m.state.Ended? && x.m.verdict == Some(UncleanAbrupt) else CleanlyDone(x)
  }

  lemma EndOutcome(s: System, moves: seq<Move>, w: Who)
    requires Sound(s) && Agreeable(s) && Undisturbed(s, moves) && !IsStranded(s, w) && Settled(Play(s, moves))
    ensures EndsAs(s, moves, w)
  {
    HonestRun(s, moves);
    SettledSystem(Play(s, moves), w);
    if !Ample(Own(s, w)) { ShortRun(s, moves, w); }
  }

  lemma StartNotStranded(l: Limits, binding: nat, clientStart: Direction, nodeStart: Direction, w: Who)
    requires l.Valid() && clientStart.Live(l) && nodeStart.Live(l)
    ensures !IsStranded(Start(l, binding, clientStart, nodeStart), w)
  {}

  /** The settled end of an undisturbed run: which end is clean, and that two clean ends took one branch. */
  lemma UndisturbedOutcome(l: Limits, binding: nat, clientStart: Direction, nodeStart: Direction, moves: seq<Move>)
    requires l.Valid() && HasRoom(l, clientStart) && HasRoom(l, nodeStart)
    requires Undisturbed(Start(l, binding, clientStart, nodeStart), moves)
    requires Settled(Play(Start(l, binding, clientStart, nodeStart), moves))
    ensures var s0 := Start(l, binding, clientStart, nodeStart);
            && EndsAs(s0, moves, TheClient) && EndsAs(s0, moves, TheNode)
            && (BothClean(Play(s0, moves)) ==> SameBranch(Play(s0, moves)))
  {
    StartIsAgreeable(l, binding, clientStart, nodeStart);
    var s0 := Start(l, binding, clientStart, nodeStart);
    HonestRun(s0, moves);
    StartNotStranded(l, binding, clientStart, nodeStart, TheClient);
    StartNotStranded(l, binding, clientStart, nodeStart, TheNode);
    EndOutcome(s0, moves, TheClient);
    EndOutcome(s0, moves, TheNode);
    if BothClean(Play(s0, moves)) { CleanBranches(Play(s0, moves)); }
  }

  lemma CleanBranches(s: System)
    requires Sound(s) && Agreeable(s) && BothClean(s) && Settled(s)
    ensures SameBranch(s)
  {
    SystemIsPair(s, TheClient);
    PairIsMatched(s.client, s.node);
    SettledBranches(s.client, s.node);
  }

  lemma HonestIsNotRefused(moves: seq<Move>)
    requires AllHonest(moves)
    ensures NoRefusal(moves, TheClient) && NoRefusal(moves, TheNode)
  {}

  /**
   How an honest close ends, from any starts with room for the two close records,
   whatever the interleaving. Once it has settled, both ends are clean if and only if
   neither took the peer's close record between building its own first and committing
   it, and neither, short of the whole reserve, answered a simultaneous close before it
   had the peer's answer. An interrupted end is never clean; without an interruption a
   short end that answered first has spent its direction, cannot take the peer's answer
   and is abrupt, and every other end is clean. Two clean ends took the same branch.
   */
  lemma CloseOutcome(l: Limits, binding: nat, clientStart: Direction, nodeStart: Direction, moves: seq<Move>, w: Who)
    requires l.Valid() && HasRoom(l, clientStart) && HasRoom(l, nodeStart) && AllHonest(moves)
    ensures var s0 := Start(l, binding, clientStart, nodeStart);
            var s := Play(s0, moves);
            Settled(s) ==>
              && (BothClean(s) <==>
                    Uninterrupted(s0, moves) && !SpentEarly(s0, moves, TheClient) && !SpentEarly(s0, moves, TheNode))
              && (Interrupted(s0, moves, w) ==> Own(s, w).m.verdict != Some(Clean))
              && (Uninterrupted(s0, moves) ==>
                    Own(s, w).m.verdict == Some(if SpentEarly(s0, moves, w) then UncleanAbrupt else Clean))
              && (BothClean(s) ==> SameBranch(s))
  {
    var s0 := Start(l, binding, clientStart, nodeStart);
    HonestIsNotRefused(moves);
    if Settled(Play(s0, moves)) {
      if Uninterrupted(s0, moves) {
        UndisturbedOutcome(l, binding, clientStart, nodeStart, moves);
      } else {
        var v :| Interrupted(s0, moves, v);
        InterruptedNeverCompletes(l, binding, clientStart, nodeStart, moves, v);
        if Interrupted(s0, moves, w) { InterruptedNeverCompletes(l, binding, clientStart, nodeStart, moves, w); }
      }
    }
  }

  /** A synchronised pair: both directions coherent and holding the reserve. */
  predicate Synchronised(l: Limits, clientStart: Direction, nodeStart: Direction) {
    && l.Valid()
    && clientStart.Live(l) && clientStart.Coherent() && HasCapacity(l, clientStart, RESERVE)
    && nodeStart.Live(l) && nodeStart.Coherent() && HasCapacity(l, nodeStart, RESERVE)
  }

  /** Under the protocol's constants a new channel is such a pair. */
  lemma FreshPairIsSynchronised()
    ensures Synchronised(PROTOCOL_LIMITS, START, START)
  {
    var l := PROTOCOL_LIMITS;
    assert Capacity(l, 0, 3, 145, RESERVE[3..]) && Capacity(l, 0, 2, 128, RESERVE[2..]) && Capacity(l, 0, 1, 64, RESERVE[1..]);
  }

  lemma SynchronisedHasRoom(l: Limits, clientStart: Direction, nodeStart: Direction)
    requires Synchronised(l, clientStart, nodeStart)
    ensures HasRoom(l, clientStart) && HasRoom(l, nodeStart)
  {
    assert RESERVE[0..] == RESERVE && CLOSES[0..] == CLOSES;
    ReserveHoldsCloses(l, clientStart, 0);
    ReserveHoldsCloses(l, nodeStart, 0);
  }

  /**
   Close agreement: from any synchronised pair, however the honest steps of the two
   ends interleave, once nothing is in flight, owed or under way after a close began,
   both verdicts are clean exactly if no end took the peer's close record between
   building its own first close record and committing it; and then both ends took the
   same branch.
   */
  lemma CloseAgreement(l: Limits, binding: nat, clientStart: Direction, nodeStart: Direction, moves: seq<Move>)
    requires Synchronised(l, clientStart, nodeStart) && AllHonest(moves)
    ensures var s0 := Start(l, binding, clientStart, nodeStart);
            var s := Play(s0, moves);
            Settled(s) ==> (BothClean(s) <==> Uninterrupted(s0, moves)) && (BothClean(s) ==> SameBranch(s))
  {
    SynchronisedHasRoom(l, clientStart, nodeStart);
    StartIsAgreeable(l, binding, clientStart, nodeStart);
    CloseOutcome(l, binding, clientStart, nodeStart, moves, TheClient);
  }

  // ------------------------------------------------------------------ two short ends

  predicate FinishedSimultaneous(x: Endpoint)
    requires x.m.Valid()
  {
    Noted(x).m.state.Complete? && Noted(x).m.branch == Some(Simultaneous)
  }

  /** With the peer finished an end has nothing left to send. */
  lemma FinishedHeardBoth(x: Endpoint, y: Endpoint)
    requires Pair(x, y) && FinishedSimultaneous(y)
    ensures x.closes == 2
  {
    PairIsMatched(x, y);
  }

  lemma FinishedSentBoth(x: Endpoint, y: Endpoint)
    requires Pair(x, y) && FinishedSimultaneous(x)
    ensures x.closes == 2
  {
    PairIsMatched(x, y);
  }

  lemma ProtectFinishesNot(x: Endpoint, y: Endpoint)
    requires Pair(x, y) && FinishedSimultaneous(y)
    ensures var x' := Protects(x, Admitted); x'.m.Valid() && (FinishedSimultaneous(x') ==> FinishedSimultaneous(x))
  {
    FinishedHeardBoth(x, y);
    if x.section.Planned? {
      ProtectKeepsPair(x, y);
      assert Pair(Protects(x, Admitted), y);
      PairSides(x, y);
      PairIsMatched(Protects(x, Admitted), y);
    }
  }

  lemma FinishedAlike(x: Endpoint, x': Endpoint, y: Endpoint)
    requires Pair(x, y) && Pair(x', y) && !Ample(x) && AcceptShows(x, x', y)
    ensures x.m.Valid() && x'.m.Valid() && (FinishedSimultaneous(x') ==> FinishedSimultaneous(x))
  {
    PairSides(x, y);
    PairSides(x', y);
    if x' != x && FinishedSimultaneous(x') {
      FinishedSentBoth(x', y);
      ShortSpent(x, y);
      EndedNotes(x');
    }
  }

  lemma AcceptFinishesNot(x: Endpoint, y: Endpoint, now: nat)
    requires Pair(x, y) && !Interrupts(x, y) && !Ample(x)
    ensures var x' := Accepts(x, y, now); x'.m.Valid() && (FinishedSimultaneous(x') ==> FinishedSimultaneous(x))
  {
    AcceptOutline(x, y, now);
    AcceptKeepsPair(x, y, now);
    FinishedAlike(x, Accepts(x, y, now), y);
  }

  lemma PlanFinishesNot(x: Endpoint, y: Endpoint)
    requires Pair(x, y)
    ensures PlansClose(x, y).m.Valid() && (FinishedSimultaneous(PlansClose(x, y)) <==> FinishedSimultaneous(x))
    ensures PlansOwed(x, y).m.Valid() && (FinishedSimultaneous(PlansOwed(x, y)) <==> FinishedSimultaneous(x))
  {
    PlanCloseKeepsPair(x, y);
    PlanOwedKeepsPair(x, y);
  }

  /** A short end that completes a simultaneous close has the peer's answer, so the peer answered first. */
  lemma ShortFinishes(x: Endpoint, y: Endpoint, act: Action)
    requires Pair(x, y) && Honest(act) && !(act.Accept? && Interrupts(x, y)) && !Ample(x) && FinishedSimultaneous(y)
    ensures var x' := Act(x, y, act); x'.m.Valid() && (FinishedSimultaneous(x') ==> FinishedSimultaneous(x))
  {
    match act
    case SendApplication(size) =>
    case PlanClose => PlanFinishesNot(x, y);
    case PlanOwed => PlanFinishesNot(x, y);
    case Protect(_) => ProtectFinishesNot(x, y);
    case Note(now) => NoteKeepsPair(x, y, now);
    case Accept(now) => AcceptFinishesNot(x, y, now);
  }

  ghost predicate BothFinished(s: System) {
    forall w {:trigger Own(s, w)} :: Own(s, w).m.Valid() && FinishedSimultaneous(Own(s, w))
  }

  lemma NotBothNext(s: System, move: Move)
    requires Sound(s) && Agreeable(s) && Honest(move.act) && !InterruptsBy(s, move, By(move))
    requires !Ample(s.client) && !Ample(s.node) && !BothFinished(s)
    ensures !BothFinished(Next(s, move))
  {
    var w, s' := By(move), Next(s, move);
    SystemIsPair(s, w);
    NextMoves(s, move, w);
    NextMoves(s, move, Other(w));
    if BothFinished(s') {
      assert Own(s', w).m.Valid() && FinishedSimultaneous(Own(s', w));
      assert Own(s', Other(w)) == Peer(s, w) && FinishedSimultaneous(Peer(s, w));
      ShortFinishes(Own(s, w), Peer(s, w), move.act);
    }
  }

  lemma NotBothLast(s: System, moves: seq<Move>)
    requires Sound(s) && moves != [] && Agreeable(ButLast(s, moves)) && Honest(moves[|moves| - 1].act) && Uninterrupted(s, moves)
    requires !Ample(ButLast(s, moves).client) && !Ample(ButLast(s, moves).node) && !BothFinished(ButLast(s, moves))
    ensures !BothFinished(Play(s, moves))
  {
    UninterruptedLast(s, moves);
    NotBothNext(ButLast(s, moves), moves[|moves| - 1]);
  }

  lemma {:induction false} NotBothFinish(s: System, moves: seq<Move>)
    requires Sound(s) && Agreeable(s) && Undisturbed(s, moves) && !Ample(s.client) && !Ample(s.node) && !BothFinished(s)
    ensures !BothFinished(Play(s, moves))
    decreases |moves|
  {
    if moves != [] {
      var before := moves[..|moves| - 1];
      UninterruptedLast(s, moves);
      NotBothFinish(s, before);
      HonestRun(s, before);
      NotBothLast(s, moves);
    }
  }

  /** If one end gave up, the close was simultaneous for the other as well. */
  lemma GivenUpOnSimultaneous(x: Endpoint, y: Endpoint)
    requires Half(x, y) && Half(y, x) && x.m.state.Ended? && CleanlyDone(y)
    ensures y.m.branch == Some(Simultaneous)
  {}

  lemma ShortPairSettles(s: System)
    requires Sound(s) && Agreeable(s) && Settled(s) && !BothFinished(s)
    ensures BothClean(s) <==> s.client.m.branch != Some(Simultaneous)
  {
    SettledSystem(s, TheClient);
    SettledSystem(s, TheNode);
    SystemIsPair(s, TheClient);
    PairIsMatched(s.client, s.node);
    if BothClean(s) {
      SettledBranches(s.client, s.node);
    } else if !s.client.m.state.Ended? {
      GivenUpOnSimultaneous(s.node, s.client);
    }
  }

  /** With both ends short and neither interrupted a simultaneous close is never clean on both, and any other is. */
  lemma ShortPairsOutcome(l: Limits, binding: nat, clientStart: Direction, nodeStart: Direction, moves: seq<Move>)
    requires l.Valid() && HasRoom(l, clientStart) && HasRoom(l, nodeStart)
    requires !HasCapacity(l, clientStart, RESERVE) && !HasCapacity(l, nodeStart, RESERVE)
    requires Undisturbed(Start(l, binding, clientStart, nodeStart), moves)
    ensures var s := Play(Start(l, binding, clientStart, nodeStart), moves);
            Settled(s) ==> (BothClean(s) <==> s.client.m.branch != Some(Simultaneous))
  {
    StartIsAgreeable(l, binding, clientStart, nodeStart);
    var s0 := Start(l, binding, clientStart, nodeStart);
    assert !FinishedSimultaneous(Own(s0, TheClient));
    NotBothFinish(s0, moves);
    HonestRun(s0, moves);
    if Settled(Play(s0, moves)) { ShortPairSettles(Play(s0, moves)); }
  }

  /** Giving up is final: an end with its direction spent and the exchange not complete is never clean, whatever comes after. */
  lemma {:induction false} SpentDirectionCannotFinish(x: Endpoint, y: Endpoint, now: nat, later: seq<Event>)
    requires CanPlay(x, y) && !x.m.state.Ended? && !x.m.completed && x.out.Stands().exhausted && x.got < |y.out.sent|
    ensures var x' := Accepts(x, y, now);
            && x'.m.Valid() && x'.m.state.Ended? && !x'.m.completed
            && Run(x'.m, later).verdict != Some(Clean)
  {
    ChannelEndKeeps(x.m, false);
    RunPersists(Accepts(x, y, now).m, later);
  }

  // --------------------------------------------------------------------- anchors

  /** After its first close record an endpoint adds no application records. */
  lemma NoApplicationAfterClose(x: Endpoint, size: nat)
    requires x.closes > 0
    ensures SendsApplication(x, size) == x
  {}

  /** Every ack in flight or accepted declares exactly the anchor it will be compared with. */
  lemma AckDeclaresAnchor(x: Endpoint, y: Endpoint, i: nat)
    requires Half(x, y) && Half(y, x) && Shaped(x)
    requires i < |x.out.sent| && x.out.sent[i].content.CloseMachineContent? && x.out.sent[i].content.ack
    ensures WellMade(x, y, i, true) && y.closes > 0
    ensures x.out.sent[i].content.body.expectedRecv == y.m.anchor.position == y.out.At(y.FirstClose() + 1)
  {
    assert i == x.FirstClose() || i == x.FirstClose() + 1;
  }

  /**
   Why the ack is compared with the anchor and not with the current next-send: once
   an endpoint has sent its second close record its next-send is past the anchor,
   so that comparison would refuse every honest ack.
   */
  lemma NextSendIsPastAnchor(x: Endpoint, y: Endpoint, i: nat)
    requires Matched(x, y) && x.closes == 2 && !x.out.Stands().exhausted
    requires i < |y.out.sent| && y.out.sent[i].content.CloseMachineContent? && y.out.sent[i].content.ack
    ensures x.m.anchor.FrozenAt? && x.m.anchor.position.Before(x.out.Stands().At())
    ensures var w := y.out.sent[i];
            var nextSend := x.out.Stands().At();
            && Validate(true, w.content.body, w.at, y.m.ch.binding, y.m.ch.side, nextSend, Some(x.m.anchor.position)).None?
            && Validate(true, w.content.body, w.at, y.m.ch.binding, y.m.ch.side, nextSend, Some(nextSend)) == Some(StrictRule)
  {
    AckDeclaresAnchor(y, x, i);
    AtMonotone(x.out, x.FirstClose() + 1, |x.out.sent|);
  }
}
