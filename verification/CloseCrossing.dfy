/**
 What happens when an end takes the peer's close between building its own and
 committing it. The commit throws and the record is on the wire all the same, so the
 anchor is fixed one record too late and no ack an honest peer sends can equal it: the
 end never completes, whatever follows, unless its record was refused after all.
 */
module CloseCrossing {
  import opened Prelude
  import opened RecordSequence
  import opened RecordSession
  import opened CloseRules
  import opened CloseProtocol

  // ----------------------------------------------------------------- interruption

  /**
   The next record is the peer's close, or its answer, and the own first close record
   is built and not yet committed.
   */
  predicate Interrupts(x: Endpoint, y: Endpoint) {
    && !x.section.Idle? && x.m.recordsSent == 0 && !x.m.state.Ended?
    && x.got < |y.out.sent| && y.out.sent[x.got].content.CloseMachineContent?
  }

  predicate InterruptsBy(s: System, move: Move, w: Who) {
    By(move) == w && move.act.Accept? && Interrupts(Own(s, w), Peer(s, w))
  }

  /** At some move of the run the end took the peer's close record in between. */
  ghost predicate Interrupted(s: System, moves: seq<Move>, w: Who)
    requires Sound(s)
    decreases |moves|
  {
    moves != []
    && var before := moves[..|moves| - 1];
       Interrupted(s, before, w) || InterruptsBy(Play(s, before), moves[|moves| - 1], w)
  }

  /** The end was never refused admission for a close record. */
  predicate NoRefusal(moves: seq<Move>, w: Who) {
    forall i :: 0 <= i < |moves| && By(moves[i]) == w ==> moves[i].act != Protect(Refused)
  }

  // -------------------------------------------------------------------- invariant

  predicate IsOwnClose(m: Machine, r: CloseRecord) { r.purpose.InitialClose? && !r.ack && m.pending == Some(r) }

  /** An end in its application phase has no close record on the log but the one it is about to commit. */
  predicate OpenOk(x: Endpoint) {
    x.m.state.Open? ==>
      match x.section
      case Idle => x.closes == 0
      case Planned(r) => x.closes == 0 && IsOwnClose(x.m, r)
      case OnWire(r) => x.closes == 1 && IsOwnClose(x.m, r)
  }

  /** An end past the peer's application records knows it. */
  predicate KnowsClose(x: Endpoint, y: Endpoint) {
    x.got > y.FirstClose() ==> x.m.peerClose || x.m.peerAck || x.m.state.Ended?
  }

  /** The first close-machine record is a close. */
  ghost predicate OpensWithClose(x: Endpoint) {
    && x.closes > 0 && Shaped(x)
    && var c := x.out.sent[x.FirstClose()].content; c.CloseMachineContent? && !c.ack
  }

  /** Where the first close-machine record left the direction. */
  function AfterFirst(x: Endpoint): Position
    requires 0 <= x.FirstClose() < |x.out.sent|
  {
    x.out.At(x.FirstClose() + 1)
  }

  /** Nothing the end declares about a direction that opened with a close lies past that close. */
  ghost predicate Bounded(y: Endpoint, x: Endpoint) {
    OpensWithClose(x) ==>
      && DeclaresUpTo(y.out, AfterFirst(x)) && MayDeclare(y.m.ackDue, y.section, AfterFirst(x))
      && !y.m.state.ConfirmationDue?
  }

  ghost predicate Traced(x: Endpoint, y: Endpoint) { OpenOk(x) && KnowsClose(x, y) && Bounded(x, y) }

  /** The log and what it is made of are as they were. */
  predicate LogStays(x: Endpoint, x': Endpoint) {
    x'.out == x.out && x'.closes == x.closes && x'.m.errorSent == x.m.errorSent
  }

  lemma LogStaysTraced(x: Endpoint, x': Endpoint, y: Endpoint)
    requires Traced(y, x) && LogStays(x, x')
    ensures Traced(y, x')
  {}

  /** A machine that ended, or that only has another record built, and a section with nothing new to declare. */
  predicate QuietStep(x: Endpoint, x': Endpoint) {
    && LogStays(x, x') && x'.got == x.got
    && (x'.section == x.section || x'.section.Idle?)
    && (x'.m.ackDue == x.m.ackDue || !x'.m.ackDue.Declares?)
    && x'.m.peerClose == x.m.peerClose && x'.m.peerAck == x.m.peerAck
    && (x.m.state.Ended? ==> x'.m.state.Ended?)
    && !x'.m.state.Open? && (x'.m.state.ConfirmationDue? ==> x.m.state.ConfirmationDue?)
  }

  lemma QuietTraced(x: Endpoint, x': Endpoint, y: Endpoint)
    requires Traced(x, y) && QuietStep(x, x')
    ensures Traced(x', y)
  {}

  // --------------------------------------------------------------------- planning

  lemma PlanCloseTraced(x: Endpoint, y: Endpoint)
    requires Fits(x, y) && Fits(y, x) && Traced(x, y)
    ensures Traced(PlansClose(x, y), y) && LogStays(x, PlansClose(x, y))
  {
    if x.section.Idle? && x.m.state.Open? {
      var expected := ExpectedRecv(x, y);
      if expected.Some? && !x.out.Stands().exhausted {
        var built := BuildClose(x.m, x.out.Stands().At(), expected.value);
        if built.Some? { CloseBuiltTraced(x, y, built.value.0, built.value.1); }
      }
    }
  }

  /** A close built in the application phase declares no more than the peer's first close record leaves behind. */
  lemma CloseBuiltTraced(x: Endpoint, y: Endpoint, m: Machine, r: CloseRecord)
    requires Fits(x, y) && Fits(y, x) && Traced(x, y) && x.section.Idle? && x.m.state.Open?
    requires m == x.m.(pending := Some(r)) && IsOwnClose(m, r)
    requires r.body.CloseBody? && r.body.expectedRecv == y.out.At(x.got)
    ensures Traced(x.(m := m, section := Planned(r)), y)
  {
    if OpensWithClose(y) {
      AtMonotone(y.out, x.got, y.FirstClose() + 1);
    }
  }

  lemma OwedNotOpen(x: Endpoint, y: Endpoint)
    requires x.m.Valid() && CanPlay(x, y) && x.m.Owes().Some? && Traced(x, y)
    ensures Traced(PlansOwed(x, y), y) && LogStays(x, PlansOwed(x, y))
  {}

  lemma PlanOwedTraced(x: Endpoint, y: Endpoint)
    requires CanPlay(x, y) && Traced(x, y)
    ensures Traced(PlansOwed(x, y), y) && LogStays(x, PlansOwed(x, y))
  {
    if x.m.Owes().Some? { OwedNotOpen(x, y); }
  }

  // -------------------------------------------------------------------- appending

  lemma DeclaresFurther(t: Track, due: AckDue, section: Section, limit: Position, further: Position)
    requires DeclaresUpTo(t, limit) && MayDeclare(due, section, limit) && !further.Before(limit)
    ensures DeclaresUpTo(t, further) && MayDeclare(due, section, further)
  {}

  lemma AppendOpens(x: Endpoint, x': Endpoint, size: nat, content: Content)
    requires Shaped(x) && Appends(x, x', size, content)
    ensures Shaped(x') && x'.FirstClose() == x.FirstClose() + (if content.App? then 1 else 0)
    ensures x.closes > 0 ==> OpensWithClose(x') == OpensWithClose(x) && AfterFirst(x') == AfterFirst(x)
    ensures x.closes == 0 && OpensWithClose(x') ==> content.CloseMachineContent? && x'.FirstClose() == |x.out.sent|
  {
    AppendsShaped(x, x', size, content);
    WithExtends(x.out, size, content);
    if x.closes > 0 { assert x'.out.sent[x.FirstClose()] == x.out.sent[x.FirstClose()]; }
  }

  lemma NotConfirming(y: Endpoint, x: Endpoint)
    requires y.m.Valid() && Against(y, x) && x.closes == 0
    ensures !y.m.state.ConfirmationDue?
  {}

  /** The first close-machine record goes past everything its peer can have declared. */
  lemma FirstBounds(x: Endpoint, x': Endpoint, y: Endpoint, size: nat, content: Content)
    requires Fits(x, y) && Fits(y, x) && x'.out == x.out.With(size, content) && x.closes == 0 && !x.out.Stands().exhausted
    requires x'.FirstClose() == |x.out.sent|
    ensures Bounded(y, x')
  {
    WithExtends(x.out, size, content);
    WithValid(x.out, size, content);
    assert x'.out.At(y.got) == x.out.At(y.got);
    AtMonotone(x'.out, y.got, |x'.out.sent|);
    DeclaresFurther(y.out, y.m.ackDue, y.section, x.out.At(y.got), x'.out.At(|x'.out.sent|));
    NotConfirming(y, x);
  }

  lemma BoundedStill(y: Endpoint, x: Endpoint, x': Endpoint)
    requires Bounded(y, x) && x.closes > 0 && Shaped(x)
    requires OpensWithClose(x') == OpensWithClose(x) && (OpensWithClose(x') ==> AfterFirst(x') == AfterFirst(x))
    ensures Bounded(y, x')
  {}

  /** A record more on x's log: what y declares stays within it. */
  lemma AppendTraced(x: Endpoint, x': Endpoint, y: Endpoint, size: nat, content: Content)
    requires Fits(x, y) && Fits(y, x) && Traced(y, x) && Appends(x, x', size, content) && !x.out.Stands().exhausted
    ensures Traced(y, x')
  {
    AppendOpens(x, x', size, content);
    if x.closes > 0 {
      BoundedStill(y, x, x');
    } else if OpensWithClose(x') {
      FirstBounds(x, x', y, size, content);
    }
  }

  /** The declaring side of an appended record: it declares what the section was to declare. */
  lemma AppenderBounded(x: Endpoint, x': Endpoint, y: Endpoint, size: nat, content: Content)
    requires Bounded(x, y) && x'.out == x.out.With(size, content) && !x'.section.Planned?
    requires content.CloseMachineContent? ==> x.section.Planned? && content.body == x.section.record.body && content.body.CloseBody?
    requires (x'.m.ackDue == x.m.ackDue || !x'.m.ackDue.Declares?) && (x'.m.state.ConfirmationDue? ==> x.m.state.ConfirmationDue?)
    ensures Bounded(x', y)
  {
    if OpensWithClose(y) {
      var limit := AfterFirst(y);
      forall i | 0 <= i < |x'.out.sent| && x'.out.sent[i].content.CloseMachineContent?
        ensures x'.out.sent[i].content.body.CloseBody? && !limit.Before(x'.out.sent[i].content.body.expectedRecv)
      {
        if i < |x.out.sent| { assert x'.out.sent[i] == x.out.sent[i]; }
      }
    }
  }

  lemma PutTraced(x: Endpoint, x': Endpoint, y: Endpoint)
    requires Fits(x, y) && Fits(y, x) && Traced(x, y) && Traced(y, x) && x.section.Planned?
    requires x' == Put(x, x.section.record).(section := OnWire(x.section.record))
             || x' == Put(x, x.section.record).(section := Idle, m := NoteChannelEnded(x.m, false))
    ensures Traced(x', y) && Traced(y, x')
  {
    var r := x.section.record;
    AppendTraced(x, x', y, CLOSE_RECORD_BYTES, CloseMachineContent(r.ack, r.body));
    AppenderBounded(x, x', y, CLOSE_RECORD_BYTES, CloseMachineContent(r.ack, r.body));
  }

  lemma UnsentTraced(x: Endpoint, y: Endpoint)
    requires Traced(x, y) && Traced(y, x) && x.section.Planned?
    ensures Traced(x.(section := Idle), y) && Traced(y, x.(section := Idle))
    ensures var x' := x.(section := Idle, m := NoteChannelEnded(x.m, false)); Traced(x', y) && Traced(y, x')
  {
    var x' := x.(section := Idle, m := NoteChannelEnded(x.m, false));
    LogStaysTraced(x, x.(section := Idle), y);
    LogStaysTraced(x, x', y);
    QuietTraced(x, x', y);
  }

  lemma ProtectTraced(x: Endpoint, y: Endpoint, sending: Sending)
    requires Fits(x, y) && Fits(y, x) && Traced(x, y) && Traced(y, x)
    ensures Traced(Protects(x, sending), y) && Traced(y, Protects(x, sending))
  {
    if x.section.Planned? {
      UnsentTraced(x, y);
      if HasCapacity(x.out.l, x.out.Stands(), [CLOSE_RECORD_BYTES]) && (sending.Admitted? || sending.Doubtful?) {
        PutTraced(x, Protects(x, sending), y);
      }
    }
  }

  lemma ApplicationTraced(x: Endpoint, y: Endpoint, size: nat)
    requires Fits(x, y) && Fits(y, x) && Traced(x, y) && Traced(y, x)
    ensures var x' := SendsApplication(x, size); Traced(x', y) && Traced(y, x')
  {
    var x' := SendsApplication(x, size);
    if x' != x {
      AppendTraced(x, x', y, size, App);
      AppenderBounded(x, x', y, size, App);
    }
  }

  lemma ErrorTraced(x: Endpoint, y: Endpoint, size: nat)
    requires Fits(x, y) && Fits(y, x) && Traced(x, y) && Traced(y, x)
    ensures var x' := SendsError(x, size); Traced(x', y) && Traced(y, x')
  {
    var x' := SendsError(x, size);
    if x' != x {
      AppendTraced(x, x', y, size, TerminalError);
      AppenderBounded(x, x', y, size, TerminalError);
    }
  }

  // ------------------------------------------------------------------- committing

  /** A commit leaves the application phase, and nothing more to declare than before. */
  lemma NotedQuiet(m: Machine, r: CloseRecord, at: Position, completed: bool, now: nat)
    requires m.Valid() && TransmittedOk(m, r, at)
    ensures var m' := NoteTransmitted(m, r, at, completed, now).value; !m'.state.Open? && !m'.state.ConfirmationDue? && !m'.state.Ended?
  {}

  lemma NoteTraced(x: Endpoint, y: Endpoint, now: nat)
    requires Fits(x, y) && Traced(x, y) && Traced(y, x)
    ensures Traced(Notes(x, now), y) && Traced(y, Notes(x, now)) && LogStays(x, Notes(x, now))
  {
    if x.section.OnWire? {
      var r, w, x' := x.section.record, Last(x.out), Notes(x, now);
      if TransmittedOk(x.m, r, w.at) {
        NotedQuiet(x.m, r, w.at, w.completes, now);
        NotedMachine(x.m, r, w.at, w.completes, now);
        LogStaysTraced(x, x', y);
        QuietTraced(x, x', y);
      } else {
        assert !x.m.state.Open?;
        LogStaysTraced(x, x', y);
      }
    }
  }

  // -------------------------------------------------------------------- accepting

  /** What taking a record makes of an end, as far as it is traced. */
  predicate Takes(x: Endpoint, m: Machine, y: Endpoint)
    requires x.got < |y.out.sent|
  {
    && m.errorSent == x.m.errorSent
    && match y.out.sent[x.got].content
       case App => m == x.m
       case TerminalError => m.state.Ended? && m.ackDue == x.m.ackDue
       case CloseMachineContent(ack, _) =>
         && (m.peerClose || m.peerAck) && !m.state.Open? && !x.m.state.Ended?
         && (m.ackDue == x.m.ackDue
             || (!ack && (x.m.state.Open? || x.m.state.AwaitingAck?)
                 && (m.ackDue.Declares? ==> m.ackDue.expectedRecv == y.out.At(x.got + 1))))
         && (m.state.ConfirmationDue? ==> ack && x.m.state.AwaitingAck?)
  }

  lemma CloseTaken(m: Machine, body: CloseBody, envelope: Position, completed: bool, nextSend: Position, now: nat)
    requires m.Valid()
    ensures var (m', outcome) := ReceiveClose(m, body, envelope, completed, nextSend, now);
            || outcome.FatalClose?
            || (m'.peerClose && (m'.state.CloseReceived? || m'.state.SimultaneousPending?) && (m.state.Open? || m.state.AwaitingAck?))
  {}

  lemma AckTaken(m: Machine, body: CloseBody, envelope: Position, nextSend: Position)
    requires m.Valid()
    ensures var (m', outcome) := ReceiveCloseAck(m, body, envelope, nextSend);
            || outcome.FatalClose?
            || (m'.peerAck && !m'.state.Open? && m'.ackDue == m.ackDue
                && (m'.state.ConfirmationDue? ==> m.state.AwaitingAck?))
  {}

  lemma AcceptTakes(x: Endpoint, y: Endpoint, now: nat)
    requires Fits(x, y) && Fits(y, x) && x.got < |y.out.sent| && !x.m.state.Ended?
    ensures var w := y.out.sent[x.got];
            var (m, outcome) := Receive(x.m, Inner(w), w.at, w.completes, x.out.Stands().At(), now);
            outcome.FatalClose? || Takes(x, m, y)
  {
    var w := y.out.sent[x.got];
    match w.content
    case App =>
    case TerminalError =>
    case CloseMachineContent(ack, body) =>
      AcceptLearns(x, y, now);
      if ack {
        AckTaken(x.m, body, w.at, x.out.Stands().At());
      } else {
        NextIsNext(y.out, x.got);
        CloseChanges(x.m, body, w.at, w.completes, x.out.Stands().At(), now);
        CloseTaken(x.m, body, w.at, w.completes, x.out.Stands().At(), now);
      }
  }

  /** An end still waiting for the peer's first close record has not gone past it. */
  lemma NotPast(x: Endpoint, y: Endpoint)
    requires x.m.Valid() && KnowsClose(x, y) && (x.m.state.Open? || x.m.state.AwaitingAck?)
    ensures x.got <= y.FirstClose()
  {}

  lemma TakesBounded(x: Endpoint, m: Machine, y: Endpoint)
    requires x.m.Valid() && Shaped(y) && Traced(x, y) && x.got < |y.out.sent| && !x.m.state.Ended? && Takes(x, m, y)
    ensures Bounded(x.(m := m, got := x.got + 1), y)
  {
    if OpensWithClose(y) && (x.m.state.Open? || x.m.state.AwaitingAck?) {
      NotPast(x, y);
    }
  }

  lemma TakesTraced(x: Endpoint, m: Machine, y: Endpoint)
    requires x.m.Valid() && Shaped(y) && Traced(x, y) && x.got < |y.out.sent| && !x.m.state.Ended? && Takes(x, m, y)
    ensures Traced(x.(m := m, got := x.got + 1), y)
  {
    TakesBounded(x, m, y);
  }

  /** However an end is ended. */
  lemma EndedTraced(x: Endpoint, y: Endpoint, m: Machine)
    requires Traced(x, y) && Traced(y, x)
    requires m.state.Ended? && m.errorSent == x.m.errorSent && m.ackDue == x.m.ackDue
    requires m.peerClose == x.m.peerClose && m.peerAck == x.m.peerAck
    ensures Traced(x.(m := m), y) && Traced(y, x.(m := m))
  {
    LogStaysTraced(x, x.(m := m), y);
    QuietTraced(x, x.(m := m), y);
  }

  lemma TakenTraced(x: Endpoint, y: Endpoint, m: Machine)
    requires x.m.Valid() && Shaped(y) && Traced(x, y) && Traced(y, x) && x.got < |y.out.sent| && !x.m.state.Ended? && Takes(x, m, y)
    ensures var x' := x.(m := m, got := x.got + 1); Traced(x', y) && Traced(y, x')
  {
    TakesTraced(x, m, y);
    LogStaysTraced(x, x.(m := m, got := x.got + 1), y);
  }

  lemma ReceiveTraced(x: Endpoint, y: Endpoint, now: nat)
    requires Fits(x, y) && Fits(y, x) && Traced(x, y) && Traced(y, x) && CanPlay(x, y)
    requires x.got < |y.out.sent| && !x.m.state.Ended? && !x.out.Stands().exhausted
    ensures Traced(Accepts(x, y, now), y) && Traced(y, Accepts(x, y, now))
  {
    var w := y.out.sent[x.got];
    var (m, outcome) := Receive(x.m, Inner(w), w.at, w.completes, x.out.Stands().At(), now);
    if outcome.FatalClose? {
      ReceiveFatalKeeps(x.m, Inner(w), w.at, w.completes, x.out.Stands().At(), now);
      EndedTraced(x, y, m);
    } else {
      AcceptTakes(x, y, now);
      TakenTraced(x, y, m);
    }
  }

  lemma AcceptTraced(x: Endpoint, y: Endpoint, now: nat)
    requires Fits(x, y) && Fits(y, x) && Traced(x, y) && Traced(y, x) && CanPlay(x, y)
    ensures Traced(Accepts(x, y, now), y) && Traced(y, Accepts(x, y, now))
  {
    if x.got >= |y.out.sent| || x.m.state.Ended? {
    } else if x.out.Stands().exhausted {
      EndedTraced(x, y, NoteChannelEnded(x.m, false));
    } else {
      ReceiveTraced(x, y, now);
    }
  }

  // ------------------------------------------------------------------------- steps

  ghost predicate TracedBoth(x: Endpoint, y: Endpoint) {
    forall w {:trigger Own(System(x, y), w)} :: Traced(Own(System(x, y), w), Peer(System(x, y), w))
  }

  lemma BothTraced(x: Endpoint, y: Endpoint)
    requires TracedBoth(x, y)
    ensures Traced(x, y) && Traced(y, x)
  {
    var s := System(x, y);
    assert Own(s, TheClient) == x && Own(s, TheNode) == y;
  }

  lemma TracedAll(x: Endpoint, y: Endpoint)
    requires Traced(x, y) && Traced(y, x)
    ensures TracedBoth(x, y)
  {}

  lemma ExpireTraced(x: Endpoint, y: Endpoint, now: nat)
    requires Traced(x, y) && Traced(y, x) && x.m.Valid()
    ensures var x' := x.(m := Apply(x.m, Expires(now))); Traced(x', y) && Traced(y, x')
  {
    if x.m.WaitExpired(now) { EndedTraced(x, y, EndWith(x.m, UncleanAbrupt)); }
  }

  lemma FailTraced(x: Endpoint, y: Endpoint, act: Action)
    requires Consistent(x, y) && Traced(x, y) && Traced(y, x) && (act.Expire? || act.EndChannel? || act.FailElsewhere?)
    ensures Traced(Act(x, y, act), y) && Traced(y, Act(x, y, act))
  {
    match act
    case Expire(now) => ExpireTraced(x, y, now);
    case EndChannel(incomplete) => EndedTraced(x, y, NoteChannelEnded(x.m, incomplete));
    case FailElsewhere => EndedTraced(x, y, NoteFatal(x.m));
  }

  lemma PlanTraced(x: Endpoint, y: Endpoint)
    requires Fits(x, y) && Fits(y, x) && Traced(x, y) && Traced(y, x) && CanPlay(x, y)
    ensures Traced(PlansClose(x, y), y) && Traced(y, PlansClose(x, y))
    ensures Traced(PlansOwed(x, y), y) && Traced(y, PlansOwed(x, y))
  {
    PlanCloseTraced(x, y);
    LogStaysTraced(x, PlansClose(x, y), y);
    PlanOwedTraced(x, y);
    LogStaysTraced(x, PlansOwed(x, y), y);
  }

  lemma ActTraced(x: Endpoint, y: Endpoint, act: Action)
    requires Consistent(x, y) && TracedBoth(x, y)
    ensures TracedBoth(Act(x, y, act), y)
  {
    BothFit(x, y);
    BothTraced(x, y);
    match act {
      case SendApplication(size) => ApplicationTraced(x, y, size);
      case PlanClose => PlanTraced(x, y);
      case PlanOwed => PlanTraced(x, y);
      case Protect(sending) => ProtectTraced(x, y, sending);
      case Note(now) => NoteTraced(x, y, now);
      case SendError(size) => ErrorTraced(x, y, size);
      case Accept(now) => AcceptTraced(x, y, now);
      case _ => FailTraced(x, y, act);
    }
    TracedAll(Act(x, y, act), y);
  }

  // -------------------------------------------------------------------------- lost

  /** The own close is on its way or on the log uncommitted, or the anchor lies past where it left the direction. */
  ghost predicate Stray(x: Endpoint) {
    if x.closes == 0 then
      x.section.Planned? && x.section.record.purpose.InitialClose? && !x.section.record.ack
    else
      && OpensWithClose(x)
      && (x.section.OnWire? && x.closes == 1 ==> x.section.record.purpose.InitialClose?)
      && (x.m.anchor.FrozenAt? ==> AfterFirst(x).Before(x.m.anchor.position))
  }

  /** The end is over without having completed, or no ack its peer can send will complete it. */
  ghost predicate Lost(x: Endpoint) {
    && !x.m.completed
    && (x.m.state.Ended?
        || ((x.m.state.CloseReceived? || x.m.state.AwaitingConfirmation?) && x.m.peerClose && Stray(x)))
  }

  lemma PutStray(x: Endpoint, x': Endpoint)
    requires OwnHalf(x) && Stray(x) && x.section.Planned?
    requires var r := x.section.record; Appends(x, x', CLOSE_RECORD_BYTES, CloseMachineContent(r.ack, r.body))
    requires x'.section == OnWire(x.section.record)
    ensures Stray(x')
  {
    AppendOpens(x, x', CLOSE_RECORD_BYTES, CloseMachineContent(x.section.record.ack, x.section.record.body));
    WithExtends(x.out, CLOSE_RECORD_BYTES, CloseMachineContent(x.section.record.ack, x.section.record.body));
  }

  lemma ProtectLost(x: Endpoint, y: Endpoint, sending: Sending)
    requires OwnHalf(x) && Lost(x) && !sending.Refused?
    ensures Lost(Protects(x, sending))
  {
    if x.section.Planned? && Protects(x, sending).section.OnWire? && !x.m.state.Ended? {
      PutStray(x, Protects(x, sending));
    }
  }

  lemma NotedAnswers(m: Machine, r: CloseRecord, at: Position, completed: bool, now: nat)
    requires m.Valid() && TransmittedOk(m, r, at) && (m.state.CloseReceived? || m.state.AwaitingConfirmation?)
    ensures var m' := NoteTransmitted(m, r, at, completed, now).value;
            && r.purpose.Acknowledgement? && m'.state.AwaitingConfirmation? && !m'.completed && m'.peerClose == m.peerClose
  {}

  /** The anchor a later record fixes lies past where the first left the direction. */
  lemma LaterAnchor(t: Track, first: nat)
    requires t.Valid() && first + 2 <= |t.sent|
    ensures var next := NextPosition(t.l, Last(t).at, Last(t).completes); next.Some? ==> t.At(first + 1).Before(next.value)
  {
    NextIsNext(t, |t.sent| - 1);
    if !t.Sched(|t.sent|).exhausted { AtMonotone(t, first + 1, |t.sent|); }
  }

  /** A commit that goes through is of a later record, and fixes the anchor past the first. */
  lemma NoteLost(x: Endpoint, now: nat)
    requires OwnHalf(x) && Lost(x)
    ensures Lost(Notes(x, now))
  {
    if x.section.OnWire? && TransmittedOk(x.m, x.section.record, Last(x.out).at) {
      var r, w := x.section.record, Last(x.out);
      assert !x.m.state.Ended?;
      NotedAnswers(x.m, r, w.at, w.completes, now);
      NotedMachine(x.m, r, w.at, w.completes, now);
      LaterAnchor(x.out, x.FirstClose());
    }
  }

  /** In these states every record is refused but an ack that equals the anchor. */
  lemma OnlyAnchorCompletes(m: Machine, r: Inbound, envelope: Position, completed: bool, nextSend: Position, now: nat)
    requires m.Valid() && !m.completed && m.peerClose && (m.state.CloseReceived? || m.state.AwaitingConfirmation?)
    requires m.anchor.FrozenAt? && r.CloseMachineRecord? && r.ack && r.body.CloseBody? ==> r.body.expectedRecv != m.anchor.position
    ensures var m' := Receive(m, r, envelope, completed, nextSend, now).0; m'.state.Ended? && !m'.completed
  {}

  /** Nothing its peer has declared, or can declare, completes the end. */
  lemma AcceptLost(x: Endpoint, y: Endpoint, now: nat)
    requires OwnHalf(x) && Traced(y, x) && Lost(x) && CanPlay(x, y)
    ensures Lost(Accepts(x, y, now))
  {
    if x.got < |y.out.sent| && !x.m.state.Ended? && !x.out.Stands().exhausted {
      var w := y.out.sent[x.got];
      OnlyAnchorCompletes(x.m, Inner(w), w.at, w.completes, x.out.Stands().At(), now);
    }
  }

  lemma PlanLost(x: Endpoint, y: Endpoint)
    requires OwnHalf(x) && CanPlay(x, y) && Lost(x)
    ensures Lost(PlansClose(x, y)) && Lost(PlansOwed(x, y))
  {}

  lemma SendLost(x: Endpoint, size: nat)
    requires Lost(x)
    ensures Lost(SendsApplication(x, size)) && Lost(SendsError(x, size))
  {}

  lemma FailLost(x: Endpoint, y: Endpoint, act: Action)
    requires CanPlay(x, y) && Lost(x) && (act.Expire? || act.EndChannel? || act.FailElsewhere?)
    ensures Lost(Act(x, y, act))
  {}

  lemma ActLost(x: Endpoint, y: Endpoint, act: Action)
    requires OwnHalf(x) && Traced(y, x) && CanPlay(x, y) && Lost(x) && act != Protect(Refused)
    ensures Lost(Act(x, y, act))
  {
    match act
    case SendApplication(size) => SendLost(x, size);
    case PlanClose => PlanLost(x, y);
    case PlanOwed => PlanLost(x, y);
    case Protect(sending) => ProtectLost(x, y, sending);
    case Note(now) => NoteLost(x, now);
    case SendError(size) => SendLost(x, size);
    case Accept(now) => AcceptLost(x, y, now);
    case _ => FailLost(x, y, act);
  }

  /** In these states every close-machine record is refused but a close in the application phase. */
  lemma OnlyCloseOpens(m: Machine, ack: bool, body: CloseBody, envelope: Position, completed: bool, nextSend: Position, now: nat)
    requires m.Valid() && m.recordsSent == 0 && !m.state.Ended?
    ensures var m' := Receive(m, CloseMachineRecord(ack, body), envelope, completed, nextSend, now).0;
            && !m'.completed && m'.anchor == m.anchor
            && (m'.state.Ended? || (m.state.Open? && m'.state.CloseReceived? && m'.peerClose))
  {}

  lemma OpenStrays(x: Endpoint)
    requires OwnHalf(x) && OpenOk(x) && x.m.state.Open? && !x.section.Idle?
    ensures Stray(x)
  {}

  /** Taking the peer's close record in between loses the exchange. */
  lemma InterruptLoses(x: Endpoint, y: Endpoint, now: nat)
    requires OwnHalf(x) && OpenOk(x) && CanPlay(x, y) && Interrupts(x, y)
    ensures Lost(Accepts(x, y, now))
  {
    if x.out.Stands().exhausted {
    } else {
      var w := y.out.sent[x.got];
      OnlyCloseOpens(x.m, w.content.ack, w.content.body, w.at, w.completes, x.out.Stands().At(), now);
      if x.m.state.Open? { OpenStrays(x); }
    }
  }

  // -------------------------------------------------------------------------- runs

  ghost predicate TracedSystem(s: System) { TracedBoth(s.client, s.node) }

  lemma TracedEnds(s: System, w: Who)
    requires TracedSystem(s)
    ensures TracedBoth(Own(s, w), Peer(s, w))
  {
    BothTraced(s.client, s.node);
    TracedAll(Own(s, w), Peer(s, w));
  }

  lemma TracedNext(s: System, move: Move)
    requires Sound(s) && TracedSystem(s)
    ensures TracedSystem(Next(s, move))
  {
    var x, y := Own(s, By(move)), Peer(s, By(move));
    TracedEnds(s, By(move));
    EndsConsistent(s, By(move));
    ActTraced(x, y, move.act);
    BothTraced(Act(x, y, move.act), y);
    TracedAll(Next(s, move).client, Next(s, move).node);
  }

  lemma {:induction false} TracedRun(s: System, moves: seq<Move>)
    requires Sound(s) && TracedSystem(s)
    ensures TracedSystem(Play(s, moves))
    decreases |moves|
  {
    if moves != [] {
      TracedRun(s, moves[..|moves| - 1]);
      TracedNext(Play(s, moves[..|moves| - 1]), moves[|moves| - 1]);
    }
  }

  lemma StartIsTraced(l: Limits, binding: nat, clientStart: Direction, nodeStart: Direction)
    requires l.Valid() && clientStart.Live(l) && nodeStart.Live(l)
    ensures TracedSystem(Start(l, binding, clientStart, nodeStart))
  {
    var s := Start(l, binding, clientStart, nodeStart);
    TracedAll(s.client, s.node);
  }

  lemma LostStep(x: Endpoint, y: Endpoint, act: Action)
    requires Consistent(x, y) && TracedBoth(x, y) && act != Protect(Refused) && Lost(x)
    ensures Lost(Act(x, y, act))
  {
    BothFit(x, y);
    BothTraced(x, y);
    ActLost(x, y, act);
  }

  lemma InterruptStep(x: Endpoint, y: Endpoint, act: Action)
    requires Consistent(x, y) && TracedBoth(x, y) && act.Accept? && Interrupts(x, y)
    ensures Lost(Act(x, y, act))
  {
    BothFit(x, y);
    BothTraced(x, y);
    InterruptLoses(x, y, act.now);
  }

  lemma LostNext(s: System, move: Move, w: Who)
    requires Sound(s) && TracedSystem(s) && (By(move) == w ==> move.act != Protect(Refused))
    requires Lost(Own(s, w)) || InterruptsBy(s, move, w)
    ensures Lost(Own(Next(s, move), w))
  {
    if By(move) == w {
      TracedEnds(s, w);
      EndsConsistent(s, w);
      if InterruptsBy(s, move, w) {
        InterruptStep(Own(s, w), Peer(s, w), move.act);
      } else {
        LostStep(Own(s, w), Peer(s, w), move.act);
      }
    }
  }

  lemma {:induction false} LostRun(s: System, moves: seq<Move>, w: Who)
    requires Sound(s) && TracedSystem(s) && NoRefusal(moves, w) && Interrupted(s, moves, w)
    ensures Lost(Own(Play(s, moves), w))
    decreases |moves|
  {
    var before := moves[..|moves| - 1];
    if Interrupted(s, before, w) { LostRun(s, before, w); }
    TracedRun(s, before);
    LostNext(Play(s, before), moves[|moves| - 1], w);
  }

  /**
   An end that took the peer's close record between building its own first close
   record and committing it never completes and is never clean, whatever else happens
   before and after - unless it was refused a record, which leaves no stray record.
   */
  lemma InterruptedNeverCompletes(l: Limits, binding: nat, clientStart: Direction, nodeStart: Direction, moves: seq<Move>, w: Who)
    requires l.Valid() && clientStart.Live(l) && nodeStart.Live(l) && NoRefusal(moves, w)
    requires Interrupted(Start(l, binding, clientStart, nodeStart), moves, w)
    ensures var m := Own(Play(Start(l, binding, clientStart, nodeStart), moves), w).m;
            !m.completed && m.verdict != Some(Clean)
  {
    var s0 := Start(l, binding, clientStart, nodeStart);
    StartIsTraced(l, binding, clientStart, nodeStart);
    LostRun(s0, moves, w);
    EndPlays(Play(s0, moves), w);
    NeverClean(Own(Play(s0, moves), w).m);
  }

  lemma NeverClean(m: Machine)
    requires m.Valid() && !m.completed
    ensures m.verdict != Some(Clean)
  {}
}