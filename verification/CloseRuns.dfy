/**
 Honest runs that show what the conditions of the outcome are for. From any starts with
 room for the close records an end can be interrupted, and the close then settles with
 that end not clean; from synchronised starts the other end can be clean all the same.
 And from every start with room for the close records and no more both outcomes of a
 simultaneous close happen: the order of two steps decides.
 */
module CloseRuns {
  import opened Prelude
  import opened RecordSequence
  import opened RecordSession
  import opened CloseRules
  import opened CloseProtocol
  import opened CloseCrossing
  import opened CloseAgreement
  import opened CloseSettles

  /** Everything the two ends may have to be served, once. */
  const ROUND: seq<Move> := [
    ByClient(Accept(0)), ByClient(PlanOwed), ByClient(Protect(Admitted)), ByClient(Note(0)),
    ByNode(Accept(0)), ByNode(PlanOwed), ByNode(Protect(Admitted)), ByNode(Note(0))]

  /** More fair stretches than the two directions can use. */
  function Enough(l: Limits, clientStart: Direction, nodeStart: Direction): (rounds: seq<seq<Move>>)
    ensures AllRounds(rounds) && |rounds| > Budget(l, clientStart, nodeStart)
  {
    var n := Budget(l, clientStart, nodeStart) + 1;
    RoundIsFair();
    seq(if n < 0 then 0 else n, _ => ROUND)
  }

  lemma RoundIsFair()
    ensures Round(ROUND)
  {
    forall w: Who, service: Service ensures Has(ROUND, w, service) {
      var i := (if w.TheClient? then 0 else 4)
               + match service case Delivery => 0 case OwedRecord => 1 case Sending => 2 case Commit => 3;
      assert By(ROUND[i]) == w && IsOf(ROUND[i].act, service);
    }
  }

  /** The start two records short of the end of the last epoch: room for the close records, and no reserve. */
  lemma ShortStart(l: Limits) returns (d: Direction)
    requires l.Valid() && l.rekeyRecords >= 2 && l.rekeyBytes > 2 * C
    ensures HasRoom(l, d) && !HasCapacity(l, d, RESERVE)
  {
    d := Direction(l.epochMax, l.rekeyRecords - 2, l.rekeyRecords - 2, 0, false);
    var k := d.records;
    assert Capacity(l, d.epoch, k + 2, 2 * C, CLOSES[1..][1..]) && Capacity(l, d.epoch, k + 1, C, CLOSES[1..]);
    assert RESERVE[1..][1..] != [] && !Capacity(l, d.epoch, k + 2, 2 * C, RESERVE[1..][1..]);
    assert !Capacity(l, d.epoch, k + 1, C, RESERVE[1..]);
  }

  // --------------------------------------------------------------- steps of a run

  function Mine(w: Who, act: Action): (move: Move)
    ensures By(move) == w && move.act == act
  {
    if w.TheClient? then ByClient(act) else ByNode(act)
  }

  /** One more honest step of a run, and where it leaves the two ends. */
  lemma OneMore(s0: System, a: seq<Move>, w: Who, act: Action) returns (b: seq<Move>)
    requires Sound(s0) && AllHonest(a) && Honest(act)
    ensures b == a + [Mine(w, act)] && AllHonest(b)
    ensures var s, end := Play(s0, a), Play(s0, b);
            && CanPlay(Own(s, w), Peer(s, w)) && Own(end, w) == Act(Own(s, w), Peer(s, w), act) && Peer(end, w) == Peer(s, w)
    ensures forall v :: Interrupted(s0, b, v) <==> Interrupted(s0, a, v) || InterruptsBy(Play(s0, a), Mine(w, act), v)
  {
    b := a + [Mine(w, act)];
    assert b[..|a|] == a;
    PlayMore(s0, a, Mine(w, act));
    EndFits(Play(s0, a), w);
    NextMoves(Play(s0, a), Mine(w, act), w);
    NextMoves(Play(s0, a), Mine(w, act), Other(w));
  }

  /** One more step that interrupts nobody, of an undisturbed run. */
  lemma OneMoreQuiet(s0: System, a: seq<Move>, w: Who, act: Action) returns (b: seq<Move>)
    requires Sound(s0) && Agreeable(s0) && Undisturbed(s0, a) && Honest(act)
    requires act.Accept? ==> !Interrupts(Own(Play(s0, a), w), Peer(Play(s0, a), w))
    ensures b == a + [Mine(w, act)] && Undisturbed(s0, b)
    ensures var s, end := Play(s0, a), Play(s0, b);
            && Pair(Own(s, w), Peer(s, w)) && Own(end, w) == Act(Own(s, w), Peer(s, w), act) && Peer(end, w) == Peer(s, w)
            && Pair(Own(end, w), Peer(end, w))
  {
    b := OneMore(s0, a, w, act);
    forall v ensures !Interrupted(s0, b, v) { assert !Interrupted(s0, a, v); }
    HonestRun(s0, a);
    HonestRun(s0, b);
    SystemIsPair(Play(s0, a), w);
    SystemIsPair(Play(s0, b), w);
  }

  /** What the three turns of a section make of the end. */
  predicate SentOne(x: Endpoint, x': Endpoint, purpose: Purpose) {
    && x'.section.Idle? && x'.got == x.got && x'.closes == x.closes + 1 && |x'.out.sent| == |x.out.sent| + 1
    && Advances(x.m, x'.m, purpose) && x'.m.peerAck == x.m.peerAck
  }

  predicate PlannedFrom(x: Endpoint, x': Endpoint, purpose: Purpose) {
    && x'.section.Planned? && x'.section.record.purpose == purpose
    && x' == x.(m := x.m.(pending := x'.m.pending), section := x'.section)
  }

  lemma PlanWorks(x: Endpoint, y: Endpoint, plan: Action, purpose: Purpose)
    requires Pair(x, y) && x.section.Idle?
    requires if plan.PlanClose? then purpose.InitialClose? && x.m.state.Open? else plan.PlanOwed? && x.m.Owes() == Some(purpose)
    ensures PlannedFrom(x, Act(x, y, plan), purpose)
  {
    if plan.PlanClose? { PlanCloseKeepsPair(x, y); } else { PlanOwedKeepsPair(x, y); }
  }

  /** The record is on the wire, and will be committed as it should. */
  predicate SentFrom(x: Endpoint, x': Endpoint) {
    && x.section.Planned? && x'.m == x.m && x'.m.Valid() && x'.section.OnWire?
    && x'.got == x.got && x'.closes == x.closes + 1 && |x'.out.sent| == |x.out.sent| + 1
    && Advances(x.m, Noted(x').m, x.section.record.purpose)
  }

  lemma ProtectWorks(x: Endpoint, y: Endpoint)
    requires Pair(x, y) && x.section.Planned?
    ensures SentFrom(x, Act(x, y, Protect(Admitted)))
  {
    ProtectKeepsPair(x, y);
    PairSides(Protects(x, Admitted), y);
  }

  predicate CommittedFrom(x: Endpoint, x': Endpoint) {
    x.m.Valid() && x' == Noted(x) && x'.section.Idle? && x'.m.peerAck == x.m.peerAck
  }

  lemma NoteWorks(x: Endpoint, y: Endpoint)
    requires Pair(x, y) && x.section.OnWire?
    ensures CommittedFrom(x, Act(x, y, Note(0)))
  {
    NoteKeepsPair(x, y, 0);
    if TransmittedOk(x.m, x.section.record, Last(x.out).at) {
      NotedMachine(x.m, x.section.record, Last(x.out).at, Last(x.out).completes, 0);
    }
  }

  lemma ThreeTurns(x0: Endpoint, x1: Endpoint, x2: Endpoint, x3: Endpoint, purpose: Purpose)
    requires PlannedFrom(x0, x1, purpose) && SentFrom(x1, x2) && CommittedFrom(x2, x3)
    ensures SentOne(x0, x3, purpose)
  {}

  lemma Planning(s0: System, a: seq<Move>, w: Who, plan: Action, purpose: Purpose) returns (b: seq<Move>)
    requires Sound(s0) && Agreeable(s0) && Undisturbed(s0, a) && Own(Play(s0, a), w).section.Idle?
    requires if plan.PlanClose? then purpose.InitialClose? && Own(Play(s0, a), w).m.state.Open?
             else plan.PlanOwed? && Own(Play(s0, a), w).m.Owes() == Some(purpose)
    ensures Undisturbed(s0, b) && PlannedFrom(Own(Play(s0, a), w), Own(Play(s0, b), w), purpose)
    ensures Peer(Play(s0, b), w) == Peer(Play(s0, a), w)
  {
    b := OneMoreQuiet(s0, a, w, plan);
    PlanWorks(Own(Play(s0, a), w), Peer(Play(s0, a), w), plan, purpose);
  }

  lemma Sending(s0: System, a: seq<Move>, w: Who) returns (b: seq<Move>)
    requires Sound(s0) && Agreeable(s0) && Undisturbed(s0, a) && Own(Play(s0, a), w).section.Planned?
    ensures b == a + [Mine(w, Protect(Admitted))] && Undisturbed(s0, b)
    ensures SentFrom(Own(Play(s0, a), w), Own(Play(s0, b), w)) && Peer(Play(s0, b), w) == Peer(Play(s0, a), w)
  {
    b := OneMoreQuiet(s0, a, w, Protect(Admitted));
    ProtectWorks(Own(Play(s0, a), w), Peer(Play(s0, a), w));
  }

  lemma Committing(s0: System, a: seq<Move>, w: Who) returns (b: seq<Move>)
    requires Sound(s0) && Agreeable(s0) && Undisturbed(s0, a) && Own(Play(s0, a), w).section.OnWire?
    ensures b == a + [Mine(w, Note(0))] && Undisturbed(s0, b)
    ensures CommittedFrom(Own(Play(s0, a), w), Own(Play(s0, b), w)) && Peer(Play(s0, b), w) == Peer(Play(s0, a), w)
  {
    b := OneMoreQuiet(s0, a, w, Note(0));
    NoteWorks(Own(Play(s0, a), w), Peer(Play(s0, a), w));
  }

  /** A record planned, put on the wire and committed, with nothing in between. */
  lemma SendsRecord(s0: System, a: seq<Move>, w: Who, plan: Action, purpose: Purpose) returns (b: seq<Move>)
    requires Sound(s0) && Agreeable(s0) && Undisturbed(s0, a) && Own(Play(s0, a), w).section.Idle?
    requires if plan.PlanClose? then purpose.InitialClose? && Own(Play(s0, a), w).m.state.Open?
             else plan.PlanOwed? && Own(Play(s0, a), w).m.Owes() == Some(purpose)
    ensures Undisturbed(s0, b) && SentOne(Own(Play(s0, a), w), Own(Play(s0, b), w), purpose)
    ensures Peer(Play(s0, b), w) == Peer(Play(s0, a), w)
    ensures OwesFirst(Own(Play(s0, a), w)) ==> AckedFirst(s0, b, w)
  {
    var c := Planning(s0, a, w, plan, purpose);
    var d := Sending(s0, c, w);
    b := Committing(s0, d, w);
    ThreeTurns(Own(Play(s0, a), w), Own(Play(s0, c), w), Own(Play(s0, d), w), Own(Play(s0, b), w), purpose);
    AnswersFirst(s0, c, d, b, w);
  }

  lemma AnswersFirst(s0: System, c: seq<Move>, d: seq<Move>, b: seq<Move>, w: Who)
    requires Sound(s0) && d == c + [Mine(w, Protect(Admitted))] && b == d + [Mine(w, Note(0))]
    requires Own(Play(s0, c), w).section.Planned?
    ensures OwesFirst(Own(Play(s0, c), w)) ==> AckedFirst(s0, b, w)
  {
    assert d[..|d| - 1] == c && b[..|b| - 1] == d;
    assert d[|d| - 1] == Mine(w, Protect(Admitted));
    if OwesFirst(Own(Play(s0, c), w)) {
      assert AcksFirst(Play(s0, c), d[|d| - 1], w);
    }
  }

  /** The end stands as it began. */
  predicate Untouched(x: Endpoint) { x.section.Idle? && x.m.state.Open? && x.got == 0 && x.out.sent == [] && x.closes == 0 }

  /** The end has sent its close and heard nothing. */
  predicate Closed(x: Endpoint) { x.section.Idle? && x.m.state.AwaitingAck? && x.closes == 1 && x.got == 0 && |x.out.sent| == 1 }

  /** The end has heard the peer's close, answered it, and heard no answer. */
  predicate Answered(x: Endpoint) {
    x.section.Idle? && x.m.state.AwaitingSimultaneousAck? && x.closes == 2 && x.got == 1 && |x.out.sent| == 2
  }

  /** The answer is owed, and the peer's is not accepted. */
  predicate Owing(x: Endpoint) {
    x.section.Idle? && OwesFirst(x) && x.got == 1 && x.closes == 1 && |x.out.sent| == 1 && x.m.Owes() == Some(Acknowledgement)
  }

  lemma Closes(s0: System, a: seq<Move>, w: Who) returns (b: seq<Move>)
    requires Sound(s0) && Agreeable(s0) && Undisturbed(s0, a) && Untouched(Own(Play(s0, a), w))
    ensures Undisturbed(s0, b) && Closed(Own(Play(s0, b), w)) && Peer(Play(s0, b), w) == Peer(Play(s0, a), w)
  {
    b := SendsRecord(s0, a, w, PlanClose, InitialClose);
  }

  // ----------------------------------------------------------------- interruption

  lemma StartsUntouched(l: Limits, binding: nat, clientStart: Direction, nodeStart: Direction)
    requires l.Valid() && clientStart.Live(l) && nodeStart.Live(l)
    ensures var s0 := Start(l, binding, clientStart, nodeStart); Untouched(s0.client) && Untouched(s0.node) && Undisturbed(s0, [])
  {}

  lemma FindsClose(x: Endpoint, y: Endpoint)
    requires Pair(x, y) && x.section.Planned? && x.m.state.Open? && x.got == 0 && Closed(y)
    ensures Interrupts(x, y)
  {
    BothFit(x, y);
    assert y.out.sent[0].content.CloseMachineContent?;
  }

  /** The client builds its close, the node closes, and the client takes the node's close before anything else. */
  lemma Crosses(s0: System) returns (moves: seq<Move>)
    requires Sound(s0) && Agreeable(s0) && Untouched(s0.client) && Untouched(s0.node) && Undisturbed(s0, [])
    ensures AllHonest(moves) && Interrupted(s0, moves, TheClient) && Begun(Play(s0, moves))
  {
    var a := Planning(s0, [], TheClient, PlanClose, InitialClose);
    var b := Closes(s0, a, TheNode);
    HonestRun(s0, b);
    SystemIsPair(Play(s0, b), TheClient);
    FindsClose(Play(s0, b).client, Play(s0, b).node);
    moves := OneMore(s0, b, TheClient, Accept(0));
    assert InterruptsBy(Play(s0, b), Mine(TheClient, Accept(0)), TheClient);
    assert Play(s0, moves).node == Play(s0, b).node;
  }

  /** The run and as many of the rounds as it takes. */
  lemma ThenSettles(l: Limits, binding: nat, clientStart: Direction, nodeStart: Direction, a: seq<Move>) returns (b: seq<Move>)
    requires l.Valid() && clientStart.Live(l) && nodeStart.Live(l) && AllHonest(a)
    requires Begun(Play(Start(l, binding, clientStart, nodeStart), a))
    ensures AllHonest(b) && Settled(Play(Start(l, binding, clientStart, nodeStart), a + b))
  {
    var s0, rounds := Start(l, binding, clientStart, nodeStart), Enough(l, clientStart, nodeStart);
    FairClosesSettle(l, binding, clientStart, nodeStart, a, rounds);
    var k :| 0 <= k <= |rounds| && Settled(Play(Play(s0, a), Flat(rounds[..k])));
    b := Flat(rounds[..k]);
    FlatIsHonest(rounds[..k]);
    PlayConcat(s0, a, b);
  }

  /** From any starts with room, the reserve included, an honest close can settle with an interrupted end that is not clean. */
  lemma InterruptedCloseFails(l: Limits, binding: nat, clientStart: Direction, nodeStart: Direction) returns (moves: seq<Move>)
    requires l.Valid() && HasRoom(l, clientStart) && HasRoom(l, nodeStart)
    ensures AllHonest(moves) && Interrupted(Start(l, binding, clientStart, nodeStart), moves, TheClient)
    ensures var s := Play(Start(l, binding, clientStart, nodeStart), moves); Settled(s) && s.client.m.verdict != Some(Clean)
  {
    var s0 := Start(l, binding, clientStart, nodeStart);
    StartIsAgreeable(l, binding, clientStart, nodeStart);
    StartsUntouched(l, binding, clientStart, nodeStart);
    var a := Crosses(s0);
    var b := ThenSettles(l, binding, clientStart, nodeStart, a);
    moves := a + b;
    HonestSum(a, b);
    InterruptedLater(s0, a, b, TheClient);
    HonestIsNotRefused(moves);
    InterruptedNeverCompletes(l, binding, clientStart, nodeStart, moves, TheClient);
  }

  // ------------------------------------------------------------ one end clean, one not

  /** The end took the peer's close with its own built: it owes an ack and will send its close all the same. */
  predicate Between(x: Endpoint, y: Endpoint) {
    && x.section.Planned? && GoodClose(x, y, x.section.record.body, x.section.record.position)
    && x.section.record.purpose.InitialClose? && !x.section.record.ack
    && x.m.state.CloseReceived? && y.m.anchor.FrozenAt? && x.m.ackDue == Declares(y.m.anchor.position)
    && x.closes == 0 && x.out.sent == [] && x.got == 1 && x.m.recordsSent == 0 && !x.m.errorSent && !x.m.peerError
  }

  predicate GoodClose(x: Endpoint, y: Endpoint, body: CloseBody, at: Position) {
    && body.CloseBody? && body == MakeBody(false, x.m.ch.side, x.m.ch.binding, at, body.expectedRecv)
    && !y.out.Stands().At().Before(body.expectedRecv)
  }

  /** Its peer has closed and heard nothing. */
  predicate Awaits(y: Endpoint, x: Endpoint) {
    && Closed(y) && y.m.anchor.FrozenAt? && !y.m.Degenerate()
    && y.m.ch.side == Opposite(x.m.ch.side) && y.m.ch.binding == x.m.ch.binding
    && !y.out.Stands().exhausted && HasCapacity(y.out.l, y.out.Stands(), [C])
  }

  lemma TakesInBetween(x: Endpoint, y: Endpoint)
    requires Pair(x, y) && x.section.Planned? && x.m.state.Open? && x.got == 0 && x.out.sent == [] && x.closes == 0 && Closed(y)
    ensures CanPlay(x, y) && Between(Act(x, y, Accept(0)), y) && Awaits(y, Act(x, y, Accept(0))) && Room(Act(x, y, Accept(0)))
  {
    PairIsMatched(x, y);
    UnsentIsNoted(x);
    UnsentIsNoted(y);
    AcceptPeerClose(x, y, 0);
    AcceptKeepsSection(x, y, 0);
    SentRoom(y, App);
    BothFit(x, y);
    BuiltDeclares(x, y);
  }

  lemma BuiltDeclares(x: Endpoint, y: Endpoint)
    requires y.out.Valid() && x.got <= |y.out.sent| && MayDeclare(x.m.ackDue, x.section, y.out.At(x.got))
    requires x.section.Planned? && x.section.record.body.CloseBody?
    ensures !y.out.Stands().At().Before(x.section.record.body.expectedRecv)
  {
    AtMonotone(y.out, x.got, |y.out.sent|);
  }

  lemma RoomMore(x: Endpoint, content: Content)
    requires x.out.l.Valid() && Room(x) && x.closes < 2
    ensures Room(x.(out := x.out.With(C, content), closes := x.closes + 1)) && HasCapacity(x.out.l, x.out.Stands(), [C])
    ensures !x.out.Stands().exhausted
  {
    SentRoom(x, content);
  }

  /** Its close is on the wire, uncommitted, and it owes its ack. */
  predicate Strayed(x: Endpoint, y: Endpoint) {
    && x.section.Idle? && x.m.state.CloseReceived? && y.m.anchor.FrozenAt? && x.m.ackDue == Declares(y.m.anchor.position)
    && x.closes == 1 && |x.out.sent| == 1 && x.got == 1 && x.m.recordsSent == 0 && !x.m.errorSent && !x.m.peerError
    && OpensGood(x, y)
  }

  /** Its log begins with a close the peer will take. */
  predicate OpensGood(x: Endpoint, y: Endpoint) {
    && x.out.sent != [] && x.out.sent[0].content.CloseMachineContent? && !x.out.sent[0].content.ack
    && GoodClose(x, y, x.out.sent[0].content.body, x.out.sent[0].at)
  }

  /** Both its records are on the wire; the second answers the peer's close. */
  predicate Crossed(x: Endpoint, y: Endpoint) {
    && x.section.Idle? && x.m.state.AwaitingConfirmation? && x.closes == 2 && |x.out.sent| == 2 && x.got == 1
    && OpensGood(x, y) && y.m.anchor.FrozenAt?
    && x.out.sent[1].content
       == CloseMachineContent(true, MakeBody(true, x.m.ch.side, x.m.ch.binding, x.out.sent[1].at, y.m.anchor.position))
  }

  lemma StrayGoes(x: Endpoint, y: Endpoint)
    requires CanPlay(x, y) && OwnHalf(x) && Between(x, y) && Room(x)
    ensures Act(x, y, Protect(Admitted)) == OnTheWire(x, x.section.record)
  {
    RoomMore(x, CloseMachineContent(false, x.section.record.body));
  }

  /** The commit throws: the record does not answer the state. */
  lemma StrayThrows(x: Endpoint, x': Endpoint, y: Endpoint)
    requires OwnHalf(x) && Between(x, y) && Room(x) && x' == OnTheWire(x, x.section.record) && CanPlay(x', y)
    ensures var z := Act(x', y, Note(0)); z.m == x'.m && Strayed(z, y) && Room(z)
  {
    RoomMore(x, CloseMachineContent(false, x.section.record.body));
  }

  /** The ack the end owes, built. */
  predicate Replying(x: Endpoint, x': Endpoint, y: Endpoint) {
    && y.m.anchor.FrozenAt? && x'.section.Planned? && x' == x.(m := x.m.(pending := Some(x'.section.record)), section := x'.section)
    && x'.section.record
       == CloseRecord(true, MakeBody(true, x.m.ch.side, x.m.ch.binding, x.out.Stands().At(), y.m.anchor.position),
                      x.out.Stands().At(), Acknowledgement)
  }

  lemma StrayReplies(x: Endpoint, y: Endpoint)
    requires CanPlay(x, y) && Strayed(x, y) && !x.out.Stands().exhausted
    ensures Replying(x, Act(x, y, PlanOwed), y)
  {}

  lemma ReplyGoes(x: Endpoint, x': Endpoint, y: Endpoint)
    requires Strayed(x, y) && Room(x) && x.out.l.Valid() && CanPlay(x', y) && Replying(x, x', y)
    ensures Act(x', y, Protect(Admitted)) == OnTheWire(x', x'.section.record)
  {
    RoomMore(x, App);
  }

  lemma ReplyIsCommitted(x: Endpoint, x': Endpoint, x'': Endpoint, y: Endpoint)
    requires Strayed(x, y) && Room(x) && x.out.l.Valid() && x'.m.Valid() && Replying(x, x', y)
    requires x'' == OnTheWire(x', x'.section.record) && CanPlay(x'', y)
    ensures var z := Act(x'', y, Note(0)); Crossed(z, y) && Room(z) && z.m.ch == x.m.ch
  {
    var r := x'.section.record;
    RoomMore(x, CloseMachineContent(r.ack, r.body));
    WithExtends(x.out, C, CloseMachineContent(r.ack, r.body));
    NotedAdvances(x'.m, r, r.position, CompletesEpoch(x.out.l, x.out.Stands(), C));
    NotedMachine(x'.m, r, r.position, CompletesEpoch(x.out.l, x.out.Stands(), C), 0);
  }

  /** The other end: it has closed, and then taken the stray close, and then the reply. */
  predicate HeardStray(y: Endpoint, y': Endpoint, x: Endpoint)
    requires |x.out.sent| >= 1
  {
    y' == y.(m := y'.m, got := 1)
    && y'.m == y.m.(peerClose := true, ackDue := Declares(x.out.At(1)), branch := Some(Simultaneous), state := SimultaneousPending)
  }

  lemma TakesStray(y: Endpoint, x: Endpoint)
    requires CanPlay(y, x) && Awaits(y, x) && Crossed(x, y) && OwnHalf(x) && y.m.ch.l == x.out.l
    ensures HeardStray(y, Act(y, x, Accept(0)), x)
  {
    assert x.out.Placed(1);
    NextIsNext(x.out, 0);
    assert x.out.sent[0].content.CloseMachineContent?;
  }

  lemma TakesReply(y: Endpoint, y': Endpoint, x: Endpoint)
    requires y.m.Valid() && CanPlay(y', x) && Awaits(y, x) && Crossed(x, y) && HeardStray(y, y', x)
    ensures Act(y', x, Accept(0)) == y'.(m := y'.m.(peerAck := true), got := 2)
  {}

  /** With the reply it owes its own ack, and will be complete when that is committed. */
  predicate Finishing(y: Endpoint, x: Endpoint) {
    && y.section.Idle? && y.m.state.SimultaneousPending? && y.m.peerAck && y.m.ackDue.Declares? && !y.m.Degenerate()
    && y.closes == 1 && |y.out.sent| == 1 && y.got == |x.out.sent| && y.m.recordsSent == 1 && !y.m.errorSent && !y.m.peerError
    && !y.out.Stands().exhausted && HasCapacity(y.out.l, y.out.Stands(), [C])
  }

  lemma BecomesFinishing(y: Endpoint, y': Endpoint, x: Endpoint)
    requires y.m.Valid() && Awaits(y, x) && Crossed(x, y) && HeardStray(y, y', x)
    ensures Finishing(y'.(m := y'.m.(peerAck := true), got := 2), x)
  {}

  predicate LastBuilt(y: Endpoint, y': Endpoint) {
    && y'.section.Planned? && y' == y.(m := y.m.(pending := Some(y'.section.record)), section := y'.section)
    && y'.section.record.purpose.Acknowledgement? && y'.section.record.position == y.out.Stands().At()
  }

  lemma LastIsBuilt(y: Endpoint, x: Endpoint)
    requires CanPlay(y, x) && Finishing(y, x)
    ensures LastBuilt(y, Act(y, x, PlanOwed))
  {}

  predicate CleanlyFinished(y: Endpoint, x: Endpoint) {
    && y.section.Idle? && CleanlyDone(y) && y.got == |x.out.sent| && |y.out.sent| == 2
    && y.out.sent[1].content.CloseMachineContent? && y.m.Owes().None?
  }

  lemma LastGoes(y: Endpoint, y': Endpoint, x: Endpoint)
    requires Finishing(y, x) && LastBuilt(y, y') && CanPlay(y', x)
    ensures Act(y', x, Protect(Admitted)) == OnTheWire(y', y'.section.record)
  {}

  lemma LastIsCommitted(y: Endpoint, y': Endpoint, y'': Endpoint, x: Endpoint)
    requires Finishing(y, x) && LastBuilt(y, y') && y'.m.Valid() && y'' == OnTheWire(y', y'.section.record) && CanPlay(y'', x)
    ensures CleanlyFinished(Act(y'', x, Note(0)), x)
  {
    var r := y'.section.record;
    WithExtends(y.out, C, CloseMachineContent(r.ack, r.body));
  }

  /** What the waiting end finds is either its completion or its failure. */
  lemma LastTaken(x: Endpoint, y: Endpoint)
    requires CanPlay(x, y) && x.m.state.AwaitingConfirmation? && x.section.Idle? && x.got == 1 && |y.out.sent| == 2
    requires y.out.sent[1].content.CloseMachineContent? && !x.out.Stands().exhausted
    ensures var x' := Act(x, y, Accept(0));
            && x'.section.Idle? && (x'.m.completed || (x'.m.state.Ended? && x'.m.verdict == Some(Failed))) && x'.out == x.out
  {}

  /** An honest run that interrupts the client leads there. */
  ghost predicate Reached(s0: System, s: System)
    requires Sound(s0)
  {
    exists moves {:trigger Play(s0, moves)} :: AllHonest(moves) && Interrupted(s0, moves, TheClient) && Play(s0, moves) == s
  }

  lemma ReachedMore(s0: System, s: System, w: Who, act: Action)
    requires Sound(s0) && Reached(s0, s) && Honest(act)
    ensures Sound(s) && Reached(s0, Next(s, Mine(w, act)))
  {
    var moves :| AllHonest(moves) && Interrupted(s0, moves, TheClient) && Play(s0, moves) == s;
    var more := OneMore(s0, moves, w, act);
    PlayMore(s0, moves, Mine(w, act));
  }

  /** The two ends of a system an honest run leads to, and that it can go on. */
  predicate Facts(x: Endpoint, y: Endpoint) { CanPlay(x, y) && x.m.ch.l == x.out.l && y.m.ch.l == x.out.l }

  lemma SoundFacts(x: Endpoint, y: Endpoint)
    requires Sound(System(x, y))
    ensures OwnHalf(x) && OwnHalf(y) && Facts(x, y) && Facts(y, x)
  {
    SystemFits(System(x, y));
    EndFits(System(x, y), TheClient);
    EndFits(System(x, y), TheNode);
  }

  lemma ClientStep(s0: System, x: Endpoint, y: Endpoint, act: Action) returns (x': Endpoint)
    requires Sound(s0) && Reached(s0, System(x, y)) && Honest(act)
    ensures OwnHalf(x) && Facts(x, y) && Facts(y, x) && x' == Act(x, y, act) && Reached(s0, System(x', y)) && x'.m.Valid()
  {
    ReachedMore(s0, System(x, y), TheClient, act);
    SoundFacts(x, y);
    x' := Act(x, y, act);
    NextKeeps(System(x, y), Mine(TheClient, act));
    SoundFacts(x', y);
  }

  lemma NodeStep(s0: System, x: Endpoint, y: Endpoint, act: Action) returns (y': Endpoint)
    requires Sound(s0) && Reached(s0, System(x, y)) && Honest(act)
    ensures OwnHalf(x) && Facts(y, x) && Facts(x, y) && y' == Act(y, x, act) && Reached(s0, System(x, y')) && y'.m.Valid()
  {
    ReachedMore(s0, System(x, y), TheNode, act);
    SoundFacts(x, y);
    y' := Act(y, x, act);
    NextKeeps(System(x, y), Mine(TheNode, act));
    SoundFacts(x, y');
  }

  lemma ClientStrays(s0: System, x: Endpoint, y: Endpoint) returns (z: Endpoint)
    requires Sound(s0) && Reached(s0, System(x, y)) && Between(x, y) && Room(x)
    ensures Reached(s0, System(z, y)) && Strayed(z, y) && Room(z) && z.m.ch == x.m.ch
  {
    var x1 := ClientStep(s0, x, y, Protect(Admitted));
    StrayGoes(x, y);
    z := ClientStep(s0, x1, y, Note(0));
    StrayThrows(x, x1, y);
  }

  lemma ClientPlansReply(s0: System, x: Endpoint, y: Endpoint) returns (z: Endpoint)
    requires Sound(s0) && Reached(s0, System(x, y)) && Strayed(x, y) && Room(x)
    ensures Reached(s0, System(z, y)) && Replying(x, z, y) && OwnHalf(x) && z.m.Valid()
  {
    z := ClientStep(s0, x, y, PlanOwed);
    RoomMore(x, App);
    StrayReplies(x, y);
  }

  lemma ClientReplies(s0: System, x: Endpoint, y: Endpoint) returns (z: Endpoint)
    requires Sound(s0) && Reached(s0, System(x, y)) && Strayed(x, y) && Room(x)
    ensures Reached(s0, System(z, y)) && Crossed(z, y) && Room(z) && z.m.ch == x.m.ch
  {
    var x1 := ClientPlansReply(s0, x, y);
    var x2 := ClientStep(s0, x1, y, Protect(Admitted));
    ReplyGoes(x, x1, y);
    z := ClientStep(s0, x2, y, Note(0));
    ReplyIsCommitted(x, x1, x2, y);
  }

  lemma NodeHears(s0: System, x: Endpoint, y: Endpoint) returns (z: Endpoint)
    requires Sound(s0) && Reached(s0, System(x, y)) && Crossed(x, y) && Awaits(y, x)
    ensures Reached(s0, System(x, z)) && Finishing(z, x)
  {
    var y1 := NodeStep(s0, x, y, Accept(0));
    TakesStray(y, x);
    z := NodeStep(s0, x, y1, Accept(0));
    TakesReply(y, y1, x);
    BecomesFinishing(y, y1, x);
  }

  lemma NodePlansLast(s0: System, x: Endpoint, y: Endpoint) returns (z: Endpoint)
    requires Sound(s0) && Reached(s0, System(x, y)) && Finishing(y, x)
    ensures Reached(s0, System(x, z)) && LastBuilt(y, z) && z.m.Valid()
  {
    z := NodeStep(s0, x, y, PlanOwed);
    LastIsBuilt(y, x);
  }

  lemma NodeFinishes(s0: System, x: Endpoint, y: Endpoint) returns (z: Endpoint)
    requires Sound(s0) && Reached(s0, System(x, y)) && Finishing(y, x)
    ensures Reached(s0, System(x, z)) && CleanlyFinished(z, x)
  {
    var y1 := NodePlansLast(s0, x, y);
    var y2 := NodeStep(s0, x, y1, Protect(Admitted));
    LastGoes(y, y1, x);
    z := NodeStep(s0, x, y2, Note(0));
    LastIsCommitted(y, y1, y2, x);
  }

  lemma ClientFinds(s0: System, x: Endpoint, y: Endpoint) returns (z: Endpoint)
    requires Sound(s0) && Reached(s0, System(x, y)) && CleanlyFinished(y, x)
    requires Confirming(x) && !x.out.Stands().exhausted
    ensures Reached(s0, System(z, y)) && CleanlyFinished(y, z) && z.section.Idle?
    ensures z.m.completed || (z.m.state.Ended? && z.m.verdict == Some(Failed))
  {
    z := ClientStep(s0, x, y, Accept(0));
    LastTaken(x, y);
  }

  lemma {:induction false} StartsRun(s: System, moves: seq<Move>)
    requires Sound(s)
    ensures SameStarts(s, Play(s, moves))
    decreases |moves|
  {
    if moves != [] {
      StartsRun(s, moves[..|moves| - 1]);
      StartsNext(Play(s, moves[..|moves| - 1]), moves[|moves| - 1]);
    }
  }

  /** Where the reserve was held both close records leave the direction a position. */
  lemma CrossedHasPosition(s0: System, x: Endpoint, y: Endpoint)
    requires Sound(s0) && Reached(s0, System(x, y)) && Confirming(x) && Room(x) && Ample(s0.client)
    ensures !x.out.Stands().exhausted
  {
    var moves :| AllHonest(moves) && Interrupted(s0, moves, TheClient) && Play(s0, moves) == System(x, y);
    StartsRun(s0, moves);
    ShortIsSpent(x);
  }

  /** The crossing, up to where the client finds the node's close with its own built. */
  lemma BuildsAndFinds(s0: System) returns (moves: seq<Move>)
    requires Sound(s0) && Agreeable(s0) && Untouched(s0.client) && Untouched(s0.node) && Undisturbed(s0, [])
    ensures AllHonest(moves)
    ensures var s := Play(s0, moves); Pair(s.client, s.node) && OpenPlanned(s.client) && Closed(s.node)
  {
    var a := Planning(s0, [], TheClient, PlanClose, InitialClose);
    moves := Closes(s0, a, TheNode);
    assert Peer(Play(s0, moves), TheNode) == Own(Play(s0, a), TheClient);
    HonestRun(s0, moves);
    SystemIsPair(Play(s0, moves), TheClient);
  }

  predicate OpenPlanned(x: Endpoint) { x.section.Planned? && x.m.state.Open? && x.got == 0 && x.out.sent == [] && x.closes == 0 }

  lemma CrossesInBetween(s0: System) returns (x: Endpoint, y: Endpoint)
    requires Sound(s0) && Agreeable(s0) && Untouched(s0.client) && Untouched(s0.node) && Undisturbed(s0, [])
    ensures Reached(s0, System(x, y)) && Between(x, y) && Awaits(y, x) && Room(x)
  {
    var a := BuildsAndFinds(s0);
    var s := Play(s0, a);
    FindsClose(s.client, s.node);
    TakesInBetween(s.client, s.node);
    x, y := FirstInterruption(s0, a);
  }

  lemma FirstInterruption(s0: System, a: seq<Move>) returns (x: Endpoint, y: Endpoint)
    requires Sound(s0) && AllHonest(a) && Interrupts(Play(s0, a).client, Play(s0, a).node)
    ensures CanPlay(Play(s0, a).client, Play(s0, a).node)
    ensures x == Act(Play(s0, a).client, Play(s0, a).node, Accept(0)) && y == Play(s0, a).node && Reached(s0, System(x, y))
  {
    var b := OneMore(s0, a, TheClient, Accept(0));
    assert InterruptsBy(Play(s0, a), Mine(TheClient, Accept(0)), TheClient);
    x, y := Play(s0, b).client, Play(s0, b).node;
    assert Own(Play(s0, b), TheClient) == x && Peer(Play(s0, b), TheClient) == y;
    assert Play(s0, b) == System(x, y);
  }

  lemma ClientSide(s0: System) returns (x: Endpoint, y: Endpoint)
    requires Sound(s0) && Agreeable(s0) && Untouched(s0.client) && Untouched(s0.node) && Undisturbed(s0, [])
    ensures Reached(s0, System(x, y)) && Crossed(x, y) && Awaits(y, x) && Room(x)
  {
    var x0, x1;
    x0, y := CrossesInBetween(s0);
    x1 := ClientStrays(s0, x0, y);
    x := ClientReplies(s0, x1, y);
    AwaitsStill(x0, x, y);
  }

  predicate Confirming(x: Endpoint) { x.section.Idle? && x.m.state.AwaitingConfirmation? && x.got == 1 && x.closes == 2 }

  lemma CrossedConfirms(x: Endpoint, y: Endpoint)
    requires Crossed(x, y)
    ensures Confirming(x)
  {}

  lemma NodeSide(s0: System, x: Endpoint, y: Endpoint) returns (z: Endpoint)
    requires Sound(s0) && Reached(s0, System(x, y)) && Crossed(x, y) && Awaits(y, x)
    ensures Reached(s0, System(x, z)) && CleanlyFinished(z, x)
  {
    var y1 := NodeHears(s0, x, y);
    z := NodeFinishes(s0, x, y1);
  }

  lemma OneEndCleanFrom(s0: System) returns (x: Endpoint, y: Endpoint)
    requires Sound(s0) && Agreeable(s0) && Untouched(s0.client) && Untouched(s0.node) && Undisturbed(s0, []) && Ample(s0.client)
    ensures Reached(s0, System(x, y)) && CleanlyFinished(y, x) && x.section.Idle?
    ensures x.m.completed || (x.m.state.Ended? && x.m.verdict == Some(Failed))
  {
    var x0, y0 := ClientSide(s0);
    CrossedConfirms(x0, y0);
    CrossedHasPosition(s0, x0, y0);
    y := NodeSide(s0, x0, y0);
    x := ClientFinds(s0, x0, y);
  }

  lemma AwaitsStill(x: Endpoint, x': Endpoint, y: Endpoint)
    requires Awaits(y, x) && x'.m.ch == x.m.ch
    ensures Awaits(y, x')
  {}

  /**
   The crossing run to its end, from any synchronised start: nothing fails on the way,
   nothing is in flight or owed at the end, and the two ends disagree - the node's
   verdict is clean, and the interrupted client's is failed.
   */
  lemma OneEndClean(l: Limits, binding: nat, clientStart: Direction, nodeStart: Direction) returns (moves: seq<Move>)
    requires Synchronised(l, clientStart, nodeStart)
    ensures AllHonest(moves) && Interrupted(Start(l, binding, clientStart, nodeStart), moves, TheClient)
    ensures var s := Play(Start(l, binding, clientStart, nodeStart), moves);
            Settled(s) && CleanlyDone(s.node) && s.client.m.verdict == Some(Failed)
  {
    var s0 := Start(l, binding, clientStart, nodeStart);
    SynchronisedHasRoom(l, clientStart, nodeStart);
    StartIsAgreeable(l, binding, clientStart, nodeStart);
    StartsUntouched(l, binding, clientStart, nodeStart);
    var x, y := OneEndCleanFrom(s0);
    moves :| AllHonest(moves) && Interrupted(s0, moves, TheClient) && Play(s0, moves) == System(x, y);
    HonestIsNotRefused(moves);
    InterruptedNeverCompletes(l, binding, clientStart, nodeStart, moves, TheClient);
    assert Own(Play(s0, moves), TheClient) == x;
  }

  // ------------------------------------------------------------------- short ends

  /** What an end finds that has closed, of a peer that has closed and perhaps answered. */
  predicate Facing(x: Endpoint, y: Endpoint) { Closed(x) && (Closed(y) || Answered(y)) }

  /** It hears the close and owes its answer, with the peer's not accepted. */
  lemma HearsClose(x: Endpoint, y: Endpoint)
    requires Matched(x, y) && Facing(x, y)
    ensures Owing(Accepts(x, y, 0))
  {
    AcceptPeerClose(x, y, 0);
    AcceptKeepsSection(x, y, 0);
  }

  lemma IdleMatched(x: Endpoint, y: Endpoint)
    requires Pair(x, y) && x.section.Idle? && y.section.Idle?
    ensures Matched(x, y)
  {
    PairIsMatched(x, y);
    UnsentIsNoted(x);
    UnsentIsNoted(y);
  }

  lemma IdleIsQuiet(x: Endpoint, y: Endpoint)
    requires x.section.Idle?
    ensures !Interrupts(x, y)
  {}

  lemma FacingHears(x: Endpoint, y: Endpoint)
    requires Pair(x, y) && Facing(x, y)
    ensures CanPlay(x, y) && Owing(Act(x, y, Accept(0)))
  {
    IdleMatched(x, y);
    HearsClose(x, y);
  }

  /** An end with its section free takes the next record. */
  lemma TakesNext(s0: System, a: seq<Move>, w: Who) returns (b: seq<Move>, x: Endpoint, y: Endpoint, x': Endpoint)
    requires Sound(s0) && Agreeable(s0) && Undisturbed(s0, a) && Own(Play(s0, a), w).section.Idle?
    ensures Undisturbed(s0, b) && x == Own(Play(s0, a), w) && y == Peer(Play(s0, a), w)
    ensures Own(Play(s0, b), w) == x' && Peer(Play(s0, b), w) == y
    ensures Pair(x, y) && CanPlay(x, y) && x' == Act(x, y, Accept(0))
  {
    IdleIsQuiet(Own(Play(s0, a), w), Peer(Play(s0, a), w));
    b := OneMoreQuiet(s0, a, w, Accept(0));
    x, y, x' := Own(Play(s0, a), w), Peer(Play(s0, a), w), Own(Play(s0, b), w);
  }

  lemma TakesClose(s0: System, a: seq<Move>, w: Who) returns (b: seq<Move>)
    requires Sound(s0) && Agreeable(s0) && Undisturbed(s0, a) && Facing(Own(Play(s0, a), w), Peer(Play(s0, a), w))
    ensures Undisturbed(s0, b) && Owing(Own(Play(s0, b), w)) && Peer(Play(s0, b), w) == Peer(Play(s0, a), w)
  {
    var x, y, x';
    b, x, y, x' := TakesNext(s0, a, w);
    FacingHears(x, y);
  }

  /** Sending the answer first strands the end until the peer's answer comes. */
  lemma Answers(s0: System, a: seq<Move>, w: Who) returns (b: seq<Move>)
    requires Sound(s0) && Agreeable(s0) && Undisturbed(s0, a) && Owing(Own(Play(s0, a), w))
    ensures Undisturbed(s0, b) && Answered(Own(Play(s0, b), w)) && Peer(Play(s0, b), w) == Peer(Play(s0, a), w)
    ensures AckedFirst(s0, b, w)
  {
    b := SendsRecord(s0, a, w, PlanOwed, Acknowledgement);
  }

  lemma BothClose(s0: System) returns (moves: seq<Move>)
    requires Sound(s0) && Agreeable(s0) && Untouched(s0.client) && Untouched(s0.node) && Undisturbed(s0, [])
    ensures Undisturbed(s0, moves) && Closed(Play(s0, moves).client) && Closed(Play(s0, moves).node)
  {
    var a := Closes(s0, [], TheClient);
    moves := Closes(s0, a, TheNode);
    assert Peer(Play(s0, moves), TheNode) == Play(s0, a).client;
  }

  lemma {:induction false} AckedFirstLater(s: System, a: seq<Move>, b: seq<Move>, w: Who)
    requires Sound(s) && AckedFirst(s, a, w)
    ensures AckedFirst(s, a + b, w)
    decreases |b|
  {
    if b == [] {
      assert a + b == a;
    } else {
      AckedFirstLater(s, a, b[..|b| - 1], w);
      assert (a + b)[..|a + b| - 1] == a + b[..|b| - 1];
    }
  }

  /** Once both ends have committed a record nobody can be interrupted any more. */
  predicate BothCommitted(s: System) { s.client.m.recordsSent > 0 && s.node.m.recordsSent > 0 }

  lemma AcceptKeepsCount(x: Endpoint, y: Endpoint, now: nat)
    requires CanPlay(x, y)
    ensures Accepts(x, y, now).m.recordsSent >= x.m.recordsSent
  {
    if x.got < |y.out.sent| {
      var w := y.out.sent[x.got];
      ReceiveKeeps(x.m, Inner(w), w.at, w.completes, x.out.Stands().At(), now);
    }
  }

  lemma NoteKeepsCount(x: Endpoint, now: nat)
    requires x.m.Valid()
    ensures Notes(x, now).m.recordsSent >= x.m.recordsSent
  {
    if x.section.OnWire? && x.out.sent != [] && TransmittedOk(x.m, x.section.record, Last(x.out).at) {
      NotedMachine(x.m, x.section.record, Last(x.out).at, Last(x.out).completes, now);
    }
  }

  lemma PlanKeepsCount(x: Endpoint, y: Endpoint)
    requires CanPlay(x, y)
    ensures PlansClose(x, y).m.recordsSent == x.m.recordsSent == PlansOwed(x, y).m.recordsSent
  {}

  lemma ProtectKeepsCount(x: Endpoint, sending: Sending)
    ensures Protects(x, sending).m.recordsSent == x.m.recordsSent
  {}

  lemma RecordsNeverFall(x: Endpoint, y: Endpoint, act: Action)
    requires CanPlay(x, y)
    ensures Act(x, y, act).m.recordsSent >= x.m.recordsSent
  {
    match act
    case Accept(now) => AcceptKeepsCount(x, y, now);
    case Note(now) => NoteKeepsCount(x, now);
    case PlanClose => PlanKeepsCount(x, y);
    case PlanOwed => PlanKeepsCount(x, y);
    case Protect(sending) => ProtectKeepsCount(x, sending);
    case _ =>
  }

  lemma CommittedNext(s: System, move: Move)
    requires Playable(s) && BothCommitted(s)
    ensures BothCommitted(Next(s, move)) && forall w :: !InterruptsBy(s, move, w)
  {
    EndPlays(s, By(move));
    RecordsNeverFall(Own(s, By(move)), Peer(s, By(move)), move.act);
  }

  lemma {:induction false} CommittedRun(s0: System, a: seq<Move>, b: seq<Move>)
    requires Sound(s0) && Uninterrupted(s0, a) && BothCommitted(Play(s0, a))
    ensures Uninterrupted(s0, a + b) && BothCommitted(Play(s0, a + b))
    decreases |b|
  {
    if b == [] {
      assert a + b == a;
    } else {
      var before := b[..|b| - 1];
      CommittedRun(s0, a, before);
      assert (a + b)[..|a + b| - 1] == a + before;
      CommittedNext(Play(s0, a + before), b[|b| - 1]);
      forall w ensures !Interrupted(s0, a + b, w) { assert !Interrupted(s0, a + before, w); }
    }
  }

  lemma UndisturbedOn(s0: System, a: seq<Move>, b: seq<Move>)
    requires Sound(s0) && Undisturbed(s0, a) && AllHonest(b) && BothCommitted(Play(s0, a))
    ensures Undisturbed(s0, a + b)
  {
    CommittedRun(s0, a, b);
    HonestSum(a, b);
  }

  lemma CommittedBoth(s: System)
    requires Sound(s) && Agreeable(s) && s.client.closes > 0 && s.node.closes > 0
    requires s.client.section.Idle? && s.node.section.Idle? && !s.client.m.state.Ended? && !s.node.m.state.Ended?
    ensures BothCommitted(s)
  {
    SystemIsPair(s, TheClient);
    IdleMatched(s.client, s.node);
  }

  lemma CommittedAfter(s0: System, a: seq<Move>)
    requires Sound(s0) && Agreeable(s0) && Undisturbed(s0, a)
    requires var s := Play(s0, a);
             && s.client.closes > 0 && s.node.closes > 0 && s.client.section.Idle? && s.node.section.Idle?
             && !s.client.m.state.Ended? && !s.node.m.state.Ended?
    ensures BothCommitted(Play(s0, a))
  {
    HonestRun(s0, a);
    CommittedBoth(Play(s0, a));
  }

  lemma AnswersTooSoon(s0: System) returns (a: seq<Move>)
    requires Sound(s0) && Agreeable(s0) && Untouched(s0.client) && Untouched(s0.node) && Undisturbed(s0, [])
    ensures Undisturbed(s0, a) && AckedFirst(s0, a, TheClient) && BothCommitted(Play(s0, a)) && Begun(Play(s0, a))
  {
    a := BothClose(s0);
    a := TakesClose(s0, a, TheClient);
    a := Answers(s0, a, TheClient);
    CommittedAfter(s0, a);
  }

  /** From every short start an honest, uninterrupted simultaneous close can leave the short end abrupt. */
  lemma ShortCloseCanFail(l: Limits, binding: nat, clientStart: Direction, nodeStart: Direction) returns (moves: seq<Move>)
    requires l.Valid() && HasRoom(l, clientStart) && HasRoom(l, nodeStart) && !HasCapacity(l, clientStart, RESERVE)
    ensures Undisturbed(Start(l, binding, clientStart, nodeStart), moves)
    ensures var s := Play(Start(l, binding, clientStart, nodeStart), moves);
            Settled(s) && s.client.m.verdict == Some(UncleanAbrupt)
  {
    var s0 := Start(l, binding, clientStart, nodeStart);
    StartIsAgreeable(l, binding, clientStart, nodeStart);
    StartsUntouched(l, binding, clientStart, nodeStart);
    var a := AnswersTooSoon(s0);
    var b := ThenSettles(l, binding, clientStart, nodeStart, a);
    moves := a + b;
    UndisturbedOn(s0, a, b);
    AckedFirstLater(s0, a, b, TheClient);
    UndisturbedOutcome(l, binding, clientStart, nodeStart, moves);
  }

  // ------------------------------------------------------------- the other order

  predicate Finished(x: Endpoint) { x.section.Idle? && x.m.state.Complete? && x.m.branch == Some(Simultaneous) }

  /** A finished simultaneous close stays finished. */
  lemma FinishedStays(x: Endpoint, y: Endpoint, act: Action)
    requires Pair(x, y) && Honest(act) && Finished(x)
    ensures CanPlay(x, y) && Act(x, y, act) == x
  {
    PairIsMatched(x, y);
    UnsentIsNoted(x);
    HeardBoth(x, Noted(y));
  }

  lemma HeardBoth(x: Endpoint, y: Endpoint)
    requires Matched(x, y) && Finished(x)
    ensures x.got >= |y.out.sent| && x.closes == 2
  {}

  lemma FinishedNext(s: System, move: Move, w: Who)
    requires Sound(s) && Agreeable(s) && Honest(move.act) && Finished(Own(s, w))
    ensures Finished(Own(Next(s, move), w))
  {
    NextMoves(s, move, w);
    SystemIsPair(s, w);
    if By(move) == w { FinishedStays(Own(s, w), Peer(s, w), move.act); }
  }

  /** The answer is accepted before the own one is sent: then sending it will complete the exchange. */
  predicate OwingLast(x: Endpoint) {
    x.section.Idle? && x.m.state.SimultaneousPending? && x.m.peerAck && x.m.Owes() == Some(Acknowledgement)
  }

  lemma AnswerComes(x: Endpoint, y: Endpoint)
    requires Pair(x, y) && Owing(x) && Answered(y)
    ensures CanPlay(x, y) && OwingLast(Act(x, y, Accept(0))) && Act(x, y, Accept(0)).closes == 1
  {
    IdleMatched(x, y);
    AcceptSecond(x, y, 0);
    AcceptKeepsSection(x, y, 0);
    AcceptOwes(Accepts(x, y, 0), y);
  }

  lemma AcceptOwes(x: Endpoint, y: Endpoint)
    requires Half(x, y) && x.m.state.SimultaneousPending?
    ensures x.m.Owes() == Some(Acknowledgement)
  {}

  lemma HearsAnswer(s0: System, a: seq<Move>, w: Who) returns (b: seq<Move>)
    requires Sound(s0) && Agreeable(s0) && Undisturbed(s0, a) && Owing(Own(Play(s0, a), w)) && Answered(Peer(Play(s0, a), w))
    ensures Undisturbed(s0, b) && OwingLast(Own(Play(s0, b), w)) && Own(Play(s0, b), w).closes == 1
    ensures Peer(Play(s0, b), w) == Peer(Play(s0, a), w)
  {
    var x, y, x';
    b, x, y, x' := TakesNext(s0, a, w);
    AnswerComes(x, y);
  }

  /** An end that has the peer's answer before it sends its own finishes with it. */
  lemma Finishes(s0: System, a: seq<Move>) returns (b: seq<Move>)
    requires Sound(s0) && Agreeable(s0) && Undisturbed(s0, a) && Owing(Play(s0, a).client) && Answered(Play(s0, a).node)
    ensures Undisturbed(s0, b) && Finished(Play(s0, b).client) && BothCommitted(Play(s0, b)) && Begun(Play(s0, b))
  {
    var c := HearsAnswer(s0, a, TheClient);
    b := SendsRecord(s0, c, TheClient, PlanOwed, Acknowledgement);
    assert Peer(Play(s0, b), TheClient) == Play(s0, a).node;
    CommittedAfter(s0, b);
  }

  lemma ReachesFinish(s0: System) returns (moves: seq<Move>)
    requires Sound(s0) && Agreeable(s0) && Untouched(s0.client) && Untouched(s0.node) && Undisturbed(s0, [])
    ensures Undisturbed(s0, moves) && Finished(Play(s0, moves).client) && BothCommitted(Play(s0, moves)) && Begun(Play(s0, moves))
  {
    var a := BothClose(s0);
    var b := TakesClose(s0, a, TheNode);
    var c := Answers(s0, b, TheNode);
    assert Peer(Play(s0, c), TheNode) == Play(s0, a).client;
    var d := TakesClose(s0, c, TheClient);
    assert Peer(Play(s0, d), TheClient) == Play(s0, c).node;
    moves := Finishes(s0, d);
  }

  lemma FinishedLast(s: System, moves: seq<Move>, w: Who)
    requires Sound(s) && moves != [] && Agreeable(s) && Undisturbed(s, moves) && Finished(Own(ButLast(s, moves), w))
    ensures Finished(Own(Play(s, moves), w))
  {
    UninterruptedLast(s, moves);
    HonestRun(s, moves[..|moves| - 1]);
    FinishedNext(ButLast(s, moves), moves[|moves| - 1], w);
  }

  lemma UndisturbedButLast(s: System, moves: seq<Move>)
    requires Sound(s) && moves != [] && Undisturbed(s, moves)
    ensures Undisturbed(s, moves[..|moves| - 1])
  {
    UninterruptedLast(s, moves);
  }

  lemma {:induction false} FinishedFrom(s: System, moves: seq<Move>, k: nat, w: Who)
    requires Sound(s) && Agreeable(s) && k <= |moves| && Undisturbed(s, moves) && Finished(Own(Play(s, moves[..k]), w))
    ensures Finished(Own(Play(s, moves), w))
    decreases |moves|
  {
    if k == |moves| {
      assert moves[..k] == moves;
    } else {
      var before := moves[..|moves| - 1];
      assert before[..k] == moves[..k];
      UndisturbedButLast(s, moves);
      FinishedFrom(s, before, k, w);
      FinishedLast(s, moves, w);
    }
  }

  /** And from every short start against a peer that holds the reserve it can end clean on both: the answers in the other order. */
  lemma ShortCloseCanSucceed(l: Limits, binding: nat, clientStart: Direction, nodeStart: Direction) returns (moves: seq<Move>)
    requires l.Valid() && HasRoom(l, clientStart) && HasRoom(l, nodeStart) && HasCapacity(l, nodeStart, RESERVE)
    ensures Undisturbed(Start(l, binding, clientStart, nodeStart), moves)
    ensures var s := Play(Start(l, binding, clientStart, nodeStart), moves);
            Settled(s) && BothClean(s) && s.client.m.branch == Some(Simultaneous)
  {
    var s0 := Start(l, binding, clientStart, nodeStart);
    StartIsAgreeable(l, binding, clientStart, nodeStart);
    StartsUntouched(l, binding, clientStart, nodeStart);
    var a := ReachesFinish(s0);
    var b := ThenSettles(l, binding, clientStart, nodeStart, a);
    moves := a + b;
    UndisturbedOn(s0, a, b);
    assert moves[..|a|] == a;
    FinishedFrom(s0, moves, |a|, TheClient);
    UndisturbedOutcome(l, binding, clientStart, nodeStart, moves);
  }
}
