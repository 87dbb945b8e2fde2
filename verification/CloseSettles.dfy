/**
 Progress of an honest close. Every honest step that changes anything uses up a part
 of a budget fixed by the two directions, so only so many steps of any run do; and
 once a close has begun an unsettled system always has a delivery, an owed record or a
 turn of a section to do. Together: a run that keeps serving them settles. None of this
 needs the ends to agree; what the settled close looks like does.
 */
module CloseSettles {
  import opened Prelude
  import opened RecordSequence
  import opened RecordSession
  import opened CloseRules
  import opened CloseProtocol
  import opened CloseCrossing
  import opened CloseAgreement

  // ----------------------------------------------------------------------- budget

  /** How many records a direction can still carry, at most. */
  function Left(l: Limits, d: Direction): int {
    if d.exhausted then 0 else (l.epochMax - d.epoch) * l.rekeyRecords + (l.rekeyRecords - d.records)
  }

  lemma LeftIsPositive(l: Limits, d: Direction)
    requires d.Live(l)
    ensures 0 < Left(l, d)
  {
    assert 0 <= (l.epochMax - d.epoch) * l.rekeyRecords;
  }

  lemma StepSpends(l: Limits, d: Direction, size: nat)
    requires l.Valid() && d.Live(l)
    ensures Left(l, Step(l, d, size)) < Left(l, d)
  {
    LeftIsPositive(l, d);
    if CompletesEpoch(l, d, size) && d.epoch < l.epochMax {
      assert (l.epochMax - d.epoch) * l.rekeyRecords == (l.epochMax - (d.epoch + 1)) * l.rekeyRecords + l.rekeyRecords;
    }
  }

  /** What an end has still to do that is not on a log: its end, and the turns of its section. */
  function Turns(m: Machine, section: Section): nat {
    match section
    case Idle => if m.state.Ended? then 0 else 3
    case Planned(_) => if m.state.Ended? then 1 else 2
    case OnWire(_) => if m.state.Ended? then 1 else 4
  }

  /** An end's share: the records it can still send, those sent and not answered for by its own accepting, and its turns. */
  function Share(x: Endpoint): int {
    4 * Left(x.out.l, x.out.Stands()) + |x.out.sent| - x.got + Turns(x.m, x.section)
  }

  function Measure(s: System): int { Share(s.client) + Share(s.node) }

  lemma LeftIsNat(t: Track)
    requires t.Valid()
    ensures 0 <= Left(t.l, t.Stands())
  {
    if !t.Stands().exhausted {
      SchedLive(t, |t.sent|);
      LeftIsPositive(t.l, t.Stands());
    }
  }

  lemma SystemFits(s: System)
    requires Sound(s)
    ensures Fits(s.client, s.node) && Fits(s.node, s.client)
  {
    EndsConsistent(s, TheClient);
    BothFit(s.client, s.node);
  }

  lemma MeasureIsNat(s: System)
    requires Sound(s)
    ensures 0 <= Measure(s)
  {
    SystemFits(s);
    LeftIsNat(s.client.out);
    LeftIsNat(s.node.out);
  }

  /** One record more on the direction. */
  lemma PutSpends(t: Track, size: nat, content: Content)
    requires t.Valid() && !t.Stands().exhausted
    ensures Left(t.l, t.With(size, content).Stands()) < Left(t.l, t.Stands()) && |t.With(size, content).sent| == |t.sent| + 1
  {
    SchedLive(t, |t.sent|);
    StandsAfter(t, size, content);
    StepSpends(t.l, t.Stands(), size);
  }

  /** A step that spends nothing changes nothing. */
  predicate Spends(x: Endpoint, x': Endpoint) { x' == x || Share(x') < Share(x) }

  lemma ApplicationSpends(x: Endpoint, size: nat)
    requires OwnHalf(x)
    ensures Spends(x, SendsApplication(x, size))
  {
    if SendsApplication(x, size) != x { PutSpends(x.out, size, App); }
  }

  lemma PlansSpends(x: Endpoint, built: Option<(Machine, CloseRecord)>, declared: bool)
    requires x.section.Idle? && !x.m.state.Ended? && (built.Some? ==> !built.value.0.state.Ended?)
    ensures Spends(x, Plans(x, built, declared))
  {}

  lemma PlanCloseSpends(x: Endpoint, y: Endpoint)
    requires CanPlay(x, y)
    ensures Spends(x, PlansClose(x, y))
  {
    if x.section.Idle? && x.m.state.Open? {
      var expected := ExpectedRecv(x, y);
      PlansSpends(x, if expected.None? then None else BuildClose(x.m, x.out.Stands().At(), expected.value), expected.Some?);
    }
  }

  lemma PlanOwedSpends(x: Endpoint, y: Endpoint)
    requires CanPlay(x, y)
    ensures Spends(x, PlansOwed(x, y))
  {
    if x.section.Idle? && x.m.Owes().Some? {
      var declared := Declaration(x, y);
      PlansSpends(x, if declared.None? then None else BuildCloseAck(x.m, x.out.Stands().At(), declared.value), declared.Some?);
    }
  }

  lemma ProtectSpends(x: Endpoint)
    requires OwnHalf(x)
    ensures Spends(x, Protects(x, Admitted)) && (x.section.Planned? ==> Share(Protects(x, Admitted)) < Share(x))
  {
    if x.section.Planned? {
      PutSpends(x.out, C, CloseMachineContent(x.section.record.ack, x.section.record.body));
    }
  }

  lemma NoteSpends(x: Endpoint, now: nat)
    requires OwnHalf(x)
    ensures Spends(x, Notes(x, now)) && (x.section.OnWire? ==> Share(Notes(x, now)) < Share(x))
  {
    if x.section.OnWire? && TransmittedOk(x.m, x.section.record, Last(x.out).at) {
      NotedQuiet(x.m, x.section.record, Last(x.out).at, Last(x.out).completes, now);
      assert !x.m.state.Ended?;
    }
  }

  /** An end that has ended does not come back. */
  lemma ReceivingStaysEnded(m: Machine, r: Inbound, envelope: Position, completed: bool, nextSend: Position, now: nat)
    requires m.Valid()
    ensures Receive(m, r, envelope, completed, nextSend, now).1.FatalClose? ==>
              Receive(m, r, envelope, completed, nextSend, now).0.state.Ended?
  {}

  lemma AcceptSpends(x: Endpoint, y: Endpoint, now: nat)
    requires CanPlay(x, y)
    ensures Spends(x, Accepts(x, y, now))
    ensures x.got < |y.out.sent| && !x.m.state.Ended? ==> Share(Accepts(x, y, now)) < Share(x)
  {
    if x.got < |y.out.sent| && !x.m.state.Ended? && !x.out.Stands().exhausted {
      var w := y.out.sent[x.got];
      ReceivingStaysEnded(x.m, Inner(w), w.at, w.completes, x.out.Stands().At(), now);
    }
  }

  /** An honest step changes nothing or spends a part of its end's share. */
  lemma ActSpends(x: Endpoint, y: Endpoint, act: Action)
    requires OwnHalf(x) && CanPlay(x, y) && Honest(act)
    ensures Spends(x, Act(x, y, act))
  {
    match act
    case SendApplication(size) => ApplicationSpends(x, size);
    case PlanClose => PlanCloseSpends(x, y);
    case PlanOwed => PlanOwedSpends(x, y);
    case Protect(_) => ProtectSpends(x);
    case Note(now) => NoteSpends(x, now);
    case Accept(now) => AcceptSpends(x, y, now);
  }

  lemma NextMeasure(s: System, move: Move)
    requires Playable(s)
    ensures var x, y := Own(s, By(move)), Peer(s, By(move));
            CanPlay(x, y) && Measure(Next(s, move)) == Measure(s) - Share(x) + Share(Act(x, y, move.act))
  {
    EndPlays(s, By(move));
  }

  lemma EndFits(s: System, w: Who)
    requires Sound(s)
    ensures OwnHalf(Own(s, w)) && CanPlay(Own(s, w), Peer(s, w))
  {
    EndsConsistent(s, w);
    BothFit(Own(s, w), Peer(s, w));
  }

  lemma NextSpends(s: System, move: Move)
    requires Sound(s) && Honest(move.act)
    ensures Next(s, move) == s || Measure(Next(s, move)) < Measure(s)
  {
    EndFits(s, By(move));
    ActSpends(Own(s, By(move)), Peer(s, By(move)), move.act);
    NextMeasure(s, move);
  }

  lemma PlayMore(s: System, moves: seq<Move>, move: Move)
    requires Sound(s)
    ensures Play(s, moves + [move]) == Next(Play(s, moves), move)
  {
    assert (moves + [move])[..|moves|] == moves;
  }

  /** How many moves of the run changed anything. */
  ghost function Changes(s: System, moves: seq<Move>): nat
    requires Sound(s)
    decreases |moves|
  {
    if moves == [] then 0
    else Changes(s, moves[..|moves| - 1]) + if Play(s, moves) == ButLast(s, moves) then 0 else 1
  }

  lemma LastSpends(s: System, moves: seq<Move>)
    requires Sound(s) && moves != [] && Honest(moves[|moves| - 1].act)
    ensures Measure(Play(s, moves)) <= Measure(ButLast(s, moves))
    ensures Measure(Play(s, moves)) == Measure(ButLast(s, moves)) ==> Play(s, moves) == ButLast(s, moves)
  {
    NextSpends(ButLast(s, moves), moves[|moves| - 1]);
  }

  /** Of however many honest steps only so many do anything: the budget of the start. */
  lemma {:induction false} ChangesAreBounded(s: System, moves: seq<Move>)
    requires Sound(s) && AllHonest(moves)
    ensures Changes(s, moves) + Measure(Play(s, moves)) <= Measure(s) && 0 <= Measure(Play(s, moves))
    decreases |moves|
  {
    MeasureIsNat(Play(s, moves));
    if moves != [] {
      ChangesAreBounded(s, moves[..|moves| - 1]);
      LastSpends(s, moves);
    }
  }

  // --------------------------------------------------------------------- progress

  /** What a close needs served: deliveries, what is owed, and the two later turns of a section. */
  datatype Service = Delivery | OwedRecord | Sending | Commit

  predicate IsOf(act: Action, service: Service) {
    match service
    case Delivery => act.Accept?
    case OwedRecord => act.PlanOwed?
    case Sending => act.Protect?
    case Commit => act.Note?
  }

  /** Among the moves is one of this end that serves it. */
  predicate Has(moves: seq<Move>, w: Who, service: Service) {
    exists i :: 0 <= i < |moves| && By(moves[i]) == w && IsOf(moves[i].act, service)
  }

  /** A fair stretch of an honest run: each end gets each service at least once. */
  predicate Round(moves: seq<Move>) {
    && AllHonest(moves)
    && forall w: Who, service: Service {:trigger Has(moves, w, service)} :: Has(moves, w, service)
  }

  /** What the step would serve is served. */
  predicate Served(x: Endpoint, y: Endpoint, service: Service) {
    match service
    case Delivery => x.m.state.Ended? || x.got == |y.out.sent|
    case OwedRecord => x.section.Idle? ==> x.m.Owes().None?
    case Sending => !x.section.Planned?
    case Commit => !x.section.OnWire?
  }

  predicate Serves(x: Endpoint, y: Endpoint, act: Action) {
    forall service {:trigger IsOf(act, service)} :: IsOf(act, service) ==> Served(x, y, service)
  }

  predicate Discharged(s: System, move: Move) { Serves(Own(s, By(move)), Peer(s, By(move)), move.act) }

  predicate AllDischarged(s: System, moves: seq<Move>) { forall i :: 0 <= i < |moves| ==> Discharged(s, moves[i]) }

  /** What is owed can be built. */
  lemma OwedChanges(x: Endpoint, y: Endpoint)
    requires x.m.Valid() && CanPlay(x, y) && x.section.Idle? && x.m.Owes().Some?
    ensures PlansOwed(x, y) != x
  {
    var x' := PlansOwed(x, y);
    assert x'.section.Planned? || x'.m.state.Ended?;
  }

  lemma ActDischarges(x: Endpoint, y: Endpoint, act: Action)
    requires OwnHalf(x) && CanPlay(x, y) && Honest(act) && Share(Act(x, y, act)) >= Share(x)
    ensures Serves(x, y, act)
  {
    match act
    case SendApplication(_) =>
    case PlanClose =>
    case PlanOwed =>
      PlanOwedSpends(x, y);
      if x.section.Idle? && x.m.Owes().Some? { OwedChanges(x, y); }
    case Protect(_) => ProtectSpends(x);
    case Note(now) => NoteSpends(x, now);
    case Accept(now) => AcceptSpends(x, y, now);
  }

  lemma LastDischarges(s: System, moves: seq<Move>)
    requires Sound(s) && moves != [] && Honest(moves[|moves| - 1].act)
    ensures Measure(Play(s, moves)) >= Measure(ButLast(s, moves)) ==> Discharged(ButLast(s, moves), moves[|moves| - 1])
  {
    var mid, last := ButLast(s, moves), moves[|moves| - 1];
    NextMeasure(mid, last);
    EndFits(mid, By(last));
    if Share(Act(Own(mid, By(last)), Peer(mid, By(last)), last.act)) >= Share(Own(mid, By(last))) {
      ActDischarges(Own(mid, By(last)), Peer(mid, By(last)), last.act);
    }
  }

  lemma DischargedWithLast(s: System, moves: seq<Move>)
    requires moves != [] && AllDischarged(s, moves[..|moves| - 1]) && Discharged(s, moves[|moves| - 1])
    ensures AllDischarged(s, moves)
  {
    var before := moves[..|moves| - 1];
    forall i | 0 <= i < |moves| ensures Discharged(s, moves[i]) {
      if i < |before| { assert moves[i] == before[i]; }
    }
  }

  /** A run that spends nothing ends where it began. */
  lemma {:induction false} UnspentStays(s: System, moves: seq<Move>)
    requires Sound(s) && AllHonest(moves)
    ensures Measure(Play(s, moves)) <= Measure(s)
    ensures Measure(Play(s, moves)) == Measure(s) ==> Play(s, moves) == s
    decreases |moves|
  {
    if moves != [] {
      UnspentStays(s, moves[..|moves| - 1]);
      LastSpends(s, moves);
    }
  }

  lemma UnspentLast(s: System, moves: seq<Move>)
    requires Sound(s) && AllHonest(moves) && moves != [] && Measure(Play(s, moves)) == Measure(s)
    ensures ButLast(s, moves) == s && Discharged(s, moves[|moves| - 1])
  {
    UnspentStays(s, moves[..|moves| - 1]);
    LastSpends(s, moves);
    LastDischarges(s, moves);
  }

  /** And has served everything it meant to serve. */
  lemma {:induction false} UnspentDischarges(s: System, moves: seq<Move>)
    requires Sound(s) && AllHonest(moves) && Measure(Play(s, moves)) == Measure(s)
    ensures AllDischarged(s, moves)
    decreases |moves|
  {
    if moves != [] {
      UnspentLast(s, moves);
      UnspentDischarges(s, moves[..|moves| - 1]);
      DischargedWithLast(s, moves);
    }
  }

  lemma DischargedServes(s: System, moves: seq<Move>, w: Who, service: Service)
    requires AllDischarged(s, moves) && Has(moves, w, service)
    ensures Served(Own(s, w), Peer(s, w), service)
  {
    var i :| 0 <= i < |moves| && By(moves[i]) == w && IsOf(moves[i].act, service);
    assert Discharged(s, moves[i]);
  }

  lemma DischargedMeansDone(s: System, moves: seq<Move>, w: Who)
    requires AllDischarged(s, moves) && Round(moves)
    ensures Done(Own(s, w), Peer(s, w))
  {
    assert Has(moves, w, Delivery) && Has(moves, w, OwedRecord) && Has(moves, w, Sending) && Has(moves, w, Commit);
    DischargedServes(s, moves, w, Delivery);
    DischargedServes(s, moves, w, OwedRecord);
    DischargedServes(s, moves, w, Sending);
    DischargedServes(s, moves, w, Commit);
  }

  /** Once a close has begun, a fair stretch settles it or spends some of the budget. */
  lemma RoundSettlesOrSpends(s: System, moves: seq<Move>)
    requires Sound(s) && Begun(s) && Round(moves)
    ensures Settled(Play(s, moves)) || Measure(Play(s, moves)) < Measure(s)
  {
    UnspentStays(s, moves);
    if Measure(Play(s, moves)) == Measure(s) {
      UnspentDischarges(s, moves);
      DischargedMeansDone(s, moves, TheClient);
      DischargedMeansDone(s, moves, TheNode);
    }
  }

  // -------------------------------------------------------------------- stability

  lemma ReceivingOpensNothing(m: Machine, r: Inbound, envelope: Position, completed: bool, nextSend: Position, now: nat)
    requires m.Valid() && !m.state.Open?
    ensures !Receive(m, r, envelope, completed, nextSend, now).0.state.Open?
  {
    match r
    case RpcRecord =>
    case ErrorRecord(_) =>
    case CloseMachineRecord(ack, body) => if !m.state.Ended? && ack { AckTaken(m, body, envelope, nextSend); }
  }

  lemma OpenIsNotRegained(x: Endpoint, y: Endpoint, act: Action)
    requires OwnHalf(x) && CanPlay(x, y) && Honest(act) && !x.m.state.Open?
    ensures !Act(x, y, act).m.state.Open?
  {
    match act
    case SendApplication(size) =>
    case PlanClose =>
    case PlanOwed =>
    case Protect(_) =>
    case Note(now) =>
      if x.section.OnWire? && TransmittedOk(x.m, x.section.record, Last(x.out).at) {
        NotedQuiet(x.m, x.section.record, Last(x.out).at, Last(x.out).completes, now);
      }
    case Accept(now) =>
      if x.got < |y.out.sent| {
        var w := y.out.sent[x.got];
        ReceivingOpensNothing(x.m, Inner(w), w.at, w.completes, x.out.Stands().At(), now);
      }
  }

  lemma BegunNext(s: System, move: Move)
    requires Sound(s) && Honest(move.act) && Begun(s)
    ensures Begun(Next(s, move))
  {
    var w := By(move);
    EndFits(s, w);
    if !Own(s, w).m.state.Open? { OpenIsNotRegained(Own(s, w), Peer(s, w), move.act); }
  }

  lemma {:induction false} BegunStays(s: System, moves: seq<Move>)
    requires Sound(s) && Begun(s) && AllHonest(moves)
    ensures Begun(Play(s, moves))
    decreases |moves|
  {
    if moves != [] {
      BegunStays(s, moves[..|moves| - 1]);
      BegunNext(ButLast(s, moves), moves[|moves| - 1]);
    }
  }

  /** Nothing honest moves an end that is done and has sent a close record. */
  lemma DoneStays(x: Endpoint, y: Endpoint, act: Action)
    requires CanPlay(x, y) && Honest(act) && Done(x, y) && x.closes > 0
    requires x.m.state.Ended? || x.m.state.Complete?
    ensures Act(x, y, act) == x
  {}

  lemma SettledNext(s: System, move: Move)
    requires Sound(s) && Agreeable(s) && Settled(s) && Honest(move.act)
    ensures Next(s, move) == s
  {
    var w := By(move);
    SettledSystem(s, w);
    SystemIsPair(s, w);
    PairIsMatched(Own(s, w), Peer(s, w));
    DoneStays(Own(s, w), Peer(s, w), move.act);
  }

  lemma {:induction false} SettledStays(s: System, moves: seq<Move>)
    requires Sound(s) && Agreeable(s) && Settled(s) && AllHonest(moves)
    ensures Play(s, moves) == s
    decreases |moves|
  {
    if moves != [] {
      SettledStays(s, moves[..|moves| - 1]);
      SettledNext(s, moves[|moves| - 1]);
    }
  }

  // ----------------------------------------------------------------------- rounds

  function Flat(rounds: seq<seq<Move>>): seq<Move> {
    if rounds == [] then [] else Flat(rounds[..|rounds| - 1]) + rounds[|rounds| - 1]
  }

  predicate AllRounds(rounds: seq<seq<Move>>) { forall i :: 0 <= i < |rounds| ==> Round(rounds[i]) }

  lemma {:induction false} FlatIsHonest(rounds: seq<seq<Move>>)
    requires AllRounds(rounds)
    ensures AllHonest(Flat(rounds))
  {
    if rounds != [] {
      FlatIsHonest(rounds[..|rounds| - 1]);
      assert Round(rounds[|rounds| - 1]);
    }
  }

  lemma {:induction false} PlayConcat(s: System, a: seq<Move>, b: seq<Move>)
    requires Sound(s)
    ensures Play(s, a + b) == Play(Play(s, a), b)
    decreases |b|
  {
    if b == [] {
      assert a + b == a;
    } else {
      var before, last := b[..|b| - 1], b[|b| - 1];
      assert a + b == (a + before) + [last] && b == before + [last];
      PlayConcat(s, a, before);
      PlayMore(s, a + before, last);
      PlayMore(Play(s, a), before, last);
    }
  }

  /** After some of the rounds the close is settled. */
  ghost predicate SettlesBy(s: System, rounds: seq<seq<Move>>)
    requires Sound(s)
  {
    exists k {:trigger rounds[..k]} :: 0 <= k <= |rounds| && Settled(Play(s, Flat(rounds[..k])))
  }

  lemma SettlesLater(s: System, rounds: seq<seq<Move>>)
    requires Sound(s) && rounds != [] && SettlesBy(s, rounds[..|rounds| - 1])
    ensures SettlesBy(s, rounds)
  {
    var before := rounds[..|rounds| - 1];
    var k :| 0 <= k <= |before| && Settled(Play(s, Flat(before[..k])));
    assert rounds[..k] == before[..k];
  }

  lemma LastRound(s: System, before: seq<Move>, last: seq<Move>)
    requires Sound(s) && Begun(s) && AllHonest(before) && Round(last)
    ensures Settled(Play(s, before + last)) || Measure(Play(s, before + last)) < Measure(Play(s, before))
  {
    BegunStays(s, before);
    PlayConcat(s, before, last);
    RoundSettlesOrSpends(Play(s, before), last);
  }

  /** Each fair stretch settles the close or spends a part of the budget. */
  lemma {:induction false} RoundsSettleOrSpend(s: System, rounds: seq<seq<Move>>)
    requires Sound(s) && Begun(s) && AllRounds(rounds)
    ensures SettlesBy(s, rounds) || Measure(Play(s, Flat(rounds))) + |rounds| <= Measure(s)
    decreases |rounds|
  {
    if rounds != [] {
      var before, last := rounds[..|rounds| - 1], rounds[|rounds| - 1];
      RoundsSettleOrSpend(s, before);
      if SettlesBy(s, before) {
        SettlesLater(s, rounds);
      } else {
        FlatIsHonest(before);
        assert Round(last);
        LastRound(s, Flat(before), last);
        assert rounds[..|rounds|] == rounds;
      }
    }
  }

  /** More fair stretches than the budget: after some of them the close is settled, interrupted or not. */
  lemma FairRunsSettle(s: System, rounds: seq<seq<Move>>)
    requires Sound(s) && Begun(s) && AllRounds(rounds) && |rounds| > Measure(s)
    ensures SettlesBy(s, rounds)
  {
    RoundsSettleOrSpend(s, rounds);
    MeasureIsNat(Play(s, Flat(rounds)));
  }

  /** What two directions allow: four times what each can carry, and the turns of two ends. */
  function Budget(l: Limits, clientStart: Direction, nodeStart: Direction): int {
    4 * Left(l, clientStart) + 4 * Left(l, nodeStart) + 6
  }

  lemma StartMeasure(l: Limits, binding: nat, clientStart: Direction, nodeStart: Direction)
    requires l.Valid() && clientStart.Live(l) && nodeStart.Live(l)
    ensures Measure(Start(l, binding, clientStart, nodeStart)) == Budget(l, clientStart, nodeStart)
  {}

  /** From any starts, after any honest run in which a close began. */
  lemma FairClosesSettle(l: Limits, binding: nat, clientStart: Direction, nodeStart: Direction,
                         moves: seq<Move>, rounds: seq<seq<Move>>)
    requires l.Valid() && clientStart.Live(l) && nodeStart.Live(l) && AllHonest(moves) && AllRounds(rounds)
    requires Begun(Play(Start(l, binding, clientStart, nodeStart), moves)) && |rounds| > Budget(l, clientStart, nodeStart)
    ensures SettlesBy(Play(Start(l, binding, clientStart, nodeStart), moves), rounds)
  {
    var s0 := Start(l, binding, clientStart, nodeStart);
    StartMeasure(l, binding, clientStart, nodeStart);
    ChangesAreBounded(s0, moves);
    FairRunsSettle(Play(s0, moves), rounds);
  }

  // ------------------------------------------------------------------ undisturbed

  lemma {:induction false} FlatSplits(rounds: seq<seq<Move>>, k: nat)
    requires k <= |rounds|
    ensures Flat(rounds) == Flat(rounds[..k]) + Flat(rounds[k..])
    decreases |rounds|
  {
    if k == |rounds| {
      assert rounds[..k] == rounds && rounds[k..] == [];
    } else {
      var before := rounds[..|rounds| - 1];
      FlatSplits(before, k);
      assert before[..k] == rounds[..k] && rounds[k..][..|rounds| - k - 1] == before[k..];
    }
  }

  lemma {:induction false} InterruptedLater(s: System, a: seq<Move>, b: seq<Move>, w: Who)
    requires Sound(s) && Interrupted(s, a, w)
    ensures Interrupted(s, a + b, w)
    decreases |b|
  {
    if b == [] {
      assert a + b == a;
    } else {
      InterruptedLater(s, a, b[..|b| - 1], w);
      assert (a + b)[..|a + b| - 1] == a + b[..|b| - 1];
    }
  }

  lemma UninterruptedBefore(s: System, a: seq<Move>, b: seq<Move>)
    requires Sound(s) && Uninterrupted(s, a + b)
    ensures Uninterrupted(s, a)
  {
    forall w ensures !Interrupted(s, a, w) {
      if Interrupted(s, a, w) { InterruptedLater(s, a, b, w); }
    }
  }

  /** A run that was settled on the way and undisturbed is settled at its end. */
  lemma SettledOnTheWay(s0: System, a: seq<Move>, b: seq<Move>)
    requires Sound(s0) && Agreeable(s0) && AllHonest(a) && AllHonest(b) && Uninterrupted(s0, a) && Settled(Play(s0, a))
    ensures Play(s0, a + b) == Play(s0, a)
  {
    HonestRun(s0, a);
    PlayConcat(s0, a, b);
    SettledStays(Play(s0, a), b);
  }

  lemma RoundsAfter(rounds: seq<seq<Move>>, k: nat)
    requires AllRounds(rounds) && k <= |rounds|
    ensures AllHonest(Flat(rounds[..k])) && AllHonest(Flat(rounds[k..]))
  {
    FlatIsHonest(rounds[..k]);
    FlatIsHonest(rounds[k..]);
  }

  lemma HonestSum(a: seq<Move>, b: seq<Move>)
    requires AllHonest(a) && AllHonest(b)
    ensures AllHonest(a + b)
  {}

  lemma FrontSettles(s0: System, moves: seq<Move>, front: seq<Move>, back: seq<Move>)
    requires Sound(s0) && Agreeable(s0) && AllHonest(moves) && AllHonest(front) && AllHonest(back)
    requires Settled(Play(Play(s0, moves), front)) && Uninterrupted(s0, (moves + front) + back)
    ensures Settled(Play(s0, (moves + front) + back))
  {
    PlayConcat(s0, moves, front);
    HonestSum(moves, front);
    UninterruptedBefore(s0, moves + front, back);
    SettledOnTheWay(s0, moves + front, back);
  }

  lemma FlatInThree(moves: seq<Move>, rounds: seq<seq<Move>>, k: nat)
    requires k <= |rounds|
    ensures moves + Flat(rounds) == (moves + Flat(rounds[..k])) + Flat(rounds[k..])
  {
    FlatSplits(rounds, k);
  }

  /** If nobody is interrupted the settled close stays as it is. */
  lemma UndisturbedSettles(s0: System, moves: seq<Move>, rounds: seq<seq<Move>>)
    requires Sound(s0) && Agreeable(s0) && AllHonest(moves) && AllRounds(rounds) && SettlesBy(Play(s0, moves), rounds)
    requires Uninterrupted(s0, moves + Flat(rounds))
    ensures Settled(Play(s0, moves + Flat(rounds)))
  {
    var k :| 0 <= k <= |rounds| && Settled(Play(Play(s0, moves), Flat(rounds[..k])));
    RoundsAfter(rounds, k);
    FlatInThree(moves, rounds, k);
    FrontSettles(s0, moves, Flat(rounds[..k]), Flat(rounds[k..]));
  }

  /**
   An honest close always settles: from a synchronised pair, after any honest run in
   which a close began, after some of more fair stretches than the budget of the two
   directions nothing is in flight, owed or under way. And after all of them both ends
   are clean exactly if neither took the peer's close record between building its own
   first and committing it; then the close is settled, and both took one branch.
   */
  lemma HonestCloseSettles(l: Limits, binding: nat, clientStart: Direction, nodeStart: Direction,
                           moves: seq<Move>, rounds: seq<seq<Move>>)
    requires Synchronised(l, clientStart, nodeStart) && AllHonest(moves) && AllRounds(rounds)
    requires Begun(Play(Start(l, binding, clientStart, nodeStart), moves)) && |rounds| > Budget(l, clientStart, nodeStart)
    ensures var s0 := Start(l, binding, clientStart, nodeStart);
            var all := moves + Flat(rounds);
            && SettlesBy(Play(s0, moves), rounds)
            && (BothClean(Play(s0, all)) <==> Uninterrupted(s0, all))
            && (BothClean(Play(s0, all)) ==> Settled(Play(s0, all)) && SameBranch(Play(s0, all)))
  {
    var s0 := Start(l, binding, clientStart, nodeStart);
    var all := moves + Flat(rounds);
    SynchronisedHasRoom(l, clientStart, nodeStart);
    StartIsAgreeable(l, binding, clientStart, nodeStart);
    FairClosesSettle(l, binding, clientStart, nodeStart, moves, rounds);
    FlatIsHonest(rounds);
    HonestSum(moves, Flat(rounds));
    if Uninterrupted(s0, all) {
      UndisturbedSettles(s0, moves, rounds);
      CloseAgreement.CloseAgreement(l, binding, clientStart, nodeStart, all);
    } else {
      var w :| Interrupted(s0, all, w);
      HonestIsNotRefused(all);
      InterruptedNeverCompletes(l, binding, clientStart, nodeStart, all, w);
    }
  }
}
