/**
 The node's channel read mode by mode: everything that ends it and how, everything it
 shows, and the only ways into the legacy and the encrypted mode. This is the mode
 machine's behaviour said a second time, from the side of what the peer and the
 operator can see, and the two are proved to agree on every input.
 */
module NodeEndings {
  import opened Prelude
  import opened NodeModeMachine

  /** The next payload is taken: after the announcement, and not while a handshake turn is out or its failure is unanswered. */
  predicate Listens(c: Channel) { c.announced && !c.helloPending && c.unanswered.None? }

  function AnswerEnds(c: Channel): Option<Observation> {
    if c.unanswered.Some? then Some(FatalPre(c.unanswered.value)) else None
  }

  // ------------------------------------------------------------- what ends a channel

  function NegotiatingEnds(c: Channel, e: Event): Option<Observation> {
    match e.input
    case Announce(FatalPlan(row), _) => if c.announced || c.advertised then None else Some(FatalPre(row))
    case Announce(Advertise, false) => if c.announced || !c.advertised then None else Some(FatalPre(Local))
    case Receive(LegacyJson) => if Listens(c) && e.requireE2EE then Some(FatalPre(P1)) else None
    case Receive(OtherNegotiation) => if Listens(c) then Some(FatalPre(P3)) else None
    case Receive(ClientHello) => if Listens(c) && !c.advertised then Some(FatalPre(P4)) else None
    case Receive(Envelope(_)) => if Listens(c) then Some(FatalPre(P5)) else None
    case Receive(Other) => if Listens(c) then Some(FatalPre(P6)) else None
    case DeadlineExpires => if c.deadline && e.requireE2EE then Some(FatalPre(P7)) else None
    case PolicySweep(true) => if c.unanswered.Some? then Some(FatalPre(P25)) else None
    case AuthorizationSweep(true) => if c.unanswered.Some? then Some(FatalPre(P12)) else None
    case Revoke => Some(FatalPre(P12))
    case FailureAnswered => AnswerEnds(c)
    case Abandon(_) => Some(ClosedSilently)
    case Dispose => Some(ClosedSilently)
    case _ => None
  }

  function LegacyEnds(c: Channel, e: Event): Option<Observation> {
    match e.input
    case Receive(ClientHello) => Some(FatalPre(P24))
    case Receive(OtherNegotiation) => Some(FatalPre(P24))
    case Receive(Envelope(_)) => Some(FatalPre(P5))
    case Receive(Other) => Some(FatalPre(P6))
    case Revoke => Some(FatalPre(P12))
    case PolicySweep(_) => Some(ClosedSilently)
    case Abandon(_) => Some(ClosedSilently)
    case Dispose => Some(ClosedSilently)
    case _ => None
  }

  /** In the encrypted mode every fatal ending is keyed but the answer to a handshake turn that failed after its accept. */
  function E2eeEnds(c: Channel, e: Event): Option<Observation> {
    match e.input
    case Receive(Envelope(BadEnvelope)) => if Listens(c) then Some(FatalPost(Q1to5)) else None
    case Receive(Envelope(Authentic(finishRow, dispatch))) =>
      if !Listens(c) then None
      else if !c.finished && finishRow.Some? then Some(FatalPost(finishRow.value))
      else if dispatch == TerminalError then Some(ClosedSilently)
      else if dispatch == CloseFatal then Some(FatalPost(Q7))
      else None
    case Receive(_) => if Listens(c) then Some(FatalPost(Q6)) else None
    case DeadlineExpires => if c.deadline && !c.finished then Some(FatalPost(Q8)) else None
    case AuthorizationSweep(_) => Some(FatalPost(Q9))
    case Revoke => Some(FatalPost(Q9))
    case SendPathFails => Some(FatalPost(Q10))
    case Abandon(false) => Some(FatalPost(Q10))
    case PolicySweep(_) => Some(FatalPost(Q12))
    case FailureAnswered => AnswerEnds(c)
    case ClosePhaseEnds => Some(ClosedSilently)
    case Dispose => Some(ClosedSilently)
    case _ => None
  }

  function EndsAs(c: Channel, e: Event): Option<Observation> {
    match c.mode
    case Negotiating => NegotiatingEnds(c, e)
    case Legacy => LegacyEnds(c, e)
    case E2ee => E2eeEnds(c, e)
    case Closed => None
  }

  predicate Ended(d: Channel, o: Observation) { d.mode == Closed && d.ending == Some(o) && !d.deadline }

  /** The step ends the open channel exactly as it should, or leaves it open. */
  predicate EndsRightly(c: Channel, e: Event) {
    var d := Step(c, e);
    if EndsAs(c, e).Some? then Ended(d, EndsAs(c, e).value) else d.mode != Closed && d.ending.None?
  }

  lemma ReceiveEnds(c: Channel, p: Payload, requireE2EE: bool)
    requires Promises(c) && c.mode != Closed
    ensures EndsRightly(c, Event(Receive(p), requireE2EE))
  {
    match c.mode
    case Negotiating =>
    case Legacy =>
    case E2ee =>
  }

  lemma BesideEnds(c: Channel, e: Event)
    requires Promises(c) && c.mode != Closed
    requires !e.input.Receive? && !e.input.Announce? && !e.input.HelloReturns? && !e.input.FailureAnswered?
    ensures EndsRightly(c, e)
  {
    match c.mode
    case Negotiating =>
    case Legacy =>
    case E2ee =>
  }

  /** On every open channel a run reaches, every input ends it exactly when its mode says, and with exactly that ending. */
  lemma EndsExactly(c: Channel, e: Event)
    requires Promises(c) && c.mode != Closed
    ensures EndsRightly(c, e)
  {
    match e.input
    case Receive(p) => ReceiveEnds(c, p, e.requireE2EE);
    case Announce(_, _) =>
    case HelloReturns(_) =>
    case FailureAnswered =>
    case _ => BesideEnds(c, e);
  }

  /**
   A revocation ends every open channel for good, with the keyed ending exactly in the
   encrypted mode; a disposal ends it in silence. Whatever comes after, nothing more is
   seen on it.
   */
  lemma RevocationIsFinal(plan: Plan, events: seq<Event>, last: Event, later: seq<Event>)
    requires last.input == Revoke || last.input == Dispose
    ensures var c := Run(Open(plan), events);
            var d := Run(Step(c, last), later);
            && d.mode == Closed
            && (c.mode != Closed ==>
                  d.ending == Some(if last.input == Dispose then ClosedSilently
                                   else if c.mode == E2ee then FatalPost(Q9) else FatalPre(P12)))
            && d.seen == Step(c, last).seen
  {
    RunKeepsPromises(plan, events);
    var c := Run(Open(plan), events);
    if c.mode != Closed { EndsExactly(c, last); }
    ClosedIsFinal(Step(c, last), later);
  }

  /** What the policy sweep is for: whatever has happened, it leaves no legacy and no encrypted channel open. */
  lemma SweepLeavesNothingSettled(plan: Plan, events: seq<Event>, inFlight: bool, requireE2EE: bool)
    ensures var d := Step(Run(Open(plan), events), Event(PolicySweep(inFlight), requireE2EE));
            d.mode != Legacy && d.mode != E2ee
  {
    RunKeepsPromises(plan, events);
    var c := Run(Open(plan), events);
    if c.mode != Closed { EndsExactly(c, Event(PolicySweep(inFlight), requireE2EE)); }
  }

  // ------------------------------------------------------------- what the outside sees

  /** What an input shows besides an ending. */
  function Passing(c: Channel, e: Event): seq<Observation> {
    match c.mode
    case Negotiating =>
      (match e.input
       case Announce(Suppress, _) => if c.announced || c.advertised then [] else [AdvertisementUnavailable]
       case Announce(Advertise, true) => if c.announced || !c.advertised then [] else [CarrierSent]
       case Receive(LegacyJson) =>
         if !Listens(c) || e.requireE2EE then []
         else if c.advertised then [PeerLegacyFallback, ParsedPlaintext] else [ParsedPlaintext]
       case HelloReturns(HelloAdmitted(_)) => if c.helloPending then [ServedHello] else []
       case _ => [])
    case Legacy =>
      if e.input == Receive(LegacyJson) then [ParsedPlaintext]
      else if e.input == Emit then [EmittedPlaintext]
      else []
    case E2ee =>
      (match e.input
       case Receive(Envelope(Authentic(finishRow, Application))) =>
         if Listens(c) && (c.finished || finishRow.None?) then [ParsedEnvelopeBody] else []
       case Emit => if c.finished then [EmittedProtected] else []
       case _ => [])
    case Closed => []
  }

  function Shows(c: Channel, e: Event): seq<Observation> {
    Passing(c, e) + if EndsAs(c, e).Some? then [EndsAs(c, e).value] else []
  }

  datatype Kind = Hello | Fallback | Unavailable | PreKey | PostKey | Plaintext | Body

  predicate Is(o: Observation, k: Kind) {
    match k
    case Hello => o == ServedHello
    case Fallback => o == AdvertisementUnavailable || o == PeerLegacyFallback
    case Unavailable => o == AdvertisementUnavailable
    case PreKey => o.FatalPre?
    case PostKey => o.FatalPost?
    case Plaintext => o == ParsedPlaintext || o == EmittedPlaintext
    case Body => o == ParsedEnvelopeBody || o == EmittedProtected
  }

  function HowMany(os: seq<Observation>, k: Kind): nat {
    if os == [] then 0 else HowMany(os[..|os| - 1], k) + if Is(os[|os| - 1], k) then 1 else 0
  }

  function Seen(t: Tally, k: Kind): nat {
    match k
    case Hello => t.hellos
    case Fallback => t.fallbacks
    case Unavailable => t.unavailable
    case PreKey => t.fatalPre
    case PostKey => t.fatalPost
    case Plaintext => t.plaintexts
    case Body => t.bodies
  }

  lemma {:induction false} HowManyMore(a: seq<Observation>, b: seq<Observation>, k: Kind)
    ensures HowMany(a + b, k) == HowMany(a, k) + HowMany(b, k)
    decreases |b|
  {
    if b == [] {
      assert a + b == a;
    } else {
      HowManyMore(a, b[..|b| - 1], k);
      assert (a + b)[..|a + b| - 1] == a + b[..|b| - 1];
    }
  }

  function AddAll(t: Tally, os: seq<Observation>): Tally {
    if os == [] then t else Add(AddAll(t, os[..|os| - 1]), os[|os| - 1])
  }

  lemma AddedIs(t: Tally, o: Observation, k: Kind)
    ensures Seen(Add(t, o), k) == Seen(t, k) + if Is(o, k) then 1 else 0
  {}

  lemma {:induction false} AllAdded(t: Tally, os: seq<Observation>, k: Kind)
    ensures Seen(AddAll(t, os), k) == Seen(t, k) + HowMany(os, k)
  {
    if os != [] {
      AllAdded(t, os[..|os| - 1], k);
      AddedIs(AddAll(t, os[..|os| - 1]), os[|os| - 1], k);
    }
  }

  lemma AddsTwo(t: Tally, a: Observation, b: Observation)
    ensures AddAll(t, [a]) == Add(t, a) && AddAll(t, [a, b]) == Add(Add(t, a), b)
  {
    assert [a][..0] == [] && [a, b][..1] == [a];
  }

  /** The tally moves by exactly what the step shows. */
  predicate Tallied(c: Channel, e: Event) {
    var shown := Shows(c, e);
    && |shown| <= 2
    && Step(c, e).seen == if shown == [] then c.seen
                          else if |shown| == 1 then Add(c.seen, shown[0]) else Add(Add(c.seen, shown[0]), shown[1])
  }

  lemma ReceiveTallied(c: Channel, p: Payload, requireE2EE: bool)
    requires Promises(c) && c.mode != Closed
    ensures Tallied(c, Event(Receive(p), requireE2EE))
  {
    match c.mode
    case Negotiating =>
    case Legacy =>
    case E2ee =>
  }

  lemma OthersTallied(c: Channel, e: Event)
    requires Promises(c) && c.mode != Closed && !e.input.Receive?
    ensures Tallied(c, e)
  {
    match c.mode
    case Negotiating =>
    case Legacy =>
    case E2ee =>
  }

  lemma StepTallied(c: Channel, e: Event)
    requires Promises(c)
    ensures Step(c, e).seen == AddAll(c.seen, Shows(c, e))
  {
    var shown := Shows(c, e);
    if c.mode == Closed {
      ClosedStays(c, e);
    } else {
      if e.input.Receive? { ReceiveTallied(c, e.input.payload, e.requireE2EE); } else { OthersTallied(c, e); }
      if |shown| > 0 { AddsTwo(c.seen, shown[0], shown[|shown| - 1]); }
      assert |shown| == 2 ==> shown == [shown[0], shown[1]];
      assert |shown| == 1 ==> shown == [shown[0]];
    }
  }

  /** Everything a run showed, in order. */
  function History(c: Channel, events: seq<Event>): seq<Observation>
    decreases |events|
  {
    if events == [] then []
    else History(c, events[..|events| - 1]) + Shows(Run(c, events[..|events| - 1]), events[|events| - 1])
  }

  /** Over every run the tallies are the counts of what was shown: nothing is counted twice, under another kind, or not at all. */
  lemma {:induction false} HistoryIsTallied(plan: Plan, events: seq<Event>, k: Kind)
    ensures Seen(Run(Open(plan), events).seen, k) == HowMany(History(Open(plan), events), k)
    decreases |events|
  {
    if events != [] {
      var before, last := events[..|events| - 1], events[|events| - 1];
      HistoryIsTallied(plan, before, k);
      RunKeepsPromises(plan, before);
      StepTallied(Run(Open(plan), before), last);
      AllAdded(Run(Open(plan), before).seen, Shows(Run(Open(plan), before), last), k);
      HowManyMore(History(Open(plan), before), Shows(Run(Open(plan), before), last), k);
    }
  }

  // -------------------------------------------------------------- how a channel gets on

  /** The one way into legacy: plaintext that finds the channel negotiating, under a policy that does not require encryption. */
  lemma EntersLegacyExactly(c: Channel, e: Event)
    requires Promises(c) && c.mode != Legacy
    ensures Step(c, e).mode == Legacy <==>
              c.mode == Negotiating && Listens(c) && e.input == Receive(LegacyJson) && !e.requireE2EE
  {
    if c.mode == Closed { ClosedStays(c, e); } else { EndsExactly(c, e); }
  }

  /** The one way into the encrypted mode: the hello's turn comes back admitted while the channel still waits for it. It has its keys from then on. */
  lemma EntersE2eeExactly(c: Channel, e: Event)
    requires Promises(c) && c.mode != E2ee
    ensures Step(c, e).mode == E2ee <==>
              c.mode == Negotiating && c.helloPending && e.input.HelloReturns? && e.input.result.HelloAdmitted?
    ensures !c.keys ==> (Step(c, e).keys <==> Step(c, e).mode == E2ee)
  {
    if c.mode == Closed { ClosedStays(c, e); } else { EndsExactly(c, e); }
  }

  /**
   A hello is taken exactly once, and only from a listening channel that advertised; it
   is then out until its turn comes back.
   */
  lemma HelloTakenExactly(c: Channel, e: Event)
    requires Promises(c) && !c.helloPending
    ensures var d := Step(c, e);
            && (d.helloPending <==>
                  c.mode == Negotiating && Listens(c) && c.advertised && e.input == Receive(ClientHello))
            && (d.helloConsumed <==> c.helloConsumed || d.helloPending)
  {
    if c.mode != Closed { EndsExactly(c, e); }
  }

  lemma HelloReturnsExactly(c: Channel, e: Event)
    requires Promises(c) && c.helloPending
    ensures var d := Step(c, e);
            && (d.helloPending <==> !e.input.HelloReturns?)
            && d.helloConsumed
            && (d.unanswered.Some? <==>
                  e.input.HelloReturns?
                  && (e.input.result.HelloRefused? || c.mode == Closed || e.input.result.directoryThrows))
            && (d.unanswered.Some? ==>
                  d.unanswered == Some(if e.input.result.HelloRefused? then e.input.result.row else Local))
  {
    if c.mode != Closed { EndsExactly(c, e); }
  }

  /** A failure waits for its answer, and for nothing else; once answered it is gone. */
  lemma AnsweredExactly(c: Channel, e: Event)
    requires Promises(c) && c.unanswered.Some?
    ensures Step(c, e).unanswered == if e.input == FailureAnswered then None else c.unanswered
  {
    if c.mode != Closed { EndsExactly(c, e); }
  }

  /** A channel that has ended takes no second ending, whoever asks for it. */
  lemma OneEnding(c: Channel, row: Row)
    requires c.mode == Closed
    ensures FatalPreKey(c, row) == c && FatalPostKey(c, row) == c && Ends(c) == c
  {}

  /** The finish is confirmed by the first authentic record that carries no reason to refuse it, and stays so. */
  lemma FinishedExactly(c: Channel, e: Event)
    requires Promises(c)
    ensures Step(c, e).finished <==>
              || c.finished
              || (c.mode == E2ee && Listens(c) && e.input.Receive? && e.input.payload.Envelope?
                  && e.input.payload.outcome.Authentic? && e.input.payload.outcome.finishRow.None?)
  {
    if e.input.Receive? {
    } else if e.input.HelloReturns? {
    } else if e.input.Announce? {
    } else {
    }
  }

  /** The announcement is made once, and the deadline runs from one that went out, or that had nothing to send, until it expires or the channel ends. */
  lemma DeadlineRunsExactly(c: Channel, e: Event)
    requires Promises(c)
    ensures var d := Step(c, e);
            var announces := e.input.Announce? && e.input.plan.Advertise? == c.advertised && !c.announced && c.mode != Closed;
            && (d.announced <==> c.announced || announces)
            && (d.deadline <==>
                  d.mode != Closed && ((c.deadline && e.input != DeadlineExpires) || announces))
            && d.advertised == c.advertised
  {
    if c.mode == Closed { ClosedStays(c, e); } else { EndsExactly(c, e); }
  }

  // ---------------------------------------------------------------- both ways through

  /** Under any policy an advertising channel gets its handshake through and then carries bodies both ways. */
  lemma E2eeCarriesBodies(requireE2EE: bool) returns (events: seq<Event>)
    ensures var d := Run(Open(Advertise), events);
            d.mode == E2ee && d.finished && d.unanswered.None? && d.seen == Tally(1, 0, 0, 0, 0, 0, 2)
  {
    var c := Open(Advertise);
    var announce, hello := Event(Announce(Advertise, true), requireE2EE), Event(Receive(ClientHello), requireE2EE);
    var admitted := Event(HelloReturns(HelloAdmitted(false)), requireE2EE);
    var body := Event(Receive(Envelope(Authentic(None, Application))), requireE2EE);
    var emit := Event(Emit, requireE2EE);
    RunMore(c, [], announce);
    RunMore(c, [] + [announce], hello);
    RunMore(c, [] + [announce] + [hello], admitted);
    RunMore(c, [] + [announce] + [hello] + [admitted], body);
    RunMore(c, [] + [announce] + [hello] + [admitted] + [body], emit);
    events := [] + [announce] + [hello] + [admitted] + [body] + [emit];
  }

  /** While the policy allows it a channel becomes legacy on plaintext and then carries plaintext both ways, counted as a fallback exactly if it had advertised. */
  lemma LegacyCarriesPlaintext(advertised: bool) returns (events: seq<Event>)
    ensures var d := Run(Open(if advertised then Advertise else Suppress), events);
            d.mode == Legacy && d.unanswered.None? && d.seen == Tally(0, 1, if advertised then 0 else 1, 0, 0, 2, 0)
  {
    var plan := if advertised then Advertise else Suppress;
    var c := Open(plan);
    var announce, plain, emit := Event(Announce(plan, true), false), Event(Receive(LegacyJson), false), Event(Emit, false);
    RunMore(c, [], announce);
    RunMore(c, [] + [announce], plain);
    RunMore(c, [] + [announce] + [plain], emit);
    events := [] + [announce] + [plain] + [emit];
  }

  /** The plan: a statement that fits is advertised; without one the channel opens bare, unless encryption is required. */
  lemma PlanExactly(undersized: bool, statement: bool, requireE2EE: bool)
    ensures var plan := PlanFor(undersized, statement, requireE2EE);
            && (plan.Advertise? <==> statement && !undersized)
            && (plan.Suppress? <==> !plan.Advertise? && !requireE2EE)
            && (plan == FatalPlan(P2) <==> undersized && requireE2EE)
            && (plan == FatalPlan(P23) <==> !undersized && !statement && requireE2EE)
            && Open(plan).advertised == plan.Advertise? && Promises(Open(plan))
  {}
}
