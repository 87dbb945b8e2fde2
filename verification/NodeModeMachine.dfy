/**
 The node's mode machine for one channel: announcement, the first payload's
 classification, the one handshake, the deadline, the sweeps and the ends. A hello
 takes three turns - it borrows a prekey, the borrowed turn runs, and a failure of that
 turn is answered - and between them a deadline, a sweep, a revocation or the channel's
 end may come; the next payload may not, because one fiber takes them in turn. What the
 session makes the outside see is counted by kind.
 */
module NodeModeMachine {
  import opened Prelude

  datatype Mode = Negotiating | Legacy | E2ee | Closed

  datatype Row =
    | P1 | P2 | P3 | P4 | P5 | P6 | P7 | P12 | P23 | P24 | P25 | Handshake | Local
    | Q1to5 | Q6 | Q7 | Q8 | Q9 | Q10 | Q12

  datatype Observation =
    | CarrierSent
    | AdvertisementUnavailable
    | PeerLegacyFallback
    | ServedHello
    | ParsedPlaintext
    | ParsedEnvelopeBody
    | EmittedPlaintext
    | EmittedProtected
    | FatalPre(row: Row)
    | FatalPost(row: Row)
    | ClosedSilently

  /** How often each kind of thing was seen; a fallback is of either class, and of the one when no statement could be advertised. */
  datatype Tally = Tally(hellos: nat, fallbacks: nat, unavailable: nat, fatalPre: nat, fatalPost: nat, plaintexts: nat, bodies: nat)

  function Add(t: Tally, o: Observation): Tally {
    match o
    case ServedHello => t.(hellos := t.hellos + 1)
    case AdvertisementUnavailable => t.(fallbacks := t.fallbacks + 1, unavailable := t.unavailable + 1)
    case PeerLegacyFallback => t.(fallbacks := t.fallbacks + 1)
    case FatalPre(_) => t.(fatalPre := t.fatalPre + 1)
    case FatalPost(_) => t.(fatalPost := t.fatalPost + 1)
    case ParsedPlaintext => t.(plaintexts := t.plaintexts + 1)
    case EmittedPlaintext => t.(plaintexts := t.plaintexts + 1)
    case ParsedEnvelopeBody => t.(bodies := t.bodies + 1)
    case EmittedProtected => t.(bodies := t.bodies + 1)
    case CarrierSent => t
    case ClosedSilently => t
  }

  datatype Channel = Channel(
    mode: Mode, announced: bool, advertised: bool, helloConsumed: bool, helloPending: bool, unanswered: Option<Row>,
    keys: bool, finished: bool, deadline: bool, seen: Tally, ending: Option<Observation>)
  {
    function Sees(o: Observation): Channel { this.(seen := Add(seen, o)) }

    function EndsWith(o: Observation): Channel {
      this.(mode := Closed, deadline := false, seen := Add(seen, o), ending := Some(o))
    }
  }

  /** The statement plan is settled before the session exists; a node that may not serve without one has a fatal plan. */
  datatype Plan = Advertise | Suppress | FatalPlan(row: Row)

  function PlanFor(undersized: bool, statement: bool, requireE2EE: bool): Plan {
    if !undersized && statement then Advertise
    else if !requireE2EE then Suppress
    else FatalPlan(if undersized then P2 else P23)
  }

  function Open(plan: Plan): Channel {
    Channel(Negotiating, false, plan.Advertise?, false, false, None, false, false, false, Tally(0, 0, 0, 0, 0, 0, 0), None)
  }

  // ------------------------------------------------------------------ the outcomes

  function FatalPreKey(c: Channel, row: Row): Channel {
    if c.mode.Closed? then c else c.EndsWith(FatalPre(row))
  }

  function FatalPostKey(c: Channel, row: Row): Channel {
    if c.mode.Closed? then c else c.EndsWith(FatalPost(row))
  }

  /** An end that is no failure of the peer's: an orderly close, a sweep of a legacy channel, a slow consumer, disposal. */
  function Ends(c: Channel): Channel {
    if c.mode.Closed? then c else c.EndsWith(ClosedSilently)
  }

  // -------------------------------------------------------------------- the inputs

  /** What an authenticated record turns out to be to the close machine. */
  datatype Dispatch = Application | CloseProgress | TerminalError | CloseFatal

  datatype EnvelopeOutcome = BadEnvelope | Authentic(finishRow: Option<Row>, dispatch: Dispatch)

  datatype Payload =
    | LegacyJson
    | ClientHello
    | OtherNegotiation
    | Envelope(outcome: EnvelopeOutcome)
    | Other

  /**
   How the borrowed handshake turn went: refused, or ended with the accept on the send
   path; after that only the session directory, whose code is not the session's, can throw.
   */
  datatype HelloResult = HelloRefused(row: Row) | HelloAdmitted(directoryThrows: bool)

  datatype Input =
    | Announce(plan: Plan, sent: bool)
    | Receive(payload: Payload)
    | HelloReturns(result: HelloResult)
    | FailureAnswered
    | DeadlineExpires
    | PolicySweep(inFlight: bool)
    | AuthorizationSweep(inFlight: bool)
    | Revoke
    | Emit
    | SendPathFails
    | Abandon(orderly: bool)
    | ClosePhaseEnds
    | Dispose

  /**
   The policy in force is read afresh at each input. A sweep may find a handshake in
   flight while its turn has failed short of the accept and is not yet answered.
   */
  datatype Event = Event(input: Input, requireE2EE: bool)

  function Announced(c: Channel, plan: Plan, sent: bool): Channel {
    if c.announced || c.mode.Closed? then c
    else
      var a := c.(announced := true);
      match plan
      case FatalPlan(row) => FatalPreKey(a, row)
      case Suppress => a.Sees(AdvertisementUnavailable).(deadline := true)
      case Advertise => if sent then a.Sees(CarrierSent).(deadline := true) else FatalPreKey(a, Local)
  }

  function LockLegacy(c: Channel, requireE2EE: bool): Channel {
    if requireE2EE then FatalPreKey(c, P1)
    else
      var l := c.(mode := Legacy);
      (if c.advertised then l.Sees(PeerLegacyFallback) else l).Sees(ParsedPlaintext)
  }

  function InNegotiating(c: Channel, p: Payload, requireE2EE: bool): Channel {
    match p
    case LegacyJson => LockLegacy(c, requireE2EE)
    case OtherNegotiation => FatalPreKey(c, P3)
    case ClientHello =>
      if !c.advertised || c.helloConsumed then FatalPreKey(c, P4)
      else c.(helloConsumed := true, helloPending := true)
    case Envelope(_) => FatalPreKey(c, P5)
    case Other => FatalPreKey(c, P6)
  }

  function InLegacy(c: Channel, p: Payload): Channel {
    match p
    case LegacyJson => c.Sees(ParsedPlaintext)
    case Envelope(_) => FatalPreKey(c, P5)
    case ClientHello => FatalPreKey(c, P24)
    case OtherNegotiation => FatalPreKey(c, P24)
    case Other => FatalPreKey(c, P6)
  }

  function Dispatched(f: Channel, dispatch: Dispatch): Channel {
    match dispatch
    case Application => f.Sees(ParsedEnvelopeBody)
    case CloseProgress => f
    case TerminalError => Ends(f)
    case CloseFatal => FatalPostKey(f, Q7)
  }

  function InE2ee(c: Channel, p: Payload): Channel {
    if !p.Envelope? then FatalPostKey(c, Q6)
    else match p.outcome
      case BadEnvelope => FatalPostKey(c, Q1to5)
      case Authentic(finishRow, dispatch) =>
        if !c.finished && finishRow.Some? then FatalPostKey(c, finishRow.value)
        else Dispatched(c.(finished := true), dispatch)
  }

  /**
   The borrowed turn. With the accept away the channel has keys and is e2ee in this same
   turn; a channel that ended meanwhile has no send path for the accept. A failure waits
   for its answer.
   */
  function HelloReturned(c: Channel, r: HelloResult): Channel {
    var d := c.(helloPending := false);
    match r
    case HelloRefused(row) => d.(unanswered := Some(row))
    case HelloAdmitted(directoryThrows) =>
      if c.mode.Closed? then d.(unanswered := Some(Local))
      else d.(mode := E2ee, keys := true, unanswered := if directoryThrows then Some(Local) else None).Sees(ServedHello)
  }

  /** The answer to a failed turn is the keyless one, whatever the turn had done before it failed. */
  function Answered(c: Channel): Channel {
    if c.unanswered.None? then c else FatalPreKey(c.(unanswered := None), c.unanswered.value)
  }

  /** How an input that comes from beside the channel ends it while it is open, if it does. */
  function Interruption(c: Channel, input: Input): Option<Observation> {
    match input
    case PolicySweep(inFlight) =>
      if c.mode.Legacy? then Some(ClosedSilently)
      else if c.mode.E2ee? then Some(FatalPost(Q12))
      else if c.unanswered.Some? && inFlight then Some(FatalPre(P25))
      else None
    case AuthorizationSweep(inFlight) =>
      if c.mode.E2ee? then Some(FatalPost(Q9))
      else if c.unanswered.Some? && inFlight then Some(FatalPre(P12))
      else None
    case Revoke => Some(if c.mode.E2ee? then FatalPost(Q9) else FatalPre(P12))
    case SendPathFails => if c.mode.E2ee? then Some(FatalPost(Q10)) else None
    case Abandon(orderly) =>
      if !c.mode.E2ee? then Some(ClosedSilently) else if orderly then None else Some(FatalPost(Q10))
    case ClosePhaseEnds => if c.mode.E2ee? then Some(ClosedSilently) else None
    case Dispose => Some(ClosedSilently)
    case _ => None
  }

  function Step(c: Channel, e: Event): Channel {
    match e.input
    case Announce(plan, sent) => if plan.Advertise? == c.advertised then Announced(c, plan, sent) else c
    case Receive(p) =>
      if !c.announced || c.helloPending || c.unanswered.Some? then c
      else (match c.mode
            case Closed => c
            case Negotiating => InNegotiating(c, p, e.requireE2EE)
            case Legacy => InLegacy(c, p)
            case E2ee => InE2ee(c, p))
    case HelloReturns(result) => if c.helloPending then HelloReturned(c, result) else c
    case FailureAnswered => Answered(c)
    case DeadlineExpires =>
      if !c.deadline then c
      else
        var d := c.(deadline := false);
        if c.mode.Negotiating? then if e.requireE2EE then FatalPreKey(d, P7) else d
        else if c.mode.E2ee? && !c.finished then FatalPostKey(d, Q8)
        else d
    case Emit =>
      if c.mode.Legacy? then c.Sees(EmittedPlaintext)
      else if c.mode.E2ee? && c.finished then c.Sees(EmittedProtected)
      else c
    case _ =>
      var ending := Interruption(c, e.input);
      if c.mode.Closed? || ending.None? then c else c.EndsWith(ending.value)
  }

  function Run(c: Channel, events: seq<Event>): Channel
    decreases |events|
  {
    if events == [] then c else Step(Run(c, events[..|events| - 1]), events[|events| - 1])
  }

  // -------------------------------------------------------------------- the promises

  /** What holds of a channel and of all it ever let be seen. */
  predicate Promises(c: Channel) {
    && c.seen.hellos == (if c.keys then 1 else 0)
    && c.seen.fallbacks <= 1 && c.seen.fatalPre + c.seen.fatalPost <= (if c.mode.Closed? then 1 else 0)
    && (c.seen.plaintexts > 0 ==> !c.keys && !c.helloConsumed && (c.mode.Legacy? || c.mode.Closed?))
    && (c.seen.bodies > 0 ==> c.keys && c.finished)
    && (!c.keys ==> c.seen.fatalPost == 0)
    && (c.mode.E2ee? ==> c.keys) && (c.finished ==> c.keys)
    && (c.keys ==> c.helloConsumed && !c.helloPending && (c.mode.E2ee? || c.mode.Closed?))
    && (c.helloPending ==> c.helloConsumed && c.unanswered.None? && (c.mode.Negotiating? || c.mode.Closed?))
    && (c.unanswered.Some? ==> c.helloConsumed && !c.finished)
    && (c.helloConsumed && !c.helloPending && c.unanswered.None? ==> !c.mode.Negotiating?)
    && (c.helloConsumed ==> c.announced && c.advertised && c.seen.fallbacks == 0 && !c.mode.Legacy?)
    && (c.mode.Negotiating? && c.advertised ==> c.seen.fallbacks == 0)
    && (!c.announced ==> c.seen.fallbacks == 0 && (c.mode.Negotiating? || c.mode.Closed?))
    && (c.deadline ==> c.announced && !c.mode.Closed?)
    && (c.mode.Closed? <==> c.ending.Some?)
  }

  /** Fatal before keys exist, and fatal after, are told apart by exactly that. */
  predicate FatalFollowsKeys(c: Channel) { if c.keys then c.seen.fatalPre == 0 else c.seen.fatalPost == 0 }

  /** A failure answered on a channel that is open and has keys: the one way such a channel takes the keyless ending. */
  predicate AnswersWithKeys(c: Channel, e: Event) { e.input.FailureAnswered? && c.unanswered.Some? && c.keys && !c.mode.Closed? }

  lemma NegotiatingKeeps(c: Channel, p: Payload, requireE2EE: bool)
    requires Promises(c) && c.announced && !c.helloPending && c.unanswered.None? && c.mode.Negotiating?
    ensures var d := InNegotiating(c, p, requireE2EE); Promises(d) && (FatalFollowsKeys(c) ==> FatalFollowsKeys(d))
  {
    match p
    case LegacyJson =>
    case ClientHello =>
    case _ =>
  }

  lemma LegacyKeeps(c: Channel, p: Payload)
    requires Promises(c) && c.mode.Legacy?
    ensures var d := InLegacy(c, p); Promises(d) && (FatalFollowsKeys(c) ==> FatalFollowsKeys(d))
  {}

  lemma E2eeKeeps(c: Channel, p: Payload)
    requires Promises(c) && c.mode.E2ee? && c.unanswered.None?
    ensures var d := InE2ee(c, p); Promises(d) && (FatalFollowsKeys(c) ==> FatalFollowsKeys(d))
  {}

  lemma HelloKeeps(c: Channel, r: HelloResult)
    requires Promises(c) && c.helloPending
    ensures Promises(HelloReturned(c, r)) && (FatalFollowsKeys(c) ==> FatalFollowsKeys(HelloReturned(c, r)))
  {}

  lemma AnswerKeeps(c: Channel)
    requires Promises(c)
    ensures Promises(Answered(c))
    ensures FatalFollowsKeys(c) ==>
              (FatalFollowsKeys(Answered(c)) <==> !(c.unanswered.Some? && c.keys && !c.mode.Closed?))
  {}

  lemma AnnounceKeeps(c: Channel, plan: Plan, sent: bool)
    requires Promises(c) && plan.Advertise? == c.advertised
    ensures var d := Announced(c, plan, sent); Promises(d) && (FatalFollowsKeys(c) ==> FatalFollowsKeys(d))
  {}

  /** Any ending keeps the promises, the keyed one on a channel with keys; and both fatal endings follow the keys that fit them. */
  lemma EndKeeps(c: Channel, o: Observation)
    requires Promises(c) && !c.mode.Closed? && (o.FatalPre? || (o.FatalPost? && c.keys) || o.ClosedSilently?)
    ensures Promises(c.EndsWith(o))
    ensures FatalFollowsKeys(c) && (o.FatalPre? ==> !c.keys) ==> FatalFollowsKeys(c.EndsWith(o))
  {}

  lemma EmitKeeps(c: Channel)
    requires Promises(c)
    ensures c.mode.Legacy? ==> Promises(c.Sees(EmittedPlaintext)) && (FatalFollowsKeys(c) ==> FatalFollowsKeys(c.Sees(EmittedPlaintext)))
    ensures c.mode.E2ee? && c.finished ==>
              Promises(c.Sees(EmittedProtected)) && (FatalFollowsKeys(c) ==> FatalFollowsKeys(c.Sees(EmittedProtected)))
  {}

  lemma DeadlineKeeps(c: Channel, requireE2EE: bool)
    requires Promises(c) && c.deadline
    ensures var d := Step(c, Event(DeadlineExpires, requireE2EE)); Promises(d) && (FatalFollowsKeys(c) ==> FatalFollowsKeys(d))
  {
    var d := c.(deadline := false);
    assert Promises(d);
    if d.mode.Negotiating? {
      EndKeeps(d, FatalPre(P7));
    } else if d.mode.E2ee? {
      EndKeeps(d, FatalPost(Q8));
    }
  }

  lemma OthersKeep(c: Channel, e: Event)
    requires Promises(c) && !e.input.Announce? && !e.input.Receive? && !e.input.HelloReturns? && !e.input.FailureAnswered?
    ensures Promises(Step(c, e)) && (FatalFollowsKeys(c) ==> FatalFollowsKeys(Step(c, e)))
  {
    var ending := Interruption(c, e.input);
    if ending.Some? && !c.mode.Closed? {
      EndKeeps(c, ending.value);
    } else if e.input.DeadlineExpires? && c.deadline {
      DeadlineKeeps(c, e.requireE2EE);
    } else if e.input.Emit? {
      EmitKeeps(c);
    }
  }

  /** Every input keeps the promises; and the ending follows the keys, but for exactly one input. */
  lemma StepKeeps(c: Channel, e: Event)
    requires Promises(c)
    ensures Promises(Step(c, e))
    ensures FatalFollowsKeys(c) ==> (FatalFollowsKeys(Step(c, e)) <==> !AnswersWithKeys(c, e))
  {
    match e.input
    case Announce(plan, sent) =>
      if plan.Advertise? == c.advertised { AnnounceKeeps(c, plan, sent); }
    case Receive(p) =>
      if c.announced && !c.helloPending && c.unanswered.None? {
        if c.mode.Negotiating? {
          NegotiatingKeeps(c, p, e.requireE2EE);
        } else if c.mode.Legacy? {
          LegacyKeeps(c, p);
        } else if c.mode.E2ee? {
          E2eeKeeps(c, p);
        }
      }
    case HelloReturns(r) =>
      if c.helloPending { HelloKeeps(c, r); }
    case FailureAnswered => AnswerKeeps(c);
    case _ => OthersKeep(c, e);
  }

  /**
   Over every input sequence and whatever the policy is at each input: at most one
   hello served, one fallback occurrence of either class and one fatal outcome;
   plaintext is parsed or emitted only on a channel that is legacy, envelope bodies
   only once the finish has authenticated; and no keyed ending without keys.
   */
  lemma {:induction false} RunKeepsPromises(plan: Plan, events: seq<Event>)
    ensures Promises(Run(Open(plan), events))
    decreases |events|
  {
    if events != [] {
      RunKeepsPromises(plan, events[..|events| - 1]);
      StepKeeps(Run(Open(plan), events[..|events| - 1]), events[|events| - 1]);
    }
  }

  /** At some input of the run a failure was answered while the channel was open and had keys. */
  ghost predicate AnsweredWithKeys(c: Channel, events: seq<Event>) {
    exists i :: 0 <= i < |events| && AnswersWithKeys(Run(c, events[..i]), events[i])
  }

  lemma AnsweredWithKeysLast(c: Channel, events: seq<Event>)
    requires events != []
    ensures var before := events[..|events| - 1];
            AnsweredWithKeys(c, events) <==> AnsweredWithKeys(c, before) || AnswersWithKeys(Run(c, before), events[|events| - 1])
  {
    var before := events[..|events| - 1];
    assert forall i :: 0 <= i < |before| ==> before[..i] == events[..i];
    if AnsweredWithKeys(c, before) {
      var i :| 0 <= i < |before| && AnswersWithKeys(Run(c, before[..i]), before[i]);
      assert before[..i] == events[..i] && AnswersWithKeys(Run(c, events[..i]), events[i]);
    }
    if AnsweredWithKeys(c, events) {
      var i :| 0 <= i < |events| && AnswersWithKeys(Run(c, events[..i]), events[i]);
      assert i < |before| ==> before[..i] == events[..i] && before[i] == events[i];
    }
  }

  /**
   Over every run a fatal outcome is the keyed one exactly on channels with keys, if and
   only if no failure of the handshake turn was answered while the channel was still open
   and had its keys.
   */
  lemma {:induction false} EndingFollowsKeys(plan: Plan, events: seq<Event>)
    ensures FatalFollowsKeys(Run(Open(plan), events)) <==> !AnsweredWithKeys(Open(plan), events)
    decreases |events|
  {
    if events != [] {
      var before, last := events[..|events| - 1], events[|events| - 1];
      EndingFollowsKeys(plan, before);
      RunKeepsPromises(plan, before);
      AnsweredWithKeysLast(Open(plan), events);
      StepKeeps(Run(Open(plan), before), last);
      if !FatalFollowsKeys(Run(Open(plan), before)) {
        ClosedStays(Run(Open(plan), before), last);
      }
    }
  }

  lemma RunMore(c: Channel, events: seq<Event>, e: Event)
    ensures Run(c, events + [e]) == Step(Run(c, events), e)
  {
    assert (events + [e])[..|events|] == events;
  }

  /** An advertising channel whose hello is served and whose directory throws: e2ee, with keys and a failure to answer. */
  lemma DirectoryThrows(requireE2EE: bool) returns (events: seq<Event>)
    ensures var d := Run(Open(Advertise), events);
            d.mode.E2ee? && d.keys && d.unanswered == Some(Local) && FatalFollowsKeys(d)
    ensures Event(HelloReturns(HelloAdmitted(true)), requireE2EE) in events
  {
    var c := Open(Advertise);
    var announce, hello := Event(Announce(Advertise, true), requireE2EE), Event(Receive(ClientHello), requireE2EE);
    var throws := Event(HelloReturns(HelloAdmitted(true)), requireE2EE);
    RunMore(c, [], announce);
    assert [] + [announce] == [announce];
    RunMore(c, [announce], hello);
    RunMore(c, [announce] + [hello], throws);
    events := [announce] + [hello] + [throws];
  }

  /** Answered while the channel is open, it ends keyless although it has keys. */
  lemma AnswerCanMissKeys(requireE2EE: bool) returns (events: seq<Event>)
    ensures var d := Run(Open(Advertise), events);
            AnsweredWithKeys(Open(Advertise), events) && d.keys && d.ending == Some(FatalPre(Local))
  {
    var c, answer := Open(Advertise), Event(FailureAnswered, requireE2EE);
    var before := DirectoryThrows(requireE2EE);
    events := before + [answer];
    RunMore(c, before, answer);
    assert events[..|before|] == before && AnswersWithKeys(Run(c, events[..|before|]), events[|before|]);
  }

  /** Any ending that lands before the answer is the keyed one, and the answer then changes nothing: a policy sweep, say. */
  lemma SweepBeatsAnswer(requireE2EE: bool, inFlight: bool) returns (events: seq<Event>)
    ensures var d := Run(Open(Advertise), events);
            && Event(HelloReturns(HelloAdmitted(true)), requireE2EE) in events && Event(FailureAnswered, requireE2EE) in events
            && d.keys && d.ending == Some(FatalPost(Q12)) && FatalFollowsKeys(d)
  {
    var c, sweep, answer := Open(Advertise), Event(PolicySweep(inFlight), requireE2EE), Event(FailureAnswered, requireE2EE);
    var before := DirectoryThrows(requireE2EE);
    RunMore(c, before, sweep);
    SweepEnds(Run(c, before), sweep);
    RunMore(c, before + [sweep], answer);
    ClosedStays(Run(c, before + [sweep]), answer);
    events := before + [sweep] + [answer];
  }

  lemma SweepEnds(c: Channel, e: Event)
    requires c.mode.E2ee? && e.input.PolicySweep? && FatalFollowsKeys(c) && c.keys
    ensures var d := Step(c, e); d.mode.Closed? && d.keys && d.ending == Some(FatalPost(Q12)) && FatalFollowsKeys(d)
  {}

  /** While the policy demands encryption no channel is legacy, none has parsed or emitted plaintext, and none counts a fallback. */
  lemma {:induction false} RequiredMeansNeverLegacy(undersized: bool, statement: bool, events: seq<Event>)
    requires forall i :: 0 <= i < |events| ==>
               events[i].requireE2EE && (events[i].input.Announce? ==> events[i].input.plan == PlanFor(undersized, statement, true))
    ensures var c := Run(Open(PlanFor(undersized, statement, true)), events);
            !c.mode.Legacy? && c.seen.plaintexts == 0 && c.seen.fallbacks == 0
    decreases |events|
  {
    if events != [] {
      RequiredMeansNeverLegacy(undersized, statement, events[..|events| - 1]);
      RequiredStep(Run(Open(PlanFor(undersized, statement, true)), events[..|events| - 1]), events[|events| - 1]);
    }
  }

  /** No plaintext seen, no fallback counted, and not legacy. */
  predicate Quiet(c: Channel, d: Channel) {
    !d.mode.Legacy? && d.seen.plaintexts == c.seen.plaintexts && d.seen.fallbacks == c.seen.fallbacks
  }

  lemma EndingsAreQuiet(c: Channel, row: Row)
    requires !c.mode.Legacy?
    ensures Quiet(c, FatalPreKey(c, row)) && Quiet(c, FatalPostKey(c, row)) && Quiet(c, Ends(c))
  {
    EndingIsQuiet(c, FatalPre(row));
    EndingIsQuiet(c, FatalPost(row));
    EndingIsQuiet(c, ClosedSilently);
  }

  lemma EndingIsQuiet(c: Channel, o: Observation)
    requires !c.mode.Legacy? && (o.FatalPre? || o.FatalPost? || o.ClosedSilently?)
    ensures Quiet(c, c) && Quiet(c, c.EndsWith(o))
  {}

  lemma AnswerIsQuiet(c: Channel)
    requires !c.mode.Legacy?
    ensures Quiet(c, Answered(c))
  {
    if c.unanswered.Some? { EndingsAreQuiet(c.(unanswered := None), c.unanswered.value); }
  }

  lemma AnnounceIsQuiet(c: Channel, plan: Plan, sent: bool)
    requires !c.mode.Legacy? && !plan.Suppress?
    ensures Quiet(c, Announced(c, plan, sent))
  {
    EndingsAreQuiet(c.(announced := true), if plan.FatalPlan? then plan.row else Local);
  }

  lemma RequiredStep(c: Channel, e: Event)
    requires e.requireE2EE && (e.input.Announce? ==> !e.input.plan.Suppress?) && !c.mode.Legacy?
    ensures Quiet(c, Step(c, e))
  {
    match e.input
    case Announce(plan, sent) => AnnounceIsQuiet(c, plan, sent);
    case Receive(p) => RequiredReceive(c, p);
    case HelloReturns(r) => HelloIsQuiet(c.(helloPending := false), r);
    case FailureAnswered => AnswerIsQuiet(c);
    case _ => OthersAreQuiet(c, e);
  }

  lemma OthersAreQuiet(c: Channel, e: Event)
    requires !c.mode.Legacy? && !e.input.Announce? && !e.input.Receive? && !e.input.HelloReturns? && !e.input.FailureAnswered?
    ensures Quiet(c, Step(c, e))
  {
    var ending := Interruption(c, e.input);
    if ending.Some? {
      EndingIsQuiet(c, ending.value);
    } else if e.input.DeadlineExpires? {
      EndingsAreQuiet(c.(deadline := false), if c.mode.E2ee? then Q8 else P7);
    }
  }

  lemma HelloIsQuiet(d: Channel, r: HelloResult)
    requires !d.mode.Legacy?
    ensures Quiet(d, HelloReturned(d, r))
  {}

  lemma RequiredReceive(c: Channel, p: Payload)
    requires !c.mode.Legacy?
    ensures Quiet(c, Step(c, Event(Receive(p), true)))
  {
    match p
    case LegacyJson => EndingsAreQuiet(c, P1); EndingsAreQuiet(c, Q6);
    case ClientHello => EndingsAreQuiet(c, P4); EndingsAreQuiet(c, Q6);
    case OtherNegotiation => EndingsAreQuiet(c, P3); EndingsAreQuiet(c, Q6);
    case Other => EndingsAreQuiet(c, P6); EndingsAreQuiet(c, Q6);
    case Envelope(outcome) =>
      EndingsAreQuiet(c, P5);
      EnvelopeIsQuiet(c, p);
  }

  lemma DispatchIsQuiet(f: Channel, dispatch: Dispatch)
    requires !f.mode.Legacy?
    ensures Quiet(f, Dispatched(f, dispatch))
  {
    match dispatch
    case Application =>
    case CloseProgress =>
    case TerminalError => EndingsAreQuiet(f, Q7);
    case CloseFatal => EndingsAreQuiet(f, Q7);
  }

  lemma EnvelopeIsQuiet(c: Channel, p: Payload)
    requires !c.mode.Legacy? && p.Envelope?
    ensures Quiet(c, InE2ee(c, p))
  {
    EndingsAreQuiet(c, Q1to5);
    if p.outcome.Authentic? {
      if !c.finished && p.outcome.finishRow.Some? {
        EndingsAreQuiet(c, p.outcome.finishRow.value);
      } else {
        DispatchIsQuiet(c.(finished := true), p.outcome.dispatch);
      }
    }
  }

  /** A plaintext message is handed to the parser exactly when it finds the channel legacy, or negotiating under a policy that allows legacy. */
  lemma PlaintextReachesParser(c: Channel, requireE2EE: bool)
    requires Promises(c) && c.announced && !c.helloPending && c.unanswered.None?
    ensures var d := Step(c, Event(Receive(LegacyJson), requireE2EE));
            && (d.seen.plaintexts == c.seen.plaintexts + 1 <==> c.mode.Legacy? || (c.mode.Negotiating? && !requireE2EE))
            && (d.seen.plaintexts > c.seen.plaintexts ==> d.mode.Legacy? && d.seen.bodies == c.seen.bodies)
  {}

  /** After the end nothing more is seen, not even of a handshake that was waiting for its prekey. */
  lemma {:induction false} ClosedIsFinal(c: Channel, events: seq<Event>)
    requires c.mode.Closed?
    ensures NothingMore(c, Run(c, events))
    decreases |events|
  {
    if events != [] {
      ClosedIsFinal(c, events[..|events| - 1]);
      ClosedStays(Run(c, events[..|events| - 1]), events[|events| - 1]);
    }
  }

  predicate NothingMore(c: Channel, d: Channel) { d.mode.Closed? && d.seen == c.seen && d.ending == c.ending && d.keys == c.keys }

  lemma ClosedBeside(c: Channel, e: Event)
    requires c.mode.Closed? && !e.input.Announce? && !e.input.Receive? && !e.input.HelloReturns? && !e.input.FailureAnswered?
    ensures NothingMore(c, Step(c, e))
  {}

  lemma ClosedStays(c: Channel, e: Event)
    requires c.mode.Closed?
    ensures NothingMore(c, Step(c, e))
  {
    match e.input
    case HelloReturns(r) => assert NothingMore(c, HelloReturned(c, r));
    case FailureAnswered => assert NothingMore(c, Answered(c));
    case Announce(plan, sent) =>
    case Receive(p) =>
    case _ => ClosedBeside(c, e);
  }
}
