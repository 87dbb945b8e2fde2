/**
 Two endpoints closing one channel. Each endpoint is its close machine, the records
 it has put on its own direction, how many of the peer's it has accepted, and the
 close record its send section is busy with: a close record is built, put on the
 wire and committed in three turns, and received records are accepted between them.
 Acceptance is in order because the record session accepts nothing else. Everything
 an attacker or a failing network can do beyond delaying is a step that ends an
 endpoint or refuses it a record. The theorem: a completed exchange means that
 nothing either application sent was lost, whatever happened.
 */
module CloseProtocol {
  import opened Prelude
  import opened RecordSequence
  import opened RecordSession
  import opened CloseRules

  datatype Content = App | CloseMachineContent(ack: bool, body: CloseBody) | TerminalError

  datatype Wire = Wire(at: Position, size: nat, completes: bool, content: Content)

  /** Everything put on one direction, from where its schedule started. */
  datatype Track = Track(l: Limits, start: Direction, sent: seq<Wire>) {
    /** The schedule after the first k records. */
    function Sched(k: nat): Direction
      requires k <= |sent|
    {
      After(l, start, SizesOf(sent[..k]))
    }

    function At(k: nat): Position
      requires k <= |sent|
    {
      Sched(k).At()
    }

    function Stands(): Direction { Sched(|sent|) }

    function With(size: nat, content: Content): Track {
      this.(sent := sent + [Wire(Stands().At(), size, CompletesEpoch(l, Stands(), size), content)])
    }

    /** The record stands where the schedule was, and says whether it completed its epoch. */
    predicate Placed(i: nat)
      requires i < |sent|
    {
      !Sched(i).exhausted && sent[i].at == At(i) && sent[i].completes == CompletesEpoch(l, Sched(i), sent[i].size)
    }

    ghost predicate Valid() {
      l.Valid() && start.Live(l) && forall i {:trigger Placed(i)} :: 0 <= i < |sent| ==> Placed(i)
    }
  }

  /** What the send section holds: nothing, a close record that is built, or one that is on the wire and not committed. */
  datatype Section = Idle | Planned(record: CloseRecord) | OnWire(record: CloseRecord)

  datatype Endpoint = Endpoint(m: Machine, out: Track, got: nat, closes: nat, section: Section) {
    /** How many records close the log: close-machine records, then perhaps the terminal error. */
    function Tail(): nat { closes + if m.errorSent then 1 else 0 }

    /** Where the application part of the log ends. */
    function FirstClose(): int { |out.sent| - Tail() }
  }

  function SizesOf(log: seq<Wire>): (sizes: seq<nat>)
    ensures |sizes| == |log|
  {
    seq(|log|, i requires 0 <= i < |log| => log[i].size)
  }

  // ----------------------------------------------------------------------- steps

  /** How protecting a record goes: sent, refused admission, not sendable any more, or sent for all the sender knows. */
  datatype Sending = Admitted | Refused | Unavailable | Doubtful

  datatype Action =
    | SendApplication(size: nat)
    | PlanClose
    | PlanOwed
    | Protect(sending: Sending)
    | Note(now: nat)
    | SendError(size: nat)
    | Accept(now: nat)
    | Expire(now: nat)
    | EndChannel(incompleteReassembly: bool)
    | FailElsewhere

  function Inner(w: Wire): Inbound {
    match w.content
    case App => RpcRecord
    case CloseMachineContent(ack, body) => CloseMachineRecord(ack, body)
    case TerminalError => ErrorRecord(true)
  }

  /** What the receive direction expects next; nothing once the peer's direction is spent. */
  function ExpectedRecv(x: Endpoint, y: Endpoint): Option<Position>
    requires x.got <= |y.out.sent|
  {
    if y.out.Sched(x.got).exhausted then None else Some(y.out.At(x.got))
  }

  /** What an owed ack declares: what the peer's close left expected, or for the final confirmation the current expectation. */
  function Declaration(x: Endpoint, y: Endpoint): Option<Position>
    requires x.got <= |y.out.sent|
  {
    if x.m.ackDue.Declares? then Some(x.m.ackDue.expectedRecv) else ExpectedRecv(x, y)
  }

  /** What a step of x is taken against: the peer's log, of which x has accepted a part. */
  predicate CanPlay(x: Endpoint, y: Endpoint) { x.m.Valid() && x.got <= |y.out.sent| }

  /** Building a record at the position read in the section; with a position missing the exchange is degenerate and ends. */
  function Plans(x: Endpoint, built: Option<(Machine, CloseRecord)>, declared: bool): Endpoint {
    if x.out.Stands().exhausted || !declared then x.(m := NoteChannelEnded(x.m, false))
    else if built.None? then x
    else x.(m := built.value.0, section := Planned(built.value.1))
  }

  function PlansClose(x: Endpoint, y: Endpoint): Endpoint
    requires x.got <= |y.out.sent|
  {
    if !x.section.Idle? || !x.m.state.Open? then x
    else
      var expected := ExpectedRecv(x, y);
      Plans(x, if expected.None? then None else BuildClose(x.m, x.out.Stands().At(), expected.value), expected.Some?)
  }

  function PlansOwed(x: Endpoint, y: Endpoint): Endpoint
    requires x.got <= |y.out.sent|
  {
    if !x.section.Idle? || x.m.Owes().None? then x
    else
      var declared := Declaration(x, y);
      Plans(x, if declared.None? then None else BuildCloseAck(x.m, x.out.Stands().At(), declared.value), declared.Some?)
  }

  /** The log and count with the record on the wire. */
  function Put(x: Endpoint, r: CloseRecord): Endpoint {
    x.(out := x.out.With(CLOSE_RECORD_BYTES, CloseMachineContent(r.ack, r.body)), closes := x.closes + 1)
  }

  /** A refused record is forgotten by the section and stays owed; one that cannot be sent ends the exchange. */
  function Protects(x: Endpoint, sending: Sending): Endpoint {
    if !x.section.Planned? then x
    else
      var r, freed := x.section.record, x.(section := Idle);
      if !HasCapacity(x.out.l, x.out.Stands(), [CLOSE_RECORD_BYTES]) then freed.(m := NoteChannelEnded(x.m, false))
      else match sending
        case Admitted => Put(x, r).(section := OnWire(r))
        case Refused => freed
        case Unavailable => freed.(m := NoteChannelEnded(x.m, false))
        case Doubtful => Put(freed, r).(m := NoteChannelEnded(x.m, false))
  }

  /** The record on the wire, which nothing has followed while the section holds it. */
  function Last(t: Track): Wire
    requires t.sent != []
  {
    t.sent[|t.sent| - 1]
  }

  /** The commit. A machine that has left the state the record answers throws and is left as it was; the section is free either way. */
  function Notes(x: Endpoint, now: nat): Endpoint
    requires x.m.Valid()
  {
    if !x.section.OnWire? || x.out.sent == [] then x
    else
      var noted := NoteTransmitted(x.m, x.section.record, Last(x.out).at, Last(x.out).completes, now);
      x.(m := if noted.Some? then noted.value else x.m, section := Idle)
  }

  /**
   The gate of the record session: no application record after the first close record,
   none that breaks the reserve. The machine's own, narrower gate is read before the
   record waits its turn, so a record it let through can follow the peer's close.
   */
  function SendsApplication(x: Endpoint, size: nat): Endpoint {
    if x.section.Idle? && x.closes == 0 && !x.m.state.Ended? && HasCapacity(x.out.l, x.out.Stands(), [size] + RESERVE)
    then x.(out := x.out.With(size, App)) else x
  }

  function SendsError(x: Endpoint, size: nat): Endpoint {
    var noted := NoteTerminalError(x.m);
    if x.section.Idle? && noted.Some? && HasCapacity(x.out.l, x.out.Stands(), [size])
    then x.(m := noted.value, out := x.out.With(size, TerminalError)) else x
  }

  /**
   Taking the peer's next record; a record the machine refuses is not accepted. An
   endpoint whose own direction is spent has no next-send to judge by and gives up.
   */
  function Accepts(x: Endpoint, y: Endpoint, now: nat): Endpoint
    requires CanPlay(x, y)
  {
    if x.got >= |y.out.sent| || x.m.state.Ended? then x
    else if x.out.Stands().exhausted then x.(m := NoteChannelEnded(x.m, false))
    else
      var w := y.out.sent[x.got];
      var (m, outcome) := Receive(x.m, Inner(w), w.at, w.completes, x.out.Stands().At(), now);
      if outcome.FatalClose? then x.(m := m) else x.(m := m, got := x.got + 1)
  }

  /** One step of endpoint x against the peer's records; only x changes, and a step not open to it changes nothing. */
  function Act(x: Endpoint, y: Endpoint, act: Action): Endpoint
    requires CanPlay(x, y)
  {
    match act
    case SendApplication(size) => SendsApplication(x, size)
    case PlanClose => PlansClose(x, y)
    case PlanOwed => PlansOwed(x, y)
    case Protect(sending) => Protects(x, sending)
    case Note(now) => Notes(x, now)
    case SendError(size) => SendsError(x, size)
    case Accept(now) => Accepts(x, y, now)
    case Expire(now) => x.(m := Apply(x.m, Expires(now)))
    case EndChannel(incomplete) => x.(m := NoteChannelEnded(x.m, incomplete))
    case FailElsewhere => x.(m := NoteFatal(x.m))
  }

  // ------------------------------------------------------------------- invariant

  /** Applications first, then `closes` close-machine records, then perhaps the terminal error. */
  ghost predicate LogShape(t: Track, first: int, closes: nat) {
    && 0 <= first && first + closes <= |t.sent|
    && (forall i {:trigger t.sent[i]} :: 0 <= i < |t.sent| ==>
          && (t.sent[i].content.App? <==> i < first)
          && (t.sent[i].content.CloseMachineContent? <==> first <= i < first + closes))
  }

  ghost predicate Shaped(x: Endpoint) { LogShape(x.out, x.FirstClose(), x.closes) }

  /** The anchor is not before where the first close record left the direction. */
  ghost predicate AnchorOk(t: Track, first: int, closes: nat, anchor: Anchor)
    requires 0 <= first && first + closes <= |t.sent|
  {
    anchor.FrozenAt? ==>
      closes > 0 && !t.Sched(first + 1).exhausted && !anchor.position.Before(t.At(first + 1))
  }

  /** The record a section holds is the next one, or the last one, of the log. */
  predicate SectionFits(t: Track, section: Section, closes: nat, committed: nat, errorSent: bool) {
    match section
    case Idle => committed <= closes
    case Planned(r) =>
      && committed <= closes && !errorSent
      && r.position == t.Stands().At() && !t.Stands().exhausted && r.body.CloseBody?
    case OnWire(r) =>
      && committed < closes && !errorSent && t.sent != []
      && Last(t).at == r.position && Last(t).content == CloseMachineContent(r.ack, r.body) && r.body.CloseBody?
  }

  predicate SectionOk(x: Endpoint) { SectionFits(x.out, x.section, x.closes, x.m.recordsSent, x.m.errorSent) }

  /** The endpoint's own half. */
  ghost predicate OwnHalf(x: Endpoint) {
    && x.m.Valid() && x.out.Valid() && x.m.ch.l == x.out.l
    && Shaped(x) && AnchorOk(x.out, x.FirstClose(), x.closes, x.m.anchor) && SectionOk(x)
  }

  /** Nothing the log declares about the other direction lies past `limit`. */
  ghost predicate DeclaresUpTo(out: Track, limit: Position) {
    forall i {:trigger out.sent[i]} :: 0 <= i < |out.sent| && out.sent[i].content.CloseMachineContent? ==>
      out.sent[i].content.body.CloseBody? && !limit.Before(out.sent[i].content.body.expectedRecv)
  }

  /** What an endpoint may still declare about the other direction: nothing past `limit`. */
  predicate MayDeclare(due: AckDue, section: Section, limit: Position) {
    && (due.Declares? ==> !limit.Before(due.expectedRecv))
    && (section.Planned? && section.record.body.CloseBody? ==> !limit.Before(section.record.body.expectedRecv))
  }

  /** The other end's first close record has been accepted. */
  predicate HeardClose(x: Endpoint, y: Endpoint) { y.closes > 0 && x.got > y.FirstClose() }

  /** What x has declared and concluded about y's direction is no more than x has accepted. */
  ghost predicate Against(x: Endpoint, y: Endpoint) {
    && x.got <= |y.out.sent| && DeclaresUpTo(x.out, y.out.At(x.got)) && MayDeclare(x.m.ackDue, x.section, y.out.At(x.got))
    && (x.m.peerClose || x.m.peerAck ==> HeardClose(x, y))
    && (x.m.peerAck ==> HeardClose(y, x))
  }

  /** One end against the other. */
  ghost predicate Fits(x: Endpoint, y: Endpoint) { OwnHalf(x) && x.out.l == y.out.l && Against(x, y) }

  datatype System = System(client: Endpoint, node: Endpoint)

  datatype Who = TheClient | TheNode

  function Own(s: System, w: Who): Endpoint { if w.TheClient? then s.client else s.node }

  function Peer(s: System, w: Who): Endpoint { if w.TheClient? then s.node else s.client }

  /** Either end fits the other. */
  ghost predicate Consistent(x: Endpoint, y: Endpoint) {
    && CanPlay(x, y) && CanPlay(y, x)
    && forall w {:trigger Own(System(x, y), w)} :: Fits(Own(System(x, y), w), Peer(System(x, y), w))
  }

  lemma BothFit(x: Endpoint, y: Endpoint)
    requires Consistent(x, y)
    ensures Fits(x, y) && Fits(y, x)
  {
    var s := System(x, y);
    assert Own(s, TheClient) == x && Own(s, TheNode) == y;
  }

  lemma Fitted(x: Endpoint, y: Endpoint)
    requires Fits(x, y) && Fits(y, x)
    ensures Consistent(x, y)
  {}

  lemma Mutual(x: Endpoint, y: Endpoint)
    requires Consistent(x, y)
    ensures Consistent(y, x)
  {
    BothFit(x, y);
    Fitted(y, x);
  }

  // ------------------------------------------------------------------ the schedule

  lemma SchedNext(t: Track, k: nat)
    requires k < |t.sent|
    ensures t.Sched(k + 1) == Step(t.l, t.Sched(k), t.sent[k].size)
  {
    assert SizesOf(t.sent[..k + 1])[..k] == SizesOf(t.sent[..k]);
  }

  lemma AtMonotone(t: Track, i: nat, j: nat)
    requires t.Valid() && i <= j <= |t.sent|
    ensures !t.At(j).Before(t.At(i))
    ensures i < j && !t.Sched(j).exhausted ==> t.At(i).Before(t.At(j))
  {
    var sizes := SizesOf(t.sent);
    assert SizesOf(t.sent[..i]) == sizes[..i] && SizesOf(t.sent[..j]) == sizes[..j];
    PositionsNeverDecrease(t.l, t.start, sizes, i, j);
    if i < j && !t.Sched(j).exhausted {
      PositionsIncrease(t.l, t.start, sizes, i, j);
    }
  }

  lemma SchedLive(t: Track, k: nat)
    requires t.Valid() && k <= |t.sent| && !t.Sched(k).exhausted
    ensures t.Sched(k).Live(t.l)
  {
    AfterIsLive(t.l, t.start, SizesOf(t.sent[..k]));
  }

  /** The next position, computed from a record alone, is where the schedule goes. */
  lemma NextIsNext(t: Track, k: nat)
    requires t.Valid() && k < |t.sent|
    ensures NextPosition(t.l, t.sent[k].at, t.sent[k].completes)
            == if t.Sched(k + 1).exhausted then None else Some(t.At(k + 1))
  {
    assert t.Placed(k);
    SchedLive(t, k);
    SchedNext(t, k);
    NextPositionIsAdvance(t.l, t.Sched(k), t.sent[k].size);
  }

  /** The longer log agrees with the shorter one on everything up to its end. */
  ghost predicate Extends(t': Track, t: Track) {
    && t'.l == t.l && |t.sent| <= |t'.sent|
    && (forall k {:trigger t'.Sched(k)} :: 0 <= k <= |t.sent| ==> t'.Sched(k) == t.Sched(k))
    && (forall i {:trigger t'.sent[i]} :: 0 <= i < |t.sent| ==> t'.sent[i] == t.sent[i])
  }

  lemma WithExtends(t: Track, size: nat, content: Content)
    ensures var t' := t.With(size, content);
            Extends(t', t) && |t'.sent| == |t.sent| + 1 && t'.sent[|t.sent|].content == content
  {
    var t' := t.With(size, content);
    forall k | 0 <= k <= |t.sent| ensures t'.Sched(k) == t.Sched(k) {
      assert t'.sent[..k] == t.sent[..k];
    }
  }

  lemma WithValid(t: Track, size: nat, content: Content)
    requires t.Valid() && !t.Stands().exhausted
    ensures t.With(size, content).Valid()
  {
    var t' := t.With(size, content);
    WithExtends(t, size, content);
    forall i | 0 <= i < |t'.sent| ensures t'.Placed(i) {
      assert t'.Sched(i) == t.Sched(i);
      if i < |t.sent| { assert t.Placed(i) && t'.sent[i] == t.sent[i]; }
    }
  }

  lemma WithNext(t: Track, size: nat, content: Content)
    requires t.Valid() && !t.Stands().exhausted
    ensures var t' := t.With(size, content);
            NextPosition(t.l, t.Stands().At(), CompletesEpoch(t.l, t.Stands(), size))
            == if t'.Stands().exhausted then None else Some(t'.Stands().At())
  {
    WithValid(t, size, content);
    NextIsNext(t.With(size, content), |t.sent|);
  }

  // -------------------------------------------------------------------- keeping it

  /** A move of the machine that declares nothing new and learns nothing about the peer. */
  predicate KeepsClaims(m: Machine, m': Machine) {
    && m'.Valid() && m'.ch == m.ch
    && (m'.ackDue == m.ackDue || !m'.ackDue.Declares?) && m'.peerClose == m.peerClose && m'.peerAck == m.peerAck
  }

  /** A machine with the records and the anchor it had. */
  predicate KeepsRecords(m: Machine, m': Machine) {
    m'.Valid() && m'.ch == m.ch && m'.recordsSent == m.recordsSent && m'.errorSent == m.errorSent && m'.anchor == m.anchor
  }

  /** A new machine and section on the same log, with an anchor and a record the log bears out. */
  predicate SameLog(x: Endpoint, x': Endpoint) {
    && x'.out == x.out && x'.closes == x.closes && x'.m.ch == x.m.ch && x'.m.errorSent == x.m.errorSent
    && x'.m.Valid() && SectionOk(x')
  }

  lemma SameLogOwnHalf(x: Endpoint, x': Endpoint)
    requires OwnHalf(x) && SameLog(x, x') && AnchorOk(x.out, x.FirstClose(), x.closes, x'.m.anchor)
    ensures OwnHalf(x') && x'.FirstClose() == x.FirstClose()
  {}

  lemma SameLogAgainst(x: Endpoint, x': Endpoint, y: Endpoint)
    requires Against(x, y) && Against(y, x) && SameLog(x, x') && x'.got == x.got && KeepsClaims(x.m, x'.m)
    requires MayDeclare(NoAckDue, x'.section, y.out.At(x.got))
    ensures Against(x', y) && Against(y, x')
  {}

  lemma SameLogKeeps(x: Endpoint, x': Endpoint, y: Endpoint)
    requires Consistent(x, y) && SameLog(x, x') && x'.got == x.got && KeepsClaims(x.m, x'.m) && Shaped(x)
    requires AnchorOk(x.out, x.FirstClose(), x.closes, x'.m.anchor)
    requires x.got <= |y.out.sent| && MayDeclare(NoAckDue, x'.section, y.out.At(x.got))
    ensures Consistent(x', y)
  {
    BothFit(x, y);
    SameLogOwnHalf(x, x');
    SameLogAgainst(x, x', y);
    Fitted(x', y);
  }

  lemma MachineKeeps(x: Endpoint, y: Endpoint, m: Machine)
    requires Consistent(x, y) && KeepsClaims(x.m, m) && KeepsRecords(x.m, m)
    ensures Consistent(x.(m := m), y)
  {
    BothFit(x, y);
    SameLogKeeps(x, x.(m := m), y);
  }

  /** Leaving the section without a commit. */
  lemma FreedKeeps(x: Endpoint, y: Endpoint)
    requires Consistent(x, y)
    ensures Consistent(x.(section := Idle), y)
  {
    BothFit(x, y);
    SameLogKeeps(x, x.(section := Idle), y);
  }

  lemma EndWithMachineKeeps(x: Endpoint, y: Endpoint, v: Verdict)
    requires Consistent(x, y) && v != Clean
    ensures Consistent(x.(m := EndWith(x.m, v)), y)
  {
    BothFit(x, y);
    EndWithKeeps(x.m, v);
    MachineKeeps(x, y, EndWith(x.m, v));
  }

  lemma EndChannelKeeps(x: Endpoint, y: Endpoint, incomplete: bool)
    requires Consistent(x, y)
    ensures Consistent(x.(m := NoteChannelEnded(x.m, incomplete)), y)
  {
    BothFit(x, y);
    ChannelEndKeeps(x.m, incomplete);
    MachineKeeps(x, y, NoteChannelEnded(x.m, incomplete));
  }

  /** One record more on the log, of the kind the counts allow. */
  predicate Appends(x: Endpoint, x': Endpoint, size: nat, content: Content) {
    && x'.out == x.out.With(size, content) && x'.got == x.got && x'.m.ch == x.m.ch && x'.m.anchor == x.m.anchor
    && x'.closes == x.closes + (if content.CloseMachineContent? then 1 else 0)
    && !x.m.errorSent && x'.m.errorSent == content.TerminalError?
    && (content.App? ==> x.closes == 0)
  }

  lemma AppendsShaped(x: Endpoint, x': Endpoint, size: nat, content: Content)
    requires Shaped(x) && Appends(x, x', size, content)
    ensures Shaped(x') && x'.FirstClose() == x.FirstClose() + (if content.App? then 1 else 0)
  {
    WithExtends(x.out, size, content);
    forall i | 0 <= i < |x'.out.sent|
      ensures x'.out.sent[i].content.App? <==> i < x'.FirstClose()
      ensures x'.out.sent[i].content.CloseMachineContent? <==> x'.FirstClose() <= i < x'.FirstClose() + x'.closes
    {
      if i < |x.out.sent| { assert x'.out.sent[i] == x.out.sent[i]; }
    }
  }

  lemma AppendsAnchor(t: Track, t': Track, first: int, closes: nat, first': int, closes': nat, anchor: Anchor)
    requires Extends(t', t) && 0 <= first && first + closes <= |t.sent| && AnchorOk(t, first, closes, anchor)
    requires closes <= closes' && 0 <= first' && first' + closes' <= |t'.sent| && (closes > 0 ==> first' == first)
    ensures AnchorOk(t', first', closes', anchor)
  {}

  lemma AppendsOwnHalf(x: Endpoint, x': Endpoint, size: nat, content: Content)
    requires OwnHalf(x) && Appends(x, x', size, content) && x'.m.Valid() && !x.out.Stands().exhausted && SectionOk(x')
    ensures OwnHalf(x')
  {
    AppendsShaped(x, x', size, content);
    WithExtends(x.out, size, content);
    WithValid(x.out, size, content);
    AppendsAnchor(x.out, x'.out, x.FirstClose(), x.closes, x'.FirstClose(), x'.closes, x.m.anchor);
  }

  lemma AppendsAgainst(x: Endpoint, x': Endpoint, y: Endpoint, size: nat, content: Content)
    requires Fits(x, y) && Fits(y, x) && Appends(x, x', size, content) && KeepsClaims(x.m, x'.m) && !x'.section.Planned?
    requires content.CloseMachineContent? ==>
               content.body.CloseBody? && !y.out.At(x.got).Before(content.body.expectedRecv)
    ensures Against(x', y) && Against(y, x')
  {
    WithExtends(x.out, size, content);
    AppendsShaped(x, x', size, content);
    assert x'.out.At(y.got) == x.out.At(y.got);
  }

  lemma AppendsKeeps(x: Endpoint, x': Endpoint, y: Endpoint, size: nat, content: Content)
    requires Consistent(x, y) && Appends(x, x', size, content) && KeepsClaims(x.m, x'.m) && !x.out.Stands().exhausted
    requires SectionOk(x') && !x'.section.Planned?
    requires x.got <= |y.out.sent|
    requires content.CloseMachineContent? ==>
               content.body.CloseBody? && !y.out.At(x.got).Before(content.body.expectedRecv)
    ensures Consistent(x', y)
  {
    BothFit(x, y);
    AppendsOwnHalf(x, x', size, content);
    AppendsAgainst(x, x', y, size, content);
    Fitted(x', y);
  }

  // --------------------------------------------------------------------- accepting

  /** An ack that equals the anchor proves the peer accepted everything up to the first close record, wherever later the anchor is. */
  lemma AcceptAckLearns(x: Endpoint, y: Endpoint, body: CloseBody)
    requires OwnHalf(x) && y.got <= |x.out.sent| && x.m.anchor.FrozenAt?
    requires body.CloseBody? && body.expectedRecv == x.m.anchor.position && !x.out.At(y.got).Before(body.expectedRecv)
    ensures HeardClose(y, x)
  {
    if y.got <= x.FirstClose() {
      AtMonotone(x.out, y.got, x.FirstClose() + 1);
    }
  }

  /** What the machine may have concluded from accepting the peer's next record. */
  predicate Learns(x: Endpoint, y: Endpoint, m: Machine)
    requires x.got < |y.out.sent|
  {
    && KeepsRecords(x.m, m)
    && (m.ackDue == x.m.ackDue || !m.ackDue.Declares? || m.ackDue.expectedRecv == y.out.At(x.got + 1))
    && ((m.peerClose || m.peerAck) && !x.m.peerClose && !x.m.peerAck ==> y.out.sent[x.got].content.CloseMachineContent?)
    && (m.peerAck && !x.m.peerAck ==> HeardClose(y, x))
  }

  lemma LearnAgainst(x: Endpoint, y: Endpoint, m: Machine)
    requires Fits(x, y) && Fits(y, x) && x.got < |y.out.sent| && Learns(x, y, m)
    ensures var x' := x.(m := m, got := x.got + 1); Against(x', y) && Against(y, x')
  {
    AtMonotone(y.out, x.got, x.got + 1);
  }

  lemma LearnKeeps(x: Endpoint, y: Endpoint, m: Machine)
    requires Consistent(x, y) && x.got < |y.out.sent| && Learns(x, y, m)
    ensures Consistent(x.(m := m, got := x.got + 1), y)
  {
    BothFit(x, y);
    SameLogOwnHalf(x, x.(m := m, got := x.got + 1));
    LearnAgainst(x, y, m);
    Fitted(x.(m := m, got := x.got + 1), y);
  }

  /** An accepted ack proves the peer's acceptance and changes no claim. */
  lemma AckChanges(m: Machine, body: CloseBody, envelope: Position, nextSend: Position)
    requires m.Valid()
    ensures var (m', outcome) := ReceiveCloseAck(m, body, envelope, nextSend);
            || outcome.FatalClose?
            || (KeepsRecords(m, m') && m'.ackDue == m.ackDue && m'.peerAck && m.anchor.FrozenAt?
                && body.CloseBody? && body.expectedRecv == m.anchor.position)
  {
    ReceiveAckKeeps(m, body, envelope, nextSend);
  }

  lemma AckLearns(x: Endpoint, y: Endpoint)
    requires Fits(x, y) && Fits(y, x) && x.got < |y.out.sent| && y.out.sent[x.got].content.CloseMachineContent?
    ensures var w := y.out.sent[x.got];
            var (m, outcome) := ReceiveCloseAck(x.m, w.content.body, w.at, x.out.Stands().At());
            outcome.FatalClose? || Learns(x, y, m)
  {
    var w := y.out.sent[x.got];
    AckChanges(x.m, w.content.body, w.at, x.out.Stands().At());
    if !ReceiveCloseAck(x.m, w.content.body, w.at, x.out.Stands().At()).1.FatalClose? {
      AcceptAckLearns(x, y, w.content.body);
    }
  }

  /** An accepted close leaves owed what it leaves expected. */
  lemma CloseChanges(m: Machine, body: CloseBody, envelope: Position, completed: bool, nextSend: Position, now: nat)
    requires m.Valid()
    ensures var (m', outcome) := ReceiveClose(m, body, envelope, completed, nextSend, now);
            || outcome.FatalClose?
            || (KeepsRecords(m, m') && m'.peerAck == m.peerAck
                && m'.ackDue == match NextPosition(m.ch.l, envelope, completed)
                                case None => Undeclarable
                                case Some(next) => Declares(next))
  {
    ReceiveCloseKeeps(m, body, envelope, completed, nextSend, now);
  }

  lemma CloseLearns(x: Endpoint, y: Endpoint, now: nat)
    requires Fits(x, y) && Fits(y, x) && x.got < |y.out.sent| && y.out.sent[x.got].content.CloseMachineContent?
    ensures var w := y.out.sent[x.got];
            var (m, outcome) := ReceiveClose(x.m, w.content.body, w.at, w.completes, x.out.Stands().At(), now);
            outcome.FatalClose? || Learns(x, y, m)
  {
    var w := y.out.sent[x.got];
    CloseChanges(x.m, w.content.body, w.at, w.completes, x.out.Stands().At(), now);
    NextIsNext(y.out, x.got);
  }

  lemma AcceptLearns(x: Endpoint, y: Endpoint, now: nat)
    requires Fits(x, y) && Fits(y, x) && x.got < |y.out.sent| && !x.m.state.Ended?
    ensures var w := y.out.sent[x.got];
            var (m, outcome) := Receive(x.m, Inner(w), w.at, w.completes, x.out.Stands().At(), now);
            outcome.FatalClose? || Learns(x, y, m)
  {
    var w := y.out.sent[x.got];
    ReceiveKeeps(x.m, Inner(w), w.at, w.completes, x.out.Stands().At(), now);
    match w.content
    case App =>
    case TerminalError =>
    case CloseMachineContent(ack, _) => if ack { AckLearns(x, y); } else { CloseLearns(x, y, now); }
  }

  lemma ReceiveFatalKeeps(m: Machine, r: Inbound, envelope: Position, completed: bool, nextSend: Position, now: nat)
    requires m.Valid() && Receive(m, r, envelope, completed, nextSend, now).1.FatalClose?
    ensures Receive(m, r, envelope, completed, nextSend, now).0 == EndWith(m, Failed)
  {}

  lemma AcceptKeeps(x: Endpoint, y: Endpoint, now: nat)
    requires Consistent(x, y)
    ensures Consistent(Accepts(x, y, now), y)
  {
    BothFit(x, y);
    if x.got >= |y.out.sent| || x.m.state.Ended? {
    } else if x.out.Stands().exhausted {
      EndChannelKeeps(x, y, false);
    } else {
      var w := y.out.sent[x.got];
      var (m, outcome) := Receive(x.m, Inner(w), w.at, w.completes, x.out.Stands().At(), now);
      AcceptLearns(x, y, now);
      if outcome.FatalClose? {
        ReceiveFatalKeeps(x.m, Inner(w), w.at, w.completes, x.out.Stands().At(), now);
        EndWithMachineKeeps(x, y, Failed);
      } else {
        LearnKeeps(x, y, m);
      }
    }
  }

  // ----------------------------------------------------------------------- sending

  /** A record built now declares no more than has been accepted. */
  predicate BuildsSoundly(x: Endpoint, y: Endpoint, built: Option<(Machine, CloseRecord)>)
    requires x.got <= |y.out.sent|
  {
    built.Some? ==>
      var (m, r) := built.value;
      && m.Valid() && m == x.m.(pending := m.pending) && !x.m.errorSent
      && r.position == x.out.Stands().At() && r.body.CloseBody? && !y.out.At(x.got).Before(r.body.expectedRecv)
  }

  lemma BuiltKeeps(x: Endpoint, y: Endpoint, m: Machine, r: CloseRecord)
    requires Consistent(x, y) && x.section.Idle? && !x.out.Stands().exhausted
    requires x.got <= |y.out.sent| && BuildsSoundly(x, y, Some((m, r)))
    ensures Consistent(x.(m := m, section := Planned(r)), y)
  {
    BothFit(x, y);
    SameLogKeeps(x, x.(m := m, section := Planned(r)), y);
  }

  lemma PlansKeeps(x: Endpoint, y: Endpoint, built: Option<(Machine, CloseRecord)>, declared: bool)
    requires Consistent(x, y) && x.section.Idle? && x.got <= |y.out.sent| && BuildsSoundly(x, y, built)
    ensures Consistent(Plans(x, built, declared), y)
  {
    if x.out.Stands().exhausted || !declared {
      EndChannelKeeps(x, y, false);
    } else if built.Some? {
      BuiltKeeps(x, y, built.value.0, built.value.1);
    }
  }

  lemma PlanCloseKeeps(x: Endpoint, y: Endpoint)
    requires Consistent(x, y)
    ensures Consistent(PlansClose(x, y), y)
  {
    BothFit(x, y);
    if x.section.Idle? && x.m.state.Open? {
      var expected := ExpectedRecv(x, y);
      PlansKeeps(x, y, if expected.None? then None else BuildClose(x.m, x.out.Stands().At(), expected.value), expected.Some?);
    }
  }

  lemma OwedIsSound(x: Endpoint, y: Endpoint, declared: Position)
    requires Fits(x, y) && x.m.Owes().Some? && Declaration(x, y) == Some(declared)
    ensures BuildsSoundly(x, y, BuildCloseAck(x.m, x.out.Stands().At(), declared))
  {}

  lemma PlanOwedKeeps(x: Endpoint, y: Endpoint)
    requires Consistent(x, y)
    ensures Consistent(PlansOwed(x, y), y)
  {
    BothFit(x, y);
    if x.section.Idle? && x.m.Owes().Some? {
      var declared := Declaration(x, y);
      if declared.Some? { OwedIsSound(x, y, declared.value); }
      PlansKeeps(x, y, if declared.None? then None else BuildCloseAck(x.m, x.out.Stands().At(), declared.value), declared.Some?);
    }
  }

  /** The record goes on the wire; the machine is told later, or is told that the channel ended. */
  lemma PutKeeps(x: Endpoint, y: Endpoint, section: Section)
    requires Consistent(x, y) && x.section.Planned? && (section.Idle? || section == OnWire(x.section.record))
    ensures Consistent(Put(x, x.section.record).(section := section), y)
  {
    BothFit(x, y);
    var r := x.section.record;
    WithExtends(x.out, CLOSE_RECORD_BYTES, CloseMachineContent(r.ack, r.body));
    AppendsKeeps(x, Put(x, r).(section := section), y, CLOSE_RECORD_BYTES, CloseMachineContent(r.ack, r.body));
  }

  lemma ProtectKeeps(x: Endpoint, y: Endpoint, sending: Sending)
    requires Consistent(x, y)
    ensures Consistent(Protects(x, sending), y)
  {
    if x.section.Planned? {
      var r, freed := x.section.record, x.(section := Idle);
      FreedKeeps(x, y);
      if !HasCapacity(x.out.l, x.out.Stands(), [CLOSE_RECORD_BYTES]) || sending.Unavailable? {
        EndChannelKeeps(freed, y, false);
      } else if sending.Admitted? {
        PutKeeps(x, y, OnWire(r));
      } else if sending.Doubtful? {
        PutKeeps(x, y, Idle);
        EndChannelKeeps(Put(freed, r), y, false);
      }
    }
  }

  /** A commit answers the record that is last on the log, so the anchor it fixes is where that record left the direction. */
  lemma NotedAnchored(x: Endpoint, m: Machine)
    requires OwnHalf(x) && x.section.OnWire? && m.ch == x.m.ch
    requires !x.m.anchor.NotFrozen? ==> m.anchor == x.m.anchor
    requires x.m.anchor.NotFrozen? && m.anchor.FrozenAt? ==>
               NextPosition(x.m.ch.l, Last(x.out).at, Last(x.out).completes) == Some(m.anchor.position)
    ensures AnchorOk(x.out, x.FirstClose(), x.closes, m.anchor)
  {
    if x.m.anchor.NotFrozen? && m.anchor.FrozenAt? {
      LastAnchors(x.out, x.FirstClose(), m.anchor.position);
    }
  }

  /** Where the last record left the direction is not before where any earlier one did. */
  lemma LastAnchors(t: Track, first: nat, position: Position)
    requires t.Valid() && first < |t.sent|
    requires NextPosition(t.l, Last(t).at, Last(t).completes) == Some(position)
    ensures !t.Sched(first + 1).exhausted && !position.Before(t.At(first + 1))
  {
    var n := |t.sent|;
    NextIsNext(t, n - 1);
    AtMonotone(t, first + 1, n);
    if first + 1 < n { assert t.Placed(first + 1); }
  }

  /** What a commit changes of the machine. */
  lemma NotedMachine(m: Machine, record: CloseRecord, at: Position, completed: bool, now: nat)
    requires m.Valid() && TransmittedOk(m, record, at)
    ensures var m' := NoteTransmitted(m, record, at, completed, now).value;
            && KeepsClaims(m, m') && m'.errorSent == m.errorSent && m'.recordsSent == m.recordsSent + 1
            && m'.anchor == if !m.anchor.NotFrozen? then m.anchor
                            else match NextPosition(m.ch.l, at, completed)
                                 case None => Unfreezable
                                 case Some(next) => FrozenAt(next, record.ack)
  {
    TransmitKeeps(m, Transmits(record, at, completed, now));
  }

  lemma NotedKeeps(x: Endpoint, y: Endpoint, m: Machine)
    requires Consistent(x, y) && x.section.OnWire? && KeepsClaims(x.m, m)
    requires m.errorSent == x.m.errorSent && m.recordsSent == x.m.recordsSent + 1
    requires Shaped(x) && AnchorOk(x.out, x.FirstClose(), x.closes, m.anchor)
    ensures Consistent(x.(m := m, section := Idle), y)
  {
    BothFit(x, y);
    SameLogKeeps(x, x.(m := m, section := Idle), y);
  }

  lemma NoteKeeps(x: Endpoint, y: Endpoint, now: nat)
    requires Consistent(x, y)
    ensures Consistent(Notes(x, now), y)
  {
    BothFit(x, y);
    if x.section.OnWire? {
      var w, r := Last(x.out), x.section.record;
      if TransmittedOk(x.m, r, w.at) {
        var m := NoteTransmitted(x.m, r, w.at, w.completes, now).value;
        NotedMachine(x.m, r, w.at, w.completes, now);
        NotedAnchored(x, m);
        NotedKeeps(x, y, m);
      } else {
        FreedKeeps(x, y);
      }
    }
  }

  lemma SendErrorKeeps(x: Endpoint, y: Endpoint, size: nat)
    requires Consistent(x, y)
    ensures Consistent(SendsError(x, size), y)
  {
    BothFit(x, y);
    TerminalErrorKeeps(x.m);
    if SendsError(x, size) != x {
      AppendsKeeps(x, SendsError(x, size), y, size, TerminalError);
    }
  }

  lemma SendApplicationKeeps(x: Endpoint, y: Endpoint, size: nat)
    requires Consistent(x, y)
    ensures Consistent(SendsApplication(x, size), y)
  {
    BothFit(x, y);
    if SendsApplication(x, size) != x {
      AppendsKeeps(x, SendsApplication(x, size), y, size, App);
    }
  }

  lemma ExpireKeeps(x: Endpoint, y: Endpoint, now: nat)
    requires Consistent(x, y)
    ensures Consistent(x.(m := Apply(x.m, Expires(now))), y)
  {
    BothFit(x, y);
    if x.m.WaitExpired(now) { EndWithMachineKeeps(x, y, UncleanAbrupt); }
  }

  lemma ActKeeps(x: Endpoint, y: Endpoint, act: Action)
    requires Consistent(x, y)
    ensures Consistent(Act(x, y, act), y)
  {
    match act
    case SendApplication(size) => SendApplicationKeeps(x, y, size);
    case PlanClose => PlanCloseKeeps(x, y);
    case PlanOwed => PlanOwedKeeps(x, y);
    case Protect(sending) => ProtectKeeps(x, y, sending);
    case Note(now) => NoteKeeps(x, y, now);
    case SendError(size) => SendErrorKeeps(x, y, size);
    case Accept(now) => AcceptKeeps(x, y, now);
    case Expire(now) => ExpireKeeps(x, y, now);
    case EndChannel(incomplete) => EndChannelKeeps(x, y, incomplete);
    case FailElsewhere => EndWithMachineKeeps(x, y, Failed);
  }

  // -------------------------------------------------------------------------- runs

  datatype Move = ByClient(act: Action) | ByNode(act: Action)

  function By(move: Move): Who { if move.ByClient? then TheClient else TheNode }

  function Start(l: Limits, binding: nat, clientStart: Direction, nodeStart: Direction): (s: System)
    requires l.Valid() && clientStart.Live(l) && nodeStart.Live(l)
    ensures Sound(s)
  {
    System(Endpoint(Fresh(Channel(l, C2N, binding)), Track(l, clientStart, []), 0, 0, Idle),
           Endpoint(Fresh(Channel(l, N2C, binding)), Track(l, nodeStart, []), 0, 0, Idle))
  }

  predicate PlayableAt(s: System, w: Who) { CanPlay(Own(s, w), Peer(s, w)) }

  predicate Playable(s: System) { forall w {:trigger PlayableAt(s, w)} :: PlayableAt(s, w) }

  lemma EndPlays(s: System, w: Who)
    requires Playable(s)
    ensures CanPlay(Own(s, w), Peer(s, w))
  {
    assert PlayableAt(s, w);
  }

  /** A move is one end's step; the other end stays as it is. */
  function Next(s: System, move: Move): System
    requires Playable(s)
  {
    assert PlayableAt(s, By(move));
    var stepped := Act(Own(s, By(move)), Peer(s, By(move)), move.act);
    match move
    case ByClient(_) => s.(client := stepped)
    case ByNode(_) => s.(node := stepped)
  }

  ghost predicate SoundAt(s: System, w: Who) { Consistent(Own(s, w), Peer(s, w)) }

  /** Both ends can go on, and each is consistent with the other. */
  ghost predicate Sound(s: System) { Playable(s) && forall w {:trigger SoundAt(s, w)} :: SoundAt(s, w) }

  lemma EndsConsistent(s: System, w: Who)
    requires Sound(s)
    ensures Consistent(Own(s, w), Peer(s, w))
  {
    assert SoundAt(s, w);
  }

  ghost function Play(s: System, moves: seq<Move>): (end: System)
    requires Sound(s)
    ensures Sound(end)
    decreases |moves|
  {
    if moves == [] then s
    else
      var mid := Play(s, moves[..|moves| - 1]);
      NextKeeps(mid, moves[|moves| - 1]);
      Next(mid, moves[|moves| - 1])
  }

  lemma NextKeeps(s: System, move: Move)
    requires Sound(s)
    ensures Sound(Next(s, move))
  {
    var x, y := Own(s, By(move)), Peer(s, By(move));
    EndsConsistent(s, By(move));
    ActKeeps(x, y, move.act);
    Mutual(Act(x, y, move.act), y);
  }

  /** Every application record either side put on the wire was accepted by the other, and neither can put another. */
  ghost predicate NothingLost(x: Endpoint, y: Endpoint) {
    && (forall i {:trigger x.out.sent[i]} :: 0 <= i < |x.out.sent| && x.out.sent[i].content.App? ==> i < y.got)
    && (forall i {:trigger y.out.sent[i]} :: 0 <= i < |y.out.sent| && y.out.sent[i].content.App? ==> i < x.got)
    && x.closes > 0 && y.closes > 0
  }

  lemma CompletedLosesNothing(x: Endpoint, y: Endpoint)
    requires Consistent(x, y) && x.m.completed
    ensures NothingLost(x, y)
  {
    BothFit(x, y);
  }

  lemma EndCompleted(s: System, w: Who)
    requires Sound(s)
    ensures var x := Own(s, w);
            x.m.verdict == Some(Clean) || x.m.completed ==> NothingLost(x, Peer(s, w))
  {
    EndsConsistent(s, w);
    if Own(s, w).m.completed { CompletedLosesNothing(Own(s, w), Peer(s, w)); }
  }

  /**
   From any synchronised pair, under any interleaving of the turns of both sections
   with what is accepted, any delays, refusals, failures, expiries and terminal errors:
   an endpoint whose exchange is complete - so any endpoint whose verdict is clean -
   knows that not one application record was lost in either direction.
   */
  lemma CleanLosesNothing(l: Limits, binding: nat, clientStart: Direction, nodeStart: Direction, moves: seq<Move>)
    requires l.Valid() && clientStart.Live(l) && nodeStart.Live(l)
    ensures var s := Play(Start(l, binding, clientStart, nodeStart), moves);
            && (s.client.m.verdict == Some(Clean) || s.client.m.completed ==> NothingLost(s.client, s.node))
            && (s.node.m.verdict == Some(Clean) || s.node.m.completed ==> NothingLost(s.node, s.client))
  {
    var s := Play(Start(l, binding, clientStart, nodeStart), moves);
    EndCompleted(s, TheClient);
    EndCompleted(s, TheNode);
  }
}
