/**
 What each end of a channel can do before and beside an orderly close, step by step and
 exactly: when an application record goes out and what the log then holds, what becomes
 of a close record that is refused or in doubt, of the terminal error and of an ending.
 And over runs: any traffic both reserves have room for gets through, both ways.
 */
module CloseTraffic {
  import opened Prelude
  import opened RecordSequence
  import opened RecordSession
  import opened CloseRules
  import CloseEndings
  import opened CloseProtocol
  import opened CloseCrossing
  import opened CloseAgreement
  import opened CloseSettles
  import opened CloseRuns

  // ------------------------------------------------------------------ single steps

  /** One record more, of this size and content at the schedule's own position, behind a log that stays as it was. */
  predicate LogGrows(t: Track, t': Track, size: nat, content: Content) {
    && t'.l == t.l && t'.start == t.start
    && |t'.sent| == |t.sent| + 1 && t'.sent[..|t.sent|] == t.sent
    && t'.sent[|t.sent|] == Wire(t.Stands().At(), size, t.l.Complete(t.Stands().records + 1, t.Stands().bytes + size), content)
    && t'.Stands() == Step(t.l, t.Stands(), size)
  }

  lemma Grows(t: Track, size: nat, content: Content)
    ensures LogGrows(t, t.With(size, content), size, content)
  {
    StandsAfter(t, size, content);
  }

  /** The track follows its schedule from a start whose counter is its record count. */
  ghost predicate InStep(t: Track) { t.Valid() && t.start.Coherent() }

  lemma RoomIsExact(t: Track, sizes: seq<nat>)
    requires InStep(t)
    ensures HasCapacity(t.l, t.Stands(), sizes) <==> !t.Stands().exhausted && Protectable(t.l, t.Stands(), sizes)
  {
    if !t.Stands().exhausted {
      AfterIsLive(t.l, t.start, SizesOf(t.sent[..|t.sent|]));
      CoherentCapacityIsExact(t.l, t.Stands(), sizes);
    }
  }

  /**
   An application record goes out exactly while no close record has and the machine has
   not ended, in a free section, with the whole reserve still protectable behind it: it
   is then the next record of the log, and nothing else changes.
   */
  lemma ApplicationGoesExactly(x: Endpoint, y: Endpoint, size: nat)
    requires CanPlay(x, y) && InStep(x.out)
    ensures var x' := Act(x, y, SendApplication(size));
            if x.section == Idle && x.closes == 0 && x.m.state != Ended && Protectable(x.out.l, x.out.Stands(), [size] + RESERVE)
            then LogGrows(x.out, x'.out, size, App) && x' == x.(out := x'.out)
            else x' == x
  {
    RoomIsExact(x.out, [size] + RESERVE);
    Grows(x.out, size, App);
  }

  /**
   A planned close record goes out exactly when there is room for it and the session
   admits it: certainly, and it waits for its commit; or for all the sender knows, and
   then the exchange is over. Refused, it is forgotten and stays owed.
   */
  lemma CloseRecordGoesExactly(x: Endpoint, y: Endpoint, sending: Sending)
    requires CanPlay(x, y) && InStep(x.out)
    ensures var x' := Act(x, y, Protect(sending));
            if !x.section.Planned? then x' == x
            else
              var r := x.section.record;
              var goes := Protectable(x.out.l, x.out.Stands(), [CLOSE_RECORD_BYTES]) && (sending.Admitted? || sending.Doubtful?);
              var over := !Protectable(x.out.l, x.out.Stands(), [CLOSE_RECORD_BYTES]) || sending.Doubtful? || sending.Unavailable?;
              && (if goes then LogGrows(x.out, x'.out, CLOSE_RECORD_BYTES, CloseMachineContent(r.ack, r.body)) else x'.out == x.out)
              && x'.closes == x.closes + (if goes then 1 else 0)
              && x'.section == (if goes && !over then OnWire(r) else Idle)
              && x'.m == (if over then Apply(x.m, ChannelEnds(false)) else x.m)
              && x'.got == x.got
  {
    RoomIsExact(x.out, [CLOSE_RECORD_BYTES]);
    if x.section.Planned? {
      Grows(x.out, CLOSE_RECORD_BYTES, CloseMachineContent(x.section.record.ack, x.section.record.body));
    }
  }

  /** The section now holds this record, built at the endpoint's own next position. */
  predicate Builds(x: Endpoint, x': Endpoint, ack: bool, purpose: Purpose, expectedRecv: Position) {
    && x'.section.Planned? && CloseEndings.BuiltAs(x.m, (x'.m, x'.section.record), ack, purpose, x.out.Stands().At(), expectedRecv)
    && x' == x.(m := x'.m, section := x'.section)
  }

  /**
   An endpoint in its application phase with a free section builds its close, declaring
   what it expects next of the peer; with either direction spent it has nothing to
   declare or nowhere to put it, and the exchange is over.
   */
  lemma CloseIsBuiltExactly(x: Endpoint, y: Endpoint)
    requires CanPlay(x, y)
    ensures var x' := Act(x, y, PlanClose);
            if x.section != Idle || !x.m.state.Open? then x' == x
            else if x.out.Stands().exhausted || y.out.Sched(x.got).exhausted then x' == x.(m := Apply(x.m, ChannelEnds(false)))
            else Builds(x, x', false, InitialClose, y.out.At(x.got))
  {
    CloseEndings.CloseBuiltExactly(x.m, x.out.Stands().At(), y.out.At(x.got));
  }

  /** What is owed is built in a free section: the answer to a close with the declaration fixed when it came, the confirmation with the present one. */
  lemma OwedIsBuiltExactly(x: Endpoint, y: Endpoint)
    requires CanPlay(x, y)
    ensures var x' := Act(x, y, PlanOwed);
            if x.section != Idle || x.m.Owes().None? then x' == x
            else if x.out.Stands().exhausted || (!x.m.peerClose && y.out.Sched(x.got).exhausted)
            then x' == x.(m := Apply(x.m, ChannelEnds(false)))
            else if x.m.peerClose
            then x.m.ackDue.Declares? && Builds(x, x', true, Acknowledgement, x.m.ackDue.expectedRecv)
            else Builds(x, x', true, FinalConfirmation, y.out.At(x.got))
  {
    CloseEndings.OwedExactly(x.m);
    if x.m.Owes().Some? {
      CloseEndings.AckBuiltExactly(x.m, x.out.Stands().At(),
                                   if x.m.ackDue.Declares? then x.m.ackDue.expectedRecv else y.out.At(x.got));
    }
  }

  /** The terminal error goes out exactly once, in a free section with room for it, and then the endpoint has failed. */
  lemma ErrorGoesExactly(x: Endpoint, y: Endpoint, size: nat)
    requires CanPlay(x, y) && InStep(x.out)
    ensures var x' := Act(x, y, SendError(size));
            if x.section == Idle && !x.m.errorSent && !x.m.peerError && Protectable(x.out.l, x.out.Stands(), [size])
            then LogGrows(x.out, x'.out, size, TerminalError) && x' == x.(out := x'.out, m := x'.m)
                 && x'.m.errorSent && x'.m.state.Ended? && x'.m.verdict == Some(Failed)
            else x' == x
  {
    RoomIsExact(x.out, [size]);
    Grows(x.out, size, TerminalError);
  }

  /** An ending touches the machine alone, and does to it what that ending does. */
  lemma EndingTouchesMachine(x: Endpoint, y: Endpoint, act: Action)
    requires CanPlay(x, y) && (act.Expire? || act.EndChannel? || act.FailElsewhere?)
    ensures Act(x, y, act)
            == x.(m := Apply(x.m, if act.Expire? then Expires(act.now)
                                  else if act.EndChannel? then ChannelEnds(act.incompleteReassembly) else FailsElsewhere))
  {}

  /**
   The peer's records are taken in order, one at a time: the next one reaches the
   machine exactly as it was sent, judged by the endpoint's own next position, and
   counts as accepted unless the machine finds it fatal.
   */
  lemma NextRecordTaken(x: Endpoint, y: Endpoint, now: nat)
    requires CanPlay(x, y) && x.got < |y.out.sent| && !x.m.state.Ended? && !x.out.Stands().exhausted
    ensures var x', w := Act(x, y, Accept(now)), y.out.sent[x.got];
            var inner := if w.content.App? then RpcRecord
                         else if w.content.TerminalError? then ErrorRecord(true)
                         else CloseMachineRecord(w.content.ack, w.content.body);
            var (m, outcome) := Receive(x.m, inner, w.at, w.completes, x.out.Stands().At(), now);
            x' == x.(m := m, got := x.got + if outcome.FatalClose? then 0 else 1)
  {}

  // -------------------------------------------------------------------- whole runs

  datatype Message = Message(from: Who, size: nat)

  /** The sizes of what one end says, in order. */
  function Said(messages: seq<Message>, w: Who): seq<nat> {
    if messages == [] then []
    else
      var last := messages[|messages| - 1];
      Said(messages[..|messages| - 1], w) + if last.from == w then [last.size] else []
  }

  function StartOf(clientStart: Direction, nodeStart: Direction, w: Who): Direction {
    if w == TheClient then clientStart else nodeStart
  }

  /** When its turn comes the message still leaves its sender the whole reserve. */
  predicate Affordable(l: Limits, clientStart: Direction, nodeStart: Direction, before: seq<Message>, message: Message) {
    Protectable(l, After(l, StartOf(clientStart, nodeStart, message.from), Said(before, message.from)), [message.size] + RESERVE)
  }

  ghost predicate AllAffordable(l: Limits, clientStart: Direction, nodeStart: Direction, messages: seq<Message>) {
    forall k :: 0 <= k < |messages| ==> Affordable(l, clientStart, nodeStart, messages[..k], messages[k])
  }

  /** The log holds exactly these application records, each at its place in the schedule. */
  ghost predicate Holds(x: Endpoint, start: Direction, sizes: seq<nat>) {
    && x.out.start == start && |x.out.sent| == |sizes|
    && (forall i {:trigger x.out.sent[i]} :: 0 <= i < |sizes| ==>
          && x.out.sent[i].content == App && x.out.sent[i].size == sizes[i]
          && x.out.sent[i].at == After(x.out.l, start, sizes[..i]).At())
  }

  /** The end is as it started but for what it has said and what it has accepted. */
  ghost predicate Talking(x: Endpoint, y: Endpoint, ch: Channel, start: Direction, sizes: seq<nat>) {
    && x.m == Fresh(ch) && x.section == Idle && x.closes == 0 && x.out.l == ch.l
    && Holds(x, start, sizes) && y.got == |sizes|
  }

  function SideOf(w: Who): Side { if w == TheClient then C2N else N2C }

  ghost predicate TalkingAt(s: System, l: Limits, binding: nat, start: Direction, messages: seq<Message>, w: Who) {
    Talking(Own(s, w), Peer(s, w), Channel(l, SideOf(w), binding), start, Said(messages, w))
  }

  lemma HoldsSizes(x: Endpoint, start: Direction, sizes: seq<nat>)
    requires Holds(x, start, sizes)
    ensures SizesOf(x.out.sent) == sizes && x.out.Stands() == After(x.out.l, start, sizes)
  {
    assert x.out.sent[..|x.out.sent|] == x.out.sent;
  }

  lemma HoldsMore(x: Endpoint, x': Endpoint, start: Direction, sizes: seq<nat>, size: nat)
    requires Holds(x, start, sizes) && LogGrows(x.out, x'.out, size, App)
    ensures Holds(x', start, sizes + [size])
  {
    HoldsSizes(x, start, sizes);
    forall i | 0 <= i < |sizes| + 1
      ensures x'.out.sent[i].content == App && x'.out.sent[i].size == (sizes + [size])[i]
      ensures x'.out.sent[i].at == After(x.out.l, start, (sizes + [size])[..i]).At()
    {
      assert (sizes + [size])[..i] == if i < |sizes| then sizes[..i] else sizes;
      assert i < |sizes| ==> x'.out.sent[i] == x'.out.sent[..|x.out.sent|][i] == x.out.sent[i];
    }
  }

  /** Said and accepted, one message is two honest turns. */
  lemma SpeaksOnce(x: Endpoint, y: Endpoint, ch: Channel, start: Direction, sizes: seq<nat>, size: nat)
    requires CanPlay(x, y) && Talking(x, y, ch, start, sizes) && InStep(x.out)
    requires Protectable(ch.l, After(ch.l, start, sizes), [size] + RESERVE)
    ensures var x' := Act(x, y, SendApplication(size));
            && x' == x.(out := x'.out) && Holds(x', start, sizes + [size]) && x'.out.l == ch.l
            && x'.out.sent[|sizes|].content == App
  {
    HoldsSizes(x, start, sizes);
    ApplicationGoesExactly(x, y, size);
    HoldsMore(x, Act(x, y, SendApplication(size)), start, sizes, size);
  }

  lemma ListensOnce(y: Endpoint, x: Endpoint, ch: Channel)
    requires CanPlay(y, x) && y.got < |x.out.sent| && x.out.sent[y.got].content == App && y.m == Fresh(ch)
    requires !y.out.Stands().exhausted
    ensures Act(y, x, Accept(0)) == y.(got := y.got + 1)
  {
    TakesApplication(y, x, 0);
  }

  /** A direction that afforded its last message, or has said nothing, is not spent. */
  lemma {:induction false} NotSpent(l: Limits, clientStart: Direction, nodeStart: Direction, messages: seq<Message>, w: Who)
    requires l.Valid() && clientStart.Live(l) && nodeStart.Live(l) && AllAffordable(l, clientStart, nodeStart, messages)
    ensures !After(l, StartOf(clientStart, nodeStart, w), Said(messages, w)).exhausted
    decreases |messages|
  {
    if messages != [] {
      var before, last := messages[..|messages| - 1], messages[|messages| - 1];
      AffordableLast(l, clientStart, nodeStart, messages);
      if last.from == w {
        var d := After(l, StartOf(clientStart, nodeStart, w), Said(before, w));
        assert ([last.size] + RESERVE)[1..] == RESERVE;
        assert Protectable(l, Step(l, d, last.size), RESERVE);
        assert Said(messages, w)[..|Said(messages, w)| - 1] == Said(before, w);
      } else {
        assert Said(messages, w) == Said(before, w);
        NotSpent(l, clientStart, nodeStart, before, w);
      }
    }
  }

  lemma AffordableLast(l: Limits, clientStart: Direction, nodeStart: Direction, messages: seq<Message>)
    requires messages != [] && AllAffordable(l, clientStart, nodeStart, messages)
    ensures AllAffordable(l, clientStart, nodeStart, messages[..|messages| - 1])
    ensures Affordable(l, clientStart, nodeStart, messages[..|messages| - 1], messages[|messages| - 1])
  {
    var before := messages[..|messages| - 1];
    forall k | 0 <= k < |before| ensures Affordable(l, clientStart, nodeStart, before[..k], before[k]) {
      assert before[..k] == messages[..k];
      assert Affordable(l, clientStart, nodeStart, messages[..k], messages[k]);
    }
  }

  /** Both ends, and the one that speaks hears nothing new of itself. */
  ghost predicate BothTalking(s: System, l: Limits, binding: nat, clientStart: Direction, nodeStart: Direction, messages: seq<Message>) {
    forall w {:trigger TalkingAt(s, l, binding, StartOf(clientStart, nodeStart, w), messages, w)} ::
      TalkingAt(s, l, binding, StartOf(clientStart, nodeStart, w), messages, w)
  }

  lemma TalkInStep(s: System, w: Who)
    requires Sound(s) && Own(s, w).out.start.Coherent()
    ensures InStep(Own(s, w).out)
  {
    EndsConsistent(s, w);
    BothFit(Own(s, w), Peer(s, w));
  }

  /** At every point of every run both tracks are in step, so what is said above of single steps holds there. */
  lemma RunsStayInStep(l: Limits, binding: nat, clientStart: Direction, nodeStart: Direction, moves: seq<Move>, w: Who)
    requires l.Valid() && clientStart.Live(l) && nodeStart.Live(l) && clientStart.Coherent() && nodeStart.Coherent()
    ensures var s := Play(Start(l, binding, clientStart, nodeStart), moves);
            CanPlay(Own(s, w), Peer(s, w)) && InStep(Own(s, w).out)
  {
    var s0 := Start(l, binding, clientStart, nodeStart);
    StartsRun(s0, moves);
    TalkInStep(Play(s0, moves), w);
    EndPlays(Play(s0, moves), w);
  }

  /** The two turns of one message, from wherever a run has come. */
  lemma OneMessage(s0: System, a: seq<Move>, message: Message, chs: (Channel, Channel), starts: (Direction, Direction),
                   sizes: (seq<nat>, seq<nat>)) returns (b: seq<Move>)
    requires Sound(s0) && AllHonest(a)
    requires var s, w := Play(s0, a), message.from;
             && Talking(Own(s, w), Peer(s, w), chs.0, starts.0, sizes.0)
             && Talking(Peer(s, w), Own(s, w), chs.1, starts.1, sizes.1)
    requires starts.0.Coherent() && Protectable(chs.0.l, After(chs.0.l, starts.0, sizes.0), [message.size] + RESERVE)
    requires !After(chs.1.l, starts.1, sizes.1).exhausted
    ensures AllHonest(b)
    ensures var s, w := Play(s0, b), message.from;
            && Talking(Own(s, w), Peer(s, w), chs.0, starts.0, sizes.0 + [message.size])
            && Talking(Peer(s, w), Own(s, w), chs.1, starts.1, sizes.1)
  {
    var w := message.from;
    var s := Play(s0, a);
    TalkInStep(s, w);
    var c := OneMore(s0, a, w, SendApplication(message.size));
    SpeaksOnce(Own(s, w), Peer(s, w), chs.0, starts.0, sizes.0, message.size);
    HoldsSizes(Peer(s, w), starts.1, sizes.1);
    var mid := Play(s0, c);
    b := OneMore(s0, c, Other(w), Accept(0));
    ListensOnce(Own(mid, Other(w)), Peer(mid, Other(w)), chs.1);
  }

  lemma AtBoth(s: System, l: Limits, binding: nat, clientStart: Direction, nodeStart: Direction, messages: seq<Message>, w: Who)
    requires TalkingAt(s, l, binding, StartOf(clientStart, nodeStart, w), messages, w)
    requires TalkingAt(s, l, binding, StartOf(clientStart, nodeStart, Other(w)), messages, Other(w))
    ensures BothTalking(s, l, binding, clientStart, nodeStart, messages)
  {
    forall v: Who ensures TalkingAt(s, l, binding, StartOf(clientStart, nodeStart, v), messages, v) {
      assert v == w || v == Other(w);
    }
  }

  /**
   From any pair in step, whatever the two ends have to say to each other and in
   whatever order: if every message leaves its sender's reserve when its turn comes,
   an honest run takes it all across. Each log then holds exactly what its end said, in
   order and each record at its place in the schedule, all of it has been accepted, and
   both ends are as they were, ready for more or for a close.
   */
  lemma {:induction false} TrafficGetsThrough(l: Limits, binding: nat, clientStart: Direction, nodeStart: Direction,
                                              messages: seq<Message>) returns (moves: seq<Move>)
    requires l.Valid() && clientStart.Live(l) && nodeStart.Live(l) && clientStart.Coherent() && nodeStart.Coherent()
    requires AllAffordable(l, clientStart, nodeStart, messages)
    ensures AllHonest(moves)
    ensures BothTalking(Play(Start(l, binding, clientStart, nodeStart), moves), l, binding, clientStart, nodeStart, messages)
    decreases |messages|
  {
    var s0 := Start(l, binding, clientStart, nodeStart);
    if messages == [] {
      moves := [];
      AtBoth(s0, l, binding, clientStart, nodeStart, [], TheClient);
    } else {
      var before, last := messages[..|messages| - 1], messages[|messages| - 1];
      AffordableLast(l, clientStart, nodeStart, messages);
      var a := TrafficGetsThrough(l, binding, clientStart, nodeStart, before);
      var w, v := last.from, Other(last.from);
      NotSpent(l, clientStart, nodeStart, before, v);
      var s := Play(s0, a);
      assert TalkingAt(s, l, binding, StartOf(clientStart, nodeStart, w), before, w);
      assert TalkingAt(s, l, binding, StartOf(clientStart, nodeStart, v), before, v);
      moves := OneMessage(s0, a, last, (Channel(l, SideOf(w), binding), Channel(l, SideOf(v), binding)),
                          (StartOf(clientStart, nodeStart, w), StartOf(clientStart, nodeStart, v)),
                          (Said(before, w), Said(before, v)));
      assert Said(messages, w) == Said(before, w) + [last.size] && Said(messages, v) == Said(before, v);
      AtBoth(Play(s0, moves), l, binding, clientStart, nodeStart, messages, w);
    }
  }
}
