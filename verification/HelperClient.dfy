/**
 The JSON-RPC client of the device helper: calls, responses arriving in arbitrary
 chunks, timeouts, and the helper's exit or errors, in any order.
 */
module HelperClient {
  import opened Prelude

  /** What one line of output is to the client: a response carries a result, and perhaps an error that overrides it. */
  datatype Line = Blank | NotJson | WithoutId | Response(id: int, result: string, error: Option<string>)

  datatype How = Resolved(result: string) | Rejected(error: string) | TimedOut | Gone

  datatype Settlement = Settlement(id: int, how: How)

  /** Issued ids still waiting, in the order they were issued; the live timers; and every settlement so far. */
  datatype Client = Client(pending: seq<int>, timers: set<int>, nextId: int, buffer: string, settled: seq<Settlement>)

  const FRESH := Client([], {}, 1, "", [])

  // ------------------------------------------------------------------------ actions

  function Without(s: seq<int>, id: int): seq<int> {
    if s == [] then [] else (if s[0] == id then [] else [s[0]]) + Without(s[1..], id)
  }

  /** Taking one id off the list, clearing its timer and settling it; an id that is not waiting changes nothing. */
  function Settle(c: Client, id: int, how: How): Client {
    if id !in c.pending then c
    else c.(pending := Without(c.pending, id), timers := c.timers - {id}, settled := c.settled + [Settlement(id, how)])
  }

  function Call(c: Client): Client {
    c.(pending := c.pending + [c.nextId], timers := c.timers + {c.nextId}, nextId := c.nextId + 1)
  }

  function Handle(parse: string -> Line, c: Client, line: string): Client {
    match parse(line)
    case Response(id, result, error) => Settle(c, id, Answer(result, error))
    case _ => c
  }

  /** A request is rejected with the error when there is one, and otherwise resolved with the result. */
  function Answer(result: string, error: Option<string>): How {
    if error.Some? then Rejected(error.value) else Resolved(result)
  }

  function Newline(s: string): (i: int)
    ensures -1 <= i < |s| && (i >= 0 ==> s[i] == '\n')
    ensures forall j :: 0 <= j < (if i < 0 then |s| else i) ==> s[j] != '\n'
  {
    if s == "" then -1
    else if s[0] == '\n' then 0
    else
      var i := Newline(s[1..]);
      assert forall j :: 0 < j < |s| ==> s[j] == s[1..][j - 1];
      if i < 0 then -1 else i + 1
  }

  /** The first complete line taken off the buffer and handled. */
  function TakeLine(parse: string -> Line, c: Client): (d: Client)
    requires Newline(c.buffer) >= 0
    ensures d.buffer == c.buffer[Newline(c.buffer) + 1..]
  {
    var i := Newline(c.buffer);
    HandleKeepsBuffer(parse, c.(buffer := c.buffer[i + 1..]), c.buffer[..i]);
    Handle(parse, c.(buffer := c.buffer[i + 1..]), c.buffer[..i])
  }

  /** Every complete line of the buffer, handled in order. */
  function Drain(parse: string -> Line, c: Client): Client
    decreases |c.buffer|
  {
    if Newline(c.buffer) < 0 then c else Drain(parse, TakeLine(parse, c))
  }

  lemma HandleKeepsBuffer(parse: string -> Line, c: Client, line: string)
    ensures Handle(parse, c, line).buffer == c.buffer
    ensures forall b :: Handle(parse, c.(buffer := b), line) == Handle(parse, c, line).(buffer := b)
  {}

  function Consume(parse: string -> Line, c: Client, chunk: string): Client {
    Drain(parse, c.(buffer := c.buffer + chunk))
  }

  /** A timer fires only while it is live. */
  function Timeout(c: Client, id: int): Client {
    if id in c.timers then Settle(c, id, TimedOut).(timers := c.timers - {id}) else c
  }

  /** The helper is gone: everything waiting is rejected, oldest first. */
  function RejectPending(c: Client): Client
    decreases |c.pending|
  {
    if c.pending == [] then c
    else
      WithoutShrinks(c.pending, c.pending[0]);
      RejectPending(Settle(c, c.pending[0], Gone))
  }

  lemma WithoutShrinks(s: seq<int>, id: int)
    ensures |Without(s, id)| <= |s| && (id in s ==> |Without(s, id)| < |s|)
    ensures forall x :: x in Without(s, id) <==> x in s && x != id
  {}

  datatype Event = Calls | Chunk(text: string) | TimesOut(id: int) | Exits

  function Next(parse: string -> Line, c: Client, e: Event): Client {
    match e
    case Calls => Call(c)
    case Chunk(text) => Consume(parse, c, text)
    case TimesOut(id) => Timeout(c, id)
    case Exits => RejectPending(c)
  }

  function Run(parse: string -> Line, events: seq<Event>): Client {
    if events == [] then FRESH else Next(parse, Run(parse, events[..|events| - 1]), events[|events| - 1])
  }

  // ---------------------------------------------------------------------- invariant

  predicate Distinct(s: seq<int>) { forall i, j :: 0 <= i < j < |s| ==> s[i] != s[j] }

  function Ids(settled: seq<Settlement>): (ids: seq<int>)
    ensures |ids| == |settled| && forall i :: 0 <= i < |ids| ==> ids[i] == settled[i].id
  {
    seq(|settled|, i requires 0 <= i < |settled| => settled[i].id)
  }

  /** Issued ids split into waiting and settled, nothing settles twice, and the live timers are those of the waiting. */
  ghost predicate Split(c: Client) {
    && c.nextId >= 1
    && Distinct(c.pending) && Distinct(Ids(c.settled))
    && (forall id :: id in c.pending ==> id !in Ids(c.settled))
    && (forall id :: id in c.pending || id in Ids(c.settled) <==> 1 <= id < c.nextId)
    && (forall id :: id in c.timers <==> id in c.pending)
  }

  lemma {:induction false} WithoutDistinct(s: seq<int>, id: int)
    requires Distinct(s)
    ensures Distinct(Without(s, id))
  {
    if s != [] {
      WithoutDistinct(s[1..], id);
      WithoutShrinks(s[1..], id);
      assert forall i :: 0 < i < |s| ==> s[i] == s[1..][i - 1];
      var t := Without(s[1..], id);
      forall i, j | 0 <= i < j < |Without(s, id)| ensures Without(s, id)[i] != Without(s, id)[j] {
        if s[0] != id && i == 0 { assert Without(s, id)[j] == t[j - 1] && t[j - 1] in t; }
      }
    }
  }

  lemma SettleSplit(c: Client, id: int, how: How)
    requires Split(c)
    ensures Split(Settle(c, id, how)) && Settle(c, id, how).nextId == c.nextId
  {
    if id in c.pending {
      WithoutShrinks(c.pending, id);
      WithoutDistinct(c.pending, id);
      var d := Settle(c, id, how);
      assert Ids(d.settled) == Ids(c.settled) + [id];
    }
  }

  lemma CallSplit(c: Client)
    requires Split(c)
    ensures Split(Call(c))
  {
    assert c.nextId !in c.pending;
  }

  lemma HandleSplit(parse: string -> Line, c: Client, line: string)
    requires Split(c)
    ensures Split(Handle(parse, c, line))
  {
    match parse(line)
    case Response(id, result, error) => SettleSplit(c, id, Answer(result, error));
    case _ =>
  }

  lemma {:induction false} DrainSplit(parse: string -> Line, c: Client)
    requires Split(c)
    ensures Split(Drain(parse, c)) && Newline(Drain(parse, c).buffer) < 0
    decreases |c.buffer|
  {
    var i := Newline(c.buffer);
    if i >= 0 {
      HandleSplit(parse, c.(buffer := c.buffer[i + 1..]), c.buffer[..i]);
      DrainSplit(parse, TakeLine(parse, c));
    }
  }

  lemma {:induction false} RejectSplit(c: Client)
    requires Split(c)
    ensures var d := RejectPending(c); Split(d) && d.pending == [] && d.timers == {} && d.nextId == c.nextId
    decreases |c.pending|
  {
    if c.pending == [] {
      forall id ensures id !in c.timers { assert id in c.timers <==> id in c.pending; }
    } else {
      SettleSplit(c, c.pending[0], Gone);
      WithoutShrinks(c.pending, c.pending[0]);
      RejectSplit(Settle(c, c.pending[0], Gone));
    }
  }

  /** Over any interleaving of calls, output, timeouts and the helper's end. */
  lemma {:induction false} RunSplits(parse: string -> Line, events: seq<Event>)
    ensures Split(Run(parse, events))
  {
    if events != [] {
      RunSplits(parse, events[..|events| - 1]);
      var c := Run(parse, events[..|events| - 1]);
      match events[|events| - 1]
      case Calls => CallSplit(c);
      case Chunk(text) => DrainSplit(parse, c.(buffer := c.buffer + text));
      case TimesOut(id) => SettleSplit(c, id, TimedOut);
      case Exits => RejectSplit(c);
    }
  }

  /** A response to an id that is not waiting - never issued, answered, timed out or rejected - changes nothing. */
  lemma LateResponseIgnored(parse: string -> Line, c: Client, line: string)
    requires Split(c) && parse(line).Response?
    requires parse(line).id < 1 || parse(line).id >= c.nextId || parse(line).id in Ids(c.settled)
    ensures Handle(parse, c, line) == c
  {}

  // ------------------------------------------------------------- how calls are settled

  /** One more settlement, of a call that was waiting; every other call waits on, its timer running. */
  ghost predicate SettlesOne(c: Client, d: Client, id: int, how: How) {
    && d.settled == c.settled + [Settlement(id, how)] && d.nextId == c.nextId && d.buffer == c.buffer
    && (forall x :: x in d.pending <==> x in c.pending && x != id)
    && (forall x :: x in d.timers <==> x in c.timers && x != id)
  }

  /** A response to a waiting call settles that call, with its error if it has one and otherwise with its result. */
  lemma ResponseSettles(parse: string -> Line, c: Client, line: string)
    requires parse(line).Response? && parse(line).id in c.pending
    ensures var error := parse(line).error;
            SettlesOne(c, Handle(parse, c, line), parse(line).id,
                       if error == None then Resolved(parse(line).result) else Rejected(error.value))
  {
    WithoutShrinks(c.pending, parse(line).id);
  }

  /** A line that is no response is skipped. */
  lemma OtherLinesIgnored(parse: string -> Line, c: Client, line: string)
    requires parse(line) == Blank || parse(line) == NotJson || parse(line) == WithoutId
    ensures Handle(parse, c, line) == c
  {}

  /** At any point of any run a whole line, arriving at once, is handled at once, whatever was left of the line before it. */
  lemma LineArrives(parse: string -> Line, events: seq<Event>, text: string)
    requires forall i :: 0 <= i < |text| ==> text[i] != '\n'
    ensures var c := Run(parse, events);
            Run(parse, events + [Chunk(text + "\n")]) == Handle(parse, c.(buffer := ""), c.buffer + text)
  {
    RunMore(parse, events, Chunk(text + "\n"));
    NoLineWaits(parse, events);
    OneLineDrains(parse, Run(parse, events), text);
  }

  lemma OneLineDrains(parse: string -> Line, c: Client, text: string)
    requires Newline(c.buffer) < 0 && forall i :: 0 <= i < |text| ==> text[i] != '\n'
    ensures Consume(parse, c, text + "\n") == Handle(parse, c.(buffer := ""), c.buffer + text)
  {
    var line := c.buffer + text;
    var full := c.buffer + (text + "\n");
    assert full == line + "\n" && full[|line|] == '\n';
    assert forall i :: 0 <= i < |line| ==> full[i] == line[i] && line[i] != '\n';
    assert Newline(full) == |line| && full[..|line|] == line && full[|line| + 1..] == "";
    HandleKeepsBuffer(parse, c.(buffer := ""), line);
    var d := TakeLine(parse, c.(buffer := full));
    assert d == Handle(parse, c.(buffer := ""), line) && Newline(d.buffer) < 0;
    assert Consume(parse, c, text + "\n") == Drain(parse, d) == d;
  }

  /** A call's timer settles it as timed out if it is still waiting, and otherwise nothing. */
  lemma TimeoutSettles(parse: string -> Line, events: seq<Event>, id: int)
    ensures var c, d := Run(parse, events), Run(parse, events + [TimesOut(id)]);
            if id in c.pending then SettlesOne(c, d, id, TimedOut) else d == c
  {
    RunSplits(parse, events);
    RunMore(parse, events, TimesOut(id));
    WithoutShrinks(Run(parse, events).pending, id);
  }

  function AllGone(ids: seq<int>): (settled: seq<Settlement>)
    ensures |settled| == |ids| && forall i :: 0 <= i < |ids| ==> settled[i] == Settlement(ids[i], Gone)
  {
    seq(|ids|, i requires 0 <= i < |ids| => Settlement(ids[i], Gone))
  }

  lemma WithoutFirst(s: seq<int>)
    requires s != [] && Distinct(s)
    ensures Without(s, s[0]) == s[1..]
  {
    WithoutAbsent(s[1..], s[0]);
  }

  lemma {:induction false} WithoutAbsent(s: seq<int>, id: int)
    requires id !in s
    ensures Without(s, id) == s
  {
    if s != [] { WithoutAbsent(s[1..], id); }
  }

  lemma AllGoneFirst(settled: seq<Settlement>, ids: seq<int>)
    requires ids != []
    ensures settled + [Settlement(ids[0], Gone)] + AllGone(ids[1..]) == settled + AllGone(ids)
  {
    assert AllGone(ids) == [Settlement(ids[0], Gone)] + AllGone(ids[1..]);
  }

  /** Rejecting the oldest leaves the others, in their order. */
  lemma RejectFirst(c: Client) returns (d: Client)
    requires c.pending != [] && Distinct(c.pending)
    ensures d.pending == c.pending[1..] && Distinct(d.pending) && d.settled == c.settled + [Settlement(c.pending[0], Gone)]
    ensures RejectPending(c) == RejectPending(d)
  {
    d := Settle(c, c.pending[0], Gone);
    WithoutFirst(c.pending);
    assert forall i :: 0 <= i < |d.pending| ==> d.pending[i] == c.pending[i + 1];
  }

  lemma {:induction false} AllRejected(c: Client)
    requires Distinct(c.pending)
    ensures RejectPending(c).settled == c.settled + AllGone(c.pending)
    decreases |c.pending|
  {
    if c.pending == [] {
      assert c.settled + AllGone(c.pending) == c.settled;
    } else {
      var d := RejectFirst(c);
      AllRejected(d);
      AllGoneFirst(c.settled, c.pending);
    }
  }

  /** When the helper goes everything still waiting is rejected, oldest first, and nothing waits or runs any more. */
  lemma ExitRejectsAll(parse: string -> Line, events: seq<Event>)
    ensures var c, d := Run(parse, events), Run(parse, events + [Exits]);
            d.settled == c.settled + AllGone(c.pending) && d.pending == [] && d.timers == {} && d.nextId == c.nextId
  {
    RunSplits(parse, events);
    RunMore(parse, events, Exits);
    AllRejected(Run(parse, events));
    RejectSplit(Run(parse, events));
  }

  // ----------------------------------------------------------------------- chunking

  lemma NewlineOfMore(a: string, b: string)
    ensures Newline(a) >= 0 ==> Newline(a + b) == Newline(a)
    ensures Newline(a) < 0 ==> Newline(a + b) == if Newline(b) < 0 then -1 else |a| + Newline(b)
  {
    var i := Newline(a + b);
    if Newline(a) >= 0 {
      assert (a + b)[Newline(a)] == '\n';
      assert i >= 0 && i <= Newline(a);
      assert (a + b)[i] == a[i];
    } else {
      assert forall j :: 0 <= j < |a| ==> (a + b)[j] == a[j];
      assert forall j :: 0 <= j < |b| ==> (a + b)[|a| + j] == b[j];
      if i >= 0 { assert i >= |a|; }
      if Newline(b) >= 0 { assert (a + b)[|a| + Newline(b)] == '\n'; }
    }
  }

  /** What follows a complete line does not change how it is taken. */
  lemma LineOfMore(parse: string -> Line, c: Client, b: string)
    requires Newline(c.buffer) >= 0
    ensures Newline(c.buffer + b) == Newline(c.buffer)
    ensures TakeLine(parse, c.(buffer := c.buffer + b)) == TakeLine(parse, c).(buffer := TakeLine(parse, c).buffer + b)
  {
    NewlineOfMore(c.buffer, b);
    var i := Newline(c.buffer);
    var rest, line := c.(buffer := c.buffer[i + 1..]), c.buffer[..i];
    assert (c.buffer + b)[..i] == line && (c.buffer + b)[i + 1..] == rest.buffer + b;
    HandleKeepsBuffer(parse, rest, line);
  }

  /** Draining can stop at any point of the stream and be taken up with what is left. */
  lemma {:induction false} DrainResumes(parse: string -> Line, c: Client, b: string)
    ensures Drain(parse, c.(buffer := c.buffer + b)) == Consume(parse, Drain(parse, c), b)
    decreases |c.buffer|
  {
    if Newline(c.buffer) >= 0 {
      LineOfMore(parse, c, b);
      DrainResumes(parse, TakeLine(parse, c), b);
    }
  }

  /** Two chunks in a row are one chunk: what the helper wrote matters, not how it arrived. */
  lemma ChunksJoin(parse: string -> Line, c: Client, a: string, b: string)
    ensures Consume(parse, Consume(parse, c, a), b) == Consume(parse, c, a + b)
  {
    var d := c.(buffer := c.buffer + a);
    DrainResumes(parse, d, b);
    assert d.buffer + b == c.buffer + (a + b);
  }

  function Concat(chunks: seq<string>): string {
    if chunks == [] then "" else Concat(chunks[..|chunks| - 1]) + chunks[|chunks| - 1]
  }

  function Chunks(chunks: seq<string>): (events: seq<Event>)
    ensures |events| == |chunks|
  {
    seq(|chunks|, i requires 0 <= i < |chunks| => Chunk(chunks[i]))
  }

  /** No complete line waits in the buffer between two events. */
  lemma {:induction false} NoLineWaits(parse: string -> Line, events: seq<Event>)
    ensures Newline(Run(parse, events).buffer) < 0
  {
    if events != [] {
      RunSplits(parse, events[..|events| - 1]);
      NoLineWaits(parse, events[..|events| - 1]);
      var c := Run(parse, events[..|events| - 1]);
      match events[|events| - 1]
      case Calls =>
      case Chunk(text) => DrainSplit(parse, c.(buffer := c.buffer + text));
      case TimesOut(id) =>
      case Exits => RejectKeepsBuffer(c);
    }
  }

  lemma {:induction false} RejectKeepsBuffer(c: Client)
    ensures RejectPending(c).buffer == c.buffer
    decreases |c.pending|
  {
    if c.pending != [] {
      WithoutShrinks(c.pending, c.pending[0]);
      RejectKeepsBuffer(Settle(c, c.pending[0], Gone));
    }
  }

  lemma RunMore(parse: string -> Line, events: seq<Event>, e: Event)
    ensures Run(parse, events + [e]) == Next(parse, Run(parse, events), e)
  {
    assert (events + [e])[..|events|] == events;
  }

  lemma NothingConsumed(parse: string -> Line, events: seq<Event>)
    ensures Consume(parse, Run(parse, events), "") == Run(parse, events)
  {
    NoLineWaits(parse, events);
    assert Run(parse, events).buffer + "" == Run(parse, events).buffer;
  }

  /** At any point of any run, however a piece of output is cut into chunks, the client ends as after all of it at once. */
  lemma {:induction false} AnyChunking(parse: string -> Line, events: seq<Event>, chunks: seq<string>)
    ensures Run(parse, events + Chunks(chunks)) == Consume(parse, Run(parse, events), Concat(chunks))
    decreases |chunks|
  {
    if chunks == [] {
      assert events + Chunks(chunks) == events;
      NothingConsumed(parse, events);
    } else {
      var before, last := chunks[..|chunks| - 1], chunks[|chunks| - 1];
      assert events + Chunks(chunks) == events + Chunks(before) + [Chunk(last)];
      RunMore(parse, events + Chunks(before), Chunk(last));
      AnyChunking(parse, events, before);
      ChunksJoin(parse, Run(parse, events), Concat(before), last);
    }
  }

  // -------------------------------------------------------------------- the object

  class Helper {
    const parse: string -> Line
    var pending: seq<int>
    var timers: set<int>
    var buffer: string
    var nextId: int
    var settled: seq<Settlement>

    ghost function Value(): Client
      reads this
    {
      Client(pending, timers, nextId, buffer, settled)
    }

    constructor (parse: string -> Line)
      ensures this.parse == parse && Value() == FRESH
    {
      this.parse := parse;
      pending, timers, nextId, buffer, settled := [], {}, 1, "", [];
    }

    method SettleOne(id: int, how: How)
      requires id in pending
      modifies `pending, `timers, `settled
      ensures Value() == Settle(old(Value()), id, how)
    {
      pending := Without(pending, id);
      timers := timers - {id};
      settled := settled + [Settlement(id, how)];
    }

    method Request() returns (id: int)
      modifies this
      ensures id == old(nextId) && Value() == Call(old(Value()))
    {
      id := nextId;
      nextId := nextId + 1;
      timers := timers + {id};
      pending := pending + [id];
    }

    method OnData(chunk: string)
      modifies this
      ensures Value() == Consume(parse, old(Value()), chunk)
    {
      buffer := buffer + chunk;
      while true
        invariant Drain(parse, Value()) == Consume(parse, old(Value()), chunk)
        decreases |buffer|
      {
        var newline := Newline(buffer);
        if newline < 0 { return; }
        ghost var before := Value();
        var line := buffer[..newline];
        buffer := buffer[newline + 1..];
        OnLine(line);
        assert Value() == TakeLine(parse, before);
      }
    }

    method OnLine(line: string)
      modifies `pending, `timers, `settled
      ensures Value() == Handle(parse, old(Value()), line)
    {
      var message := parse(line);
      if !message.Response? { return; }
      if message.id !in pending { return; }
      SettleOne(message.id, if message.error.Some? then Rejected(message.error.value) else Resolved(message.result));
    }

    method OnTimer(id: int)
      requires id in timers && id in pending
      modifies this
      ensures Value() == Timeout(old(Value()), id)
    {
      SettleOne(id, TimedOut);
    }

    method OnGone()
      modifies this
      ensures Value() == RejectPending(old(Value()))
    {
      while pending != []
        invariant RejectPending(Value()) == RejectPending(old(Value()))
        decreases |pending|
      {
        WithoutShrinks(pending, pending[0]);
        SettleOne(pending[0], Gone);
      }
    }
  }
}
