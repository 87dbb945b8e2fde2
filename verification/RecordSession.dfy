/**
 One channel's protected-record session over ideal authenticated encryption:
 the send gate, the post-application reserve, the assignment of positions, and
 the receiver's sequence comparison. The theorems are about whole runs: a sender
 driven by any requests over any environment, and a receiver fed by any attacker
 that cannot forge ciphertexts.
 */
module RecordSession {
  import opened Prelude
  import opened RecordSequence

  // ------------------------------------------------------------ inner records

  datatype InnerType = Rpc | Close | Error | CloseAck

  function TypeByte(t: InnerType): Byte {
    match t
    case Rpc => 1
    case Close => 2
    case Error => 3
    case CloseAck => 4
  }

  function EncodeInner(t: InnerType, body: seq<Byte>): seq<Byte> { [TypeByte(t)] + body }

  function DecodeInner(plaintext: seq<Byte>): Result<(InnerType, seq<Byte>), FatalReason> {
    if plaintext == [] then Err(MalformedRecord)
    else match plaintext[0]
      case 1 => Ok((Rpc, plaintext[1..]))
      case 2 => Ok((Close, plaintext[1..]))
      case 3 => Ok((Error, plaintext[1..]))
      case 4 => Ok((CloseAck, plaintext[1..]))
      case _ => Err(ReservedInnerType)
  }

  // --------------------------------------------- ideal authenticated encryption

  datatype Side = C2N | N2C

  datatype Key = Key(direction: Side, epoch: nat)
  datatype Header = Header(version: nat, suite: nat, at: Position)
  datatype Aad = Aad(header: Header, binding: nat, direction: Side)

  /** A ciphertext opens only under the key, nonce and associated data it was sealed with. */
  datatype Ciphertext = Sealed(key: Key, nonce: Position, aad: Aad, plaintext: seq<Byte>) | Junk(bytes: seq<Byte>)

  function Open(key: Key, nonce: Position, aad: Aad, c: Ciphertext): Option<seq<Byte>> {
    if c.Sealed? && c.key == key && c.nonce == nonce && c.aad == aad then Some(c.plaintext) else None
  }

  /** What the relay carries. */
  datatype Payload = Malformed | Envelope(header: Header, ciphertext: Ciphertext)

  const VERSION := 1

  // -------------------------------------------------------------------- session

  datatype SendPath = Usable | Closing | Spent | Unusable

  datatype Session = Session(l: Limits, side: Side, suite: nat, binding: nat, ceiling: nat,
                             send: Direction, recv: Direction, sendPath: SendPath,
                             receiveTerminated: bool, erased: bool)

  const CLOSE_RECORD_BYTES: nat := 64
  const ERROR_RECORD_MAX_BYTES: nat := 17
  /** Two close-machine records and one terminal error. */
  const RESERVE: seq<nat> := [CLOSE_RECORD_BYTES, CLOSE_RECORD_BYTES, ERROR_RECORD_MAX_BYTES]

  function Opposite(d: Side): Side { if d == C2N then N2C else C2N }

  function Seal(s: Session, d: Side, at: Position, plaintext: seq<Byte>): Payload {
    var header := Header(VERSION, s.suite, at);
    Envelope(header, Sealed(Key(d, at.epoch), at, Aad(header, s.binding, d), plaintext))
  }

  // ----------------------------------------------------------------------- send

  datatype Request = Request(innerType: InnerType, body: seq<Byte>)

  datatype Delivery = Sent | NoByte | Ambiguous

  /** How building the record goes: it is sealed, sealing fails, or something around it throws, before or after the advance. */
  datatype Local = Built | SealFails | Escapes(advanced: bool)

  /** What the surroundings decide during one send: admission, the local outcome, delivery, erasure while waiting. */
  datatype Surroundings = Surroundings(admitted: bool, erasedWaiting: bool, local: Local, delivery: Delivery,
                                       erasedSending: bool)

  datatype ProtectResult =
    | Protected(at: Position, plaintextBytes: nat, epochCompleted: bool)
    | TooLarge
    | Backpressure
    | Unavailable(reason: UnavailableReason)
    | CloseRequired
    | Exhausted
    | SendFailed(at: Position, delivery: Delivery, mayEmitError: bool)

  datatype UnavailableReason = SendPathUnusable | ApplicationPhaseClosed | TerminalRecordProtected | SessionErased

  function SendGate(path: SendPath, t: InnerType): Option<UnavailableReason> {
    match path
    case Unusable => Some(SendPathUnusable)
    case Spent => Some(TerminalRecordProtected)
    case Closing => if t.Rpc? then Some(ApplicationPhaseClosed) else None
    case Usable => None
  }

  function Latched(path: SendPath, t: InnerType): SendPath {
    match t
    case Error => Spent
    case Rpc => path
    case _ => if path.Usable? then Closing else path
  }

  /** An application record must leave the reserve behind it; any other record needs its own room only. */
  function Needed(request: Request): seq<nat> {
    [1 + |request.body|] + if request.innerType.Rpc? then RESERVE else []
  }

  /** One serialized send: the new state, the result, and the envelope handed to the relay. */
  function SendStep(s: Session, request: Request, e: Surroundings): (Session, ProtectResult, Option<Payload>) {
    var gate := SendGate(s.sendPath, request.innerType);
    if s.erased then (s, Unavailable(SessionErased), None)
    else if gate.Some? then (s, Unavailable(gate.value), None)
    else if |request.body| > s.ceiling then (s, TooLarge, None)
    else if !HasCapacity(s.l, s.send, Needed(request)) then
      (s, if request.innerType.Rpc? then CloseRequired else Exhausted, None)
    else if !e.admitted then (s.(erased := e.erasedWaiting), Backpressure, None)
    else if e.erasedWaiting then (s.(erased := true), Unavailable(SessionErased), None)
    else
      var at, plaintext := s.send.At(), EncodeInner(request.innerType, request.body);
      var advanced := s.(send := Step(s.l, s.send, |plaintext|));
      if e.local.SealFails? then (advanced.(sendPath := Unusable), SendFailed(at, NoByte, false), None)
      else if e.local.Escapes? then
        ((if e.local.advanced then advanced else s).(sendPath := Unusable), SendFailed(at, Ambiguous, false), None)
      else
        var latched := advanced.(sendPath := Latched(s.sendPath, request.innerType), erased := e.erasedSending);
        var wire := Some(Seal(s, s.side, at, plaintext));
        match e.delivery
        case Sent => (latched, Protected(at, |plaintext|, CompletesEpoch(s.l, s.send, |plaintext|)), wire)
        case NoByte => (latched.(sendPath := Unusable), SendFailed(at, NoByte, false), wire)
        case Ambiguous =>
          (latched, SendFailed(at, Ambiguous, !latched.erased && !latched.sendPath.Spent? && !latched.sendPath.Unusable?),
           wire)
  }

  // -------------------------------------------------------------------- receive

  datatype FatalReason =
    | MalformedEnvelope | VersionMismatch | SuiteMismatch | SequenceMismatch | AuthenticationFailed
    | ReservedInnerType | MalformedRecord | ReceiveTerminated

  datatype ReceiveResult =
    | Authenticated(innerType: InnerType, body: seq<Byte>, at: Position)
    | Fatal(reason: FatalReason)
    | Throws

  function ReceiveStep(s: Session, p: Payload): (Session, ReceiveResult) {
    var from := Opposite(s.side);
    if s.erased then (s, Throws)
    else if s.receiveTerminated then (s, Fatal(ReceiveTerminated))
    else
      var dead := s.(receiveTerminated := true);
      if p.Malformed? then (dead, Fatal(MalformedEnvelope))
      else if p.header.version != VERSION then (dead, Fatal(VersionMismatch))
      else if p.header.suite != s.suite then (dead, Fatal(SuiteMismatch))
      else if s.recv.exhausted || p.header.at != s.recv.At() then (dead, Fatal(SequenceMismatch))
      else
        var plain := Open(Key(from, p.header.at.epoch), p.header.at, Aad(p.header, s.binding, from), p.ciphertext);
        if plain.None? then (dead, Fatal(AuthenticationFailed))
        else match DecodeInner(plain.value)
          case Err(reason) => (dead, Fatal(reason))
          case Ok((t, body)) =>
            (s.(recv := Step(s.l, s.recv, |plain.value|)), Authenticated(t, body, p.header.at))
  }

  // ----------------------------------------------------------------------- runs

  datatype Send = Send(request: Request, surroundings: Surroundings)

  function SendRun(s: Session, sends: seq<Send>): (Session, seq<Payload>)
    decreases |sends|
  {
    if sends == [] then (s, [])
    else
      var (mid, wire) := SendRun(s, sends[..|sends| - 1]);
      var last := sends[|sends| - 1];
      var (end, _, out) := SendStep(mid, last.request, last.surroundings);
      (end, if out.Some? then wire + [out.value] else wire)
  }

  function ReceiveRun(s: Session, payloads: seq<Payload>): (r: (Session, seq<ReceiveResult>))
    ensures |r.1| == |payloads|
    decreases |payloads|
  {
    if payloads == [] then (s, [])
    else
      var (mid, results) := ReceiveRun(s, payloads[..|payloads| - 1]);
      var (end, last) := ReceiveStep(mid, payloads[|payloads| - 1]);
      (end, results + [last])
  }

  /** The plaintext lengths of a log of sealed envelopes. */
  function Sizes(log: seq<Payload>): (sizes: seq<nat>)
    ensures |sizes| == |log|
  {
    if log == [] then []
    else
      var last := log[|log| - 1];
      Sizes(log[..|log| - 1])
      + [if last.Envelope? && last.ciphertext.Sealed? then |last.ciphertext.plaintext| else 0]
  }

  lemma {:induction false} SizesOfPrefix(log: seq<Payload>, k: nat)
    requires k <= |log|
    ensures Sizes(log)[..k] == Sizes(log[..k])
    decreases |log|
  {
    if k < |log| {
      SizesOfPrefix(log[..|log| - 1], k);
      assert log[..|log| - 1][..k] == log[..k];
    } else {
      assert log[..k] == log;
    }
  }

  /** Where the schedule stands before the i-th record of the log. */
  function Before(s: Session, start: Direction, log: seq<Payload>, i: nat): Direction
    requires i <= |log|
  {
    After(s.l, start, Sizes(log[..i]))
  }

  /** The i-th record of the log is sealed at the i-th position of the schedule and holds a registered record. */
  predicate Link(s: Session, d: Side, start: Direction, log: seq<Payload>, i: nat)
    requires i < |log|
  {
    && log[i].Envelope? && log[i].ciphertext.Sealed?
    && !Before(s, start, log, i).exhausted
    && log[i] == Seal(s, d, Before(s, start, log, i).At(), log[i].ciphertext.plaintext)
    && DecodeInner(log[i].ciphertext.plaintext).Ok?
  }

  /** A log that a sender starting at `start` can have produced. */
  ghost predicate Chained(s: Session, d: Side, start: Direction, log: seq<Payload>) {
    forall i :: 0 <= i < |log| ==> Link(s, d, start, log, i)
  }

  predicate SameChannel(a: Session, b: Session) {
    a.l == b.l && a.side == b.side && a.suite == b.suite && a.binding == b.binding && a.ceiling == b.ceiling
  }

  // ------------------------------------------------------------ sender theorems

  lemma ChainExtended(s: Session, d: Side, start: Direction, log: seq<Payload>, plaintext: seq<Byte>)
    requires Chained(s, d, start, log) && !Before(s, start, log, |log|).exhausted && DecodeInner(plaintext).Ok?
    ensures var longer := log + [Seal(s, d, Before(s, start, log, |log|).At(), plaintext)];
            && Chained(s, d, start, longer)
            && Before(s, start, longer, |longer|) == Step(s.l, Before(s, start, log, |log|), |plaintext|)
  {
    var longer := log + [Seal(s, d, Before(s, start, log, |log|).At(), plaintext)];
    forall i | 0 <= i < |longer| ensures Link(s, d, start, longer, i) {
      assert longer[..i] == log[..i];
      assert i < |log| ==> Link(s, d, start, log, i);
    }
    assert longer[..|longer|] == longer && longer[..|log|] == log == log[..|log|];
    assert Sizes(longer) == Sizes(log) + [|plaintext|];
    assert Sizes(longer)[..|log|] == Sizes(log);
  }

  lemma SendStepShape(s: Session, request: Request, e: Surroundings)
    requires s.l.Valid()
    ensures var (end, result, out) := SendStep(s, request, e);
            var plaintext := EncodeInner(request.innerType, request.body);
            && SameChannel(s, end) && end.recv == s.recv && end.receiveTerminated == s.receiveTerminated
            && (out.Some? ==> s.sendPath != Unusable && !s.send.exhausted
                              && out.value == Seal(s, s.side, s.send.At(), plaintext)
                              && end.send == Step(s.l, s.send, |plaintext|))
            && (out.None? ==> end.sendPath == Unusable || end.send == s.send)
            && (s.sendPath == Unusable ==> end.sendPath == Unusable)
            && DecodeInner(plaintext) == Ok((request.innerType, request.body))
  {}

  /**
   Whatever is requested and however the surroundings behave, what reaches the
   relay is chained, and a send path still in use stands exactly behind it.
   */
  lemma {:induction false} SenderRunIsChained(s: Session, sends: seq<Send>)
    requires s.l.Valid() && s.send.Live(s.l)
    ensures var (end, log) := SendRun(s, sends);
            && SameChannel(s, end)
            && Chained(s, s.side, s.send, log)
            && (end.sendPath != Unusable ==> end.send == Before(s, s.send, log, |log|))
    decreases |sends|
  {
    if sends == [] {
      assert SendRun(s, sends).1[..0] == [];
    } else {
      SenderRunIsChained(s, sends[..|sends| - 1]);
      var (mid, wire) := SendRun(s, sends[..|sends| - 1]);
      var last := sends[|sends| - 1];
      SendStepShape(mid, last.request, last.surroundings);
      if SendStep(mid, last.request, last.surroundings).2.Some? {
        ChainExtended(s, s.side, s.send, wire, EncodeInner(last.request.innerType, last.request.body));
      }
    }
  }

  /** Positions on the wire strictly increase, so no position, and no nonce, is ever used twice. */
  lemma WirePositionsIncrease(s: Session, sends: seq<Send>, i: nat, j: nat)
    requires s.l.Valid() && s.send.Live(s.l) && i < j < |SendRun(s, sends).1|
    ensures var log := SendRun(s, sends).1;
            log[i].Envelope? && log[j].Envelope? && log[i].header.at.Before(log[j].header.at)
  {
    SenderRunIsChained(s, sends);
    ChainPositionsIncrease(s, s.side, s.send, SendRun(s, sends).1, i, j);
  }

  lemma ChainPositionsIncrease(s: Session, d: Side, start: Direction, log: seq<Payload>, i: nat, j: nat)
    requires s.l.Valid() && start.Live(s.l) && Chained(s, d, start, log) && i < j < |log|
    ensures log[i].Envelope? && log[j].Envelope? && log[i].header.at.Before(log[j].header.at)
  {
    assert Link(s, d, start, log, i) && Link(s, d, start, log, j);
    SizesOfPrefix(log, i);
    SizesOfPrefix(log, j);
    PositionsIncrease(s.l, start, Sizes(log), i, j);
  }

  // ---------------------------------------------------------- receiver theorems

  /** The receiver `r` listens to direction `d` on the channel the log was sealed for, and expects its first record. */
  predicate Listens(r: Session, s: Session, d: Side, start: Direction) {
    && r.l == s.l && r.suite == s.suite && r.binding == s.binding && Opposite(r.side) == d
    && r.recv == start && !r.erased && !r.receiveTerminated
  }

  /** No forgery: what opens under a key of the direction is an envelope its sender sealed. */
  ghost predicate Unforged(s: Session, d: Side, log: seq<Payload>, p: Payload) {
    p.Envelope? && Open(Key(d, p.header.at.epoch), p.header.at, Aad(p.header, s.binding, d), p.ciphertext).Some?
    ==> p in log
  }

  /** The length of the longest common prefix. */
  function Agreement(payloads: seq<Payload>, log: seq<Payload>): (k: nat)
    ensures k <= |payloads| && k <= |log| && payloads[..k] == log[..k]
    ensures k < |payloads| && k < |log| ==> payloads[k] != log[k]
  {
    if payloads == [] || log == [] || payloads[0] != log[0] then 0
    else
      var k := Agreement(payloads[1..], log[1..]);
      assert payloads[..1 + k] == [payloads[0]] + payloads[1..][..k];
      assert log[..1 + k] == [log[0]] + log[1..][..k];
      1 + k
  }

  /** What the receiver makes of the i-th record of the log when it is the one expected. */
  function Opened(log: seq<Payload>, i: nat): ReceiveResult
    requires i < |log|
  {
    if log[i].Envelope? && log[i].ciphertext.Sealed? && DecodeInner(log[i].ciphertext.plaintext).Ok? then
      var record := DecodeInner(log[i].ciphertext.plaintext).value;
      Authenticated(record.0, record.1, log[i].header.at)
    else Throws
  }

  /** The comparison precedes decryption: off the expected position the ciphertext is not looked at. */
  lemma MismatchBeforeDecryption(r: Session, header: Header, c: Ciphertext, c': Ciphertext)
    requires r.recv.exhausted || header.at != r.recv.At()
    ensures ReceiveStep(r, Envelope(header, c)) == ReceiveStep(r, Envelope(header, c'))
    ensures !ReceiveStep(r, Envelope(header, c)).1.Authenticated?
  {}

  lemma BeforeNext(s: Session, d: Side, start: Direction, log: seq<Payload>, k: nat)
    requires k < |log| && Link(s, d, start, log, k)
    ensures Before(s, start, log, k + 1) == Step(s.l, Before(s, start, log, k), |log[k].ciphertext.plaintext|)
  {
    assert log[..k + 1][..k] == log[..k] && log[..k + 1][k] == log[k];
    assert Sizes(log[..k + 1])[..k] == Sizes(log[..k]);
  }

  lemma ReceiveExpected(r: Session, s: Session, d: Side, start: Direction, log: seq<Payload>, k: nat)
    requires k < |log| && Link(s, d, start, log, k) && Listens(r, s, d, Before(s, start, log, k))
    ensures var (end, result) := ReceiveStep(r, log[k]);
            end == r.(recv := Before(s, start, log, k + 1)) && result == Opened(log, k)
  {
    BeforeNext(s, d, start, log, k);
  }

  /** Off the log's next record a receiver refuses, and a genuine record out of place is refused for its position. */
  lemma ReceiveUnexpected(r: Session, s: Session, d: Side, start: Direction, log: seq<Payload>, k: nat, p: Payload)
    requires s.l.Valid() && start.Live(s.l) && Chained(s, d, start, log) && k <= |log|
    requires Listens(r, s, d, Before(s, start, log, k))
    requires Unforged(s, d, log, p) && (k < |log| ==> p != log[k])
    ensures var (end, result) := ReceiveStep(r, p);
            end == r.(receiveTerminated := true) && result.Fatal?
            && (p in log ==> result == Fatal(SequenceMismatch))
  {
    if p in log {
      var i :| 0 <= i < |log| && p == log[i];
      assert Link(s, d, start, log, i);
      SizesOfPrefix(log, i);
      SizesOfPrefix(log, k);
      if !r.recv.exhausted {
        if k < |log| { assert Link(s, d, start, log, k); }
        if i < k {
          assert k < |log| || Sizes(log)[..k] == Sizes(log);
          PositionsIncrease(s.l, start, Sizes(log), i, k);
        } else {
          ChainPositionsIncrease(s, d, start, log, k, i);
        }
      }
    }
  }

  /**
   What the receiver makes of `payloads` when `log` is what was sent: it accepts
   exactly the longest in-order prefix, its expectation is then the sender's
   position for the next record, the first departure is fatal, and nothing after
   it is looked at.
   */
  ghost predicate ReceivesLongestPrefix(r: Session, s: Session, start: Direction, log: seq<Payload>, payloads: seq<Payload>) {
    var (end, results) := ReceiveRun(r, payloads);
    var k := Agreement(payloads, log);
    && end == r.(recv := Before(s, start, log, k), receiveTerminated := k < |payloads|)
    && (forall i :: 0 <= i < k ==> results[i] == Opened(log, i) && results[i].Authenticated?)
    && (k < |payloads| ==> results[k].Fatal? && (payloads[k] in log ==> results[k] == Fatal(SequenceMismatch)))
    && (forall i :: k < i < |payloads| ==> results[i] == Fatal(ReceiveTerminated))
  }

  /** Silent rekey against an attacker that drops, repeats, reorders and invents but cannot forge. */
  lemma {:induction false} DeliveryIsLongestPrefix(r: Session, s: Session, d: Side, start: Direction,
                                                   log: seq<Payload>, payloads: seq<Payload>)
    requires s.l.Valid() && start.Live(s.l) && Chained(s, d, start, log)
    requires Listens(r, s, d, start)
    requires forall p :: p in payloads ==> Unforged(s, d, log, p)
    ensures ReceivesLongestPrefix(r, s, start, log, payloads)
    decreases |payloads|
  {
    if payloads == [] {
      assert log[..0] == [];
    } else {
      var n := |payloads| - 1;
      var before, last := payloads[..n], payloads[n];
      DeliveryIsLongestPrefix(r, s, d, start, log, before);
      AgreementOfPrefix(payloads, log, n);
      var k := Agreement(before, log);
      if k == n {
        var mid := ReceiveRun(r, before).0;
        if k < |log| && last == log[k] {
          assert Link(s, d, start, log, k);
          ReceiveExpected(mid, s, d, start, log, k);
        } else {
          ReceiveUnexpected(mid, s, d, start, log, k, last);
        }
      }
    }
  }

  lemma AgreementOfPrefix(payloads: seq<Payload>, log: seq<Payload>, n: nat)
    requires |payloads| == n + 1
    ensures var k := Agreement(payloads[..n], log);
            Agreement(payloads, log) == if k == n && k < |log| && payloads[n] == log[k] then n + 1 else k
  {
    var k, m := Agreement(payloads[..n], log), Agreement(payloads, log);
    assert forall i :: 0 <= i < k ==> payloads[i] == payloads[..n][..k][i] == log[..k][i] == log[i];
    assert forall i :: 0 <= i < m ==> payloads[i] == payloads[..m][i] == log[..m][i] == log[i];
  }

  /**
   The two halves together: a sender driven by anything, an attacker who cannot
   forge, and a receiver started in step with the sender. If everything arrives
   in order, the receiver ends exactly where a usable sender stands.
   */
  lemma {:induction false} SilentRekey(s: Session, r: Session, sends: seq<Send>, payloads: seq<Payload>)
    requires s.l.Valid() && s.send.Live(s.l) && Listens(r, s, s.side, s.send)
    requires forall p :: p in payloads ==> Unforged(s, s.side, SendRun(s, sends).1, p)
    ensures ReceivesLongestPrefix(r, s, s.send, SendRun(s, sends).1, payloads)
    ensures var (sender, log) := SendRun(s, sends);
            payloads == log && sender.sendPath != Unusable ==> ReceiveRun(r, payloads).0.recv == sender.send
  {
    SenderRunIsChained(s, sends);
    var log := SendRun(s, sends).1;
    DeliveryIsLongestPrefix(r, s, s.side, s.send, log, payloads);
    assert log[..|log|] == log;
  }

  // ----------------------------------------------------------- reserve theorems

  /** A send path open to the application holds the whole post-application reserve. */
  predicate Reserved(s: Session) {
    && s.l.Valid()
    && (!s.send.exhausted ==> s.send.Live(s.l) && s.send.Coherent())
    && (s.sendPath.Usable? ==> HasCapacity(s.l, s.send, RESERVE))
  }

  lemma AdvanceKeepsReserve(l: Limits, d: Direction, request: Request)
    requires l.Valid() && d.Live(l) && d.Coherent() && HasCapacity(l, d, Needed(request))
    ensures var e := Step(l, d, 1 + |request.body|);
            && (!e.exhausted ==> e.Live(l) && e.Coherent())
            && (request.innerType.Rpc? ==> HasCapacity(l, e, RESERVE))
  {
    AdvanceKeeps(l, d, 1 + |request.body|);
    if request.innerType.Rpc? {
      CapacityAfterOne(l, d, Needed(request));
      assert Needed(request)[1..] == RESERVE;
    }
  }

  lemma ProtectKeepsReserve(s: Session, request: Request, e: Surroundings)
    requires Reserved(s)
    ensures Reserved(SendStep(s, request, e).0)
  {
    if HasCapacity(s.l, s.send, Needed(request)) {
      AdvanceKeepsReserve(s.l, s.send, request);
    }
  }

  lemma {:induction false} ReserveKept(s: Session, sends: seq<Send>)
    requires Reserved(s)
    ensures Reserved(SendRun(s, sends).0)
    decreases |sends|
  {
    if sends != [] {
      ReserveKept(s, sends[..|sends| - 1]);
      var last := sends[|sends| - 1];
      ProtectKeepsReserve(SendRun(s, sends[..|sends| - 1]).0, last.request, last.surroundings);
    }
  }

  /**
   An application record is turned away for the reserve exactly when, after it,
   the reserve could no longer be protected; and turning it away consumes nothing.
   */
  lemma CloseRequiredExactly(s: Session, body: seq<Byte>, e: Surroundings)
    requires Reserved(s) && s.sendPath.Usable? && !s.erased && |body| <= s.ceiling
    ensures var (end, result, out) := SendStep(s, Request(Rpc, body), e);
            && (result == CloseRequired <==> !Protectable(s.l, s.send, [1 + |body|] + RESERVE))
            && (result == CloseRequired ==> end == s && out.None?)
  {
    CoherentCapacityIsExact(s.l, s.send, [1 + |body|] + RESERVE);
  }

  /** The control records a closing endpoint may need: up to three, the last perhaps an error, each within its reserve. */
  predicate ControlRecords(s: Session, rs: seq<Request>) {
    && |rs| <= |RESERVE|
    && forall i :: 0 <= i < |rs| ==>
         && !rs[i].innerType.Rpc? && (rs[i].innerType.Error? ==> i == |rs| - 1)
         && 1 + |rs[i].body| <= RESERVE[i] && |rs[i].body| <= s.ceiling
  }

  /** The log holds exactly the requested records, in order. */
  predicate Carries(log: seq<Payload>, rs: seq<Request>) {
    && |log| == |rs|
    && forall i :: 0 <= i < |rs| ==>
         Opened(log, i).Authenticated? && Opened(log, i).innerType == rs[i].innerType && Opened(log, i).body == rs[i].body
  }

  lemma CarriesMore(log: seq<Payload>, rs: seq<Request>, p: Payload, r: Request)
    requires Carries(log, rs) && p.Envelope? && p.ciphertext.Sealed?
    requires DecodeInner(p.ciphertext.plaintext) == Ok((r.innerType, r.body))
    ensures Carries(log + [p], rs + [r])
  {
    assert forall i :: 0 <= i < |rs| ==> Opened(log + [p], i) == Opened(log, i);
  }

  function Willing(r: Request): Send { Send(r, Surroundings(true, false, Built, Sent, false)) }

  function AllWilling(rs: seq<Request>): (sends: seq<Send>)
    ensures |sends| == |rs|
  {
    if rs == [] then [] else AllWilling(rs[..|rs| - 1]) + [Willing(rs[|rs| - 1])]
  }

  function RequestSizes(rs: seq<Request>): (sizes: seq<nat>)
    ensures |sizes| == |rs| && forall i :: 0 <= i < |rs| ==> sizes[i] == 1 + |rs[i].body|
  {
    seq(|rs|, i requires 0 <= i < |rs| => 1 + |rs[i].body|)
  }

  /** Sent willingly, the control records all reach the wire, in order and at increasing positions. */
  ghost predicate ClosesInOrder(open: Session, rs: seq<Request>) {
    var log := SendRun(open, AllWilling(rs)).1;
    && Carries(log, rs)
    && forall i, j :: 0 <= i < j < |rs| ==>
         log[i].Envelope? && log[j].Envelope? && log[i].header.at.Before(log[j].header.at)
  }

  /**
   From any state traffic can reach with the application phase open, both
   close-machine records and the terminal error are protected, in order and at
   fresh positions: the reserve is never short and nothing wraps.
   */
  lemma ReserveCoversClose(s: Session, sends: seq<Send>, rs: seq<Request>)
    requires Reserved(s) && s.send.Live(s.l)
    requires var open := SendRun(s, sends).0; open.sendPath.Usable? && !open.erased && ControlRecords(open, rs)
    ensures ClosesInOrder(SendRun(s, sends).0, rs)
  {
    ReserveKept(s, sends);
    SenderRunIsChained(s, sends);
    OpenSessionCloses(SendRun(s, sends).0, rs);
  }

  lemma OpenSessionCloses(open: Session, rs: seq<Request>)
    requires Reserved(open) && open.sendPath.Usable? && !open.erased && ControlRecords(open, rs)
    ensures ClosesInOrder(open, rs)
  {
    CapacityMonotone(open.l, open.send.epoch, open.send.records, open.send.bytes, RESERVE,
                     open.send.epoch, open.send.records, open.send.bytes, RequestSizes(rs));
    CoherentCapacityIsExact(open.l, open.send, RequestSizes(rs));
    ControlRun(open, rs);
    forall i, j | 0 <= i < j < |rs| ensures var log := SendRun(open, AllWilling(rs)).1;
      log[i].Envelope? && log[j].Envelope? && log[i].header.at.Before(log[j].header.at)
    {
      WirePositionsIncrease(open, AllWilling(rs), i, j);
    }
  }

  lemma {:induction false} ProtectablePrefix(l: Limits, d: Direction, sizes: seq<nat>, size: nat)
    requires Protectable(l, d, sizes + [size])
    ensures Protectable(l, d, sizes) && !After(l, d, sizes).exhausted
    decreases |sizes|
  {
    if sizes == [] {
      assert sizes + [size] == [size];
    } else {
      assert (sizes + [size])[1..] == sizes[1..] + [size];
      ProtectablePrefix(l, Step(l, d, sizes[0]), sizes[1..], size);
      AfterFromFront(l, d, sizes);
    }
  }

  lemma {:induction false} AfterFromFront(l: Limits, d: Direction, sizes: seq<nat>)
    requires sizes != []
    ensures After(l, d, sizes) == After(l, Step(l, d, sizes[0]), sizes[1..])
    decreases |sizes|
  {
    if |sizes| > 1 {
      AfterFromFront(l, d, sizes[..|sizes| - 1]);
      assert sizes[..|sizes| - 1][1..] == sizes[1..][..|sizes| - 2];
    } else {
      assert After(l, d, sizes[..0]) == d;
    }
  }

  /** One willing control record on a live direction reaches the relay. */
  lemma ControlStep(s: Session, last: Request)
    requires s.l.Valid() && s.send.Live(s.l) && !s.erased && (s.sendPath.Usable? || s.sendPath.Closing?)
    requires !last.innerType.Rpc? && |last.body| <= s.ceiling
    ensures var (end, _, out) := SendStep(s, last, Willing(last).surroundings);
            var plaintext := EncodeInner(last.innerType, last.body);
            && out == Some(Seal(s, s.side, s.send.At(), plaintext)) && !end.erased
            && (if last.innerType.Error? then end.sendPath.Spent? else end.sendPath.Closing?)
            && end.send == Step(s.l, s.send, 1 + |last.body|)
            && DecodeInner(plaintext) == Ok((last.innerType, last.body))
  {
    assert Needed(last) == [1 + |last.body|];
    assert Capacity(s.l, s.send.epoch, s.send.records + 1, s.send.bytes + 1 + |last.body|, []);
  }

  lemma ControlPrefix(s: Session, rs: seq<Request>)
    requires Reserved(s) && s.send.Live(s.l) && rs != []
    requires ControlRecords(s, rs) && Protectable(s.l, s.send, RequestSizes(rs))
    ensures var before, last := rs[..|rs| - 1], rs[|rs| - 1];
            var d := After(s.l, s.send, RequestSizes(before));
            && ControlRecords(s, before) && Protectable(s.l, s.send, RequestSizes(before)) && d.Live(s.l)
            && After(s.l, s.send, RequestSizes(rs)) == Step(s.l, d, 1 + |last.body|)
            && (forall r :: r in before ==> !r.innerType.Error?)
  {
    var before, last := rs[..|rs| - 1], rs[|rs| - 1];
    assert RequestSizes(rs) == RequestSizes(before) + [1 + |last.body|];
    ProtectablePrefix(s.l, s.send, RequestSizes(before), 1 + |last.body|);
    AfterIsLive(s.l, s.send, RequestSizes(before));
  }

  /** Where a willing run of control records ends, and what it put on the wire. */
  predicate ControlEnd(s: Session, rs: seq<Request>) {
    var (end, log) := SendRun(s, AllWilling(rs));
    && Carries(log, rs) && !end.erased && SameChannel(s, end)
    && (if rs == [] then end.sendPath.Usable?
        else if rs[|rs| - 1].innerType.Error? then end.sendPath.Spent? else end.sendPath.Closing?)
    && end.send == After(s.l, s.send, RequestSizes(rs))
  }

  lemma ControlEndMore(s: Session, before: seq<Request>, last: Request)
    requires s.l.Valid() && ControlEnd(s, before) && (forall r :: r in before ==> !r.innerType.Error?)
    requires After(s.l, s.send, RequestSizes(before)).Live(s.l)
    requires After(s.l, s.send, RequestSizes(before + [last]))
             == Step(s.l, After(s.l, s.send, RequestSizes(before)), 1 + |last.body|)
    requires !last.innerType.Rpc? && |last.body| <= s.ceiling
    ensures ControlEnd(s, before + [last])
  {
    var rs := before + [last];
    var (mid, wire) := SendRun(s, AllWilling(before));
    assert rs[..|rs| - 1] == before && (before != [] ==> before[|before| - 1] in before);
    ControlStep(mid, last);
    WillingRun(s, rs);
    CarriesMore(wire, before, Seal(mid, mid.side, mid.send.At(), EncodeInner(last.innerType, last.body)), last);
  }

  lemma ControlEndNone(s: Session)
    requires Reserved(s) && s.send.Live(s.l) && s.sendPath.Usable? && !s.erased
    ensures ControlEnd(s, [])
  {
    assert AllWilling([]) == [] && RequestSizes([]) == [];
  }

  lemma {:induction false} ControlRun(s: Session, rs: seq<Request>)
    requires Reserved(s) && s.send.Live(s.l) && s.sendPath.Usable? && !s.erased
    requires ControlRecords(s, rs) && Protectable(s.l, s.send, RequestSizes(rs))
    ensures ControlEnd(s, rs)
    decreases |rs|
  {
    if rs == [] {
      ControlEndNone(s);
    } else {
      var before, last := rs[..|rs| - 1], rs[|rs| - 1];
      assert before + [last] == rs;
      assert !last.innerType.Rpc? && |last.body| <= s.ceiling by { assert rs[|rs| - 1] == last; }
      ControlPrefix(s, rs);
      ControlRun(s, before);
      ControlEndMore(s, before, last);
    }
  }

  lemma WillingRun(s: Session, rs: seq<Request>)
    requires rs != []
    ensures var last := rs[|rs| - 1];
            var (mid, wire) := SendRun(s, AllWilling(rs[..|rs| - 1]));
            var (end, _, out) := SendStep(mid, last, Willing(last).surroundings);
            SendRun(s, AllWilling(rs)) == (end, if out.Some? then wire + [out.value] else wire)
  {
    assert AllWilling(rs)[..|rs| - 1] == AllWilling(rs[..|rs| - 1]);
  }

  /** A fresh channel under the protocol's own constants starts with its reserve. */
  lemma FreshSessionIsReserved(s: Session)
    requires s.l == PROTOCOL_LIMITS && s.send == START
    ensures Reserved(s)
  {
    assert Capacity(s.l, 0, 3, 145, RESERVE[3..]) && Capacity(s.l, 0, 2, 128, RESERVE[2..])
           && Capacity(s.l, 0, 1, 64, RESERVE[1..]);
  }

  // ------------------------------------------------------- the object in place

  class E2eeRecordSession {
    const side: Side
    const suite: nat
    const binding: nat
    const ceiling: nat
    const send: DirectionalRecordState
    const recv: DirectionalRecordState
    var sendPath: SendPath
    var receiveTerminated: bool
    var erased: bool

    ghost predicate Valid()
      reads this
    {
      send != recv && send.l == recv.l
    }

    ghost function State(): Session
      reads this, send, recv
    {
      Session(send.l, side, suite, binding, ceiling, send.State(), recv.State(), sendPath, receiveTerminated, erased)
    }

    constructor (l: Limits, side: Side, suite: nat, binding: nat, ceiling: nat, sendStart: Direction, recvStart: Direction)
      requires sendStart.Live(l) && recvStart.Live(l)
      ensures Valid() && fresh(send) && fresh(recv)
      ensures State() == Session(l, side, suite, binding, ceiling, sendStart, recvStart, Usable, false, false)
    {
      this.side, this.suite, this.binding, this.ceiling := side, suite, binding, ceiling;
      send := new DirectionalRecordState(l, sendStart);
      recv := new DirectionalRecordState(l, recvStart);
      sendPath, receiveTerminated, erased := Usable, false, false;
    }

    method Protect(request: Request, e: Surroundings) returns (result: ProtectResult, wire: Option<Payload>)
      requires Valid()
      modifies this, send
      ensures Valid()
      ensures (State(), result, wire) == SendStep(old(State()), request, e)
      ensures wire.Some? ==>
                old(sendPath) == Usable || (old(sendPath) == Closing && request.innerType != Rpc)
    {
      wire := None;
      if erased { return Unavailable(SessionErased), None; }
      var gate := SendGate(sendPath, request.innerType);
      if gate.Some? { return Unavailable(gate.value), None; }
      if |request.body| > ceiling { return TooLarge, None; }
      var room := send.CapacityFor(Needed(request));
      if !room { return if request.innerType.Rpc? then CloseRequired else Exhausted, None; }
      erased := e.erasedWaiting;
      if !e.admitted { return Backpressure, None; }
      if erased { return Unavailable(SessionErased), None; }
      var at, plaintext := Position(send.epoch, send.counter), EncodeInner(request.innerType, request.body);
      var header := Header(VERSION, suite, at);
      if e.local == Escapes(false) {
        sendPath := Unusable;
        return SendFailed(at, Ambiguous, false), None;
      }
      var completed := send.Advance(|plaintext|);
      if e.local.Escapes? {
        sendPath := Unusable;
        return SendFailed(at, Ambiguous, false), None;
      }
      if e.local.SealFails? {
        sendPath := Unusable;
        return SendFailed(at, NoByte, false), None;
      }
      sendPath := Latched(sendPath, request.innerType);
      wire := Some(Envelope(header, Sealed(Key(side, at.epoch), at, Aad(header, binding, side), plaintext)));
      erased := e.erasedSending;
      match e.delivery
      case Sent =>
        result := Protected(at, |plaintext|, completed);
      case NoByte =>
        sendPath := Unusable;
        result := SendFailed(at, NoByte, false);
      case Ambiguous =>
        result := SendFailed(at, Ambiguous, !erased && !sendPath.Unusable? && !sendPath.Spent?);
    }

    method Unprotect(p: Payload) returns (result: ReceiveResult)
      requires Valid()
      modifies this, recv
      ensures Valid()
      ensures (State(), result) == ReceiveStep(old(State()), p)
    {
      if erased { return Throws; }
      if receiveTerminated { return Fatal(ReceiveTerminated); }
      receiveTerminated := true;
      if p.Malformed? { return Fatal(MalformedEnvelope); }
      if p.header.version != VERSION { return Fatal(VersionMismatch); }
      if p.header.suite != suite { return Fatal(SuiteMismatch); }
      var at := p.header.at;
      if recv.exhausted || at.epoch != recv.epoch || at.counter != recv.counter { return Fatal(SequenceMismatch); }
      var from := Opposite(side);
      var plain := Open(Key(from, at.epoch), at, Aad(p.header, binding, from), p.ciphertext);
      if plain.None? { return Fatal(AuthenticationFailed); }
      match DecodeInner(plain.value)
      case Err(reason) =>
        return Fatal(reason);
      case Ok((t, body)) =>
        receiveTerminated := false;
        var _ := recv.Advance(|plain.value|);
        return Authenticated(t, body, at);
    }
  }
}
