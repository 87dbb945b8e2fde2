/**
 The directional (epoch, counter) sequence of the relay record layer: when an
 epoch completes, where the next record goes, when a direction is exhausted, and
 what the capacity simulation promises. The thresholds stay symbolic; every
 lemma holds for all limits that leave an epoch below the counter ceiling.
 */
module RecordSequence {
  import opened Prelude

  datatype Limits = Limits(rekeyRecords: nat, rekeyBytes: nat, epochMax: nat, counterMax: nat) {
    predicate Valid() {
      1 <= rekeyRecords <= counterMax + 1 && 1 <= rekeyBytes
    }

    /** An epoch is complete when either threshold is reached. */
    predicate Complete(records: nat, bytes: nat) {
      records >= rekeyRecords || bytes >= rekeyBytes
    }
  }

  const PROTOCOL_LIMITS := Limits(65_536, 268_435_456, 0xffff_ffff, 0xffff_ffff_ffff_ffff)

  datatype Position = Position(epoch: nat, counter: nat) {
    /** Lexicographic order. */
    predicate Before(other: Position) {
      epoch < other.epoch || (epoch == other.epoch && counter < other.counter)
    }
  }

  datatype Direction = Direction(epoch: nat, counter: nat, records: nat, bytes: nat, exhausted: bool) {
    function At(): Position { Position(epoch, counter) }

    /** The states a direction may be started in; a live direction never leaves them. */
    predicate Live(l: Limits) {
      !exhausted && epoch <= l.epochMax && counter <= l.counterMax && !l.Complete(records, bytes)
    }

    /** The counter is the number of records the epoch has seen, as it is after every run from the start. */
    predicate Coherent() { counter == records }
  }

  const START := Direction(0, 0, 0, 0, false)

  /** The state after a record of `size` plaintext bytes; an exhausted direction stays put. */
  function Step(l: Limits, d: Direction, size: nat): Direction {
    if d.exhausted then d
    else if !l.Complete(d.records + 1, d.bytes + size) then
      if d.counter >= l.counterMax
      then Direction(d.epoch, d.counter, d.records + 1, d.bytes + size, true)
      else Direction(d.epoch, d.counter + 1, d.records + 1, d.bytes + size, false)
    else if d.epoch >= l.epochMax
    then Direction(d.epoch, d.counter, d.records + 1, d.bytes + size, true)
    else Direction(d.epoch + 1, 0, 0, 0, false)
  }

  /** The flag that travels with a record: it is the last of its epoch. */
  predicate CompletesEpoch(l: Limits, d: Direction, size: nat) {
    l.Complete(d.records + 1, d.bytes + size)
  }

  /** The close machine's own copy of the rule, on positions alone. */
  function NextPosition(l: Limits, p: Position, completed: bool): Option<Position> {
    if completed then
      if p.epoch >= l.epochMax then None else Some(Position(p.epoch + 1, 0))
    else
      if p.counter >= l.counterMax then None else Some(Position(p.epoch, p.counter + 1))
  }

  /** The state after a run of records. */
  function After(l: Limits, d: Direction, sizes: seq<nat>): Direction {
    if sizes == [] then d
    else Step(l, After(l, d, sizes[..|sizes| - 1]), sizes[|sizes| - 1])
  }

  // ---------------------------------------------------------------- one record

  lemma AdvanceKeeps(l: Limits, d: Direction, size: nat)
    requires l.Valid() && d.Live(l)
    ensures var e := Step(l, d, size);
            && (!e.exhausted ==> e.Live(l) && d.At().Before(e.At()))
            && (d.Coherent() && !e.exhausted ==> e.Coherent())
            && (d.Coherent() && e.exhausted ==> CompletesEpoch(l, d, size) && d.epoch == l.epochMax)
  {}

  /** The session's advance and the close machine's next position are one rule. */
  lemma NextPositionIsAdvance(l: Limits, d: Direction, size: nat)
    requires d.Live(l)
    ensures var e := Step(l, d, size);
            NextPosition(l, d.At(), CompletesEpoch(l, d, size))
            == if e.exhausted then None else Some(e.At())
  {}

  // ---------------------------------------------------------------------- runs

  lemma {:induction false} AfterIsLive(l: Limits, d: Direction, sizes: seq<nat>)
    requires l.Valid() && d.Live(l)
    ensures var e := After(l, d, sizes);
            && (!e.exhausted ==> e.Live(l))
            && (d.Coherent() && !e.exhausted ==> e.Coherent())
  {
    if sizes != [] {
      var before := sizes[..|sizes| - 1];
      AfterIsLive(l, d, before);
      if !After(l, d, before).exhausted {
        AdvanceKeeps(l, After(l, d, before), sizes[|sizes| - 1]);
      }
    }
  }

  lemma {:induction false} ExhaustedStays(l: Limits, d: Direction, sizes: seq<nat>, i: nat, j: nat)
    requires i <= j <= |sizes| && After(l, d, sizes[..i]).exhausted
    ensures After(l, d, sizes[..j]).exhausted
    decreases j
  {
    if i < j {
      ExhaustedStays(l, d, sizes, i, j - 1);
      assert sizes[..j][..j - 1] == sizes[..j - 1];
    }
  }

  /** No position is used twice: a later record sits strictly after every earlier one. */
  lemma {:induction false} PositionsIncrease(l: Limits, d: Direction, sizes: seq<nat>, i: nat, j: nat)
    requires l.Valid() && d.Live(l) && i < j <= |sizes|
    requires !After(l, d, sizes[..j]).exhausted
    ensures After(l, d, sizes[..i]).At().Before(After(l, d, sizes[..j]).At())
    decreases j
  {
    assert sizes[..j][..j - 1] == sizes[..j - 1];
    var before := After(l, d, sizes[..j - 1]);
    AfterIsLive(l, d, sizes[..j - 1]);
    AdvanceKeeps(l, before, sizes[j - 1]);
    if i < j - 1 {
      PositionsIncrease(l, d, sizes, i, j - 1);
    }
  }

  /** Even an exhausted direction never stands before a position it has used. */
  lemma {:induction false} PositionsNeverDecrease(l: Limits, d: Direction, sizes: seq<nat>, i: nat, j: nat)
    requires l.Valid() && d.Live(l) && i <= j <= |sizes|
    ensures !After(l, d, sizes[..j]).At().Before(After(l, d, sizes[..i]).At())
    decreases j
  {
    if i < j {
      PositionsNeverDecrease(l, d, sizes, i, j - 1);
      AfterIsLive(l, d, sizes[..j - 1]);
      assert sizes[..j][..j - 1] == sizes[..j - 1];
    }
  }

  /**
   From the start, whatever is sent, the counter is the epoch's record count and
   stays under the record threshold: the counter ceiling is never what ends a
   direction, only the completion of the last epoch is.
   */
  lemma {:induction false} CounterCeilingUnreachable(l: Limits, sizes: seq<nat>)
    requires l.Valid()
    ensures var d := After(l, START, sizes);
            && (!d.exhausted ==> d.counter == d.records < l.rekeyRecords && d.counter <= l.counterMax)
            && (d.exhausted ==> d.epoch == l.epochMax && l.Complete(d.records, d.bytes))
  {
    if sizes != [] {
      var before := sizes[..|sizes| - 1];
      CounterCeilingUnreachable(l, before);
      AfterIsLive(l, START, before);
      if !After(l, START, before).exhausted {
        AdvanceKeeps(l, After(l, START, before), sizes[|sizes| - 1]);
      }
    }
  }

  function Sum(sizes: seq<nat>): nat { if sizes == [] then 0 else Sum(sizes[..|sizes| - 1]) + sizes[|sizes| - 1] }

  /** The epoch's books hold exactly the records sent since it began: how many, and their bytes; both under their thresholds. */
  predicate EpochHolds(l: Limits, sizes: seq<nat>, d: Direction) {
    && d.records <= |sizes| && d.bytes == Sum(sizes[|sizes| - d.records..])
    && d.records < l.rekeyRecords && d.bytes < l.rekeyBytes
  }

  lemma {:induction false} EpochIsItsRecords(l: Limits, sizes: seq<nat>)
    requires l.Valid()
    ensures var d := After(l, START, sizes); d.exhausted || EpochHolds(l, sizes, d)
  {
    if sizes != [] {
      var before, last := sizes[..|sizes| - 1], sizes[|sizes| - 1];
      EpochIsItsRecords(l, before);
      var d := After(l, START, before);
      if !d.exhausted {
        var since := sizes[|before| - d.records..];
        assert since[..|since| - 1] == before[|before| - d.records..] && since[|since| - 1] == last;
        assert sizes[|sizes|..] == [];
      }
    }
  }

  /**
   The record that ends an epoch is exactly the one with which the epoch has its number
   of records or its number of bytes; the next record is then the first of the next
   epoch, or there is none if that was the last. Any other record is followed by the
   next counter of its epoch.
   */
  lemma EpochTurnsExactly(l: Limits, d: Direction, size: nat)
    requires l.Valid() && d.Live(l) && d.Coherent()
    ensures var e := Step(l, d, size);
            var ends := d.records + 1 == l.rekeyRecords || d.bytes + size >= l.rekeyBytes;
            && (CompletesEpoch(l, d, size) <==> ends)
            && (e.exhausted <==> ends && d.epoch == l.epochMax)
            && (!e.exhausted ==>
                  e == if ends then Direction(d.epoch + 1, 0, 0, 0, false)
                       else Direction(d.epoch, d.counter + 1, d.records + 1, d.bytes + size, false))
  {}

  // ------------------------------------------------------------------ capacity

  /** The capacity simulation: roll a completed epoch over lazily, before the next record. */
  predicate Capacity(l: Limits, epoch: nat, records: nat, bytes: nat, sizes: seq<nat>)
    decreases |sizes|
  {
    sizes == []
    || (if l.Complete(records, bytes)
        then epoch < l.epochMax && Capacity(l, epoch + 1, 1, sizes[0], sizes[1..])
        else Capacity(l, epoch, records + 1, bytes + sizes[0], sizes[1..]))
  }

  predicate HasCapacity(l: Limits, d: Direction, sizes: seq<nat>) {
    !d.exhausted && Capacity(l, d.epoch, d.records, d.bytes, sizes)
  }

  /** What capacity is meant to say: every record of the run finds a live direction. */
  predicate Protectable(l: Limits, d: Direction, sizes: seq<nat>)
    decreases |sizes|
  {
    sizes == [] || (!d.exhausted && Protectable(l, Step(l, d, sizes[0]), sizes[1..]))
  }

  /** How many records of the run are carried by the current epoch. */
  function EpochRun(l: Limits, records: nat, bytes: nat, sizes: seq<nat>): (n: nat)
    ensures n <= |sizes|
    decreases |sizes|
  {
    if sizes == [] then 0
    else if l.Complete(records + 1, bytes + sizes[0]) then 1
    else 1 + EpochRun(l, records + 1, bytes + sizes[0], sizes[1..])
  }

  /**
   The simulation looks at the two rekey thresholds and not at the counter. It is
   exact if and only if the records the current epoch still carries fit under the
   counter ceiling.
   */
  lemma {:induction false} CapacityIsExact(l: Limits, d: Direction, sizes: seq<nat>)
    requires l.Valid() && d.Live(l)
    ensures Protectable(l, d, sizes)
            <==> HasCapacity(l, d, sizes)
                 && d.counter + EpochRun(l, d.records, d.bytes, sizes) <= l.counterMax + 1
    decreases |sizes|
  {
    if sizes != [] {
      var e, rest := Step(l, d, sizes[0]), sizes[1..];
      assert HasCapacity(l, d, sizes) == Capacity(l, d.epoch, d.records + 1, d.bytes + sizes[0], rest);
      if !e.exhausted {
        AdvanceKeeps(l, d, sizes[0]);
        CapacityIsExact(l, e, rest);
        if CompletesEpoch(l, d, sizes[0]) {
          EpochRunFits(l, 0, 0, rest);
          assert rest != [] ==> Capacity(l, e.epoch, 0, 0, rest) == Capacity(l, e.epoch, 1, 0 + rest[0], rest[1..]);
        }
      }
    }
  }

  lemma {:induction false} EpochRunFits(l: Limits, records: nat, bytes: nat, sizes: seq<nat>)
    requires l.Valid() && records < l.rekeyRecords
    ensures records + EpochRun(l, records, bytes, sizes) <= l.rekeyRecords
    decreases |sizes|
  {
    if sizes != [] && !l.Complete(records + 1, bytes + sizes[0]) {
      EpochRunFits(l, records + 1, bytes + sizes[0], sizes[1..]);
    }
  }

  /** In every coherent state - every state real traffic reaches - the simulation is exact. */
  lemma CoherentCapacityIsExact(l: Limits, d: Direction, sizes: seq<nat>)
    requires l.Valid() && d.Live(l) && d.Coherent()
    ensures Protectable(l, d, sizes) <==> HasCapacity(l, d, sizes)
  {
    CapacityIsExact(l, d, sizes);
    EpochRunFits(l, d.records, d.bytes, sizes);
  }

  /** A live epoch one position short of the ceiling: the simulation grants a second record that cannot exist. */
  lemma CapacityOverstatesAtTheCounterCeiling()
    ensures var d := Direction(0, PROTOCOL_LIMITS.counterMax, 0, 0, false);
            && d.Live(PROTOCOL_LIMITS)
            && HasCapacity(PROTOCOL_LIMITS, d, [1, 1])
            && !Protectable(PROTOCOL_LIMITS, d, [1, 1])
  {
    var l, d := PROTOCOL_LIMITS, Direction(0, PROTOCOL_LIMITS.counterMax, 0, 0, false);
    assert Capacity(l, 0, 1, 1, [1, 1][1..]) && Capacity(l, 0, 2, 2, []);
    assert Step(l, d, 1).exhausted && [1, 1][1..] != [];
  }

  /**
   A run that fits from one point of the schedule fits from any earlier point, and
   so does any prefix of it made of records no larger.
   */
  lemma {:induction false} CapacityMonotone(l: Limits, epoch: nat, records: nat, bytes: nat, big: seq<nat>,
                                            epoch': nat, records': nat, bytes': nat, small: seq<nat>)
    requires epoch <= l.epochMax && Capacity(l, epoch, records, bytes, big)
    requires epoch' < epoch || (epoch' == epoch && records' <= records && bytes' <= bytes)
    requires |small| <= |big| && forall i :: 0 <= i < |small| ==> small[i] <= big[i]
    ensures Capacity(l, epoch', records', bytes', small)
    decreases |big|
  {
    if small != [] {
      var (e, r, b) := if l.Complete(records, bytes) then (epoch + 1, 1, big[0]) else (epoch, records + 1, bytes + big[0]);
      var (e', r', b') := if l.Complete(records', bytes') then (epoch' + 1, 1, small[0])
                          else (epoch', records' + 1, bytes' + small[0]);
      CapacityMonotone(l, e, r, b, big[1..], e', r', b', small[1..]);
    }
  }

  /** Spending a record of the run leaves capacity for the rest of it. */
  lemma CapacityAfterOne(l: Limits, d: Direction, sizes: seq<nat>)
    requires l.Valid() && d.Live(l) && |sizes| >= 2 && HasCapacity(l, d, sizes)
    requires d.Coherent()
    ensures HasCapacity(l, Step(l, d, sizes[0]), sizes[1..])
  {
    CoherentCapacityIsExact(l, d, sizes);
    AdvanceKeeps(l, d, sizes[0]);
    CoherentCapacityIsExact(l, Step(l, d, sizes[0]), sizes[1..]);
  }

  /** One direction of a session, updated in place as records are protected or authenticated. */
  class DirectionalRecordState {
    const l: Limits
    var epoch: nat
    var counter: nat
    var epochRecords: nat
    var epochBytes: nat
    var exhausted: bool

    ghost function State(): Direction
      reads this
    {
      Direction(epoch, counter, epochRecords, epochBytes, exhausted)
    }

    constructor (l: Limits, start: Direction)
      requires start.Live(l)
      ensures this.l == l && State() == start
    {
      this.l := l;
      epoch, counter := start.epoch, start.counter;
      epochRecords, epochBytes := start.records, start.bytes;
      exhausted := false;
    }

    /** The forward simulation decides capacity without touching the schedule. */
    method CapacityFor(sizes: seq<nat>) returns (ok: bool)
      ensures ok == HasCapacity(l, State(), sizes)
    {
      if exhausted { return false; }
      var e: nat, records: nat, bytes: nat := epoch, epochRecords, epochBytes;
      for i := 0 to |sizes|
        invariant Capacity(l, epoch, epochRecords, epochBytes, sizes) == Capacity(l, e, records, bytes, sizes[i..])
      {
        assert sizes[i..][1..] == sizes[i + 1..];
        if l.Complete(records, bytes) {
          if e >= l.epochMax { return false; }
          e, records, bytes := e + 1, 0, 0;
        }
        records, bytes := records + 1, bytes + sizes[i];
      }
      return true;
    }

    method Advance(size: nat) returns (epochCompleted: bool)
      requires !exhausted
      modifies this
      ensures State() == Step(l, old(State()), size)
      ensures epochCompleted == CompletesEpoch(l, old(State()), size)
    {
      epochRecords, epochBytes := epochRecords + 1, epochBytes + size;
      if !l.Complete(epochRecords, epochBytes) {
        if counter >= l.counterMax {
          exhausted := true;
          return false;
        }
        counter := counter + 1;
        return false;
      }
      if epoch >= l.epochMax {
        exhausted := true;
        return true;
      }
      epoch, counter, epochRecords, epochBytes := epoch + 1, 0, 0, 0;
      return true;
    }
  }
}
