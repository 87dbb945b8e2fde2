/**
 The durable side of a policy change: the record, the anchor's marks, and the
 order reserve - write - mark, with a crash possible between any two of them.
 */
module PolicyStore {
  import opened Prelude
  import opened PolicyWithdrawal

  /** The durable record and the anchor's two marks. */
  datatype Store = Store(mode: Mode, generation: nat, highWater: nat, pending: nat)

  datatype Crash = NoCrash | AfterReservation | AfterWrite

  function Max(a: nat, b: nat): nat { if a < b then b else a }

  function NextGeneration(s: Store): nat { Max(s.generation, Max(s.highWater, s.pending)) + 1 }

  /** Reserve, write the record, raise the mark; a crash leaves what was durable by then. */
  function CommitRecord(s: Store, m: Mode, crash: Crash): Store {
    var g := NextGeneration(s);
    var reserved := s.(pending := Max(s.pending, g));
    if crash.AfterReservation? then reserved
    else
      var written := reserved.(mode := m, generation := g);
      if crash.AfterWrite? then written else written.(highWater := Max(s.highWater, g), pending := Max(reserved.pending, g))
  }

  /** A commit of the operator's choice: the cross-check first, no generation for a no-op once one was issued. */
  function Commit(s: Store, m: Mode, crash: Crash): Option<Store> {
    if s.generation < s.highWater then None
    else
      var checked := s.(highWater := s.generation, pending := Max(s.pending, s.generation));
      if m == checked.mode && checked.generation > 0 then Some(checked) else Some(CommitRecord(checked, m, crash))
  }

  /** The recovery command: no cross-check, and a rolled-back record is replaced by the fail-closed policy. */
  function Recover(s: Store, crash: Crash): Store {
    CommitRecord(s, if s.generation < s.highWater then FAIL_CLOSED else s.mode, crash)
  }

  datatype StoreStep = Commits(mode: Mode, crash: Crash) | Recovers(crash: Crash)

  function StoreNext(s: Store, step: StoreStep): Store {
    match step
    case Commits(m, crash) => var c := Commit(s, m, crash); if c.None? then s else c.value
    case Recovers(crash) => Recover(s, crash)
  }

  function StoreRun(s: Store, steps: seq<StoreStep>): Store
    decreases |steps|
  {
    if steps == [] then s else StoreNext(StoreRun(s, steps[..|steps| - 1]), steps[|steps| - 1])
  }

  /** The record is never behind its mark, and the reservation never behind the record. */
  predicate Anchored(s: Store) { s.highWater <= s.generation <= s.pending || s == Store(s.mode, 0, 0, 0) }

  lemma StoreStepAnchored(s: Store, step: StoreStep)
    requires Anchored(s)
    ensures Anchored(StoreNext(s, step))
  {
    var crash := step.crash;
    if crash.NoCrash? {
    } else if crash.AfterReservation? {
    } else {
    }
  }

  lemma {:induction false} StoreRunAnchored(m: Mode, steps: seq<StoreStep>)
    ensures Anchored(StoreRun(Store(m, 0, 0, 0), steps))
    decreases |steps|
  {
    if steps != [] {
      StoreRunAnchored(m, steps[..|steps| - 1]);
      StoreStepAnchored(StoreRun(Store(m, 0, 0, 0), steps[..|steps| - 1]), steps[|steps| - 1]);
    }
  }

  lemma CommitGrows(s: Store, to: Mode)
    requires Anchored(s)
    ensures Grows(s, to)
  {}

  /** The cross-check passes, and a change is written above every generation written, marked or reserved before. */
  predicate Grows(s: Store, to: Mode) {
    var c := Commit(s, to, NoCrash);
    && c.Some? && c.value.mode == to && c.value.highWater == c.value.generation
    && (if to == s.mode && s.generation > 0 then c.value.generation == s.generation
        else c.value.generation > s.generation && c.value.generation > s.highWater && c.value.generation > s.pending)
  }

  /** The next generation is one above the greatest of the record's, the mark's and the reservation's. */
  predicate JustAbove(g: nat, s: Store) {
    && s.generation < g && s.highWater < g && s.pending < g
    && (g == s.generation + 1 || g == s.highWater + 1 || g == s.pending + 1)
  }

  /**
   A change writes its mode and generation or leaves the record alone: the reservation
   is durable first, then the record, then the mark, and a crash leaves a prefix of that.
   */
  predicate WritesOrNot(s: Store, s': Store, m: Mode, crash: Crash) {
    && JustAbove(s'.pending, s)
    && (s'.mode, s'.generation) == (if crash == AfterReservation then (s.mode, s.generation) else (m, s'.pending))
    && s'.highWater == (if crash == NoCrash then s'.pending else s.highWater)
  }

  /** A commit is refused exactly behind the mark, spends nothing on a no-op after the first, and otherwise writes; the record is then never behind the mark. */
  lemma CommitExactly(s: Store, m: Mode, crash: Crash)
    requires Anchored(s) || s.generation < s.highWater
    ensures var c := Commit(s, m, crash);
            && (c.None? <==> s.generation < s.highWater)
            && StoreNext(s, Commits(m, crash)) == (if c.None? then s else c.value)
            && (c.Some? && m == s.mode && s.generation > 0 ==> c.value == s.(highWater := s.generation))
            && (c.Some? && !(m == s.mode && s.generation > 0) ==>
                  WritesOrNot(s.(highWater := s.generation), c.value, m, crash))
  {}

  /** Recovery keeps the mode of a record that is not behind its mark, takes the strictest for one that is, and writes above every mark. */
  lemma RecoverExactly(s: Store, crash: Crash)
    ensures WritesOrNot(s, StoreNext(s, Recovers(crash)), if s.generation < s.highWater then RequireApprovedNative else s.mode, crash)
  {}

  /**
   Whatever commits, recoveries and crashes have happened: the cross-check never
   mistakes a crash for a rollback, a policy change - widening or narrowing - takes
   a generation above every earlier one, and a no-op takes none.
   */
  lemma {:induction false} GenerationsOnlyGrow(m: Mode, steps: seq<StoreStep>, to: Mode)
    ensures Grows(StoreRun(Store(m, 0, 0, 0), steps), to)
  {
    StoreRunAnchored(m, steps);
    CommitGrows(StoreRun(Store(m, 0, 0, 0), steps), to);
  }

  /** A restored older record is caught, and recovery then takes the strictest policy above every mark. */
  lemma RollbackIsCaught(s: Store, older: Store, to: Mode)
    requires Anchored(s) && older.generation < s.highWater
    ensures var restored := s.(mode := older.mode, generation := older.generation);
            && Commit(restored, to, NoCrash).None?
            && (var r := Recover(restored, NoCrash);
                r.mode == FAIL_CLOSED && r.generation > s.generation && r.generation > s.pending && r.highWater == r.generation)
  {}
}
