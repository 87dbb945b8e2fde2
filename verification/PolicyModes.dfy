/**
 What the four modes admit, by channel rather than by policy flag, and what a sweep
 therefore does: the modes are a strict chain, a sweep left to itself is acknowledged,
 after it none of the channels its mode is about is open, and its counts are the
 channels it ended, class by class.
 */
module PolicyModes {
  import opened Prelude
  import opened PolicyWithdrawal

  /** How strict a mode is. */
  function Level(m: Mode): nat {
    match m
    case Compatibility => 0
    case RequireE2EE => 1
    case RequireNative => 2
    case RequireApprovedNative => 3
  }

  /** The first mode, by strictness, that no longer admits the channel; a channel admitted by all of them has none. */
  function RefusedFrom(c: Channel): Option<nat> {
    match c.phase
    case Negotiating => None
    case Legacy => Some(1)
    case _ => if c.pattern == Some(NX) then Some(2) else if c.suite == Some(AccountGrant) then Some(3) else None
  }

  /**
   A legacy channel is admitted under compatibility alone, one with the browser
   pattern under compatibility and required encryption, one on an account grant under
   anything but local approval, and every other channel always.
   */
  lemma AdmittedExactly(c: Channel, m: Mode)
    ensures Conforms(c, m) <==> RefusedFrom(c).None? || Level(m) < RefusedFrom(c).value
  {
    assert Effective(m).AdmitsPattern(IK) && Effective(m).AdmitsSuite(Plain);
  }

  /** The modes are a strict chain: the stricter of two admits less, and some settled channel shows it. */
  lemma ModesAreAChain(m: Mode, m': Mode)
    requires Level(m) < Level(m')
    ensures forall c :: Conforms(c, m') ==> Conforms(c, m)
    ensures exists c :: Settled(c) && Conforms(c, m) && !Conforms(c, m')
  {
    forall c | Conforms(c, m') ensures Conforms(c, m) {
      AdmittedExactly(c, m);
      AdmittedExactly(c, m');
    }
    var c := if m' == RequireE2EE then Channel(Legacy, None, None)
             else if m' == RequireNative then Channel(E2ee, Some(NX), Some(Plain))
             else Channel(E2ee, Some(IK), Some(AccountGrant));
    AdmittedExactly(c, m);
    AdmittedExactly(c, m');
    assert Settled(c) && Conforms(c, m) && !Conforms(c, m');
  }

  /** A change narrows exactly when it goes up the chain, and it readmits a handshake only when it comes down to one of the first three. */
  lemma NarrowsMeansStricter(m: Mode, m': Mode)
    ensures Narrows(Effective(m), Effective(m')) <==> Level(m) < Level(m')
    ensures Readmits(m, m') <==> Level(m) < Level(m') && Level(m') >= 2
  {
    NarrowsMeansWithdraws(m, m');
    if Level(m) < Level(m') {
      ModesAreAChain(m, m');
    } else if Level(m') < Level(m) {
      ModesAreAChain(m', m);
    }
  }

  /** The policy taken when the record cannot be trusted admits nothing that any mode refuses. */
  lemma FailClosedIsStrictest(c: Channel, m: Mode)
    ensures Conforms(c, FAIL_CLOSED) ==> Conforms(c, m)
  {
    AdmittedExactly(c, m);
    AdmittedExactly(c, FAIL_CLOSED);
  }

  // ---------------------------------------------------------------- one transition

  /** A channel becomes legacy exactly by locking while it negotiates under compatibility, and otherwise stays as it is. */
  lemma LocksExactly(s: State, id: nat)
    ensures var s' := Next(s, LockLegacy(id));
            if id in s.open && s.open[id].phase.Negotiating? && s.policy == Compatibility
            then s' == s.(open := s.open[id := s.open[id].(phase := Legacy)])
            else s' == s
  {}

  /**
   A handshake in flight becomes an encrypted channel exactly when the policy of that
   moment admits the channel it becomes; a refused one leaves the list.
   */
  lemma EstablishesExactly(s: State, id: nat)
    ensures var s' := Next(s, Establish(id));
            if id !in s.open || !s.open[id].phase.InFlight? then s' == s
            else if (s.open[id].pattern == Some(NX) ==> Level(s.policy) <= 1)
                    && (s.open[id].suite == Some(AccountGrant) ==> Level(s.policy) <= 2)
            then s' == s.(open := s.open[id := s.open[id].(phase := E2ee)])
            else s' == s.(open := s.open - {id})
  {
    if id in s.open && s.open[id].phase.InFlight? {
      var c := s.open[id].(phase := E2ee);
      AdmittedExactly(c, s.policy);
    }
  }

  /** A sweep calls out for exactly the entries still registered that its mode refuses, and passes over the rest. */
  lemma CallsExactly(s: State, k: nat)
    requires k < |s.sweeps| && !s.sweeps[k].calling && s.sweeps[k].at < |s.sweeps[k].entries|
    ensures var w, s' := s.sweeps[k], Next(s, SweepCall(k));
            var e := w.entries[w.at];
            var refused := RefusedFrom(e.channel).Some? && RefusedFrom(e.channel).value <= Level(w.policy);
            s' == s.(sweeps := s.sweeps[k := if e.id in s.open && refused then w.(calling := true) else w.(at := w.at + 1)])
  {
    AdmittedExactly(s.sweeps[k].entries[s.sweeps[k].at].channel, s.sweeps[k].policy);
  }

  /** A call that succeeds takes its channel off the list and into the books; one that fails leaves it and counts as a failure. Either way the sweep goes on. */
  lemma ReturnsExactly(s: State, k: nat, ok: bool)
    requires Inv(s) && k < |s.sweeps| && s.sweeps[k].calling
    ensures s.sweeps[k].at < |s.sweeps[k].entries|
    ensures var w, s' := s.sweeps[k], Next(s, SweepReturn(k, ok));
            var id := w.entries[w.at].id;
            && |s'.sweeps| == |s.sweeps| && !s'.sweeps[k].calling && s'.sweeps[k].at == w.at + 1
            && s'.open == (if ok then s.open - {id} else s.open)
            && s'.sweeps[k].closed == (if ok then w.closed + [id] else w.closed)
            && s'.sweeps[k].failures == (if ok then w.failures else w.failures + 1)
            && s'.sweeps[k].counts.Sum() == w.counts.Sum() + (if ok then 1 else 0)
  {
    assert SweepOk(s, s.sweeps[k]);
  }

  /** A channel registers as negotiating under an id no channel ever had, and a release takes it off the list. */
  lemma RegistersAndReleases(s: State, id: nat)
    ensures var r := Next(s, Register);
            r == s.(open := s.open[s.next := Channel(Negotiating, None, None)], next := s.next + 1)
    ensures var r := Next(s, Release(id));
            r == s.(open := r.open) && id !in r.open
            && forall j :: j in s.open && j != id ==> j in r.open && r.open[j] == s.open[j]
  {}

  // ------------------------------------------------------------------- the classes
  // ------------------------------------------------------------------- the classes

  /** Which class a channel is counted under when a sweep of the mode ends it. */
  predicate IsOf(c: Channel, m: Mode, k: Class) {
    match k
    case LegacyClass => c.phase == Legacy
    case Handshake => c.phase == InFlight
    case NxE2ee => c.phase == E2ee && c.pattern == Some(NX) && Level(m) >= 2
    case SuiteWithdrawn => c.phase == E2ee && !(c.pattern == Some(NX) && Level(m) >= 2)
  }

  lemma SweptAsItsClass(c: Channel, m: Mode)
    ensures var d := DispositionOf(c, Effective(m));
            d.Some? ==> forall k :: IsOf(c, m, k) <==> d == Some(k)
  {
    AdmittedExactly(c, m);
  }

  /** How many of the first n entries were ended as of the class. */
  function EndedOf(entries: seq<Entry>, n: nat, closed: seq<nat>, m: Mode, k: Class): nat
    requires n <= |entries|
  {
    if n == 0 then 0
    else EndedOf(entries, n - 1, closed, m, k)
         + if entries[n - 1].id in closed && IsOf(entries[n - 1].channel, m, k) then 1 else 0
  }

  function CountOf(counts: Counts, k: Class): nat {
    match k
    case LegacyClass => counts.legacy
    case NxE2ee => counts.nxE2ee
    case SuiteWithdrawn => counts.suiteWithdrawn
    case Handshake => counts.abortedHandshakes
  }

  ghost predicate CountedByClass(w: Sweep) {
    w.at <= |w.entries| && forall k :: CountOf(w.counts, k) == EndedOf(w.entries, w.at, w.closed, w.policy, k)
  }

  lemma {:induction false} EndedOfSame(entries: seq<Entry>, n: nat, closed: seq<nat>, closed': seq<nat>, m: Mode, k: Class)
    requires n <= |entries|
    requires forall i :: 0 <= i < n ==> (entries[i].id in closed <==> entries[i].id in closed')
    ensures EndedOf(entries, n, closed, m, k) == EndedOf(entries, n, closed', m, k)
  {
    if n > 0 { EndedOfSame(entries, n - 1, closed, closed', m, k); }
  }

  /** What is closed is behind the entry the sweep is at. */
  lemma ClosedIsBehind(s: State, w: Sweep, id: nat)
    requires Books(s, w) && id in w.closed && w.at < |w.entries|
    ensures id < w.entries[w.at].id
  {
    assert WithdrawnAmong(w.entries, w.at, id, w.policy);
    var i :| 0 <= i < w.at && w.entries[i].id == id && !Conforms(w.entries[i].channel, w.policy);
  }

  lemma PassedCounts(s: State, w: Sweep, failures: nat)
    requires Books(s, w) && CountedByClass(w) && w.at < |w.entries|
    ensures CountedByClass(w.(at := w.at + 1, calling := false, failures := failures))
    ensures CountedByClass(w.(at := w.at + 1))
  {
    if w.entries[w.at].id in w.closed { ClosedIsBehind(s, w, w.entries[w.at].id); }
    assert forall k :: EndedOf(w.entries, w.at + 1, w.closed, w.policy, k) == EndedOf(w.entries, w.at, w.closed, w.policy, k);
  }

  lemma EndedCounts(s: State, w: Sweep, k: Class)
    requires Books(s, w) && CountedByClass(w) && w.at < |w.entries|
    requires DispositionOf(w.entries[w.at].channel, Effective(w.policy)) == Some(k)
    ensures CountedByClass(w.(at := w.at + 1, calling := false, closed := w.closed + [w.entries[w.at].id],
                              counts := w.counts.Tally(k)))
  {
    var entry, closed' := w.entries[w.at], w.closed + [w.entries[w.at].id];
    SweptAsItsClass(entry.channel, w.policy);
    if entry.id in w.closed { ClosedIsBehind(s, w, entry.id); }
    forall j: Class
      ensures CountOf(w.counts.Tally(k), j) == EndedOf(w.entries, w.at + 1, closed', w.policy, j)
    {
      assert entry.id in closed' && CountOf(w.counts.Tally(k), j) == CountOf(w.counts, j) + if j == k then 1 else 0;
      EndedOfSame(w.entries, w.at, w.closed, closed', w.policy, j);
    }
  }

  lemma CallCounts(s: State, k: nat)
    requires k < |s.sweeps| && Books(s, s.sweeps[k]) && CountedByClass(s.sweeps[k])
    requires !s.sweeps[k].calling && s.sweeps[k].at < |s.sweeps[k].entries|
    ensures CountedByClass(Called(s, k).sweeps[k])
  {
    PassedCounts(s, s.sweeps[k], s.sweeps[k].failures);
  }

  lemma ReturnCounts(s: State, k: nat, ok: bool)
    requires k < |s.sweeps| && Books(s, s.sweeps[k]) && CountedByClass(s.sweeps[k])
    requires s.sweeps[k].calling && s.sweeps[k].at < |s.sweeps[k].entries|
    ensures CountedByClass(Returned(s, k, ok).sweeps[k])
  {
    var w := s.sweeps[k];
    PassedCounts(s, w, w.failures + 1);
    var reason := DispositionOf(w.entries[w.at].channel, Effective(w.policy));
    if reason.Some? { EndedCounts(s, w, reason.value); }
  }

  /** Every step leaves the sweep alone but for its own. */
  lemma OtherCounts(s: State, step: Step, k: nat)
    requires k < |s.sweeps| && CountedByClass(s.sweeps[k])
    requires step != SweepCall(k) && !(step.SweepReturn? && step.k == k)
    ensures k < |Next(s, step).sweeps| && CountedByClass(Next(s, step).sweeps[k])
  {
    var w, w' := s.sweeps[k], Next(s, step).sweeps[k];
    assert w' == w.(later := w'.later);
    assert forall j :: EndedOf(w'.entries, w'.at, w'.closed, w'.policy, j) == EndedOf(w.entries, w.at, w.closed, w.policy, j);
  }

  lemma NextCounts(s: State, step: Step, k: nat)
    requires Inv(s) && k < |Next(s, step).sweeps|
    requires k < |s.sweeps| ==> CountedByClass(s.sweeps[k])
    ensures CountedByClass(Next(s, step).sweeps[k])
  {
    if k < |s.sweeps| {
      assert SweepOk(s, s.sweeps[k]);
      if step == SweepCall(k) {
        if Next(s, step) != s { CallCounts(s, k); }
      } else if step.SweepReturn? && step.k == k {
        if Next(s, step) != s { ReturnCounts(s, k, step.ok); }
      } else {
        OtherCounts(s, step, k);
      }
    }
  }

  /** In every run the counts of a sweep are, class by class, the channels of its snapshot that it ended. */
  lemma {:induction false} ClassCountsAreClosures(m: Mode, steps: seq<Step>, k: nat)
    requires k < |Run(Init(m), steps).sweeps|
    ensures CountedByClass(Run(Init(m), steps).sweeps[k])
    decreases |steps|
  {
    if steps != [] {
      var before, last := steps[..|steps| - 1], steps[|steps| - 1];
      RunKeepsInv(Init(m), before);
      if k < |Run(Init(m), before).sweeps| { ClassCountsAreClosures(m, before, k); }
      NextCounts(Run(Init(m), before), last, k);
    }
  }

  // ------------------------------------------------------ what an acknowledgement is worth

  /** The modes published since the sweep's are no less strict. */
  predicate NothingWiderSince(w: Sweep) { forall q :: q in w.later ==> Level(w.policy) <= Level(q) }

  /** No open channel is one of those the level rules out. */
  ghost predicate NoneOpenBelow(s: State, level: nat) {
    forall id :: id in s.open ==>
      && (s.open[id].phase == Legacy ==> level < 1)
      && (s.open[id].phase == E2ee && s.open[id].pattern == Some(NX) ==> level < 2)
      && (s.open[id].phase == E2ee && s.open[id].suite == Some(AccountGrant) ==> level < 3)
  }

  /**
   After an acknowledged sweep of a mode, with nothing wider published since, no
   legacy channel is open if it requires encryption, no browser channel if it requires
   native clients, no account-grant channel if it requires local approval.
   */
  lemma AcknowledgedModeHolds(m: Mode, steps: seq<Step>, k: nat)
    requires k < |Run(Init(m), steps).sweeps|
    requires var w := Run(Init(m), steps).sweeps[k]; w.Acknowledged() && NothingWiderSince(w)
    ensures var s := Run(Init(m), steps); NoneOpenBelow(s, Level(s.sweeps[k].policy))
  {
    var s := Run(Init(m), steps);
    var w := s.sweeps[k];
    forall q | q in w.later ensures !Narrows(Effective(q), Effective(w.policy)) { NarrowsMeansStricter(q, w.policy); }
    AcknowledgementIsTrue(m, steps, k);
    forall id | id in s.open && Settled(s.open[id]) ensures RefusedFrom(s.open[id]).None? || Level(w.policy) < RefusedFrom(s.open[id]).value {
      AdmittedExactly(s.open[id], w.policy);
    }
  }

  // ------------------------------------------------------------- a sweep left to itself

  /** The k-th sweep goes on for n entries, every call succeeding. */
  function Drive(k: nat, n: nat): seq<Step> {
    if n == 0 then [SweepReturn(k, true)] else Drive(k, n - 1) + [SweepCall(k), SweepReturn(k, true)]
  }

  predicate Driven(s: State, s': State, k: nat, n: nat)
    requires k < |s.sweeps|
  {
    && |s'.sweeps| == |s.sweeps| && s'.policy == s.policy
    && s'.sweeps[k].policy == s.sweeps[k].policy && s'.sweeps[k].later == s.sweeps[k].later
    && s'.sweeps[k].entries == s.sweeps[k].entries && s'.sweeps[k].failures == s.sweeps[k].failures
    && !s'.sweeps[k].calling && n <= s'.sweeps[k].at <= |s'.sweeps[k].entries|
  }

  function DriveOne(s: State, k: nat): State { Next(Next(s, SweepCall(k)), SweepReturn(k, true)) }

  function DriveEnd(s: State, k: nat, n: nat): State {
    if n == 0 then Next(s, SweepReturn(k, true)) else DriveOne(DriveEnd(s, k, n - 1), k)
  }

  lemma DriveMore(s: State, k: nat, n: nat)
    requires n > 0
    ensures Run(s, Drive(k, n)) == DriveOne(Run(s, Drive(k, n - 1)), k)
  {
    var steps := Drive(k, n - 1);
    RunMore(s, steps, SweepCall(k));
    RunMore(s, steps + [SweepCall(k)], SweepReturn(k, true));
    assert steps + [SweepCall(k)] + [SweepReturn(k, true)] == Drive(k, n);
  }

  lemma {:induction false} DriveRuns(s: State, k: nat, n: nat)
    ensures Run(s, Drive(k, n)) == DriveEnd(s, k, n)
  {
    if n == 0 {
      RunMore(s, [], SweepReturn(k, true));
      assert [] + [SweepReturn(k, true)] == Drive(k, 0);
    } else {
      DriveRuns(s, k, n - 1);
      DriveMore(s, k, n);
    }
  }

  lemma DriveBegins(s: State, k: nat)
    requires k < |s.sweeps| && Books(s, s.sweeps[k])
    ensures Driven(s, Next(s, SweepReturn(k, true)), k, 0)
  {}

  lemma CallDrives(s: State, s1: State, k: nat, n: nat)
    requires k < |s.sweeps| && Driven(s, s1, k, n) && n < |s.sweeps[k].entries| && Books(s1, s1.sweeps[k])
    ensures Driven(s, DriveOne(s1, k), k, n + 1)
  {}

  lemma {:induction false} DriveGoesOn(s: State, k: nat, n: nat)
    requires Inv(s) && k < |s.sweeps| && n <= |s.sweeps[k].entries|
    ensures Inv(DriveEnd(s, k, n)) && Driven(s, DriveEnd(s, k, n), k, n)
  {
    if n == 0 {
      assert SweepOk(s, s.sweeps[k]);
      DriveBegins(s, k);
      NextKeepsInv(s, SweepReturn(k, true));
    } else {
      DriveGoesOn(s, k, n - 1);
      var s1 := DriveEnd(s, k, n - 1);
      assert SweepOk(s1, s1.sweeps[k]);
      CallDrives(s, s1, k, n - 1);
      NextKeepsInv(s1, SweepCall(k));
      NextKeepsInv(Next(s1, SweepCall(k)), SweepReturn(k, true));
    }
  }

  lemma ConcatLast(a: seq<Step>, b: seq<Step>)
    requires b != []
    ensures (a + b)[..|a + b| - 1] == a + b[..|b| - 1] && (a + b)[|a + b| - 1] == b[|b| - 1]
  {}

  lemma RunLast(s: State, steps: seq<Step>, before: State, last: Step)
    requires steps != [] && before == Run(s, steps[..|steps| - 1]) && last == steps[|steps| - 1]
    ensures Run(s, steps) == Next(before, last)
  {}

  lemma {:induction false} RunConcat(s: State, a: seq<Step>, b: seq<Step>, mid: State)
    requires mid == Run(s, a)
    ensures Run(s, a + b) == Run(mid, b)
    decreases |b|
  {
    if b == [] {
      assert a + b == a;
    } else {
      var c, last := b[..|b| - 1], b[|b| - 1];
      RunConcat(s, a, c, mid);
      ConcatLast(a, b);
      var end := Run(mid, c);
      RunLast(s, a + b, end, last);
      RunLast(mid, b, end, last);
    }
  }

  /**
   Publishing a mode and letting its sweep go through is all it takes, from any point
   of any run: the sweep is acknowledged, and none of the channels the mode rules out
   is open.
   */
  lemma PublishedModeIsEnforced(m: Mode, steps: seq<Step>, p: Mode)
    ensures var before := Run(Init(m), steps);
            var published := Next(before, Publish(p));
            var k := |before.sweeps|;
            && |published.sweeps| == k + 1
            && (var s := Run(published, Drive(k, |published.sweeps[k].entries|));
                |s.sweeps| == k + 1 && s.policy == p && s.sweeps[k].Acknowledged() && NoneOpenBelow(s, Level(p)))
  {
    var before := Run(Init(m), steps);
    var k, published := |before.sweeps|, Next(before, Publish(p));
    RunKeepsInv(Init(m), steps);
    NextKeepsInv(before, Publish(p));
    RunMore(Init(m), steps, Publish(p));
    var drive := Drive(k, |published.sweeps[k].entries|);
    DriveGoesOn(published, k, |published.sweeps[k].entries|);
    DriveRuns(published, k, |published.sweeps[k].entries|);
    RunConcat(Init(m), steps + [Publish(p)], drive, published);
    AcknowledgedModeHolds(m, steps + [Publish(p)] + drive, k);
  }
}
