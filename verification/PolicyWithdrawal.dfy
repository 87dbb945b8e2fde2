/**
 The node's admission policy under change: channels register, select a handshake,
 establish, lock legacy and go, while policies are committed and each commit
 sweeps one snapshot, entry by entry, with everything else free to happen between
 two entries and even between the call that ends a channel and its return.
 */
module PolicyWithdrawal {
  import opened Prelude

  // -------------------------------------------------------------------- policies

  datatype Mode = Compatibility | RequireE2EE | RequireNative | RequireApprovedNative

  datatype Pattern = IK | NX
  datatype Suite = Plain | AccountGrant

  /** What a mode derives: the admitted patterns and suites always hold IK and the plain suite. */
  datatype Policy = Policy(requireE2EE: bool, requireApproved: bool, admitsNX: bool, admitsAccountGrant: bool) {
    predicate AdmitsPattern(x: Pattern) { x.IK? || admitsNX }

    predicate AdmitsSuite(x: Suite) { x.Plain? || admitsAccountGrant }
  }

  function Effective(m: Mode): Policy {
    Policy(!m.Compatibility?, m.RequireApprovedNative?, m.Compatibility? || m.RequireE2EE?, !m.RequireApprovedNative?)
  }

  const FAIL_CLOSED := RequireApprovedNative

  predicate Narrows(previous: Policy, next: Policy) {
    || (next.requireE2EE && !previous.requireE2EE)
    || (next.requireApproved && !previous.requireApproved)
    || (exists x: Suite :: previous.AdmitsSuite(x) && !next.AdmitsSuite(x))
    || (exists x: Pattern :: previous.AdmitsPattern(x) && !next.AdmitsPattern(x))
  }

  // -------------------------------------------------------------------- channels

  datatype Phase = Negotiating | InFlight | Legacy | E2ee

  datatype Channel = Channel(phase: Phase, pattern: Option<Pattern>, suite: Option<Suite>)

  datatype Class = LegacyClass | NxE2ee | SuiteWithdrawn | Handshake

  function WithdrawnClass(c: Channel, p: Policy): Option<Class> {
    if c.phase.Legacy? then if p.requireE2EE then Some(LegacyClass) else None
    else if !c.phase.E2ee? then None
    else if c.pattern == Some(NX) && !p.AdmitsPattern(NX) then Some(NxE2ee)
    else if c.suite.Some? && !p.AdmitsSuite(c.suite.value) then Some(SuiteWithdrawn)
    else None
  }

  predicate RefusesInFlight(c: Channel, p: Policy) {
    && c.phase.InFlight?
    && ((c.pattern.Some? && !p.AdmitsPattern(c.pattern.value)) || (c.suite.Some? && !p.AdmitsSuite(c.suite.value)))
  }

  /** The class a snapshot entry is swept under, or nothing when it survives. */
  function DispositionOf(c: Channel, p: Policy): Option<Class> {
    if c.phase.InFlight? then if RefusesInFlight(c, p) then Some(Handshake) else None
    else WithdrawnClass(c, p)
  }

  predicate Conforms(c: Channel, m: Mode) { DispositionOf(c, Effective(m)).None? }

  /** The in-flight test and the test at the transition are one test: a handshake is refused exactly when its channel would be. */
  lemma TestsAgree(pattern: Pattern, suite: Suite, m: Mode)
    ensures Conforms(Channel(InFlight, Some(pattern), Some(suite)), m)
            <==> Conforms(Channel(E2ee, Some(pattern), Some(suite)), m)
  {}

  /** A change narrows exactly when some channel the old policy admits is one the new policy withdraws. */
  lemma NarrowsMeansWithdraws(m: Mode, m': Mode)
    ensures Narrows(Effective(m), Effective(m')) <==> exists c: Channel :: Conforms(c, m) && !Conforms(c, m')
  {
    if Narrows(Effective(m), Effective(m')) {
      assert Effective(m).AdmitsSuite(Plain) && Effective(m').AdmitsSuite(Plain);
      var legacy := Channel(Legacy, None, None);
      var nx := Channel(E2ee, Some(NX), Some(Plain));
      var grant := Channel(E2ee, Some(IK), Some(AccountGrant));
      assert (Conforms(legacy, m) && !Conforms(legacy, m')) || (Conforms(nx, m) && !Conforms(nx, m'))
             || (Conforms(grant, m) && !Conforms(grant, m'));
    }
  }

  // ------------------------------------------------------------------- the state

  datatype Counts = Counts(legacy: nat, nxE2ee: nat, suiteWithdrawn: nat, abortedHandshakes: nat) {
    function Sum(): nat { legacy + nxE2ee + suiteWithdrawn + abortedHandshakes }

    function Tally(c: Class): Counts {
      match c
      case LegacyClass => this.(legacy := legacy + 1)
      case NxE2ee => this.(nxE2ee := nxE2ee + 1)
      case SuiteWithdrawn => this.(suiteWithdrawn := suiteWithdrawn + 1)
      case Handshake => this.(abortedHandshakes := abortedHandshakes + 1)
    }
  }

  datatype Entry = Entry(id: nat, channel: Channel)

  /**
   One change's sweep over its snapshot: the entry it is at, whether the call that
   ends that entry's channel is under way, what it closed, and what has been
   published since.
   */
  datatype Sweep = Sweep(policy: Mode, entries: seq<Entry>, at: nat, calling: bool,
                         counts: Counts, closed: seq<nat>, failures: nat,
                         later: set<Mode>, alone: bool)
  {
    predicate Finished() { at == |entries| && !calling }

    predicate Acknowledged() { Finished() && failures == 0 }
  }

  datatype State = State(open: map<nat, Channel>, next: nat, policy: Mode, sweeps: seq<Sweep>)

  function Init(m: Mode): State { State(map[], 0, m, []) }

  /** The registrations in the order they were made. */
  function Snapshot(open: map<nat, Channel>, n: nat): seq<Entry> {
    if n == 0 then []
    else Snapshot(open, n - 1) + if n - 1 in open then [Entry(n - 1, open[n - 1])] else []
  }

  datatype Step =
    | Register
    | SelectHandshake(id: nat, pattern: Pattern, suite: Suite)
    | Establish(id: nat)
    | LockLegacy(id: nat)
    | Release(id: nat)
    | Publish(mode: Mode)
    | Resync(mode: Mode)
    | SweepCall(k: nat)
    | SweepReturn(k: nat, ok: bool)

  function PublishedSince(sweeps: seq<Sweep>, m: Mode): (r: seq<Sweep>)
    ensures |r| == |sweeps|
    ensures forall k :: 0 <= k < |r| ==> r[k] == sweeps[k].(later := sweeps[k].later + {m})
  {
    seq(|sweeps|, k requires 0 <= k < |sweeps| => sweeps[k].(later := sweeps[k].later + {m}))
  }

  function Called(s: State, k: nat): State
    requires k < |s.sweeps| && !s.sweeps[k].calling && s.sweeps[k].at < |s.sweeps[k].entries|
  {
    var w := s.sweeps[k];
    var entry := w.entries[w.at];
    if entry.id !in s.open || DispositionOf(entry.channel, Effective(w.policy)).None?
    then s.(sweeps := s.sweeps[k := w.(at := w.at + 1)])
    else s.(sweeps := s.sweeps[k := w.(calling := true)])
  }

  function Returned(s: State, k: nat, ok: bool): State
    requires k < |s.sweeps| && s.sweeps[k].calling && s.sweeps[k].at < |s.sweeps[k].entries|
  {
    var w := s.sweeps[k];
    var entry := w.entries[w.at];
    var reason := DispositionOf(entry.channel, Effective(w.policy));
    if !ok || reason.None? then
      s.(sweeps := s.sweeps[k := w.(at := w.at + 1, calling := false, failures := w.failures + 1)])
    else
      s.(open := s.open - {entry.id},
         sweeps := s.sweeps[k := w.(at := w.at + 1, calling := false, closed := w.closed + [entry.id],
                                    counts := w.counts.Tally(reason.value))])
  }

  /** One synchronous turn; a step that is not open to anybody changes nothing. */
  function Next(s: State, step: Step): State {
    match step
    case Register => s.(open := s.open[s.next := Channel(Negotiating, None, None)], next := s.next + 1)
    case SelectHandshake(id, pattern, suite) =>
      if id in s.open && s.open[id].phase.Negotiating?
      then s.(open := s.open[id := Channel(InFlight, Some(pattern), Some(suite))]) else s
    case Establish(id) =>
      if id in s.open && s.open[id].phase.InFlight? then
        var candidate := s.open[id].(phase := E2ee);
        if WithdrawnClass(candidate, Effective(s.policy)).Some? then s.(open := s.open - {id})
        else s.(open := s.open[id := candidate])
      else s
    case LockLegacy(id) =>
      if id in s.open && s.open[id].phase.Negotiating?
         && WithdrawnClass(Channel(Legacy, None, None), Effective(s.policy)).None?
      then s.(open := s.open[id := s.open[id].(phase := Legacy)]) else s
    case Release(id) => s.(open := s.open - {id})
    case Publish(m) =>
      var w := Sweep(m, Snapshot(s.open, s.next), 0, false, Counts(0, 0, 0, 0), [], 0, {},
                     forall k :: 0 <= k < |s.sweeps| ==> s.sweeps[k].Finished());
      s.(policy := m, sweeps := PublishedSince(s.sweeps, m) + [w])
    case Resync(m) => s.(policy := m, sweeps := PublishedSince(s.sweeps, m))
    case SweepCall(k) =>
      if k < |s.sweeps| && !s.sweeps[k].calling && s.sweeps[k].at < |s.sweeps[k].entries| then Called(s, k) else s
    case SweepReturn(k, ok) =>
      if k < |s.sweeps| && s.sweeps[k].calling && s.sweeps[k].at < |s.sweeps[k].entries| then Returned(s, k, ok) else s
  }

  function Run(s: State, steps: seq<Step>): State
    decreases |steps|
  {
    if steps == [] then s else Next(Run(s, steps[..|steps| - 1]), steps[|steps| - 1])
  }

  // -------------------------------------------------------------------- invariant

  /** Everything published since refuses at least what this sweep's policy refuses. */
  predicate NarrowSince(w: Sweep) { forall q :: q in w.later ==> !Narrows(Effective(q), Effective(w.policy)) }

  /** The policy q lets in a handshake that p refuses. */
  predicate Readmits(q: Mode, p: Mode) {
    || (Effective(q).admitsNX && !Effective(p).admitsNX)
    || (Effective(q).admitsAccountGrant && !Effective(p).admitsAccountGrant)
  }

  predicate NothingReadmitted(w: Sweep) { forall q :: q in w.later ==> !Readmits(q, w.policy) }

  predicate Settled(c: Channel) { c.phase.Legacy? || c.phase.E2ee? }

  ghost predicate InOrder(entries: seq<Entry>, limit: nat) {
    && (forall i, j :: 0 <= i < j < |entries| ==> entries[i].id < entries[j].id)
    && (forall i :: 0 <= i < |entries| ==> entries[i].id < limit)
  }

  /** The id is one of the first `n` entries, and the policy withdrew its channel. */
  ghost predicate WithdrawnAmong(entries: seq<Entry>, n: nat, id: nat, m: Mode)
    requires n <= |entries|
  {
    exists i :: 0 <= i < n && entries[i].id == id && !Conforms(entries[i].channel, m)
  }

  /** The sweep's books: entries in order and each at most once, counts and closures in step. */
  ghost predicate Books(s: State, w: Sweep) {
    && w.at <= |w.entries| && InOrder(w.entries, s.next)
    && (w.calling ==> w.at < |w.entries| && !Conforms(w.entries[w.at].channel, w.policy))
    && w.counts.Sum() == |w.closed|
    && (forall a, b :: 0 <= a < b < |w.closed| ==> w.closed[a] < w.closed[b])
    && (forall id :: id in w.closed ==> id !in s.open && id < s.next && WithdrawnAmong(w.entries, w.at, id, w.policy))
  }

  predicate StillAhead(rest: seq<Entry>, id: nat, c: Channel) { Entry(id, c) in rest }

  /** What is still to be swept covers every settled channel the sweep's policy does not admit. */
  ghost predicate Covers(s: State, w: Sweep)
    requires w.at <= |w.entries|
  {
    NarrowSince(w) && w.failures == 0 ==>
      forall id {:trigger StillAhead(w.entries[w.at..], id, s.open[id])} ::
        id in s.open && Settled(s.open[id]) && !Conforms(s.open[id], w.policy) ==>
          StillAhead(w.entries[w.at..], id, s.open[id])
  }

  /** An entry to be ended is still in the phase it is ended as. */
  ghost predicate Frozen(s: State, w: Sweep) {
    NothingReadmitted(w) ==>
      forall i :: w.at <= i < |w.entries| && w.entries[i].id in s.open && !Conforms(w.entries[i].channel, w.policy) ==>
        s.open[w.entries[i].id] == w.entries[i].channel
  }

  ghost predicate WellFormed(s: State) {
    && (forall id :: id in s.open ==> id < s.next)
    && (forall id :: id in s.open ==> match s.open[id].phase
          case Negotiating => s.open[id] == Channel(Negotiating, None, None)
          case Legacy => s.open[id] == Channel(Legacy, None, None)
          case _ => s.open[id].pattern.Some? && s.open[id].suite.Some?)
  }

  ghost predicate SweepOk(s: State, w: Sweep) {
    && Books(s, w) && Covers(s, w) && Frozen(s, w)
    && (NarrowSince(w) ==> !Narrows(Effective(s.policy), Effective(w.policy)))
    && (NothingReadmitted(w) ==> !Readmits(s.policy, w.policy))
  }

  ghost predicate Inv(s: State) { WellFormed(s) && forall k :: 0 <= k < |s.sweeps| ==> SweepOk(s, s.sweeps[k]) }

  // ----------------------------------------------------------------- preservation

  ghost predicate Lists(open: map<nat, Channel>, n: nat, e: seq<Entry>) {
    && InOrder(e, n)
    && (forall i :: 0 <= i < |e| ==> e[i].id in open && open[e[i].id] == e[i].channel)
    && (forall id {:trigger IsListed(open, e, id)} :: id in open && id < n ==> IsListed(open, e, id))
  }

  ghost predicate IsListed(open: map<nat, Channel>, e: seq<Entry>, id: nat) { id in open && Entry(id, open[id]) in e }

  lemma SnapshotIsOpen(open: map<nat, Channel>, n: nat)
    ensures Lists(open, n, Snapshot(open, n))
  {
    if n > 0 {
      SnapshotIsOpen(open, n - 1);
      var before, e := Snapshot(open, n - 1), Snapshot(open, n);
      forall id | id in open && id < n ensures IsListed(open, e, id) {
        if id < n - 1 {
          assert IsListed(open, before, id);
        } else {
          assert e[|before|] == Entry(id, open[id]);
        }
      }
    }
  }

  /** At least as narrow a policy admits no more. */
  lemma NarrowerRefuses(c: Channel, q: Mode, p: Mode)
    requires !Narrows(Effective(q), Effective(p)) && Conforms(c, q)
    ensures Conforms(c, p)
  {
    assert Effective(q).AdmitsSuite(AccountGrant) ==> Effective(p).AdmitsSuite(AccountGrant);
    assert Effective(q).AdmitsPattern(NX) ==> Effective(p).AdmitsPattern(NX);
  }

  /** A turn of one channel that sweeps do not see as it happens: what it may do to the open channels. */
  ghost predicate ChannelTurn(s: State, s': State) {
    && s'.sweeps == s.sweeps && s'.policy == s.policy && s.next <= s'.next && WellFormed(s')
    && (forall id :: id in s'.open && id !in s.open ==> s.next <= id && s'.open[id].phase.Negotiating?)
    && (forall id :: id in s'.open && id in s.open && s'.open[id] != s.open[id] ==>
          && (Settled(s'.open[id]) ==> Conforms(s'.open[id], s.policy))
          && (s.open[id].phase.Negotiating?
              || (s.open[id].phase.InFlight? && s'.open[id] == s.open[id].(phase := E2ee))))
  }

  lemma ChannelStepTurns(s: State, step: Step)
    requires WellFormed(s)
    requires step.Register? || step.SelectHandshake? || step.Establish? || step.LockLegacy? || step.Release?
    ensures ChannelTurn(s, Next(s, step))
  {}

  lemma TurnKeepsSweep(s: State, s': State, w: Sweep)
    requires WellFormed(s) && SweepOk(s, w) && ChannelTurn(s, s')
    ensures SweepOk(s', w)
  {
    if NarrowSince(w) {
      forall id | id in s'.open && Settled(s'.open[id]) && !Conforms(s'.open[id], w.policy) && w.failures == 0
        ensures StillAhead(w.entries[w.at..], id, s'.open[id])
      {
        if id !in s.open || s'.open[id] != s.open[id] {
          NarrowerRefuses(s'.open[id], s.policy, w.policy);
        }
      }
    }
    if NothingReadmitted(w) {
      forall i | w.at <= i < |w.entries| && w.entries[i].id in s'.open && !Conforms(w.entries[i].channel, w.policy)
        ensures s'.open[w.entries[i].id] == w.entries[i].channel
      {
        var id := w.entries[i].id;
        if id !in s.open {
          assert false;
        } else if s'.open[id] != s.open[id] {
          assert false;
        }
      }
    }
  }

  lemma PublishKeepsOlder(s: State, w: Sweep, m: Mode, s': State)
    requires SweepOk(s, w) && s'.open == s.open && s'.next == s.next && s'.policy == m
    ensures SweepOk(s', w.(later := w.later + {m}))
  {
    var w' := w.(later := w.later + {m});
    assert forall q :: q in w.later ==> q in w'.later;
    assert NarrowSince(w') ==> NarrowSince(w);
    assert NothingReadmitted(w') ==> NothingReadmitted(w);
    assert m in w'.later;
  }

  lemma FreshSweepOk(s: State, m: Mode, e: seq<Entry>, alone: bool)
    requires WellFormed(s) && Lists(s.open, s.next, e) && s.policy == m
    ensures SweepOk(s, Sweep(m, e, 0, false, Counts(0, 0, 0, 0), [], 0, {}, alone))
  {
    var w := Sweep(m, e, 0, false, Counts(0, 0, 0, 0), [], 0, {}, alone);
    assert w.entries[w.at..] == e;
    forall id | id in s.open && Settled(s.open[id]) && !Conforms(s.open[id], m)
      ensures StillAhead(w.entries[w.at..], id, s.open[id])
    {
      assert IsListed(s.open, e, id);
    }
  }

  lemma WithdrawnAmongMore(entries: seq<Entry>, n: nat, id: nat, m: Mode)
    requires n < |entries| && WithdrawnAmong(entries, n, id, m)
    ensures WithdrawnAmong(entries, n + 1, id, m)
  {}

  /** Moving past an entry that is gone, or that the policy admits. */
  lemma CallKeepsOwn(s: State, w: Sweep)
    requires SweepOk(s, w) && !w.calling && w.at < |w.entries|
    requires w.entries[w.at].id !in s.open || Conforms(w.entries[w.at].channel, w.policy)
    ensures SweepOk(s, w.(at := w.at + 1))
  {
    forall id | id in w.closed ensures WithdrawnAmong(w.entries, w.at + 1, id, w.policy) {
      WithdrawnAmongMore(w.entries, w.at, id, w.policy);
    }
    assert w.entries[w.at..] == [w.entries[w.at]] + w.entries[w.at + 1..];
    AheadAfter(s, w, w.entries[w.at].id);
  }

  /** Past an entry that is gone or admitted, every other withdrawn channel is still ahead. */
  lemma AheadAfter(s: State, w: Sweep, gone: nat)
    requires SweepOk(s, w) && w.at < |w.entries| && gone == w.entries[w.at].id
    ensures NarrowSince(w) && w.failures == 0 ==>
              forall id {:trigger StillAhead(w.entries[w.at + 1..], id, s.open[id])} ::
                id in s.open && Settled(s.open[id]) && !Conforms(s.open[id], w.policy)
                && (id != gone || Conforms(w.entries[w.at].channel, w.policy)) ==>
                  StillAhead(w.entries[w.at + 1..], id, s.open[id])
  {
    assert w.entries[w.at..] == [w.entries[w.at]] + w.entries[w.at + 1..];
    if NarrowSince(w) && w.failures == 0 {
      forall id | id in s.open && Settled(s.open[id]) && !Conforms(s.open[id], w.policy)
                  && (id != gone || Conforms(w.entries[w.at].channel, w.policy))
        ensures StillAhead(w.entries[w.at + 1..], id, s.open[id])
      {
        assert StillAhead(w.entries[w.at..], id, s.open[id]);
      }
    }
  }

  lemma CallKeeps(s: State, k: nat)
    requires Inv(s) && k < |s.sweeps| && !s.sweeps[k].calling && s.sweeps[k].at < |s.sweeps[k].entries|
    ensures Inv(Called(s, k))
  {
    var s', w := Called(s, k), s.sweeps[k];
    assert SweepOk(s, w);
    if s'.sweeps[k] == w.(at := w.at + 1) {
      CallKeepsOwn(s, w);
    }
    forall j | 0 <= j < |s'.sweeps| ensures SweepOk(s', s'.sweeps[j]) {
      assert SweepOk(s, s.sweeps[j]);
      assert SweepOk(s, s'.sweeps[j]);
    }
  }

  lemma ClosingKeepsOther(s: State, w: Sweep, id: nat)
    requires SweepOk(s, w)
    ensures SweepOk(s.(open := s.open - {id}), w)
  {
    var s' := s.(open := s.open - {id});
    if NarrowSince(w) && w.failures == 0 {
      forall i | i in s'.open && Settled(s'.open[i]) && !Conforms(s'.open[i], w.policy)
        ensures StillAhead(w.entries[w.at..], i, s'.open[i])
      {
        assert StillAhead(w.entries[w.at..], i, s.open[i]);
      }
    }
  }

  lemma ReturnKeepsOwn(s: State, k: nat, ok: bool)
    requires Inv(s) && k < |s.sweeps| && s.sweeps[k].calling && s.sweeps[k].at < |s.sweeps[k].entries|
    ensures SweepOk(Returned(s, k, ok), Returned(s, k, ok).sweeps[k])
  {
    var s', w := Returned(s, k, ok), s.sweeps[k];
    var w', entry := s'.sweeps[k], w.entries[w.at];
    assert SweepOk(s, w);
    forall id | id in w'.closed
      ensures id !in s'.open && id < s.next && WithdrawnAmong(w.entries, w.at + 1, id, w.policy)
    {
      if id in w.closed {
        WithdrawnAmongMore(w.entries, w.at, id, w.policy);
      } else {
        assert id == entry.id;
      }
    }
    forall a | 0 <= a < |w.closed| ensures w.closed[a] < entry.id {
      assert w.closed[a] in w.closed;
      var i :| 0 <= i < w.at && w.entries[i].id == w.closed[a] && !Conforms(w.entries[i].channel, w.policy);
    }
    AheadAfter(s, w, entry.id);
    assert Books(s', w');
    assert Covers(s', w') by {
      if NarrowSince(w') && w'.failures == 0 {
        forall id | id in s'.open && Settled(s'.open[id]) && !Conforms(s'.open[id], w.policy)
          ensures StillAhead(w'.entries[w'.at..], id, s'.open[id])
        {
          assert StillAhead(w.entries[w.at + 1..], id, s.open[id]);
        }
      }
    }
  }

  lemma ReturnKeeps(s: State, k: nat, ok: bool)
    requires Inv(s) && k < |s.sweeps| && s.sweeps[k].calling && s.sweeps[k].at < |s.sweeps[k].entries|
    ensures Inv(Returned(s, k, ok))
  {
    var s' := Returned(s, k, ok);
    var entry := s.sweeps[k].entries[s.sweeps[k].at];
    ReturnKeepsOwn(s, k, ok);
    forall j | 0 <= j < |s'.sweeps| ensures SweepOk(s', s'.sweeps[j]) {
      if j != k {
        assert SweepOk(s, s.sweeps[j]);
        ClosingKeepsOther(s, s.sweeps[j], entry.id);
      }
    }
  }

  lemma ResyncKeeps(s: State, m: Mode)
    requires Inv(s)
    ensures Inv(Next(s, Resync(m)))
  {
    var s' := Next(s, Resync(m));
    forall k | 0 <= k < |s.sweeps| ensures SweepOk(s', s'.sweeps[k]) {
      PublishKeepsOlder(s, s.sweeps[k], m, s');
    }
  }

  lemma PublishKeeps(s: State, m: Mode)
    requires Inv(s)
    ensures Inv(Next(s, Publish(m)))
  {
    var s' := Next(s, Publish(m));
    forall k | 0 <= k < |s.sweeps| ensures SweepOk(s', s'.sweeps[k]) {
      PublishKeepsOlder(s, s.sweeps[k], m, s');
    }
    SnapshotIsOpen(s.open, s.next);
    FreshSweepOk(s', m, Snapshot(s.open, s.next), s'.sweeps[|s.sweeps|].alone);
  }

  lemma TurnKeeps(s: State, step: Step)
    requires Inv(s)
    requires step.Register? || step.SelectHandshake? || step.Establish? || step.LockLegacy? || step.Release?
    ensures Inv(Next(s, step))
  {
    var s' := Next(s, step);
    ChannelStepTurns(s, step);
    forall k | 0 <= k < |s'.sweeps| ensures SweepOk(s', s'.sweeps[k]) {
      TurnKeepsSweep(s, s', s.sweeps[k]);
    }
  }

  lemma NextKeepsInv(s: State, step: Step)
    requires Inv(s)
    ensures Inv(Next(s, step))
  {
    match step
    case Publish(m) => PublishKeeps(s, m);
    case Resync(m) => ResyncKeeps(s, m);
    case SweepCall(k) =>
      if Next(s, step) != s { CallKeeps(s, k); }
    case SweepReturn(k, ok) =>
      if Next(s, step) != s { ReturnKeeps(s, k, ok); }
    case _ => TurnKeeps(s, step);
  }

  lemma {:induction false} RunKeepsInv(s: State, steps: seq<Step>)
    requires Inv(s)
    ensures Inv(Run(s, steps))
    decreases |steps|
  {
    if steps != [] {
      RunKeepsInv(s, steps[..|steps| - 1]);
      NextKeepsInv(Run(s, steps[..|steps| - 1]), steps[|steps| - 1]);
    }
  }

  // -------------------------------------------------------------------- theorems

  /** Every open legacy or e2ee channel is one the policy admits. */
  ghost predicate AllConform(s: State, m: Mode) {
    forall id :: id in s.open && Settled(s.open[id]) ==> Conforms(s.open[id], m)
  }

  lemma FinishedCovers(s: State, w: Sweep)
    requires SweepOk(s, w) && w.Acknowledged() && NarrowSince(w)
    ensures AllConform(s, w.policy)
  {
    forall id | id in s.open && Settled(s.open[id]) ensures Conforms(s.open[id], w.policy) {
      assert !StillAhead(w.entries[w.at..], id, s.open[id]);
    }
  }

  /**
   What an acknowledgement means: whatever interleaved with the sweep, once it
   finished without a failure - and as long as nothing wider was published since its
   commit - no open channel is one its policy would not admit.
   */
  lemma AcknowledgementIsTrue(m: Mode, steps: seq<Step>, k: nat)
    requires k < |Run(Init(m), steps).sweeps|
    ensures var s := Run(Init(m), steps);
            var w := s.sweeps[k];
            w.Acknowledged() && NarrowSince(w) ==> AllConform(s, w.policy)
  {
    RunKeepsInv(Init(m), steps);
    var s := Run(Init(m), steps);
    assert SweepOk(s, s.sweeps[k]);
    if s.sweeps[k].Acknowledged() && NarrowSince(s.sweeps[k]) {
      FinishedCovers(s, s.sweeps[k]);
    }
  }

  /** Its counts add up to the channels it closed, each closed once, gone for good, and one its policy withdrew. */
  lemma CountsAreClosures(m: Mode, steps: seq<Step>, k: nat)
    requires k < |Run(Init(m), steps).sweeps|
    ensures var s := Run(Init(m), steps);
            var w := s.sweeps[k];
            && w.counts.Sum() == |w.closed|
            && (forall a, b :: 0 <= a < b < |w.closed| ==> w.closed[a] != w.closed[b])
            && (forall id :: id in w.closed ==>
                  id !in s.open && exists e :: e in w.entries && e.id == id && !Conforms(e.channel, w.policy))
  {
    RunKeepsInv(Init(m), steps);
    var s := Run(Init(m), steps);
    var w := s.sweeps[k];
    assert SweepOk(s, w);
    forall id | id in w.closed ensures exists e :: e in w.entries && e.id == id && !Conforms(e.channel, w.policy) {
      assert WithdrawnAmong(w.entries, w.at, id, w.policy);
      var i :| 0 <= i < w.at && w.entries[i].id == id && !Conforms(w.entries[i].channel, w.policy);
      assert w.entries[i] in w.entries;
    }
  }

  /** A channel about to be ended is ended as what it is, unless what it was refused for was readmitted during the sweep. */
  lemma EndedAsWhatItIs(m: Mode, steps: seq<Step>, k: nat)
    requires k < |Run(Init(m), steps).sweeps|
    ensures var s := Run(Init(m), steps);
            var w := s.sweeps[k];
            w.calling && w.at < |w.entries| && NothingReadmitted(w) && w.entries[w.at].id in s.open ==>
              s.open[w.entries[w.at].id] == w.entries[w.at].channel
  {
    RunKeepsInv(Init(m), steps);
    assert SweepOk(Run(Init(m), steps), Run(Init(m), steps).sweeps[k]);
  }

  lemma RunMore(s: State, steps: seq<Step>, step: Step)
    ensures Run(s, steps + [step]) == Next(Run(s, steps), step)
  {
    assert (steps + [step])[..|steps|] == steps;
  }

  /** A channel snapshotted alone. */
  lemma SnapshotOfOne(c: Channel)
    ensures Snapshot(map[0 := c], 1) == [Entry(0, c)]
  {
    assert Snapshot(map[0 := c], 0) == [];
  }

  /** The first sweep, of p, is about to end as a handshake a channel that is established and that q admits. */
  predicate EndsWrongly(s: State, p: Mode, q: Mode) {
    && |s.sweeps| > 0 && s.sweeps[0].policy == p && q in s.sweeps[0].later
    && s.sweeps[0].calling && s.sweeps[0].at < |s.sweeps[0].entries|
    && (var e := s.sweeps[0].entries[s.sweeps[0].at];
        && DispositionOf(e.channel, Effective(p)) == Some(Handshake)
        && e.id in s.open && s.open[e.id].phase.E2ee? && Conforms(s.open[e.id], q))
  }

  /** A handshake selected under compatibility, then p published and q after it. */
  lemma TwoPublished(p: Mode, q: Mode, pattern: Pattern, suite: Suite) returns (steps: seq<Step>)
    ensures var s := Run(Init(Compatibility), steps);
            var c := Channel(InFlight, Some(pattern), Some(suite));
            && s.open == map[0 := c] && s.policy == q && |s.sweeps| == 2
            && s.sweeps[0].policy == p && q in s.sweeps[0].later
            && s.sweeps[0].entries == [Entry(0, c)] && s.sweeps[0].at == 0 && !s.sweeps[0].calling
  {
    var c, s0 := Channel(InFlight, Some(pattern), Some(suite)), Init(Compatibility);
    var t1 := [Register];
    RunMore(s0, [], Register);
    assert [] + [Register] == t1;
    var t2 := t1 + [SelectHandshake(0, pattern, suite)];
    RunMore(s0, t1, SelectHandshake(0, pattern, suite));
    assert Run(s0, t2) == State(map[0 := c], 1, Compatibility, []);
    RunMore(s0, t2, Publish(p));
    SnapshotOfOne(c);
    steps := t2 + [Publish(p)] + [Publish(q)];
    RunMore(s0, t2 + [Publish(p)], Publish(q));
  }

  /**
   And for the client that condition is exact: whenever q readmits a handshake p
   refuses, the sweep of p can end, as a handshake, a channel that q has established
   meanwhile. Its callers must select, be tested and establish in one turn for that
   not to happen; the node's session does, so no run of the assembled node gets here.
   */
  lemma ReadmissionEndsTheWrongThing(p: Mode, q: Mode) returns (steps: seq<Step>)
    requires Readmits(q, p)
    ensures EndsWrongly(Run(Init(Compatibility), steps), p, q)
  {
    var pattern := if Effective(q).admitsNX && !Effective(p).admitsNX then NX else IK;
    var suite := if pattern.NX? then Plain else AccountGrant;
    var c := Channel(InFlight, Some(pattern), Some(suite));
    var before := TwoPublished(p, q, pattern, suite);
    var s := Run(Init(Compatibility), before);
    ReadmittedEstablishes(s, c, p, q);
    steps := before + [Establish(0)] + [SweepCall(0)];
    RunMore(Init(Compatibility), before, Establish(0));
    RunMore(Init(Compatibility), before + [Establish(0)], SweepCall(0));
  }

  lemma ReadmittedEstablishes(s: State, c: Channel, p: Mode, q: Mode)
    requires s.open == map[0 := c] && s.policy == q && |s.sweeps| > 0
    requires c.phase.InFlight? && !Conforms(c, p) && Conforms(c, q)
    requires c.pattern.Some? && c.suite.Some?
    requires s.sweeps[0].policy == p && s.sweeps[0].entries == [Entry(0, c)] && s.sweeps[0].at == 0 && !s.sweeps[0].calling
    ensures var s' := Next(Next(s, Establish(0)), SweepCall(0));
            && s'.open == map[0 := c.(phase := E2ee)] && Conforms(c.(phase := E2ee), q)
            && |s'.sweeps| == |s.sweeps| && s'.sweeps[0] == s.sweeps[0].(calling := true)
            && DispositionOf(c, Effective(p)) == Some(Handshake)
  {
    TestsAgree(c.pattern.value, c.suite.value, q);
  }

  // ------------------------------------------------------- one sweep after another

  /** A sweep that began when every earlier one had finished shares no channel with any of them. */
  ghost predicate Apart(s: State, j: nat)
    requires j < |s.sweeps|
  {
    s.sweeps[j].alone ==>
      forall i :: 0 <= i < j ==>
        s.sweeps[i].Finished()
        && forall e :: e in s.sweeps[j].entries ==> e.id !in s.sweeps[i].closed
  }

  ghost predicate AllApart(s: State) { forall j :: 0 <= j < |s.sweeps| ==> Apart(s, j) }

  /** What a finished sweep closed never changes again. */
  lemma FinishedStays(s: State, step: Step, i: nat)
    requires i < |s.sweeps|
    ensures var s' := Next(s, step);
            && i < |s'.sweeps| && s'.sweeps[i].entries == s.sweeps[i].entries && s'.sweeps[i].alone == s.sweeps[i].alone
            && (s.sweeps[i].Finished() ==> s'.sweeps[i].Finished() && s'.sweeps[i].closed == s.sweeps[i].closed)
  {}

  lemma PublishApart(s: State, m: Mode)
    requires Inv(s)
    ensures Apart(Next(s, Publish(m)), |s.sweeps|)
  {
    var s', j := Next(s, Publish(m)), |s.sweeps|;
    SnapshotIsOpen(s.open, s.next);
    forall i, e | 0 <= i < j && e in s'.sweeps[j].entries ensures e.id !in s'.sweeps[i].closed {
      assert SweepOk(s, s.sweeps[i]);
      assert s'.sweeps[i].closed == s.sweeps[i].closed;
    }
    forall i | 0 <= i < j && s'.sweeps[j].alone ensures s'.sweeps[i].Finished() {
      assert s.sweeps[i].Finished();
    }
  }

  lemma NextKeepsApart(s: State, step: Step)
    requires Inv(s) && AllApart(s)
    ensures AllApart(Next(s, step))
  {
    var s' := Next(s, step);
    forall j | 0 <= j < |s'.sweeps| ensures Apart(s', j) {
      if j < |s.sweeps| {
        assert Apart(s, j);
        FinishedStays(s, step, j);
        forall i | 0 <= i < j ensures i < |s'.sweeps| && (s.sweeps[i].Finished() ==>
                                      s'.sweeps[i].Finished() && s'.sweeps[i].closed == s.sweeps[i].closed)
        {
          FinishedStays(s, step, i);
        }
      } else {
        PublishApart(s, step.mode);
      }
    }
  }

  lemma {:induction false} RunKeepsApart(m: Mode, steps: seq<Step>)
    ensures Inv(Run(Init(m), steps)) && AllApart(Run(Init(m), steps))
    decreases |steps|
  {
    RunKeepsInv(Init(m), steps);
    if steps != [] {
      RunKeepsApart(m, steps[..|steps| - 1]);
      NextKeepsApart(Run(Init(m), steps[..|steps| - 1]), steps[|steps| - 1]);
    }
  }

  /** When a sweep begins after the others finished, no channel is closed and counted by two of them. */
  lemma ClosedOnceAcrossSweeps(m: Mode, steps: seq<Step>, i: nat, j: nat, id: nat)
    requires i < j < |Run(Init(m), steps).sweeps|
    requires var s := Run(Init(m), steps); s.sweeps[j].alone && id in s.sweeps[i].closed
    ensures id !in Run(Init(m), steps).sweeps[j].closed
  {
    RunKeepsApart(m, steps);
    var s := Run(Init(m), steps);
    assert Apart(s, j) && SweepOk(s, s.sweeps[j]);
  }

  /** A channel established under compatibility, which admits it whatever it is. */
  lemma OneEstablished(pattern: Pattern, suite: Suite) returns (steps: seq<Step>)
    ensures Run(Init(Compatibility), steps)
            == State(map[0 := Channel(E2ee, Some(pattern), Some(suite))], 1, Compatibility, [])
  {
    var s0 := Init(Compatibility);
    RunMore(s0, [], Register);
    assert [] + [Register] == [Register];
    RunMore(s0, [Register], SelectHandshake(0, pattern, suite));
    steps := [Register] + [SelectHandshake(0, pattern, suite)];
    assert Run(s0, steps) == State(map[0 := Channel(InFlight, Some(pattern), Some(suite))], 1, Compatibility, []);
    RunMore(s0, steps, Establish(0));
    steps := steps + [Establish(0)];
  }

  /** The sweep is about to end the one channel of its snapshot, or is ending it, or has. */
  predicate OverOne(w: Sweep, p: Mode, c: Channel, calling: bool, closed: bool) {
    && w.policy == p && w.entries == [Entry(0, c)] && w.calling == calling && w.failures == 0
    && w.at == (if closed then 1 else 0) && w.closed == (if closed then [0] else [])
  }

  predicate Both(s: State, p: Mode, q: Mode, c: Channel, calling: bool, closed: bool) {
    |s.sweeps| == 2 && OverOne(s.sweeps[0], p, c, calling, closed) && OverOne(s.sweeps[1], q, c, calling, closed)
  }

  lemma TwoBegin(s: State, p: Mode, q: Mode, c: Channel)
    requires s == State(map[0 := c], 1, Compatibility, []) && c.phase.E2ee? && !Conforms(c, p) && !Conforms(c, q)
    ensures var s' := Next(Next(Next(Next(s, Publish(p)), Publish(q)), SweepCall(0)), SweepCall(1));
            Both(s', p, q, c, true, false) && s'.open == s.open
  {
    SnapshotOfOne(c);
    var s1 := Next(s, Publish(p));
    var s2 := Next(s1, Publish(q));
    assert Both(s2, p, q, c, false, false) && s2.open == s.open;
    assert DispositionOf(c, Effective(p)).Some? && DispositionOf(c, Effective(q)).Some?;
  }

  lemma TwoEnd(s: State, p: Mode, q: Mode, c: Channel)
    requires Both(s, p, q, c, true, false) && c.phase.E2ee? && !Conforms(c, p) && !Conforms(c, q)
    ensures Both(Next(Next(s, SweepReturn(0, true)), SweepReturn(1, true)), p, q, c, false, true)
  {}

  /**
   And beginning alone is what it takes: for every two policies and every encrypted
   channel both withdraw, sweeps that overlap can both be ending that channel, and
   both count it. Ending one takes a turn of its own, during which it is still
   registered; a legacy channel and a handshake release theirs within the call.
   */
  lemma OverlapCountsTwice(p: Mode, q: Mode, pattern: Pattern, suite: Suite) returns (steps: seq<Step>)
    requires !Conforms(Channel(E2ee, Some(pattern), Some(suite)), p) && !Conforms(Channel(E2ee, Some(pattern), Some(suite)), q)
    ensures Both(Run(Init(Compatibility), steps), p, q, Channel(E2ee, Some(pattern), Some(suite)), false, true)
  {
    var s0, c := Init(Compatibility), Channel(E2ee, Some(pattern), Some(suite));
    var t := OneEstablished(pattern, suite);
    TwoBegin(Run(s0, t), p, q, c);
    RunMore(s0, t, Publish(p));
    var t1 := t + [Publish(p)];
    RunMore(s0, t1, Publish(q));
    var t2 := t1 + [Publish(q)];
    RunMore(s0, t2, SweepCall(0));
    var t3 := t2 + [SweepCall(0)];
    RunMore(s0, t3, SweepCall(1));
    var t4 := t3 + [SweepCall(1)];
    TwoEnd(Run(s0, t4), p, q, c);
    RunMore(s0, t4, SweepReturn(0, true));
    RunMore(s0, t4 + [SweepReturn(0, true)], SweepReturn(1, true));
    steps := t4 + [SweepReturn(0, true)] + [SweepReturn(1, true)];
  }

  // ------------------------------------------------------------------- widening

  /** The k-th sweep's snapshot holds nothing its policy refuses. */
  predicate SnapshotConforms(w: Sweep) { forall i :: 0 <= i < |w.entries| ==> Conforms(w.entries[i].channel, w.policy) }

  /** A policy published over channels it all admits closes none of them, however its sweep goes. */
  lemma WideningClosesNone(m: Mode, steps: seq<Step>, k: nat)
    requires k < |Run(Init(m), steps).sweeps| && SnapshotConforms(Run(Init(m), steps).sweeps[k])
    ensures Run(Init(m), steps).sweeps[k].closed == [] && Run(Init(m), steps).sweeps[k].counts == Counts(0, 0, 0, 0)
  {
    RunKeepsInv(Init(m), steps);
    var s := Run(Init(m), steps);
    assert SweepOk(s, s.sweeps[k]);
    ConformingClosesNone(s, s.sweeps[k]);
  }

  lemma ConformingClosesNone(s: State, w: Sweep)
    requires Books(s, w) && SnapshotConforms(w)
    ensures w.closed == [] && w.counts == Counts(0, 0, 0, 0)
  {
    if w.closed != [] {
      HasMember(w.closed);
    }
  }

  lemma HasMember(s: seq<nat>)
    requires s != []
    ensures exists x :: x in s
  {
    assert s[0] in s;
  }

  /** In particular a change that does not narrow, made while every open channel conforms. */
  lemma WideningSnapshotConforms(s: State, m: Mode)
    requires !Narrows(Effective(s.policy), Effective(m)) && WellFormed(s)
    requires forall id :: id in s.open ==> Conforms(s.open[id], s.policy)
    ensures var s' := Next(s, Publish(m)); SnapshotConforms(s'.sweeps[|s.sweeps|])
  {
    SnapshotIsOpen(s.open, s.next);
    var e := Snapshot(s.open, s.next);
    forall i | 0 <= i < |e| ensures Conforms(e[i].channel, m) {
      NarrowerRefuses(e[i].channel, s.policy, m);
    }
  }

  // ------------------------------------------------------- the object in place

  /** The registrations and the published policy, as the client of one node holds them. */
  class PolicyClient {
    var registrations: map<nat, Channel>
    var nextId: nat
    var current: Mode
    var sweeps: seq<Sweep>

    ghost function Value(): State
      reads this
    {
      State(registrations, nextId, current, sweeps)
    }

    constructor (m: Mode)
      ensures Value() == Init(m)
    {
      registrations, nextId, current, sweeps := map[], 0, m, [];
    }

    method RegisterChannel() returns (id: nat)
      modifies this
      ensures id == old(nextId) && Value() == Next(old(Value()), Register)
    {
      id := nextId;
      registrations := registrations[id := Channel(Negotiating, None, None)];
      nextId := nextId + 1;
    }

    method Select(id: nat, pattern: Pattern, suite: Suite)
      modifies this
      ensures Value() == Next(old(Value()), SelectHandshake(id, pattern, suite))
    {
      if id in registrations && registrations[id].phase == Negotiating {
        registrations := registrations[id := Channel(InFlight, Some(pattern), Some(suite))];
      }
    }

    /** The transition re-applies the withdrawal test, and retires what it refuses. */
    method EstablishOn(id: nat) returns (entered: bool)
      modifies this
      ensures Value() == Next(old(Value()), Establish(id))
      ensures entered <==> id in old(registrations) && old(registrations)[id].phase.InFlight?
                           && Conforms(old(registrations)[id].(phase := E2ee), old(current))
    {
      if id !in registrations || registrations[id].phase != InFlight { return false; }
      var candidate := registrations[id].(phase := E2ee);
      if WithdrawnClass(candidate, Effective(current)).Some? {
        registrations := registrations - {id};
        return false;
      }
      registrations := registrations[id := candidate];
      return true;
    }

    method Lock(id: nat) returns (entered: bool)
      modifies this
      ensures Value() == Next(old(Value()), LockLegacy(id))
      ensures entered <==> id in old(registrations) && old(registrations)[id].phase == Negotiating && old(current) == Compatibility
    {
      if id !in registrations || registrations[id].phase != Negotiating { return false; }
      if WithdrawnClass(Channel(Legacy, None, None), Effective(current)).Some? { return false; }
      registrations := registrations[id := registrations[id].(phase := Legacy)];
      return true;
    }

    method ReleaseChannel(id: nat)
      modifies this
      ensures Value() == Next(old(Value()), Release(id))
    {
      registrations := registrations - {id};
    }

    /** A committed policy takes force and its sweep's snapshot is taken in one turn. */
    method BeginChange(m: Mode) returns (k: nat)
      modifies this
      ensures k == |old(sweeps)| && Value() == Next(old(Value()), Publish(m))
    {
      var entries := Capture();
      var alone := true;
      for i := 0 to |sweeps|
        invariant alone == forall j :: 0 <= j < i ==> sweeps[j].Finished()
      {
        alone := alone && sweeps[i].at == |sweeps[i].entries| && !sweeps[i].calling;
      }
      k := |sweeps|;
      current := m;
      sweeps := PublishedSince(sweeps, m) + [Sweep(m, entries, 0, false, Counts(0, 0, 0, 0), [], 0, {}, alone)];
    }

    method Capture() returns (entries: seq<Entry>)
      ensures entries == Snapshot(registrations, nextId)
    {
      entries := [];
      for i := 0 to nextId
        invariant entries == Snapshot(registrations, i)
      {
        if i in registrations { entries := entries + [Entry(i, registrations[i])]; }
      }
    }

    /** One entry of the sweep up to the call that ends its channel. */
    method CallNext(k: nat) returns (calls: Option<Class>)
      requires k < |sweeps| && !sweeps[k].calling && sweeps[k].at < |sweeps[k].entries|
      modifies this
      ensures Value() == Next(old(Value()), SweepCall(k))
      ensures calls.Some? <==> sweeps[k].calling
    {
      var w := sweeps[k];
      var entry := w.entries[w.at];
      calls := None;
      if entry.id in registrations {
        calls := DispositionOf(entry.channel, Effective(w.policy));
      }
      sweeps := sweeps[k := if calls.Some? then w.(calling := true) else w.(at := w.at + 1)];
    }

    /** The call returned: a channel that was ended leaves the list and is counted; one that was not stays. */
    method CallReturned(k: nat, ok: bool)
      requires k < |sweeps| && sweeps[k].calling && sweeps[k].at < |sweeps[k].entries|
      modifies this
      ensures Value() == Next(old(Value()), SweepReturn(k, ok))
    {
      var w := sweeps[k];
      var entry := w.entries[w.at];
      var reason := DispositionOf(entry.channel, Effective(w.policy));
      if ok && reason.Some? {
        registrations := registrations - {entry.id};
        sweeps := sweeps[k := w.(at := w.at + 1, calling := false, closed := w.closed + [entry.id],
                                 counts := w.counts.Tally(reason.value))];
      } else {
        sweeps := sweeps[k := w.(at := w.at + 1, calling := false, failures := w.failures + 1)];
      }
    }
  }
}
