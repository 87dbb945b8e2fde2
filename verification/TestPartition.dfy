/**
 Which affected packages must run every test and which may run related ones: the
 owner of a file is the affected package with the longest path that contains it.
 What escalates a package, and which changes concern every package, are given.
 */
module TestPartition {
  import opened Prelude

  /** A workspace package by its path. */
  type Package = string

  datatype Mode = NoTests | Affected | Related

  datatype Rules = Rules(global: string -> bool, escalates: string -> bool)

  datatype Partition = Partition(all: seq<Package>, related: seq<Package>)

  predicate Contains(p: Package, file: string) { p + "/" <= file }

  /** A package contains what lies below its path, and no sibling whose name only begins like it. */
  lemma ContainsBelow(p: Package, file: string)
    ensures Contains(p, file) <==> exists rest: string :: file == p + ("/" + rest)
  {
    if Contains(p, file) {
      assert file == p + ("/" + file[|p| + 1..]);
    }
    if rest: string :| file == p + ("/" + rest) {
      assert file[..|p| + 1] == p + "/";
    }
  }

  /** Longest path first, packages of one length in their order: one step of a stable sort. */
  function Insert(sorted: seq<Package>, x: Package): seq<Package> {
    if sorted == [] then [x]
    else if |x| <= |sorted[0]| then [sorted[0]] + Insert(sorted[1..], x)
    else [x] + sorted
  }

  function ByDepth(packages: seq<Package>): seq<Package> {
    if packages == [] then [] else Insert(ByDepth(packages[..|packages| - 1]), packages[|packages| - 1])
  }

  function Find(packages: seq<Package>, file: string): Option<Package> {
    if packages == [] then None
    else if Contains(packages[0], file) then Some(packages[0])
    else Find(packages[1..], file)
  }

  function Owner(packages: seq<Package>, file: string): Option<Package> { Find(ByDepth(packages), file) }

  /** The owners of the escalating changes. */
  function Escalated(r: Rules, changed: seq<string>, affected: seq<Package>): set<Package> {
    set f | f in changed && r.escalates(f) && Owner(affected, f).Some? :: Owner(affected, f).value
  }

  function Filter(packages: seq<Package>, chosen: set<Package>, keep: bool): seq<Package> {
    if packages == [] then []
    else
      var last := packages[|packages| - 1];
      Filter(packages[..|packages| - 1], chosen, keep) + if (last in chosen) == keep then [last] else []
  }

  predicate SomeGlobal(r: Rules, changed: seq<string>) { exists f :: f in changed && r.global(f) }

  function PartitionTests(r: Rules, changed: seq<string>, affected: seq<Package>, mode: Mode): Partition {
    if mode.NoTests? then Partition([], [])
    else if mode.Affected? || SomeGlobal(r, changed) then Partition(affected, [])
    else
      var escalated := Escalated(r, changed, affected);
      Partition(Filter(affected, escalated, true), Filter(affected, escalated, false))
  }

  // ---------------------------------------------------------------------- ownership

  predicate Descending(s: seq<Package>) { forall i, j :: 0 <= i < j < |s| ==> |s[i]| >= |s[j]| }

  lemma {:induction false} InsertDescends(sorted: seq<Package>, x: Package)
    requires Descending(sorted)
    ensures Descending(Insert(sorted, x)) && forall p :: p in Insert(sorted, x) <==> p in sorted || p == x
    decreases |sorted|
  {
    if sorted != [] && |x| <= |sorted[0]| {
      InsertDescends(sorted[1..], x);
      var rest := Insert(sorted[1..], x);
      assert sorted == [sorted[0]] + sorted[1..];
      forall i | 0 <= i < |rest| ensures |sorted[0]| >= |rest[i]| {
        assert rest[i] in rest;
      }
    }
  }

  lemma {:induction false} ByDepthDescends(packages: seq<Package>)
    ensures Descending(ByDepth(packages)) && forall p :: p in ByDepth(packages) <==> p in packages
  {
    if packages != [] {
      var before, last := packages[..|packages| - 1], packages[|packages| - 1];
      ByDepthDescends(before);
      InsertDescends(ByDepth(before), last);
      assert packages == before + [last];
    }
  }

  lemma {:induction false} FindsDeepest(packages: seq<Package>, file: string)
    requires Descending(packages)
    ensures var f := Find(packages, file);
            && (f.None? <==> forall p :: p in packages ==> !Contains(p, file))
            && (f.Some? ==> f.value in packages && Contains(f.value, file)
                            && forall p :: p in packages && Contains(p, file) ==> |p| <= |f.value|)
    decreases |packages|
  {
    if packages != [] {
      assert packages == [packages[0]] + packages[1..];
      FindsDeepest(packages[1..], file);
    }
  }

  /** Of two packages that contain a file, equal length means the same path. */
  lemma SameDepthSamePackage(p: Package, q: Package, file: string)
    requires Contains(p, file) && Contains(q, file) && |p| == |q|
    ensures p == q
  {
    assert forall i :: 0 <= i < |p| ==> p[i] == (p + "/")[i] == file[i] == (q + "/")[i] == q[i];
  }

  /** The affected package with the longest path containing the file. */
  predicate IsOwner(packages: seq<Package>, file: string, p: Package) {
    p in packages && Contains(p, file) && forall q :: q in packages && Contains(q, file) ==> |q| <= |p|
  }

  lemma OwnerIsDeepest(packages: seq<Package>, file: string, p: Package)
    ensures Owner(packages, file) == Some(p) <==> IsOwner(packages, file, p)
  {
    ByDepthDescends(packages);
    FindsDeepest(ByDepth(packages), file);
    var f := Owner(packages, file);
    if IsOwner(packages, file, p) {
      SameDepthSamePackage(p, f.value, file);
    }
  }

  // ---------------------------------------------------------------------- partition

  lemma {:induction false} FilterSplits(packages: seq<Package>, chosen: set<Package>)
    ensures var yes, no := Filter(packages, chosen, true), Filter(packages, chosen, false);
            && (forall p :: p in yes <==> p in packages && p in chosen)
            && (forall p :: p in no <==> p in packages && p !in chosen)
            && multiset(yes) + multiset(no) == multiset(packages)
  {
    if packages != [] {
      var before, last := packages[..|packages| - 1], packages[|packages| - 1];
      FilterSplits(before, chosen);
      assert packages == before + [last];
    }
  }

  /** The part is the packages in their order, with some left out. */
  predicate InOrderOf(part: seq<Package>, packages: seq<Package>) {
    if part == [] then true
    else if packages == [] then false
    else if part[|part| - 1] == packages[|packages| - 1]
    then InOrderOf(part[..|part| - 1], packages[..|packages| - 1]) || InOrderOf(part, packages[..|packages| - 1])
    else InOrderOf(part, packages[..|packages| - 1])
  }

  lemma {:induction false} FilterInOrder(packages: seq<Package>, chosen: set<Package>, keep: bool)
    ensures InOrderOf(Filter(packages, chosen, keep), packages)
  {
    if packages != [] {
      var before, part := packages[..|packages| - 1], Filter(packages, chosen, keep);
      FilterInOrder(before, chosen, keep);
      if |part| > |Filter(before, chosen, keep)| {
        assert part[..|part| - 1] == Filter(before, chosen, keep);
      } else {
        assert part == Filter(before, chosen, keep);
      }
    }
  }

  lemma {:induction false} AllInOrder(packages: seq<Package>)
    ensures InOrderOf(packages, packages)
  {
    if packages != [] { AllInOrder(packages[..|packages| - 1]); }
  }

  /** Whenever tests run, every affected package is in exactly one part, as often as it is given, and each part keeps the order. */
  lemma PartitionIsExact(r: Rules, changed: seq<string>, affected: seq<Package>, mode: Mode)
    requires !mode.NoTests?
    ensures var t := PartitionTests(r, changed, affected, mode);
            && multiset(t.all) + multiset(t.related) == multiset(affected)
            && (forall p :: p in t.all ==> p !in t.related)
            && InOrderOf(t.all, affected) && InOrderOf(t.related, affected)
  {
    var escalated := Escalated(r, changed, affected);
    FilterSplits(affected, escalated);
    FilterInOrder(affected, escalated, true);
    FilterInOrder(affected, escalated, false);
    AllInOrder(affected);
  }

  /**
   In related mode without a global change a package runs every test exactly when
   some escalating change lies in it and in no deeper affected package.
   */
  lemma RunsAllExactly(r: Rules, changed: seq<string>, affected: seq<Package>, p: Package)
    requires forall f :: f in changed ==> !r.global(f)
    ensures p in PartitionTests(r, changed, affected, Related).all
            <==> exists f :: f in changed && r.escalates(f) && IsOwner(affected, f, p)
  {
    var escalated := Escalated(r, changed, affected);
    FilterSplits(affected, escalated);
    forall f ensures Owner(affected, f) == Some(p) <==> IsOwner(affected, f, p) {
      OwnerIsDeepest(affected, f, p);
    }
    if p in escalated {
      var f :| f in changed && r.escalates(f) && Owner(affected, f).Some? && Owner(affected, f).value == p;
      assert IsOwner(affected, f, p);
    }
  }

  /** When one change concerns every package, or the mode says so, every affected package runs every test; without tests nothing runs. */
  lemma EverythingRunsExactly(r: Rules, changed: seq<string>, affected: seq<Package>, mode: Mode)
    ensures var t := PartitionTests(r, changed, affected, mode);
            && (mode == NoTests ==> t.all == [] && t.related == [])
            && (mode == Affected || (mode == Related && exists f :: f in changed && r.global(f)) ==>
                  t.all == affected && t.related == [])
            && (mode == Related && (forall f :: f in changed ==> !r.global(f)) ==>
                  forall p :: p in t.related <==> p in affected && p !in t.all)
  {
    FilterSplits(affected, Escalated(r, changed, affected));
  }

  /** Only which changes and which packages there are matters, not their order or repetition. */
  lemma OrderDoesNotMatter(r: Rules, changed: seq<string>, changed': seq<string>, affected: seq<Package>, affected': seq<Package>,
                           mode: Mode, p: Package)
    requires (forall f :: f in changed <==> f in changed') && (forall q :: q in affected <==> q in affected')
    ensures p in PartitionTests(r, changed, affected, mode).all <==> p in PartitionTests(r, changed', affected', mode).all
    ensures p in PartitionTests(r, changed, affected, mode).related <==> p in PartitionTests(r, changed', affected', mode).related
  {
    assert SomeGlobal(r, changed) <==> SomeGlobal(r, changed');
    if mode.Related? && !SomeGlobal(r, changed) {
      RunsAllExactly(r, changed, affected, p);
      RunsAllExactly(r, changed', affected', p);
      assert forall f :: IsOwner(affected, f, p) <==> IsOwner(affected', f, p);
      FilterSplits(affected, Escalated(r, changed, affected));
      FilterSplits(affected', Escalated(r, changed', affected'));
    }
  }

  /** More changes only ever move packages from the related part to the other. */
  lemma MoreChangesEscalateMore(r: Rules, changed: seq<string>, more: seq<string>, affected: seq<Package>, p: Package)
    requires forall f :: f in changed ==> f in more
    ensures p in PartitionTests(r, changed, affected, Related).all ==> p in PartitionTests(r, more, affected, Related).all
    ensures p in PartitionTests(r, more, affected, Related).related ==> p in PartitionTests(r, changed, affected, Related).related
  {
    FilterSplits(affected, Escalated(r, changed, affected));
    FilterSplits(affected, Escalated(r, more, affected));
    assert Escalated(r, changed, affected) <= Escalated(r, more, affected);
  }
}
