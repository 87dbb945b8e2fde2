/**
 Release tags: their two parsers, the order of versions, and the search for the
 previous tag of a channel. How two alphanumeric identifiers compare is a
 parameter; all that is asked of it is that it is a total preorder.
 */
module ReleaseTags {
  import opened Prelude

  // ------------------------------------------------------------------- orders

  /** A comparison by sign that is antisymmetric and transitive. */
  ghost predicate TotalPreorder<T(!new)>(compare: (T, T) -> int) {
    && (forall a, b :: compare(a, b) < 0 <==> compare(b, a) > 0)
    && (forall a, b, c :: compare(a, b) <= 0 && compare(b, c) <= 0 ==> compare(a, c) <= 0)
  }

  // ------------------------------------------------------------------- numbers

  predicate IsDigit(c: char) { '0' <= c <= '9' }

  predicate AllDigits(s: string) { forall i :: 0 <= i < |s| ==> IsDigit(s[i]) }

  predicate Numeral(s: string) { s != "" && AllDigits(s) }

  function Number(s: string): nat
    requires AllDigits(s)
  {
    if s == "" then 0 else Number(s[..|s| - 1]) * 10 + (s[|s| - 1] - '0') as nat
  }

  function Decimal(n: nat): (s: string)
    ensures Numeral(s)
  {
    var last := ('0' as int + n % 10) as char;
    if n < 10 then [last] else Decimal(n / 10) + [last]
  }

  lemma {:induction false} DecimalReads(n: nat)
    ensures Number(Decimal(n)) == n
    decreases n
  {
    var s := Decimal(n);
    if n >= 10 {
      DecimalReads(n / 10);
      assert s[..|s| - 1] == Decimal(n / 10);
    } else {
      assert s[..0] == "";
    }
  }

  // ------------------------------------------------------------------- versions

  datatype Stable = Stable(major: nat, minor: nat, patch: nat, prerelease: seq<string>)

  datatype Nightly = Nightly(major: nat, minor: nat, patch: nat, date: nat, run: nat)

  function CompareIdentifiers(collate: (string, string) -> int, a: string, b: string): int {
    if Numeral(a) && Numeral(b) then Number(a) - Number(b)
    else if Numeral(a) then -1
    else if Numeral(b) then 1
    else collate(a, b)
  }

  /** The first identifier that tells the two apart, from index i on; running out first is less. */
  function CompareFrom(collate: (string, string) -> int, a: seq<string>, b: seq<string>, i: nat): int
    requires i <= |a| && i <= |b|
    decreases |a| - i
  {
    if i == |a| && i == |b| then 0
    else if i == |a| then -1
    else if i == |b| then 1
    else
      var c := CompareIdentifiers(collate, a[i], b[i]);
      if c != 0 then c else CompareFrom(collate, a, b, i + 1)
  }

  function CompareStable(collate: (string, string) -> int, a: Stable, b: Stable): int {
    if a.major != b.major then a.major - b.major
    else if a.minor != b.minor then a.minor - b.minor
    else if a.patch != b.patch then a.patch - b.patch
    else if a.prerelease == [] && b.prerelease == [] then 0
    else if a.prerelease == [] then 1
    else if b.prerelease == [] then -1
    else CompareFrom(collate, a.prerelease, b.prerelease, 0)
  }

  function CompareNightly(a: Nightly, b: Nightly): int {
    if a.major != b.major then a.major - b.major
    else if a.minor != b.minor then a.minor - b.minor
    else if a.patch != b.patch then a.patch - b.patch
    else if a.date != b.date then a.date - b.date
    else a.run - b.run
  }

  method CompareStableVersions(collate: (string, string) -> int, left: Stable, right: Stable) returns (c: int)
    ensures c == CompareStable(collate, left, right)
  {
    if left.major != right.major { return left.major - right.major; }
    if left.minor != right.minor { return left.minor - right.minor; }
    if left.patch != right.patch { return left.patch - right.patch; }
    var a, b := left.prerelease, right.prerelease;
    if |a| == 0 && |b| == 0 { return 0; }
    if |a| == 0 { return 1; }
    if |b| == 0 { return -1; }
    var maxLength := if |a| > |b| then |a| else |b|;
    for index := 0 to maxLength
      invariant index <= |a| && index <= |b|
      invariant CompareFrom(collate, a, b, 0) == CompareFrom(collate, a, b, index)
    {
      if index >= |a| { return -1; }
      if index >= |b| { return 1; }
      var comparison := CompareIdentifiers(collate, a[index], b[index]);
      if comparison != 0 { return comparison; }
    }
    return 0;
  }

  lemma IdentifiersPreorder(collate: (string, string) -> int, a: string, b: string, c: string)
    requires TotalPreorder(collate)
    ensures CompareIdentifiers(collate, a, b) < 0 <==> CompareIdentifiers(collate, b, a) > 0
    ensures CompareIdentifiers(collate, a, b) <= 0 && CompareIdentifiers(collate, b, c) <= 0 ==>
              CompareIdentifiers(collate, a, c) <= 0
  {
    if !Numeral(a) && !Numeral(b) {
      assert collate(a, b) < 0 <==> collate(b, a) > 0;
      if !Numeral(c) && collate(a, b) <= 0 && collate(b, c) <= 0 {
        assert collate(a, c) <= 0;
      }
    }
  }

  lemma {:induction false} FromAntisymmetric(collate: (string, string) -> int, a: seq<string>, b: seq<string>, i: nat)
    requires TotalPreorder(collate) && i <= |a| && i <= |b|
    ensures CompareFrom(collate, a, b, i) < 0 <==> CompareFrom(collate, b, a, i) > 0
    decreases |a| - i
  {
    if i < |a| && i < |b| {
      IdentifiersPreorder(collate, a[i], b[i], b[i]);
      IdentifiersPreorder(collate, b[i], a[i], a[i]);
      FromAntisymmetric(collate, a, b, i + 1);
    }
  }

  lemma {:induction false} FromTransitive(collate: (string, string) -> int, a: seq<string>, b: seq<string>, c: seq<string>, i: nat)
    requires TotalPreorder(collate) && i <= |a| && i <= |b| && i <= |c|
    requires CompareFrom(collate, a, b, i) <= 0 && CompareFrom(collate, b, c, i) <= 0
    ensures CompareFrom(collate, a, c, i) <= 0
    decreases |a| - i
  {
    if i < |a| && i < |b| && i < |c| {
      IdentifiersPreorder(collate, a[i], b[i], c[i]);
      IdentifiersPreorder(collate, b[i], c[i], a[i]);
      IdentifiersPreorder(collate, c[i], a[i], b[i]);
      IdentifiersPreorder(collate, b[i], a[i], c[i]);
      IdentifiersPreorder(collate, c[i], b[i], a[i]);
      IdentifiersPreorder(collate, a[i], c[i], b[i]);
      if CompareIdentifiers(collate, a[i], b[i]) == 0 && CompareIdentifiers(collate, b[i], c[i]) == 0 {
        FromTransitive(collate, a, b, c, i + 1);
      }
    }
  }

  /** Version precedence is a total preorder whenever the comparison of alphanumeric identifiers is one. */
  lemma PrecedenceIsTotalPreorder(collate: (string, string) -> int)
    requires TotalPreorder(collate)
    ensures TotalPreorder((a: Stable, b: Stable) => CompareStable(collate, a, b))
  {
    forall a: Stable, b: Stable ensures CompareStable(collate, a, b) < 0 <==> CompareStable(collate, b, a) > 0 {
      FromAntisymmetric(collate, a.prerelease, b.prerelease, 0);
    }
    forall a: Stable, b: Stable, c: Stable | CompareStable(collate, a, b) <= 0 && CompareStable(collate, b, c) <= 0
      ensures CompareStable(collate, a, c) <= 0
    {
      if CompareFrom(collate, a.prerelease, b.prerelease, 0) <= 0 && CompareFrom(collate, b.prerelease, c.prerelease, 0) <= 0 {
        FromTransitive(collate, a.prerelease, b.prerelease, c.prerelease, 0);
      }
    }
  }

  /** The numbers of the core, most significant first. */
  predicate CoreBefore(a: Stable, b: Stable) {
    a.major < b.major || (a.major == b.major && (a.minor < b.minor || (a.minor == b.minor && a.patch < b.patch)))
  }

  predicate SameCore(a: Stable, b: Stable) { a.major == b.major && a.minor == b.minor && a.patch == b.patch }

  /** Numerals by value and below every word; words as the host collates them. */
  predicate IdentifierBelow(collate: (string, string) -> int, p: string, q: string) {
    if Numeral(p) then (if Numeral(q) then Number(p) < Number(q) else true) else !Numeral(q) && collate(p, q) < 0
  }

  /** The lists agree before index k. */
  ghost predicate SameUpTo(collate: (string, string) -> int, a: seq<string>, b: seq<string>, i: nat, k: nat) {
    i <= k <= |a| && k <= |b| && forall j :: i <= j < k ==> CompareIdentifiers(collate, a[j], b[j]) == 0
  }

  /** The first identifier that differs puts a below b, or a runs out first. */
  ghost predicate DecidedAt(collate: (string, string) -> int, a: seq<string>, b: seq<string>, i: nat, k: nat) {
    SameUpTo(collate, a, b, i, k) && k < |b| && (k == |a| || IdentifierBelow(collate, a[k], b[k]))
  }

  lemma DecidedLater(collate: (string, string) -> int, a: seq<string>, b: seq<string>, i: nat, k: nat)
    requires i < |a| && i < |b| && CompareIdentifiers(collate, a[i], b[i]) == 0
    ensures DecidedAt(collate, a, b, i, k) <==> DecidedAt(collate, a, b, i + 1, k)
  {
    if i + 1 <= k && DecidedAt(collate, a, b, i + 1, k) {
      assert forall j :: i <= j < k ==> CompareIdentifiers(collate, a[j], b[j]) == 0;
    }
  }

  lemma {:induction false} ListsDecided(collate: (string, string) -> int, a: seq<string>, b: seq<string>, i: nat)
    requires TotalPreorder(collate) && i <= |a| && i <= |b|
    ensures CompareFrom(collate, a, b, i) < 0 <==> exists k :: DecidedAt(collate, a, b, i, k)
    decreases |a| - i
  {
    if i == |a| || i == |b| || CompareIdentifiers(collate, a[i], b[i]) != 0 {
      if CompareFrom(collate, a, b, i) < 0 { assert DecidedAt(collate, a, b, i, i); }
      forall k | DecidedAt(collate, a, b, i, k) ensures k == i {}
    } else {
      ListsDecided(collate, a, b, i + 1);
      IdentifiersPreorder(collate, a[i], b[i], b[i]);
      assert !IdentifierBelow(collate, a[i], b[i]);
      if k: nat :| DecidedAt(collate, a, b, i, k) {
        DecidedLater(collate, a, b, i, k);
      }
      var next := i + 1;
      if k: nat :| DecidedAt(collate, a, b, next, k) {
        DecidedLater(collate, a, b, i, k);
      }
    }
  }

  /**
   The rules of precedence: the core decides; of one core a release is above every
   prerelease of it; and two prereleases are decided by the first identifier that
   differs - numerals by value, below words - or by the shorter list being the lower.
   */
  lemma PrecedenceDecided(collate: (string, string) -> int, a: Stable, b: Stable)
    requires TotalPreorder(collate)
    ensures CompareStable(collate, a, b) < 0 <==>
              || CoreBefore(a, b)
              || (SameCore(a, b) && a.prerelease != [] && b.prerelease == [])
              || (SameCore(a, b) && a.prerelease != [] && b.prerelease != []
                  && exists k :: DecidedAt(collate, a.prerelease, b.prerelease, 0, k))
  {
    ListsDecided(collate, a.prerelease, b.prerelease, 0);
  }

  lemma NightlyIsTotalPreorder()
    ensures TotalPreorder(CompareNightly)
  {}

  // -------------------------------------------------------------------- previous

  datatype Tagged<V> = Tagged(tag: string, version: V)

  /** The tags that parse, below the current version, in their order. */
  function Candidates<V>(tags: seq<string>, parse: string -> Option<V>, compare: (V, V) -> int, current: V): seq<Tagged<V>> {
    if tags == [] then []
    else
      var last := tags[|tags| - 1];
      var parsed := parse(last);
      Candidates(tags[..|tags| - 1], parse, compare, current)
      + if parsed.Some? && compare(parsed.value, current) < 0 then [Tagged(last, parsed.value)] else []
  }

  /** Into a list sorted greatest first, after everything it does not exceed: the step of a stable sort. */
  function Insert<V>(sorted: seq<Tagged<V>>, x: Tagged<V>, compare: (V, V) -> int): seq<Tagged<V>> {
    if sorted == [] then [x]
    else if compare(x.version, sorted[0].version) <= 0 then [sorted[0]] + Insert(sorted[1..], x, compare)
    else [x] + sorted
  }

  function SortedDescending<V>(s: seq<Tagged<V>>, compare: (V, V) -> int): (r: seq<Tagged<V>>)
    ensures |r| == 0 <==> |s| == 0
  {
    if s == [] then [] else Insert(SortedDescending(s[..|s| - 1], compare), s[|s| - 1], compare)
  }

  function Previous<V>(tags: seq<string>, parse: string -> Option<V>, compare: (V, V) -> int, current: V): Option<string> {
    var sorted := SortedDescending(Candidates(tags, parse, compare, current), compare);
    if sorted == [] then None else Some(sorted[0].tag)
  }

  /** The head of the sorted list is a greatest element, and the first of those in the original order. */
  ghost predicate IsFirstGreatest<V(!new)>(s: seq<Tagged<V>>, compare: (V, V) -> int, k: nat) {
    && k < |s|
    && (forall j :: 0 <= j < |s| ==> compare(s[j].version, s[k].version) <= 0)
    && (forall j :: 0 <= j < k ==> compare(s[j].version, s[k].version) < 0)
  }

  lemma BelowAtMost<V(!new)>(a: V, b: V, c: V, compare: (V, V) -> int)
    requires TotalPreorder(compare) && compare(a, b) <= 0 && compare(b, c) < 0
    ensures compare(a, c) < 0
  {
    assert compare(c, a) <= 0 && compare(a, b) <= 0 ==> compare(c, b) <= 0;
  }

  lemma Reflexive<V(!new)>(a: V, compare: (V, V) -> int)
    requires TotalPreorder(compare)
    ensures compare(a, a) == 0
  {}

  lemma NewGreatest<V(!new)>(before: seq<Tagged<V>>, last: Tagged<V>, compare: (V, V) -> int, k: nat)
    requires TotalPreorder(compare) && IsFirstGreatest(before, compare, k)
    ensures if compare(last.version, before[k].version) <= 0 then IsFirstGreatest(before + [last], compare, k)
            else IsFirstGreatest(before + [last], compare, |before|)
  {
    var s := before + [last];
    if compare(last.version, before[k].version) <= 0 {
      assert forall j :: 0 <= j < |before| ==> s[j] == before[j];
    } else {
      Reflexive(last.version, compare);
      forall j | 0 <= j < |before| ensures compare(s[j].version, last.version) < 0 {
        BelowAtMost(before[j].version, before[k].version, last.version, compare);
      }
    }
  }

  lemma {:induction false} HeadIsFirstGreatest<V(!new)>(s: seq<Tagged<V>>, compare: (V, V) -> int) returns (k: nat)
    requires TotalPreorder(compare) && s != []
    ensures IsFirstGreatest(s, compare, k) && SortedDescending(s, compare)[0] == s[k]
    decreases |s|
  {
    var before, last := s[..|s| - 1], s[|s| - 1];
    assert s == before + [last];
    if before == [] {
      k := 0;
      Reflexive(last.version, compare);
    } else {
      k := HeadIsFirstGreatest(before, compare);
      NewGreatest(before, last, compare, k);
      if compare(last.version, before[k].version) > 0 { k := |s| - 1; }
    }
  }

  lemma {:induction false} CandidatesAre<V>(tags: seq<string>, parse: string -> Option<V>, compare: (V, V) -> int, current: V)
    ensures var s := Candidates(tags, parse, compare, current);
            && (forall j :: 0 <= j < |s| ==> s[j].tag in tags && parse(s[j].tag) == Some(s[j].version)
                                             && compare(s[j].version, current) < 0)
            && (forall t :: t in tags && parse(t).Some? && compare(parse(t).value, current) < 0 ==>
                  Tagged(t, parse(t).value) in s)
    decreases |tags|
  {
    if tags != [] {
      CandidatesAre(tags[..|tags| - 1], parse, compare, current);
    }
  }

  /** A tag of the channel strictly below the current version. */
  predicate Below<V>(t: string, parse: string -> Option<V>, compare: (V, V) -> int, current: V) {
    parse(t).Some? && compare(parse(t).value, current) < 0
  }

  /** The tag is in the list and strictly below, and no tag that is either exceeds it. */
  ghost predicate IsGreatestBelow<V(!new)>(tags: seq<string>, parse: string -> Option<V>, compare: (V, V) -> int, current: V, p: string) {
    && p in tags && Below(p, parse, compare, current)
    && forall t :: t in tags && Below(t, parse, compare, current) ==> compare(parse(t).value, parse(p).value) <= 0
  }

  lemma NoCandidates<V(!new)>(tags: seq<string>, parse: string -> Option<V>, compare: (V, V) -> int, current: V)
    requires Candidates(tags, parse, compare, current) == []
    ensures forall t :: t in tags ==> !Below(t, parse, compare, current)
  {
    CandidatesAre(tags, parse, compare, current);
    forall t | t in tags ensures !Below(t, parse, compare, current) {}
  }

  lemma GreatestCandidate<V(!new)>(tags: seq<string>, parse: string -> Option<V>, compare: (V, V) -> int, current: V, k: nat)
    requires IsFirstGreatest(Candidates(tags, parse, compare, current), compare, k)
    ensures IsGreatestBelow(tags, parse, compare, current, Candidates(tags, parse, compare, current)[k].tag)
  {
    CandidatesAre(tags, parse, compare, current);
    var s := Candidates(tags, parse, compare, current);
    forall t | t in tags && Below(t, parse, compare, current) ensures compare(parse(t).value, s[k].version) <= 0 {
      var j :| 0 <= j < |s| && s[j] == Tagged(t, parse(t).value);
    }
  }

  /** The previous tag is a greatest tag strictly below the current one, and is missing exactly when there is none. */
  lemma PreviousIsGreatestBelow<V(!new)>(tags: seq<string>, parse: string -> Option<V>, compare: (V, V) -> int, current: V)
    requires TotalPreorder(compare)
    ensures var p := Previous(tags, parse, compare, current);
            && (p.None? <==> forall t :: t in tags ==> !Below(t, parse, compare, current))
            && (p.Some? ==> IsGreatestBelow(tags, parse, compare, current, p.value))
  {
    var s := Candidates(tags, parse, compare, current);
    if s == [] {
      NoCandidates(tags, parse, compare, current);
    } else {
      var k := HeadIsFirstGreatest(s, compare);
      GreatestCandidate(tags, parse, compare, current, k);
    }
  }

  // -------------------------------------------------------------------- iteration

  function CountBelow<V>(tags: seq<string>, parse: string -> Option<V>, compare: (V, V) -> int, current: V): nat {
    |Candidates(tags, parse, compare, current)|
  }

  lemma {:induction false} FewerBelow<V(!new)>(tags: seq<string>, parse: string -> Option<V>, compare: (V, V) -> int,
                                               lower: V, current: V)
    requires TotalPreorder(compare) && compare(lower, current) < 0
    ensures CountBelow(tags, parse, compare, lower) <= CountBelow(tags, parse, compare, current)
    ensures (exists t :: t in tags && parse(t) == Some(lower)) ==>
              CountBelow(tags, parse, compare, lower) < CountBelow(tags, parse, compare, current)
    decreases |tags|
  {
    if tags != [] {
      var before, last := tags[..|tags| - 1], tags[|tags| - 1];
      FewerBelow(before, parse, compare, lower, current);
      assert tags == before + [last];
      if parse(last).Some? {
        var v := parse(last).value;
        assert compare(v, lower) < 0 ==> compare(v, current) <= 0;
        assert compare(current, v) <= 0 && compare(v, lower) <= 0 ==> compare(current, lower) <= 0;
        assert compare(lower, lower) == 0;
      }
    }
  }

  /** Previous tag after previous tag, down from the current version. */
  ghost function Walk<V(!new)>(tags: seq<string>, parse: string -> Option<V>, compare: (V, V) -> int, current: V): seq<string>
    requires TotalPreorder(compare)
    decreases CountBelow(tags, parse, compare, current)
  {
    var p := Previous(tags, parse, compare, current);
    if p.None? then []
    else
      PreviousIsGreatestBelow(tags, parse, compare, current);
      FewerBelow(tags, parse, compare, parse(p.value).value, current);
      [p.value] + Walk(tags, parse, compare, parse(p.value).value)
  }

  /** Each tag strictly below the one before it, all of them in the list and below the start. */
  ghost predicate GoesDown<V(!new)>(w: seq<string>, tags: seq<string>, parse: string -> Option<V>, compare: (V, V) -> int, from: V) {
    w == [] || (w[0] in tags && Below(w[0], parse, compare, from)
                && GoesDown(w[1..], tags, parse, compare, parse(w[0]).value))
  }

  /** Some tag of the walk has the version's precedence. */
  ghost predicate Meets<V(!new)>(w: seq<string>, parse: string -> Option<V>, compare: (V, V) -> int, v: V) {
    exists i :: 0 <= i < |w| && parse(w[i]).Some? && compare(v, parse(w[i]).value) == 0
  }

  /** Walking down ends, goes strictly down, and meets every version below the start, so it meets each class exactly once. */
  lemma {:induction false} WalkVisitsEachClassOnce<V(!new)>(tags: seq<string>, parse: string -> Option<V>,
                                                            compare: (V, V) -> int, current: V, t: string)
    requires TotalPreorder(compare)
    ensures GoesDown(Walk(tags, parse, compare, current), tags, parse, compare, current)
    ensures t in tags && Below(t, parse, compare, current) ==>
              Meets(Walk(tags, parse, compare, current), parse, compare, parse(t).value)
    decreases CountBelow(tags, parse, compare, current)
  {
    var p := Previous(tags, parse, compare, current);
    PreviousIsGreatestBelow(tags, parse, compare, current);
    if p.Some? {
      var v := parse(p.value).value;
      FewerBelow(tags, parse, compare, v, current);
      WalkVisitsEachClassOnce(tags, parse, compare, v, t);
      var w, rest := Walk(tags, parse, compare, current), Walk(tags, parse, compare, v);
      assert w == [p.value] + rest && w[1..] == rest;
      if t in tags && Below(t, parse, compare, current) {
        if compare(parse(t).value, v) == 0 {
          assert w[0] == p.value;
        } else {
          MeetsLater(w, parse, compare, parse(t).value);
        }
      }
    }
  }

  lemma MeetsLater<V(!new)>(w: seq<string>, parse: string -> Option<V>, compare: (V, V) -> int, v: V)
    requires w != [] && Meets(w[1..], parse, compare, v)
    ensures Meets(w, parse, compare, v)
  {
    var i :| 0 <= i < |w[1..]| && parse(w[1..][i]).Some? && compare(v, parse(w[1..][i]).value) == 0;
    assert w[i + 1] == w[1..][i];
  }

  /** Going down means no two tags of the walk share a precedence. */
  lemma {:induction false} GoesDownDistinct<V(!new)>(w: seq<string>, tags: seq<string>, parse: string -> Option<V>,
                                                     compare: (V, V) -> int, from: V, i: nat, j: nat)
    requires TotalPreorder(compare) && GoesDown(w, tags, parse, compare, from) && i < j < |w|
    ensures parse(w[i]).Some? && Below(w[j], parse, compare, parse(w[i]).value)
  {
    var v := parse(w[0]).value;
    if i > 0 {
      GoesDownDistinct(w[1..], tags, parse, compare, v, i - 1, j - 1);
    } else if j > 1 {
      GoesDownDistinct(w[1..], tags, parse, compare, v, 0, j - 1);
      BelowAtMost(parse(w[j]).value, parse(w[1]).value, v, compare);
    } else {
      assert w[1..][0] == w[1];
    }
  }
}
