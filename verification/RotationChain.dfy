/**
 Identity continuity: certificates by which each outgoing key hands over to the
 next, the store that appends and prunes them, and the verifier's walk from its
 pin. Signatures and fingerprints are ideal: a signature is its key and message,
 a fingerprint its key.
 */
module RotationChain {
  import opened Prelude

  type Key = nat

  datatype Certificate = Certificate(origin: nat, continuity: nat, generation: nat, oldKey: Key, newKey: Key)

  datatype Signature = SignedBy(key: Key, message: Certificate) | NoSignature

  datatype Entry = Entry(certificate: Certificate, signature: Signature) | Malformed

  const CHAIN_MAX: nat := 8

  // ------------------------------------------------------------------ validation

  datatype Failure =
    | ChainTooLong | MalformedEntry | InvalidIdentityKey | OriginMismatch | ContinuityMismatch
    | GenerationNotConsecutive | LinkMismatch | InvalidSignature | IdentityKeyMismatch | PinNotReached

  /** What the statement around the chain says; an identity key the protocol cannot represent is `None`. */
  datatype Statement = Statement(origin: nat, continuity: nat, identity: Option<Key>)

  /** The first thing wrong with entry i, given that everything before it was right. */
  function FaultAt(chain: seq<Entry>, st: Statement, i: nat): Option<Failure>
    requires i < |chain| && (i > 0 ==> chain[i - 1].Entry?)
  {
    if chain[i].Malformed? then Some(MalformedEntry)
    else
      var c := chain[i].certificate;
      if c.origin != st.origin then Some(OriginMismatch)
      else if c.continuity != st.continuity then Some(ContinuityMismatch)
      else if i > 0 && c.generation != chain[i - 1].certificate.generation + 1 then Some(GenerationNotConsecutive)
      else if i > 0 && c.oldKey != chain[i - 1].certificate.newKey then Some(LinkMismatch)
      else if chain[i].signature != SignedBy(c.oldKey, c) then Some(InvalidSignature)
      else None
  }

  /** The walk over the first n entries: the first fault, if any. */
  function Walk(chain: seq<Entry>, st: Statement, n: nat): (fault: Option<Failure>)
    requires n <= |chain|
    ensures fault.None? ==> forall i :: 0 <= i < n ==> chain[i].Entry?
  {
    if n == 0 then None
    else
      var before := Walk(chain, st, n - 1);
      if before.Some? then before else FaultAt(chain, st, n - 1)
  }

  /** Whether the pin, reached, was already current; nothing without a pin. */
  function Verdict(chain: seq<Entry>, st: Statement, pin: Option<Key>): Result<Option<bool>, Failure> {
    if |chain| > CHAIN_MAX then Err(ChainTooLong)
    else if st.identity.None? then Err(InvalidIdentityKey)
    else
      var fault := Walk(chain, st, |chain|);
      if fault.Some? then Err(fault.value)
      else if chain != [] && chain[|chain| - 1].certificate.newKey != st.identity.value then Err(IdentityKeyMismatch)
      else if pin.None? then Ok(None)
      else if pin == st.identity then Ok(Some(true))
      else if exists i :: 0 <= i < |chain| && chain[i].certificate.oldKey == pin.value then Ok(Some(false))
      else Err(PinNotReached)
  }

  method Validate(chain: seq<Entry>, st: Statement, pin: Option<Key>) returns (r: Result<Option<bool>, Failure>)
    ensures r == Verdict(chain, st, pin)
  {
    if |chain| > CHAIN_MAX { return Err(ChainTooLong); }
    if st.identity.None? { return Err(InvalidIdentityKey); }
    var previous: Option<Certificate> := None;
    for i := 0 to |chain|
      invariant Walk(chain, st, i) == None
      invariant previous == if i == 0 then None else Some(chain[i - 1].certificate)
    {
      assert Walk(chain, st, i + 1) == FaultAt(chain, st, i);
      ghost var stuck := Walk(chain, st, i + 1);
      if stuck.Some? { WalkStops(chain, st, i + 1, |chain|); }
      if chain[i].Malformed? { return Err(MalformedEntry); }
      var c := chain[i].certificate;
      if c.origin != st.origin { return Err(OriginMismatch); }
      if c.continuity != st.continuity { return Err(ContinuityMismatch); }
      if previous.Some? {
        if c.generation != previous.value.generation + 1 { return Err(GenerationNotConsecutive); }
        if c.oldKey != previous.value.newKey { return Err(LinkMismatch); }
      }
      if chain[i].signature != SignedBy(c.oldKey, c) { return Err(InvalidSignature); }
      previous := Some(c);
    }
    if previous.Some? && previous.value.newKey != st.identity.value { return Err(IdentityKeyMismatch); }
    if pin.None? { return Ok(None); }
    if pin == st.identity { return Ok(Some(true)); }
    for i := 0 to |chain|
      invariant forall j :: 0 <= j < i ==> chain[j].certificate.oldKey != pin.value
    {
      if chain[i].certificate.oldKey == pin.value { return Ok(Some(false)); }
    }
    return Err(PinNotReached);
  }

  lemma {:induction false} WalkStops(chain: seq<Entry>, st: Statement, n: nat, m: nat)
    requires n <= m <= |chain| && Walk(chain, st, n).Some?
    ensures Walk(chain, st, m) == Walk(chain, st, n)
    decreases m
  {
    if n < m { WalkStops(chain, st, n, m - 1); }
  }

  /** An entry on its own identity's chain, signed by its outgoing key, and next in line after the one before it. */
  predicate LinkHolds(chain: seq<Entry>, st: Statement, i: nat)
    requires i < |chain|
  {
    && chain[i].Entry?
    && (var c := chain[i].certificate;
        && c.origin == st.origin && c.continuity == st.continuity && chain[i].signature == SignedBy(c.oldKey, c)
        && (i > 0 ==>
              && chain[i - 1].Entry? && c.generation == chain[i - 1].certificate.generation + 1
              && c.oldKey == chain[i - 1].certificate.newKey))
  }

  /** The first n links hold. */
  predicate LinkedTo(chain: seq<Entry>, st: Statement, n: nat)
    requires n <= |chain|
  {
    forall i {:trigger LinkHolds(chain, st, i)} :: 0 <= i < n ==> LinkHolds(chain, st, i)
  }

  /** A chain every link of which holds. */
  predicate Linked(chain: seq<Entry>, st: Statement) {
    (forall i :: 0 <= i < |chain| ==> chain[i].Entry?) && LinkedTo(chain, st, |chain|)
  }

  lemma FaultlessIsLinked(chain: seq<Entry>, st: Statement, i: nat)
    requires i < |chain| && (i > 0 ==> chain[i - 1].Entry?)
    ensures FaultAt(chain, st, i).None? <==> LinkHolds(chain, st, i)
  {}

  lemma {:induction false} WalkIsLinked(chain: seq<Entry>, st: Statement, n: nat)
    requires n <= |chain|
    ensures Walk(chain, st, n).None? <==> LinkedTo(chain, st, n)
  {
    if n > 0 {
      WalkIsLinked(chain, st, n - 1);
      if Walk(chain, st, n - 1).None? { FaultlessIsLinked(chain, st, n - 1); }
    }
  }

  /** Acceptance, said without the walk: length, links, the current key at the end, and the pin on the way. */
  lemma AcceptedExactly(chain: seq<Entry>, st: Statement, pin: Option<Key>)
    ensures Verdict(chain, st, pin).Ok?
            <==> && |chain| <= CHAIN_MAX && st.identity.Some? && Linked(chain, st)
                 && (chain != [] ==> chain[|chain| - 1].certificate.newKey == st.identity.value)
                 && (pin.Some? ==> pin == st.identity || exists i :: 0 <= i < |chain| && chain[i].certificate.oldKey == pin.value)
  {
    WalkIsLinked(chain, st, |chain|);
    if LinkedTo(chain, st, |chain|) { LinkedEntries(chain, st); }
  }

  lemma LinkedEntries(chain: seq<Entry>, st: Statement)
    requires LinkedTo(chain, st, |chain|)
    ensures forall i :: 0 <= i < |chain| ==> chain[i].Entry?
  {
    forall i | 0 <= i < |chain| ensures chain[i].Entry? { assert LinkHolds(chain, st, i); }
  }

  // --------------------------------------------------------------------- lineage

  /** One hub origin and continuity id, every key the node ever had, oldest first, and the first generation. */
  datatype History = History(origin: nat, continuity: nat, keys: seq<Key>, first: nat) {
    predicate Valid() { |keys| > 0 && forall i, j :: 0 <= i < j < |keys| ==> keys[i] != keys[j] }

    function Rotations(): nat
      requires |keys| > 0
    {
      |keys| - 1
    }

    function Cert(i: nat): Certificate
      requires i + 1 < |keys|
    {
      Certificate(origin, continuity, first + i, keys[i], keys[i + 1])
    }

    /** The i-th rotation, signed by the key it rotates away from. */
    function Link(i: nat): Entry
      requires i + 1 < |keys|
    {
      Entry(Cert(i), SignedBy(keys[i], Cert(i)))
    }

    /** Rotations a up to b. */
    function Slice(a: nat, b: nat): (s: seq<Entry>)
      requires a <= b < |keys|
      ensures |s| == b - a && forall i :: 0 <= i < b - a ==> s[i] == Link(a + i)
    {
      seq(b - a, i requires 0 <= i < b - a => Link(a + i))
    }

    /** What is still carried after n rotations. */
    function Retained(n: nat): seq<Entry>
      requires n < |keys|
    {
      Slice(if n > CHAIN_MAX then n - CHAIN_MAX else 0, n)
    }

    function At(n: nat): Statement
      requires n < |keys|
    {
      Statement(origin, continuity, Some(keys[n]))
    }
  }

  method BuildLineage(h: History) returns (entries: seq<Entry>)
    requires |h.keys| > 0
    ensures entries == h.Slice(0, h.Rotations())
  {
    entries := [];
    for i := 0 to h.Rotations()
      invariant entries == h.Slice(0, i)
    {
      var c := Certificate(h.origin, h.continuity, h.first + i, h.keys[i], h.keys[i + 1]);
      entries := entries + [Entry(c, SignedBy(h.keys[i], c))];
    }
  }

  /**
   After any number of rotations the retained chain carries the node's whole
   recent past: a verifier whose pin is current is told nothing changed, one whose
   pin is the outgoing key of a retained rotation follows it silently, and an older
   pin is refused.
   */
  lemma PinsReached(h: History, n: nat, j: nat)
    requires h.Valid() && j <= n < |h.keys|
    ensures Verdict(h.Retained(n), h.At(n), Some(h.keys[j]))
            == if j == n then Ok(Some(true)) else if j + CHAIN_MAX >= n then Ok(Some(false)) else Err(PinNotReached)
    ensures Verdict(h.Retained(n), h.At(n), None) == Ok(None)
  {
    var a := if n > CHAIN_MAX then n - CHAIN_MAX else 0;
    var chain := h.Retained(n);
    RetainedWalks(h, n);
    if a <= j < n {
      assert chain[j - a].certificate.oldKey == h.keys[j];
    } else if j < a {
      assert forall i :: 0 <= i < |chain| ==> chain[i].certificate.oldKey != h.keys[j];
    }
  }

  lemma RetainedWalks(h: History, n: nat)
    requires h.Valid() && n < |h.keys|
    ensures var chain := h.Retained(n);
            && Walk(chain, h.At(n), |chain|).None?
            && (chain != [] ==> chain[|chain| - 1].Entry? && chain[|chain| - 1].certificate.newKey == h.keys[n])
  {
    var chain := h.Retained(n);
    RetainedIsLinked(h, n);
    WalkIsLinked(chain, h.At(n), |chain|);
  }

  lemma RetainedIsLinked(h: History, n: nat)
    requires h.Valid() && n < |h.keys|
    ensures Linked(h.Retained(n), h.At(n))
  {}

  /** One of the node's first n rotations. */
  ghost predicate IsOwn(h: History, n: nat, e: Entry)
    requires n < |h.keys|
  {
    exists i :: 0 <= i < n && e == h.Link(i)
  }

  /**
   Nothing else made of the node's own certificates is accepted for its current
   key: dropping an inner one, swapping two, repeating one or starting a gap is
   refused, because what is accepted is an unbroken run up to the current key.
   */
  lemma OnlyRunsAccepted(h: History, n: nat, chain: seq<Entry>, pin: Option<Key>)
    requires h.Valid() && n < |h.keys| && chain != []
    requires forall k :: 0 <= k < |chain| ==> IsOwn(h, n, chain[k])
    ensures Verdict(chain, h.At(n), pin).Ok? ==> |chain| <= n && chain == h.Slice(n - |chain|, n)
  {
    AcceptedExactly(chain, h.At(n), pin);
    if Verdict(chain, h.At(n), pin).Ok? {
      assert IsOwn(h, n, chain[|chain| - 1]);
      forall k | 0 <= k < |chain| ensures OwnAt(h, n, chain, k) {
        if k + 1 < |chain| { LinkedKeysMeet(chain, h.At(n), k); }
      }
      RunBackwards(h, n, chain, 0);
      assert chain[0..] == chain;
    }
  }

  lemma OwnEndingAt(h: History, n: nat, e: Entry, x: nat)
    requires h.Valid() && n < |h.keys| && x < |h.keys| && IsOwn(h, n, e) && e.certificate.newKey == h.keys[x]
    ensures x > 0 && e == h.Link(x - 1)
  {
    var i :| 0 <= i < n && e == h.Link(i);
    assert i + 1 == x;
  }

  lemma SliceFront(h: History, a: nat, n: nat)
    requires a < n < |h.keys|
    ensures h.Slice(a, n) == [h.Link(a)] + h.Slice(a + 1, n)
  {}

  /** Each certificate starts from the key the one before it rotated to. */
  ghost predicate KeysMeet(chain: seq<Entry>, k: nat)
    requires k + 1 < |chain|
  {
    chain[k].Entry? && chain[k + 1].Entry? && chain[k + 1].certificate.oldKey == chain[k].certificate.newKey
  }

  lemma LinkedKeysMeet(chain: seq<Entry>, st: Statement, k: nat)
    requires Linked(chain, st) && k + 1 < |chain|
    ensures KeysMeet(chain, k)
  {
    assert LinkHolds(chain, st, k + 1);
  }

  lemma OneBack(h: History, n: nat, chain: seq<Entry>, k: nat, x: nat)
    requires h.Valid() && x < n < |h.keys| && k + 1 < |chain| && KeysMeet(chain, k) && IsOwn(h, n, chain[k])
    requires chain[k + 1..] == h.Slice(x, n)
    ensures x > 0 && chain[k..] == h.Slice(x - 1, n)
  {
    assert chain[k + 1] == chain[k + 1..][0] == h.Slice(x, n)[0];
    OwnEndingAt(h, n, chain[k], x);
    SliceFront(h, x - 1, n);
    assert chain[k..] == [chain[k]] + chain[k + 1..];
  }

  lemma LastIsNewest(h: History, n: nat, chain: seq<Entry>)
    requires h.Valid() && n < |h.keys| && chain != [] && IsOwn(h, n, chain[|chain| - 1])
    requires chain[|chain| - 1].certificate.newKey == h.keys[n]
    ensures n > 0 && chain[|chain| - 1..] == h.Slice(n - 1, n)
  {
    OwnEndingAt(h, n, chain[|chain| - 1], n);
    SliceFront(h, n - 1, n);
    assert chain[|chain| - 1..] == [chain[|chain| - 1]];
  }

  /** One of the node's rotations, and the next one starts where it ends. */
  ghost predicate OwnAt(h: History, n: nat, chain: seq<Entry>, k: nat)
    requires n < |h.keys| && k < |chain|
  {
    IsOwn(h, n, chain[k]) && (k + 1 < |chain| ==> KeysMeet(chain, k))
  }

  /** From its last rotation backwards, a chain of the node's certificates that meet is the node's history. */
  lemma {:induction false} RunBackwards(h: History, n: nat, chain: seq<Entry>, k: nat)
    requires h.Valid() && n < |h.keys| && k < |chain|
    requires forall j {:trigger OwnAt(h, n, chain, j)} :: 0 <= j < |chain| ==> OwnAt(h, n, chain, j)
    requires IsOwn(h, n, chain[|chain| - 1]) && chain[|chain| - 1].certificate.newKey == h.keys[n]
    ensures |chain| <= n + k && chain[k..] == h.Slice(n - (|chain| - k), n)
    decreases |chain| - k
  {
    if k == |chain| - 1 {
      LastIsNewest(h, n, chain);
    } else {
      RunBackwards(h, n, chain, k + 1);
      assert OwnAt(h, n, chain, k);
      OneBack(h, n, chain, k, n - (|chain| - k - 1));
    }
  }

  /** An honest key signs one certificate, the one that rotates away from it; nobody else has its signature. */
  ghost predicate Genuine(h: History, chain: seq<Entry>) {
    forall k {:trigger chain[k]} :: 0 <= k < |chain| ==>
      chain[k].Entry? && chain[k].signature.SignedBy? && chain[k].signature.key in h.keys ==>
        HonestlySigned(h, chain[k].signature)
  }

  ghost predicate HonestlySigned(h: History, s: Signature) {
    exists i :: 0 <= i < |h.keys| - 1 && s == SignedBy(h.keys[i], h.Cert(i))
  }

  /**
   A pin is only ever moved along the honest lineage. Whatever chain an attacker
   without the honest signing keys presents, for whatever identity key: if a
   verifier pinned at an honest key accepts it through the chain, then from the pin
   on the chain is the honest history, and the identity key is an honest successor.
   */
  lemma PinFollowsHistory(h: History, j: nat, chain: seq<Entry>, identity: Key)
    requires h.Valid() && j < |h.keys| && Genuine(h, chain)
    requires Verdict(chain, Statement(h.origin, h.continuity, Some(identity)), Some(h.keys[j])).Ok?
    ensures exists m :: j <= m < |h.keys| && identity == h.keys[m]
                        && |chain| >= m - j && chain[|chain| - (m - j)..] == h.Slice(j, m)
  {
    var st := Statement(h.origin, h.continuity, Some(identity));
    AcceptedExactly(chain, st, Some(h.keys[j]));
    if identity == h.keys[j] {
      assert chain[|chain|..] == h.Slice(j, j);
    } else {
      var p :| 0 <= p < |chain| && chain[p].certificate.oldKey == h.keys[j];
      HonestFrom(h, j, chain, st, p, |chain|);
      var m := j + |chain| - p;
      assert chain[p..|chain|] == chain[p..];
      assert chain[|chain| - 1] == chain[p..][|chain| - 1 - p];
    }
  }

  lemma {:induction false} HonestFrom(h: History, j: nat, chain: seq<Entry>, st: Statement, p: nat, q: nat)
    requires h.Valid() && j < |h.keys| && Genuine(h, chain) && Linked(chain, st)
    requires p < q <= |chain| && chain[p].certificate.oldKey == h.keys[j]
    ensures j + q - p < |h.keys| && chain[p..q] == h.Slice(j, j + q - p)
    decreases q
  {
    var k := j + q - 1 - p;
    if q > p + 1 {
      HonestFrom(h, j, chain, st, p, q - 1);
      assert LinkHolds(chain, st, q - 1);
      assert chain[q - 2] == chain[p..q - 1][q - 2 - p] == h.Link(k - 1);
    }
    HonestNext(h, chain, st, q - 1, k);
    if q > p + 1 {
      assert chain[p..q] == chain[p..q - 1] + [chain[q - 1]];
    } else {
      assert chain[p..q] == [chain[p]];
    }
  }

  /** An entry whose outgoing key is honest is that key's own rotation. */
  lemma HonestNext(h: History, chain: seq<Entry>, st: Statement, q: nat, k: nat)
    requires h.Valid() && Genuine(h, chain) && Linked(chain, st)
    requires q < |chain| && k < |h.keys| && chain[q].Entry? && chain[q].certificate.oldKey == h.keys[k]
    ensures k + 1 < |h.keys| && chain[q] == h.Link(k)
  {
    assert LinkHolds(chain, st, q);
    assert HonestlySigned(h, chain[q].signature);
    var i :| 0 <= i < |h.keys| - 1 && chain[q].signature == SignedBy(h.keys[i], h.Cert(i));
    assert i == k;
  }

  // ------------------------------------------------------------------------ store

  /** The retained chain and the anchor's two marks. */
  datatype Store = Store(chain: seq<Entry>, highWater: nat, pending: nat)

  datatype Crash = NoCrash | AfterReservation | AfterChain

  datatype Outcome = Appended(generation: nat) | Crashed | Refused(why: StoreError)

  datatype StoreError = GenerationUnavailable | ChainInvalid

  function Max(a: nat, b: nat): nat { if a < b then b else a }

  /** Loading raises the mark to a chain that is ahead of it. */
  function Loaded(s: Store): Store {
    if s.chain != [] && s.chain[|s.chain| - 1].Entry?
    then s.(highWater := Max(s.highWater, s.chain[|s.chain| - 1].certificate.generation)) else s
  }

  function Pruned(chain: seq<Entry>): seq<Entry> {
    if |chain| > CHAIN_MAX then chain[|chain| - CHAIN_MAX..] else chain
  }

  function Newest(s: Store): Option<Certificate> {
    if s.chain != [] && s.chain[|s.chain| - 1].Entry? then Some(s.chain[|s.chain| - 1].certificate) else None
  }

  /** Append one rotation: idempotent on the newest pair, validated before anything is committed, chain first and mark second. */
  function Append(stored: Store, origin: nat, continuity: nat, oldKey: Key, newKey: Key, crash: Crash): (Store, Outcome) {
    var s := Loaded(stored);
    var newest := Newest(s);
    if newest.Some? && newest.value == Certificate(origin, continuity, newest.value.generation, oldKey, newKey) then
      (s, Appended(newest.value.generation))
    else if newest.Some? && newest.value.generation != s.highWater then (s, Refused(GenerationUnavailable))
    else
      var c := Certificate(origin, continuity, s.highWater + 1, oldKey, newKey);
      var chain := Extended(s, c);
      Committed(s, c, chain, Verdict(chain, Announcing(c), None).Ok?, crash)
  }

  /** The stored chain with the certificate at its end. */
  function Extended(s: Store, c: Certificate): seq<Entry> { Pruned(s.chain + [Entry(c, SignedBy(c.oldKey, c))]) }

  /** What the node will state once the rotation is published. */
  function Announcing(c: Certificate): Statement { Statement(c.origin, c.continuity, Some(c.newKey)) }

  /** The generation is reserved, the extended chain is checked and written, and the mark follows it. */
  function Committed(s: Store, c: Certificate, chain: seq<Entry>, verifies: bool, crash: Crash): (Store, Outcome) {
    var reserved := s.(pending := Max(s.pending, c.generation));
    if crash.AfterReservation? then (reserved, Crashed)
    else if !verifies then (reserved, Refused(ChainInvalid))
    else if crash.AfterChain? then (reserved.(chain := chain), Crashed)
    else (Store(chain, Max(s.highWater, c.generation), Max(reserved.pending, c.generation)), Appended(c.generation))
  }

  /** The node's own view: the store, and how many rotations it has promoted. */
  datatype Node = Node(store: Store, promoted: nat)

  /** A rotation is promoted when the store says it is appended. */
  function Promoted(node: Node, result: (Store, Outcome)): Node {
    Node(result.0, if result.1.Appended? then node.promoted + 1 else node.promoted)
  }

  /** One attempt at the next rotation. */
  function Attempt(h: History, node: Node, crash: Crash): Node
    requires node.promoted + 1 < |h.keys|
  {
    Promoted(node, Append(node.store, h.origin, h.continuity, h.keys[node.promoted], h.keys[node.promoted + 1], crash))
  }

  function Attempts(h: History, crashes: seq<Crash>): Node
    requires |crashes| < |h.keys|
    ensures Attempts(h, crashes).promoted <= |crashes|
    decreases |crashes|
  {
    if crashes == [] then Node(Store([], 0, 0), 0)
    else Attempt(h, Attempts(h, crashes[..|crashes| - 1]), crashes[|crashes| - 1])
  }

  /** The chain holds the first m rotations, pruned; m is at most one ahead of what was promoted. */
  predicate Holds(h: History, node: Node, m: nat)
    requires |h.keys| > 0
  {
    && node.promoted <= m <= node.promoted + 1 && m < |h.keys|
    && node.store.chain == h.Retained(m)
    && (node.store.highWater == m || (node.store.highWater == node.promoted && m > node.promoted))
    && node.store.highWater <= m
  }

  lemma SliceMore(h: History, a: nat, n: nat)
    requires a <= n && n + 1 < |h.keys|
    ensures h.Slice(a, n) + [h.Link(n)] == h.Slice(a, n + 1)
  {}

  lemma ShortRetainedNext(h: History, n: nat)
    requires n + 1 < |h.keys| && n < CHAIN_MAX
    ensures Pruned(h.Retained(n) + [h.Link(n)]) == h.Retained(n + 1)
  {
    SliceMore(h, 0, n);
  }

  lemma LongRetainedNext(h: History, n: nat)
    requires n + 1 < |h.keys| && CHAIN_MAX <= n
    ensures Pruned(h.Retained(n) + [h.Link(n)]) == h.Retained(n + 1)
  {
    var a := n - CHAIN_MAX;
    SliceMore(h, a, n);
    SliceFront(h, a, n + 1);
    assert h.Slice(a, n + 1)[1..] == h.Slice(a + 1, n + 1);
  }

  lemma RetainedNext(h: History, n: nat)
    requires h.Valid() && n + 1 < |h.keys|
    ensures Pruned(h.Retained(n) + [h.Link(n)]) == h.Retained(n + 1)
  {
    if n < CHAIN_MAX { ShortRetainedNext(h, n); } else { LongRetainedNext(h, n); }
  }

  lemma RetainedLinked(h: History, n: nat)
    requires h.Valid() && n < |h.keys|
    ensures Verdict(h.Retained(n), h.At(n), None) == Ok(None)
  {
    PinsReached(h, n, n);
  }

  /** The next rotation extends the retained chain to the one of one more, and that verifies. */
  lemma NextExtends(h: History, s: Store, n: nat)
    requires h.Valid() && h.first == 1 && n + 1 < |h.keys| && s.chain == h.Retained(n)
    ensures Extended(s, h.Cert(n)) == h.Retained(n + 1) && Verdict(h.Retained(n + 1), Announcing(h.Cert(n)), None) == Ok(None)
  {
    RetainedNext(h, n);
    RetainedLinked(h, n + 1);
  }

  /** The certificate follows the newest: it is not the newest pair again, and takes the next generation. */
  predicate FollowsNewest(s: Store, c: Certificate) {
    && Loaded(s) == s && c.generation == s.highWater + 1
    && (Newest(s).Some? ==> Newest(s).value.oldKey != c.oldKey && Newest(s).value.generation == s.highWater)
  }

  /** A rotation that is not the newest is committed, with the generation after the newest. */
  lemma NewIsCommitted(s: Store, c: Certificate, chain: seq<Entry>, verifies: bool, crash: Crash)
    requires FollowsNewest(s, c) && chain == Extended(s, c) && verifies == Verdict(chain, Announcing(c), None).Ok?
    ensures Append(s, c.origin, c.continuity, c.oldKey, c.newKey, crash) == Committed(s, c, chain, verifies, crash)
  {
    assert c == Certificate(c.origin, c.continuity, s.highWater + 1, c.oldKey, c.newKey);
  }

  lemma RetainedNewest(h: History, n: nat)
    requires h.Valid() && n < |h.keys|
    ensures if n == 0 then h.Retained(n) == []
            else var r := h.Retained(n); r != [] && r[|r| - 1] == h.Link(n - 1) && h.keys[n - 1] != h.keys[n]
  {}

  lemma NextFollows(h: History, s: Store, n: nat)
    requires h.Valid() && h.first == 1 && n + 1 < |h.keys| && s.chain == h.Retained(n) && s.highWater == n
    ensures FollowsNewest(s, h.Cert(n))
  {
    RetainedNewest(h, n);
  }

  lemma HoldsRetained(h: History, node: Node)
    requires |h.keys| > 0 && Holds(h, node, node.promoted)
    ensures node.store.chain == h.Retained(node.promoted) && node.store.highWater == node.promoted
  {}

  lemma AttemptAppends(h: History, node: Node, c: Certificate, chain: seq<Entry>, crash: Crash)
    requires node.promoted + 1 < |h.keys| && c == h.Cert(node.promoted) && FollowsNewest(node.store, c)
    requires chain == Extended(node.store, c) && Verdict(chain, Announcing(c), None) == Ok(None)
    ensures Attempt(h, node, crash) == Promoted(node, Committed(node.store, c, chain, true, crash))
  {
    NewIsCommitted(node.store, c, chain, true, crash);
  }

  lemma AttemptCommits(h: History, node: Node, crash: Crash)
    requires h.Valid() && h.first == 1 && node.promoted + 1 < |h.keys| && Holds(h, node, node.promoted)
    ensures Attempt(h, node, crash)
            == Promoted(node, Committed(node.store, h.Cert(node.promoted), h.Retained(node.promoted + 1), true, crash))
  {
    var n := node.promoted;
    HoldsRetained(h, node);
    NextFollows(h, node.store, n);
    NextExtends(h, node.store, n);
    AttemptAppends(h, node, h.Cert(n), h.Retained(n + 1), crash);
  }

  /** One rotation further, or interrupted before or after the chain was written. */
  predicate MovesOn(h: History, node: Node, next: Node, crash: Crash)
    requires |h.keys| > 0
  {
    match crash
    case NoCrash => next.promoted == node.promoted + 1 && Holds(h, next, node.promoted + 1) && next.store.highWater == node.promoted + 1
    case AfterReservation => Holds(h, next, node.promoted)
    case AfterChain => Holds(h, next, node.promoted + 1)
  }

  lemma CommittedMovesOn(h: History, node: Node, crash: Crash)
    requires node.promoted + 1 < |h.keys| && h.first == 1 && Holds(h, node, node.promoted)
    ensures MovesOn(h, node, Promoted(node, Committed(node.store, h.Cert(node.promoted), h.Retained(node.promoted + 1), true, crash)), crash)
  {}

  /** The rotation being attempted is not in the chain yet: it is appended, unless a crash comes first. */
  lemma FreshAttempt(h: History, node: Node, crash: Crash)
    requires h.Valid() && h.first == 1 && node.promoted + 1 < |h.keys| && Holds(h, node, node.promoted)
    ensures MovesOn(h, node, Attempt(h, node, crash), crash)
  {
    AttemptCommits(h, node, crash);
    CommittedMovesOn(h, node, crash);
  }

  /** A pair that is already the newest is only reported. */
  lemma AppendIdempotent(s: Store, c: Certificate, crash: Crash)
    requires s.chain != [] && s.chain[|s.chain| - 1].Entry? && s.chain[|s.chain| - 1].certificate == c
    ensures Append(s, c.origin, c.continuity, c.oldKey, c.newKey, crash) == (Loaded(s), Appended(c.generation))
    ensures Loaded(s) == s.(highWater := Max(s.highWater, c.generation))
  {}

  lemma AttemptRepeats(h: History, node: Node, crash: Crash)
    requires h.Valid() && node.promoted + 1 < |h.keys| && node.store.chain == h.Retained(node.promoted + 1)
    ensures Attempt(h, node, crash) == Node(Loaded(node.store), node.promoted + 1)
    ensures Loaded(node.store) == node.store.(highWater := Max(node.store.highWater, h.Cert(node.promoted).generation))
  {
    RetainedNewest(h, node.promoted + 1);
    AppendIdempotent(node.store, h.Cert(node.promoted), crash);
  }

  /** The chain already holds it: the attempt only reports it, and loading has raised the mark. */
  lemma RepeatedAttempt(h: History, node: Node, crash: Crash)
    requires h.Valid() && h.first == 1 && node.promoted + 1 < |h.keys| && Holds(h, node, node.promoted + 1)
    ensures var next := Attempt(h, node, crash);
            next.promoted == node.promoted + 1 && Holds(h, next, next.promoted) && next.store.highWater == next.promoted
  {
    AttemptRepeats(h, node, crash);
  }

  predicate Ready(h: History, node: Node)
    requires |h.keys| > 0
  {
    Holds(h, node, node.promoted) || Holds(h, node, node.promoted + 1)
  }

  /** Ready again, and after an uninterrupted attempt promoted and complete. */
  predicate Advances(h: History, node: Node, next: Node, crash: Crash)
    requires |h.keys| > 0
  {
    && Ready(h, next)
    && (crash.NoCrash? ==> next.promoted == node.promoted + 1 && Holds(h, next, next.promoted))
  }

  lemma AttemptReady(h: History, node: Node, crash: Crash)
    requires h.Valid() && h.first == 1 && node.promoted + 1 < |h.keys| && Ready(h, node)
    ensures Advances(h, node, Attempt(h, node, crash), crash)
  {
    if Holds(h, node, node.promoted) {
      FreshAttempt(h, node, crash);
      FreshAdvances(h, node, Attempt(h, node, crash), crash);
    } else {
      RepeatedAttempt(h, node, crash);
    }
  }

  lemma FreshAdvances(h: History, node: Node, next: Node, crash: Crash)
    requires |h.keys| > 0 && MovesOn(h, node, next, crash)
    ensures Advances(h, node, next, crash)
  {}

  /**
   Whatever crashes interrupt the attempts, generations are consecutive and never
   renumbered: the retained chain is always the most recent rotations of one
   lineage, as promoted or one ahead.
   */
  lemma {:induction false} StoreKeepsLineage(h: History, crashes: seq<Crash>)
    requires h.Valid() && h.first == 1 && |crashes| < |h.keys|
    ensures Ready(h, Attempts(h, crashes))
    decreases |crashes|
  {
    if crashes == [] {
      assert Holds(h, Attempts(h, crashes), 0);
    } else {
      StoreKeepsLineage(h, crashes[..|crashes| - 1]);
      AttemptReady(h, Attempts(h, crashes[..|crashes| - 1]), crashes[|crashes| - 1]);
    }
  }

  /** So after an uninterrupted attempt the published chain verifies, and exactly the retained pins follow it. */
  lemma RotationKeepsPins(h: History, crashes: seq<Crash>, j: nat)
    requires h.Valid() && h.first == 1 && |crashes| + 1 < |h.keys| && j <= Attempts(h, crashes + [NoCrash]).promoted
    ensures var node := Attempts(h, crashes + [NoCrash]);
            var n := node.promoted;
            && n == Attempts(h, crashes).promoted + 1
            && Verdict(node.store.chain, h.At(n), Some(h.keys[j]))
               == if j == n then Ok(Some(true)) else if j + CHAIN_MAX >= n then Ok(Some(false)) else Err(PinNotReached)
  {
    assert (crashes + [NoCrash])[..|crashes|] == crashes;
    StoreKeepsLineage(h, crashes);
    AttemptReady(h, Attempts(h, crashes), NoCrash);
    PinsReached(h, Attempts(h, crashes + [NoCrash]).promoted, j);
  }

  // ------------------------------------------------------- what a refusal is for

  /** What is wrong with entry i when everything before it is right. */
  predicate Blames(chain: seq<Entry>, st: Statement, i: nat, why: Failure)
    requires i < |chain| && (i > 0 ==> chain[i - 1].Entry?)
  {
    if chain[i].Malformed? then why == MalformedEntry
    else
      var c := chain[i].certificate;
      var follows := i == 0 || c.generation == chain[i - 1].certificate.generation + 1;
      var meets := i == 0 || c.oldKey == chain[i - 1].certificate.newKey;
      match why
      case OriginMismatch => c.origin != st.origin
      case ContinuityMismatch => c.origin == st.origin && c.continuity != st.continuity
      case GenerationNotConsecutive => c.origin == st.origin && c.continuity == st.continuity && !follows
      case LinkMismatch => c.origin == st.origin && c.continuity == st.continuity && follows && !meets
      case InvalidSignature =>
        && c.origin == st.origin && c.continuity == st.continuity && follows && meets
        && !(chain[i].signature.SignedBy? && chain[i].signature.key == c.oldKey && chain[i].signature.message == c)
      case _ => false
  }

  /** The first broken link, and what is wrong with it. */
  ghost predicate FirstBroken(chain: seq<Entry>, st: Statement, i: nat, why: Failure) {
    && i < |chain| && LinkedTo(chain, st, i) && (i > 0 ==> chain[i - 1].Entry?) && Blames(chain, st, i, why)
  }

  lemma {:induction false} WalkFindsFirst(chain: seq<Entry>, st: Statement, n: nat) returns (i: nat)
    requires n <= |chain| && Walk(chain, st, n).Some?
    ensures i < n && FirstBroken(chain, st, i, Walk(chain, st, n).value)
  {
    if Walk(chain, st, n - 1).Some? {
      i := WalkFindsFirst(chain, st, n - 1);
    } else {
      i := n - 1;
      WalkIsLinked(chain, st, n - 1);
    }
  }

  lemma BrokenIsOne(chain: seq<Entry>, st: Statement, i: nat, why: Failure)
    requires FirstBroken(chain, st, i, why)
    ensures !LinkHolds(chain, st, i) && FaultAt(chain, st, i) == Some(why)
  {}

  /** A chain is refused for its first broken link, under that link's own name, and only a chain of sound links is looked at further. */
  lemma RefusedForFirstBroken(chain: seq<Entry>, st: Statement, pin: Option<Key>, i: nat, why: Failure)
    requires |chain| <= CHAIN_MAX && st.identity.Some? && FirstBroken(chain, st, i, why)
    ensures Verdict(chain, st, pin) == Err(why)
  {
    BrokenIsOne(chain, st, i, why);
    WalkIsLinked(chain, st, i);
    assert Walk(chain, st, i + 1) == Some(why);
    WalkStops(chain, st, i + 1, |chain|);
  }

  /** The reasons in full: length, identity key, the first broken link, the last key, the pin. */
  lemma RefusedForExactly(chain: seq<Entry>, st: Statement, pin: Option<Key>)
    ensures var v := Verdict(chain, st, pin);
            && (v == Err(ChainTooLong) <==> |chain| > 8)
            && (v == Err(InvalidIdentityKey) <==> |chain| <= 8 && st.identity == None)
            && (v == Err(IdentityKeyMismatch) <==>
                  |chain| <= 8 && st.identity.Some? && Linked(chain, st) && chain != []
                  && chain[|chain| - 1].certificate.newKey != st.identity.value)
            && (v.Err? && |chain| <= 8 && st.identity.Some? && !Linked(chain, st) ==>
                  exists i :: FirstBroken(chain, st, i, v.error))
  {
    WalkIsLinked(chain, st, |chain|);
    if |chain| <= CHAIN_MAX && st.identity.Some? {
      if Walk(chain, st, |chain|).Some? {
        var i := WalkFindsFirst(chain, st, |chain|);
        assert !LinkHolds(chain, st, i) by { BrokenIsOne(chain, st, i, Walk(chain, st, |chain|).value); }
      } else {
        assert Linked(chain, st);
      }
    }
  }

  // ------------------------------------------------------------- one append, exactly

  /** The newest retained certificate is of this identity and this pair of keys. */
  predicate IsNewestPair(s: Store, origin: nat, continuity: nat, oldKey: Key, newKey: Key) {
    && s.chain != [] && s.chain[|s.chain| - 1].Entry?
    && (var c := s.chain[|s.chain| - 1].certificate;
        c.origin == origin && c.continuity == continuity && c.oldKey == oldKey && c.newKey == newKey)
  }

  /** The mark is ahead of the newest certificate: the generation to follow cannot be known. */
  predicate MarkAhead(s: Store) {
    s.chain != [] && s.chain[|s.chain| - 1].Entry? && s.chain[|s.chain| - 1].certificate.generation < s.highWater
  }

  /** The mark as loading leaves it. */
  function MarkOf(s: Store): nat {
    if s.chain != [] && s.chain[|s.chain| - 1].Entry? && s.highWater < s.chain[|s.chain| - 1].certificate.generation
    then s.chain[|s.chain| - 1].certificate.generation else s.highWater
  }

  /** Reserved first, written only when sound, marked only when written. */
  lemma CommitsInOrder(s: Store, c: Certificate, chain: seq<Entry>, sound: bool, crash: Crash)
    requires s.highWater < c.generation
    ensures var (s', outcome) := Committed(s, c, chain, sound, crash);
            var g := c.generation;
            && g <= s'.pending && s.pending <= s'.pending && (s'.pending == g || s'.pending == s.pending)
            && s'.chain == (if crash != AfterReservation && sound then chain else s.chain)
            && s'.highWater == (if crash == NoCrash && sound then g else s.highWater)
            && outcome == (if crash == AfterReservation then Crashed else if !sound then Refused(ChainInvalid)
                           else if crash == AfterChain then Crashed else Appended(g))
  {}

  lemma LoadedMark(s: Store)
    ensures Loaded(s) == s.(highWater := MarkOf(s))
  {}

  /**
   What an append does to any store: it reports the newest pair, refuses when the mark
   is ahead, and otherwise reserves the next generation; it then writes the chain only
   if the extended chain verifies, and raises the mark only after the chain is written.
   */
  lemma AppendExactly(s: Store, origin: nat, continuity: nat, oldKey: Key, newKey: Key, crash: Crash)
    ensures var (s', outcome) := Append(s, origin, continuity, oldKey, newKey, crash);
            var g := MarkOf(s) + 1;
            var c := Certificate(origin, continuity, g, oldKey, newKey);
            var longer := s.chain + [Entry(c, SignedBy(oldKey, c))];
            var chain := if |longer| <= CHAIN_MAX then longer else longer[|longer| - CHAIN_MAX..];
            var sound := Verdict(chain, Statement(origin, continuity, Some(newKey)), None).Ok?;
            if IsNewestPair(s, origin, continuity, oldKey, newKey) then
              s' == s.(highWater := MarkOf(s)) && outcome == Appended(s.chain[|s.chain| - 1].certificate.generation)
            else if MarkAhead(s) then s' == s.(highWater := MarkOf(s)) && outcome == Refused(GenerationUnavailable)
            else
              && g <= s'.pending && s.pending <= s'.pending && (s'.pending == g || s'.pending == s.pending)
              && s'.chain == (if crash != AfterReservation && sound then chain else s.chain)
              && s'.highWater == (if crash == NoCrash && sound then g else MarkOf(s))
              && outcome == (if crash == AfterReservation then Crashed else if !sound then Refused(ChainInvalid)
                             else if crash == AfterChain then Crashed else Appended(g))
  {
    LoadedMark(s);
    var loaded := s.(highWater := MarkOf(s));
    var c := Certificate(origin, continuity, MarkOf(s) + 1, oldKey, newKey);
    var chain := Extended(loaded, c);
    CommitsInOrder(loaded, c, chain, Verdict(chain, Announcing(c), None).Ok?, crash);
  }
}
