/**
 What a record session lets through, over whole runs: no application record after the
 first close record, nothing after the terminal error or a failed seal, and exactly
 which requests are protected and which records authenticate.
 */
module SessionGates {
  import opened Prelude
  import opened RecordSequence
  import opened RecordSession

  /** What an envelope of the log opens to. */
  function InnerOf(p: Payload): Option<InnerType> {
    if p.Envelope? && p.ciphertext.Sealed? && DecodeInner(p.ciphertext.plaintext).Ok?
    then Some(DecodeInner(p.ciphertext.plaintext).value.0) else None
  }

  predicate IsCloseRecord(p: Payload) { InnerOf(p) == Some(Close) || InnerOf(p) == Some(CloseAck) }

  /** The inner encoding is a bijection onto the plaintexts that begin with a registered type. */
  lemma InnerRoundTrip(t: InnerType, body: seq<Byte>, plaintext: seq<Byte>)
    ensures DecodeInner(EncodeInner(t, body)) == Ok((t, body))
    ensures DecodeInner(plaintext).Ok? <==> plaintext != [] && 1 <= plaintext[0] <= 4
    ensures DecodeInner(plaintext).Ok? ==>
              EncodeInner(DecodeInner(plaintext).value.0, DecodeInner(plaintext).value.1) == plaintext
  {}

  // ------------------------------------------------------------------- one request

  /** What may still follow: everything, everything but application records, or nothing. */
  predicate MayFollow(path: SendPath, t: InnerType) { path == Usable || (path == Closing && t != Rpc) }

  /** The request is refused nothing: it may follow, fits, has its room - and, from the application, the reserve's behind it. */
  predicate Admissible(s: Session, request: Request) {
    && !s.erased && MayFollow(s.sendPath, request.innerType) && |request.body| <= s.ceiling
    && Protectable(s.l, s.send, [1 + |request.body|] + (if request.innerType == Rpc then RESERVE else []))
  }

  /** The queue takes it, it is sealed while the secrets are there, and nothing throws around it. */
  predicate Carried(e: Surroundings) { e.admitted && !e.erasedWaiting && e.local == Built }

  /**
   A record reaches the relay exactly when it is admissible and carried, and it is the
   requested one at the schedule's position; it counts as protected when the relay
   also took it.
   */
  lemma ProtectedExactly(s: Session, request: Request, e: Surroundings)
    requires s.l.Valid() && (!s.send.exhausted ==> s.send.Live(s.l) && s.send.Coherent())
    ensures var (end, result, out) := SendStep(s, request, e);
            && (out.Some? <==> Admissible(s, request) && Carried(e))
            && (result.Protected? <==> Admissible(s, request) && Carried(e) && e.delivery == Sent)
            && (out.Some? ==> InnerOf(out.value) == Some(request.innerType)
                              && out.value == Seal(s, s.side, s.send.At(), EncodeInner(request.innerType, request.body)))
            && (result.Protected? ==> result.at == s.send.At() && result.plaintextBytes == 1 + |request.body|
                                      && result.epochCompleted == CompletesEpoch(s.l, s.send, 1 + |request.body|))
  {
    if !s.send.exhausted { CoherentCapacityIsExact(s.l, s.send, Needed(request)); }
  }

  /** A request that is not admissible consumes nothing, and the first reason it is not is the one it is told. */
  lemma RefusedExactly(s: Session, request: Request, e: Surroundings)
    requires s.l.Valid() && (!s.send.exhausted ==> s.send.Live(s.l) && s.send.Coherent())
    ensures var (end, result, out) := SendStep(s, request, e);
            && (!Admissible(s, request) ==> end == s && out.None?)
            && (result == TooLarge <==> !s.erased && MayFollow(s.sendPath, request.innerType) && |request.body| > s.ceiling)
            && (result == Unavailable(ApplicationPhaseClosed) <==> !s.erased && s.sendPath == Closing && request.innerType == Rpc)
            && (result == Unavailable(TerminalRecordProtected) <==> !s.erased && s.sendPath == Spent)
            && (result == Unavailable(SendPathUnusable) <==> !s.erased && s.sendPath == Unusable)
            && (result == Unavailable(SessionErased) <==> s.erased || (Admissible(s, request) && e.admitted && e.erasedWaiting))
            && (result == Backpressure <==> Admissible(s, request) && !e.admitted)
            && (result == CloseRequired || result == Exhausted <==>
                  !s.erased && MayFollow(s.sendPath, request.innerType) && |request.body| <= s.ceiling && !Admissible(s, request))
            && (result == CloseRequired ==> request.innerType == Rpc) && (result == Exhausted ==> request.innerType != Rpc)
  {
    if !s.send.exhausted { CoherentCapacityIsExact(s.l, s.send, Needed(request)); }
  }

  /**
   After a record that reached the relay for all the sender knows, what may follow is
   what might have followed before, less the application records once a close record
   is out, and nothing once the error is. After a failed seal, an escape, or a record
   the relay took no byte of, nothing may follow.
   */
  lemma WhatMayFollow(s: Session, request: Request, e: Surroundings, t: InnerType)
    ensures var (end, result, out) := SendStep(s, request, e);
            if out.Some? && e.delivery != NoByte
            then MayFollow(end.sendPath, t) <==>
                   MayFollow(s.sendPath, t) && request.innerType != Error && (request.innerType == Rpc || t != Rpc)
            else if result.SendFailed? then !MayFollow(end.sendPath, t)
            else end.sendPath == s.sendPath
  {}

  /** The sender is told it may emit its error exactly when an error may still follow. */
  lemma MayEmitErrorIsTrue(s: Session, request: Request, e: Surroundings)
    ensures var (end, result, out) := SendStep(s, request, e);
            result.SendFailed? ==>
              (result.mayEmitError <==> !end.erased && MayFollow(end.sendPath, Error))
              && result.at == s.send.At() && (result.delivery == NoByte ==> end.sendPath == Unusable)
  {}

  // ------------------------------------------------------------------- whole runs

  /** No application record follows a close record of the log, and nothing follows a terminal error. */
  ghost predicate ClosesTheLog(log: seq<Payload>) {
    forall i, j :: 0 <= i < j < |log| ==>
      && (IsCloseRecord(log[i]) ==> InnerOf(log[j]) != Some(Rpc))
      && InnerOf(log[i]) != Some(Error)
  }

  /** The send path knows what its log holds. */
  ghost predicate KnowsItsLog(end: Session, log: seq<Payload>) {
    && (forall p :: p in log && IsCloseRecord(p) ==> !MayFollow(end.sendPath, Rpc))
    && (forall p :: p in log && InnerOf(p) == Some(Error) ==> !MayFollow(end.sendPath, Error))
  }

  lemma StepOut(s: Session, request: Request, e: Surroundings)
    ensures var (end, _, out) := SendStep(s, request, e);
            && (out.Some? ==> MayFollow(s.sendPath, request.innerType) && InnerOf(out.value) == Some(request.innerType))
            && (out.Some? && request.innerType != Rpc ==> !MayFollow(end.sendPath, Rpc))
            && (out.Some? && request.innerType == Error ==> !MayFollow(end.sendPath, Error))
            && (forall t :: !MayFollow(s.sendPath, t) ==> !MayFollow(end.sendPath, t))
  {
    InnerRoundTrip(request.innerType, request.body, []);
  }

  lemma LogMore(log: seq<Payload>, p: Payload)
    requires ClosesTheLog(log)
    requires forall q :: q in log && IsCloseRecord(q) ==> InnerOf(p) != Some(Rpc)
    requires forall q :: q in log ==> InnerOf(q) != Some(Error)
    ensures ClosesTheLog(log + [p])
  {
    var longer := log + [p];
    forall i, j | 0 <= i < j < |longer|
      ensures (IsCloseRecord(longer[i]) ==> InnerOf(longer[j]) != Some(Rpc)) && InnerOf(longer[i]) != Some(Error)
    {
      assert longer[i] == log[i] && log[i] in log;
      assert j < |log| ==> longer[j] == log[j];
    }
  }

  /**
   Whatever is requested and however the surroundings behave: once a close record of
   either kind is on the log no application record follows it, whoever asks, and a
   terminal error is the last record of its log.
   */
  lemma {:induction false} NoApplicationAfterCloseRecord(s: Session, sends: seq<Send>)
    ensures var (end, log) := SendRun(s, sends); ClosesTheLog(log) && KnowsItsLog(end, log)
    decreases |sends|
  {
    if sends != [] {
      var before, last := sends[..|sends| - 1], sends[|sends| - 1];
      NoApplicationAfterCloseRecord(s, before);
      var (mid, wire) := SendRun(s, before);
      StepOut(mid, last.request, last.surroundings);
      var out := SendStep(mid, last.request, last.surroundings).2;
      if out.Some? {
        forall q | q in wire ensures InnerOf(q) != Some(Error) {
          if InnerOf(q) == Some(Error) { assert false; }
        }
        LogMore(wire, out.value);
      }
    }
  }

  /** A send path on which nothing may follow, or an erased session, never puts anything on the wire again. */
  lemma {:induction false} SilentStaysSilent(s: Session, sends: seq<Send>)
    requires s.erased || s.sendPath == Spent || s.sendPath == Unusable
    ensures var (end, log) := SendRun(s, sends);
            log == [] && (end.erased || end.sendPath == Spent || end.sendPath == Unusable)
    decreases |sends|
  {
    if sends != [] { SilentStaysSilent(s, sends[..|sends| - 1]); }
  }

  // ---------------------------------------------------------------------- receiving

  /** The payload is what the peer's direction seals at the expected position, with a registered type. */
  predicate Genuine(s: Session, p: Payload) {
    && p.Envelope? && p.header == Header(VERSION, s.suite, s.recv.At()) && !s.recv.exhausted
    && p.ciphertext.Sealed? && p.ciphertext.key.direction != s.side && p.ciphertext.aad.direction != s.side
    && p.ciphertext.key.epoch == s.recv.epoch && p.ciphertext.nonce == s.recv.At()
    && p.ciphertext.aad.header == p.header && p.ciphertext.aad.binding == s.binding
    && p.ciphertext.plaintext != [] && 1 <= p.ciphertext.plaintext[0] <= 4
  }

  /** A live receiver takes exactly the genuine payload of its expected position and advances by it; anything else ends the direction. */
  lemma AuthenticatedExactly(s: Session, p: Payload)
    requires !s.erased && !s.receiveTerminated
    ensures var (end, result) := ReceiveStep(s, p);
            if Genuine(s, p)
            then result.Authenticated? && result.at == s.recv.At()
                 && EncodeInner(result.innerType, result.body) == p.ciphertext.plaintext
                 && end == s.(recv := Step(s.l, s.recv, |p.ciphertext.plaintext|))
            else result.Fatal? && end == s.(receiveTerminated := true)
  {}

  /** What a refusal is for: the first check that fails, and a genuine record of the wrong type last of all. */
  lemma ReceiveRefusedFor(s: Session, p: Payload)
    ensures var (end, result) := ReceiveStep(s, p);
            && (result.Throws? <==> s.erased) && (s.erased || s.receiveTerminated ==> end == s)
            && (result == Fatal(ReceiveTerminated) <==> !s.erased && s.receiveTerminated)
            && (!s.erased && !s.receiveTerminated ==>
                  && (result == Fatal(MalformedEnvelope) <==> p.Malformed?)
                  && (p.Envelope? ==>
                        && (result == Fatal(VersionMismatch) <==> p.header.version != VERSION)
                        && (result == Fatal(SuiteMismatch) <==> p.header.version == VERSION && p.header.suite != s.suite)
                        && (result == Fatal(SequenceMismatch) <==>
                              p.header.version == VERSION && p.header.suite == s.suite
                              && (s.recv.exhausted || p.header.at != s.recv.At()))))
  {}
}
