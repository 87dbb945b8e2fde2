/**
 The length-prefixed frame stream of the device helper: a collector fed whatever
 chunks the socket delivers agrees with one parse of the whole stream.
 */
module FrameCollector {
  import opened Prelude

  // ------------------------------------------------------------------------ prefix

  function Length(s: seq<Byte>): nat
    requires |s| >= 4
  {
    s[0] as nat + 0x100 * (s[1] as nat + 0x100 * (s[2] as nat + 0x100 * s[3] as nat))
  }

  function Prefix(n: nat): (s: seq<Byte>)
    requires n < 0x1_0000_0000
    ensures |s| == 4
  {
    var n1 := n / 0x100;
    var n2 := n1 / 0x100;
    [(n % 0x100) as Byte, (n1 % 0x100) as Byte, (n2 % 0x100) as Byte, (n2 / 0x100) as Byte]
  }

  lemma PrefixReads(n: nat, rest: seq<Byte>)
    requires n < 0x1_0000_0000
    ensures Length(Prefix(n) + rest) == n
  {
    var p := Prefix(n);
    assert (p + rest)[..4] == p;
    assert Length(p + rest) == Length(p);
  }

  // ------------------------------------------------------------------ specification

  datatype Collected<F, E> = Collected(frames: seq<F>, buffer: seq<Byte>, error: Option<E>)

  /** One parse from the front: whole frames while they decode; the first that does not ends it and empties the buffer. */
  function Parse<F, E>(decode: seq<Byte> -> Result<F, E>, bytes: seq<Byte>, frames: seq<F>): Collected<F, E>
    decreases |bytes|
  {
    if |bytes| < 4 || |bytes| < 4 + Length(bytes) then Collected(frames, bytes, None)
    else
      var n := Length(bytes);
      match decode(bytes[4..4 + n])
      case Err(e) => Collected(frames, [], Some(e))
      case Ok(f) => Parse(decode, bytes[4 + n..], frames + [f])
  }

  /** One more chunk; after a decode failure nothing is consumed. */
  function Fed<F, E>(decode: seq<Byte> -> Result<F, E>, c: Collected<F, E>, chunk: seq<Byte>): Collected<F, E> {
    if c.error.Some? then c else Parse(decode, c.buffer + chunk, c.frames)
  }

  function FedAll<F, E>(decode: seq<Byte> -> Result<F, E>, chunks: seq<seq<Byte>>): Collected<F, E> {
    if chunks == [] then Collected([], [], None)
    else Fed(decode, FedAll(decode, chunks[..|chunks| - 1]), chunks[|chunks| - 1])
  }

  function Concat(chunks: seq<seq<Byte>>): seq<Byte> {
    if chunks == [] then [] else Concat(chunks[..|chunks| - 1]) + chunks[|chunks| - 1]
  }

  /** Parsing can stop anywhere and be taken up again with what was left. */
  lemma {:induction false} ParseResumes<F, E>(decode: seq<Byte> -> Result<F, E>, a: seq<Byte>, b: seq<Byte>, frames: seq<F>)
    ensures Parse(decode, a + b, frames) == Fed(decode, Parse(decode, a, frames), b)
    decreases |a|
  {
    if |a| >= 4 && |a| >= 4 + Length(a) {
      var n := Length(a);
      assert Length(a + b) == n && (a + b)[4..4 + n] == a[4..4 + n] && (a + b)[4 + n..] == a[4 + n..] + b;
      if decode(a[4..4 + n]).Ok? {
        ParseResumes(decode, a[4 + n..], b, frames + [decode(a[4..4 + n]).value]);
      }
    }
  }

  /** However the stream is cut into chunks, the collector ends as one parse of all of it. */
  lemma {:induction false} AnyChunking<F, E>(decode: seq<Byte> -> Result<F, E>, chunks: seq<seq<Byte>>)
    ensures FedAll(decode, chunks) == Parse(decode, Concat(chunks), [])
  {
    if chunks != [] {
      var before := chunks[..|chunks| - 1];
      AnyChunking(decode, before);
      ParseResumes(decode, Concat(before), chunks[|chunks| - 1], []);
    }
  }

  // -------------------------------------------------------------------- round trip

  /** The stream a sender of these encoded frames writes. */
  function Framed(encoded: seq<seq<Byte>>): seq<Byte>
    requires forall i :: 0 <= i < |encoded| ==> |encoded[i]| < 0x1_0000_0000
  {
    if encoded == [] then [] else Prefix(|encoded[0]|) + encoded[0] + Framed(encoded[1..])
  }

  lemma FrameInFront(frame: seq<Byte>, others: seq<Byte>)
    requires |frame| < 0x1_0000_0000
    ensures var s := Prefix(|frame|) + frame + others;
            && |s| >= 4 + |frame| && Length(s) == |frame| && s[4..4 + |frame|] == frame && s[4 + |frame|..] == others
  {
    assert Prefix(|frame|) + frame + others == Prefix(|frame|) + (frame + others);
    PrefixReads(|frame|, frame + others);
  }

  /** A whole frame in front is decoded and taken off. */
  lemma ParseOne<F, E>(decode: seq<Byte> -> Result<F, E>, frame: seq<Byte>, value: F, others: seq<Byte>, frames: seq<F>)
    requires |frame| < 0x1_0000_0000 && decode(frame) == Ok(value)
    ensures Parse(decode, Prefix(|frame|) + frame + others, frames) == Parse(decode, others, frames + [value])
  {
    FrameInFront(frame, others);
  }

  lemma FramedInFront(encoded: seq<seq<Byte>>, rest: seq<Byte>)
    requires encoded != [] && forall i :: 0 <= i < |encoded| ==> |encoded[i]| < 0x1_0000_0000
    ensures Framed(encoded) + rest == Prefix(|encoded[0]|) + encoded[0] + (Framed(encoded[1..]) + rest)
  {}

  /** Every frame fits its length prefix and decodes to its value. */
  ghost predicate Decodes<F, E>(decode: seq<Byte> -> Result<F, E>, encoded: seq<seq<Byte>>, decoded: seq<F>) {
    && |decoded| == |encoded|
    && forall i :: 0 <= i < |encoded| ==> |encoded[i]| < 0x1_0000_0000 && decode(encoded[i]) == Ok(decoded[i])
  }

  lemma DecodesRest<F, E>(decode: seq<Byte> -> Result<F, E>, encoded: seq<seq<Byte>>, decoded: seq<F>)
    requires Decodes(decode, encoded, decoded) && encoded != []
    ensures Decodes(decode, encoded[1..], decoded[1..]) && decode(encoded[0]) == Ok(decoded[0])
  {}

  lemma FramesStep<F, E>(decode: seq<Byte> -> Result<F, E>, encoded: seq<seq<Byte>>, decoded: seq<F>,
                         rest: seq<Byte>, frames: seq<F>)
    requires Decodes(decode, encoded, decoded) && encoded != []
    ensures Parse(decode, Framed(encoded) + rest, frames) == Parse(decode, Framed(encoded[1..]) + rest, frames + [decoded[0]])
  {
    FramedInFront(encoded, rest);
    ParseOne(decode, encoded[0], decoded[0], Framed(encoded[1..]) + rest, frames);
  }

  /** Encoded frames that decode come out as they went in, and parsing goes on with whatever follows them. */
  lemma {:induction false} FramesRoundTrip<F, E>(decode: seq<Byte> -> Result<F, E>, encoded: seq<seq<Byte>>,
                                                 decoded: seq<F>, rest: seq<Byte>, frames: seq<F>)
    requires Decodes(decode, encoded, decoded)
    ensures Parse(decode, Framed(encoded) + rest, frames) == Parse(decode, rest, frames + decoded)
    decreases |encoded|
  {
    if encoded == [] {
      assert Framed(encoded) + rest == rest && frames + decoded == frames;
    } else {
      DecodesRest(decode, encoded, decoded);
      FramesRoundTrip(decode, encoded[1..], decoded[1..], rest, frames + [decoded[0]]);
      assert frames + [decoded[0]] + decoded[1..] == frames + decoded;
      FramesStep(decode, encoded, decoded, rest, frames);
    }
  }

  /** The frames before the first bad one are kept, the bad one's reason is kept, and nothing after it counts. */
  lemma FirstBadFrameEnds<F, E>(decode: seq<Byte> -> Result<F, E>, good: seq<seq<Byte>>, decoded: seq<F>,
                                bad: seq<Byte>, rest: seq<Byte>)
    requires Decodes(decode, good, decoded)
    requires |bad| < 0x1_0000_0000 && decode(bad).Err?
    ensures Parse(decode, Framed(good) + (Prefix(|bad|) + bad + rest), [])
            == Collected(decoded, [], Some(decode(bad).error))
  {
    var tail := Prefix(|bad|) + bad + rest;
    FramesRoundTrip(decode, good, decoded, tail, []);
    FrameInFront(bad, rest);
    assert [] + decoded == decoded;
  }

  // --------------------------------------------------------------------- collector

  class Collector<F, E> {
    const decode: seq<Byte> -> Result<F, E>
    var frames: seq<F>
    var decodeError: Option<E>
    var buffer: seq<Byte>

    ghost function Value(): Collected<F, E>
      reads this
    {
      Collected(frames, buffer, decodeError)
    }

    constructor (decode: seq<Byte> -> Result<F, E>)
      ensures this.decode == decode && Value() == FedAll(decode, [])
    {
      this.decode := decode;
      frames, buffer, decodeError := [], [], None;
    }

    method Consume(chunk: seq<Byte>)
      modifies this
      ensures Value() == Fed(decode, old(Value()), chunk)
    {
      if decodeError.Some? { return; }
      buffer := buffer + chunk;
      ghost var whole, before := buffer, frames;
      while |buffer| >= 4
        invariant decodeError.None?
        invariant Parse(decode, buffer, frames) == Parse(decode, whole, before)
        decreases |buffer|
      {
        var length := Length(buffer);
        if |buffer| < 4 + length { return; }
        var encoded := buffer[4..4 + length];
        buffer := buffer[4 + length..];
        match decode(encoded)
        case Err(reason) =>
          decodeError := Some(reason);
          buffer := [];
          return;
        case Ok(frame) =>
          frames := frames + [frame];
      }
    }
  }
}
