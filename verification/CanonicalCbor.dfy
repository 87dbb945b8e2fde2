/**
 The deterministic encoding of section 4.2.1 of RFC 8949 for the values the signed
 structures are made of, the strict decoder with its re-encode check, and the two
 mutations that keep a value and break its bytes.
 */
module CanonicalCbor {
  import opened Prelude

  // ---------------------------------------------------------------------- values

  datatype Value = Uint(n: nat) | Bytes(bytes: seq<Byte>) | Text(utf8: seq<Byte>) | Bool(b: bool) | Array(items: seq<Value>)

  const MAX_SAFE: nat := 0x1f_ffff_ffff_ffff

  /** Numbers and lengths are safe integers. */
  predicate Valid(v: Value) {
    match v
    case Uint(n) => n <= MAX_SAFE
    case Bytes(s) => |s| <= MAX_SAFE
    case Text(s) => |s| <= MAX_SAFE
    case Bool(_) => true
    case Array(items) => |items| <= MAX_SAFE && forall i :: 0 <= i < |items| ==> Valid(items[i])
  }

  // ------------------------------------------------------------- big-endian fields

  function ToByte(x: int): Byte
    requires 0 <= x < 256
  {
    x as Byte
  }

  function Power(k: nat): nat { if k == 0 then 1 else 256 * Power(k - 1) }

  function BigEndian(n: nat, k: nat): (s: seq<Byte>)
    requires n < Power(k)
    ensures |s| == k
  {
    if k == 0 then [] else BigEndian(n / 256, k - 1) + [ToByte(n % 256)]
  }

  function FromBigEndian(s: seq<Byte>): nat {
    if s == [] then 0 else FromBigEndian(s[..|s| - 1]) * 256 + s[|s| - 1] as nat
  }

  lemma {:induction false} BigEndianReads(n: nat, k: nat)
    requires n < Power(k)
    ensures FromBigEndian(BigEndian(n, k)) == n
  {
    if k > 0 {
      BigEndianReads(n / 256, k - 1);
      assert BigEndian(n, k)[..k - 1] == BigEndian(n / 256, k - 1);
    }
  }

  lemma {:induction false} BigEndianUnique(s: seq<Byte>)
    ensures FromBigEndian(s) < Power(|s|) && BigEndian(FromBigEndian(s), |s|) == s
  {
    if s != [] {
      var before, last := s[..|s| - 1], s[|s| - 1] as nat;
      BigEndianUnique(before);
      var n := FromBigEndian(s);
      assert n / 256 == FromBigEndian(before) && n % 256 == last;
      assert s == before + [ToByte(last)];
    }
  }

  // ----------------------------------------------------------------------- heads

  /** How many bytes follow the head byte for an argument in its shortest form. */
  function Width(n: nat): nat
    requires n <= MAX_SAFE
  {
    if n < 24 then 0 else if n < 0x100 then 1 else if n < 0x1_0000 then 2 else if n < 0x1_0000_0000 then 4 else 8
  }

  predicate IsWidth(k: nat) { k == 1 || k == 2 || k == 4 || k == 8 }

  function Minor(k: nat): nat
    requires IsWidth(k)
  {
    if k == 1 then 24 else if k == 2 then 25 else if k == 4 then 26 else 27
  }

  lemma Powers()
    ensures Power(1) == 0x100 && Power(2) == 0x1_0000 && Power(4) == 0x1_0000_0000 && Power(8) > MAX_SAFE
  {
    assert Power(2) == 256 * Power(1) && Power(3) == 256 * Power(2) && Power(4) == 256 * Power(3);
    assert Power(5) == 256 * Power(4) && Power(6) == 256 * Power(5) && Power(7) == 256 * Power(6);
    assert Power(8) == 256 * Power(7);
  }

  /** A head in a stated width, shortest or not. */
  function HeadIn(major: nat, n: nat, k: nat): seq<Byte>
    requires major < 8 && IsWidth(k) && n < Power(k)
  {
    [ToByte(major * 32 + Minor(k))] + BigEndian(n, k)
  }

  function Head(major: nat, n: nat): (s: seq<Byte>)
    requires major < 8 && n <= MAX_SAFE
    ensures |s| >= 1
  {
    Powers();
    if n < 24 then [ToByte(major * 32 + n)] else HeadIn(major, n, Width(n))
  }

  // --------------------------------------------------------------------- encoder

  function Encode(v: Value): (s: seq<Byte>)
    requires Valid(v)
    ensures |s| >= 1
    decreases v, 0
  {
    match v
    case Uint(n) => Head(0, n)
    case Bytes(s) => Head(2, |s|) + s
    case Text(s) => Head(3, |s|) + s
    case Array(items) => Head(4, |items|) + EncodeItems(items)
    case Bool(b) => [if b then 0xf5 else 0xf4]
  }

  function EncodeItems(items: seq<Value>): seq<Byte>
    requires forall i :: 0 <= i < |items| ==> Valid(items[i])
    decreases items, 1
  {
    if items == [] then [] else Encode(items[0]) + EncodeItems(items[1..])
  }

  // --------------------------------------------------------------------- decoder

  /** `minimal` refuses an argument in more bytes than it needs; `indefinite` admits arrays of no stated length. */
  datatype Options = Options(minimal: bool, indefinite: bool)

  const STRICT := Options(true, false)
  const LAX := Options(false, false)

  datatype Argument = Definite(n: nat) | Indefinite

  /** The major type, its argument, and how many bytes the head took. */
  function ReadHead(s: seq<Byte>, o: Options): (r: Option<(nat, Argument, nat)>)
    ensures r.Some? ==> r.value.0 < 8 && 1 <= r.value.2 <= |s| && (r.value.1.Definite? ==> r.value.1.n <= MAX_SAFE)
  {
    if s == [] then None
    else
      var major, minor := s[0] as nat / 32, s[0] as nat % 32;
      if minor < 24 then Some((major, Definite(minor), 1))
      else if minor == 31 then if o.indefinite && major == 4 then Some((major, Indefinite, 1)) else None
      else if minor > 27 then None
      else
        var k := if minor == 24 then 1 else if minor == 25 then 2 else if minor == 26 then 4 else 8;
        if |s| < 1 + k then None
        else
          var n := FromBigEndian(s[1..1 + k]);
          if n > MAX_SAFE || (o.minimal && Width(n) != k) then None else Some((major, Definite(n), 1 + k))
  }

  function Decode(s: seq<Byte>, o: Options): (r: Option<(Value, seq<Byte>)>)
    ensures r.Some? ==> Valid(r.value.0) && |r.value.1| < |s|
    decreases |s|, 0
  {
    var head := ReadHead(s, o);
    if head.None? then None
    else
      var (major, argument, used) := head.value;
      var rest := s[used..];
      if argument.Indefinite? then
        var items := DecodeUntilBreak(rest, o);
        if items.None? || |items.value.0| > MAX_SAFE then None else Some((Array(items.value.0), items.value.1))
      else if major == 0 then Some((Uint(argument.n), rest))
      else if major == 2 then if |rest| < argument.n then None else Some((Bytes(rest[..argument.n]), rest[argument.n..]))
      else if major == 3 then if |rest| < argument.n then None else Some((Text(rest[..argument.n]), rest[argument.n..]))
      else if major == 4 then
        var items := DecodeItems(rest, argument.n, o);
        if items.None? then None else Some((Array(items.value.0), items.value.1))
      else if s[0] == 0xf4 then Some((Bool(false), rest))
      else if s[0] == 0xf5 then Some((Bool(true), rest))
      else None
  }

  function DecodeItems(s: seq<Byte>, n: nat, o: Options): (r: Option<(seq<Value>, seq<Byte>)>)
    ensures r.Some? ==> |r.value.0| == n && |r.value.1| <= |s| && forall i :: 0 <= i < n ==> Valid(r.value.0[i])
    decreases |s|, 1
  {
    if n == 0 then Some(([], s))
    else
      var first := Decode(s, o);
      if first.None? then None
      else
        var others := DecodeItems(first.value.1, n - 1, o);
        if others.None? then None else Some(([first.value.0] + others.value.0, others.value.1))
  }

  function DecodeUntilBreak(s: seq<Byte>, o: Options): (r: Option<(seq<Value>, seq<Byte>)>)
    ensures r.Some? ==> |r.value.1| < |s| && forall i :: 0 <= i < |r.value.0| ==> Valid(r.value.0[i])
    decreases |s|, 1
  {
    if s == [] then None
    else if s[0] == 0xff then Some(([], s[1..]))
    else
      var first := Decode(s, o);
      if first.None? then None
      else
        var others := DecodeUntilBreak(first.value.1, o);
        if others.None? then None else Some(([first.value.0] + others.value.0, others.value.1))
  }

  /** A whole message: one value and nothing after it. */
  function DecodeAll(s: seq<Byte>, o: Options): (v: Option<Value>)
    ensures v.Some? ==> Valid(v.value)
  {
    var r := Decode(s, o);
    if r.Some? && r.value.1 == [] then Some(r.value.0) else None
  }

  datatype Reason = Malformed | NonCanonical

  /** Strict decode and re-encode equality; a lax second look only names the reason for a refusal. */
  function DecodeCanonical(s: seq<Byte>): (r: Result<Value, Reason>)
  {
    var strict := DecodeAll(s, STRICT);
    if strict.Some? then if Encode(strict.value) == s then Ok(strict.value) else Err(NonCanonical)
    else
      var lax := DecodeAll(s, LAX);
      if lax.Some? && Encode(lax.value) != s then Err(NonCanonical) else Err(Malformed)
  }

  // ------------------------------------------------------------------- round trip

  lemma ShortHeadReads(s: seq<Byte>, major: nat, n: nat, o: Options)
    requires s != [] && major < 8 && n < 24 && s[0] as nat == major * 32 + n
    ensures ReadHead(s, o) == Some((major, Definite(n), 1))
  {}

  lemma HeadReads(major: nat, n: nat, o: Options, rest: seq<Byte>)
    requires major < 8 && n <= MAX_SAFE
    ensures ReadHead(Head(major, n) + rest, o) == Some((major, Definite(n), |Head(major, n)|))
  {
    if n < 24 {
      ShortHeadReads(Head(major, n) + rest, major, n, o);
    } else {
      Powers();
      HeadInReads(major, n, Width(n), o, rest);
    }
  }

  /** The bytes of a head in a stated width, with anything after it. */
  lemma HeadInBytes(major: nat, n: nat, k: nat, rest: seq<Byte>)
    requires major < 8 && IsWidth(k) && n < Power(k)
    ensures var s := HeadIn(major, n, k) + rest;
            && |s| >= 1 + k && s[0] as nat == major * 32 + Minor(k) && s[1..1 + k] == BigEndian(n, k) && s[1 + k..] == rest
  {
    var s := HeadIn(major, n, k) + rest;
    assert HeadIn(major, n, k)[0] == ToByte(major * 32 + Minor(k)) && |HeadIn(major, n, k)| == 1 + k;
    assert s[1..1 + k] == HeadIn(major, n, k)[1..];
  }

  /** Reading a head whose argument follows in k bytes. */
  lemma LongHeadReads(s: seq<Byte>, major: nat, k: nat, o: Options)
    requires IsWidth(k) && |s| >= 1 + k && s[0] as nat == major * 32 + Minor(k)
    ensures var n := FromBigEndian(s[1..1 + k]);
            ReadHead(s, o) == if n > MAX_SAFE || (o.minimal && Width(n) != k) then None else Some((major, Definite(n), 1 + k))
  {
    assert s[0] as nat / 32 == major && s[0] as nat % 32 == Minor(k);
  }

  /** A head in any width that holds it reads back, unless the reader insists on the shortest. */
  lemma HeadInReads(major: nat, n: nat, k: nat, o: Options, rest: seq<Byte>)
    requires major < 8 && n <= MAX_SAFE && IsWidth(k) && n < Power(k)
    ensures ReadHead(HeadIn(major, n, k) + rest, o)
            == if o.minimal && Width(n) != k then None else Some((major, Definite(n), 1 + k))
  {
    HeadInBytes(major, n, k, rest);
    BigEndianReads(n, k);
    LongHeadReads(HeadIn(major, n, k) + rest, major, k, o);
  }

  lemma BytesRoundTrip(b: seq<Byte>, o: Options, rest: seq<Byte>)
    requires Valid(Bytes(b))
    ensures Decode(Encode(Bytes(b)) + rest, o) == Some((Bytes(b), rest))
  {
    var s := Encode(Bytes(b)) + rest;
    HeadReads(2, |b|, o, b + rest);
    assert s == Head(2, |b|) + (b + rest);
    assert s[|Head(2, |b|)|..] == b + rest;
  }

  lemma TextRoundTrip(b: seq<Byte>, o: Options, rest: seq<Byte>)
    requires Valid(Text(b))
    ensures Decode(Encode(Text(b)) + rest, o) == Some((Text(b), rest))
  {
    var s := Encode(Text(b)) + rest;
    HeadReads(3, |b|, o, b + rest);
    assert s == Head(3, |b|) + (b + rest);
    assert s[|Head(3, |b|)|..] == b + rest;
  }

  /** What is encoded decodes to itself, whatever follows it and whatever the reader insists on. */
  lemma {:induction false} RoundTrip(v: Value, o: Options, rest: seq<Byte>)
    requires Valid(v)
    ensures Decode(Encode(v) + rest, o) == Some((v, rest))
    decreases v, 0
  {
    var s := Encode(v) + rest;
    match v
    case Uint(n) =>
      HeadReads(0, n, o, rest);
      assert s[|Head(0, n)|..] == rest;
    case Bytes(b) => BytesRoundTrip(b, o, rest);
    case Text(b) => TextRoundTrip(b, o, rest);
    case Array(items) =>
      HeadReads(4, |items|, o, EncodeItems(items) + rest);
      assert s == Head(4, |items|) + (EncodeItems(items) + rest);
      assert s[|Head(4, |items|)|..] == EncodeItems(items) + rest;
      ItemsRoundTrip(items, o, rest);
    case Bool(b) =>
      assert s[1..] == rest;
  }

  lemma {:induction false} ItemsRoundTrip(items: seq<Value>, o: Options, rest: seq<Byte>)
    requires forall i :: 0 <= i < |items| ==> Valid(items[i])
    ensures DecodeItems(EncodeItems(items) + rest, |items|, o) == Some((items, rest))
    decreases items, 1
  {
    if items == [] {
      assert EncodeItems(items) + rest == rest;
    } else {
      assert EncodeItems(items) + rest == Encode(items[0]) + (EncodeItems(items[1..]) + rest);
      RoundTrip(items[0], o, EncodeItems(items[1..]) + rest);
      ItemsRoundTrip(items[1..], o, rest);
      assert [items[0]] + items[1..] == items;
    }
  }

  // ------------------------------------------------------------------ uniqueness

  lemma StrictHead(s: seq<Byte>)
    requires ReadHead(s, STRICT).Some?
    ensures var (major, argument, used) := ReadHead(s, STRICT).value;
            argument.Definite? && s == Head(major, argument.n) + s[used..]
  {
    var (major, argument, used) := ReadHead(s, STRICT).value;
    var k := used - 1;
    if k == 0 {
      assert s[0] == ToByte(major * 32 + argument.n);
      assert s == [s[0]] + s[1..];
    } else {
      LongHead(s, major, argument.n, k);
    }
  }

  lemma LongHead(s: seq<Byte>, major: nat, n: nat, k: nat)
    requires major < 8 && n <= MAX_SAFE && IsWidth(k) && Width(n) == k && |s| >= 1 + k
    requires s[0] as nat == major * 32 + Minor(k) && FromBigEndian(s[1..1 + k]) == n
    ensures s == Head(major, n) + s[1 + k..]
  {
    var argument := s[1..1 + k];
    BigEndianUnique(argument);
    assert |argument| == k && HeadIn(major, n, k) == [s[0]] + argument;
    assert [s[0]] + argument == s[..1 + k];
    assert s == s[..1 + k] + s[1 + k..];
  }

  lemma Regroup(a: seq<Byte>, b: seq<Byte>, c: seq<Byte>)
    ensures a + (b + c) == (a + b) + c
  {}

  /** The strict decoder takes nothing but the deterministic encoding of what it returns. */
  lemma {:induction false} StrictIsCanonical(s: seq<Byte>)
    requires Decode(s, STRICT).Some?
    ensures var (v, rest) := Decode(s, STRICT).value; s == Encode(v) + rest
    decreases |s|, 0
  {
    StrictHead(s);
    var (major, argument, used) := ReadHead(s, STRICT).value;
    var n, rest := argument.n, s[used..];
    if major == 0 {
    } else if major == 2 || major == 3 {
      assert rest == rest[..n] + rest[n..];
      Regroup(Head(major, n), rest[..n], rest[n..]);
    } else if major == 4 {
      StrictItemsCanonical(rest, n);
      var decoded := DecodeItems(rest, n, STRICT).value;
      Regroup(Head(4, n), EncodeItems(decoded.0), decoded.1);
    } else {
      BoolIsOneByte(s);
    }
  }

  lemma BoolIsOneByte(s: seq<Byte>)
    requires s != [] && (s[0] == 0xf4 || s[0] == 0xf5)
    ensures ReadHead(s, STRICT).Some? && ReadHead(s, STRICT).value.2 == 1
    ensures s == Encode(Bool(s[0] == 0xf5)) + s[1..]
  {}

  lemma {:induction false} StrictItemsCanonical(s: seq<Byte>, n: nat)
    requires DecodeItems(s, n, STRICT).Some?
    ensures var (items, rest) := DecodeItems(s, n, STRICT).value; s == EncodeItems(items) + rest
    decreases |s|, 1
  {
    if n == 0 {
      assert s == [] + s;
    } else {
      var (first, after) := Decode(s, STRICT).value;
      var (others, rest) := DecodeItems(after, n - 1, STRICT).value;
      StrictIsCanonical(s);
      StrictItemsCanonical(after, n - 1);
      var items := [first] + others;
      assert items[0] == first && items[1..] == others;
      assert s == Encode(first) + (EncodeItems(others) + rest);
      assert Encode(first) + EncodeItems(others) + rest == Encode(first) + (EncodeItems(others) + rest);
    }
  }

  /** So every value has one canonical form, and the canonical decoder is exactly the encoder's inverse. */
  lemma CanonicalIsInverse(s: seq<Byte>, v: Value)
    ensures DecodeCanonical(s) == Ok(v) <==> Valid(v) && s == Encode(v)
  {
    if Valid(v) && s == Encode(v) {
      RoundTrip(v, STRICT, []);
      assert Encode(v) + [] == s;
    }
    if DecodeCanonical(s) == Ok(v) {
      assert Valid(v);
    }
  }

  /** And what the lax reader can still make sense of without being canonical is refused under that name. */
  lemma NonCanonicalExactly(s: seq<Byte>)
    ensures DecodeCanonical(s) == Err(NonCanonical)
            <==> DecodeAll(s, LAX).Some? && Encode(DecodeAll(s, LAX).value) != s
  {
    var strict := DecodeAll(s, STRICT);
    if strict.Some? {
      StrictIsCanonical(s);
      assert Encode(strict.value) + [] == Encode(strict.value);
      RoundTrip(strict.value, LAX, []);
    }
  }

  // ------------------------------------------------------------------ shortest form

  /** No head that reads as the same argument is shorter. */
  lemma HeadIsShortest(s: seq<Byte>, o: Options)
    requires ReadHead(s, o).Some? && ReadHead(s, o).value.1.Definite?
    ensures var (major, argument, used) := ReadHead(s, o).value; |Head(major, argument.n)| <= used
  {
    var (major, argument, used) := ReadHead(s, o).value;
    if used > 1 {
      Powers();
      BigEndianUnique(s[1..used]);
      assert |s[1..used]| == used - 1 && argument.n < Power(used - 1);
    }
  }

  /** Among all the bytes a reader of definite lengths takes for a value, minimal or not, its encoding is the shortest. */
  lemma {:induction false} EncodingIsShortest(s: seq<Byte>, o: Options)
    requires !o.indefinite && Decode(s, o).Some?
    ensures var (v, rest) := Decode(s, o).value; |Encode(v)| <= |s| - |rest|
    decreases |s|, 0
  {
    var (major, argument, used) := ReadHead(s, o).value;
    HeadIsShortest(s, o);
    if major == 4 { ItemsAreShortest(s[used..], argument.n, o); }
  }

  lemma {:induction false} ItemsAreShortest(s: seq<Byte>, n: nat, o: Options)
    requires !o.indefinite && DecodeItems(s, n, o).Some?
    ensures var (items, rest) := DecodeItems(s, n, o).value; |EncodeItems(items)| <= |s| - |rest|
    decreases |s|, 1
  {
    if n > 0 {
      var (first, after) := Decode(s, o).value;
      var (others, rest) := DecodeItems(after, n - 1, o).value;
      EncodingIsShortest(s, o);
      ItemsAreShortest(after, n - 1, o);
      assert ([first] + others)[1..] == others;
    }
  }

  /** The only thing of no stated length is an array, and only for a reader that admits it. */
  lemma IndefiniteIsAnArray(s: seq<Byte>, o: Options)
    requires s != [] && s[0] as nat % 32 == 31 && Decode(s, o).Some?
    ensures o.indefinite && s[0] == 0x9f && Decode(s, o).value.0.Array?
  {}

  // -------------------------------------------------------------------- mutations

  predicate SmallArrayHead(s: seq<Byte>) { s != [] && 0x80 <= s[0] <= 0x97 }

  function Widened(s: seq<Byte>): seq<Byte>
    requires SmallArrayHead(s)
  {
    [0x98, s[0] - 0x80] + s[1..]
  }

  function MadeIndefinite(s: seq<Byte>): seq<Byte>
    requires SmallArrayHead(s)
  {
    [0x9f] + s[1..] + [0xff]
  }

  method WidenArrayHeader(transcript: array<Byte>) returns (out: Option<array<Byte>>)
    ensures out.Some? <==> SmallArrayHead(transcript[..])
    ensures out.Some? ==> fresh(out.value) && out.value[..] == Widened(transcript[..])
  {
    if transcript.Length == 0 || transcript[0] < 0x80 || transcript[0] > 0x97 { return None; }
    var a := new Byte[transcript.Length + 1];
    a[0] := 0x98;
    a[1] := transcript[0] - 0x80;
    forall i | 1 <= i < transcript.Length {
      a[i + 1] := transcript[i];
    }
    return Some(a);
  }

  method IndefiniteArray(transcript: array<Byte>) returns (out: Option<array<Byte>>)
    ensures out.Some? <==> SmallArrayHead(transcript[..])
    ensures out.Some? ==> fresh(out.value) && out.value[..] == MadeIndefinite(transcript[..])
  {
    if transcript.Length == 0 || transcript[0] < 0x80 || transcript[0] > 0x97 { return None; }
    var a := new Byte[transcript.Length + 1];
    a[0] := 0x9f;
    forall i | 1 <= i < transcript.Length {
      a[i] := transcript[i];
    }
    a[a.Length - 1] := 0xff;
    return Some(a);
  }

  lemma EncodedArray(items: seq<Value>)
    requires Valid(Array(items)) && |items| <= 23
    ensures var s := Encode(Array(items));
            SmallArrayHead(s) && s[0] == ToByte(0x80 + |items|) && s[1..] == EncodeItems(items)
  {}

  lemma OneByteHead(major: nat, n: nat)
    requires major < 8 && n < 256
    ensures n < Power(1) && HeadIn(major, n, 1) == [ToByte(major * 32 + 24), ToByte(n)]
  {
    assert Power(1) == 256 * Power(0);
    assert BigEndian(n, 1) == BigEndian(n / 256, 0) + [ToByte(n % 256)] == [ToByte(n)];
  }

  lemma WidenedIsWide(items: seq<Value>)
    requires Valid(Array(items)) && |items| <= 23
    ensures SmallArrayHead(Encode(Array(items))) && |items| < Power(1)
    ensures var s := Widened(Encode(Array(items)));
            s == HeadIn(4, |items|, 1) + EncodeItems(items) && s[2..] == EncodeItems(items) && |s| == |Encode(Array(items))| + 1
  {
    EncodedArray(items);
    OneByteHead(4, |items|);
  }

  /** A wide array head over its items. */
  lemma WideArrayDecodes(s: seq<Byte>, items: seq<Value>)
    requires Valid(Array(items)) && |items| <= 23 && |items| < Power(1)
    requires s == HeadIn(4, |items|, 1) + EncodeItems(items) && s[2..] == EncodeItems(items)
    ensures Decode(s, LAX) == Some((Array(items), [])) && Decode(s, STRICT) == None
  {
    var body := EncodeItems(items);
    HeadInReads(4, |items|, 1, LAX, body);
    HeadInReads(4, |items|, 1, STRICT, body);
    ItemsRoundTrip(items, LAX, []);
    assert body + [] == body;
  }

  /**
   The widened header still means the same value to a reader that does not mind,
   and the strict reader and the re-encode check both refuse it.
   */
  lemma WidenedIsRefused(items: seq<Value>)
    requires Valid(Array(items)) && |items| <= 23
    ensures SmallArrayHead(Encode(Array(items)))
    ensures var s := Widened(Encode(Array(items)));
            && DecodeAll(s, LAX) == Some(Array(items))
            && DecodeAll(s, STRICT) == None
            && DecodeCanonical(s) == Err(NonCanonical)
  {
    WidenedIsWide(items);
    WideArrayDecodes(Widened(Encode(Array(items))), items);
  }

  /** An array of no stated length is refused outright, though it too means the same value where it is admitted. */
  lemma IndefiniteIsRefused(items: seq<Value>, minimal: bool)
    requires Valid(Array(items)) && |items| <= 23
    ensures SmallArrayHead(Encode(Array(items)))
    ensures var s := MadeIndefinite(Encode(Array(items)));
            && DecodeAll(s, Options(minimal, true)) == Some(Array(items))
            && DecodeCanonical(s) == Err(Malformed)
  {
    EncodedArray(items);
    var s := MadeIndefinite(Encode(Array(items)));
    assert s[1..] == EncodeItems(items) + [0xff];
    BreakRoundTrip(items, Options(minimal, true));
    IndefiniteHead(s, minimal);
  }

  lemma IndefiniteHead(s: seq<Byte>, minimal: bool)
    requires s != [] && s[0] == 0x9f
    ensures ReadHead(s, Options(minimal, true)) == Some((4, Indefinite, 1)) && ReadHead(s, STRICT) == None && ReadHead(s, LAX) == None
  {}

  lemma {:induction false} BreakRoundTrip(items: seq<Value>, o: Options)
    requires forall i :: 0 <= i < |items| ==> Valid(items[i])
    ensures DecodeUntilBreak(EncodeItems(items) + [0xff], o) == Some((items, []))
    decreases |items|
  {
    if items == [] {
      assert (EncodeItems(items) + [0xff])[1..] == [];
    } else {
      var s, rest := EncodeItems(items) + [0xff], EncodeItems(items[1..]) + [0xff];
      assert s == Encode(items[0]) + rest;
      NotABreak(items[0]);
      RoundTrip(items[0], o, rest);
      BreakRoundTrip(items[1..], o);
      assert [items[0]] + items[1..] == items;
    }
  }

  lemma NotABreak(v: Value)
    requires Valid(v)
    ensures Encode(v)[0] != 0xff
  {
    Powers();
  }
}
