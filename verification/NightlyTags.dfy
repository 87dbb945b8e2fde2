/**
 Reading and writing tags: the stable and nightly parsers, character by character
 as their patterns have it, the nightly printer, and where a nightly stands among
 the stable versions around it.
 */
module NightlyTags {
  import opened Prelude
  import opened ReleaseTags

  // --------------------------------------------------------------------- scanning

  /** The length of the longest run of digits at the front. */
  function Digits(s: string): (n: nat)
    ensures n <= |s| && AllDigits(s[..n]) && (n < |s| ==> !IsDigit(s[n]))
  {
    if s == "" || !IsDigit(s[0]) then 0
    else
      var n := Digits(s[1..]);
      assert s[..1 + n] == [s[0]] + s[1..][..n];
      1 + n
  }

  /** One or more digits and what follows them. */
  function TakeNumber(s: string): Option<(nat, string)> {
    var n := Digits(s);
    if n == 0 then None else Some((Number(s[..n]), s[n..]))
  }

  /** A dot, then one or more digits. */
  function TakeDotNumber(s: string): Option<(nat, string)> {
    if s == "" || s[0] != '.' then None else TakeNumber(s[1..])
  }

  datatype Core = Core(major: nat, minor: nat, patch: nat, rest: string)

  function TakeCore(s: string): Option<Core> {
    var a := TakeNumber(s);
    if a.None? then None
    else
      var b := TakeDotNumber(a.value.1);
      if b.None? then None
      else
        var c := TakeDotNumber(b.value.1);
        if c.None? then None else Some(Core(a.value.0, b.value.0, c.value.0, c.value.1))
  }

  predicate IdentifierChar(c: char) { IsDigit(c) || 'A' <= c <= 'Z' || 'a' <= c <= 'z' || c == '.' || c == '-' }

  predicate Identifiers(s: string) { s != "" && forall i :: 0 <= i < |s| ==> IdentifierChar(s[i]) }

  /** Where a character first occurs, or the end. */
  function IndexOf(s: string, c: char): (i: nat)
    ensures i <= |s| && (i < |s| ==> s[i] == c) && forall j :: 0 <= j < i ==> s[j] != c
  {
    if s == "" || s[0] == c then 0
    else
      var i := IndexOf(s[1..], c);
      assert forall j :: 0 < j < |s| ==> s[j] == s[1..][j - 1];
      1 + i
  }

  function SplitDots(s: string): (parts: seq<string>)
    ensures |parts| > 0
    decreases |s|
  {
    var i := IndexOf(s, '.');
    if i == |s| then [s] else [s[..i]] + SplitDots(s[i + 1..])
  }

  // ---------------------------------------------------------------------- parsers

  /** The optional prerelease after a hyphen and the optional build after a plus; nothing else may follow. */
  function TakePrerelease(rest: string): Option<seq<string>> {
    if rest == "" then Some([])
    else if rest[0] == '+' then if Identifiers(rest[1..]) then Some([]) else None
    else if rest[0] != '-' then None
    else
      var plus := IndexOf(rest, '+');
      var ids := rest[1..plus];
      if !Identifiers(ids) || (plus < |rest| && !Identifiers(rest[plus + 1..])) then None else Some(SplitDots(ids))
  }

  function ParseStable(tag: string): Option<Stable> {
    if tag == "" || tag[0] != 'v' then None
    else
      var core := TakeCore(tag[1..]);
      if core.None? then None
      else
        var pre := TakePrerelease(core.value.rest);
        if pre.None? || (pre.value != [] && pre.value[0] == "nightly") then None
        else Some(Stable(core.value.major, core.value.minor, core.value.patch, pre.value))
  }

  const LEGACY := "nightly-"
  const SUFFIX := "-nightly."

  function ParseNightly(tag: string): Option<Nightly> {
    var t := if LEGACY <= tag then tag[|LEGACY|..] else tag;
    if t == "" || t[0] != 'v' then None
    else
      var core := TakeCore(t[1..]);
      if core.None? then None else TakeNightly(core.value)
  }

  /** The nightly part: the word, eight digits, a dot, and digits to the end. */
  function TakeNightly(core: Core): Option<Nightly> {
    var rest := core.rest;
    if |rest| < 19 || rest[..9] != SUFFIX || !AllDigits(rest[9..17]) || rest[17] != '.' || !Numeral(rest[18..]) then None
    else Some(Nightly(core.major, core.minor, core.patch, Number(rest[9..17]), Number(rest[18..])))
  }

  // ---------------------------------------------------------------------- printer

  /** A version without its prerelease and build. */
  function BaseVersion(version: string): string {
    var hyphen, plus := IndexOf(version, '-'), IndexOf(version, '+');
    version[..if hyphen < plus then hyphen else plus]
  }

  /** Core digits as written, and the number after each. */
  datatype CoreText = CoreText(major: string, minor: string, patch: string) {
    predicate Valid() { Numeral(major) && Numeral(minor) && Numeral(patch) }

    function Text(): string { major + "." + minor + "." + patch }
  }

  /** The next patch of a desktop version's stable core; anything else is an error. */
  function TargetVersion(version: string): Option<CoreText> { NextPatch(BaseVersion(version)) }

  function NextPatch(core: string): Option<CoreText> {
    var a := Digits(core);
    if a == 0 || a >= |core| || core[a] != '.' then None else NextPatchIn(core[..a], core[a + 1..])
  }

  function NextPatchIn(major: string, afterMajor: string): Option<CoreText> {
    var b := Digits(afterMajor);
    if b == 0 || b >= |afterMajor| || afterMajor[b] != '.' || !Numeral(afterMajor[b + 1..]) then None
    else Some(CoreText(major, afterMajor[..b], Decimal(Number(afterMajor[b + 1..]) + 1)))
  }

  function NightlyTag(base: CoreText, date: string, run: nat): string {
    "v" + (base.Text() + (SUFFIX + date + "." + Decimal(run)))
  }

  /** A calendar date as the workflow passes it: eight digits. */
  predicate IsDate(date: string) { |date| == 8 && AllDigits(date) }

  // --------------------------------------------------------------------- theorems

  lemma {:induction false} DigitsStop(s: string, rest: string)
    requires AllDigits(s) && (rest == "" || !IsDigit(rest[0]))
    ensures Digits(s + rest) == |s|
    decreases |s|
  {
    if s == "" {
      assert s + rest == rest;
    } else {
      assert (s + rest)[1..] == s[1..] + rest;
      DigitsStop(s[1..], rest);
    }
  }

  lemma TakesNumber(s: string, rest: string)
    requires Numeral(s) && (rest == "" || !IsDigit(rest[0]))
    ensures TakeNumber(s + rest) == Some((Number(s), rest))
  {
    DigitsStop(s, rest);
    assert (s + rest)[..|s|] == s && (s + rest)[|s|..] == rest;
  }

  lemma TakesDotNumber(s: string, rest: string)
    requires Numeral(s) && (rest == "" || !IsDigit(rest[0]))
    ensures TakeDotNumber("." + (s + rest)) == Some((Number(s), rest))
  {
    assert ("." + (s + rest))[1..] == s + rest;
    TakesNumber(s, rest);
  }

  lemma CoreNested(a: string, b: string, c: string, rest: string)
    ensures a + "." + b + "." + c + rest == a + ("." + (b + ("." + (c + rest))))
  {}

  lemma TakesCore(c: CoreText, rest: string)
    requires c.Valid() && (rest == "" || !IsDigit(rest[0]))
    ensures TakeCore(c.Text() + rest) == Some(Core(Number(c.major), Number(c.minor), Number(c.patch), rest))
  {
    CoreNested(c.major, c.minor, c.patch, rest);
    TakesNumber(c.major, "." + (c.minor + ("." + (c.patch + rest))));
    TakesDotNumber(c.minor, "." + (c.patch + rest));
    TakesDotNumber(c.patch, rest);
  }

  /** The nightly a core, a date and a run number stand for. */
  function Meant(base: CoreText, date: string, run: nat): Nightly
    requires base.Valid() && IsDate(date)
  {
    Nightly(Number(base.major), Number(base.minor), Number(base.patch), Number(date), run)
  }

  lemma TakesNightly(major: nat, minor: nat, patch: nat, date: string, run: nat)
    requires IsDate(date)
    ensures TakeNightly(Core(major, minor, patch, SUFFIX + date + "." + Decimal(run)))
            == Some(Nightly(major, minor, patch, Number(date), run))
  {
    var number := Decimal(run);
    var rest := SUFFIX + date + "." + number;
    assert |SUFFIX| == 9 && |rest| == 18 + |number|;
    assert rest[..9] == SUFFIX;
    assert rest[9..17] == date;
    assert rest[17] == '.';
    assert rest[18..] == number;
    DecimalReads(run);
  }

  /** The nightly parser inverts the printer: every core, date and run number comes back. */
  lemma NightlyRoundTrip(base: CoreText, date: string, run: nat)
    requires base.Valid() && IsDate(date)
    ensures ParseNightly(NightlyTag(base, date, run)) == Some(Meant(base, date, run))
  {
    var rest := SUFFIX + date + "." + Decimal(run);
    AfterV(base.Text() + rest);
    assert rest[0] == SUFFIX[0] == '-';
    TakesCore(base, rest);
    TakesNightly(Number(base.major), Number(base.minor), Number(base.patch), date, run);
  }

  lemma AfterV(s: string)
    ensures var tag := "v" + s; tag[0] == 'v' && tag[1..] == s && !(LEGACY <= tag)
  {
    assert ("v" + s)[0] == 'v' && LEGACY[0] == 'n';
  }

  /** What reads as a stable version: its prerelease does not begin with the word. */
  predicate StableRest(rest: string) {
    TakePrerelease(rest).Some? && (TakePrerelease(rest).value == [] || TakePrerelease(rest).value[0] != "nightly")
  }

  lemma StableParts(tag: string)
    requires ParseStable(tag).Some?
    ensures tag != "" && tag[0] == 'v' && TakeCore(tag[1..]).Some? && StableRest(TakeCore(tag[1..]).value.rest)
  {}

  lemma NightlyParts(tag: string)
    requires ParseNightly(tag).Some? && !(LEGACY <= tag)
    ensures tag != "" && tag[0] == 'v' && TakeCore(tag[1..]).Some? && TakeNightly(TakeCore(tag[1..]).value).Some?
  {}

  lemma LegacyIsNotStable(tag: string)
    requires LEGACY <= tag
    ensures ParseStable(tag).None?
  {
    assert tag[0] == LEGACY[0] == 'n';
  }

  /** No tag is both: what reads as a nightly does not read as a stable version. */
  lemma NeverBoth(tag: string)
    ensures ParseNightly(tag).Some? ==> ParseStable(tag).None?
  {
    if LEGACY <= tag {
      LegacyIsNotStable(tag);
    } else if ParseNightly(tag).Some? {
      NightlyParts(tag);
      NightlyPrerelease(TakeCore(tag[1..]).value);
      if ParseStable(tag).Some? {
        StableParts(tag);
        assert false;
      }
    }
  }

  lemma NightlyCharacters(rest: string, date: string, run: string)
    requires rest == SUFFIX + date + "." + run && IsDate(date) && AllDigits(run)
    ensures forall i :: 0 <= i < |rest| ==> rest[i] != '+' && IdentifierChar(rest[i])
  {
    forall i | 0 <= i < |rest| ensures rest[i] != '+' && IdentifierChar(rest[i]) {
      if i < 9 {
        assert rest[i] == SUFFIX[i];
      } else if i < 17 {
        assert rest[i] == date[i - 9];
      } else if i > 17 {
        assert rest[i] == run[i - 18];
      }
    }
  }

  lemma NightlySplit(date: string, run: string)
    requires IsDate(date) && AllDigits(run)
    ensures SplitDots("nightly" + "." + (date + "." + run)) == ["nightly", date, run]
  {
    SplitFirst("nightly", date + "." + run);
    SplitFirst(date, run);
    SplitLast(run);
  }

  lemma NightlyRest(core: Core)
    requires TakeNightly(core).Some?
    ensures var date, run := core.rest[9..17], core.rest[18..];
            IsDate(date) && Numeral(run) && core.rest == SUFFIX + date + "." + run
  {
    var rest := core.rest;
    assert rest == rest[..9] + rest[9..17] + [rest[17]] + rest[18..];
  }

  lemma NightlyPrereleaseOf(rest: string, date: string, run: string)
    requires rest == SUFFIX + date + "." + run && IsDate(date) && AllDigits(run)
    ensures TakePrerelease(rest) == Some(["nightly", date, run])
  {
    NightlyCharacters(rest, date, run);
    assert rest[0] == SUFFIX[0] == '-';
    assert IndexOf(rest, '+') == |rest|;
    assert rest[1..|rest|] == "nightly" + "." + (date + "." + run);
    NightlySplit(date, run);
  }

  lemma NightlyPrerelease(core: Core)
    requires TakeNightly(core).Some?
    ensures TakePrerelease(core.rest) == Some(["nightly", core.rest[9..17], core.rest[18..]])
  {
    NightlyRest(core);
    NightlyPrereleaseOf(core.rest, core.rest[9..17], core.rest[18..]);
  }

  lemma SplitFirst(a: string, b: string)
    requires forall i :: 0 <= i < |a| ==> a[i] != '.'
    ensures SplitDots(a + "." + b) == [a] + SplitDots(b)
  {
    var s := a + "." + b;
    assert s[|a|] == '.' && forall i :: 0 <= i < |a| ==> s[i] == a[i];
    assert IndexOf(s, '.') == |a|;
    assert s[..|a|] == a && s[|a| + 1..] == b;
  }

  lemma SplitLast(a: string)
    requires forall i :: 0 <= i < |a| ==> a[i] != '.'
    ensures SplitDots(a) == [a]
  {
    assert IndexOf(a, '.') == |a|;
  }

  /** A nightly tag read as a version with prerelease identifiers. */
  function AsStable(base: CoreText, date: string, run: nat): Stable
    requires base.Valid()
  {
    Stable(Number(base.major), Number(base.minor), Number(base.patch), ["nightly", date, Decimal(run)])
  }

  /** The target of a desktop version is the next patch of its core. */
  lemma TargetIsNextPatch(version: string, core: CoreText)
    requires core.Valid() && BaseVersion(version) == core.Text()
    ensures TargetVersion(version) == Some(core.(patch := Decimal(Number(core.patch) + 1)))
  {
    CoreNested(core.major, core.minor, core.patch, "");
    assert core.patch + "" == core.patch && core.Text() + "" == core.Text();
    NextPatchOf(core);
  }

  /** The text starts with these digits, then a dot, then the rest. */
  predicate DotAfter(text: string, digits: string, rest: string) {
    && Digits(text) == |digits| < |text| && text[|digits|] == '.'
    && text[..|digits|] == digits && text[|digits| + 1..] == rest
  }

  lemma NumberThenDot(s: string, rest: string)
    requires Numeral(s)
    ensures DotAfter(s + ("." + rest), s, rest)
  {
    DigitsStop(s, "." + rest);
  }

  lemma NextPatchReads(text: string, major: string, afterMajor: string)
    requires DotAfter(text, major, afterMajor) && major != ""
    ensures NextPatch(text) == NextPatchIn(major, afterMajor)
  {}

  lemma NextPatchInReads(major: string, text: string, minor: string, patch: string)
    requires DotAfter(text, minor, patch) && minor != "" && Numeral(patch)
    ensures NextPatchIn(major, text) == Some(CoreText(major, minor, Decimal(Number(patch) + 1)))
  {}

  lemma NextPatchChain(text: string, rest: string, core: CoreText)
    requires core.Valid() && DotAfter(text, core.major, rest) && DotAfter(rest, core.minor, core.patch)
    ensures NextPatch(text) == Some(core.(patch := Decimal(Number(core.patch) + 1)))
  {
    NextPatchReads(text, core.major, rest);
    NextPatchInReads(core.major, rest, core.minor, core.patch);
  }

  lemma NextPatchOf(core: CoreText)
    requires core.Valid()
    ensures NextPatch(core.major + ("." + (core.minor + ("." + core.patch))))
            == Some(core.(patch := Decimal(Number(core.patch) + 1)))
  {
    var rest := core.minor + ("." + core.patch);
    NumberThenDot(core.minor, core.patch);
    NumberThenDot(core.major, rest);
    NextPatchChain(core.major + ("." + rest), rest, core);
  }

  /** Strictly between a stable core and its next patch. */
  predicate Between(collate: (string, string) -> int, v: Stable, major: nat, minor: nat, patch: nat) {
    && CompareStable(collate, Stable(major, minor, patch, []), v) < 0
    && CompareStable(collate, v, Stable(major, minor, patch + 1, [])) < 0
  }

  /** What the printer writes for a desktop version stands strictly between its stable core and the next patch. */
  lemma NightlyIsBetween(collate: (string, string) -> int, version: string, core: CoreText, date: string, run: nat)
    requires core.Valid() && BaseVersion(version) == core.Text()
    ensures var target := TargetVersion(version);
            && target.Some? && target.value.Valid()
            && Between(collate, AsStable(target.value, date, run), Number(core.major), Number(core.minor), Number(core.patch))
  {
    TargetIsNextPatch(version, core);
    var target := core.(patch := Decimal(Number(core.patch) + 1));
    DecimalReads(Number(core.patch) + 1);
    assert Number(target.patch) == Number(core.patch) + 1;
    NextPatchIsBetween(collate, AsStable(target, date, run), Number(core.patch));
  }

  lemma NextPatchIsBetween(collate: (string, string) -> int, v: Stable, patch: nat)
    requires v.patch == patch + 1 && v.prerelease != []
    ensures Between(collate, v, v.major, v.minor, patch)
  {}

  predicate SameSign(a: int, b: int) { (a < 0 <==> b < 0) && (a > 0 <==> b > 0) }

  lemma NightlyIdentifiers(collate: (string, string) -> int, p: seq<string>, q: seq<string>)
    requires |p| == |q| == 3 && p[0] == q[0] && !Numeral(p[0]) && collate(p[0], q[0]) == 0
    requires Numeral(p[1]) && Numeral(q[1]) && Numeral(p[2]) && Numeral(q[2])
    ensures CompareFrom(collate, p, q, 0)
            == if Number(p[1]) != Number(q[1]) then Number(p[1]) - Number(q[1]) else Number(p[2]) - Number(q[2])
  {
    assert CompareFrom(collate, p, q, 3) == 0;
    assert CompareFrom(collate, p, q, 2) == Number(p[2]) - Number(q[2]);
    assert CompareFrom(collate, p, q, 0) == CompareFrom(collate, p, q, 1);
  }

  /** The two orders agree on nightlies: the nightly order is the version order on the tag's identifiers. */
  lemma OrdersAgree(collate: (string, string) -> int, a: CoreText, date: string, run: nat,
                    b: CoreText, date': string, run': nat)
    requires TotalPreorder(collate) && a.Valid() && b.Valid() && IsDate(date) && IsDate(date')
    ensures SameSign(CompareNightly(Meant(a, date, run), Meant(b, date', run')),
                     CompareStable(collate, AsStable(a, date, run), AsStable(b, date', run')))
  {
    DecimalReads(run);
    DecimalReads(run');
    Reflexive("nightly", collate);
    assert !Numeral("nightly") by { assert !IsDigit("nightly"[0]); }
    NightlyIdentifiers(collate, AsStable(a, date, run).prerelease, AsStable(b, date', run').prerelease);
  }

  /** A later date, or the same date and a later run, is a strictly greater nightly of the same core. */
  lemma LaterIsGreater(base: CoreText, date: string, run: nat, date': string, run': nat)
    requires base.Valid() && IsDate(date) && IsDate(date')
    requires Number(date) < Number(date') || (date == date' && run < run')
    ensures var earlier, later := ParseNightly(NightlyTag(base, date, run)), ParseNightly(NightlyTag(base, date', run'));
            earlier.Some? && later.Some? && CompareNightly(earlier.value, later.value) < 0
  {
    NightlyRoundTrip(base, date, run);
    NightlyRoundTrip(base, date', run');
  }

  // ------------------------------------------------------------ what the parsers take

  /** Letters, digits, the dot and the hyphen, by their codes. */
  lemma IdentifierCharacters(c: char)
    ensures var n := c as int;
            IdentifierChar(c) <==> 48 <= n <= 57 || 65 <= n <= 90 || 97 <= n <= 122 || n == 45 || n == 46
  {}

  /** The text does not begin with a digit. */
  predicate NoDigitFirst(rest: string) { rest == "" || !('0' <= rest[0] <= '9') }

  lemma NumberTaken(s: string)
    ensures var t := TakeNumber(s);
            t.Some? ==> var digits := s[..Digits(s)];
                        Numeral(digits) && s == digits + t.value.1 && t.value.0 == Number(digits) && NoDigitFirst(t.value.1)
  {
    assert s == s[..Digits(s)] + s[Digits(s)..];
  }

  lemma DotNumberTaken(s: string) returns (digits: string)
    requires TakeDotNumber(s).Some?
    ensures var t := TakeDotNumber(s).value;
            Numeral(digits) && s == "." + (digits + t.1) && t.0 == Number(digits) && NoDigitFirst(t.1)
  {
    NumberTaken(s[1..]);
    digits := s[1..][..Digits(s[1..])];
    assert s == "." + s[1..];
  }

  /** Three numerals with dots between them, their values, and what follows. */
  predicate CoreReads(s: string, c: CoreText, core: Core) {
    && c.Valid() && s == c.Text() + core.rest && NoDigitFirst(core.rest)
    && core.major == Number(c.major) && core.minor == Number(c.minor) && core.patch == Number(c.patch)
  }

  /** The steps of the core's reader. */
  lemma CoreSteps(s: string)
    requires TakeCore(s).Some?
    ensures var core := TakeCore(s).value;
            && TakeNumber(s).Some? && TakeNumber(s).value.0 == core.major
            && (var afterMajor := TakeNumber(s).value.1;
                && TakeDotNumber(afterMajor).Some? && TakeDotNumber(afterMajor).value.0 == core.minor
                && TakeDotNumber(TakeDotNumber(afterMajor).value.1) == Some((core.patch, core.rest)))
  {}

  lemma CoreTextIs(s: string, a: string, b: string, c: string, afterMajor: string, afterMinor: string, rest: string)
    requires s == a + afterMajor && afterMajor == "." + (b + afterMinor) && afterMinor == "." + (c + rest)
    ensures s == CoreText(a, b, c).Text() + rest
  {
    CoreNested(a, b, c, rest);
  }

  lemma CoreTaken(s: string) returns (c: CoreText)
    requires TakeCore(s).Some?
    ensures CoreReads(s, c, TakeCore(s).value)
  {
    CoreSteps(s);
    NumberTaken(s);
    var afterMajor := TakeNumber(s).value.1;
    var minor := DotNumberTaken(afterMajor);
    var afterMinor := TakeDotNumber(afterMajor).value.1;
    var patch := DotNumberTaken(afterMinor);
    c := CoreText(s[..Digits(s)], minor, patch);
    CoreTextIs(s, c.major, minor, patch, afterMajor, afterMinor, TakeCore(s).value.rest);
  }

  /** A core's numbers. */
  predicate NumbersOf(c: CoreText, major: nat, minor: nat, patch: nat) {
    c.Valid() && major == Number(c.major) && minor == Number(c.minor) && patch == Number(c.patch)
  }

  /** A tag with a core and what follows it. */
  predicate TagOf(tag: string, c: CoreText, rest: string) { tag == "v" + (c.Text() + rest) }

  lemma TagTaken(tag: string) returns (c: CoreText)
    requires tag != "" && tag[0] == 'v' && TakeCore(tag[1..]).Some?
    ensures var core := TakeCore(tag[1..]).value;
            TagOf(tag, c, core.rest) && NumbersOf(c, core.major, core.minor, core.patch) && NoDigitFirst(core.rest)
  {
    c := CoreTaken(tag[1..]);
    assert tag == "v" + tag[1..];
  }

  lemma TagReads(tag: string, c: CoreText, rest: string)
    requires TagOf(tag, c, rest) && c.Valid() && NoDigitFirst(rest)
    ensures tag != "" && tag[0] == 'v' && !(LEGACY <= tag)
    ensures TakeCore(tag[1..]) == Some(Core(Number(c.major), Number(c.minor), Number(c.patch), rest))
  {
    AfterV(c.Text() + rest);
    TakesCore(c, rest);
  }

  /** The nightly part of a tag as the pattern has it. */
  predicate NightlyRestOf(rest: string, date: string, run: string) {
    IsDate(date) && Numeral(run) && rest == SUFFIX + date + "." + run
  }

  /** A nightly tag without the old prefix, and the numbers it was written with. */
  ghost predicate NightlyWritten(tag: string, v: Nightly) {
    exists c: CoreText, rest, date, run :: NightlyOf(tag, v, c, rest, date, run)
  }

  predicate NightlyOf(tag: string, v: Nightly, c: CoreText, rest: string, date: string, run: string) {
    && TagOf(tag, c, rest) && NumbersOf(c, v.major, v.minor, v.patch) && NightlyRestOf(rest, date, run)
    && v.date == Number(date) && v.run == Number(run)
  }

  lemma NightlyTaken(tag: string)
    requires ParseNightly(tag).Some? && !(LEGACY <= tag)
    ensures NightlyWritten(tag, ParseNightly(tag).value)
  {
    NightlyParts(tag);
    var c := TagTaken(tag);
    var core := TakeCore(tag[1..]).value;
    NightlyRest(core);
    assert NightlyOf(tag, ParseNightly(tag).value, c, core.rest, core.rest[9..17], core.rest[18..]);
  }

  lemma TakesNightlyText(core: Core, date: string, run: string)
    requires NightlyRestOf(core.rest, date, run)
    ensures NoDigitFirst(core.rest)
    ensures TakeNightly(core) == Some(Nightly(core.major, core.minor, core.patch, Number(date), Number(run)))
  {
    var rest := core.rest;
    assert |SUFFIX| == 9 && |rest| == 18 + |run| && rest[0] == SUFFIX[0] == '-';
    assert rest[..9] == SUFFIX && rest[9..17] == date && rest[17] == '.' && rest[18..] == run;
  }

  lemma NightlyReads(tag: string, v: Nightly)
    requires NightlyWritten(tag, v)
    ensures ParseNightly(tag) == Some(v) && !(LEGACY <= tag)
  {
    var c: CoreText, rest, date, run :| NightlyOf(tag, v, c, rest, date, run);
    TakesNightlyText(Core(v.major, v.minor, v.patch, rest), date, run);
    TagReads(tag, c, rest);
  }

  /** The nightly parser takes exactly the nightly tags and reads the numbers they were written with; the old prefix is skipped, once. */
  lemma NightlyParsedExactly(tag: string, v: Nightly)
    ensures !(LEGACY <= tag) ==> (ParseNightly(tag) == Some(v) <==> NightlyWritten(tag, v))
    ensures ParseNightly(LEGACY + tag) == Some(v) <==> NightlyWritten(tag, v)
  {
    assert (LEGACY + tag)[|LEGACY|..] == tag && LEGACY <= LEGACY + tag;
    if NightlyWritten(tag, v) {
      NightlyReads(tag, v);
    } else if !(LEGACY <= tag) && ParseNightly(tag).Some? {
      NightlyTaken(tag);
    } else if LEGACY <= tag {
      assert tag[0] == LEGACY[0] == 'n';
    }
  }

  function JoinDots(parts: seq<string>): string
    requires parts != []
  {
    if |parts| == 1 then parts[0] else parts[0] + ("." + JoinDots(parts[1..]))
  }

  lemma JoinMore(first: string, rest: seq<string>)
    requires rest != []
    ensures JoinDots([first] + rest) == first + ("." + JoinDots(rest))
  {
    assert ([first] + rest)[1..] == rest;
  }

  predicate NoDots(parts: seq<string>) { forall i :: 0 <= i < |parts| ==> '.' !in parts[i] }

  lemma NoDotsMore(first: string, rest: seq<string>)
    requires '.' !in first && NoDots(rest)
    ensures NoDots([first] + rest)
  {}

  lemma OnePiece(s: string)
    requires IndexOf(s, '.') == |s|
    ensures SplitDots(s) == [s] && JoinDots([s]) == s && NoDots([s])
  {}

  /** A text around one of its dots. */
  lemma CutAt(s: string, i: nat)
    requires i < |s| && s[i] == '.'
    ensures s == s[..i] + ("." + s[i + 1..])
  {
    var tail := "." + s[i + 1..];
    assert |s[..i] + tail| == |s|;
    forall k | 0 <= k < |s| ensures s[k] == (s[..i] + tail)[k] {
      assert k > i ==> tail[k - i] == s[i + 1..][k - i - 1];
    }
  }

  lemma SplitsAt(s: string, i: nat)
    requires i == IndexOf(s, '.') < |s|
    ensures SplitDots(s) == [s[..i]] + SplitDots(s[i + 1..]) && '.' !in s[..i]
  {}

  lemma FirstPiece(s: string) returns (first: string, after: string)
    requires IndexOf(s, '.') < |s|
    ensures SplitDots(s) == [first] + SplitDots(after) && s == first + ("." + after) && '.' !in first && |after| < |s|
  {
    var i := IndexOf(s, '.');
    first, after := s[..i], s[i + 1..];
    CutAt(s, i);
    SplitsAt(s, i);
  }

  /** Splitting at the dots: the pieces hold none, and joining them gives the text back. */
  lemma {:induction false} SplitIsJoined(s: string)
    ensures JoinDots(SplitDots(s)) == s && NoDots(SplitDots(s))
    decreases |s|
  {
    if IndexOf(s, '.') == |s| {
      OnePiece(s);
    } else {
      var first, after := FirstPiece(s);
      SplitIsJoined(after);
      JoinMore(first, SplitDots(after));
      NoDotsMore(first, SplitDots(after));
    }
  }

  predicate AllIdentifier(s: string) { forall i :: 0 <= i < |s| ==> IdentifierChar(s[i]) }

  function AfterMark(mark: string, s: string): string { if s == "" then "" else mark + s }

  /** What may follow a stable core: a prerelease and a build, each optional, of identifier characters. */
  predicate SuffixWritten(rest: string, pre: string, build: string) {
    AllIdentifier(pre) && AllIdentifier(build) && rest == AfterMark("-", pre) + AfterMark("+", build)
  }

  function PrereleaseOf(pre: string): seq<string> { if pre == "" then [] else SplitDots(pre) }

  lemma SuffixTaken(rest: string) returns (pre: string, build: string)
    requires TakePrerelease(rest).Some?
    ensures SuffixWritten(rest, pre, build) && TakePrerelease(rest).value == PrereleaseOf(pre)
  {
    if rest == "" {
      return "", "";
    } else if rest[0] == '+' {
      pre, build := "", rest[1..];
    } else {
      var plus := IndexOf(rest, '+');
      pre, build := rest[1..plus], if plus < |rest| then rest[plus + 1..] else "";
      assert rest == "-" + pre + rest[plus..];
      assert plus < |rest| ==> rest[plus..] == "+" + build;
    }
  }

  lemma PlusAfter(rest: string, pre: string, tail: string)
    requires rest == "-" + pre + tail && AllIdentifier(pre) && (tail == "" || tail[0] == '+')
    ensures rest != "" && rest[0] == '-' && IndexOf(rest, '+') == 1 + |pre|
    ensures rest[1..1 + |pre|] == pre && (tail != "" ==> rest[1 + |pre| + 1..] == tail[1..])
  {
    assert forall i :: 0 <= i < |pre| ==> rest[1 + i] == pre[i];
    assert forall i :: 1 <= i < 1 + |pre| ==> rest[i] == pre[i - 1];
    if tail != "" { assert rest[1 + |pre|] == '+'; }
  }

  lemma SuffixReads(rest: string, pre: string, build: string)
    requires SuffixWritten(rest, pre, build)
    ensures NoDigitFirst(rest) && TakePrerelease(rest) == Some(PrereleaseOf(pre))
  {
    if pre == "" {
      if build != "" { assert rest == "+" + build && rest[1..] == build; }
    } else {
      PlusAfter(rest, pre, AfterMark("+", build));
      if build != "" { assert AfterMark("+", build)[1..] == build; }
    }
  }

  predicate StableOf(tag: string, v: Stable, c: CoreText, rest: string, pre: string, build: string) {
    && TagOf(tag, c, rest) && NumbersOf(c, v.major, v.minor, v.patch) && SuffixWritten(rest, pre, build)
    && v.prerelease == PrereleaseOf(pre) && (pre == "" || PrereleaseOf(pre)[0] != "nightly")
  }

  /** A stable tag: a core, perhaps a prerelease that is not a nightly's, perhaps a build. */
  ghost predicate StableWritten(tag: string, v: Stable) {
    exists c: CoreText, rest, pre, build :: StableOf(tag, v, c, rest, pre, build)
  }

  /** The stable parser takes exactly the stable tags and reads what they were written with; the build is dropped. */
  lemma StableParsedExactly(tag: string, v: Stable)
    ensures ParseStable(tag) == Some(v) <==> StableWritten(tag, v)
  {
    if ParseStable(tag) == Some(v) {
      StableTaken(tag);
    }
    if StableWritten(tag, v) {
      var c: CoreText, rest, pre, build :| StableOf(tag, v, c, rest, pre, build);
      SuffixReads(rest, pre, build);
      TagReads(tag, c, rest);
    }
  }

  lemma StableTaken(tag: string)
    requires ParseStable(tag).Some?
    ensures StableWritten(tag, ParseStable(tag).value)
  {
    StableParts(tag);
    var c := TagTaken(tag);
    var rest := TakeCore(tag[1..]).value.rest;
    var pre, build := SuffixTaken(rest);
    assert StableOf(tag, ParseStable(tag).value, c, rest, pre, build);
  }

  /** The base of a version is what stands before its first hyphen or plus. */
  lemma BaseVersionExactly(version: string)
    ensures var base := BaseVersion(version);
            && base <= version && '-' !in base && '+' !in base
            && (base == version || version[|base|] == '-' || version[|base|] == '+')
  {}

  /** A version has a nightly target exactly when what stands before its first hyphen or plus is a core. */
  lemma TargetExactly(version: string)
    ensures TargetVersion(version).Some? <==> exists c: CoreText :: c.Valid() && BaseVersion(version) == c.Text()
  {
    if c: CoreText :| c.Valid() && BaseVersion(version) == c.Text() {
      TargetIsNextPatch(version, c);
    }
    if TargetVersion(version).Some? {
      var c := NextPatchTaken(BaseVersion(version));
    }
  }

  lemma NextPatchTaken(core: string) returns (c: CoreText)
    requires NextPatch(core).Some?
    ensures c.Valid() && core == c.Text()
  {
    var a := Digits(core);
    var afterMajor := core[a + 1..];
    var b := Digits(afterMajor);
    c := CoreText(core[..a], afterMajor[..b], afterMajor[b + 1..]);
    CutAt(core, a);
    CutAt(afterMajor, b);
    CoreFromParts(core, c, afterMajor);
  }

  lemma CoreFromParts(core: string, c: CoreText, afterMajor: string)
    requires core == c.major + ("." + afterMajor) && afterMajor == c.minor + ("." + c.patch)
    ensures core == c.Text()
  {
    CoreNested(c.major, c.minor, c.patch, "");
    assert c.patch + "" == c.patch && c.Text() + "" == c.Text();
  }
}
