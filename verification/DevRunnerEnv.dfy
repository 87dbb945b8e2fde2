/**
 The environment a dev runner hands to its tasks, and what a run nested inside one
 of them strips from it again. The record of what was handed out is a string; all
 that is assumed of its codec is that it reads back what it wrote.
 */
module DevRunnerEnv {
  import opened Prelude

  /** The variables the runner knows by name, and any other. */
  datatype Key =
    | RYCO_HOME | RYCO_PORT | RYCO_MODE | RYCO_HOST | RYCO_NO_BROWSER
    | VITE_DEV_SERVER_URL | VITE_HTTP_URL | VITE_WS_URL | PORT | HOST
    | RYCO_AUTO_BOOTSTRAP_PROJECT_FROM_CWD | RYCO_LOG_WS_EVENTS
    | DEV_RUNNER_ROOT | DEV_RUNNER_ENV | RYCO_DESKTOP_WS_URL
    | OtherKey(name: string)

  type Env = map<Key, string>

  const LISTED: seq<Key> := [
    RYCO_HOME, RYCO_PORT, RYCO_MODE, RYCO_HOST, RYCO_NO_BROWSER, VITE_DEV_SERVER_URL, VITE_HTTP_URL, VITE_WS_URL,
    PORT, HOST, RYCO_AUTO_BOOTSTRAP_PROJECT_FROM_CWD, RYCO_LOG_WS_EVENTS]

  const MARKERS: seq<Key> := [DEV_RUNNER_ROOT, DEV_RUNNER_ENV]

  predicate IsListed(k: Key) {
    !k.DEV_RUNNER_ROOT? && !k.DEV_RUNNER_ENV? && !k.RYCO_DESKTOP_WS_URL? && !k.OtherKey?
  }

  predicate IsMarker(k: Key) { k.DEV_RUNNER_ROOT? || k.DEV_RUNNER_ENV? }

  /** Everything a runner may set or delete. */
  predicate Owned(k: Key) { IsListed(k) || IsMarker(k) || k.RYCO_DESKTOP_WS_URL? }

  lemma InList(k: Key)
    requires IsListed(k)
    ensures k in LISTED
  {
    match k
    case RYCO_HOME => assert LISTED[0] == k;
    case RYCO_PORT => assert LISTED[1] == k;
    case RYCO_MODE => assert LISTED[2] == k;
    case RYCO_HOST => assert LISTED[3] == k;
    case RYCO_NO_BROWSER => assert LISTED[4] == k;
    case VITE_DEV_SERVER_URL => assert LISTED[5] == k;
    case VITE_HTTP_URL => assert LISTED[6] == k;
    case VITE_WS_URL => assert LISTED[7] == k;
    case PORT => assert LISTED[8] == k;
    case HOST => assert LISTED[9] == k;
    case RYCO_AUTO_BOOTSTRAP_PROJECT_FROM_CWD => assert LISTED[10] == k;
    case RYCO_LOG_WS_EVENTS => assert LISTED[11] == k;
  }

  lemma ListHolds()
    ensures forall n :: 0 <= n < |LISTED| ==> IsListed(LISTED[n])
    ensures forall n :: 0 <= n < |MARKERS| ==> IsMarker(MARKERS[n])
    ensures DEV_RUNNER_ROOT in MARKERS && DEV_RUNNER_ENV in MARKERS
  {
    assert MARKERS[0] == DEV_RUNNER_ROOT && MARKERS[1] == DEV_RUNNER_ENV;
  }

  lemma ListedIsList(k: Key)
    ensures k in LISTED <==> IsListed(k)
    ensures k in MARKERS <==> IsMarker(k)
  {
    ListHolds();
    if IsListed(k) { InList(k); }
  }

  /** String functions of the host, and the record's codec. */
  datatype Text = Text(trim: string -> string, number: nat -> string, encode: Env -> string, decode: string -> Option<Env>) {
    ghost predicate Lawful() { forall e: Env :: decode(encode(e)) == Some(e) }
  }

  // ---------------------------------------------------------------------- hand-out

  datatype Mode = Dev | DevServer | DevWeb | DevDesktop

  datatype Input = Input(
    mode: Mode, serverPort: nat, webPort: nat, home: string, noBrowser: Option<bool>, autoBootstrap: Option<bool>,
    logEvents: Option<bool>, host: Option<string>, devUrl: Option<string>, repoRoot: Option<string>)

  const LOOPBACK := "127.0.0.1"

  function Flag(b: Option<bool>): Option<string> {
    if b.None? then None else Some(if b.value then "1" else "0")
  }

  function SetEnv(env: Env, k: Key, v: Option<string>): Env {
    if v.None? then env - {k} else env[k := v.value]
  }

  datatype Setting = Setting(key: Key, value: Option<string>)

  function ApplyAll(env: Env, settings: seq<Setting>): Env {
    if settings == [] then env
    else SetEnv(ApplyAll(env, settings[..|settings| - 1]), settings[|settings| - 1].key, settings[|settings| - 1].value)
  }

  /** What the runner sets and deletes, in order, up to its markers. */
  function Settings(t: Text, i: Input): seq<Setting> {
    var desktop := i.mode.DevDesktop?;
    var site := if desktop then LOOPBACK else "localhost";
    var http, ws := "http://" + site + ":", "ws://" + site + ":";
    [Setting(PORT, Some(t.number(i.webPort))),
     Setting(VITE_DEV_SERVER_URL, Some(if i.devUrl.Some? then i.devUrl.value else http + t.number(i.webPort))),
     Setting(RYCO_HOME, Some(i.home)),
     Setting(RYCO_PORT, Some(t.number(i.serverPort))),
     Setting(VITE_HTTP_URL, Some(http + t.number(i.serverPort))),
     Setting(VITE_WS_URL, Some(ws + t.number(i.serverPort)))]
    + (if desktop then [Setting(RYCO_MODE, None), Setting(RYCO_NO_BROWSER, None), Setting(RYCO_HOST, None)]
       else (if i.host.Some? then [Setting(RYCO_HOST, i.host)] else []) + [Setting(RYCO_NO_BROWSER, Flag(i.noBrowser))])
    + [Setting(RYCO_AUTO_BOOTSTRAP_PROJECT_FROM_CWD, Flag(i.autoBootstrap)),
       Setting(RYCO_LOG_WS_EVENTS, Flag(i.logEvents))]
    + (if desktop then [Setting(HOST, Some(LOOPBACK))] else [Setting(RYCO_MODE, Some("web"))])
    + [Setting(RYCO_DESKTOP_WS_URL, None), Setting(DEV_RUNNER_ROOT, i.repoRoot), Setting(DEV_RUNNER_ENV, None)]
  }

  function HandedOut(env: Env): Env { map k | k in env && IsListed(k) :: env[k] }

  function Created(t: Text, base: Env, i: Input): Env {
    var env := ApplyAll(base, Settings(t, i));
    if i.repoRoot.None? then env else env[DEV_RUNNER_ENV := t.encode(HandedOut(env))]
  }

  // ------------------------------------------------------------------------- strip

  /** The variable is as the recorded runner handed it out; without a record, everything counts as handed out. */
  predicate Drops(env: Env, record: Option<Env>, k: Key) {
    k in env && (record.None? || (k in record.value && record.value[k] == env[k]))
  }

  datatype Stripped = Stripped(env: Env, stripped: seq<Key>, kept: seq<Key>,
                               inheritedFrom: Option<string>, inheritedHome: Option<string>)

  /** The home the other runner handed out, by its record, or by the environment when there is no record. */
  function InheritedHome(t: Text, env: Env, record: Option<Env>): Option<string> {
    var from := if record.None? then env else record.value;
    if RYCO_HOME in from && t.trim(from[RYCO_HOME]) != "" then Some(t.trim(from[RYCO_HOME])) else None
  }

  function DroppedKeys(env: Env, record: Option<Env>, keys: seq<Key>): seq<Key> {
    if keys == [] then []
    else
      var last := keys[|keys| - 1];
      DroppedKeys(env, record, keys[..|keys| - 1]) + if Drops(env, record, last) then [last] else []
  }

  function KeptKeys(env: Env, record: Option<Env>, keys: seq<Key>): seq<Key> {
    if keys == [] then []
    else
      var last := keys[|keys| - 1];
      KeptKeys(env, record, keys[..|keys| - 1]) + if last in env && !Drops(env, record, last) then [last] else []
  }

  function PresentKeys(env: Env, keys: seq<Key>): seq<Key> {
    if keys == [] then []
    else
      var last := keys[|keys| - 1];
      PresentKeys(env, keys[..|keys| - 1]) + if last in env then [last] else []
  }

  function Strip(t: Text, env: Env): Stripped {
    if DEV_RUNNER_ROOT !in env || t.trim(env[DEV_RUNNER_ROOT]) == "" then Stripped(env, [], [], None, None)
    else
      var record := if DEV_RUNNER_ENV in env then t.decode(env[DEV_RUNNER_ENV]) else None;
      Stripped(map k | k in env && !(IsListed(k) && Drops(env, record, k)) && !IsMarker(k) :: env[k],
               DroppedKeys(env, record, LISTED) + PresentKeys(env, MARKERS),
               KeptKeys(env, record, LISTED),
               Some(t.trim(env[DEV_RUNNER_ROOT])), InheritedHome(t, env, record))
  }

  function WithoutDropped(env: Env, record: Option<Env>, keys: seq<Key>): Env {
    map k | k in env && !(k in keys && Drops(env, record, k)) :: env[k]
  }

  predicate Distinct(keys: seq<Key>) { forall i, j :: 0 <= i < j < |keys| ==> keys[i] != keys[j] }

  /** Where a listed key stands in the list. */
  function Place(k: Key): int {
    match k
    case RYCO_HOME => 0
    case RYCO_PORT => 1
    case RYCO_MODE => 2
    case RYCO_HOST => 3
    case RYCO_NO_BROWSER => 4
    case VITE_DEV_SERVER_URL => 5
    case VITE_HTTP_URL => 6
    case VITE_WS_URL => 7
    case PORT => 8
    case HOST => 9
    case RYCO_AUTO_BOOTSTRAP_PROJECT_FROM_CWD => 10
    case RYCO_LOG_WS_EVENTS => 11
    case _ => -1
  }

  lemma ListedInPlace()
    ensures forall n :: 0 <= n < |LISTED| ==> Place(LISTED[n]) == n
  {}

  lemma ListedDistinct()
    ensures Distinct(LISTED) && Distinct(MARKERS)
  {
    ListedInPlace();
    forall i, j | 0 <= i < j < |LISTED| ensures LISTED[i] != LISTED[j] {
      assert Place(LISTED[i]) == i && Place(LISTED[j]) == j;
    }
  }

  /** One key more: it goes exactly if it is as handed out, and until then it is as it was. */
  lemma DropOne(env: Env, record: Option<Env>, keys: seq<Key>, key: Key)
    requires key !in keys
    ensures key in WithoutDropped(env, record, keys) <==> key in env
    ensures key in env ==> WithoutDropped(env, record, keys)[key] == env[key]
    ensures WithoutDropped(env, record, keys + [key])
            == if Drops(env, record, key) then WithoutDropped(env, record, keys) - {key} else WithoutDropped(env, record, keys)
  {}

  method StripHandedOut(env: Env, record: Option<Env>, keys: seq<Key>) returns (output: Env, stripped: seq<Key>, kept: seq<Key>)
    requires Distinct(keys)
    ensures output == WithoutDropped(env, record, keys)
    ensures stripped == DroppedKeys(env, record, keys) && kept == KeptKeys(env, record, keys)
  {
    output, stripped, kept := env, [], [];
    for n := 0 to |keys|
      invariant stripped == DroppedKeys(env, record, keys[..n])
      invariant kept == KeptKeys(env, record, keys[..n])
      invariant output == WithoutDropped(env, record, keys[..n])
    {
      var key := keys[n];
      assert keys[..n + 1] == keys[..n] + [key];
      DropOne(env, record, keys[..n], key);
      if key !in output { continue; }
      if record.Some? && (key !in record.value || record.value[key] != output[key]) {
        kept := kept + [key];
        continue;
      }
      output := output - {key};
      stripped := stripped + [key];
    }
    assert keys[..|keys|] == keys;
  }

  method StripPresent(env: Env, keys: seq<Key>) returns (output: Env, stripped: seq<Key>)
    requires Distinct(keys)
    ensures output == map k | k in env && k !in keys :: env[k]
    ensures stripped == PresentKeys(env, keys)
  {
    output, stripped := env, [];
    for n := 0 to |keys|
      invariant stripped == PresentKeys(env, keys[..n])
      invariant output == map k | k in env && k !in keys[..n] :: env[k]
    {
      var key := keys[n];
      assert keys[..n + 1] == keys[..n] + [key];
      if key !in output { continue; }
      output := output - {key};
      stripped := stripped + [key];
    }
    assert keys[..|keys|] == keys;
  }

  method StripInheritedDevRunnerEnv(t: Text, env: Env) returns (r: Stripped)
    ensures r == Strip(t, env)
  {
    if DEV_RUNNER_ROOT !in env || t.trim(env[DEV_RUNNER_ROOT]) == "" { return Stripped(env, [], [], None, None); }
    var record := if DEV_RUNNER_ENV in env then t.decode(env[DEV_RUNNER_ENV]) else None;
    ListedDistinct();
    var output, stripped, kept := StripHandedOut(env, record, LISTED);
    var rest, markers := StripPresent(output, MARKERS);
    StripIsBoth(env, record);
    var home := if record.Some? then
                  if RYCO_HOME in record.value then t.trim(record.value[RYCO_HOME]) else ""
                else if RYCO_HOME in env then t.trim(env[RYCO_HOME]) else "";
    return Stripped(rest, stripped + markers, kept, Some(t.trim(env[DEV_RUNNER_ROOT])), if home == "" then None else Some(home));
  }

  /** Dropping the listed keys and then the markers is dropping both. */
  lemma StripIsBoth(env: Env, record: Option<Env>)
    ensures var output := WithoutDropped(env, record, LISTED);
            && (map k | k in output && k !in MARKERS :: output[k])
               == (map k | k in env && !(IsListed(k) && Drops(env, record, k)) && !IsMarker(k) :: env[k])
            && PresentKeys(output, MARKERS) == PresentKeys(env, MARKERS)
  {
    forall k ensures (k in LISTED <==> IsListed(k)) && (k in MARKERS <==> IsMarker(k)) { ListedIsList(k); }
    SamePresent(env, WithoutDropped(env, record, LISTED), MARKERS);
  }

  lemma {:induction false} SamePresent(env: Env, output: Env, keys: seq<Key>)
    requires forall k :: k in keys ==> (k in env <==> k in output)
    ensures PresentKeys(output, keys) == PresentKeys(env, keys)
  {
    if keys != [] { SamePresent(env, output, keys[..|keys| - 1]); }
  }

  /** The settings in a row, then the record of the listed variables as they ended up. */
  method CreateDevRunnerEnv(t: Text, base: Env, i: Input) returns (output: Env)
    ensures output == Created(t, base, i)
  {
    output := ApplyAll(base, Settings(t, i));
    if i.repoRoot.Some? {
      var handedOut := Collect(output, LISTED);
      forall k ensures k in LISTED <==> IsListed(k) { ListedIsList(k); }
      assert handedOut == HandedOut(output);
      output := output[DEV_RUNNER_ENV := t.encode(handedOut)];
    }
  }

  method Collect(env: Env, keys: seq<Key>) returns (collected: Env)
    ensures collected == map k | k in env && k in keys :: env[k]
  {
    collected := map[];
    for n := 0 to |keys|
      invariant collected == map k | k in env && k in keys[..n] :: env[k]
    {
      assert keys[..n + 1] == keys[..n] + [keys[n]];
      if keys[n] in env { collected := collected[keys[n] := env[keys[n]]]; }
    }
    assert keys[..|keys|] == keys;
  }

  // --------------------------------------------------------------------- theorems

  /** The two environments hold the same for every variable no runner owns. */
  ghost predicate AgreeOutside(a: Env, b: Env) {
    forall k :: !Owned(k) ==> (k in a <==> k in b) && (k in a ==> a[k] == b[k])
  }

  lemma {:induction false} SettingsAgreeOutside(env: Env, settings: seq<Setting>)
    requires forall n :: 0 <= n < |settings| ==> Owned(settings[n].key)
    ensures AgreeOutside(ApplyAll(env, settings), env)
  {
    if settings != [] {
      SettingsAgreeOutside(env, settings[..|settings| - 1]);
      assert Owned(settings[|settings| - 1].key);
    }
  }

  lemma CreatedAgreesOutside(t: Text, base: Env, i: Input)
    ensures AgreeOutside(Created(t, base, i), base)
  {
    SettingsAgreeOutside(base, Settings(t, i));
  }

  /** The last three settings end every hand-out the same way. */
  lemma CreatedMarkers(t: Text, base: Env, i: Input)
    requires i.repoRoot.Some?
    ensures var env := Created(t, base, i);
            && RYCO_DESKTOP_WS_URL !in env && DEV_RUNNER_ROOT in env && env[DEV_RUNNER_ROOT] == i.repoRoot.value
            && DEV_RUNNER_ENV in env && env[DEV_RUNNER_ENV] == t.encode(HandedOut(env))
  {
    var s := Settings(t, i);
    var n := |s|;
    assert s[n - 3] == Setting(RYCO_DESKTOP_WS_URL, None) && s[n - 2] == Setting(DEV_RUNNER_ROOT, i.repoRoot)
           && s[n - 1] == Setting(DEV_RUNNER_ENV, None);
    var env := ApplyAll(base, s);
    assert s[..n - 1][..n - 2] == s[..n - 2] && s[..n - 2][..n - 3] == s[..n - 3];
    assert ApplyAll(base, s[..n - 1]) == SetEnv(ApplyAll(base, s[..n - 2]), DEV_RUNNER_ROOT, i.repoRoot);
    assert ApplyAll(base, s[..n - 2]) == SetEnv(ApplyAll(base, s[..n - 3]), RYCO_DESKTOP_WS_URL, None);
    assert HandedOut(env[DEV_RUNNER_ENV := t.encode(HandedOut(env))]) == HandedOut(env);
  }

  lemma CreatedHome(t: Text, base: Env, i: Input)
    ensures RYCO_HOME in Created(t, base, i) && Created(t, base, i)[RYCO_HOME] == i.home
  {
    CreatedHolds(t, base, i);
  }

  /** Free of everything a runner sets. */
  ghost predicate Free(env: Env) { forall k :: Owned(k) ==> k !in env }

  /**
   Stripping an unmodified hand-out gives back the environment it was made from:
   nothing listed, no marker, and every other variable as it was - but for the one
   the runner deletes without recording it.
   */
  lemma StripUndoesCreate(t: Text, base: Env, i: Input)
    requires t.Lawful() && i.repoRoot.Some? && t.trim(i.repoRoot.value) != ""
    ensures var r := Strip(t, Created(t, base, i));
            Free(r.env) && AgreeOutside(r.env, base) && r.kept == []
  {
    CreatedMarkers(t, base, i);
    CreatedAgreesOutside(t, base, i);
    var env := Created(t, base, i);
    var record := t.decode(env[DEV_RUNNER_ENV]);
    assert record == Some(HandedOut(env));
    HandedOutDrops(env);
    NothingKept(env, record, LISTED);
  }

  /** What is as it was handed out is dropped. */
  lemma HandedOutDrops(env: Env)
    ensures forall k :: IsListed(k) && k in env ==> Drops(env, Some(HandedOut(env)), k)
  {}

  /** A nested run learns the checkout and the home of the runner around it, whatever was edited but the markers. */
  lemma InheritedHomeIsHandedOut(t: Text, base: Env, i: Input, edited: Env)
    requires t.Lawful() && i.repoRoot.Some? && t.trim(i.repoRoot.value) != ""
    requires forall k :: IsMarker(k) ==> k in edited && k in Created(t, base, i) && edited[k] == Created(t, base, i)[k]
    ensures var r := Strip(t, edited);
            && r.inheritedFrom == Some(t.trim(i.repoRoot.value))
            && r.inheritedHome == if t.trim(i.home) == "" then None else Some(t.trim(i.home))
  {
    CreatedMarkers(t, base, i);
    CreatedHome(t, base, i);
    var env := Created(t, base, i);
    assert t.decode(edited[DEV_RUNNER_ENV]) == Some(HandedOut(env)) && HandedOut(env)[RYCO_HOME] == i.home;
  }

  lemma {:induction false} NothingKept(env: Env, record: Option<Env>, keys: seq<Key>)
    requires forall k :: IsListed(k) && k in env ==> Drops(env, record, k)
    requires forall k :: k in keys ==> IsListed(k)
    ensures KeptKeys(env, record, keys) == []
  {
    if keys != [] { NothingKept(env, record, keys[..|keys| - 1]); }
  }

  /**
   After any edits, with the markers left alone: exactly the listed variables whose
   value is no longer the recorded one survive, everything else is as it was, and
   stripped and kept split the listed variables that were set.
   */
  lemma StripKeepsEdits(t: Text, env: Env, record: Env)
    requires t.Lawful() && DEV_RUNNER_ROOT in env && t.trim(env[DEV_RUNNER_ROOT]) != ""
    requires DEV_RUNNER_ENV in env && env[DEV_RUNNER_ENV] == t.encode(record)
    ensures var r := Strip(t, env);
            && (forall k :: IsListed(k) ==> (k in r.env <==> k in env && !(k in record && record[k] == env[k])))
            && (forall k :: IsMarker(k) ==> k !in r.env)
            && (forall k :: !IsListed(k) && !IsMarker(k) ==> (k in r.env <==> k in env))
            && (forall k :: k in r.env ==> k in env && r.env[k] == env[k])
            && (forall k :: k in r.kept <==> IsListed(k) && k in r.env)
            && (forall k :: k in r.stripped <==> (IsListed(k) || IsMarker(k)) && k in env && k !in r.env)
            && Distinct(r.stripped) && Distinct(r.kept)
  {
    var rec := Some(record);
    assert t.decode(env[DEV_RUNNER_ENV]) == rec;
    ListedDistinct();
    Selected(env, rec, LISTED);
    Present(env, MARKERS);
    forall k ensures (k in LISTED <==> IsListed(k)) && (k in MARKERS <==> IsMarker(k)) { ListedIsList(k); }
    var a, b := DroppedKeys(env, rec, LISTED), PresentKeys(env, MARKERS);
    forall i, j | 0 <= i < |a| && 0 <= j < |b| ensures a[i] != b[j] {
      assert a[i] in a && b[j] in b;
    }
  }

  lemma {:induction false} Selected(env: Env, record: Option<Env>, keys: seq<Key>)
    requires Distinct(keys)
    ensures Distinct(DroppedKeys(env, record, keys)) && Distinct(KeptKeys(env, record, keys))
    ensures forall k :: k in DroppedKeys(env, record, keys) <==> k in keys && Drops(env, record, k)
    ensures forall k :: k in KeptKeys(env, record, keys) <==> k in keys && k in env && !Drops(env, record, k)
  {
    if keys != [] {
      var before, last := keys[..|keys| - 1], keys[|keys| - 1];
      Selected(env, record, before);
      assert keys == before + [last] && last !in before;
    }
  }

  lemma {:induction false} Present(env: Env, keys: seq<Key>)
    requires Distinct(keys)
    ensures Distinct(PresentKeys(env, keys)) && forall k :: k in PresentKeys(env, keys) <==> k in keys && k in env
  {
    if keys != [] {
      var before, last := keys[..|keys| - 1], keys[|keys| - 1];
      Present(env, before);
      assert keys == before + [last] && last !in before;
    }
  }

  /** Without a marker that names a checkout nothing was inherited from a runner and nothing is stripped. */
  lemma NothingInherited(t: Text, env: Env)
    ensures var r := Strip(t, env);
            if DEV_RUNNER_ROOT in env && t.trim(env[DEV_RUNNER_ROOT]) != ""
            then r.inheritedFrom == Some(t.trim(env[DEV_RUNNER_ROOT]))
            else r == Stripped(env, [], [], None, None)
  {}

  /** A second strip finds no marker and changes nothing. */
  lemma StripIdempotent(t: Text, env: Env)
    ensures Strip(t, Strip(t, env).env).env == Strip(t, env).env
    ensures Strip(t, Strip(t, env).env).stripped == []
  {}

  /** A run inside a run inside a run: each strips what it inherited and hands out its own. */
  function Nested(t: Text, base: Env, inputs: seq<Input>): Env {
    if inputs == [] then base
    else Created(t, Strip(t, Nested(t, base, inputs[..|inputs| - 1])).env, inputs[|inputs| - 1])
  }

  /** However deep the nesting, what a run strips back to is the outermost environment, less what runners own. */
  lemma {:induction false} NestingLosesNothing(t: Text, base: Env, inputs: seq<Input>)
    requires t.Lawful() && inputs != []
    requires forall n :: 0 <= n < |inputs| ==> inputs[n].repoRoot.Some? && t.trim(inputs[n].repoRoot.value) != ""
    ensures var r := Strip(t, Nested(t, base, inputs)); Free(r.env) && AgreeOutside(r.env, base)
    decreases |inputs|
  {
    var before, last := inputs[..|inputs| - 1], inputs[|inputs| - 1];
    var inherited := Nested(t, base, before);
    StripUndoesCreate(t, Strip(t, inherited).env, last);
    if before != [] {
      NestingLosesNothing(t, base, before);
    } else {
      assert AgreeOutside(Strip(t, base).env, base);
    }
  }

  // ------------------------------------------------------------ what is handed out

  /** The variable is set to the value, or is not set. */
  predicate Holds(env: Env, k: Key, v: Option<string>) { if v.None? then k !in env else k in env && env[k] == v.value }

  predicate SetsEachOnce(settings: seq<Setting>) {
    forall m, n :: 0 <= m < n < |settings| ==> settings[m].key != settings[n].key
  }

  /** A variable set once holds what it was set to; a variable with no setting keeps what it had. */
  lemma {:induction false} SettingDecides(env: Env, settings: seq<Setting>, n: nat)
    requires SetsEachOnce(settings) && n < |settings|
    ensures Holds(ApplyAll(env, settings), settings[n].key, settings[n].value)
    decreases |settings|
  {
    if n < |settings| - 1 {
      SettingDecides(env, settings[..|settings| - 1], n);
      assert settings[|settings| - 1].key != settings[n].key;
    }
  }

  lemma {:induction false} UnsetKeeps(env: Env, settings: seq<Setting>, k: Key)
    requires forall m :: 0 <= m < |settings| ==> settings[m].key != k
    ensures Holds(ApplyAll(env, settings), k, if k in env then Some(env[k]) else None)
  {
    if settings != [] {
      UnsetKeeps(env, settings[..|settings| - 1], k);
      assert settings[|settings| - 1].key != k;
    }
  }

  function UrlOf(scheme: string, site: string, port: string): string { scheme + "://" + site + ":" + port }

  /** The ports and the addresses of the two processes. */
  ghost predicate AddressesOut(t: Text, i: Input, env: Env) {
    var site := if i.mode == DevDesktop then "127.0.0.1" else "localhost";
    var web, server := t.number(i.webPort), t.number(i.serverPort);
    && Holds(env, PORT, Some(web)) && Holds(env, RYCO_PORT, Some(server))
    && Holds(env, VITE_DEV_SERVER_URL, Some(if i.devUrl == None then UrlOf("http", site, web) else i.devUrl.value))
    && Holds(env, VITE_HTTP_URL, Some(UrlOf("http", site, server))) && Holds(env, VITE_WS_URL, Some(UrlOf("ws", site, server)))
  }

  /** The home, the checkout and the switches that were given, and no address of a desktop around it. */
  ghost predicate SwitchesOut(i: Input, env: Env) {
    && Holds(env, RYCO_HOME, Some(i.home)) && Holds(env, DEV_RUNNER_ROOT, i.repoRoot) && Holds(env, RYCO_DESKTOP_WS_URL, None)
    && Holds(env, RYCO_AUTO_BOOTSTRAP_PROJECT_FROM_CWD, Switch(i.autoBootstrap)) && Holds(env, RYCO_LOG_WS_EVENTS, Switch(i.logEvents))
  }

  function Switch(b: Option<bool>): Option<string> {
    if b == Some(true) then Some("1") else if b == Some(false) then Some("0") else None
  }

  /** The desktop binds the loopback address and hands out no mode, host or browser switch of its own. */
  ghost predicate DesktopOut(env: Env) {
    Holds(env, HOST, Some("127.0.0.1")) && Holds(env, RYCO_MODE, None) && Holds(env, RYCO_HOST, None) && Holds(env, RYCO_NO_BROWSER, None)
  }

  /** Every other mode hands out the web mode and the browser switch; a host that was not given is the inherited one. */
  ghost predicate WebOut(base: Env, i: Input, env: Env) {
    && Holds(env, RYCO_MODE, Some("web")) && Holds(env, RYCO_NO_BROWSER, Switch(i.noBrowser))
    && Holds(env, RYCO_HOST, if i.host.Some? then i.host else if RYCO_HOST in base then Some(base[RYCO_HOST]) else None)
    && Holds(env, HOST, if HOST in base then Some(base[HOST]) else None)
  }

  lemma UrlIs(site: string, port: string)
    ensures "http://" + site + ":" + port == UrlOf("http", site, port)
    ensures "ws://" + site + ":" + port == UrlOf("ws", site, port)
  {
    assert "http://" == "http" + "://" && "ws://" == "ws" + "://";
  }

  /** Where a variable comes in the settings: six come first whatever the mode, three last. */
  function Turn(i: Input, k: Key): int {
    var desktop := i.mode == DevDesktop;
    var shift := if desktop then 2 else if i.host.Some? then 1 else 0;
    match k
    case PORT => 0
    case VITE_DEV_SERVER_URL => 1
    case RYCO_HOME => 2
    case RYCO_PORT => 3
    case VITE_HTTP_URL => 4
    case VITE_WS_URL => 5
    case RYCO_MODE => if desktop then 6 else 9 + shift
    case RYCO_HOST => if desktop then 8 else 6
    case RYCO_NO_BROWSER => if desktop then 7 else 6 + shift
    case RYCO_AUTO_BOOTSTRAP_PROJECT_FROM_CWD => 7 + shift
    case RYCO_LOG_WS_EVENTS => 8 + shift
    case HOST => 9 + shift
    case RYCO_DESKTOP_WS_URL => 10 + shift
    case DEV_RUNNER_ROOT => 11 + shift
    case DEV_RUNNER_ENV => 12 + shift
    case OtherKey(_) => -1
  }

  lemma InTurn(t: Text, i: Input)
    ensures var s := Settings(t, i); forall n :: 0 <= n < |s| ==> Turn(i, s[n].key) == n
  {
    if i.mode == DevDesktop {
      assert |Settings(t, i)| == 15;
    } else if i.host.Some? {
      assert |Settings(t, i)| == 14;
    } else {
      assert |Settings(t, i)| == 13;
    }
  }

  lemma EachOnce(t: Text, i: Input)
    ensures SetsEachOnce(Settings(t, i))
  {
    InTurn(t, i);
    var s := Settings(t, i);
    forall m, n | 0 <= m < n < |s| ensures s[m].key != s[n].key {
      assert Turn(i, s[m].key) == m && Turn(i, s[n].key) == n;
    }
  }

  /** A setting of the list holds in what the list makes of an environment. */
  lemma SettingHolds(t: Text, base: Env, i: Input, n: nat, k: Key, v: Option<string>)
    requires n < |Settings(t, i)| && Settings(t, i)[n] == Setting(k, v)
    ensures Holds(ApplyAll(base, Settings(t, i)), k, v)
  {
    EachOnce(t, i);
    SettingDecides(base, Settings(t, i), n);
  }

  lemma AddressSettings(t: Text, base: Env, i: Input)
    ensures AddressesOut(t, i, ApplyAll(base, Settings(t, i)))
  {
    var site := if i.mode == DevDesktop then "127.0.0.1" else "localhost";
    var web, server := t.number(i.webPort), t.number(i.serverPort);
    UrlIs(site, web);
    UrlIs(site, server);
    SettingHolds(t, base, i, 0, PORT, Some(web));
    SettingHolds(t, base, i, 1, VITE_DEV_SERVER_URL, Some(if i.devUrl == None then UrlOf("http", site, web) else i.devUrl.value));
    SettingHolds(t, base, i, 3, RYCO_PORT, Some(server));
    SettingHolds(t, base, i, 4, VITE_HTTP_URL, Some(UrlOf("http", site, server)));
    SettingHolds(t, base, i, 5, VITE_WS_URL, Some(UrlOf("ws", site, server)));
  }

  lemma SwitchSettings(t: Text, base: Env, i: Input)
    ensures SwitchesOut(i, ApplyAll(base, Settings(t, i)))
  {
    var shift := if i.mode == DevDesktop then 2 else if i.host.Some? then 1 else 0;
    SettingHolds(t, base, i, 2, RYCO_HOME, Some(i.home));
    SettingHolds(t, base, i, 7 + shift, RYCO_AUTO_BOOTSTRAP_PROJECT_FROM_CWD, Switch(i.autoBootstrap));
    SettingHolds(t, base, i, 8 + shift, RYCO_LOG_WS_EVENTS, Switch(i.logEvents));
    SettingHolds(t, base, i, 10 + shift, RYCO_DESKTOP_WS_URL, None);
    SettingHolds(t, base, i, 11 + shift, DEV_RUNNER_ROOT, i.repoRoot);
  }

  lemma DesktopSettings(t: Text, base: Env, i: Input)
    requires i.mode == DevDesktop
    ensures DesktopOut(ApplyAll(base, Settings(t, i)))
  {
    SettingHolds(t, base, i, 6, RYCO_MODE, None);
    SettingHolds(t, base, i, 7, RYCO_NO_BROWSER, None);
    SettingHolds(t, base, i, 8, RYCO_HOST, None);
    SettingHolds(t, base, i, 11, HOST, Some("127.0.0.1"));
  }

  lemma WebSettings(t: Text, base: Env, i: Input)
    requires i.mode != DevDesktop
    ensures WebOut(base, i, ApplyAll(base, Settings(t, i)))
  {
    var s := Settings(t, i);
    var shift := if i.host.Some? then 1 else 0;
    InTurn(t, i);
    UnsetKeeps(base, s, HOST);
    if i.host.Some? { SettingHolds(t, base, i, 6, RYCO_HOST, i.host); } else { UnsetKeeps(base, s, RYCO_HOST); }
    SettingHolds(t, base, i, 6 + shift, RYCO_NO_BROWSER, Switch(i.noBrowser));
    SettingHolds(t, base, i, 9 + shift, RYCO_MODE, Some("web"));
  }

  /** What each variable holds in a hand-out, and that a record of it is added exactly when the checkout is known. */
  lemma CreatedHolds(t: Text, base: Env, i: Input)
    ensures var env := Created(t, base, i);
            && AddressesOut(t, i, env) && SwitchesOut(i, env) && (if i.mode == DevDesktop then DesktopOut(env) else WebOut(base, i, env))
            && (DEV_RUNNER_ENV in env <==> i.repoRoot.Some?)
  {
    AddressSettings(t, base, i);
    SwitchSettings(t, base, i);
    if i.mode == DevDesktop { DesktopSettings(t, base, i); } else { WebSettings(t, base, i); }
    SettingHolds(t, base, i, |Settings(t, i)| - 1, DEV_RUNNER_ENV, None);
  }
}
