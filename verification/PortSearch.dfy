/** The dev runner's choice of ports: a preferred offset, then the first offset whose ports can be used. */
module PortSearch {
  import opened Prelude

  const BASE_SERVER_PORT: nat := 13773
  const BASE_WEB_PORT: nat := 5733
  const MAX_HASH_OFFSET: nat := 3000
  const MAX_PORT: nat := 65535

  // ------------------------------------------------------------- preferred offset

  /** The instance setting after trimming: absent or blank, all digits, or any other seed. */
  datatype Instance = NoInstance | Digits(n: nat) | Seed(text: string)

  function HashedOffset(hash: string -> nat, seed: string): nat { hash(seed) % MAX_HASH_OFFSET + 1 }

  /** An explicit offset, then the instance, then the worktree, then the default ports; only a negative offset is an error. */
  function ResolveOffset(hash: string -> nat, portOffset: Option<int>, instance: Instance, worktree: Option<string>)
    : (r: Result<nat, int>)
    ensures r.Err? <==> portOffset.Some? && portOffset.value < 0
    ensures portOffset.None? && !instance.Digits? ==> r.value <= MAX_HASH_OFFSET
  {
    if portOffset.Some? then if portOffset.value < 0 then Err(portOffset.value) else Ok(portOffset.value)
    else match instance
      case Digits(n) => Ok(n)
      case Seed(text) => Ok(HashedOffset(hash, text))
      case NoInstance => Ok(if worktree.Some? then HashedOffset(hash, worktree.value) else 0)
  }

  /** The setting that decides: a non-negative explicit offset, a numeric instance, a seed to hash, or nothing. */
  lemma OffsetPreferred(hash: string -> nat, portOffset: Option<int>, instance: Instance, worktree: Option<string>)
    ensures var r := ResolveOffset(hash, portOffset, instance, worktree);
            && (portOffset.Some? && portOffset.value >= 0 ==> r == Ok(portOffset.value))
            && (portOffset.Some? && portOffset.value < 0 ==> r == Err(portOffset.value))
            && (portOffset == None && instance.Digits? ==> r == Ok(instance.n))
            && (portOffset == None && instance.Seed? ==> r.Ok? && IsHashed(hash, instance.text, r.value))
            && (portOffset == None && instance.NoInstance? && worktree.Some? ==>
                  r.Ok? && IsHashed(hash, worktree.value, r.value))
            && (portOffset == None && instance.NoInstance? && worktree == None ==> r == Ok(0))
  {}

  /** In the range of hashed offsets, and congruent to the hash: off the default ports, and the same whenever the hash is. */
  predicate IsHashed(hash: string -> nat, seed: string, offset: nat) {
    1 <= offset <= MAX_HASH_OFFSET && (offset - 1) % MAX_HASH_OFFSET == hash(seed) % MAX_HASH_OFFSET
  }

  // ----------------------------------------------------------------------- search

  /** What the machine reports free, and what browsers refuse to fetch: any set, the runner's own table among them. */
  datatype Ports = Ports(free: nat -> bool, blocked: set<nat>) {
    predicate Usable(port: nat) { port <= MAX_PORT && port !in blocked && free(port) }
  }

  /** The offset can be used: every required port is in range, not blocked and free; with none required, both are in range. */
  predicate Suits(offset: nat, server: bool, web: bool, ports: Ports) {
    if !server && !web then BASE_SERVER_PORT + offset <= MAX_PORT && BASE_WEB_PORT + offset <= MAX_PORT
    else (server ==> ports.Usable(BASE_SERVER_PORT + offset)) && (web ==> ports.Usable(BASE_WEB_PORT + offset))
  }

  /** The two ports in question: those required, or both when none is, are in range, and a required one is free and not blocked. */
  lemma SuitsExactly(offset: nat, server: bool, web: bool, ports: Ports)
    ensures var s, w := 13773 + offset, 5733 + offset;
            Suits(offset, server, web, ports) <==>
              && (server || !web ==> s <= 65535) && (web || !server ==> w <= 65535)
              && (server ==> s !in ports.blocked && ports.free(s)) && (web ==> w !in ports.blocked && ports.free(w))
  {}

  /** The least offset from `start` on that suits, or that there is none. */
  ghost predicate IsFirst(r: Result<nat, nat>, start: nat, server: bool, web: bool, ports: Ports) {
    match r
    case Ok(o) => start <= o && Suits(o, server, web, ports) && forall k :: start <= k < o ==> !Suits(k, server, web, ports)
    case Err(from) => from == start && forall k :: start <= k ==> !Suits(k, server, web, ports)
  }

  method FindFirstAvailableOffset(start: nat, server: bool, web: bool, ports: Ports) returns (r: Result<nat, nat>)
    ensures IsFirst(r, start, server, web, ports)
  {
    var candidate := start;
    while true
      invariant start <= candidate
      invariant forall k :: start <= k < candidate ==> !Suits(k, server, web, ports)
      decreases MAX_PORT + 1 - candidate
    {
      var serverPort, webPort := BASE_SERVER_PORT + candidate, BASE_WEB_PORT + candidate;
      var serverOut, webOut := serverPort > MAX_PORT, webPort > MAX_PORT;
      if (server && serverOut) || (web && webOut) || (!server && !web && (serverOut || webOut)) {
        return Err(start);
      }
      if (server && serverPort in ports.blocked) || (web && webPort in ports.blocked) {
        candidate := candidate + 1;
        continue;
      }
      if (!server || ports.free(serverPort)) && (!web || ports.free(webPort)) {
        return Ok(candidate);
      }
      candidate := candidate + 1;
    }
  }

  // ------------------------------------------------------------------------- modes

  datatype Mode = Dev | DevServer | DevWeb | DevDesktop

  /** A mode needs its own ports, less those the caller fixed. */
  predicate NeedsServer(mode: Mode, explicitPort: bool) { !mode.DevWeb? && !explicitPort }

  predicate NeedsWeb(mode: Mode, explicitUrl: bool) { !mode.DevServer? && !explicitUrl }

  /** A server port is wanted by every mode with a server, a web port by every mode with a web client, unless the caller fixed it. */
  lemma NeedsExactly(mode: Mode, fixed: bool)
    ensures NeedsServer(mode, fixed) <==> !fixed && (mode == Dev || mode == DevServer || mode == DevDesktop)
    ensures NeedsWeb(mode, fixed) <==> !fixed && (mode == Dev || mode == DevWeb || mode == DevDesktop)
  {}

  method ResolveModePortOffsets(mode: Mode, start: nat, explicitPort: bool, explicitUrl: bool, ports: Ports)
    returns (r: Result<(nat, nat), nat>)
    ensures mode.DevWeb? && explicitUrl ==> r == Ok((start, start))
    ensures mode.DevServer? && explicitPort ==> r == Ok((start, start))
    ensures mode.DevWeb? && !explicitUrl ==>
              && IsFirst(if r.Ok? then Ok(r.value.1) else Err(r.error), start, false, true, ports)
              && (r.Ok? ==> r.value.0 == start)
    ensures !mode.DevWeb? && !(mode.DevServer? && explicitPort) ==>
              && IsFirst(if r.Ok? then Ok(r.value.0) else Err(r.error), start,
                         NeedsServer(mode, explicitPort), NeedsWeb(mode, explicitUrl), ports)
              && (r.Ok? ==> r.value.1 == r.value.0)
  {
    if mode.DevWeb? {
      if explicitUrl { return Ok((start, start)); }
      var web := FindFirstAvailableOffset(start, false, true, ports);
      return if web.Ok? then Ok((start, web.value)) else Err(web.error);
    }
    if mode.DevServer? {
      if explicitPort { return Ok((start, start)); }
      var server := FindFirstAvailableOffset(start, true, false, ports);
      return if server.Ok? then Ok((server.value, server.value)) else Err(server.error);
    }
    var shared := FindFirstAvailableOffset(start, !explicitPort, !explicitUrl, ports);
    return if shared.Ok? then Ok((shared.value, shared.value)) else Err(shared.error);
  }

  /** The search's answer is determined by the ports alone. */
  lemma FirstIsUnique(r: Result<nat, nat>, r': Result<nat, nat>, start: nat, server: bool, web: bool, ports: Ports)
    requires IsFirst(r, start, server, web, ports) && IsFirst(r', start, server, web, ports)
    ensures r == r'
  {
    if r.Ok? && r'.Ok? {
      assert !(r.value < r'.value) && !(r'.value < r.value);
    }
  }
}
