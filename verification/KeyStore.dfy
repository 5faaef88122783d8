/** The store as one request at a time sees it (keyfile/keyfile.go and keyfile/reload.go): an object
    whose methods update the snapshot, the reload flag, the stat gate and the counters. */
module KeyStore {
  import opened GoTypes
  import opened Entries
  import opened KeyFile
  import opened Reload
  import Token

  /** What an attempt runs into: nothing, a failure of stat, or one of the steps after it. A panic in
      an attempt has the same effect as an I/O error. */
  datatype Fault = NoFault | StatFault | ReadFault

  /** How the world answers during one call; the file does not change while it runs. */
  datatype World = World(
    now: int,             // the clock at the stat gate
    statFails: bool,      // maybeReload's own stat
    file: FileVersion,
    parentOk: bool,
    fault: Fault,
    ask: Answers,
    warnPanics: bool,     // the "retrying once" log line
    logPanics: bool)      // the log line of finish

  /** The shared state a reload works on. */
  datatype Shared = Shared(snap: Snapshot, reloading: bool, lastStatNS: int, reloads: nat)

  const DENY_ALL := DenyAll(ZERO, [], false)

  // ----- specification

  ghost function Attempted(setup: Setup, w: World): Outcome {
    if w.fault.StatFault? then UNREADABLE
    else if w.file.body.Absent? then NO_FILE
    else if w.fault.ReadFault? then UNREADABLE
    else if w.file.body.Refused? then Rejected(w.file.sig, [])
    else if !w.parentOk then UNREADABLE
    else CleanLoad(setup, w.ask, w.file)
  }

  /** finish logs before it stores deny-all and after it stores keys; either way a panic in the log
      ends in deny-all. */
  function AfterFinish(o: Outcome, logPanics: bool): Snapshot {
    if logPanics then DENY_ALL else Installed(o)
  }

  predicate Due(setup: Setup, sh: Shared, now: int) {
    setup.statTTL <= 0 || ElapsedDue(now, sh.lastStatNS, setup.statTTL)
  }

  function Granted(setup: Setup, sh: Shared, now: int): Shared {
    if setup.statTTL <= 0 then sh else sh.(lastStatNS := now)
  }

  /** The first attempt of a cycle; a failure that can be logged hands the flag to the retry. */
  ghost function AfterCycle(setup: Setup, sh: Shared, w: World): Shared {
    var started := sh.(reloads := sh.reloads + 1);
    var o := Attempted(setup, w);
    if !o.failed then started.(snap := AfterFinish(o, w.logPanics))
    else if w.warnPanics then started.(snap := DENY_ALL)
    else started.(reloading := true)
  }

  ghost function AfterMaybeReload(setup: Setup, sh: Shared, w: World): Shared {
    if !Due(setup, sh, w.now) then sh
    else
      var g := Granted(setup, sh, w.now);
      if w.statFails then (if sh.snap.ok || sh.snap.sig != ZERO then g.(snap := DENY_ALL) else g)
      else if w.file.sig == sh.snap.sig || sh.reloading then g
      else AfterCycle(setup, g, w)
  }

  ghost function AfterRetry(setup: Setup, sh: Shared, w: World): Shared {
    sh.(snap := AfterFinish(Attempted(setup, w), w.logPanics), reloading := false)
  }

  /** Open's load: one retry in place, no hand-over. */
  ghost function AfterBlocking(setup: Setup, first: World, second: World): Snapshot {
    var o := Attempted(setup, first);
    if !o.failed then AfterFinish(o, first.logPanics)
    else if first.warnPanics then DENY_ALL
    else AfterFinish(Attempted(setup, second), second.logPanics)
  }

  // ----- verification of a token

  datatype TokenInfo = TokenInfo(userID: string, expiration: int, tools: seq<string>, attrs: map<string, string>)

  datatype Decision = Malformed | Unknown | Expired | Accepted(info: TokenInfo)

  const MAX_TOKEN_TTL: int := 3_600_000_000_000

  function MinTime(a: int, b: int): int {
    if a < b then a else b
  }

  function Decide(setup: Setup, snap: Snapshot, token: string, now: int): Decision {
    if !Token.IsWellFormed(setup.prefix, token) then Malformed
    else if setup.sha256(token) !in snap.keys then Unknown
    else
      var e := snap.keys[setup.sha256(token)];
      if e.expires <= now then Expired
      else Accepted(TokenInfo(e.name, MinTime(e.expires, now + MAX_TOKEN_TTL), e.tools, e.attrs))
  }

  /** The filter reads nothing but the token information. */
  function ToolFilter(info: Option<TokenInfo>, tool: string): bool {
    match info
    case None => false
    case Some(i) => tool != "" && tool != "*" && tool in i.tools
  }

  function InfoOf(d: Decision): Option<TokenInfo> {
    if d.Accepted? then Some(d.info) else None
  }

  // ----- the registered tools

  predicate NoRepeats(names: seq<string>) {
    forall i, j :: 0 <= i < j < |names| ==> names[i] != names[j]
  }

  /** The tool names Open accepts: some, none of them empty or the wildcard, and none twice. */
  predicate ToolNamesOk(names: seq<string>) {
    names != [] && "" !in names && "*" !in names && NoRepeats(names)
  }

  /** Open's loop over Options.Tools. */
  method OpenTools(names: seq<string>) returns (tools: Option<set<string>>)
    ensures tools.Some? <==> ToolNamesOk(names)
    ensures tools.Some? ==> forall n :: n in tools.value <==> n in names
  {
    if |names| == 0 {
      return None;
    }
    var seen: set<string> := {};
    for i := 0 to |names|
      invariant forall n :: n in seen <==> n in names[..i]
      invariant "" !in names[..i] && "*" !in names[..i] && NoRepeats(names[..i])
    {
      var n := names[i];
      if n == "" || n == "*" {
        return None;
      }
      if n in seen {
        var j :| 0 <= j < i && names[j] == n;
        return None;
      }
      seen := seen + {n};
      assert names[..i + 1] == names[..i] + [n];
    }
    assert names[..|names|] == names;
    return Some(seen);
  }

  // ----- the object

  class Store {
    const setup: Setup
    var snap: Snapshot
    var reloading: bool
    var lastStatNS: int
    var reloads: nat
    var lookups: nat
    var malformed: nat
    var unknown: nat
    var expired: nat

    function View(): Shared
      reads this
    {
      Shared(snap, reloading, lastStatNS, reloads)
    }

    /** A snapshot that is not ok denies everything. */
    predicate Valid()
      reads this
    {
      SnapshotOk(snap)
    }

    /** Open: deny all, then one load with one retry before anyone can call. */
    constructor (setup: Setup, first: World, second: World)
      ensures Valid() && this.setup == setup
      ensures !reloading && reloads == 1 && lastStatNS == 0
      ensures lookups == malformed == unknown == expired == 0
      ensures snap == AfterBlocking(setup, first, second)
    {
      this.setup := setup;
      snap := DENY_ALL;
      reloading := true;
      lastStatNS := 0;
      reloads := 1;
      lookups, malformed, unknown, expired := 0, 0, 0, 0;
      new;
      ReloadBlocking(first, second);
    }

    method StatDue(now: int) returns (due: bool)
      requires Valid()
      modifies this`lastStatNS
      ensures Valid()
      ensures due == Due(setup, old(View()), now)
      ensures View() == if due then Granted(setup, old(View()), now) else old(View())
    {
      if setup.statTTL <= 0 {
        return true;
      }
      due := ElapsedDue(now, lastStatNS, setup.statTTL);
      if due {
        lastStatNS := now;
      }
    }

    /** Everything is denied, under no signature; a snapshot that says so already stays. */
    method StatFailed()
      requires Valid()
      modifies this`snap
      ensures Valid() && !snap.ok && snap.keys == map[] && snap.sig == ZERO
      ensures snap == if old(snap.ok) || old(snap.sig) != ZERO then DENY_ALL else old(snap)
    {
      if snap.ok || snap.sig != ZERO {
        snap := DENY_ALL;
      }
    }

    method RecoverDenyAll()
      modifies this`snap
      ensures Valid() && snap == DENY_ALL
    {
      snap := DENY_ALL;
    }

    /** stat, read and parse the file once; a panic becomes an error. */
    method SafeAttempt(w: World) returns (o: Outcome)
      ensures o == Attempted(setup, w) && SnapshotOk(o.snap) && o.failed == !o.snap.ok
    {
      if w.fault.StatFault? {
        return UNREADABLE;
      }
      if w.file.body.Absent? {
        return NO_FILE;
      }
      if w.fault.ReadFault? {
        return UNREADABLE;
      }
      if w.file.body.Refused? {
        return Rejected(w.file.sig, []);
      }
      if !w.parentOk {
        return UNREADABLE;
      }
      var data := w.file.body.data;
      if |data| > MAX_FILE_SIZE {
        return Rejected(w.file.sig, []);
      }
      var es := ParseFile(setup, w.ask, data);
      if es.None? {
        return Rejected(w.file.sig, setup.sha256(data));
      }
      var keys := KeyMap(es.value);
      return Outcome(Snapshot(keys, w.file.sig, setup.sha256(data), true), false);
    }

    /** A failure is logged before deny-all is stored, a success after its keys are. */
    method Finish(o: Outcome, logPanics: bool) returns (panicked: bool)
      requires Valid() && SnapshotOk(o.snap)
      modifies this`snap
      ensures Valid() && panicked == logPanics
      ensures snap == if panicked && o.failed then old(snap) else Installed(o)
    {
      if o.failed {
        if logPanics {
          return true;
        }
        snap := DenyAll(o.snap.sig, o.snap.fileSHA, false);
        return false;
      }
      snap := o.snap;
      return logPanics;
    }

    /** `handedOff`: a background retry now owns `reloading`. */
    method MaybeReload(w: World) returns (handedOff: bool)
      requires Valid()
      modifies this`snap, this`reloading, this`lastStatNS, this`reloads
      ensures Valid()
      ensures View() == AfterMaybeReload(setup, old(View()), w)
      ensures handedOff == (!old(reloading) && reloading)
    {
      handedOff := false;
      var due := StatDue(w.now);
      if !due {
        return;
      }
      if w.statFails {
        StatFailed();
        return;
      }
      if w.file.sig == snap.sig || reloading {
        return;
      }
      reloading := true;
      reloads := reloads + 1;
      var o := SafeAttempt(w);
      var panicked := false;
      if !o.failed {
        panicked := Finish(o, w.logPanics);
      } else if w.warnPanics {
        panicked := true;
      } else {
        handedOff := true;
      }
      if panicked {
        RecoverDenyAll();
      }
      if !handedOff {
        reloading := false;
      }
    }

    /** The goroutine that MaybeReload hands the flag to. */
    method Retry(w: World)
      requires Valid() && reloading
      modifies this`snap, this`reloading
      ensures Valid()
      ensures View() == AfterRetry(setup, old(View()), w)
    {
      var o := SafeAttempt(w);
      var panicked := Finish(o, w.logPanics);
      if panicked {
        RecoverDenyAll();
      }
      reloading := false;
    }

    method ReloadBlocking(first: World, second: World)
      requires Valid() && reloading
      modifies this`snap, this`reloading
      ensures Valid() && !reloading
      ensures snap == AfterBlocking(setup, first, second)
    {
      var o := SafeAttempt(first);
      var w := first;
      var panicked := o.failed && first.warnPanics;
      if o.failed && !panicked {
        o := SafeAttempt(second);
        w := second;
      }
      if !panicked {
        panicked := Finish(o, w.logPanics);
      }
      if panicked {
        RecoverDenyAll();
      }
      reloading := false;
    }

    /** `now` is the clock after the reload; every call is accepted or counted in one way. */
    method Verify(token: string, w: World, now: int) returns (info: Option<TokenInfo>)
      requires Valid()
      modifies this
      ensures Valid()
      ensures View() == AfterMaybeReload(setup, old(View()), w)
      ensures info == InfoOf(Decide(setup, snap, token, now))
      ensures var d := Decide(setup, snap, token, now);
              && malformed == old(malformed) + (if d.Malformed? then 1 else 0)
              && unknown == old(unknown) + (if d.Unknown? then 1 else 0)
              && expired == old(expired) + (if d.Expired? then 1 else 0)
              && lookups == old(lookups) + (if d.Malformed? then 0 else 1)
    {
      var _ := MaybeReload(w);
      var ok := Token.WellFormed(setup.prefix, token);
      if !ok {
        malformed := malformed + 1;
        return None;
      }
      lookups := lookups + 1;
      var digest := setup.sha256(token);
      if digest !in snap.keys {
        unknown := unknown + 1;
        return None;
      }
      var e := snap.keys[digest];
      if !(now < e.expires) {
        expired := expired + 1;
        return None;
      }
      return Some(TokenInfo(e.name, MinTime(e.expires, now + MAX_TOKEN_TTL), e.tools, e.attrs));
    }
  }
}
