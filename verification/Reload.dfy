/** The reload protocol (keyfile/reload.go) as a transition system: any number of requests, the
    blocking load of Open, the background retry, and a file that may change at every step.
    One action is one atomic access to shared state or one call out. */
module Reload {
  import opened GoTypes
  import opened Entries
  import opened KeyFile

  type Tid = nat

  /** The file versions an attempt saw: the one it called stat on and the one it looked at last. */
  datatype Span = Span(from: nat, to: nat)

  /** The program counter inside safeAttempt. */
  datatype Try =
    | Stat
    | Open(sig: FileSig, from: nat)
    | CheckParent(sig: FileSig, span: Span, data: string)
    | ReadAll(sig: FileSig, span: Span, data: string)
    | ParseData(sig: FileSig, span: Span, data: string)
    | Returned(o: Outcome, ask: Answers, span: Span)

  /** Who runs a cycle: Open itself, a request (first attempt only), or the goroutine it spawned. */
  datatype Role = Opening | Serving | Retrying

  datatype Job =
    | Trying(try: Try)
    | Warn
    | HandOff
    | Asleep
    | Report(o: Outcome, ask: Answers, span: Span)
    | Install(o: Outcome, ask: Answers, span: Span)
    | Announce
    | Recover
    | Release

  datatype Pc =
    | Idle
    | GateClock
    | GateLast(now: int)
    | GateCas(now: int, last: int)
    | FirstStat
    | StatFailedLoad
    | StatFailedStore
    | Compare(sig: FileSig)
    | Acquire
    | Cycle(role: Role, second: bool, job: Job)   // holds `reloading`

  /** Why the current snapshot was installed. */
  datatype Event =
    | Created
    | Finished(o: Outcome, ask: Answers, span: Span)
    | StatFailed
    | Recovered

  datatype State = State(
    file: seq<FileVersion>,      // every version so far; the last one is on disk
    parentOk: bool,
    snap: Snapshot,
    reloading: bool,
    lastStatNS: int,
    reloads: nat,
    threads: map<Tid, Pc>,       // the threads that are not idle
    log: seq<Event>)             // history of the stores to `snap`

  /** How the world answers one step. */
  datatype Choice =
    | Go
    | Clock(now: int)
    | Fail
    | Panic
    | Bytes(data: string)
    | Ask(ask: Answers)
    | Vanish                     // the directory is gone too
    | Spawn(child: Tid)

  datatype Action =
    | Write(v: FileVersion)
    | Chmod(parentOk: bool)
    | Step(t: Tid, c: Choice)

  const NO_ANSWERS := Answers(_ => 0, _ => false)

  // ----- int64 arithmetic of the gate

  function Wrap64(x: int): int {
    var m := x % 0x1_0000_0000_0000_0000;
    if m < 0x8000_0000_0000_0000 then m else m - 0x1_0000_0000_0000_0000
  }

  predicate Int64(x: int) {
    -0x8000_0000_0000_0000 <= x < 0x8000_0000_0000_0000
  }

  predicate ElapsedDue(now: int, last: int, every: int) {
    var d := Wrap64(now - last);
    d < 0 || d >= every
  }

  /** Due means at least `every` forward or any step backwards, except that a backward step of
      nearly 2^64 nanoseconds (over 584 years) wraps around and looks recent. */
  lemma ElapsedDueExactly(now: int, last: int, every: int)
    requires Int64(now) && Int64(last) && Int64(every) && every > 0
    ensures ElapsedDue(now, last, every) <==>
            !(0 <= now - last < every) && !(now - last < every - 0x1_0000_0000_0000_0000)
  {
    var d := now - last;
    if d >= 0x8000_0000_0000_0000 {
      assert Wrap64(d) == d - 0x1_0000_0000_0000_0000;
    } else if d < -0x8000_0000_0000_0000 {
      assert Wrap64(d) == d + 0x1_0000_0000_0000_0000;
    } else {
      assert Wrap64(d) == d;
    }
  }

  // ----- steps

  function Current(s: State): FileVersion
    requires |s.file| > 0
  {
    s.file[|s.file| - 1]
  }

  function At(s: State, t: Tid): Pc {
    if t in s.threads then s.threads[t] else Idle
  }

  /** What a step does to the shared state, apart from moving its thread. */
  datatype Effect =
    | Quiet
    | Gate(now: int)                       // lastStatNS := now
    | Take                                 // reloading := true, one more cycle
    | Put(snap: Snapshot, why: Event)      // snap := ...
    | Free                                 // reloading := false
    | Fork(child: Tid)                     // the child goes on at the new program counter

  datatype Move = Move(effect: Effect, pc: Pc)

  function Goto(threads: map<Tid, Pc>, t: Tid, pc: Pc): map<Tid, Pc> {
    if pc.Idle? then threads - {t} else (threads - {t})[t := pc]
  }

  function Apply(s: State, t: Tid, m: Move): State {
    var moved := s.(threads := Goto(s.threads, t, m.pc));
    match m.effect
    case Quiet => moved
    case Gate(now) => moved.(lastStatNS := now)
    case Take => moved.(reloading := true, reloads := s.reloads + 1)
    case Put(snap, why) => moved.(snap := snap, log := s.log + [why])
    case Free => moved.(reloading := false)
    case Fork(child) => s.(threads := Goto(s.threads - {t}, child, m.pc))
  }

  /** One step of an attempt. The read returns the bytes of the version that was opened unless the
      file changed since, in which case it may return anything. */
  ghost function AttemptStep(setup: Setup, file: seq<FileVersion>, parentOk: bool, try: Try, c: Choice): Option<Try>
    requires |file| > 0
  {
    var n := |file| - 1;
    var cur := file[n];
    match try
    case Stat =>
      if c.Fail? || c.Panic? then Some(Returned(UNREADABLE, NO_ANSWERS, Span(n, n)))
      else if !c.Go? then None
      else if cur.body.Absent? then Some(Returned(NO_FILE, NO_ANSWERS, Span(n, n)))
      else Some(Open(cur.sig, n))
    case Open(sig, from) =>
      if c.Fail? || c.Panic? then Some(Returned(UNREADABLE, NO_ANSWERS, Span(from, n)))
      else if !c.Go? then None
      else (match cur.body
            case Absent => Some(Returned(NO_FILE, NO_ANSWERS, Span(from, n)))
            case Refused => Some(Returned(Rejected(sig, []), NO_ANSWERS, Span(from, n)))
            case Content(data) => Some(CheckParent(sig, Span(from, n), data)))
    case CheckParent(sig, span, data) =>
      if c.Fail? || c.Panic? || (c.Go? && !parentOk) then Some(Returned(UNREADABLE, NO_ANSWERS, span))
      else if c.Vanish? && cur.body.Absent? then Some(Returned(NO_FILE, NO_ANSWERS, Span(span.from, n)))
      else if !c.Go? then None
      else if |data| > MAX_FILE_SIZE then Some(Returned(Rejected(sig, []), NO_ANSWERS, span))
      else Some(ReadAll(sig, span, data))
    case ReadAll(sig, span, data) =>
      if c.Fail? || c.Panic? then Some(Returned(UNREADABLE, NO_ANSWERS, span))
      else if !c.Bytes? || (span.to == n && c.data != data) then None
      else Some(ParseData(sig, Span(span.from, n), c.data))
    case ParseData(sig, span, data) =>
      if c.Panic? then Some(Returned(UNREADABLE, NO_ANSWERS, span))
      else if !c.Ask? then None
      else Some(Returned(Parsed(setup, c.ask, sig, data), c.ask, span))
    case Returned(_, _, _) => None
  }

  /** What safeAttempt's caller does with the result. */
  function AfterAttempt(second: bool, o: Outcome, ask: Answers, span: Span): Job {
    if !o.failed then Install(o, ask, span)
    else if second then Report(o, ask, span)
    else Warn
  }

  /** The snapshot finish stores. */
  function Installed(o: Outcome): Snapshot {
    if o.failed then DenyAll(o.snap.sig, o.snap.fileSHA, false) else o.snap
  }

  /** A step of the thread that holds `reloading`. */
  ghost function CycleMove(setup: Setup, file: seq<FileVersion>, parentOk: bool, pc: Pc, c: Choice): Option<Move>
    requires |file| > 0 && pc.Cycle?
  {
    match pc.job
    case Trying(try) =>
      if try.Returned? then
        if !c.Go? then None
        else Some(Move(Quiet, pc.(job := AfterAttempt(pc.second, try.o, try.ask, try.span))))
      else (match AttemptStep(setup, file, parentOk, try, c)
            case None => None
            case Some(next) => Some(Move(Quiet, pc.(job := Trying(next)))))
    case Warn =>
      if c.Panic? then Some(Move(Quiet, pc.(job := Recover)))
      else if !c.Go? then None
      else Some(Move(Quiet, pc.(job := if pc.role.Serving? then HandOff else Asleep)))
    case HandOff =>
      if !c.Spawn? then None else Some(Move(Fork(c.child), Cycle(Retrying, false, Asleep)))
    case Asleep =>
      if !c.Go? then None else Some(Move(Quiet, pc.(second := true, job := Trying(Stat))))
    case Report(o, ask, span) =>
      if c.Panic? then Some(Move(Quiet, pc.(job := Recover)))
      else if !c.Go? then None
      else Some(Move(Quiet, pc.(job := Install(o, ask, span))))
    case Install(o, ask, span) =>
      if !c.Go? then None
      else Some(Move(Put(Installed(o), Finished(o, ask, span)), pc.(job := if o.failed then Release else Announce)))
    case Announce =>
      if c.Panic? then Some(Move(Quiet, pc.(job := Recover)))
      else if !c.Go? then None
      else Some(Move(Quiet, pc.(job := Release)))
    case Recover =>
      if !c.Go? then None else Some(Move(Put(DenyAll(ZERO, [], false), Recovered), pc.(job := Release)))
    case Release =>
      if !c.Go? then None else Some(Move(Free, Idle))
  }

  /** A step of a request that does not hold `reloading`. */
  function RequestMove(setup: Setup, s: State, pc: Pc, c: Choice): Option<Move>
    requires |s.file| > 0 && !pc.Cycle?
  {
    match pc
    case Idle =>
      if c.Go? then Some(Move(Quiet, if setup.statTTL <= 0 then FirstStat else GateClock)) else None
    case GateClock =>
      if c.Clock? then Some(Move(Quiet, GateLast(c.now))) else None
    case GateLast(now) =>
      if !c.Go? then None
      else if ElapsedDue(now, s.lastStatNS, setup.statTTL) then Some(Move(Quiet, GateCas(now, s.lastStatNS)))
      else Some(Move(Quiet, Idle))
    case GateCas(now, last) =>
      if !c.Go? then None
      else if s.lastStatNS == last then Some(Move(Gate(now), FirstStat))
      else Some(Move(Quiet, Idle))
    case FirstStat =>
      if c.Go? then Some(Move(Quiet, Compare(Current(s).sig)))
      else if c.Fail? then Some(Move(Quiet, StatFailedLoad))
      else None
    case StatFailedLoad =>
      if c.Go? then Some(Move(Quiet, if s.snap.ok || s.snap.sig != ZERO then StatFailedStore else Idle)) else None
    case StatFailedStore =>
      if c.Go? then Some(Move(Put(DenyAll(ZERO, [], false), StatFailed), Idle)) else None
    case Compare(sig) =>
      if c.Go? then Some(Move(Quiet, if sig == s.snap.sig then Idle else Acquire)) else None
    case Acquire =>
      if !c.Go? then None
      else if s.reloading then Some(Move(Quiet, Idle))
      else Some(Move(Take, Cycle(Serving, false, Trying(Stat))))
  }

  ghost function ThreadMove(setup: Setup, s: State, pc: Pc, c: Choice): Option<Move>
    requires |s.file| > 0
  {
    if pc.Cycle? then CycleMove(setup, s.file, s.parentOk, pc, c) else RequestMove(setup, s, pc, c)
  }

  /** A write gives the file a signature it never had; absence always looks the same. */
  predicate CanWrite(file: seq<FileVersion>, v: FileVersion) {
    VersionOk(v) && (v.body.Absent? || forall i :: 0 <= i < |file| ==> file[i].sig != v.sig)
  }

  ghost function Next(setup: Setup, s: State, a: Action): Option<State>
    requires |s.file| > 0
  {
    match a
    case Write(v) => if CanWrite(s.file, v) then Some(s.(file := s.file + [v])) else None
    case Chmod(ok) => Some(s.(parentOk := ok))
    case Step(t, c) =>
      (match ThreadMove(setup, s, At(s, t), c)
       case None => None
       case Some(m) =>
         if m.effect.Fork? && (m.effect.child == t || m.effect.child in s.threads) then None
         else Some(Apply(s, t, m)))
  }

  /** Open has stored deny-all, set `reloading` and is about to make its first attempt. */
  function Init(v: FileVersion, parentOk: bool): State {
    State([v], parentOk, DenyAll(ZERO, [], false), true, 0, 1,
          map[0 := Cycle(Opening, false, Trying(Stat))], [Created])
  }

  /** The states a run passes through after each action; None once an action is not possible. */
  ghost function Run(setup: Setup, s: State, acts: seq<Action>): (r: Option<State>)
    requires |s.file| > 0
    ensures r.Some? ==> |r.value.file| > 0
  {
    if acts == [] then Some(s)
    else match Run(setup, s, acts[..|acts| - 1])
         case None => None
         case Some(mid) => Next(setup, mid, acts[|acts| - 1])
  }

  ghost predicate Reachable(setup: Setup, s: State) {
    exists v, parentOk, acts: seq<Action> :: VersionOk(v) && Run(setup, Init(v, parentOk), acts) == Some(s)
  }
}
