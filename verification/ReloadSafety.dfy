/** What every interleaving of the reload protocol keeps. */
module ReloadSafety {
  import opened GoTypes
  import opened Entries
  import opened KeyFile
  import opened Reload

  // ----- the invariant

  predicate FileOk(file: seq<FileVersion>) {
    && |file| > 0
    && (forall i :: 0 <= i < |file| ==> VersionOk(file[i]))
    && (forall i, j :: 0 <= i < j < |file| && file[i].sig == file[j].sig ==> file[j].body.Absent?)
  }

  predicate SpanOk(file: seq<FileVersion>, span: Span) {
    span.from <= span.to < |file|
  }

  /** A result denies everything if it failed; it carries no signature but the one stat saw, the one
      of a missing file, or none; if the file did not change meanwhile it is the clean load; and its keys
      are those of the bytes that were read, whatever the file did meanwhile. */
  ghost predicate ResultOk(setup: Setup, file: seq<FileVersion>, o: Outcome, ask: Answers, span: Span) {
    && SpanOk(file, span)
    && o.failed == !o.snap.ok
    && (o.failed ==> o.snap.keys == map[])
    && (o.snap.sig.missing ==> o == NO_FILE)
    && (o.snap.sig == ZERO ==> o.failed)
    && (o.snap.sig == ZERO || o.snap.sig == MISSING || o.snap.sig == file[span.from].sig)
    && (span.from == span.to && o.snap.sig != ZERO ==> o == CleanLoad(setup, ask, file[span.from]))
    && (!o.failed && !o.snap.sig.missing ==> ReadFrom(setup, ask, o))
  }

  /** The keys are those of some bytes. */
  ghost predicate ReadFrom(setup: Setup, ask: Answers, o: Outcome) {
    exists data :: o == Parsed(setup, ask, o.snap.sig, data)
  }

  /** No finished load looked at a version after `k`. */
  predicate Past(log: seq<Event>, k: nat) {
    forall i :: 0 <= i < |log| && log[i].Finished? ==> log[i].span.to <= k
  }

  ghost predicate TryOk(setup: Setup, file: seq<FileVersion>, log: seq<Event>, try: Try) {
    match try
    case Stat => true
    case Open(sig, from) =>
      Past(log, from) && from < |file| && sig == file[from].sig && !file[from].body.Absent?
    case CheckParent(sig, span, data) => OpenedOk(file, log, sig, span, data)
    case ReadAll(sig, span, data) => OpenedOk(file, log, sig, span, data) && |data| <= MAX_FILE_SIZE
    case ParseData(sig, span, data) =>
      && Past(log, span.from) && SpanOk(file, span)
      && sig == file[span.from].sig && !file[span.from].body.Absent?
      && (span.from == span.to ==> file[span.from].body == Content(data) && |data| <= MAX_FILE_SIZE)
    case Returned(o, ask, span) => Past(log, span.from) && ResultOk(setup, file, o, ask, span)
  }

  predicate OpenedOk(file: seq<FileVersion>, log: seq<Event>, sig: FileSig, span: Span, data: string) {
    && Past(log, span.from) && SpanOk(file, span)
    && sig == file[span.from].sig && !file[span.from].body.Absent?
    && file[span.to].body == Content(data)
  }

  ghost predicate JobOk(setup: Setup, file: seq<FileVersion>, log: seq<Event>, job: Job) {
    match job
    case Trying(try) => TryOk(setup, file, log, try)
    case Report(o, ask, span) => Past(log, span.from) && ResultOk(setup, file, o, ask, span) && o.failed
    case Install(o, ask, span) => Past(log, span.from) && ResultOk(setup, file, o, ask, span)
    case _ => true
  }

  /** Who may be where in a cycle. */
  predicate RoleOk(role: Role, second: bool, job: Job) {
    && (second ==> !role.Serving? && !job.Warn? && !job.HandOff? && !job.Asleep?)
    && (role.Retrying? ==> second || job.Asleep?)
    && (job.HandOff? ==> role.Serving?)
    && (job.Asleep? ==> !role.Serving?)
    && (job.Report? ==> second)
    && (job.Install? && !second ==> !job.o.failed)
  }

  ghost predicate PcOk(setup: Setup, file: seq<FileVersion>, log: seq<Event>, pc: Pc) {
    pc.Cycle? ==> JobOk(setup, file, log, pc.job) && RoleOk(pc.role, pc.second, pc.job)
  }

  function SnapOf(e: Event): Snapshot {
    match e
    case Finished(o, _, _) => Installed(o)
    case _ => DenyAll(ZERO, [], false)
  }

  ghost predicate LogOk(setup: Setup, file: seq<FileVersion>, log: seq<Event>) {
    && |log| > 0
    && (forall i :: 0 <= i < |log| && log[i].Finished? ==> ResultOk(setup, file, log[i].o, log[i].ask, log[i].span))
    && (forall i, j :: 0 <= i < j < |log| && log[i].Finished? && log[j].Finished? ==>
          log[i].span.to <= log[j].span.from)
  }

  predicate Owns(s: State, t: Tid) {
    t in s.threads && s.threads[t].Cycle?
  }

  ghost predicate Inv(setup: Setup, s: State) {
    && FileOk(s.file)
    && LogOk(setup, s.file, s.log)
    && s.snap == SnapOf(s.log[|s.log| - 1])
    && (forall t :: t in s.threads ==> !s.threads[t].Idle? && PcOk(setup, s.file, s.log, s.threads[t]))
    && (forall t, u :: Owns(s, t) && Owns(s, u) ==> t == u)
    && (s.reloading <==> exists t :: Owns(s, t))
  }

  // ----- every step keeps it

  lemma AttemptKeeps(setup: Setup, file: seq<FileVersion>, parentOk: bool, log: seq<Event>, try: Try, c: Choice)
    requires FileOk(file) && TryOk(setup, file, log, try)
    requires forall i :: 0 <= i < |log| && log[i].Finished? ==> SpanOk(file, log[i].span)
    requires AttemptStep(setup, file, parentOk, try, c).Some?
    ensures TryOk(setup, file, log, AttemptStep(setup, file, parentOk, try, c).value)
  {
  }

  lemma WriteKeeps(setup: Setup, s: State, v: FileVersion)
    requires Inv(setup, s) && CanWrite(s.file, v)
    ensures Inv(setup, s.(file := s.file + [v]))
  {
    var file := s.file + [v];
    forall t | t in s.threads
      ensures PcOk(setup, file, s.log, s.threads[t])
    {
      assert PcOk(setup, s.file, s.log, s.threads[t]);
    }
    forall t, u | Owns(s.(file := file), t) && Owns(s.(file := file), u)
      ensures t == u
    {
      assert Owns(s, t) && Owns(s, u);
    }
    assert forall t :: Owns(s.(file := file), t) <==> Owns(s, t);
  }

  lemma LogAppend(setup: Setup, file: seq<FileVersion>, log: seq<Event>, e: Event)
    requires LogOk(setup, file, log)
    requires e.Finished? ==> ResultOk(setup, file, e.o, e.ask, e.span) && Past(log, e.span.from)
    ensures LogOk(setup, file, log + [e])
  {
  }

  function LogAfter(log: seq<Event>, e: Effect): seq<Event> {
    if e.Put? then log + [e.why] else log
  }

  /** The owner's own program counter stays good, and what it stores is justified. */
  lemma OwnerKeeps(setup: Setup, file: seq<FileVersion>, parentOk: bool, log: seq<Event>, pc: Pc, c: Choice)
    requires FileOk(file) && LogOk(setup, file, log) && pc.Cycle? && PcOk(setup, file, log, pc)
    requires CycleMove(setup, file, parentOk, pc, c).Some?
    ensures var m := CycleMove(setup, file, parentOk, pc, c).value;
            && !m.effect.Take? && !m.effect.Gate?
            && (m.effect.Put? ==> m.effect.snap == SnapOf(m.effect.why) && LogOk(setup, file, LogAfter(log, m.effect)))
            && PcOk(setup, file, LogAfter(log, m.effect), m.pc)
            && m.pc.Cycle? == !m.effect.Free?
            && !(m.effect.Free? && !m.pc.Idle?)
  {
    match pc.job {
      case Trying(try) =>
        if !try.Returned? {
          AttemptKeeps(setup, file, parentOk, log, try, c);
        }
      case Install(o, ask, span) =>
        LogAppend(setup, file, log, Finished(o, ask, span));
      case Recover =>
        LogAppend(setup, file, log, Recovered);
      case _ =>
    }
  }

  /** A request only ever takes a free `reloading`, and stores nothing but deny-all. */
  lemma RequestKeeps(setup: Setup, s: State, pc: Pc, c: Choice)
    requires |s.file| > 0 && !pc.Cycle? && RequestMove(setup, s, pc, c).Some?
    ensures var m := RequestMove(setup, s, pc, c).value;
            && !m.effect.Free? && !m.effect.Fork?
            && (m.effect.Put? ==> m.effect.snap == DenyAll(ZERO, [], false) && m.effect.why == StatFailed)
            && m.pc.Cycle? == m.effect.Take?
            && (m.effect.Take? ==> !s.reloading && m.pc == Cycle(Serving, false, Trying(Stat)))
  {
  }

  /** A failed stat adds to the log nothing that any owner depends on. */
  lemma StatFailedHarmless(setup: Setup, s: State, t: Tid)
    requires Inv(setup, s) && t in s.threads
    ensures PcOk(setup, s.file, s.log + [StatFailed], s.threads[t])
  {
    var pc := s.threads[t];
    assert PcOk(setup, s.file, s.log, pc);
    assert forall k :: Past(s.log, k) ==> Past(s.log + [StatFailed], k);
  }

  lemma OwnerMoveKeeps(setup: Setup, s: State, t: Tid, m: Move)
    requires Inv(setup, s) && Owns(s, t)
    requires !m.effect.Take? && !m.effect.Gate? && !m.effect.Fork?
    requires m.effect.Put? ==> m.effect.snap == SnapOf(m.effect.why)
    requires LogOk(setup, s.file, LogAfter(s.log, m.effect))
    requires PcOk(setup, s.file, LogAfter(s.log, m.effect), m.pc)
    requires if m.effect.Free? then m.pc.Idle? else m.pc.Cycle?
    ensures Inv(setup, Apply(s, t, m))
  {
    var s' := Apply(s, t, m);
    forall u | u in s'.threads && u != t
      ensures s'.threads[u] == s.threads[u] && !s.threads[u].Cycle?
    {
      assert Owns(s, u) ==> u == t;
    }
    assert !m.effect.Free? ==> Owns(s', t);
  }

  lemma ForkKeeps(setup: Setup, s: State, t: Tid, m: Move)
    requires Inv(setup, s) && Owns(s, t)
    requires m.effect.Fork? && m.effect.child != t && m.effect.child !in s.threads
    requires m.pc.Cycle? && PcOk(setup, s.file, s.log, m.pc)
    ensures Inv(setup, Apply(s, t, m))
  {
    var s' := Apply(s, t, m);
    forall u | u in s'.threads && u != m.effect.child
      ensures u in s.threads && s'.threads[u] == s.threads[u] && !s.threads[u].Cycle?
    {
      assert Owns(s, u) ==> u == t;
    }
    assert Owns(s', m.effect.child);
  }

  lemma RequestMoveKeeps(setup: Setup, s: State, t: Tid, m: Move)
    requires Inv(setup, s) && !Owns(s, t)
    requires m.effect.Quiet? || m.effect.Gate?
          || (m.effect.Put? && m.effect.snap == DenyAll(ZERO, [], false) && m.effect.why == StatFailed)
    requires !m.pc.Cycle?
    ensures Inv(setup, Apply(s, t, m))
  {
    var s' := Apply(s, t, m);
    if m.effect.Put? {
      LogAppend(setup, s.file, s.log, StatFailed);
    }
    forall u | u in s'.threads
      ensures !s'.threads[u].Idle? && PcOk(setup, s'.file, s'.log, s'.threads[u])
    {
      if u != t && m.effect.Put? {
        StatFailedHarmless(setup, s, u);
      }
    }
    SameOwners(setup, s, s');
  }

  lemma SameOwners(setup: Setup, s: State, s': State)
    requires Inv(setup, s) && s'.reloading == s.reloading
    requires forall u :: Owns(s', u) <==> Owns(s, u)
    ensures forall t, u :: Owns(s', t) && Owns(s', u) ==> t == u
    ensures s'.reloading <==> exists t :: Owns(s', t)
  {
    if s.reloading {
      var t :| Owns(s, t);
      assert Owns(s', t);
    }
  }

  lemma TakeKeeps(setup: Setup, s: State, t: Tid)
    requires Inv(setup, s) && !s.reloading
    ensures Inv(setup, Apply(s, t, Move(Take, Cycle(Serving, false, Trying(Stat)))))
  {
    var s' := Apply(s, t, Move(Take, Cycle(Serving, false, Trying(Stat))));
    assert forall u :: !Owns(s, u);
    assert forall u :: Owns(s', u) ==> u == t || Owns(s, u);
    assert Owns(s', t);
  }

  lemma ThreadKeeps(setup: Setup, s: State, t: Tid, c: Choice)
    requires Inv(setup, s) && Next(setup, s, Step(t, c)).Some?
    ensures Inv(setup, Next(setup, s, Step(t, c)).value)
  {
    var pc := At(s, t);
    var m := ThreadMove(setup, s, pc, c).value;
    if pc.Cycle? {
      assert PcOk(setup, s.file, s.log, pc);
      OwnerKeeps(setup, s.file, s.parentOk, s.log, pc, c);
      if m.effect.Fork? {
        ForkKeeps(setup, s, t, m);
      } else {
        OwnerMoveKeeps(setup, s, t, m);
      }
    } else {
      RequestKeeps(setup, s, pc, c);
      if m.effect.Take? {
        TakeKeeps(setup, s, t);
      } else {
        RequestMoveKeeps(setup, s, t, m);
      }
    }
  }

  lemma NextKeeps(setup: Setup, s: State, a: Action)
    requires Inv(setup, s) && Next(setup, s, a).Some?
    ensures Inv(setup, Next(setup, s, a).value)
  {
    match a
    case Write(v) => WriteKeeps(setup, s, v);
    case Chmod(ok) =>
      assert forall t :: Owns(s.(parentOk := ok), t) <==> Owns(s, t);
    case Step(t, c) =>
      ThreadKeeps(setup, s, t, c);
  }

  lemma InitOk(setup: Setup, v: FileVersion, parentOk: bool)
    requires VersionOk(v)
    ensures Inv(setup, Init(v, parentOk))
  {
    assert Owns(Init(v, parentOk), 0);
  }

  lemma {:induction false} RunKeeps(setup: Setup, s: State, acts: seq<Action>)
    requires Inv(setup, s) && Run(setup, s, acts).Some?
    ensures Inv(setup, Run(setup, s, acts).value)
  {
    if acts != [] {
      RunKeeps(setup, s, acts[..|acts| - 1]);
      NextKeeps(setup, Run(setup, s, acts[..|acts| - 1]).value, acts[|acts| - 1]);
    }
  }

  lemma ReachableInv(setup: Setup, s: State)
    requires Reachable(setup, s)
    ensures Inv(setup, s)
  {
    var v, parentOk, acts: seq<Action> :| VersionOk(v) && Run(setup, Init(v, parentOk), acts) == Some(s);
    InitOk(setup, v, parentOk);
    RunKeeps(setup, Init(v, parentOk), acts);
  }
}
