/** How often the file is read: when a failure on record is left alone, and when it is tried again. */
module ReloadEconomy {
  import opened GoTypes
  import opened Entries
  import opened KeyFile
  import opened Reload
  import opened ReloadSafety
  import opened ReloadTheorems
  import opened KeyStore
  import opened KeyStoreTheorems

  // ----- a signature on record

  /** The file stays as it is and stat does not fail; anything else may happen. */
  predicate OnlyStats(acts: seq<Action>) {
    forall i :: 0 <= i < |acts| ==> IsStat(acts[i])
  }

  predicate IsStat(a: Action) {
    a.Chmod? || (a.Step? && !a.c.Fail?)
  }

  /** The thread has seen, or will see, the signature the snapshot carries, or its cycle is over. */
  predicate AtRest(s: State, pc: Pc) {
    match pc
    case Compare(sig) => sig == s.snap.sig
    case GateClock => true
    case GateLast(_) => true
    case GateCas(_, _) => true
    case FirstStat => true
    case Cycle(_, _, job) => job.Release?
    case _ => false
  }

  ghost predicate Settled(s: State) {
    && |s.file| > 0 && s.snap.sig == Current(s).sig
    && forall t :: t in s.threads ==> AtRest(s, s.threads[t])
  }

  /** The cycle that put the signature on record has at most its release left. */
  ghost predicate Recorded(s: State) {
    && |s.file| > 0 && s.snap.sig == Current(s).sig
    && forall t :: Owns(s, t) ==> s.threads[t].job.Release?
  }

  lemma SettledStep(setup: Setup, s: State, a: Action)
    requires Settled(s) && Next(setup, s, a).Some? && IsStat(a)
    ensures Settled(Next(setup, s, a).value)
    ensures Next(setup, s, a).value.reloads == s.reloads && Next(setup, s, a).value.snap == s.snap
  {
    var s' := Next(setup, s, a).value;
    if a.Step? {
      var m := ThreadMove(setup, s, At(s, a.t), a.c).value;
      RestMoves(setup, s, At(s, a.t), a.c);
      forall u | u in s'.threads
        ensures AtRest(s', s'.threads[u])
      {
        if u != a.t {
          OthersStay(s, a.t, m, u);
        }
      }
    }
  }

  lemma RestMoves(setup: Setup, s: State, pc: Pc, c: Choice)
    requires |s.file| > 0 && s.snap.sig == Current(s).sig && (pc.Idle? || AtRest(s, pc)) && !c.Fail?
    requires ThreadMove(setup, s, pc, c).Some?
    ensures var m := ThreadMove(setup, s, pc, c).value;
            (m.effect.Quiet? || m.effect.Gate? || m.effect.Free?) && (m.pc.Idle? || AtRest(s, m.pc))
  {
  }

  /** While stat keeps returning the signature on record, a failed load is not repeated: however the
      requests interleave, no cycle starts and the snapshot stays. */
  lemma {:induction false} RecordedFailureIsQuiet(setup: Setup, s: State, acts: seq<Action>)
    requires Settled(s) && OnlyStats(acts) && Run(setup, s, acts).Some?
    ensures Run(setup, s, acts).value.reloads == s.reloads && Run(setup, s, acts).value.snap == s.snap
    ensures Settled(Run(setup, s, acts).value)
  {
    if acts != [] {
      RecordedFailureIsQuiet(setup, s, acts[..|acts| - 1]);
      SettledStep(setup, Run(setup, s, acts[..|acts| - 1]).value, acts[|acts| - 1]);
    }
  }

  // ----- the converse: every thread that is not at rest can start a cycle

  ghost predicate CanStart(setup: Setup, s: State)
    requires |s.file| > 0
  {
    exists acts: seq<Action> ::
      OnlyStats(acts) && Run(setup, s, acts).Some? && Run(setup, s, acts).value.reloads > s.reloads
  }

  lemma {:induction false} RunCons(setup: Setup, s: State, a: Action, acts: seq<Action>)
    requires |s.file| > 0 && Next(setup, s, a).Some? && |Next(setup, s, a).value.file| > 0
    ensures Run(setup, s, [a] + acts) == Run(setup, Next(setup, s, a).value, acts)
  {
    var all := [a] + acts;
    if acts == [] {
      assert all[..|all| - 1] == [] && all[|all| - 1] == a;
      assert Run(setup, s, []) == Some(s);
    } else {
      assert all[..|all| - 1] == [a] + acts[..|acts| - 1] && all[|all| - 1] == acts[|acts| - 1];
      RunCons(setup, s, a, acts[..|acts| - 1]);
    }
  }

  lemma AfterStep(setup: Setup, s: State, t: Tid, c: Choice)
    requires |s.file| > 0 && !c.Fail? && Next(setup, s, Step(t, c)).Some?
    requires var s' := Next(setup, s, Step(t, c)).value;
             |s'.file| > 0 && s'.reloads == s.reloads && CanStart(setup, s')
    ensures CanStart(setup, s)
  {
    var s' := Next(setup, s, Step(t, c)).value;
    var acts: seq<Action> :|
      OnlyStats(acts) && Run(setup, s', acts).Some? && Run(setup, s', acts).value.reloads > s'.reloads;
    RunCons(setup, s, Step(t, c), acts);
    assert OnlyStats([Step(t, c)] + acts);
  }

  lemma AcquireStarts(setup: Setup, s: State, t: Tid)
    requires |s.file| > 0 && At(s, t) == Acquire && !s.reloading
    ensures CanStart(setup, s)
  {
    var s' := Next(setup, s, Step(t, Go)).value;
    assert Run(setup, s', []) == Some(s');
    RunCons(setup, s, Step(t, Go), []);
    assert OnlyStats([Step(t, Go)] + []);
  }

  lemma CompareStarts(setup: Setup, s: State, t: Tid)
    requires |s.file| > 0 && At(s, t).Compare? && At(s, t).sig != s.snap.sig && !s.reloading
    ensures CanStart(setup, s)
  {
    AcquireStarts(setup, Next(setup, s, Step(t, Go)).value, t);
    AfterStep(setup, s, t, Go);
  }

  lemma FirstStatStarts(setup: Setup, s: State, t: Tid)
    requires |s.file| > 0 && At(s, t) == FirstStat && Current(s).sig != s.snap.sig && !s.reloading
    ensures CanStart(setup, s)
  {
    CompareStarts(setup, Next(setup, s, Step(t, Go)).value, t);
    AfterStep(setup, s, t, Go);
  }

  lemma GateStarts(setup: Setup, s: State, t: Tid, now: int)
    requires |s.file| > 0 && At(s, t) == GateLast(now) && ElapsedDue(now, s.lastStatNS, setup.statTTL)
    requires Current(s).sig != s.snap.sig && !s.reloading
    ensures CanStart(setup, s)
  {
    var s1 := Next(setup, s, Step(t, Go)).value;
    assert At(s1, t) == GateCas(now, s.lastStatNS) && s1.lastStatNS == s.lastStatNS;
    FirstStatStarts(setup, Next(setup, s1, Step(t, Go)).value, t);
    AfterStep(setup, s1, t, Go);
    AfterStep(setup, s, t, Go);
  }

  /** A new request, with a clock that has just stepped back. */
  lemma NewcomerStarts(setup: Setup, s: State, t: Tid)
    requires |s.file| > 0 && t !in s.threads && Current(s).sig != s.snap.sig && !s.reloading
    ensures CanStart(setup, s)
  {
    var s1 := Next(setup, s, Step(t, Go)).value;
    if setup.statTTL <= 0 {
      FirstStatStarts(setup, s1, t);
    } else {
      var now := s.lastStatNS - 1;
      assert At(s1, t) == GateClock;
      assert ElapsedDue(now, s.lastStatNS, setup.statTTL);
      GateStarts(setup, Next(setup, s1, Step(t, Clock(now))).value, t, now);
      AfterStep(setup, s1, t, Clock(now));
    }
    AfterStep(setup, s, t, Go);
  }

  lemma FailedStatStarts(setup: Setup, s: State, t: Tid)
    requires |s.file| > 0 && At(s, t) == StatFailedStore && Current(s).sig != ZERO && !s.reloading
    ensures CanStart(setup, s)
  {
    var s' := Next(setup, s, Step(t, Go)).value;
    NewcomerStarts(setup, s', t);
    AfterStep(setup, s, t, Go);
  }

  lemma UnsettledStarts(setup: Setup, s: State, t: Tid)
    requires |s.file| > 0 && VersionOk(Current(s)) && s.snap.sig == Current(s).sig && !s.reloading
    requires t in s.threads && !s.threads[t].Idle? && !s.threads[t].Cycle? && !AtRest(s, s.threads[t])
    ensures CanStart(setup, s)
  {
    match s.threads[t]
    case Acquire => AcquireStarts(setup, s, t);
    case Compare(_) => CompareStarts(setup, s, t);
    case StatFailedStore => FailedStatStarts(setup, s, t);
    case StatFailedLoad =>
      FailedStatStarts(setup, Next(setup, s, Step(t, Go)).value, t);
      AfterStep(setup, s, t, Go);
  }

  /** Once the last cycle has nothing left but its release. */
  lemma ReleaseFirst(setup: Setup, s: State, o: Tid, t: Tid)
    requires Inv(setup, s) && Recorded(s) && Owns(s, o)
    requires t in s.threads && !AtRest(s, s.threads[t])
    ensures CanStart(setup, s)
  {
    assert s.threads[o].job.Release? && t != o && !Owns(s, t);
    var s' := Next(setup, s, Step(o, Go)).value;
    OthersStay(s, o, Move(Free, Idle), t);
    assert PcOk(setup, s.file, s.log, s.threads[t]);
    assert VersionOk(Current(s));
    UnsettledStarts(setup, s', t);
    AfterStep(setup, s, o, Go);
  }

  /** The exact promise: with the current signature on record, no run of stats ever starts a cycle if and only
      if every thread has seen that signature or will look at it. */
  lemma QuietExactly(setup: Setup, s: State)
    requires Reachable(setup, s) && Recorded(s)
    ensures Settled(s) <==>
            forall acts :: OnlyStats(acts) && Run(setup, s, acts).Some? ==>
              Run(setup, s, acts).value.reloads == s.reloads
  {
    ReachableInv(setup, s);
    if Settled(s) {
      forall acts | OnlyStats(acts) && Run(setup, s, acts).Some?
        ensures Run(setup, s, acts).value.reloads == s.reloads
      {
        RecordedFailureIsQuiet(setup, s, acts);
      }
    } else {
      var t :| t in s.threads && !AtRest(s, s.threads[t]);
      UnsettledCanStart(setup, s, t);
    }
  }

  lemma UnsettledCanStart(setup: Setup, s: State, t: Tid)
    requires Inv(setup, s) && Recorded(s) && t in s.threads && !AtRest(s, s.threads[t])
    ensures CanStart(setup, s)
  {
    assert PcOk(setup, s.file, s.log, s.threads[t]) && VersionOk(Current(s));
    assert !Owns(s, t);
    if s.reloading {
      var o :| Owns(s, o);
      ReleaseFirst(setup, s, o, t);
    } else {
      UnsettledStarts(setup, s, t);
    }
  }

  // ----- a recorded failure that is read again all the same

  lemma ReachStep(setup: Setup, s: State, a: Action)
    requires Reachable(setup, s) && |s.file| > 0 && Next(setup, s, a).Some?
    ensures Reachable(setup, Next(setup, s, a).value)
  {
    var v, parentOk, acts: seq<Action> :| VersionOk(v) && Run(setup, Init(v, parentOk), acts) == Some(s);
    var all := acts + [a];
    assert all[..|all| - 1] == acts && all[|all| - 1] == a;
    assert Run(setup, Init(v, parentOk), all) == Next(setup, s, a);
  }

  lemma {:induction false} ReachRun(setup: Setup, s: State, acts: seq<Action>, end: State)
    requires Reachable(setup, s) && |s.file| > 0 && Run(setup, s, acts) == Some(end)
    ensures Reachable(setup, end)
  {
    if acts != [] {
      var mid := Run(setup, s, acts[..|acts| - 1]).value;
      ReachRun(setup, s, acts[..|acts| - 1], mid);
      ReachStep(setup, mid, acts[|acts| - 1]);
    }
  }

  function CalmWorld(v: FileVersion, ask: Answers, now: int): World {
    World(now, false, v, true, NoFault, ask, false, false)
  }

  /** Open, with no file there. */
  lemma OpenFindsNothing(setup: Setup) returns (s: State)
    ensures Reachable(setup, s) && s.file == [NOTHING] && s.parentOk && s.threads == map[] && !s.reloading
    ensures s.snap == NO_FILE.snap
  {
    var start := Init(NOTHING, true);
    var pc := Cycle(Opening, false, Trying(Stat));
    var e := start.(threads := map[]);
    assert Placed(e, 0, pc) == start;
    assert Run(setup, start, []) == Some(start);
    var all, ask, span := AttemptRuns(setup, start, [], e, 0, pc, CalmWorld(NOTHING, NO_ANSWERS, 0));
    var back, next := pc.(job := Trying(Returned(NO_FILE, ask, span))), pc.(job := Install(NO_FILE, ask, span));
    Extend(setup, start, all, e, 0, back, Go, Move(Effect.Quiet, next));
    all := StoreRuns(setup, start, all + [Step(0, Go)], e, 0, next, false);
    s :| RunsTo(setup, start, 0, all, s) && s.threads == e.threads && s.file == e.file && s.parentOk
         && SharedOf(s) == SharedOf(e).(snap := NO_FILE.snap, reloading := false);
    assert VersionOk(NOTHING);
    assert Run(setup, start, []) == Some(start);
    ReachRun(setup, start, all, s);
  }

  /** A request that sees another signature than the recorded one gets as far as the flag. */
  lemma Arrives(setup: Setup, s: State, t: Tid) returns (d: State)
    requires Reachable(setup, s) && |s.file| > 0 && t !in s.threads && s.snap.sig != Current(s).sig
    ensures Reachable(setup, d) && d.threads == Goto(s.threads, t, Acquire)
    ensures d == s.(threads := d.threads, lastStatNS := d.lastStatNS)
  {
    var now := s.lastStatNS - 1;
    assert setup.statTTL > 0 ==> ElapsedDue(now, s.lastStatNS, setup.statTTL);
    var all := GateRuns(setup, s, t, now);
    var passed := if setup.statTTL <= 0 then s else s.(lastStatNS := now);
    var sig := Current(s).sig;
    Extend(setup, s, all, passed, t, FirstStat, Go, Move(Effect.Quiet, Compare(sig)));
    Extend(setup, s, all + [Step(t, Go)], passed, t, Compare(sig), Go, Move(Effect.Quiet, Acquire));
    d := Placed(passed, t, Acquire);
    ReachRun(setup, s, all + [Step(t, Go)] + [Step(t, Go)], d);
  }

  /** A call that finds the version unusable leaves a retry behind. */
  lemma FirstAttemptFails(setup: Setup, s: State, t: Tid, child: Tid, v: FileVersion, ask: Answers)
    returns (d: State)
    requires Reachable(setup, s) && |s.file| > 0 && Current(s) == v && VersionOk(v) && s.parentOk
    requires t !in s.threads && child !in s.threads && t != child && !s.reloading && s.snap.sig != v.sig
    requires CleanLoad(setup, ask, v).failed
    ensures Reachable(setup, d) && d.threads == Goto(s.threads, child, Cycle(Retrying, false, Asleep))
    ensures d.file == s.file && d.parentOk && d.reloading && d.reloads == s.reloads + 1
  {
    var w := CalmWorld(v, ask, s.lastStatNS - 1);
    assert setup.statTTL > 0 ==> ElapsedDue(w.now, s.lastStatNS, setup.statTTL);
    var sh := AfterMaybeReload(setup, SharedOf(s), w);
    assert sh.reloading && sh.reloads == s.reloads + 1;
    var acts := CallIsARun(setup, s, t, w, child);
    d :| RunsTo(setup, s, t, acts, d) && SharedOf(d) == sh && d.file == s.file && d.parentOk == s.parentOk
      && d.threads == Goto(s.threads, child, Cycle(Retrying, false, Asleep));
    ReachRun(setup, s, acts, d);
  }

  /** And the retry, which finds the same, puts it on record. */
  lemma RetryRecords(setup: Setup, s: State, child: Tid, v: FileVersion, ask: Answers) returns (d: State)
    requires |s.file| > 0 && Current(s) == v && VersionOk(v) && s.parentOk && s.reloading && child !in s.threads
    requires Reachable(setup, Placed(s, child, Cycle(Retrying, false, Asleep))) && CleanLoad(setup, ask, v).failed
    ensures Reachable(setup, d) && d.threads == s.threads && d.file == s.file && !d.reloading
    ensures d.snap == Installed(CleanLoad(setup, ask, v)) && d.reloads == s.reloads
  {
    var w := CalmWorld(v, ask, 0);
    var acts := RetryIsARun(setup, s, child, w);
    var asleep := Placed(s, child, Cycle(Retrying, false, Asleep));
    d :| RunsTo(setup, asleep, child, acts, d) && SharedOf(d) == AfterRetry(setup, SharedOf(s), w)
      && d.threads == s.threads && d.file == s.file;
    ReachRun(setup, asleep, acts, d);
  }

  /** Every version that cannot be loaded can be read once more after its failure is on record: two requests
      compare signatures, one loads, fails twice and records the failure, and then the other, although the
      signatures agree by now, takes the free flag and starts a cycle. */
  lemma LateRequestReloads(setup: Setup, v: FileVersion, ask: Answers) returns (s: State, late: Tid)
    requires VersionOk(v) && CleanLoad(setup, ask, v).failed
    ensures Reachable(setup, s) && Recorded(s) && !Settled(s) && !s.reloading
    ensures Current(s) == v && s.snap.sig == v.sig && !s.snap.ok
    ensures Next(setup, s, Step(late, Go)).Some?
    ensures var s' := Next(setup, s, Step(late, Go)).value;
            s'.reloads == s.reloads + 1 && Owns(s', late) && s'.threads[late].job == Trying(Stat)
  {
    late := 1;
    s := OpenFindsNothing(setup);
    CleanLoadKeys(setup, ask, v);
    assert CanWrite(s.file, v);
    ReachStep(setup, s, Write(v));
    s := Next(setup, s, Write(v)).value;
    s := Arrives(setup, s, late);
    assert s.threads == map[late := Acquire];
    var waiting := s.threads;
    s := FirstAttemptFails(setup, s, 2, 3, v, ask);
    var base := s.(threads := waiting);
    assert Placed(base, 3, Cycle(Retrying, false, Asleep)) == s;
    s := RetryRecords(setup, base, 3, v, ask);
    assert At(s, late) == Acquire;
    assert forall t :: Owns(s, t) ==> false;
  }

  // ----- a failure without a signature

  /** The request has not got to the flag yet, and no cycle has begun since. */
  ghost predicate OnItsWay(s: State, t: Tid, reloads: nat) {
    && s.reloads == reloads && !s.reloading && s.snap.sig == ZERO
    && (At(s, t) == FirstStat || At(s, t) == Acquire || (At(s, t).Compare? && At(s, t).sig != ZERO))
  }

  lemma OnItsWayStep(setup: Setup, s: State, t: Tid, reloads: nat, a: Action)
    requires Inv(setup, s) && OnItsWay(s, t, reloads) && Next(setup, s, a).Some?
    requires a.Step? && a.t == t ==> !a.c.Fail?
    ensures var s' := Next(setup, s, a).value; s'.reloads > reloads || OnItsWay(s', t, reloads)
  {
    assert forall u :: !Owns(s, u);
    assert VersionOk(Current(s));
    if a.Step? {
      assert !Owns(s, a.t);
      RequestKeeps(setup, s, At(s, a.t), a.c);
      var m := ThreadMove(setup, s, At(s, a.t), a.c).value;
      if a.t != t {
        OthersStay(s, a.t, m, t);
      }
    }
  }

  /** A failure without a signature (transient, or the parent directory) is tried again: whatever the others
      and the file do meanwhile, a request that gets to stat while no cycle runs, and whose stat does not
      fail, is done only after a cycle has started. */
  lemma {:induction false} UnsignedFailureIsRetried(setup: Setup, s: State, t: Tid, acts: seq<Action>)
    requires Inv(setup, s) && s.snap.sig == ZERO && !s.reloading && At(s, t) == FirstStat
    requires Run(setup, s, acts).Some?
    requires forall i :: 0 <= i < |acts| && acts[i].Step? && acts[i].t == t ==> !acts[i].c.Fail?
    ensures var s' := Run(setup, s, acts).value;
            s'.reloads > s.reloads || OnItsWay(s', t, s.reloads)
    ensures var s' := Run(setup, s, acts).value;
            At(s', t).Idle? || At(s', t).Cycle? ==> s'.reloads > s.reloads
  {
    if acts != [] {
      var front, a := acts[..|acts| - 1], acts[|acts| - 1];
      UnsignedFailureIsRetried(setup, s, t, front);
      RunKeeps(setup, s, front);
      var mid := Run(setup, s, front).value;
      if mid.reloads > s.reloads {
        HistoryGrows(setup, mid, [a]);
        assert [a][..0] == [];
        assert Run(setup, mid, [a]) == Next(setup, mid, a);
      } else {
        OnItsWayStep(setup, mid, t, s.reloads, a);
      }
    }
  }

  /** And nothing stands in its way. */
  lemma UnsignedFailureCanBeRetried(setup: Setup, s: State, t: Tid)
    requires Inv(setup, s) && s.snap.sig == ZERO && !s.reloading && At(s, t) == FirstStat
    ensures CanStart(setup, s)
  {
    assert VersionOk(Current(s));
    FirstStatStarts(setup, s, t);
  }
}
