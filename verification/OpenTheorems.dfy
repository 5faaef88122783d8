/** What Open leaves: how its one load and one retry decide, and that they are a run of the protocol. */
module OpenTheorems {
  import opened GoTypes
  import opened Entries
  import opened KeyFile
  import opened Reload
  import opened ReloadSafety
  import opened KeyStore
  import opened KeyStoreTheorems

  // ----- what decides

  /** Open decides by the first read if that is clean and otherwise by the second, and a panic of a log call
      leaves deny-all. */
  lemma OpenDecides(setup: Setup, first: World, second: World)
    ensures Calm(first) && !CleanLoad(setup, first.ask, first.file).failed ==>
              AfterBlocking(setup, first, second) == CleanLoad(setup, first.ask, first.file).snap
    ensures Attempted(setup, first).failed && !first.warnPanics && Calm(second) ==>
              AfterBlocking(setup, first, second) == Installed(CleanLoad(setup, second.ask, second.file))
    ensures Attempted(setup, first).failed && first.warnPanics ==> AfterBlocking(setup, first, second) == DENY_ALL
    ensures Attempted(setup, first).failed && second.logPanics ==> AfterBlocking(setup, first, second) == DENY_ALL
    ensures !Attempted(setup, first).failed && first.logPanics ==> AfterBlocking(setup, first, second) == DENY_ALL
  {
    CleanLoadKeys(setup, first.ask, first.file);
    CleanLoadKeys(setup, second.ask, second.file);
  }

  /** A read error that is gone at the retry costs nothing: the file that is there then is in force. */
  lemma TransientErrorIsForgiven(setup: Setup, first: World, second: World)
    requires !first.fault.NoFault? && !first.file.body.Absent? && !first.warnPanics && Calm(second)
    ensures AfterBlocking(setup, first, second).keys == CleanLoad(setup, second.ask, second.file).snap.keys
    ensures AfterBlocking(setup, first, second).ok <==> !CleanLoad(setup, second.ask, second.file).failed
  {
    OpenDecides(setup, first, second);
    CleanLoadKeys(setup, second.ask, second.file);
  }

  // ----- a run of the protocol

  lemma {:induction false} RunAppend(setup: Setup, s: State, front: seq<Action>, mid: State, back: seq<Action>)
    requires |s.file| > 0 && Run(setup, s, front) == Some(mid) && |mid.file| > 0
    ensures Run(setup, s, front + back) == Run(setup, mid, back)
  {
    var all := front + back;
    if back == [] {
      assert all == front;
    } else {
      assert all[..|all| - 1] == front + back[..|back| - 1] && all[|all| - 1] == back[|back| - 1];
      RunAppend(setup, s, front, mid, back[..|back| - 1]);
    }
  }

  /** The environment's part between the two attempts: the directory and the file as the second one finds them. */
  function Between(first: World, second: World): seq<Action> {
    [Chmod(second.parentOk)] + if second.file == first.file then [] else [Write(second.file)]
  }

  predicate Follows(first: World, second: World) {
    VersionOk(first.file) && (second.file == first.file || CanWrite([first.file], second.file))
  }

  function Bare(first: World): State {
    Init(first.file, first.parentOk).(threads := map[])
  }

  function Later(first: World, second: World): State {
    Bare(first).(parentOk := second.parentOk,
                 file := [first.file] + if second.file == first.file then [] else [second.file])
  }

  lemma BetweenRuns(setup: Setup, first: World, second: World, pc: Pc)
    requires Follows(first, second)
    ensures Run(setup, Placed(Bare(first), 0, pc), Between(first, second)) == Some(Placed(Later(first, second), 0, pc))
    ensures Matches(Later(first, second), second) && VersionOk(second.file)
  {
    var s := Placed(Bare(first), 0, pc);
    var s1 := s.(parentOk := second.parentOk);
    var acts := Between(first, second);
    assert [Chmod(second.parentOk)][..0] == [];
    assert Run(setup, s, []) == Some(s);
    assert Run(setup, s, [Chmod(second.parentOk)]) == Some(s1);
    if second.file != first.file {
      assert acts[..1] == [Chmod(second.parentOk)] && acts[1] == Write(second.file);
      assert Run(setup, s, acts) == Next(setup, s1, Write(second.file));
    } else {
      assert acts == [Chmod(second.parentOk)];
      assert [first.file] + [] == [first.file];
      assert s1 == Placed(Later(first, second), 0, pc);
    }
  }

  /** The first attempt, to where its result is known. */
  lemma FirstAttemptRuns(setup: Setup, first: World) returns (acts: seq<Action>, ask: Answers, span: Span)
    requires VersionOk(first.file)
    ensures var start, o := Init(first.file, first.parentOk), Attempted(setup, first);
            RunsTo(setup, start, 0, acts,
                   Placed(Bare(first), 0, Cycle(Opening, false, AfterAttempt(false, o, ask, span))))
  {
    var start, base := Init(first.file, first.parentOk), Bare(first);
    var pc := Cycle(Opening, false, Trying(Stat));
    assert Placed(base, 0, pc) == start;
    assert Run(setup, start, []) == Some(start);
    acts, ask, span := AttemptRuns(setup, start, [], base, 0, pc, first);
    var o := Attempted(setup, first);
    Extend(setup, start, acts, base, 0, pc.(job := Trying(Returned(o, ask, span))), Go,
           Move(Effect.Quiet, pc.(job := AfterAttempt(false, o, ask, span))));
    acts := acts + [Step(0, Go)];
  }

  /** The retry, from the sleep to the release. */
  lemma SecondAttemptRuns(setup: Setup, s: State, w: World) returns (acts: seq<Action>)
    requires Matches(s, w) && VersionOk(w.file) && 0 !in s.threads
    ensures Ends(setup, Placed(s, 0, Cycle(Opening, false, Asleep)), 0, acts, s,
                 SharedOf(s).(snap := AfterFinish(Attempted(setup, w), w.logPanics), reloading := false))
  {
    var s0 := Placed(s, 0, Cycle(Opening, false, Asleep));
    assert Run(setup, s0, []) == Some(s0);
    var trying := Cycle(Opening, true, Trying(Stat));
    Extend(setup, s0, [], s, 0, Cycle(Opening, false, Asleep), Go, Move(Effect.Quiet, trying));
    var ask, span;
    acts, ask, span := AttemptRuns(setup, s0, [] + [Step(0, Go)], s, 0, trying, w);
    var o := Attempted(setup, w);
    var next := trying.(job := AfterAttempt(true, o, ask, span));
    Extend(setup, s0, acts, s, 0, trying.(job := Trying(Returned(o, ask, span))), Go, Move(Effect.Quiet, next));
    acts := StoreRuns(setup, s0, acts + [Step(0, Go)], s, 0, next, w.logPanics);
  }

  function AfterOpen(snap: Snapshot): Shared {
    Shared(snap, false, 0, 1)
  }

  /** Open is a run of the interleaved protocol: thread 0 and, between its attempts, a change of the directory
      and perhaps one write lead from the initial state to exactly what the object holds when Open returns,
      with no thread left. */
  lemma OpenIsARun(setup: Setup, first: World, second: World) returns (acts: seq<Action>, end: State)
    requires Follows(first, second)
    ensures Run(setup, Init(first.file, first.parentOk), acts) == Some(end)
    ensures SharedOf(end) == AfterOpen(AfterBlocking(setup, first, second)) && end.threads == map[]
    ensures forall i :: 0 <= i < |acts| && acts[i].Step? ==> acts[i].t == 0
  {
    var start, base := Init(first.file, first.parentOk), Bare(first);
    var ask, span;
    acts, ask, span := FirstAttemptRuns(setup, first);
    var o := Attempted(setup, first);
    if !o.failed {
      acts := StoreRuns(setup, start, acts, base, 0, Cycle(Opening, false, Install(o, ask, span)), first.logPanics);
      end :| RunsTo(setup, start, 0, acts, end) && end.threads == base.threads
          && SharedOf(end) == SharedOf(base).(snap := AfterFinish(o, first.logPanics), reloading := false);
    } else if first.warnPanics {
      var warn, next := Cycle(Opening, false, Warn), Cycle(Opening, false, Recover);
      Extend(setup, start, acts, base, 0, warn, Panic, Move(Effect.Quiet, next));
      acts := RecoverRuns(setup, start, acts + [Step(0, Panic)], base, 0, next);
      end :| RunsTo(setup, start, 0, acts, end) && end.threads == base.threads
          && SharedOf(end) == SharedOf(base).(snap := DENY_ALL, reloading := false);
    } else {
      acts, end := RetriedRuns(setup, first, second, acts);
    }
  }

  lemma RetriedRuns(setup: Setup, first: World, second: World, front: seq<Action>)
    returns (acts: seq<Action>, end: State)
    requires Follows(first, second)
    requires RunsTo(setup, Init(first.file, first.parentOk), 0, front,
                    Placed(Bare(first), 0, Cycle(Opening, false, Warn)))
    ensures Run(setup, Init(first.file, first.parentOk), acts) == Some(end) && end.threads == map[]
    ensures SharedOf(end) == AfterOpen(AfterFinish(Attempted(setup, second), second.logPanics))
    ensures forall i :: 0 <= i < |acts| && acts[i].Step? ==> acts[i].t == 0
  {
    var start, later := Init(first.file, first.parentOk), Later(first, second);
    var warn, asleep := Cycle(Opening, false, Warn), Cycle(Opening, false, Asleep);
    Extend(setup, start, front, Bare(first), 0, warn, Go, Move(Effect.Quiet, asleep));
    var slept := front + [Step(0, Go)];
    BetweenRuns(setup, first, second, asleep);
    RunAppend(setup, start, slept, Placed(Bare(first), 0, asleep), Between(first, second));
    var back := SecondAttemptRuns(setup, later, second);
    end :| RunsTo(setup, Placed(later, 0, asleep), 0, back, end) && end.threads == later.threads
        && SharedOf(end) == SharedOf(later).(snap := AfterFinish(Attempted(setup, second), second.logPanics),
                                             reloading := false);
    acts := slept + Between(first, second) + back;
    RunAppend(setup, start, slept + Between(first, second), Placed(later, 0, asleep), back);
  }
}
