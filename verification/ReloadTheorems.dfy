/** What the reload protocol promises, over all interleavings and all histories of the file. */
module ReloadTheorems {
  import opened GoTypes
  import opened Entries
  import opened KeyFile
  import opened Reload
  import opened ReloadSafety

  // ----- the snapshot agrees with the file it claims to be

  /** In every reachable state: if the installed snapshot carries the signature of the file on disk,
      it is the clean load of what is on disk now. So its keys are the surviving entries of that
      content, or none if the file is missing, refused or unsound. A torn read cannot hide, because
      stat comes before the read. */
  lemma SnapshotAgrees(setup: Setup, s: State)
    requires Reachable(setup, s) && s.snap.sig == Current(s).sig
    ensures exists ask :: s.snap == CleanLoad(setup, ask, Current(s)).snap
    ensures !(Current(s).body.Content? && RawKeys(setup, Current(s).body.data).Some?) ==> s.snap.keys == map[]
    ensures Current(s).body.Content? && RawKeys(setup, Current(s).body.data).Some? ==>
              exists ask :: s.snap.keys == Loaded(setup.rules, ask, RawKeys(setup, Current(s).body.data).value)
  {
    ReachableInv(setup, s);
    var cur := Current(s);
    var ask := AgreeingAnswers(setup, s);
    CleanLoadKeys(setup, ask, cur);
  }

  lemma AgreeingAnswers(setup: Setup, s: State) returns (ask: Answers)
    requires Inv(setup, s) && s.snap.sig == Current(s).sig
    ensures s.snap == CleanLoad(setup, ask, Current(s)).snap
  {
    var n := |s.file| - 1;
    var e := s.log[|s.log| - 1];
    assert VersionOk(s.file[n]);
    assert e.Finished?;
    ask := e.ask;
    assert ResultOk(setup, s.file, e.o, e.ask, e.span);
    if !s.file[n].body.Absent? {
      assert e.span.from == n;
    }
  }

  // ----- no rollback

  /** The loads ever finished saw disjoint, increasing stretches of the file's history, and a
      snapshot that carries a file signature carries that of the version its load began at. */
  lemma NoRollback(setup: Setup, s: State, i: nat, j: nat)
    requires Reachable(setup, s) && i < j < |s.log| && s.log[i].Finished? && s.log[j].Finished?
    ensures s.log[i].span.from <= s.log[i].span.to <= s.log[j].span.from <= s.log[j].span.to < |s.file|
    ensures var o := s.log[j].o;
            o.snap.sig == ZERO || o.snap.sig == MISSING || o.snap.sig == s.file[s.log[j].span.from].sig
  {
    ReachableInv(setup, s);
    assert ResultOk(setup, s.file, s.log[i].o, s.log[i].ask, s.log[i].span);
    assert ResultOk(setup, s.file, s.log[j].o, s.log[j].ask, s.log[j].span);
  }

  /** History is never rewritten: a later state has the file versions and installs of an earlier one
      as a prefix of its own. */
  lemma {:induction false} HistoryGrows(setup: Setup, s: State, acts: seq<Action>)
    requires |s.file| > 0 && Run(setup, s, acts).Some?
    ensures s.file <= Run(setup, s, acts).value.file && s.log <= Run(setup, s, acts).value.log
    ensures s.reloads <= Run(setup, s, acts).value.reloads
  {
    if acts != [] {
      HistoryGrows(setup, s, acts[..|acts| - 1]);
    }
  }

  // ----- single flight

  /** `reloading` is set exactly while one thread runs a cycle. */
  lemma SingleFlight(setup: Setup, s: State)
    requires Reachable(setup, s)
    ensures s.reloading <==> exists t :: Owns(s, t)
    ensures forall t, u :: Owns(s, t) && Owns(s, u) ==> t == u
  {
    ReachableInv(setup, s);
  }

  function TryRank(try: Try): nat {
    match try
    case Stat => 5
    case Open(_, _) => 4
    case CheckParent(_, _, _) => 3
    case ReadAll(_, _, _) => 2
    case ParseData(_, _, _) => 1
    case Returned(_, _, _) => 0
  }

  /** The steps an owner can still take before it must give `reloading` up. */
  function Rank(pc: Pc): nat {
    if !pc.Cycle? then 0
    else match pc.job
         case Release => 1
         case Recover => 2
         case Announce => 3
         case Install(_, _, _) => 4
         case Report(_, _, _) => 5
         case Trying(try) => (if pc.second then 6 else 15) + TryRank(try)
         case Asleep => 12
         case HandOff => 13
         case Warn => 14
  }

  ghost function Potential(s: State): nat {
    if exists t :: Owns(s, t) then (var t :| Owns(s, t); Rank(s.threads[t])) else 0
  }

  lemma PotentialIs(setup: Setup, s: State, t: Tid)
    requires Inv(setup, s) && Owns(s, t)
    ensures Potential(s) == Rank(s.threads[t]) <= 20
  {
  }

  /** A step moves its own thread and at most starts one more. */
  lemma OthersStay(s: State, t: Tid, m: Move, v: Tid)
    requires v != t && (m.effect.Fork? ==> v != m.effect.child)
    ensures At(Apply(s, t, m), v) == At(s, v)
  {
  }

  lemma OwnerUndisturbed(setup: Setup, s: State, a: Action, o: Tid)
    requires Inv(setup, s) && Owns(s, o) && Next(setup, s, a).Some?
    requires a.Step? ==> a.t != o
    ensures At(Next(setup, s, a).value, o) == s.threads[o]
  {
    if a.Step? {
      assert !Owns(s, a.t);
      RequestKeeps(setup, s, At(s, a.t), a.c);
      OthersStay(s, a.t, ThreadMove(setup, s, At(s, a.t), a.c).value, o);
    }
  }

  /** Each step of the owner brings the release nearer; nobody else's step affects it. */
  lemma OwnerProgress(setup: Setup, s: State, a: Action)
    requires Inv(setup, s) && s.reloading && Next(setup, s, a).Some?
    requires Next(setup, s, a).value.reloading
    ensures var s' := Next(setup, s, a).value;
            if a.Step? && Owns(s, a.t) then Potential(s') < Potential(s) else Potential(s') == Potential(s)
  {
    var s' := Next(setup, s, a).value;
    NextKeeps(setup, s, a);
    var o :| Owns(s, o);
    PotentialIs(setup, s, o);
    if a.Step? && Owns(s, a.t) {
      assert a.t == o;
      var m := ThreadMove(setup, s, s.threads[o], a.c).value;
      assert PcOk(setup, s.file, s.log, s.threads[o]);
      RankDrops(setup, s.file, s.parentOk, s.log, s.threads[o], a.c);
      OwnerKeeps(setup, s.file, s.parentOk, s.log, s.threads[o], a.c);
      if m.effect.Fork? {
        PotentialIs(setup, s', m.effect.child);
      } else {
        PotentialIs(setup, s', o);
      }
    } else {
      OwnerUndisturbed(setup, s, a, o);
      PotentialIs(setup, s', o);
    }
  }

  lemma RankDrops(setup: Setup, file: seq<FileVersion>, parentOk: bool, log: seq<Event>, pc: Pc, c: Choice)
    requires FileOk(file) && pc.Cycle? && PcOk(setup, file, log, pc)
    requires CycleMove(setup, file, parentOk, pc, c).Some?
    ensures Rank(CycleMove(setup, file, parentOk, pc, c).value.pc) < Rank(pc)
  {
  }

  ghost function OwnerSteps(setup: Setup, s: State, acts: seq<Action>): nat
    requires |s.file| > 0 && Run(setup, s, acts).Some?
  {
    if acts == [] then 0
    else
      var front, a := acts[..|acts| - 1], acts[|acts| - 1];
      OwnerSteps(setup, s, front) + (if a.Step? && Owns(Run(setup, s, front).value, a.t) then 1 else 0)
  }

  ghost predicate Held(setup: Setup, s: State, acts: seq<Action>)
    requires |s.file| > 0 && Run(setup, s, acts).Some?
  {
    Run(setup, s, acts).value.reloading && (acts != [] ==> Held(setup, s, acts[..|acts| - 1]))
  }

  /** No wedging: in any run through which `reloading` stays set, its owners together take at most
      twenty steps, whatever fails or panics, and however often ownership is passed on. */
  lemma {:induction false} CycleIsBounded(setup: Setup, s: State, acts: seq<Action>)
    requires Inv(setup, s) && Run(setup, s, acts).Some? && Held(setup, s, acts)
    ensures OwnerSteps(setup, s, acts) + Potential(Run(setup, s, acts).value) <= Potential(s) <= 20
  {
    if acts == [] {
      var o :| Owns(s, o);
      PotentialIs(setup, s, o);
    } else {
      var front, a := acts[..|acts| - 1], acts[|acts| - 1];
      CycleIsBounded(setup, s, front);
      RunKeeps(setup, s, front);
      OwnerProgress(setup, Run(setup, s, front).value, a);
    }
  }

  lemma {:induction false} FreshTid(used: set<Tid>) returns (t: Tid)
    ensures forall u :: u in used ==> u < t
  {
    if used == {} {
      t := 0;
    } else {
      var u :| u in used;
      t := FreshTid(used - {u});
      if t <= u {
        t := u + 1;
      }
      assert forall v :: v in used ==> v == u || v in used - {u};
    }
  }

  /** And the owner is never stuck: some answer of the world lets it move. */
  lemma OwnerCanMove(setup: Setup, s: State, t: Tid)
    requires Inv(setup, s) && Owns(s, t)
    ensures exists c :: Next(setup, s, Step(t, c)).Some?
  {
    var pc := s.threads[t];
    assert PcOk(setup, s.file, s.log, pc);
    var c := Go;
    if pc.job.HandOff? {
      var child := FreshTid(s.threads.Keys);
      c := Spawn(child);
    } else if pc.job.Trying? && pc.job.try.ReadAll? {
      c := Bytes(pc.job.try.data);
    } else if pc.job.Trying? && pc.job.try.ParseData? {
      c := Ask(NO_ANSWERS);
    }
    assert Next(setup, s, Step(t, c)).Some?;
  }

  lemma ForkOnlyAtHandOff(setup: Setup, file: seq<FileVersion>, parentOk: bool, pc: Pc, c: Choice)
    requires |file| > 0 && pc.Cycle? && CycleMove(setup, file, parentOk, pc, c).Some?
    ensures var m := CycleMove(setup, file, parentOk, pc, c).value;
            m.effect.Fork? ==> pc.job.HandOff? && m.pc.Cycle? && m.pc.role.Retrying?
  {
  }

  /** Ownership passes only from a request to the goroutine it spawns, which keeps it to the end. */
  lemma HandedOverOnce(setup: Setup, s: State, a: Action, t: Tid, u: Tid)
    requires Inv(setup, s) && Next(setup, s, a).Some?
    requires Owns(s, t) && Owns(Next(setup, s, a).value, u) && t != u
    ensures a.Step? && a.t == t && s.threads[t].job.HandOff? && s.threads[t].role.Serving?
    ensures Next(setup, s, a).value.threads[u].role.Retrying?
  {
    NextKeeps(setup, s, a);
    assert !Owns(Next(setup, s, a).value, t);
    assert a.Step?;
    var m := ThreadMove(setup, s, At(s, a.t), a.c).value;
    if a.t != t {
      OthersStay(s, a.t, m, t);
    }
    ForkOnlyAtHandOff(setup, s.file, s.parentOk, s.threads[t], a.c);
    assert !Owns(s, u);
    if !(m.effect.Fork? && m.effect.child == u) {
      OthersStay(s, t, m, u);
      assert false;
    }
    assert PcOk(setup, s.file, s.log, s.threads[t]);
  }

  // ----- no keep-last-good

  /** A snapshot that is not ok holds no key. */
  lemma NotOkDeniesAll(setup: Setup, s: State)
    requires Reachable(setup, s) && !s.snap.ok
    ensures s.snap.keys == map[]
  {
    ReachableInv(setup, s);
  }

  /** Has an attempt in progress begun at version `v` or later? */
  predicate Since(job: Job, v: nat) {
    match job
    case Trying(Open(_, from)) => v <= from
    case Trying(CheckParent(_, span, _)) => v <= span.from
    case Trying(ReadAll(_, span, _)) => v <= span.from
    case Trying(ParseData(_, span, _)) => v <= span.from
    case Trying(Returned(_, _, span)) => v <= span.from
    case Report(_, _, span) => v <= span.from
    case Install(_, _, span) => v <= span.from
    case _ => true
  }

  /** Loads that are in progress, or finished after the first `installs` installs, began at `v` or later. */
  ghost predicate LoadsSince(s: State, installs: nat, v: nat) {
    && v < |s.file| && installs <= |s.log|
    && (forall i :: installs <= i < |s.log| && s.log[i].Finished? ==> v <= s.log[i].span.from)
    && (forall t :: Owns(s, t) ==> Since(s.threads[t].job, v))
  }

  /** The owner has not yet replaced the snapshot. */
  predicate Pending(pc: Pc) {
    pc.Cycle? && !pc.job.Announce? && !pc.job.Release?
  }

  lemma OwnerMoveSince(setup: Setup, file: seq<FileVersion>, parentOk: bool, pc: Pc, c: Choice, v: nat)
    requires v < |file| && pc.Cycle? && Since(pc.job, v) && CycleMove(setup, file, parentOk, pc, c).Some?
    ensures var m := CycleMove(setup, file, parentOk, pc, c).value;
            && (m.pc.Cycle? ==> Since(m.pc.job, v))
            && (m.effect.Put? && m.effect.why.Finished? ==> v <= m.effect.why.span.from)
            && (Pending(pc) && !m.effect.Put? ==> Pending(m.pc))
            && (m.effect.Free? ==> !Pending(pc))
            && !m.effect.Take? && !m.effect.Gate?
  {
  }

  lemma LoadsSinceKeeps(setup: Setup, s: State, a: Action, installs: nat, v: nat)
    requires Inv(setup, s) && Next(setup, s, a).Some? && LoadsSince(s, installs, v)
    ensures LoadsSince(Next(setup, s, a).value, installs, v)
  {
    var s' := Next(setup, s, a).value;
    if a.Step? {
      var t, pc := a.t, At(s, a.t);
      var m := ThreadMove(setup, s, pc, a.c).value;
      if pc.Cycle? {
        assert Owns(s, t);
        OwnerMoveSince(setup, s.file, s.parentOk, pc, a.c, v);
      } else {
        RequestKeeps(setup, s, pc, a.c);
      }
      forall u | Owns(s', u)
        ensures Since(s'.threads[u].job, v)
      {
        if u != t && !(m.effect.Fork? && u == m.effect.child) {
          OthersStay(s, t, m, u);
          assert Owns(s, u);
        }
      }
    } else {
      assert forall u :: Owns(s', u) <==> Owns(s, u);
    }
  }

  ghost predicate CycleOpen(s: State, cycle: nat) {
    s.reloads == cycle && exists t :: Owns(s, t) && Pending(s.threads[t])
  }

  lemma CycleOpenKeeps(setup: Setup, s: State, a: Action)
    requires Inv(setup, s) && Next(setup, s, a).Some? && CycleOpen(s, s.reloads)
    ensures |Next(setup, s, a).value.log| > |s.log| || CycleOpen(Next(setup, s, a).value, s.reloads)
  {
    var s' := Next(setup, s, a).value;
    var o :| Owns(s, o) && Pending(s.threads[o]);
    if a.Step? {
      var pc := At(s, a.t);
      var m := ThreadMove(setup, s, pc, a.c).value;
      if a.t == o {
        assert PcOk(setup, s.file, s.log, pc);
        OwnerKeeps(setup, s.file, s.parentOk, s.log, pc, a.c);
        PendingMoves(setup, s.file, s.parentOk, pc, a.c);
        if !m.effect.Put? {
          var u := if m.effect.Fork? then m.effect.child else o;
          assert Owns(s', u) && s'.threads[u] == m.pc;
        }
      } else {
        assert !Owns(s, a.t);
        RequestKeeps(setup, s, pc, a.c);
        OthersStay(s, a.t, m, o);
        assert Owns(s', o);
      }
    } else {
      assert Owns(s', o);
    }
  }

  lemma PendingMoves(setup: Setup, file: seq<FileVersion>, parentOk: bool, pc: Pc, c: Choice)
    requires |file| > 0 && Pending(pc) && CycleMove(setup, file, parentOk, pc, c).Some?
    ensures var m := CycleMove(setup, file, parentOk, pc, c).value;
            !m.effect.Put? ==> Pending(m.pc)
  {
  }

  lemma {:induction false} WindowKeeps(setup: Setup, s: State, acts: seq<Action>, installs: nat, cycle: nat, v: nat)
    requires Inv(setup, s) && Run(setup, s, acts).Some?
    requires LoadsSince(s, installs, v) && (|s.log| > installs || CycleOpen(s, cycle))
    ensures var s' := Run(setup, s, acts).value;
            LoadsSince(s', installs, v) && (|s'.log| > installs || CycleOpen(s', cycle))
  {
    if acts != [] {
      var front, a := acts[..|acts| - 1], acts[|acts| - 1];
      WindowKeeps(setup, s, front, installs, cycle, v);
      RunKeeps(setup, s, front);
      var mid := Run(setup, s, front).value;
      LoadsSinceKeeps(setup, mid, a, installs, v);
      HistoryGrows(setup, mid, [a]);
      assert [a][..0] == [] && Run(setup, mid, [a]) == Next(setup, mid, a);
      if |mid.log| <= installs {
        CycleOpenKeeps(setup, mid, a);
      }
    }
  }

  /** Once the window is closed, any keys in force come from a load that began in it or later. */
  lemma WindowCloses(setup: Setup, s: State, installs: nat, cycle: nat, v: nat)
    requires Inv(setup, s) && LoadsSince(s, installs, v)
    requires |s.log| > installs || CycleOpen(s, cycle)
    requires !s.reloading || s.reloads != cycle
    ensures |s.log| > installs
    ensures var e := s.log[|s.log| - 1];
            s.snap.keys != map[] ==> e.Finished? && !e.o.failed && s.snap == e.o.snap && v <= e.span.from
  {
    assert s.snap == SnapOf(s.log[|s.log| - 1]);
  }

  lemma WindowOpens(setup: Setup, s: State, t: Tid)
    requires Inv(setup, s) && Owns(s, t) && s.threads[t].job.Warn?
    ensures LoadsSince(s, |s.log|, |s.file| - 1) && CycleOpen(s, s.reloads)
  {
    assert forall u :: Owns(s, u) ==> u == t;
  }

  /** Once the first read of a cycle has failed, the keys it leaves in force last no longer than that
      cycle: when it is over (`reloading` is free or another cycle has begun) the snapshot has been
      replaced, and any keys come from a load that began no earlier than the failure. */
  lemma FailedReadExpires(setup: Setup, s: State, t: Tid, acts: seq<Action>, s': State)
    requires Reachable(setup, s) && Owns(s, t) && s.threads[t].job.Warn?
    requires Run(setup, s, acts) == Some(s')
    requires !s'.reloading || s'.reloads != s.reloads
    ensures |s'.log| > |s.log|
    ensures var e := s'.log[|s'.log| - 1];
            s'.snap.keys != map[] ==>
              e.Finished? && !e.o.failed && s'.snap == e.o.snap && |s.file| - 1 <= e.span.from
  {
    ReachableInv(setup, s);
    WindowOpens(setup, s, t);
    WindowKeeps(setup, s, acts, |s.log|, s.reloads, |s.file| - 1);
    RunKeeps(setup, s, acts);
    WindowCloses(setup, s', |s.log|, s.reloads, |s.file| - 1);
  }

  /** And with no key in force, none comes back before a load succeeds. */
  lemma DeniesUntilSuccess(setup: Setup, s: State, acts: seq<Action>)
    requires Reachable(setup, s) && s.snap.keys == map[] && Run(setup, s, acts).Some?
    requires var log := Run(setup, s, acts).value.log;
             forall i :: |s.log| <= i < |log| && log[i].Finished? ==> log[i].o.failed
    ensures Run(setup, s, acts).value.snap.keys == map[]
  {
    ReachableInv(setup, s);
    RunKeeps(setup, s, acts);
    HistoryGrows(setup, s, acts);
    var s' := Run(setup, s, acts).value;
    assert s.log == s'.log[..|s.log|];
    assert s'.snap == SnapOf(s'.log[|s'.log| - 1]);
  }
}
