/** What one stat and one attempt decide: which failures are tried again, what a failing stat leaves, and how
    far apart stats are when requests race for the gate. */
module StatTheorems {
  import opened GoTypes
  import opened Entries
  import opened KeyFile
  import opened Reload
  import opened ReloadSafety
  import opened ReloadTheorems
  import opened KeyStore
  import opened KeyStoreTheorems

  // ----- one attempt

  /** What may go away without a change of the file: an I/O error, a panic, or a directory others can write. */
  predicate Transient(w: World) {
    w.fault.StatFault? || (!w.file.body.Absent? && (w.fault.ReadFault? || (!w.file.body.Refused? && !w.parentOk)))
  }

  /** A transient failure denies everything under no signature; anything else is decided by the file alone. So
      the next stat of the same file leaves a failure alone exactly if that was not transient. */
  lemma AttemptDecides(setup: Setup, w: World)
    requires VersionOk(w.file)
    ensures var o := Attempted(setup, w);
            && (Transient(w) ==> o.failed && o.snap.keys == map[] && o.snap.fileSHA == [])
            && (!Transient(w) && w.file.body.Absent? ==> !o.failed && o.snap.keys == map[] && o.snap.sig.missing)
            && (!Transient(w) && !w.file.body.Absent? ==> o == CleanLoad(setup, w.ask, w.file))
            && (o.failed ==> (Installed(o).sig == w.file.sig <==> !Transient(w)))
  {
  }

  /** A failing stat that the gate lets through denies every token, with no reload, and is not mistaken for any
      version of the file, so the next stat that works reads the file again. */
  lemma StatFailureDenies(setup: Setup, sh: Shared, w: World, token: string, now: int)
    requires Due(setup, sh, w.now) && w.statFails && SnapshotOk(sh.snap)
    ensures var after := AfterMaybeReload(setup, sh, w);
            && !Decide(setup, after.snap, token, now).Accepted?
            && after.reloading == sh.reloading && after.reloads == sh.reloads
            && forall v :: VersionOk(v) ==> after.snap.sig != v.sig
  {
  }

  // ----- racing for the gate

  /** Whoever is about to swap the time of the last stat has found it due. */
  ghost predicate SwapsDue(setup: Setup, s: State) {
    forall t :: t in s.threads && s.threads[t].GateCas? ==> SwapDue(setup, s.threads[t])
  }

  predicate SwapDue(setup: Setup, pc: Pc)
    requires pc.GateCas?
  {
    ElapsedDue(pc.now, pc.last, setup.statTTL)
  }

  lemma OwnSwapDue(setup: Setup, s: State, pc: Pc, c: Choice)
    requires |s.file| > 0 && ThreadMove(setup, s, pc, c).Some?
    ensures var m := ThreadMove(setup, s, pc, c).value;
            m.pc.GateCas? ==> SwapDue(setup, m.pc)
  {
  }

  lemma StepKeepsDue(setup: Setup, s: State, a: Action)
    requires |s.file| > 0 && SwapsDue(setup, s) && Next(setup, s, a).Some?
    ensures SwapsDue(setup, Next(setup, s, a).value)
  {
    var s' := Next(setup, s, a).value;
    if a.Step? {
      var m := ThreadMove(setup, s, At(s, a.t), a.c).value;
      OwnSwapDue(setup, s, At(s, a.t), a.c);
      forall u | u in s'.threads && s'.threads[u].GateCas?
        ensures SwapDue(setup, s'.threads[u])
      {
        if u != a.t && !(m.effect.Fork? && m.effect.child == u) {
          OthersStay(s, a.t, m, u);
        }
      }
    }
  }

  lemma {:induction false} RunKeepsDue(setup: Setup, s: State, acts: seq<Action>)
    requires |s.file| > 0 && SwapsDue(setup, s) && Run(setup, s, acts).Some?
    ensures SwapsDue(setup, Run(setup, s, acts).value)
  {
    if acts != [] {
      RunKeepsDue(setup, s, acts[..|acts| - 1]);
      StepKeepsDue(setup, Run(setup, s, acts[..|acts| - 1]).value, acts[|acts| - 1]);
    }
  }

  /** However requests race: whoever sets the time of the last stat replaces one that was due, so of all
      requests that found the same stat too old only one goes on to make the next. */
  lemma GateSpaced(setup: Setup, s: State, t: Tid, c: Choice)
    requires Reachable(setup, s) && Next(setup, s, Step(t, c)).Some?
    requires setup.statTTL > 0 && At(s, t).GateCas?
    ensures var s' := Next(setup, s, Step(t, c)).value;
            if At(s', t).FirstStat?
            then ElapsedDue(s'.lastStatNS, s.lastStatNS, setup.statTTL) && s.lastStatNS == At(s, t).last
            else At(s', t).Idle? && s'.lastStatNS == s.lastStatNS && s.lastStatNS != At(s, t).last
  {
    var v, parentOk, acts: seq<Action> :| VersionOk(v) && Run(setup, Init(v, parentOk), acts) == Some(s);
    RunKeepsDue(setup, Init(v, parentOk), acts);
    assert SwapDue(setup, s.threads[t]);
  }

  /** The time of the last stat changes in no other way. */
  lemma OnlyTheGateSets(setup: Setup, s: State, a: Action)
    requires |s.file| > 0 && Next(setup, s, a).Some? && Next(setup, s, a).value.lastStatNS != s.lastStatNS
    ensures a.Step? && At(s, a.t).GateCas? && Next(setup, s, a).value.lastStatNS == At(s, a.t).now
  {
  }
}
