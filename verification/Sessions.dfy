/** Who owns the sessions of a client (mcpclient/client.go): any number of Call, Fire and Close running at
    once, the mutex held across Connect, and a server that may refuse any step. */
module Sessions {
  import opened GoTypes

  type Tid = nat
  type Sid = nat

  /** What a goroutine is about to do. */
  datatype Pc =
    | Idle
    // session_
    | WantSession
    | Look
    | Connecting
    | Store(sid: Sid)
    | Unlock(got: Option<Sid>)
    // the tool call
    | Using(sid: Sid)
    // dropSession and Close; `own` is the session a failed call was using, None for Close
    | WantTake(own: Option<Sid>)
    | Read(own: Option<Sid>)
    | Clear(own: Option<Sid>, got: Option<Sid>)
    | UnlockTaken(own: Option<Sid>, got: Option<Sid>)
    | Closing(sid: Sid)
    // the end of Call, Close or the goroutine of Fire
    | Finished

  datatype Client = Client(
    reuse: bool,
    maxFire: nat,
    lock: Option<Tid>,
    session: Option<Sid>,
    closes: seq<nat>,        // how often each session ever connected was closed
    slots: nat,              // occupancy of fireSem
    fired: set<Tid>,         // the goroutines of Fire
    pc: map<Tid, Pc>)

  /** What happens next: a call begins, the server answers or does not, or plain code runs. */
  datatype Choice = BeginCall | BeginFire | BeginClose | Good | Bad

  function Initial(reuse: bool, maxFire: nat, threads: set<Tid>): Client {
    Client(reuse, maxFire, None, None, [], 0, {}, map t | t in threads :: Idle)
  }

  function Entry(reuse: bool): Pc {
    if reuse then WantSession else Connecting
  }

  function Goto(c: Client, t: Tid, pc: Pc): Client {
    c.(pc := c.pc[t := pc])
  }

  function Begin(c: Client, t: Tid, how: Choice): Option<Client>
    requires t in c.pc
  {
    match how
    case BeginCall => Some(Goto(c, t, Entry(c.reuse)))
    case BeginFire =>
      // the non-blocking send: at capacity the call is dropped
      if c.slots < c.maxFire
      then Some(Goto(c, t, Entry(c.reuse)).(slots := c.slots + 1, fired := c.fired + {t}))
      else Some(c)
    case BeginClose => Some(Goto(c, t, WantTake(None)))
    case _ => None
  }

  /** One step of goroutine `t`; None when it cannot take one. */
  function Step(c: Client, t: Tid, how: Choice): Option<Client>
    requires t in c.pc
  {
    match c.pc[t]
    case Idle => Begin(c, t, how)
    case WantSession => if c.lock.None? then Some(Goto(c, t, Look).(lock := Some(t))) else None
    case Look => Some(Goto(c, t, if c.session.Some? then Unlock(c.session) else Connecting))
    case Connecting =>
      if how.Good? then
        var sid := |c.closes|;
        Some(Goto(c, t, if c.reuse then Store(sid) else Using(sid)).(closes := c.closes + [0]))
      else
        Some(Goto(c, t, if c.reuse then Unlock(None) else Finished))
    case Store(sid) => Some(Goto(c, t, Unlock(Some(sid))).(session := Some(sid)))
    case Unlock(got) =>
      Some(Goto(c, t, match got { case Some(sid) => Using(sid) case None => Finished }).(lock := None))
    case Using(sid) =>
      Some(Goto(c, t, if !c.reuse then Closing(sid) else if how.Good? then Finished else WantTake(Some(sid))))
    case WantTake(own) => if c.lock.None? then Some(Goto(c, t, Read(own)).(lock := Some(t))) else None
    case Read(own) => Some(Goto(c, t, Clear(own, c.session)))
    case Clear(own, got) => Some(Goto(c, t, UnlockTaken(own, got)).(session := None))
    case UnlockTaken(_, got) =>
      Some(Goto(c, t, match got { case Some(sid) => Closing(sid) case None => Finished }).(lock := None))
    case Closing(sid) =>
      if sid < |c.closes| then Some(Goto(c, t, Finished).(closes := c.closes[sid := c.closes[sid] + 1])) else None
    case Finished =>
      if t in c.fired
      then Some(Goto(c, t, Idle).(slots := if c.slots > 0 then c.slots - 1 else 0, fired := c.fired - {t}))
      else Some(Goto(c, t, Idle))
  }

  function Run(c: Client, acts: seq<(Tid, Choice)>): Option<Client>
    decreases |acts|
  {
    if acts == [] then Some(c)
    else if acts[0].0 !in c.pc then None
    else match Step(c, acts[0].0, acts[0].1)
      case None => None
      case Some(d) => Run(d, acts[1..])
  }

  ghost predicate Reachable(c: Client) {
    exists reuse, maxFire, threads, acts :: Run(Initial(reuse, maxFire, threads), acts) == Some(c)
  }

  // ----- ownership

  predicate HoldsLock(c: Client, t: Tid)
    requires t in c.pc
  {
    var pc := c.pc[t];
    pc.Look? || (pc.Connecting? && c.reuse) || pc.Store? || pc.Unlock? || pc.Read? || pc.Clear? || pc.UnlockTaken?
  }

  /** The session that this goroutine alone must see stored or closed. */
  function HeldAt(pc: Pc, reuse: bool): Option<Sid> {
    match pc
    case Store(sid) => Some(sid)
    case UnlockTaken(_, got) => got
    case Closing(sid) => Some(sid)
    case Using(sid) => if reuse then None else Some(sid)
    case _ => None
  }

  predicate Holds(c: Client, t: Tid, sid: Sid)
    requires t in c.pc
  {
    HeldAt(c.pc[t], c.reuse) == Some(sid)
  }

  predicate Cached(c: Client, sid: Sid) {
    c.session == Some(sid)
  }

  ghost predicate LockOk(c: Client) {
    && (forall t :: t in c.pc ==> (HoldsLock(c, t) <==> c.lock == Some(t)))
    && (c.lock.Some? ==> c.lock.value in c.pc)
  }

  /** No session was connected after this one. */
  predicate Newest(c: Client, sid: Sid) {
    sid + 1 == |c.closes|
  }

  predicate OwnOk(c: Client, own: Option<Sid>) {
    own.Some? ==> c.reuse && own.value < |c.closes|
  }

  ghost predicate PcOk(c: Client, t: Tid)
    requires t in c.pc
  {
    match c.pc[t]
    case WantSession => c.reuse
    case Look => c.reuse
    case Connecting => c.reuse ==> c.session.None?
    case Store(sid) => c.reuse && c.session.None? && Newest(c, sid)
    case Unlock(got) => c.reuse && got == c.session
    case Using(sid) => sid < |c.closes|
    case WantTake(own) => OwnOk(c, own)
    case Read(own) => OwnOk(c, own)
    case Clear(own, got) => OwnOk(c, own) && got == c.session
    case UnlockTaken(own, got) =>
      OwnOk(c, own) && c.session.None? && (got.Some? ==> c.reuse && Newest(c, got.value))
    case Closing(sid) => sid < |c.closes|
    case _ => true
  }

  /** Every session ever connected is exactly one of: cached, held by one goroutine, closed once. */
  ghost predicate Conserved(c: Client, sid: Sid)
    requires sid < |c.closes|
  {
    && c.closes[sid] <= 1
    && (Cached(c, sid) ==> c.closes[sid] == 0 && forall t :: t in c.pc ==> !Holds(c, t, sid))
    && (forall t :: t in c.pc && Holds(c, t, sid) ==> c.closes[sid] == 0)
    && (forall t, u :: t in c.pc && u in c.pc && Holds(c, t, sid) && Holds(c, u, sid) ==> t == u)
    && (c.closes[sid] == 0 && !Cached(c, sid) ==> exists t :: t in c.pc && Holds(c, t, sid))
  }

  ghost predicate Inv(c: Client) {
    && LockOk(c)
    && (forall t :: t in c.pc ==> PcOk(c, t))
    && (c.session.Some? ==> c.reuse && Newest(c, c.session.value))
    && (forall sid :: 0 <= sid < |c.closes| ==> Conserved(c, sid))
    && SlotsOk(c)
  }

  /** A slot of fireSem for each goroutine of Fire, and never more than there are. */
  ghost predicate SlotsOk(c: Client) {
    && c.slots == |c.fired| && c.slots <= c.maxFire && c.fired <= c.pc.Keys
    && (forall t :: t in c.fired ==> !c.pc[t].Idle?)
  }

  lemma InitialOk(reuse: bool, maxFire: nat, threads: set<Tid>)
    ensures Inv(Initial(reuse, maxFire, threads))
  {
  }

  /** The other goroutines are where they were. */
  lemma OthersStay(c: Client, t: Tid, how: Choice)
    requires t in c.pc && Step(c, t, how).Some?
    ensures var d := Step(c, t, how).value;
            && d.pc.Keys == c.pc.Keys && d.reuse == c.reuse && d.maxFire == c.maxFire
            && forall u :: u in c.pc && u != t ==> d.pc[u] == c.pc[u]
  {
    OnlyOwnPc(c, t, how);
  }

  lemma OnlyOwnPc(c: Client, t: Tid, how: Choice)
    requires t in c.pc && Step(c, t, how).Some?
    ensures var d := Step(c, t, how).value;
            t in d.pc && d.pc == c.pc[t := d.pc[t]] && d.reuse == c.reuse && d.maxFire == c.maxFire
  {
  }

  lemma StepKeepsLock(c: Client, t: Tid, how: Choice)
    requires t in c.pc && LockOk(c) && PcOk(c, t) && Step(c, t, how).Some?
    ensures LockOk(Step(c, t, how).value)
  {
    var d := Step(c, t, how).value;
    OthersStay(c, t, how);
    assert HoldsLock(c, t) <==> c.lock == Some(t);
    assert HoldsLock(d, t) <==> d.lock == Some(t);
  }

  lemma OwnPcOk(c: Client, t: Tid, how: Choice)
    requires t in c.pc && PcOk(c, t) && Step(c, t, how).Some?
    requires c.session.Some? ==> c.reuse && Newest(c, c.session.value)
    ensures PcOk(Step(c, t, how).value, t)
  {
  }

  lemma OtherPcOk(c: Client, t: Tid, how: Choice, u: Tid)
    requires LockOk(c) && t in c.pc && u in c.pc && u != t && PcOk(c, t) && PcOk(c, u) && Step(c, t, how).Some?
    requires c.session.Some? ==> c.reuse
    ensures PcOk(Step(c, t, how).value, u)
  {
    OthersStay(c, t, how);
    assert HoldsLock(c, t) <==> c.lock == Some(t);
    assert HoldsLock(c, u) <==> c.lock == Some(u);
  }

  /** What a step does to the slots of Fire. */
  lemma SlotsMove(c: Client, t: Tid, how: Choice)
    requires t in c.pc && Step(c, t, how).Some? && (c.slots > 0 || c.fired == {})
    ensures var d := Step(c, t, how).value;
            || (d.fired == c.fired && d.slots == c.slots && (t in c.fired ==> !c.pc[t].Finished?))
            || (c.pc[t].Idle? && c.slots < c.maxFire && d.fired == c.fired + {t} && d.slots == c.slots + 1)
            || (t in c.fired && d.fired == c.fired - {t} && d.slots == c.slots - 1)
  {
  }

  lemma OwnPcIdle(c: Client, t: Tid, how: Choice)
    requires t in c.pc && Step(c, t, how).Some?
    ensures var d := Step(c, t, how).value;
            t in d.pc && (d.pc[t].Idle? ==> if c.pc[t].Idle? then d.fired == c.fired else t !in d.fired)
  {
  }

  lemma StepKeepsSlots(c: Client, t: Tid, how: Choice)
    requires SlotsOk(c) && t in c.pc && Step(c, t, how).Some?
    ensures SlotsOk(Step(c, t, how).value)
  {
    OthersStay(c, t, how);
    SlotsMove(c, t, how);
    OwnPcIdle(c, t, how);
  }

  /** A step moves at most one session, from one place to the next. */
  datatype Move = Nothing | Connected(sid: Sid) | Stored(sid: Sid) | Taken(sid: Sid) | Closed(sid: Sid)

  ghost predicate Moved(c: Client, d: Client, t: Tid, m: Move)
    requires t in c.pc && t in d.pc
  {
    var was, now := HeldAt(c.pc[t], c.reuse), HeldAt(d.pc[t], d.reuse);
    match m
    case Nothing => now == was && d.session == c.session && d.closes == c.closes
    case Connected(sid) =>
      sid == |c.closes| && was == None && now == Some(sid) && d.session == c.session && d.closes == c.closes + [0]
    case Stored(sid) =>
      was == Some(sid) && now == None && c.session == None && d.session == Some(sid) && d.closes == c.closes
    case Taken(sid) =>
      was == None && now == Some(sid) && c.session == Some(sid) && d.session == None && d.closes == c.closes
    case Closed(sid) =>
      sid < |c.closes| && was == Some(sid) && now == None && d.session == c.session
      && d.closes == c.closes[sid := c.closes[sid] + 1]
  }

  function MoveOf(c: Client, t: Tid, how: Choice): Move
    requires t in c.pc
  {
    match c.pc[t]
    case Connecting => if how.Good? then Connected(|c.closes|) else Nothing
    case Store(sid) => Stored(sid)
    case Clear(_, got) => if got.Some? then Taken(got.value) else Nothing
    case Closing(sid) => Closed(sid)
    case _ => Nothing
  }

  lemma StepMoves(c: Client, t: Tid, how: Choice)
    requires t in c.pc && PcOk(c, t) && Step(c, t, how).Some?
    ensures t in Step(c, t, how).value.pc && Moved(c, Step(c, t, how).value, t, MoveOf(c, t, how))
  {
  }

  lemma MoveConserves(c: Client, d: Client, t: Tid, m: Move, sid: Sid)
    requires t in c.pc && d.pc.Keys == c.pc.Keys && d.reuse == c.reuse && Moved(c, d, t, m)
    requires forall u :: u in c.pc && u != t ==> d.pc[u] == c.pc[u]
    requires forall x :: 0 <= x < |c.closes| ==> Conserved(c, x)
    requires forall u, x: Sid :: u in c.pc && Holds(c, u, x) ==> x < |c.closes|
    requires c.session.Some? ==> c.session.value < |c.closes|
    requires sid < |d.closes|
    ensures Conserved(d, sid)
  {
    assert forall u :: u in c.pc && u != t ==> (Holds(d, u, sid) <==> Holds(c, u, sid));
    if sid < |c.closes| {
      assert Conserved(c, sid);
      if c.closes[sid] == 0 && !Cached(c, sid) {
        var u :| u in c.pc && Holds(c, u, sid);
        assert u != t ==> Holds(d, u, sid);
      }
    }
    if HeldAt(d.pc[t], d.reuse) == Some(sid) {
      assert Holds(d, t, sid);
    }
  }

  lemma StepKeepsInv(c: Client, t: Tid, how: Choice)
    requires Inv(c) && t in c.pc && Step(c, t, how).Some?
    ensures Inv(Step(c, t, how).value)
  {
    var d := Step(c, t, how).value;
    OthersStay(c, t, how);
    StepKeepsLock(c, t, how);
    StepKeepsSlots(c, t, how);
    StepMoves(c, t, how);
    forall u | u in d.pc
      ensures PcOk(d, u)
    {
      if u == t {
        OwnPcOk(c, t, how);
      } else {
        OtherPcOk(c, t, how, u);
      }
    }
    SessionOk(c, t, how);
    HeldIsKnown(c);
    forall sid: Sid | sid < |d.closes|
      ensures Conserved(d, sid)
    {
      MoveConserves(c, d, t, MoveOf(c, t, how), sid);
    }
  }

  lemma HeldIsKnown(c: Client)
    requires Inv(c)
    ensures forall u, x: Sid :: u in c.pc && Holds(c, u, x) ==> x < |c.closes|
  {
    forall u, x: Sid | u in c.pc && Holds(c, u, x)
      ensures x < |c.closes|
    {
      assert PcOk(c, u);
    }
  }

  lemma SessionOk(c: Client, t: Tid, how: Choice)
    requires t in c.pc && PcOk(c, t) && Step(c, t, how).Some?
    requires c.session.Some? ==> c.reuse && Newest(c, c.session.value)
    ensures var d := Step(c, t, how).value;
            d.session.Some? ==> d.reuse && Newest(d, d.session.value)
  {
  }

  // ----- every run

  lemma {:induction false} RunKeepsInv(c: Client, acts: seq<(Tid, Choice)>)
    requires Inv(c) && Run(c, acts).Some?
    ensures Inv(Run(c, acts).value)
    decreases |acts|
  {
    if acts != [] {
      StepKeepsInv(c, acts[0].0, acts[0].1);
      RunKeepsInv(Step(c, acts[0].0, acts[0].1).value, acts[1..]);
    }
  }

  lemma ReachableInv(c: Client)
    requires Reachable(c)
    ensures Inv(c)
  {
    var reuse, maxFire, threads, acts :| Run(Initial(reuse, maxFire, threads), acts) == Some(c);
    InitialOk(reuse, maxFire, threads);
    RunKeepsInv(Initial(reuse, maxFire, threads), acts);
  }

  /** In every interleaving each session ever connected is cached, held by one goroutine, or closed: exactly
      one of the three, and closed once. */
  lemma SessionConserved(c: Client, sid: Sid)
    requires Reachable(c) && sid < |c.closes|
    ensures c.closes[sid] <= 1
    ensures c.closes[sid] == 1 <==> !Cached(c, sid) && forall t :: t in c.pc ==> !Holds(c, t, sid)
    ensures Cached(c, sid) ==> forall t :: t in c.pc ==> !Holds(c, t, sid)
    ensures forall t, u :: t in c.pc && u in c.pc && Holds(c, t, sid) && Holds(c, u, sid) ==> t == u
  {
    ReachableInv(c);
    assert Conserved(c, sid);
  }

  /** A session is stored only where none is: the cached one is never overwritten. */
  lemma NeverOverwritten(c: Client, t: Tid, how: Choice)
    requires Reachable(c) && t in c.pc && Step(c, t, how).Some?
    ensures var d := Step(c, t, how).value;
            c.session.Some? ==> d.session == c.session || (d.session.None? && Holds(d, t, c.session.value))
  {
    ReachableInv(c);
    assert PcOk(c, t);
    StepMoves(c, t, how);
  }

  /** Nothing leaks: when no goroutine is in the client, every session but the cached one is closed. */
  lemma NothingLeaks(c: Client, sid: Sid)
    requires Reachable(c) && sid < |c.closes| && forall t :: t in c.pc ==> c.pc[t].Idle?
    ensures c.closes[sid] == if c.session == Some(sid) then 0 else 1
    ensures c.slots == 0 && c.lock.None?
  {
    SessionConserved(c, sid);
    ReachableInv(c);
    NoneFired(c);
  }

  /** At most `maxFire` goroutines of Fire run at once, each with its own slot until it is done. */
  lemma FireBounded(c: Client)
    requires Reachable(c)
    ensures |c.fired| == c.slots <= c.maxFire && forall t :: t in c.fired ==> t in c.pc && !c.pc[t].Idle?
  {
    ReachableInv(c);
  }

  /** Fire drops a call exactly when all slots are taken; then nothing changes. */
  lemma FireDropsWhenFull(c: Client, t: Tid)
    requires Reachable(c) && t in c.pc && c.pc[t].Idle?
    ensures Step(c, t, BeginFire).Some?
    ensures Step(c, t, BeginFire) == Some(c) <==> |c.fired| == c.maxFire
    ensures |c.fired| < c.maxFire ==> t in Step(c, t, BeginFire).value.fired
  {
    ReachableInv(c);
    if |c.fired| < c.maxFire {
      assert Step(c, t, BeginFire).value.slots == c.slots + 1;
    }
  }

  lemma NoneFired(c: Client)
    requires SlotsOk(c) && forall t :: t in c.pc ==> c.pc[t].Idle?
    ensures c.fired == {}
  {
    assert forall t :: t !in c.fired;
  }

  // ----- every call comes to an end

  /** The steps a goroutine has left before it is idle again. */
  function Rank(pc: Pc): nat {
    match pc
    case WantSession => 12
    case Look => 11
    case Connecting => 10
    case Store(_) => 9
    case Unlock(_) => 8
    case Using(_) => 7
    case WantTake(_) => 6
    case Read(_) => 5
    case Clear(_, _) => 4
    case UnlockTaken(_, _) => 3
    case Closing(_) => 2
    case Finished => 1
    case Idle => 0
  }

  lemma OwnStepRank(c: Client, t: Tid, how: Choice)
    requires t in c.pc && !c.pc[t].Idle? && Step(c, t, how).Some?
    ensures t in Step(c, t, how).value.pc && Rank(Step(c, t, how).value.pc[t]) < Rank(c.pc[t])
  {
  }

  lemma OwnStepWaits(c: Client, t: Tid, how: Choice)
    requires t in c.pc && !c.pc[t].Idle? && PcOk(c, t)
    ensures Step(c, t, how).None? <==> (c.pc[t].WantSession? || c.pc[t].WantTake?) && c.lock.Some?
  {
  }

  /** Whatever the server answers, a goroutine's own steps bring it closer to the end, and only a mutex that
      another goroutine holds can keep it waiting. */
  lemma OwnStepsRunOut(c: Client, t: Tid, how: Choice)
    requires Reachable(c) && t in c.pc && !c.pc[t].Idle?
    ensures Step(c, t, how).None? <==> (c.pc[t].WantSession? || c.pc[t].WantTake?) && c.lock.Some?
    ensures Step(c, t, how).Some? ==>
              t in Step(c, t, how).value.pc && Rank(Step(c, t, how).value.pc[t]) < Rank(c.pc[t])
  {
    ReachableInv(c);
    OwnStepWaits(c, t, how);
    if Step(c, t, how).Some? {
      OwnStepRank(c, t, how);
    }
  }

  /** Whoever holds the mutex is never kept waiting. */
  lemma LockHolderMoves(c: Client, how: Choice)
    requires Reachable(c) && c.lock.Some?
    ensures c.lock.value in c.pc && !c.pc[c.lock.value].Idle? && Step(c, c.lock.value, how).Some?
  {
    ReachableInv(c);
    OwnStepsRunOut(c, c.lock.value, how);
  }

  // ----- what a failing call drops

  /** What a failed call took out of the cache, between reading it and letting go of the mutex. */
  predicate Dropping(pc: Pc, own: Sid, got: Option<Sid>) {
    pc == Clear(Some(own), got) || pc == UnlockTaken(Some(own), got)
  }

  /** In every interleaving: what a failed call drops is the newest session or nothing. It is the session the
      call was using exactly if a session is cached and none was connected since; otherwise it is a newer one,
      or none, and then another goroutine has closed the call's session or is about to. */
  lemma DropsOwnExactly(c: Client, t: Tid, own: Sid, got: Option<Sid>)
    requires Reachable(c) && t in c.pc && Dropping(c.pc[t], own, got)
    ensures got == Some(own) <==> got.Some? && |c.closes| == own + 1
    ensures got.Some? && got != Some(own) ==> got.value > own
    ensures got.None? ==>
              own < |c.closes| && (c.closes[own] == 1 || exists u :: u in c.pc && u != t && Holds(c, u, own))
  {
    ReachableInv(c);
    assert PcOk(c, t);
    if got.None? {
      SessionConserved(c, own);
      assert !Cached(c, own) && !Holds(c, t, own);
    }
  }

  /** A failed call, or Close, has read what is cached, and closes that and nothing else. */
  lemma DroppedIsClosed(c: Client, t: Tid, own: Option<Sid>, got: Option<Sid>) returns (d: Client)
    requires Reachable(c) && t in c.pc && c.pc[t] == Clear(own, got)
    ensures got == c.session
    ensures Reachable(d) && d.pc == c.pc[t := Finished] && d.session == None && |d.closes| == |c.closes|
    ensures forall sid: Sid :: sid < |c.closes| ==>
              d.closes[sid] == c.closes[sid] + (if got == Some(sid) then 1 else 0)
  {
    ReachableInv(c);
    assert PcOk(c, t);
    if got.Some? {
      d := ClearCloses(c, t, own, got.value);
    } else {
      d := ClearNothing(c, t, own);
    }
  }

  lemma ClearNothing(c: Client, t: Tid, own: Option<Sid>) returns (d: Client)
    requires Reachable(c) && t in c.pc && c.pc[t] == Clear(own, None)
    ensures Reachable(d) && d == Goto(c, t, Finished).(session := None, lock := None)
  {
    d := Advance(c, t, Bad);
    assert d == Goto(c, t, UnlockTaken(own, None)).(session := None);
    d := Advance(d, t, Bad);
  }

  lemma {:induction false} RunOneMore(c: Client, acts: seq<(Tid, Choice)>, t: Tid, how: Choice)
    requires Run(c, acts).Some? && t in Run(c, acts).value.pc && Step(Run(c, acts).value, t, how).Some?
    ensures Run(c, acts + [(t, how)]) == Step(Run(c, acts).value, t, how)
    decreases |acts|
  {
    var more := acts + [(t, how)];
    if acts != [] {
      assert more[1..] == acts[1..] + [(t, how)];
      RunOneMore(Step(c, acts[0].0, acts[0].1).value, acts[1..], t, how);
    } else {
      assert more[1..] == [];
      assert Run(Step(c, t, how).value, []) == Some(Step(c, t, how).value);
    }
  }

  lemma ReachStep(c: Client, t: Tid, how: Choice)
    requires Reachable(c) && t in c.pc && Step(c, t, how).Some?
    ensures Reachable(Step(c, t, how).value)
  {
    var reuse, maxFire, threads, acts :| Run(Initial(reuse, maxFire, threads), acts) == Some(c);
    RunOneMore(Initial(reuse, maxFire, threads), acts, t, how);
    assert Run(Initial(reuse, maxFire, threads), acts + [(t, how)]) == Step(c, t, how);
  }

  lemma Advance(c: Client, t: Tid, how: Choice) returns (d: Client)
    requires Reachable(c) && t in c.pc && Step(c, t, how).Some?
    ensures Reachable(d) && d == Step(c, t, how).value
  {
    ReachStep(c, t, how);
    d := Step(c, t, how).value;
  }

  lemma CallLooks(c: Client, t: Tid) returns (d: Client)
    requires Reachable(c) && c.reuse && t in c.pc && c.pc[t].Idle? && c.lock.None?
    ensures Reachable(d) && d == Goto(c, t, Look).(lock := Some(t))
  {
    d := Advance(c, t, BeginCall);
    d := Advance(d, t, Good);
  }

  lemma ConnectStores(c: Client, t: Tid) returns (d: Client)
    requires Reachable(c) && c.reuse && t in c.pc && c.pc[t].Connecting?
    ensures Reachable(d)
    ensures d == Goto(c, t, Using(|c.closes|)).(session := Some(|c.closes|), closes := c.closes + [0], lock := None)
  {
    d := Advance(c, t, Good);
    d := Advance(d, t, Good);
    d := Advance(d, t, Good);
  }

  /** A call that finds no session connects one. */
  lemma CallConnects(c: Client, t: Tid) returns (d: Client)
    requires Reachable(c) && c.reuse && t in c.pc && c.pc[t].Idle? && c.lock.None? && c.session.None?
    ensures Reachable(d) && d == Goto(c, t, Using(|c.closes|)).(session := Some(|c.closes|), closes := c.closes + [0])
  {
    d := CallLooks(c, t);
    d := Advance(d, t, Good);
    d := ConnectStores(d, t);
  }

  /** One that finds a session uses it. */
  lemma CallReuses(c: Client, t: Tid) returns (d: Client)
    requires Reachable(c) && c.reuse && t in c.pc && c.pc[t].Idle? && c.lock.None? && c.session.Some?
    ensures Reachable(d) && d == Goto(c, t, Using(c.session.value))
  {
    d := CallLooks(c, t);
    d := Advance(d, t, Good);
    d := Advance(d, t, Good);
  }

  lemma FailureReads(c: Client, t: Tid) returns (d: Client)
    requires Reachable(c) && c.reuse && t in c.pc && c.pc[t].Using? && c.lock.None?
    ensures Reachable(d) && d == Goto(c, t, Clear(Some(c.pc[t].sid), c.session)).(lock := Some(t))
  {
    d := Advance(c, t, Bad);
    d := Advance(d, t, Bad);
    d := Advance(d, t, Bad);
  }

  lemma ClearCloses(c: Client, t: Tid, own: Option<Sid>, sid: Sid) returns (d: Client)
    requires Reachable(c) && t in c.pc && c.pc[t] == Clear(own, Some(sid)) && sid < |c.closes|
    ensures Reachable(d)
    ensures d == Goto(c, t, Finished).(session := None, lock := None, closes := c.closes[sid := c.closes[sid] + 1])
  {
    d := Advance(c, t, Bad);
    assert d == Goto(c, t, UnlockTaken(own, Some(sid))).(session := None);
    d := UnlockCloses(d, t, own, sid);
  }

  lemma UnlockCloses(c: Client, t: Tid, own: Option<Sid>, sid: Sid) returns (d: Client)
    requires Reachable(c) && t in c.pc && c.pc[t] == UnlockTaken(own, Some(sid)) && sid < |c.closes|
    ensures Reachable(d)
    ensures d == Goto(c, t, Finished).(lock := None, closes := c.closes[sid := c.closes[sid] + 1])
  {
    d := Advance(c, t, Bad);
    assert d == Goto(c, t, Closing(sid)).(lock := None);
    d := Advance(d, t, Bad);
  }

  /** A call whose tool call fails drops the session that is cached by then. */
  lemma FailureDrops(c: Client, t: Tid) returns (d: Client)
    requires Reachable(c) && c.reuse && t in c.pc && c.pc[t].Using? && c.lock.None? && c.session.Some?
    requires c.session.value < |c.closes|
    ensures Reachable(d)
    ensures var sid := c.session.value;
            d == Goto(c, t, Finished).(session := None, closes := c.closes[sid := c.closes[sid] + 1])
  {
    d := FailureReads(c, t);
    d := ClearCloses(d, t, Some(c.pc[t].sid), c.session.value);
  }

  /** Close, with no other goroutine at the mutex, leaves no session cached and closes the one that was. */
  lemma CloseCloses(c: Client, t: Tid) returns (d: Client)
    requires Reachable(c) && t in c.pc && c.pc[t].Idle? && c.lock.None?
    ensures Reachable(d) && d.pc == c.pc[t := Finished] && d.session == None && |d.closes| == |c.closes|
    ensures forall sid: Sid :: sid < |c.closes| ==>
              d.closes[sid] == c.closes[sid] + (if c.session == Some(sid) then 1 else 0)
  {
    d := CloseReads(c, t);
    d := DroppedIsClosed(d, t, None, c.session);
  }

  lemma CloseReads(c: Client, t: Tid) returns (d: Client)
    requires Reachable(c) && t in c.pc && c.pc[t].Idle? && c.lock.None?
    ensures Reachable(d) && d == Goto(c, t, Clear(None, c.session)).(lock := Some(t))
  {
    d := Advance(c, t, BeginClose);
    d := Advance(d, t, Bad);
    d := Advance(d, t, Bad);
  }

  /** No goroutine is about to take the cached session or to close one. */
  ghost predicate NoneTaking(c: Client) {
    forall t :: t in c.pc ==> !Taking(c.pc[t])
  }

  predicate Taking(pc: Pc) {
    pc.WantTake? || pc.Read? || pc.Clear? || pc.UnlockTaken? || pc.Closing?
  }

  /** A Call or Fire begins, or the server answers. */
  predicate Succeeds(pc: Pc, how: Choice) {
    if pc.Idle? then how.BeginCall? || how.BeginFire? else how.Good?
  }

  predicate AllSucceed(c: Client, acts: seq<(Tid, Choice)>)
    requires Run(c, acts).Some?
    decreases |acts|
  {
    acts == [] ||
    (Succeeds(c.pc[acts[0].0], acts[0].1) && AllSucceed(Step(c, acts[0].0, acts[0].1).value, acts[1..]))
  }

  lemma SuccessMoves(c: Client, t: Tid, how: Choice)
    requires c.reuse && c.session.Some? && t in c.pc && !Taking(c.pc[t]) && PcOk(c, t) && Step(c, t, how).Some?
    requires Succeeds(c.pc[t], how)
    ensures var d := Step(c, t, how).value;
            t in d.pc && !Taking(d.pc[t]) && d.session == c.session && d.closes == c.closes
  {
  }

  lemma SuccessKeeps(c: Client, t: Tid, how: Choice)
    requires Inv(c) && NoneTaking(c) && c.session.Some? && t in c.pc && Step(c, t, how).Some?
    requires Succeeds(c.pc[t], how)
    ensures var d := Step(c, t, how).value; NoneTaking(d) && d.session == c.session && d.closes == c.closes
  {
    OthersStay(c, t, how);
    SuccessMoves(c, t, how);
  }

  /** As long as all calls succeed and nobody calls Close, however they interleave, the cached session stays
      cached and open, and no other is connected. */
  lemma {:induction false} SuccessesShareOneSession(c: Client, acts: seq<(Tid, Choice)>)
    requires Inv(c) && NoneTaking(c) && c.session.Some? && Run(c, acts).Some?
    requires AllSucceed(c, acts)
    ensures var d := Run(c, acts).value; d.session == c.session && d.closes == c.closes
    ensures c.session.value < |c.closes| && c.closes[c.session.value] == 0
    decreases |acts|
  {
    assert Newest(c, c.session.value) && Conserved(c, c.session.value);
    if acts != [] {
      StepKeepsInv(c, acts[0].0, acts[0].1);
      SuccessKeeps(c, acts[0].0, acts[0].1);
      SuccessesShareOneSession(Step(c, acts[0].0, acts[0].1).value, acts[1..]);
    }
  }

  /** So a call can close a session it never used while another call is using it: `a` and `b` share a session
      that breaks, `a` drops it, a third call connects a new one, and then `b` notices. */
  lemma StaleFailureDropsFresh(a: Tid, b: Tid, other: Tid, maxFire: nat) returns (c: Client, d: Client)
    requires a != b && b != other && a != other
    ensures Reachable(c) && Reachable(d)
    ensures a in c.pc && b in c.pc && other in c.pc && c.pc[b] == Using(0) && c.pc[other] == Using(1)
    ensures c.closes == [1, 0] && d == Goto(c, b, Finished).(session := None, closes := [1, 1])
    ensures d.pc[other] == Using(1)
  {
    c := Initial(true, maxFire, {a, b, other});
    assert Run(c, []) == Some(c);
    c := CallConnects(c, a);
    c := CallReuses(c, b);
    c := FailureDrops(c, a);
    c := CallConnects(c, other);
    d := FailureDrops(c, b);
  }
}
