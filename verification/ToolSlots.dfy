/** The slots of ToolTimeoutMiddleware (hooks.go): any number of tool calls at once, each with a handler that
    may hold a slot and a worker that runs the tool and may outlive it. */
module ToolSlots {
  import opened GoTypes

  /** The tool's result; its content does not matter here. */
  type Res = nat

  datatype Answer = FromTool(r: Res) | Aborted | Refused

  /** The handler of a call. */
  datatype Handler =
    | Arrived
    | Acquired               // before `go func`
    | Selecting
    | Leaving(a: Answer)     // a case of the select was taken; the deferred release is next
    | Returned(a: Answer)

  datatype Worker = NotSpawned | Running | Sending(r: Res) | Exited(r: Res)

  datatype Call = Call(handler: Handler, worker: Worker, buffer: Option<Res>, ctxDone: bool)

  /** `max` is None when MaxConcurrentTools is not positive: then there is no semaphore. */
  datatype State = State(max: Option<nat>, sem: nat, calls: seq<Call>)

  datatype Event = Arrive | Acquire | Spawn | ToolReturns(r: Res) | Send | CtxEnds | Receive | Abort | Leave

  const NEW := Call(Arrived, NotSpawned, None, false)

  /** One event of call `i`; None when it cannot happen. A send into a full buffer and a receive from an
      empty semaphore would block. */
  function Step(s: State, i: nat, e: Event): Option<State> {
    if e.Arrive? then
      if i == |s.calls| then Some(s.(calls := s.calls + [NEW])) else None
    else if i >= |s.calls| then None
    else
      var c := s.calls[i];
      match e
      case Acquire =>
        if !c.handler.Arrived? then None
        else if s.max.None? then Some(Put(s, i, c.(handler := Acquired)))
        else if s.sem < s.max.value then Some(Put(s, i, c.(handler := Acquired)).(sem := s.sem + 1))
        else Some(Put(s, i, c.(handler := Returned(Refused))))
      case Spawn =>
        if c.handler.Acquired? then Some(Put(s, i, c.(handler := Selecting, worker := Running))) else None
      case ToolReturns(r) => if c.worker.Running? then Some(Put(s, i, c.(worker := Sending(r)))) else None
      case Send =>
        if c.worker.Sending? && c.buffer.None?
        then Some(Put(s, i, c.(worker := Exited(c.worker.r), buffer := Some(c.worker.r))))
        else None
      case CtxEnds =>
        if c.handler.Acquired? || c.handler.Selecting? then Some(Put(s, i, c.(ctxDone := true))) else None
      case Receive =>
        if c.handler.Selecting? && c.buffer.Some?
        then Some(Put(s, i, c.(handler := Leaving(FromTool(c.buffer.value)), buffer := None)))
        else None
      case Abort =>
        if c.handler.Selecting? && c.ctxDone then Some(Put(s, i, c.(handler := Leaving(Aborted)))) else None
      case Leave =>
        if !c.handler.Leaving? then None
        else
          var d := c.(handler := Returned(c.handler.a), ctxDone := true);
          if s.max.None? then Some(Put(s, i, d))
          else if s.sem > 0 then Some(Put(s, i, d).(sem := s.sem - 1)) else None
  }

  function Put(s: State, i: nat, c: Call): State
    requires i < |s.calls|
  {
    s.(calls := s.calls[i := c])
  }

  function Run(s: State, acts: seq<(nat, Event)>): Option<State>
    decreases |acts|
  {
    if acts == [] then Some(s)
    else match Step(s, acts[0].0, acts[0].1)
      case None => None
      case Some(t) => Run(t, acts[1..])
  }

  ghost predicate Reachable(s: State) {
    exists acts :: Run(State(s.max, 0, []), acts) == Some(s)
  }

  // ----- the invariant

  predicate Holding(c: Call) {
    c.handler.Acquired? || c.handler.Selecting? || c.handler.Leaving?
  }

  predicate Busy(c: Call) {
    c.worker.Running? || c.worker.Sending?
  }

  ghost function Held(s: State): set<nat> {
    set i: nat | i < |s.calls| && Holding(s.calls[i])
  }

  ghost function Workers(s: State): set<nat> {
    set i: nat | i < |s.calls| && Busy(s.calls[i])
  }

  /** The workers whose handler gave up on them and has returned. */
  ghost function Detached(s: State): set<nat> {
    set i: nat | i < |s.calls| && Busy(s.calls[i]) && s.calls[i].handler == Returned(Aborted)
  }

  predicate CallOk(c: Call) {
    && (c.worker.NotSpawned? <==>
          c.handler.Arrived? || c.handler.Acquired? || c.handler == Returned(Refused) || c.handler == Leaving(Refused))
    && c.handler != Leaving(Refused)
    && (c.buffer.Some? ==> c.worker == Exited(c.buffer.value))
    && (c.handler.Selecting? && c.worker.Exited? ==> c.buffer == Some(c.worker.r))
    && ((c.handler.Leaving? || c.handler.Returned?) && c.handler.a.FromTool? ==>
          c.worker == Exited(c.handler.a.r) && c.buffer.None?)
    && ((c.handler.Leaving? || c.handler.Returned?) && c.handler.a.Aborted? ==> c.ctxDone)
  }

  ghost predicate Inv(s: State) {
    && (forall i :: 0 <= i < |s.calls| ==> CallOk(s.calls[i]))
    && (s.max.Some? ==> s.sem == |Held(s)| && s.sem <= s.max.value)
  }

  lemma StepKeepsCalls(s: State, i: nat, e: Event, j: nat)
    requires Step(s, i, e).Some? && j < |Step(s, i, e).value.calls|
    requires forall k :: 0 <= k < |s.calls| ==> CallOk(s.calls[k])
    ensures CallOk(Step(s, i, e).value.calls[j])
  {
  }

  lemma HeldAfter(s: State, t: State, i: nat)
    requires |t.calls| == |s.calls| && i < |s.calls|
    requires forall j :: 0 <= j < |s.calls| && j != i ==> t.calls[j] == s.calls[j]
    ensures Held(t) == if Holding(t.calls[i]) then Held(s) + {i} else Held(s) - {i}
  {
  }

  function One(b: bool): nat {
    if b then 1 else 0
  }

  lemma HeldCount(s: State, t: State, i: nat)
    requires |t.calls| == |s.calls| && i < |s.calls|
    requires forall j :: 0 <= j < |s.calls| && j != i ==> t.calls[j] == s.calls[j]
    ensures |Held(t)| == |Held(s)| + One(Holding(t.calls[i])) - One(Holding(s.calls[i]))
  {
    HeldAfter(s, t, i);
    assert Holding(s.calls[i]) <==> i in Held(s);
  }

  lemma StepSem(s: State, i: nat, e: Event)
    requires Step(s, i, e).Some? && s.max.Some? && !e.Arrive?
    ensures var t := Step(s, i, e).value;
            && i < |s.calls| == |t.calls| && t.sem == s.sem + One(Holding(t.calls[i])) - One(Holding(s.calls[i]))
            && (s.sem <= s.max.value ==> t.sem <= s.max.value)
            && forall j :: 0 <= j < |s.calls| && j != i ==> t.calls[j] == s.calls[j]
  {
  }

  lemma StepKeepsCount(s: State, i: nat, e: Event)
    requires Inv(s) && Step(s, i, e).Some? && s.max.Some?
    ensures var t := Step(s, i, e).value; t.sem == |Held(t)| && t.sem <= s.max.value
  {
    var t := Step(s, i, e).value;
    if e.Arrive? {
      assert Held(t) == Held(s);
    } else {
      StepSem(s, i, e);
      HeldCount(s, t, i);
    }
  }

  lemma StepKeepsMax(s: State, i: nat, e: Event)
    requires Step(s, i, e).Some?
    ensures Step(s, i, e).value.max == s.max
  {
  }

  lemma StepKeepsInv(s: State, i: nat, e: Event)
    requires Inv(s) && Step(s, i, e).Some?
    ensures Inv(Step(s, i, e).value)
  {
    var t := Step(s, i, e).value;
    forall j: nat | j < |t.calls|
      ensures CallOk(t.calls[j])
    {
      StepKeepsCalls(s, i, e, j);
    }
    StepKeepsMax(s, i, e);
    if s.max.Some? {
      StepKeepsCount(s, i, e);
    }
  }

  lemma {:induction false} RunKeepsInv(s: State, acts: seq<(nat, Event)>)
    requires Inv(s) && Run(s, acts).Some?
    ensures Inv(Run(s, acts).value)
    decreases |acts|
  {
    if acts != [] {
      StepKeepsInv(s, acts[0].0, acts[0].1);
      RunKeepsInv(Step(s, acts[0].0, acts[0].1).value, acts[1..]);
    }
  }

  lemma ReachableInv(s: State)
    requires Reachable(s)
    ensures Inv(s)
  {
    var acts :| Run(State(s.max, 0, []), acts) == Some(s);
    assert Held(State(s.max, 0, [])) == {};
    RunKeepsInv(State(s.max, 0, []), acts);
  }

  // ----- what follows

  /** The semaphore counts the calls between acquire and return, and never more than the limit. */
  lemma SlotsConserved(s: State)
    requires Reachable(s) && s.max.Some?
    ensures s.sem == |Held(s)| <= s.max.value
  {
    ReachableInv(s);
  }

  /** A call is refused exactly when every slot is held by another call. */
  lemma RefusedOnlyWhenFull(s: State, i: nat)
    requires Reachable(s) && i < |s.calls| && s.calls[i].handler.Arrived?
    ensures Step(s, i, Acquire).Some?
    ensures Step(s, i, Acquire).value.calls[i].handler == Returned(Refused) <==>
            s.max.Some? && |Held(s)| == s.max.value
    ensures i !in Held(s)
  {
    ReachableInv(s);
  }

  /** A worker that is done can always hand over its result, and a handler that leaves can always release. */
  lemma NeverBlocked(s: State, i: nat)
    requires Reachable(s) && i < |s.calls|
    ensures s.calls[i].worker.Sending? ==> Step(s, i, Send).Some?
    ensures s.calls[i].handler.Leaving? ==> Step(s, i, Leave).Some?
  {
    ReachableInv(s);
    if s.calls[i].handler.Leaving? && s.max.Some? {
      assert i in Held(s);
    }
  }

  /** A call is answered with its own tool's result, or refused before its tool started, or aborted after its
      context ended. */
  lemma AnswersAreOwn(s: State, i: nat)
    requires Reachable(s) && i < |s.calls| && s.calls[i].handler.Returned?
    ensures match s.calls[i].handler.a
            case FromTool(r) => s.calls[i].worker == Exited(r)
            case Refused => s.calls[i].worker.NotSpawned?
            case Aborted => !s.calls[i].worker.NotSpawned? && s.calls[i].ctxDone
  {
    ReachableInv(s);
  }

  /** A running tool belongs to a call that holds a slot or to one that was aborted. */
  lemma WorkersHeldOrDetached(s: State)
    requires Inv(s)
    ensures Workers(s) == Held(s) * Workers(s) + Detached(s)
    ensures Held(s) !! Detached(s)
  {
    forall i: nat | i in Workers(s) && i !in Held(s)
      ensures i in Detached(s)
    {
      assert CallOk(s.calls[i]);
    }
  }

  /** Running tools are the calls that hold a slot, less those whose worker has not started or is done, plus
      the detached ones. */
  lemma WorkersCounted(s: State)
    requires Reachable(s)
    ensures |Workers(s)| == |Held(s)| - |Held(s) - Workers(s)| + |Detached(s)|
  {
    ReachableInv(s);
    WorkersHeldOrDetached(s);
    SplitCount(Held(s), Workers(s), Detached(s));
  }

  lemma SplitCount(held: set<nat>, workers: set<nat>, detached: set<nat>)
    requires workers == held * workers + detached && held !! detached
    ensures |workers| == |held| - |held - workers| + |detached|
  {
    assert held == held * workers + (held - workers);
    assert (held * workers) !! detached;
  }

  /** The limit bounds the running tools exactly when the detached ones fit into what is left of it by the
      calls whose own tool is running. */
  lemma WithinLimitExactly(s: State)
    requires Reachable(s) && s.max.Some?
    ensures |Workers(s)| <= s.max.value <==> |Detached(s)| <= s.max.value - |Held(s) * Workers(s)|
    ensures Detached(s) == {} ==> |Workers(s)| <= s.max.value
  {
    ReachableInv(s);
    WorkersHeldOrDetached(s);
    assert (Held(s) * Workers(s)) !! Detached(s);
    WorkersCounted(s);
  }

  lemma {:induction false} RunOneMore(s: State, acts: seq<(nat, Event)>, i: nat, e: Event)
    requires Run(s, acts).Some? && Step(Run(s, acts).value, i, e).Some?
    ensures Run(s, acts + [(i, e)]) == Step(Run(s, acts).value, i, e)
    decreases |acts|
  {
    var more := acts + [(i, e)];
    if acts != [] {
      assert more[1..] == acts[1..] + [(i, e)];
      RunOneMore(Step(s, acts[0].0, acts[0].1).value, acts[1..], i, e);
    } else {
      assert more[1..] == [];
      assert Run(Step(s, i, e).value, []) == Step(s, i, e);
    }
  }

  lemma Advance(s: State, i: nat, e: Event) returns (t: State)
    requires Reachable(s) && Step(s, i, e).Some?
    ensures Reachable(t) && Step(s, i, e) == Some(t)
  {
    t := Step(s, i, e).value;
    var acts :| Run(State(s.max, 0, []), acts) == Some(s);
    RunOneMore(State(s.max, 0, []), acts, i, e);
    assert Run(State(t.max, 0, []), acts + [(i, e)]) == Some(t);
  }

  /** Once its context has ended a call can return and free its slot, whatever its tool does. */
  lemma GivesUp(s: State, i: nat) returns (t: State)
    requires Reachable(s) && i < |s.calls| && s.calls[i].handler.Selecting? && s.calls[i].ctxDone
    ensures Reachable(t) && t.calls == s.calls[i := s.calls[i].(handler := Returned(Aborted))] && t.max == s.max
    ensures s.max.Some? ==> t.sem == s.sem - 1
  {
    t := Advance(s, i, Abort);
    NeverBlocked(t, i);
    t := Advance(t, i, Leave);
  }

  /** What a finished tool has sent is there for the waiting handler, until it leaves, whether or not the
      context has ended: receiving it is always possible, and then the call returns that result. */
  lemma FinishedIsDelivered(s: State, i: nat) returns (t: State)
    requires Reachable(s) && i < |s.calls| && s.calls[i].handler.Selecting? && s.calls[i].worker.Exited?
    ensures var r := s.calls[i].worker.r;
            Reachable(t) && t.calls == s.calls[i := Call(Returned(FromTool(r)), Exited(r), None, true)]
    ensures t.max == s.max && (s.max.Some? ==> t.sem == s.sem - 1)
  {
    ReachableInv(s);
    assert CallOk(s.calls[i]);
    t := Advance(s, i, Receive);
    NeverBlocked(t, i);
    t := Advance(t, i, Leave);
  }

  /** A tool that returns while its handler waits can answer the call with any result, and frees the slot. */
  lemma ResultIsDelivered(s: State, i: nat, r: Res) returns (t: State)
    requires Reachable(s) && i < |s.calls| && s.calls[i].handler.Selecting? && s.calls[i].worker.Running?
    ensures Reachable(t) && t.calls == s.calls[i := Call(Returned(FromTool(r)), Exited(r), None, true)]
    ensures t.max == s.max && (s.max.Some? ==> t.sem == s.sem - 1)
  {
    t := Advance(s, i, ToolReturns(r));
    NeverBlocked(t, i);
    t := Advance(t, i, Send);
    t := FinishedIsDelivered(t, i);
  }

  const LEAKED := Call(Returned(Aborted), Running, None, true)

  /** The limit bounds the calls in progress, not the running tools: with a single slot, any number of tools
      that ignore their context can be running while the slot is free. */
  lemma {:induction false} LeakedUnbounded(max: nat, n: nat) returns (s: State)
    requires max >= 1
    ensures Reachable(s) && s == State(Some(max), 0, seq(n, i => LEAKED)) && |Detached(s)| == |Workers(s)| == n
    decreases n
  {
    if n == 0 {
      s := State(Some(max), 0, []);
      assert Run(s, []) == Some(s);
      assert s.calls == seq(0, i => LEAKED);
    } else {
      var r := LeakedUnbounded(max, n - 1);
      s := LeakOneMore(r, max);
      assert s.calls == seq(n, i => LEAKED);
    }
    LeakedCount(s, n);
  }

  lemma LeakOneMore(s: State, max: nat) returns (t: State)
    requires Reachable(s) && s.max == Some(max) && s.sem == 0 && max >= 1
    ensures Reachable(t) && t == s.(calls := s.calls + [LEAKED])
  {
    var i := |s.calls|;
    t := Advance(s, i, Arrive);
    t := Advance(t, i, Acquire);
    t := Advance(t, i, Spawn);
    t := Advance(t, i, CtxEnds);
    t := GivesUp(t, i);
  }

  lemma {:induction false} LeakedCount(s: State, n: nat)
    requires s.calls == seq(n, i => LEAKED)
    ensures |Detached(s)| == |Workers(s)| == n
    decreases n
  {
    if n == 0 {
      assert Detached(s) == {} && Workers(s) == {};
    } else {
      var r := s.(calls := s.calls[..n - 1]);
      assert r.calls == seq(n - 1, i => LEAKED);
      LeakedCount(r, n - 1);
      LastLeaked(r, s);
    }
  }

  lemma LastLeaked(r: State, s: State)
    requires s.calls == r.calls + [LEAKED]
    ensures Detached(s) == Detached(r) + {|r.calls|} && Workers(s) == Workers(r) + {|r.calls|}
  {
  }

  // ----- timeouts

  /** `asked` is what parseArgTimeout made of the arguments, 0 when there is no usable `timeout_secs`. */
  function ResolveTimeout(asked: int, maxTool: int, perTool: Option<int>, default_: int): int {
    if asked > 0 then if maxTool > 0 && asked > maxTool then maxTool else asked
    else if perTool.Some? && perTool.value > 0 then perTool.value
    else default_
  }

  /** A request can shorten its timeout to anything; with a maximum it gets no more than that, without one it
      gets what it asks for. Without a request a per-tool setting wins over the default. */
  lemma RequestIsCapped(asked: int, maxTool: int, perTool: Option<int>, default_: int)
    ensures 0 < maxTool < asked ==> ResolveTimeout(asked, maxTool, perTool, default_) == maxTool
    ensures asked <= 0 && (perTool.None? || perTool.value <= 0) ==>
              ResolveTimeout(asked, maxTool, perTool, default_) == default_
    ensures asked <= 0 && perTool.Some? && perTool.value > 0 ==>
              ResolveTimeout(asked, maxTool, perTool, default_) == perTool.value
    ensures default_ > 0 ==> 0 < ResolveTimeout(asked, maxTool, perTool, default_)
    ensures var configured := ResolveTimeout(0, maxTool, perTool, default_);
            maxTool > 0 ==>
              ResolveTimeout(asked, maxTool, perTool, default_) <= if configured > maxTool then configured else maxTool
    ensures 0 < asked && (asked <= maxTool || maxTool <= 0) ==>
              ResolveTimeout(asked, maxTool, perTool, default_) == asked
  {
  }
}
