/** What the store promises its callers: who is authorised, how soon a change of the file counts, and
    that a call which nobody disturbs is one of the runs of the interleaved protocol. */
module KeyStoreTheorems {
  import opened GoTypes
  import opened Entries
  import opened KeyFile
  import opened Reload
  import opened ReloadSafety
  import opened ReloadTheorems
  import opened KeyStore
  import Token

  // ----- authorisation, end to end

  predicate Allows(setup: Setup, snap: Snapshot, token: string, now: int, tool: string) {
    ToolFilter(InfoOf(Decide(setup, snap, token, now)), tool)
  }

  /** The token is well formed and the file, loaded with these answers, holds an entry with its digest
      whose name and hash are claimed once, that was valid at load, has not expired, and lists the tool. */
  ghost predicate FileGrants(setup: Setup, ask: Answers, v: FileVersion, token: string, now: int, tool: string) {
    && Token.IsWellFormed(setup.prefix, token)
    && v.body.Content? && RawKeys(setup, v.body.data).Some?
    && exists k :: Survives(setup.rules, ask, multiset(RawKeys(setup, v.body.data).value), k)
                && HexDecode(k.sha256) == setup.sha256(token)
                && now < Expiry(setup.rules, k.expires).value
                && tool in k.tools
  }

  lemma KeyGrants(setup: Setup, ask: Answers, keys: seq<RawKey>, k: RawKey, tool: string)
    requires "" !in setup.rules.tools && "*" !in setup.rules.tools
    requires Survives(setup.rules, ask, multiset(keys), k)
    ensures tool in Build(setup.rules, k).tools <==> tool in k.tools
    ensures tool in k.tools ==> tool != "" && tool != "*"
  {
    DistinctKeepsMembers(k.tools);
  }

  /** Verifier and tool filter together allow a tool exactly when the loaded file grants it. */
  lemma GrantedExactly(setup: Setup, ask: Answers, v: FileVersion, token: string, now: int, tool: string)
    requires "" !in setup.rules.tools && "*" !in setup.rules.tools
    ensures Allows(setup, CleanLoad(setup, ask, v).snap, token, now, tool) <==>
            FileGrants(setup, ask, v, token, now, tool)
  {
    CleanLoadKeys(setup, ask, v);
    if v.body.Content? && RawKeys(setup, v.body.data).Some? {
      var keys := RawKeys(setup, v.body.data).value;
      var m := Loaded(setup.rules, ask, keys);
      LoadedExactly(setup.rules, ask, keys);
      var d := setup.sha256(token);
      if Allows(setup, CleanLoad(setup, ask, v).snap, token, now, tool) {
        var e := m[d];
        assert e.digest in m && m[e.digest] == e;
        var k :| Survives(setup.rules, ask, multiset(keys), k) && e == Build(setup.rules, k);
        KeyGrants(setup, ask, keys, k, tool);
      }
      if FileGrants(setup, ask, v, token, now, tool) {
        var k :| Survives(setup.rules, ask, multiset(keys), k) && HexDecode(k.sha256) == d
              && now < Expiry(setup.rules, k.expires).value && tool in k.tools;
        var e := Build(setup.rules, k);
        assert e.digest in m && m[e.digest] == e;
        KeyGrants(setup, ask, keys, k, tool);
      }
    }
  }

  /** The entry of the file for a token: the only claim to its name and hash, valid at load, and with the
      rendered hash of the token. */
  ghost predicate IsEntryFor(setup: Setup, ask: Answers, v: FileVersion, token: string, k: RawKey) {
    && v.body.Content? && RawKeys(setup, v.body.data).Some?
    && Survives(setup.rules, ask, multiset(RawKeys(setup, v.body.data).value), k)
    && k.sha256 == Hex(setup.sha256(token))
  }

  lemma EntryIsLoaded(setup: Setup, ask: Answers, v: FileVersion, token: string, k: RawKey)
    requires IsEntryFor(setup, ask, v, token, k)
    ensures var keys := CleanLoad(setup, ask, v).snap.keys;
            setup.sha256(token) in keys && keys[setup.sha256(token)] == Build(setup.rules, k)
  {
    var raw := RawKeys(setup, v.body.data).value;
    CleanLoadKeys(setup, ask, v);
    LoadedExactly(setup.rules, ask, raw);
    HexExactly(k.sha256, setup.sha256(token));
    var e := Build(setup.rules, k);
    var m := Loaded(setup.rules, ask, raw);
    assert e.digest in m && m[e.digest] == e;
  }

  lemma LoadedHasEntry(setup: Setup, ask: Answers, v: FileVersion, token: string) returns (k: RawKey)
    requires setup.sha256(token) in CleanLoad(setup, ask, v).snap.keys
    ensures IsEntryFor(setup, ask, v, token, k)
  {
    CleanLoadKeys(setup, ask, v);
    var raw := RawKeys(setup, v.body.data).value;
    LoadedExactly(setup.rules, ask, raw);
    var m := Loaded(setup.rules, ask, raw);
    var e := m[setup.sha256(token)];
    assert e.digest in m && m[e.digest] == e;
    k :| Survives(setup.rules, ask, multiset(raw), k) && e == Build(setup.rules, k);
    HexExactly(k.sha256, setup.sha256(token));
  }

  /** Every decision in terms of the token and the file: malformed is a matter of the token alone, unknown
      means that it has no entry, and an entry's end decides between expired and accepted. */
  lemma DecidedExactly(setup: Setup, ask: Answers, v: FileVersion, token: string, now: int)
    ensures var d := Decide(setup, CleanLoad(setup, ask, v).snap, token, now);
            var wf := Token.IsWellFormed(setup.prefix, token);
            && (d.Malformed? <==> !wf)
            && (d.Unknown? <==> wf && forall k :: !IsEntryFor(setup, ask, v, token, k))
            && (d.Expired? <==> wf && exists k :: IsEntryFor(setup, ask, v, token, k)
                                                && Expiry(setup.rules, k.expires).value <= now)
            && (d.Accepted? <==> wf && exists k :: IsEntryFor(setup, ask, v, token, k)
                                                 && now < Expiry(setup.rules, k.expires).value)
  {
    forall k | IsEntryFor(setup, ask, v, token, k)
      ensures var keys := CleanLoad(setup, ask, v).snap.keys;
              setup.sha256(token) in keys && keys[setup.sha256(token)] == Build(setup.rules, k)
    {
      EntryIsLoaded(setup, ask, v, token, k);
    }
    if setup.sha256(token) in CleanLoad(setup, ask, v).snap.keys {
      var k := LoadedHasEntry(setup, ask, v, token);
      assert IsEntryFor(setup, ask, v, token, k);
    }
  }

  /** Authorisation by the rendered hash: a well-formed token may use a tool if and only if the file has an
      entry with its hash in lower-case hexadecimal that has not ended and lists the tool. */
  lemma GrantedByHash(setup: Setup, ask: Answers, v: FileVersion, token: string, now: int, tool: string)
    requires "" !in setup.rules.tools && "*" !in setup.rules.tools
    ensures Allows(setup, CleanLoad(setup, ask, v).snap, token, now, tool) <==>
            Token.IsWellFormed(setup.prefix, token) &&
            exists k :: IsEntryFor(setup, ask, v, token, k)
                     && now < Expiry(setup.rules, k.expires).value && tool in k.tools
  {
    GrantedExactly(setup, ask, v, token, now, tool);
    if v.body.Content? && RawKeys(setup, v.body.data).Some? {
      forall k | Survives(setup.rules, ask, multiset(RawKeys(setup, v.body.data).value), k)
        ensures HexDecode(k.sha256) == setup.sha256(token) <==> k.sha256 == Hex(setup.sha256(token))
      {
        HexExactly(k.sha256, setup.sha256(token));
      }
    }
  }

  /** The name, the attributes and, each once, the tools of an entry, and a lifetime that ends within the hour
      and no later than the key. */
  ghost predicate Identifies(rules: Rules, k: RawKey, now: int, info: TokenInfo) {
    && info.userID == k.name
    && info.attrs.Keys == k.attrs.Keys && (forall a :: a in k.attrs ==> k.attrs[a] == Text(info.attrs[a]))
    && NoRepeats(info.tools) && (forall t :: t in info.tools <==> t in k.tools)
    && Expiry(rules, k.expires).Some?
    && now < info.expiration <= now + 3_600_000_000_000
    && info.expiration <= Expiry(rules, k.expires).value
    && info.expiration in {now + 3_600_000_000_000, Expiry(rules, k.expires).value}
  }

  lemma EntryIdentifies(rules: Rules, k: RawKey, now: int)
    requires HashOk(k.sha256) && Expiry(rules, k.expires).Some? && AttrsOk(k.attrs)
    requires now < Expiry(rules, k.expires).value
    ensures var e := Build(rules, k);
            Identifies(rules, k, now, TokenInfo(e.name, MinTime(e.expires, now + MAX_TOKEN_TTL), e.tools, e.attrs))
  {
    DistinctKeepsMembers(k.tools);
  }

  /** An accepted token stands for one surviving entry of the file. */
  lemma AcceptedIdentity(setup: Setup, ask: Answers, v: FileVersion, token: string, now: int)
    requires Decide(setup, CleanLoad(setup, ask, v).snap, token, now).Accepted?
    ensures v.body.Content? && RawKeys(setup, v.body.data).Some?
    ensures exists k :: Survives(setup.rules, ask, multiset(RawKeys(setup, v.body.data).value), k)
                     && HexDecode(k.sha256) == setup.sha256(token)
                     && Identifies(setup.rules, k, now, Decide(setup, CleanLoad(setup, ask, v).snap, token, now).info)
  {
    CleanLoadKeys(setup, ask, v);
    var keys := RawKeys(setup, v.body.data).value;
    LoadedExactly(setup.rules, ask, keys);
    var e := Loaded(setup.rules, ask, keys)[setup.sha256(token)];
    assert e.digest in Loaded(setup.rules, ask, keys) && Loaded(setup.rules, ask, keys)[e.digest] == e;
    var k :| Survives(setup.rules, ask, multiset(keys), k) && e == Build(setup.rules, k);
    EntryIdentifies(setup.rules, k, now);
  }

  /** One set of load-time answers explains every decision by the content of that file version. */
  ghost predicate Explains(setup: Setup, snap: Snapshot, ask: Answers, v: FileVersion) {
    forall token, now, tool ::
      Allows(setup, snap, token, now, tool) <==> FileGrants(setup, ask, v, token, now, tool)
  }

  /** In every reachable state of the protocol whose snapshot carries the signature of the file on disk,
      all decisions are those the file on disk asks for. */
  lemma AuthorisedByFileOnDisk(setup: Setup, s: State)
    requires Reachable(setup, s) && s.snap.sig == Current(s).sig
    requires "" !in setup.rules.tools && "*" !in setup.rules.tools
    ensures exists ask :: Explains(setup, s.snap, ask, Current(s))
  {
    ReachableInv(setup, s);
    var ask := AgreeingAnswers(setup, s);
    forall token, now, tool
      ensures Allows(setup, s.snap, token, now, tool) <==> FileGrants(setup, ask, Current(s), token, now, tool)
    {
      GrantedExactly(setup, ask, Current(s), token, now, tool);
    }
    assert Explains(setup, s.snap, ask, Current(s));
  }

  /** The file version a result speaks of: the bytes that were read, under the signature that stat saw. */
  lemma ResultIsOfAVersion(setup: Setup, file: seq<FileVersion>, o: Outcome, ask: Answers, span: Span)
    returns (v: FileVersion)
    requires FileOk(file) && ResultOk(setup, file, o, ask, span) && !o.failed
    ensures o.snap.keys == CleanLoad(setup, ask, v).snap.keys && !CleanLoad(setup, ask, v).failed
    ensures v.sig == o.snap.sig
    ensures span.from == span.to ==> v == file[span.to]
  {
    if span.from == span.to {
      v := file[span.to];
      assert VersionOk(v);
      CleanLoadKeys(setup, ask, v);
    } else if o.snap.sig.missing {
      v := NOTHING;
    } else {
      assert ReadFrom(setup, ask, o);
      var data :| o == Parsed(setup, ask, o.snap.sig, data);
      v := FileVersion(o.snap.sig, Content(data));
    }
  }

  const NOTHING := FileVersion(MISSING, Absent)

  lemma SameKeysSameDecisions(setup: Setup, a: Snapshot, b: Snapshot, token: string, now: int, tool: string)
    requires a.keys == b.keys
    ensures Allows(setup, a, token, now, tool) == Allows(setup, b, token, now, tool)
  {
  }

  lemma ExplainedBy(setup: Setup, snap: Snapshot, ask: Answers, v: FileVersion)
    requires "" !in setup.rules.tools && "*" !in setup.rules.tools
    requires snap.keys == CleanLoad(setup, ask, v).snap.keys
    ensures Explains(setup, snap, ask, v)
  {
    forall token, now, tool
      ensures Allows(setup, snap, token, now, tool) <==> FileGrants(setup, ask, v, token, now, tool)
    {
      SameKeysSameDecisions(setup, snap, CleanLoad(setup, ask, v).snap, token, now, tool);
      GrantedExactly(setup, ask, v, token, now, tool);
    }
  }

  /** In every reachable state, whatever has become of the file: all decisions are those one version asks for
      that loads. It carries the snapshot's signature unless everything is denied, and if the file did not
      change during the load it is that version of the file. */
  lemma AuthorisedByWhatWasRead(setup: Setup, s: State) returns (ask: Answers, v: FileVersion)
    requires Reachable(setup, s)
    requires "" !in setup.rules.tools && "*" !in setup.rules.tools
    ensures Explains(setup, s.snap, ask, v)
    ensures s.snap.ok ==> v.sig == s.snap.sig
    ensures s.snap.ok ==>
              && |s.log| > 0 && s.log[|s.log| - 1].Finished?
              && var span := s.log[|s.log| - 1].span;
                 span.from <= span.to < |s.file| && (span.from == span.to ==> v == s.file[span.to])
    ensures !s.snap.ok ==> v == NOTHING
  {
    ReachableInv(setup, s);
    var e := s.log[|s.log| - 1];
    ask, v := NO_ANSWERS, NOTHING;
    if s.snap.ok {
      assert e.Finished? && ResultOk(setup, s.file, e.o, e.ask, e.span);
      ask := e.ask;
      v := ResultIsOfAVersion(setup, s.file, e.o, ask, e.span);
    }
    ExplainedBy(setup, s.snap, ask, v);
  }

  // ----- calls one after another

  datatype Call = Visit(w: World) | Background(w: World)

  /** The shared state after some calls; a background retry runs only while it owns the flag. */
  ghost function Replay(setup: Setup, sh: Shared, calls: seq<Call>): Shared {
    if calls == [] then sh
    else
      var before := Replay(setup, sh, calls[..|calls| - 1]);
      match calls[|calls| - 1]
      case Visit(w) => AfterMaybeReload(setup, before, w)
      case Background(w) => if before.reloading then AfterRetry(setup, before, w) else before
  }

  /** The clock values at which the gate let a stat through. */
  ghost function Grants(setup: Setup, sh: Shared, calls: seq<Call>): seq<int> {
    if calls == [] then [sh.lastStatNS]
    else
      var front := calls[..|calls| - 1];
      match calls[|calls| - 1]
      case Visit(w) =>
        if Due(setup, Replay(setup, sh, front), w.now) then Grants(setup, sh, front) + [w.now]
        else Grants(setup, sh, front)
      case Background(_) => Grants(setup, sh, front)
  }

  /** Whatever the clock does, the gate remembers the last stat it let through, and lets the next one
      through no sooner than one interval later, or after a step backwards. */
  lemma {:induction false} GateRemembers(setup: Setup, sh: Shared, calls: seq<Call>)
    requires setup.statTTL > 0
    ensures var g := Grants(setup, sh, calls);
            && |g| > 0
            && Replay(setup, sh, calls).lastStatNS == g[|g| - 1]
            && forall i :: 0 < i < |g| ==> ElapsedDue(g[i], g[i - 1], setup.statTTL)
  {
    if calls != [] {
      GateRemembers(setup, sh, calls[..|calls| - 1]);
    }
  }

  predicate Calm(w: World) {
    !w.statFails && w.fault.NoFault? && w.parentOk && !w.warnPanics && !w.logPanics
  }

  /** The file, loaded with these answers, has a surviving entry for the token. */
  ghost predicate Lists(setup: Setup, ask: Answers, v: FileVersion, token: string) {
    && v.body.Content? && RawKeys(setup, v.body.data).Some?
    && exists k :: Survives(setup.rules, ask, multiset(RawKeys(setup, v.body.data).value), k)
                && HexDecode(k.sha256) == setup.sha256(token)
  }

  /** A token without an entry is refused by whatever an attempt on that file leaves. */
  lemma UnlistedIsRefused(setup: Setup, w: World, logPanics: bool, token: string, now: int)
    requires !Lists(setup, w.ask, w.file, token)
    ensures !Decide(setup, AfterFinish(Attempted(setup, w), logPanics), token, now).Accepted?
  {
    CleanLoadKeys(setup, w.ask, w.file);
    if w.file.body.Content? && RawKeys(setup, w.file.body.data).Some? {
      if setup.sha256(token) in Loaded(setup.rules, w.ask, RawKeys(setup, w.file.body.data).value) {
        LoadedIsListed(setup, w.ask, w.file, token);
      }
    }
  }

  lemma LoadedIsListed(setup: Setup, ask: Answers, v: FileVersion, token: string)
    requires v.body.Content? && RawKeys(setup, v.body.data).Some?
    requires setup.sha256(token) in Loaded(setup.rules, ask, RawKeys(setup, v.body.data).value)
    ensures Lists(setup, ask, v, token)
  {
    var keys := RawKeys(setup, v.body.data).value;
    LoadedExactly(setup.rules, ask, keys);
    var m := Loaded(setup.rules, ask, keys);
    var e := m[setup.sha256(token)];
    assert e.digest in m && m[e.digest] == e;
    var k :| Survives(setup.rules, ask, multiset(keys), k) && e == Build(setup.rules, k);
    assert HexDecode(k.sha256) == setup.sha256(token);
  }

  /** After any calls at any clock values: once the file has changed, the first call that comes at least
      one interval after the last stat, or at any clock value before it, decides by the new file if that
      loads; otherwise the flag is handed on and the retry decides, by the file as it is then. */
  lemma BoundedRevocation(setup: Setup, sh: Shared, calls: seq<Call>, w: World, retry: World)
    requires 0 < setup.statTTL && Int64(setup.statTTL)
    requires var before := Replay(setup, sh, calls);
             !before.reloading && before.snap.sig != w.file.sig
    requires var g := Grants(setup, sh, calls);
             |g| > 0 && Int64(w.now - g[|g| - 1])
             && (w.now - g[|g| - 1] >= setup.statTTL || w.now < g[|g| - 1])
    requires Calm(w)
    ensures var before := Replay(setup, sh, calls);
            var after := AfterMaybeReload(setup, before, w);
            var o := CleanLoad(setup, w.ask, w.file);
            if !o.failed then after.snap == o.snap && !after.reloading
            else && after.snap == before.snap && after.reloading
                 && AfterRetry(setup, after, retry).snap == AfterFinish(Attempted(setup, retry), retry.logPanics)
                 && forall token, now :: !Lists(setup, retry.ask, retry.file, token) ==>
                      !Decide(setup, AfterRetry(setup, after, retry).snap, token, now).Accepted?
  {
    GateRemembers(setup, sh, calls);
    CleanLoadKeys(setup, w.ask, w.file);
    RetryRefuses(setup, AfterMaybeReload(setup, Replay(setup, sh, calls), w), retry);
  }

  lemma RetryRefuses(setup: Setup, after: Shared, retry: World)
    ensures AfterRetry(setup, after, retry).snap == AfterFinish(Attempted(setup, retry), retry.logPanics)
    ensures forall token, now :: !Lists(setup, retry.ask, retry.file, token) ==>
              !Decide(setup, AfterRetry(setup, after, retry).snap, token, now).Accepted?
  {
    forall token, now | !Lists(setup, retry.ask, retry.file, token)
      ensures !Decide(setup, AfterRetry(setup, after, retry).snap, token, now).Accepted?
    {
      UnlistedIsRefused(setup, retry, retry.logPanics, token, now);
    }
  }

  /** However the world misbehaves during a call that sees the changed file: a token without an entry in the
      new file is refused from then on, at every clock value, unless a retry is under way; and it is refused
      once that is over. */
  lemma OldKeysNeedARetry(setup: Setup, before: Shared, w: World, retry: World, token: string, now: int)
    requires Due(setup, before, w.now) && !before.reloading && before.snap.sig != w.file.sig
    requires SnapshotOk(before.snap)
    requires !Lists(setup, w.ask, w.file, token) && !Lists(setup, retry.ask, retry.file, token)
    ensures var after := AfterMaybeReload(setup, before, w);
            if after.reloading then !Decide(setup, AfterRetry(setup, after, retry).snap, token, now).Accepted?
            else !Decide(setup, after.snap, token, now).Accepted?
    ensures var after := AfterMaybeReload(setup, before, w);
            before.snap.ok ==> after.reloading || after.snap == DENY_ALL || after.snap == Attempted(setup, w).snap
  {
    UnlistedIsRefused(setup, w, w.logPanics, token, now);
    UnlistedIsRefused(setup, retry, retry.logPanics, token, now);
  }

  predicate VisitsOnly(calls: seq<Call>) {
    forall i :: 0 <= i < |calls| ==> calls[i].Visit?
  }

  /** While a retry is pending, requests only ever see the old snapshot or deny-all; the retry's
      outcome then replaces it. */
  lemma {:induction false} RetryDecides(setup: Setup, sh: Shared, visits: seq<Call>, retry: World)
    requires sh.reloading && VisitsOnly(visits)
    ensures var before := Replay(setup, sh, visits);
            && before.reloading && before.reloads == sh.reloads
            && (before.snap == sh.snap || before.snap == DENY_ALL)
    ensures Replay(setup, sh, visits + [Background(retry)]).snap ==
            AfterFinish(Attempted(setup, retry), retry.logPanics)
    ensures !Replay(setup, sh, visits + [Background(retry)]).reloading
  {
    assert (visits + [Background(retry)])[..|visits|] == visits;
    if visits != [] {
      RetryDecides(setup, sh, visits[..|visits| - 1], retry);
    }
  }

  // ----- an undisturbed call is a run of the protocol

  function SharedOf(s: State): Shared {
    Shared(s.snap, s.reloading, s.lastStatNS, s.reloads)
  }

  /** `s` with thread `t` at `pc`. */
  function Placed(s: State, t: Tid, pc: Pc): State {
    s.(threads := Goto(s.threads, t, pc))
  }

  predicate Matches(s: State, w: World) {
    |s.file| > 0 && Current(s) == w.file && s.parentOk == w.parentOk
  }

  /** `acts` are steps of thread `t` alone and lead from `s0` to `s1`. */
  ghost predicate RunsTo(setup: Setup, s0: State, t: Tid, acts: seq<Action>, s1: State) {
    && |s0.file| > 0 && Run(setup, s0, acts) == Some(s1)
    && forall i :: 0 <= i < |acts| ==> acts[i].Step? && acts[i].t == t
  }

  lemma LastStep(setup: Setup, s0: State, t: Tid, acts: seq<Action>, mid: State, c: Choice, s1: State)
    requires RunsTo(setup, s0, t, acts, mid) && |mid.file| > 0 && Next(setup, mid, Step(t, c)) == Some(s1)
    ensures RunsTo(setup, s0, t, acts + [Step(t, c)], s1)
  {
    var all := acts + [Step(t, c)];
    assert all[..|all| - 1] == acts && all[|all| - 1] == Step(t, c);
  }

  /** Where `t` stands when it takes a step does not depend on the other threads. */
  lemma PlacedStep(setup: Setup, s: State, t: Tid, pc: Pc, c: Choice, m: Move)
    requires |s.file| > 0 && !pc.Idle? && ThreadMove(setup, s, pc, c) == Some(m) && !m.effect.Fork?
    ensures Next(setup, Placed(s, t, pc), Step(t, c)) == Some(Apply(Placed(s, t, pc), t, m))
    ensures m.effect.Quiet? ==> Apply(Placed(s, t, pc), t, m) == Placed(s, t, m.pc)
  {
    assert At(Placed(s, t, pc), t) == pc;
    assert Goto(Goto(s.threads, t, pc), t, m.pc) == Goto(s.threads, t, m.pc);
  }

  /** One more step of `t`, from `pc`, extends a run. */
  lemma Extend(setup: Setup, s0: State, acts: seq<Action>, s: State, t: Tid, pc: Pc, c: Choice, m: Move)
    requires |s.file| > 0 && RunsTo(setup, s0, t, acts, Placed(s, t, pc))
    requires !pc.Idle? && ThreadMove(setup, s, pc, c) == Some(m) && !m.effect.Fork?
    ensures RunsTo(setup, s0, t, acts + [Step(t, c)], Apply(Placed(s, t, pc), t, m))
    ensures m.effect.Quiet? ==> RunsTo(setup, s0, t, acts + [Step(t, c)], Placed(s, t, m.pc))
  {
    PlacedStep(setup, s, t, pc, c, m);
    LastStep(setup, s0, t, acts, Placed(s, t, pc), c, Apply(Placed(s, t, pc), t, m));
  }

  /** From the start of an attempt to its result. */
  lemma AttemptRuns(setup: Setup, s0: State, acts: seq<Action>, s: State, t: Tid, pc: Pc, w: World)
    returns (all: seq<Action>, ask: Answers, span: Span)
    requires Matches(s, w) && VersionOk(w.file)
    requires pc.Cycle? && pc.job == Trying(Stat)
    requires RunsTo(setup, s0, t, acts, Placed(s, t, pc))
    ensures RunsTo(setup, s0, t, all, Placed(s, t, pc.(job := Trying(Returned(Attempted(setup, w), ask, span)))))
  {
    var n := |s.file| - 1;
    var sig := w.file.sig;
    if w.fault.StatFault? || w.file.body.Absent? {
      ask, span := NO_ANSWERS, Span(n, n);
      var c := if w.fault.StatFault? then Fail else Go;
      all := acts + [Step(t, c)];
      Extend(setup, s0, acts, s, t, pc, c,
             Move(Effect.Quiet, pc.(job := Trying(Returned(Attempted(setup, w), ask, span)))));
      return;
    }
    var opening := pc.(job := Trying(Open(sig, n)));
    Extend(setup, s0, acts, s, t, pc, Go, Move(Effect.Quiet, opening));
    all := acts + [Step(t, Go)];
    if w.fault.ReadFault? || w.file.body.Refused? {
      ask, span := NO_ANSWERS, Span(n, n);
      var c := if w.fault.ReadFault? then Fail else Go;
      Extend(setup, s0, all, s, t, opening, c,
             Move(Effect.Quiet, pc.(job := Trying(Returned(Attempted(setup, w), ask, span)))));
      all := all + [Step(t, c)];
      return;
    }
    all, ask, span := ContentRuns(setup, s0, all, s, t, opening, w);
  }

  lemma ContentRuns(setup: Setup, s0: State, acts: seq<Action>, s: State, t: Tid, pc: Pc, w: World)
    returns (all: seq<Action>, ask: Answers, span: Span)
    requires Matches(s, w) && w.file.body.Content? && w.fault.NoFault?
    requires pc.Cycle? && pc.job == Trying(Open(w.file.sig, |s.file| - 1))
    requires RunsTo(setup, s0, t, acts, Placed(s, t, pc))
    ensures RunsTo(setup, s0, t, all, Placed(s, t, pc.(job := Trying(Returned(Attempted(setup, w), ask, span)))))
  {
    var n, sig, data := |s.file| - 1, w.file.sig, w.file.body.data;
    span := Span(n, n);
    var checking := pc.(job := Trying(CheckParent(sig, span, data)));
    Extend(setup, s0, acts, s, t, pc, Go, Move(Effect.Quiet, checking));
    all := acts + [Step(t, Go)];
    if !w.parentOk || |data| > MAX_FILE_SIZE {
      ask := NO_ANSWERS;
      Extend(setup, s0, all, s, t, checking, Go,
             Move(Effect.Quiet, pc.(job := Trying(Returned(Attempted(setup, w), ask, span)))));
      all := all + [Step(t, Go)];
      return;
    }
    ask := w.ask;
    var reading := pc.(job := Trying(ReadAll(sig, span, data)));
    Extend(setup, s0, all, s, t, checking, Go, Move(Effect.Quiet, reading));
    all := all + [Step(t, Go)];
    var parsing := pc.(job := Trying(ParseData(sig, span, data)));
    Extend(setup, s0, all, s, t, reading, Bytes(data), Move(Effect.Quiet, parsing));
    all := all + [Step(t, Bytes(data))];
    Extend(setup, s0, all, s, t, parsing, Ask(ask),
           Move(Effect.Quiet, pc.(job := Trying(Returned(Attempted(setup, w), ask, span)))));
    all := all + [Step(t, Ask(ask))];
  }

  /** Steps of `t` that end in the shared state `sh`, nothing else having changed. */
  ghost predicate Ends(setup: Setup, s0: State, t: Tid, acts: seq<Action>, s: State, sh: Shared) {
    exists end :: RunsTo(setup, s0, t, acts, end)
               && SharedOf(end) == sh && end.threads == s.threads
               && end.file == s.file && end.parentOk == s.parentOk
  }

  lemma SameThreads(s: State, t: Tid)
    requires t !in s.threads
    ensures Goto(s.threads, t, Idle) == s.threads
    ensures forall pc: Pc :: Goto(Goto(s.threads, t, pc), t, Idle) == s.threads
  {
  }

  /** Storing `snap` (and perhaps announcing it), then releasing the flag. */
  lemma StoreRuns(setup: Setup, s0: State, acts: seq<Action>, s: State, t: Tid, pc: Pc, logPanics: bool)
    returns (all: seq<Action>)
    requires |s.file| > 0 && t !in s.threads
    requires pc.Cycle? && (if pc.job.Install? then !pc.job.o.failed else pc.job.Report? && pc.job.o.failed)
    requires RunsTo(setup, s0, t, acts, Placed(s, t, pc))
    ensures Ends(setup, s0, t, all, s, SharedOf(s).(snap := AfterFinish(pc.job.o, logPanics), reloading := false))
  {
    var o, ask, span := pc.job.o, pc.job.ask, pc.job.span;
    all := acts;
    var here, pc' := s, pc;
    if pc.job.Install? {
      var m := Move(Put(Installed(o), Reload.Finished(o, ask, span)), pc.(job := Announce));
      Extend(setup, s0, all, s, t, pc, Go, m);
      all := all + [Step(t, Go)];
      pc' := m.pc;
      here := s.(snap := Installed(o), log := s.log + [Reload.Finished(o, ask, span)]);
      assert Apply(Placed(s, t, pc), t, m) == Placed(here, t, pc') by {
        assert Goto(Goto(s.threads, t, pc), t, pc') == Goto(s.threads, t, pc');
      }
    }
    if logPanics {
      Extend(setup, s0, all, here, t, pc', Panic, Move(Effect.Quiet, pc'.(job := Recover)));
      all := all + [Step(t, Panic)];
      all := RecoverRuns(setup, s0, all, here, t, pc'.(job := Recover));
    } else if pc.job.Install? {
      Extend(setup, s0, all, here, t, pc', Go, Move(Effect.Quiet, pc'.(job := Release)));
      all := all + [Step(t, Go)];
      all := ReleaseRuns(setup, s0, all, here, t, pc'.(job := Release));
    } else {
      var next := pc.(job := Install(o, ask, span));
      Extend(setup, s0, all, s, t, pc, Go, Move(Effect.Quiet, next));
      all := all + [Step(t, Go)];
      all := FailedInstallRuns(setup, s0, all, s, t, next);
    }
  }

  lemma FailedInstallRuns(setup: Setup, s0: State, acts: seq<Action>, s: State, t: Tid, pc: Pc)
    returns (all: seq<Action>)
    requires |s.file| > 0 && t !in s.threads
    requires pc.Cycle? && pc.job.Install? && pc.job.o.failed
    requires RunsTo(setup, s0, t, acts, Placed(s, t, pc))
    ensures Ends(setup, s0, t, all, s, SharedOf(s).(snap := Installed(pc.job.o), reloading := false))
  {
    var e := Reload.Finished(pc.job.o, pc.job.ask, pc.job.span);
    var m := Move(Put(Installed(pc.job.o), e), pc.(job := Release));
    Extend(setup, s0, acts, s, t, pc, Go, m);
    var stored := s.(snap := Installed(pc.job.o), log := s.log + [e]);
    assert Apply(Placed(s, t, pc), t, m) == Placed(stored, t, m.pc) by {
      assert Goto(Goto(s.threads, t, pc), t, m.pc) == Goto(s.threads, t, m.pc);
    }
    all := ReleaseRuns(setup, s0, acts + [Step(t, Go)], stored, t, m.pc);
  }

  lemma RecoverRuns(setup: Setup, s0: State, acts: seq<Action>, s: State, t: Tid, pc: Pc)
    returns (all: seq<Action>)
    requires |s.file| > 0 && t !in s.threads
    requires pc.Cycle? && pc.job == Recover
    requires RunsTo(setup, s0, t, acts, Placed(s, t, pc))
    ensures Ends(setup, s0, t, all, s, SharedOf(s).(snap := DENY_ALL, reloading := false))
  {
    var m := Move(Put(DENY_ALL, Recovered), pc.(job := Release));
    Extend(setup, s0, acts, s, t, pc, Go, m);
    var stored := s.(snap := DENY_ALL, log := s.log + [Recovered]);
    assert Apply(Placed(s, t, pc), t, m) == Placed(stored, t, m.pc) by {
      assert Goto(Goto(s.threads, t, pc), t, m.pc) == Goto(s.threads, t, m.pc);
    }
    all := ReleaseRuns(setup, s0, acts + [Step(t, Go)], stored, t, m.pc);
  }

  lemma ReleaseRuns(setup: Setup, s0: State, acts: seq<Action>, s: State, t: Tid, pc: Pc)
    returns (all: seq<Action>)
    requires |s.file| > 0 && t !in s.threads
    requires pc.Cycle? && pc.job == Release
    requires RunsTo(setup, s0, t, acts, Placed(s, t, pc))
    ensures Ends(setup, s0, t, all, s, SharedOf(s).(reloading := false))
  {
    all := acts + [Step(t, Go)];
    Extend(setup, s0, acts, s, t, pc, Go, Move(Free, Idle));
    SameThreads(s, t);
  }

  /** The whole first cycle of a request, from the moment it has taken the flag. */
  lemma CycleRuns(setup: Setup, s0: State, acts: seq<Action>, s: State, t: Tid, w: World)
    returns (all: seq<Action>)
    requires Matches(s, w) && VersionOk(w.file) && t !in s.threads
    requires RunsTo(setup, s0, t, acts, Placed(s, t, Cycle(Serving, false, Trying(Stat))))
    requires !Attempted(setup, w).failed || w.warnPanics
    ensures Ends(setup, s0, t, all, s,
                 SharedOf(s).(reloading := false,
                              snap := if Attempted(setup, w).failed then DENY_ALL
                                      else AfterFinish(Attempted(setup, w), w.logPanics)))
  {
    var ask, span;
    all, ask, span := AttemptRuns(setup, s0, acts, s, t, Cycle(Serving, false, Trying(Stat)), w);
    var o := Attempted(setup, w);
    var back := Cycle(Serving, false, Trying(Returned(o, ask, span)));
    if !o.failed {
      var next := Cycle(Serving, false, Install(o, ask, span));
      Extend(setup, s0, all, s, t, back, Go, Move(Effect.Quiet, next));
      all := StoreRuns(setup, s0, all + [Step(t, Go)], s, t, next, w.logPanics);
    } else {
      var warn := Cycle(Serving, false, Warn);
      Extend(setup, s0, all, s, t, back, Go, Move(Effect.Quiet, warn));
      all := all + [Step(t, Go)];
      var next := Cycle(Serving, false, Recover);
      Extend(setup, s0, all, s, t, warn, Panic, Move(Effect.Quiet, next));
      all := RecoverRuns(setup, s0, all + [Step(t, Panic)], s, t, next);
    }
  }

  /** Or the hand-over, when the first attempt fails and says so. */
  lemma HandOverRuns(setup: Setup, s0: State, acts: seq<Action>, s: State, t: Tid, w: World, child: Tid)
    returns (all: seq<Action>)
    requires Matches(s, w) && VersionOk(w.file) && t !in s.threads && child !in s.threads && child != t
    requires RunsTo(setup, s0, t, acts, Placed(s, t, Cycle(Serving, false, Trying(Stat))))
    requires Attempted(setup, w).failed && !w.warnPanics
    ensures RunsTo(setup, s0, t, all, Placed(s, child, Cycle(Retrying, false, Asleep)))
  {
    var ask, span;
    all, ask, span := AttemptRuns(setup, s0, acts, s, t, Cycle(Serving, false, Trying(Stat)), w);
    var back := Cycle(Serving, false, Trying(Returned(Attempted(setup, w), ask, span)));
    var warn, handing := Cycle(Serving, false, Warn), Cycle(Serving, false, HandOff);
    Extend(setup, s0, all, s, t, back, Go, Move(Effect.Quiet, warn));
    Extend(setup, s0, all + [Step(t, Go)], s, t, warn, Go, Move(Effect.Quiet, handing));
    all := all + [Step(t, Go)] + [Step(t, Go)];
    var before, after := Placed(s, t, handing), Placed(s, child, Cycle(Retrying, false, Asleep));
    assert At(before, t) == handing;
    assert before.threads - {t} == s.threads;
    LastStep(setup, s0, t, all, before, Spawn(child), after);
    all := all + [Step(t, Spawn(child))];
  }

  /** A step of `t` out of idleness. */
  lemma Enter(setup: Setup, s: State, t: Tid)
    requires |s.file| > 0 && t !in s.threads
    ensures RunsTo(setup, s, t, [Step(t, Go)], Placed(s, t, if setup.statTTL <= 0 then FirstStat else GateClock))
  {
    assert Run(setup, s, []) == Some(s);
    LastStep(setup, s, t, [], s, Go, Placed(s, t, if setup.statTTL <= 0 then FirstStat else GateClock));
    assert [] + [Step(t, Go)] == [Step(t, Go)];
  }

  /** The gate when it lets the request through. */
  lemma GateRuns(setup: Setup, s: State, t: Tid, now: int) returns (all: seq<Action>)
    requires |s.file| > 0 && t !in s.threads && Due(setup, SharedOf(s), now)
    ensures var passed := if setup.statTTL <= 0 then s else s.(lastStatNS := now);
            RunsTo(setup, s, t, all, Placed(passed, t, FirstStat))
  {
    Enter(setup, s, t);
    all := [Step(t, Go)];
    if setup.statTTL > 0 {
      Extend(setup, s, all, s, t, GateClock, Clock(now), Move(Effect.Quiet, GateLast(now)));
      all := all + [Step(t, Clock(now))];
      Extend(setup, s, all, s, t, GateLast(now), Go, Move(Effect.Quiet, GateCas(now, s.lastStatNS)));
      all := all + [Step(t, Go)];
      Extend(setup, s, all, s, t, GateCas(now, s.lastStatNS), Go, Move(Gate(now), FirstStat));
      all := all + [Step(t, Go)];
      assert Goto(Goto(s.threads, t, GateCas(now, s.lastStatNS)), t, FirstStat) == Goto(s.threads, t, FirstStat);
    }
  }

  /** Back to idle without touching anything else. */
  lemma LeaveRuns(setup: Setup, s0: State, acts: seq<Action>, s: State, t: Tid, pc: Pc, c: Choice)
    requires |s.file| > 0 && t !in s.threads && !pc.Idle?
    requires RunsTo(setup, s0, t, acts, Placed(s, t, pc))
    requires ThreadMove(setup, s, pc, c) == Some(Move(Effect.Quiet, Idle))
    ensures Ends(setup, s0, t, acts + [Step(t, c)], s, SharedOf(s))
  {
    Extend(setup, s0, acts, s, t, pc, c, Move(Effect.Quiet, Idle));
    SameThreads(s, t);
  }

  lemma ClosedGateRuns(setup: Setup, s: State, t: Tid, now: int) returns (all: seq<Action>)
    requires |s.file| > 0 && t !in s.threads && !Due(setup, SharedOf(s), now)
    ensures Ends(setup, s, t, all, s, SharedOf(s))
  {
    Enter(setup, s, t);
    Extend(setup, s, [Step(t, Go)], s, t, GateClock, Clock(now), Move(Effect.Quiet, GateLast(now)));
    LeaveRuns(setup, s, [Step(t, Go)] + [Step(t, Clock(now))], s, t, GateLast(now), Go);
    all := [Step(t, Go)] + [Step(t, Clock(now))] + [Step(t, Go)];
  }

  lemma StatFailureRuns(setup: Setup, s0: State, acts: seq<Action>, s: State, t: Tid) returns (all: seq<Action>)
    requires |s.file| > 0 && t !in s.threads
    requires RunsTo(setup, s0, t, acts, Placed(s, t, FirstStat))
    ensures Ends(setup, s0, t, all, s,
                 SharedOf(s).(snap := if s.snap.ok || s.snap.sig != ZERO then DENY_ALL else s.snap))
  {
    Extend(setup, s0, acts, s, t, FirstStat, Fail, Move(Effect.Quiet, StatFailedLoad));
    all := acts + [Step(t, Fail)];
    if s.snap.ok || s.snap.sig != ZERO {
      Extend(setup, s0, all, s, t, StatFailedLoad, Go, Move(Effect.Quiet, StatFailedStore));
      all := all + [Step(t, Go)];
      Extend(setup, s0, all, s, t, StatFailedStore, Go, Move(Put(DENY_ALL, StatFailed), Idle));
      all := all + [Step(t, Go)];
      SameThreads(s, t);
    } else {
      LeaveRuns(setup, s0, all, s, t, StatFailedLoad, Go);
      all := all + [Step(t, Go)];
    }
  }

  predicate HandsOff(before: Shared, after: Shared) {
    !before.reloading && after.reloading
  }

  /** maybeReload, executed without interruption, is a run of the interleaved protocol: the thread's own
      steps lead to exactly the shared state the sequential description gives, and leave behind at most
      the sleeping retry. */
  lemma CallIsARun(setup: Setup, s: State, t: Tid, w: World, child: Tid) returns (acts: seq<Action>)
    requires Matches(s, w) && VersionOk(w.file) && t !in s.threads && child !in s.threads && child != t
    ensures var sh := AfterMaybeReload(setup, SharedOf(s), w);
            if HandsOff(SharedOf(s), sh)
            then exists end :: RunsTo(setup, s, t, acts, end) && SharedOf(end) == sh
                            && end.threads == Goto(s.threads, child, Cycle(Retrying, false, Asleep))
                            && end.file == s.file && end.parentOk == s.parentOk
            else Ends(setup, s, t, acts, s, sh)
  {
    if !Due(setup, SharedOf(s), w.now) {
      acts := ClosedGateRuns(setup, s, t, w.now);
      return;
    }
    acts := GateRuns(setup, s, t, w.now);
    var g := if setup.statTTL <= 0 then s else s.(lastStatNS := w.now);
    if w.statFails {
      acts := StatFailureRuns(setup, s, acts, g, t);
      return;
    }
    Extend(setup, s, acts, g, t, FirstStat, Go, Move(Effect.Quiet, Compare(w.file.sig)));
    acts := acts + [Step(t, Go)];
    if w.file.sig == s.snap.sig {
      LeaveRuns(setup, s, acts, g, t, Compare(w.file.sig), Go);
      acts := acts + [Step(t, Go)];
      return;
    }
    Extend(setup, s, acts, g, t, Compare(w.file.sig), Go, Move(Effect.Quiet, Acquire));
    acts := acts + [Step(t, Go)];
    if s.reloading {
      LeaveRuns(setup, s, acts, g, t, Acquire, Go);
      acts := acts + [Step(t, Go)];
      return;
    }
    acts := TakeRuns(setup, s, acts, g, t, w, child);
  }

  lemma TakeRuns(setup: Setup, s0: State, acts: seq<Action>, s: State, t: Tid, w: World, child: Tid)
    returns (all: seq<Action>)
    requires Matches(s, w) && VersionOk(w.file) && t !in s.threads && child !in s.threads && child != t
    requires RunsTo(setup, s0, t, acts, Placed(s, t, Acquire)) && !s.reloading
    ensures var sh := AfterCycle(setup, SharedOf(s), w);
            if sh.reloading
            then exists end :: RunsTo(setup, s0, t, all, end) && SharedOf(end) == sh
                            && end.threads == Goto(s.threads, child, Cycle(Retrying, false, Asleep))
                            && end.file == s.file && end.parentOk == s.parentOk
            else Ends(setup, s0, t, all, s, sh)
  {
    var first := Cycle(Serving, false, Trying(Stat));
    Extend(setup, s0, acts, s, t, Acquire, Go, Move(Take, first));
    var taken := s.(reloading := true, reloads := s.reloads + 1);
    assert Apply(Placed(s, t, Acquire), t, Move(Take, first)) == Placed(taken, t, first) by {
      assert Goto(Goto(s.threads, t, Acquire), t, first) == Goto(s.threads, t, first);
    }
    if Attempted(setup, w).failed && !w.warnPanics {
      all := HandOverRuns(setup, s0, acts + [Step(t, Go)], taken, t, w, child);
      assert SharedOf(Placed(taken, child, Cycle(Retrying, false, Asleep))) == AfterCycle(setup, SharedOf(s), w);
    } else {
      all := CycleRuns(setup, s0, acts + [Step(t, Go)], taken, t, w);
    }
  }

  /** So is the background retry, from the moment it sleeps. */
  lemma RetryIsARun(setup: Setup, s: State, t: Tid, w: World) returns (acts: seq<Action>)
    requires Matches(s, w) && VersionOk(w.file) && t !in s.threads && s.reloading
    ensures Ends(setup, Placed(s, t, Cycle(Retrying, false, Asleep)), t, acts, s, AfterRetry(setup, SharedOf(s), w))
  {
    var s0 := Placed(s, t, Cycle(Retrying, false, Asleep));
    assert Run(setup, s0, []) == Some(s0);
    var trying := Cycle(Retrying, true, Trying(Stat));
    Extend(setup, s0, [], s, t, Cycle(Retrying, false, Asleep), Go, Move(Effect.Quiet, trying));
    var ask, span;
    acts, ask, span := AttemptRuns(setup, s0, [] + [Step(t, Go)], s, t, trying, w);
    var o := Attempted(setup, w);
    var next := trying.(job := AfterAttempt(true, o, ask, span));
    Extend(setup, s0, acts, s, t, trying.(job := Trying(Returned(o, ask, span))), Go, Move(Effect.Quiet, next));
    acts := StoreRuns(setup, s0, acts + [Step(t, Go)], s, t, next, w.logPanics);
  }
}
