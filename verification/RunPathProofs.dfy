/** What every interleaving of run requests keeps. */
module RunPathProofs {
  import opened Optional
  import opened Flags
  import opened RunPath

  // ---- invariant -------------------------------------------------------------------------------

  /** A slot of the in-flight map: one process's entry for one key. */
  function Slot(process: nat, n: Normalized): (nat, Key) { (process, CacheKey(n)) }

  /** The map holds exactly the calls some leader has started and not yet forgotten. */
  ghost predicate MapIsLeaders(s: State) {
    && (forall slot :: slot in s.inFlight ==>
          && s.inFlight[slot] < |s.calls|
          && var c := s.calls[s.inFlight[slot]];
             && Slot(c.process, c.request) == slot
             && c.leader < |s.requests| && s.requests[c.leader].phase == Leading(s.inFlight[slot]))
    && (forall r :: 0 <= r < |s.requests| && s.requests[r].phase.Leading? ==>
          && s.requests[r].phase.run < |s.calls| && s.calls[s.requests[r].phase.run].leader == r
          && var slot := Slot(s.requests[r].process, s.requests[r].normalized);
             slot in s.inFlight && s.inFlight[slot] == s.requests[r].phase.run)
  }

  /** A call belongs to the request that leads it, and is outstanding only while it does. */
  ghost predicate CallsAreLed(s: State) {
    forall n :: 0 <= n < |s.calls| ==>
      && s.calls[n].leader < |s.requests|
      && s.calls[n].process == s.requests[s.calls[n].leader].process
      && s.calls[n].request == s.requests[s.calls[n].leader].normalized
      && (s.calls[n].result.None? ==> s.requests[s.calls[n].leader].phase == Leading(n))
  }

  /** A body without what differs from one response to another: how long it took and whether it was cached. */
  function Core(b: Body): Body {
    if b.meta.None? then b else b.(meta := Some(b.meta.value.(durationMs := None, cacheHit := None)))
  }

  /** A call for this key has ended with this status, and the body is that call's with the request's own drops
      put in. */
  ghost predicate FromCall(s: State, key: Key, n: nat, own: seq<string>, status: nat, body: Body) {
    && n < |s.calls| && CacheKey(s.calls[n].request) == key && s.calls[n].result.Some?
    && s.calls[n].result.value.status == status
    && Core(body) == Core(WithDroppedFlags(s.calls[n].result.value.body, own))
  }

  predicate DropsReported(droppedFlags: seq<string>, body: Body) {
    body.meta.Some? ==> body.meta.value.droppedFlags == if droppedFlags == [] then None else Some(droppedFlags)
  }

  /** An answered request got a real call's result. */
  ghost predicate AnswerIsReal(s: State, q: Request) {
    q.phase.Answered? && q.phase.response.Sent? ==>
      exists n: nat :: FromCall(s, CacheKey(q.normalized), n, q.normalized.droppedFlags,
                                q.phase.response.status, q.phase.response.body)
  }

  ghost predicate RequestOk(config: Config, s: State, q: Request) {
    && q.normalized == Normalize(config, q.normalized.engine, q.normalized.sourceText, q.rawFlags, q.normalized.timeoutMs)
    && (q.phase.Following? ==> q.phase.run < |s.calls| && Slot(s.calls[q.phase.run].process, s.calls[q.phase.run].request) == Slot(q.process, q.normalized))
    && (q.phase.Storing? ==>
          && Settled(s, q.phase.run) && s.calls[q.phase.run].result.value.cache != Uncached
          && CacheKey(s.calls[q.phase.run].request) == CacheKey(q.normalized))
    && AnswerIsReal(s, q)
  }

  /** The cache class fixes the status, and a success says that it is fresh. */
  ghost predicate ResultOk(result: RunResult) {
    && (result.cache == Positive ==> result.status == 200)
    && (result.cache == Negative ==> result.status == 400 || result.status == 504)
    && (result.status == 200 ==> result.body.meta.Some? && result.body.meta.value.cacheHit == Some(false))
  }

  /** A cache entry is the result of a call for its key that was worth caching. */
  ghost predicate CachedFrom(s: State, key: Key, cached: Cached, n: nat) {
    && Settled(s, n) && CacheKey(s.calls[n].request) == key
    && var result := s.calls[n].result.value;
       result.status == cached.status && result.body == cached.body && result.cache != Uncached
  }

  ghost predicate CacheOk(s: State) {
    forall key :: key in s.cache ==> exists n: nat :: CachedFrom(s, key, s.cache[key], n)
  }

  ghost predicate Inv(config: Config, s: State) {
    && MapIsLeaders(s) && CallsAreLed(s) && CacheOk(s)
    && (forall r :: 0 <= r < |s.requests| ==> RequestOk(config, s, s.requests[r]))
    && (forall n :: 0 <= n < |s.calls| && s.calls[n].result.Some? ==> ResultOk(s.calls[n].result.value))
  }

  // ---- steps -----------------------------------------------------------------------------------

  /** Calls only gain results, so what was true of a settled call stays true. */
  ghost predicate Grows(s: State, t: State) {
    && |s.calls| <= |t.calls|
    && forall n :: 0 <= n < |s.calls| ==>
         && t.calls[n].request == s.calls[n].request && t.calls[n].process == s.calls[n].process
         && (s.calls[n].result.Some? ==> t.calls[n] == s.calls[n])
  }

  lemma GrowthKeepsRequest(config: Config, s: State, t: State, q: Request)
    requires RequestOk(config, s, q) && Grows(s, t)
    ensures RequestOk(config, t, q)
  {
    hide Normalize, Core, CacheKey;
    if q.phase.Answered? && q.phase.response.Sent? {
      var own, sent := q.normalized.droppedFlags, q.phase.response;
      var n: nat :| FromCall(s, CacheKey(q.normalized), n, own, sent.status, sent.body);
      assert FromCall(t, CacheKey(q.normalized), n, own, sent.status, sent.body);
    }
  }

  lemma GrowthKeepsCache(s: State, t: State)
    requires CacheOk(s) && Grows(s, t) && t.cache == s.cache
    ensures CacheOk(t)
  {
    hide Core, CacheKey;
    forall key | key in t.cache
      ensures exists n: nat :: CachedFrom(t, key, t.cache[key], n)
    {
      var n: nat :| CachedFrom(s, key, s.cache[key], n);
      assert CachedFrom(t, key, t.cache[key], n);
    }
  }

  lemma ExecuteRunOk(n: Normalized, upstream: Upstream, elapsedMs: nat)
    ensures ResultOk(ExecuteRun(n.engine, upstream, elapsedMs))
  {
  }

  /** Bodies alike but for duration and cache flag stay so when the same drops are put in. */
  lemma WithDroppedKeepsCore(a: Body, b: Body, own: seq<string>)
    requires Core(a) == Core(b)
    ensures Core(WithDroppedFlags(a, own)) == Core(WithDroppedFlags(b, own))
  {
  }

  lemma ReplayKeepsCore(cached: Cached, elapsedMs: nat)
    ensures Core(Replay(cached, elapsedMs)) == Core(cached.body)
  {
  }

  /** Answering a request from a settled call of its key. */
  lemma AnswerOk(config: Config, s: State, r: nat, n: nat, status: nat, body: Body)
    requires r < |s.requests| && RequestOk(config, s, s.requests[r])
    requires Settled(s, n) && CacheKey(s.calls[n].request) == CacheKey(s.requests[r].normalized)
    requires s.calls[n].result.value.status == status && Core(body) == Core(s.calls[n].result.value.body)
    ensures RequestOk(config, s, Answer(s, r, status, body).requests[r])
  {
    hide Normalize, Core, CacheKey, WithDroppedFlags;
    var q := s.requests[r];
    WithDroppedKeepsCore(body, s.calls[n].result.value.body, q.normalized.droppedFlags);
    var t := Answer(s, r, status, body).requests[r];
    assert FromCall(s, CacheKey(t.normalized), n, t.normalized.droppedFlags, t.phase.response.status, t.phase.response.body);
  }

  /** A request that is not leading changes phase and nothing else happens. */
  lemma PhaseKeeps(config: Config, s: State, r: nat, phase: Phase)
    requires Inv(config, s) && r < |s.requests| && !s.requests[r].phase.Leading? && !phase.Leading?
    requires RequestOk(config, s, s.requests[r].(phase := phase))
    ensures Inv(config, SetPhase(s, r, phase))
  {
    hide Normalize, Core, CacheKey, ResultOk;
    var t := SetPhase(s, r, phase);
    forall i | 0 <= i < |t.requests| ensures RequestOk(config, t, t.requests[i]) {
      if i == r {
        GrowthKeepsRequest(config, s, t, s.requests[r].(phase := phase));
      } else {
        GrowthKeepsRequest(config, s, t, s.requests[i]);
      }
    }
    GrowthKeepsCache(s, t);
  }

  lemma LookupKeeps(config: Config, s: State, r: nat, elapsedMs: nat)
    requires Inv(config, s) && r < |s.requests| && s.requests[r].phase.Reading?
    ensures Inv(config, OnLookup(config, s, r, elapsedMs))
  {
    hide Normalize, Core, CacheKey, WithDroppedFlags, Replay, MapIsLeaders, CallsAreLed;
    var q := s.requests[r];
    var key := CacheKey(q.normalized);
    if !config.isDev && key in s.cache {
      var n: nat :| CachedFrom(s, key, s.cache[key], n);
      ReplayKeepsCore(s.cache[key], elapsedMs);
      AnswerOk(config, s, r, n, s.cache[key].status, Replay(s.cache[key], elapsedMs));
      PhaseKeeps(config, s, r, Answer(s, r, s.cache[key].status, Replay(s.cache[key], elapsedMs)).requests[r].phase);
    } else {
      PhaseKeeps(config, s, r, Spending);
    }
  }

  lemma FollowKeeps(config: Config, s: State, r: nat)
    requires Inv(config, s) && r < |s.requests| && s.requests[r].phase.Spending?
    requires Slot(s.requests[r].process, s.requests[r].normalized) in s.inFlight
    ensures Inv(config, OnProceed(s, r))
  {
    hide Normalize, Core, CacheKey;
    PhaseKeeps(config, s, r, Following(s.inFlight[Slot(s.requests[r].process, s.requests[r].normalized)]));
  }

  lemma LeadKeeps(config: Config, s: State, r: nat)
    requires Inv(config, s) && r < |s.requests| && s.requests[r].phase.Spending?
    requires Slot(s.requests[r].process, s.requests[r].normalized) !in s.inFlight
    ensures Inv(config, OnProceed(s, r))
  {
    hide Normalize, Core, CacheKey, ResultOk, CacheOk;
    var t := OnProceed(s, r);
    forall i | 0 <= i < |t.requests| ensures RequestOk(config, t, t.requests[i]) {
      GrowthKeepsRequest(config, s, t, s.requests[i]);
    }
    GrowthKeepsCache(s, t);
  }

  lemma SettleKeeps(config: Config, s: State, n: nat, upstream: Upstream, elapsedMs: nat)
    requires Inv(config, s)
    requires n < |s.calls| && s.calls[n].result.None?
    ensures Inv(config, Step(config, s, Settle(n, upstream, elapsedMs)))
  {
    hide Core, CacheKey, ResultOk, CacheOk, ExecuteRun, Normalize;
    var t := Step(config, s, Settle(n, upstream, elapsedMs));
    ExecuteRunOk(s.calls[n].request, upstream, elapsedMs);
    forall i | 0 <= i < |t.requests| ensures RequestOk(config, t, t.requests[i]) {
      GrowthKeepsRequest(config, s, t, s.requests[i]);
    }
    GrowthKeepsCache(s, t);
  }

  lemma ForgetKeepsMap(s: State, r: nat, phase: Phase)
    requires MapIsLeaders(s) && r < |s.requests| && s.requests[r].phase.Leading? && !phase.Leading?
    ensures MapIsLeaders(SetPhase(s, r, phase).(inFlight := s.inFlight - {Slot(s.requests[r].process, s.requests[r].normalized)}))
  {
    hide CacheKey;
    var slot := Slot(s.requests[r].process, s.requests[r].normalized);
    var t := SetPhase(s, r, phase).(inFlight := s.inFlight - {slot});
    forall i | 0 <= i < |t.requests| && t.requests[i].phase.Leading?
      ensures Slot(t.requests[i].process, t.requests[i].normalized) != slot
    {
      assert s.calls[s.requests[i].phase.run].leader == i && s.calls[s.requests[r].phase.run].leader == r;
    }
  }

  lemma ResumeLeaderKeeps(config: Config, s: State, r: nat)
    requires Inv(config, s) && r < |s.requests| && s.requests[r].phase.Leading? && Settled(s, s.requests[r].phase.run)
    ensures Inv(config, OnResumeLeader(config, s, r))
  {
    hide Normalize, Core, CacheKey, WithDroppedFlags, CacheOk;
    var q := s.requests[r];
    var n := q.phase.run;
    var result := s.calls[n].result.value;
    var t := OnResumeLeader(config, s, r);
    assert s.calls[n].request == q.normalized;
    AnswerOk(config, s, r, n, result.status, result.body);
    ForgetKeepsMap(s, r, t.requests[r].phase);
    assert t == SetPhase(s, r, t.requests[r].phase).(inFlight := s.inFlight - {Slot(q.process, q.normalized)});
    forall i | 0 <= i < |t.requests| ensures RequestOk(config, t, t.requests[i]) {
      if i == r {
        assert RequestOk(config, s, t.requests[r]);
        GrowthKeepsRequest(config, s, t, t.requests[r]);
      } else {
        GrowthKeepsRequest(config, s, t, s.requests[i]);
      }
    }
    GrowthKeepsCache(s, t);
  }

  lemma ResumeFollowerKeeps(config: Config, s: State, r: nat)
    requires Inv(config, s) && r < |s.requests| && s.requests[r].phase.Following? && Settled(s, s.requests[r].phase.run)
    ensures Inv(config, Step(config, s, ResumeFollower(r)))
  {
    hide Normalize, Core, CacheKey, WithDroppedFlags, MapIsLeaders, CallsAreLed, CacheOk;
    var n := s.requests[r].phase.run;
    var result := s.calls[n].result.value;
    AnswerOk(config, s, r, n, result.status, result.body);
    PhaseKeeps(config, s, r, Answer(s, r, result.status, result.body).requests[r].phase);
  }

  lemma StoreKeeps(config: Config, s: State, r: nat, written: bool)
    requires Inv(config, s) && r < |s.requests| && s.requests[r].phase.Storing? && Settled(s, s.requests[r].phase.run)
    ensures Inv(config, OnStore(s, r, written))
  {
    hide Normalize, Core, CacheKey, WithDroppedFlags, MapIsLeaders, CallsAreLed, CacheOk;
    var n := s.requests[r].phase.run;
    var result := s.calls[n].result.value;
    AnswerOk(config, s, r, n, result.status, result.body);
    var t := Answer(s, r, result.status, result.body);
    PhaseKeeps(config, s, r, t.requests[r].phase);
    if written {
      var key := CacheKey(s.requests[r].normalized);
      CacheWriteKeeps(config, t, key, n);
      assert OnStore(s, r, written) == t.(cache := t.cache[key := Cached(result.status, result.body)]);
    }
  }

  lemma CacheWriteKeeps(config: Config, s: State, key: Key, n: nat)
    requires Inv(config, s) && Settled(s, n) && CacheKey(s.calls[n].request) == key && s.calls[n].result.value.cache != Uncached
    ensures var result := s.calls[n].result.value;
            Inv(config, s.(cache := s.cache[key := Cached(result.status, result.body)]))
  {
    hide Normalize, Core, CacheKey;
    var result := s.calls[n].result.value;
    var t := s.(cache := s.cache[key := Cached(result.status, result.body)]);
    forall i | 0 <= i < |t.requests| ensures RequestOk(config, t, t.requests[i]) {
      GrowthKeepsRequest(config, s, t, s.requests[i]);
    }
    forall k | k in t.cache
      ensures exists m: nat :: CachedFrom(t, k, t.cache[k], m)
    {
      if k == key {
        assert CachedFrom(t, k, t.cache[k], n);
      } else {
        var m: nat :| CachedFrom(s, k, s.cache[k], m);
        assert CachedFrom(t, k, t.cache[k], m);
      }
    }
  }

  lemma ArriveKeeps(config: Config, s: State, q: Request)
    requires Inv(config, s) && q.phase.Reading?
    requires q.normalized == Normalize(config, q.normalized.engine, q.normalized.sourceText, q.rawFlags, q.normalized.timeoutMs)
    ensures Inv(config, s.(requests := s.requests + [q]))
  {
    hide Normalize, Core, CacheKey, ResultOk;
    var t := s.(requests := s.requests + [q]);
    forall i | 0 <= i < |t.requests| ensures RequestOk(config, t, t.requests[i]) {
      if i < |s.requests| { GrowthKeepsRequest(config, s, t, s.requests[i]); }
    }
    GrowthKeepsCache(s, t);
  }

  lemma EvictKeeps(config: Config, s: State, key: Key)
    requires Inv(config, s)
    ensures Inv(config, s.(cache := s.cache - {key}))
  {
    hide Normalize, Core, CacheKey, ResultOk;
    var t := s.(cache := s.cache - {key});
    forall i | 0 <= i < |t.requests| ensures RequestOk(config, t, t.requests[i]) {
      GrowthKeepsRequest(config, s, t, s.requests[i]);
    }
    forall k | k in t.cache ensures exists n: nat :: CachedFrom(t, k, t.cache[k], n) {
      var n: nat :| CachedFrom(s, k, s.cache[k], n);
      assert CachedFrom(t, k, t.cache[k], n);
    }
  }

  lemma StepKeeps(config: Config, s: State, e: Event)
    requires Inv(config, s)
    ensures Inv(config, Step(config, s, e))
  {
    hide Inv, Normalize, OnLookup, OnProceed, OnResumeLeader, OnStore;
    match e
    case Arrive(p, engine, sourceText, rawFlags, timeoutMs) =>
      NormalizeFields(config, engine, sourceText, rawFlags, timeoutMs);
      ArriveKeeps(config, s, Request(p, rawFlags, Normalize(config, engine, sourceText, rawFlags, timeoutMs), Reading));
    case Deny(r, status) =>
      if r < |s.requests| && (s.requests[r].phase.Reading? || s.requests[r].phase.Spending?) { DenyKeeps(config, s, r, status); }
    case Lookup(r, elapsedMs) =>
      if r < |s.requests| && s.requests[r].phase.Reading? { LookupKeeps(config, s, r, elapsedMs); }
    case Proceed(r) =>
      if r < |s.requests| && s.requests[r].phase.Spending? {
        if Slot(s.requests[r].process, s.requests[r].normalized) in s.inFlight { FollowKeeps(config, s, r); } else { LeadKeeps(config, s, r); }
      }
    case Settle(n, upstream, elapsedMs) =>
      if n < |s.calls| && s.calls[n].result.None? {
        SettleKeeps(config, s, n, upstream, elapsedMs);
      }
    case ResumeLeader(r) =>
      if r < |s.requests| && s.requests[r].phase.Leading? && Settled(s, s.requests[r].phase.run) { ResumeLeaderKeeps(config, s, r); }
    case ResumeFollower(r) =>
      if r < |s.requests| && s.requests[r].phase.Following? && Settled(s, s.requests[r].phase.run) { ResumeFollowerKeeps(config, s, r); }
    case Store(r, written) =>
      if r < |s.requests| && s.requests[r].phase.Storing? && Settled(s, s.requests[r].phase.run) { StoreKeeps(config, s, r, written); }
    case Evict(key) => EvictKeeps(config, s, key);
  }

  lemma NormalizeFields(config: Config, engine: Engine, sourceText: string, rawFlags: seq<RawFlag>, timeoutMs: nat)
    ensures var n := Normalize(config, engine, sourceText, rawFlags, timeoutMs);
            n == Normalize(config, n.engine, n.sourceText, rawFlags, n.timeoutMs)
  {
  }

  lemma DenyKeeps(config: Config, s: State, r: nat, status: nat)
    requires Inv(config, s) && r < |s.requests| && (s.requests[r].phase.Reading? || s.requests[r].phase.Spending?)
    ensures Inv(config, SetPhase(s, r, Answered(Refused(status))))
  {
    hide Normalize, MapIsLeaders, CallsAreLed, CacheOk, CacheKey, ResultOk;
    PhaseKeeps(config, s, r, Answered(Refused(status)));
  }

  lemma {:induction false} RunKeeps(config: Config, es: seq<Event>)
    ensures Inv(config, Exec(config, es))
  {
    hide Step;
    if es != [] {
      RunKeeps(config, es[..|es| - 1]);
      StepKeeps(config, Exec(config, es[..|es| - 1]), es[|es| - 1]);
    }
  }

  // ---- every interleaving ----------------------------------------------------------------------

  /** In each process, at most one engine call per key is outstanding, and the in-flight map points to it. */
  lemma OneCallPerKey(config: Config, es: seq<Event>)
    ensures var s := Exec(config, es);
            forall m :: 0 <= m < |s.calls| && s.calls[m].result.None? ==>
              && Slot(s.calls[m].process, s.calls[m].request) in s.inFlight
              && s.inFlight[Slot(s.calls[m].process, s.calls[m].request)] == m
  {
    hide Exec, Step, CacheKey;
    RunKeeps(config, es);
  }

  /** The map has an entry exactly while one request leads a call for it. */
  lemma InFlightIffLed(config: Config, es: seq<Event>, process: nat, key: Key)
    ensures var s := Exec(config, es);
            (process, key) in s.inFlight <==>
              exists r :: 0 <= r < |s.requests| && s.requests[r].phase.Leading?
                          && s.requests[r].process == process && CacheKey(s.requests[r].normalized) == key
    ensures var s := Exec(config, es);
            forall r, q | 0 <= r < |s.requests| && 0 <= q < |s.requests| && s.requests[r].phase.Leading? && s.requests[q].phase.Leading? ::
              Slot(s.requests[r].process, s.requests[r].normalized) == Slot(s.requests[q].process, s.requests[q].normalized) ==> r == q
  {
    hide Exec, Step, CacheKey, CacheOk, RequestOk, ResultOk;
    RunKeeps(config, es);
    var s := Exec(config, es);
    if (process, key) in s.inFlight {
      var c := s.calls[s.inFlight[(process, key)]];
      assert Slot(c.process, c.request) == (process, key);
      assert s.requests[c.leader].phase.Leading?;
    }
  }

  // ---- what an engine's reply earns --------------------------------------------------------------

  /** A success as the gateway passes it on: the payload's own content, and `meta` with the request's engine. */
  ghost predicate Succeeds(engine: Engine, payload: Body, elapsedMs: nat, body: Body) {
    && body.ok && body.content == payload.content && body.meta.Some?
    && var meta := body.meta.value;
       && meta.engine == Some(engine) && meta.cacheHit == Some(false) && meta.durationMs == Some(elapsedMs)
       && meta.droppedFlags == (if payload.meta.Some? then payload.meta.value.droppedFlags else None)
       && meta.rest == (if payload.meta.Some? then payload.meta.value.rest else map[])
  }

  ghost predicate Earned(r: RunResult, status: nat, cache: CacheClass, body: Body) {
    r.status == status && r.cache == cache && r.body == body
  }

  /** The gateway's own words for a call that came to nothing; never cached. */
  ghost predicate Failed(r: RunResult, status: nat) {
    r.status == status && r.cache == Uncached && !r.body.ok && r.body.meta.None?
  }

  /** What each kind of reply earns: an engine's time-out is a gateway time-out, a bad request stays one, both
      remembered briefly; everything else that fails is a bad gateway or a busy one, and is not. */
  ghost predicate Earns(engine: Engine, upstream: Upstream, elapsedMs: nat, r: RunResult) {
    match upstream
    case Unreachable(message) => Failed(r, 502) && r.body.content == message
    case Replied(status, retryAfter, None) =>
      if status == 429 then Failed(r, 429) && r.retryAfter == retryAfter else Failed(r, 502)
    case Replied(status, retryAfter, Some(payload)) =>
      && (status == 429 ==> Earned(r, 429, Uncached, payload) && r.retryAfter == retryAfter)
      && (status >= 500 ==> Failed(r, 502))
      && (status < 500 && status != 429 && payload.ok ==>
            r.status == 200 && r.cache == Positive && Succeeds(engine, payload, elapsedMs, r.body))
      && (!payload.ok && status == 408 ==> Earned(r, 504, Negative, payload))
      && (!payload.ok && status == 400 ==> Earned(r, 400, Negative, payload))
      && (!payload.ok && status < 500 && status !in {400, 408, 429} ==> Earned(r, 502, Uncached, payload))
  }

  lemma RepliesEarn(engine: Engine, upstream: Upstream, elapsedMs: nat)
    ensures Earns(engine, upstream, elapsedMs, ExecuteRun(engine, upstream, elapsedMs))
  {
  }

  /** A step gives a result to no call but the one it settles, and to that one what the reply earns. */
  lemma StepSettles(config: Config, s: State, e: Event)
    ensures Grows(s, Step(config, s, e))
    ensures forall n :: 0 <= n < |s.calls| && s.calls[n].result.None? && Step(config, s, e).calls[n].result.Some? ==>
              && e.Settle? && e.call == n
              && Step(config, s, e).calls[n].result == Some(ExecuteRun(s.calls[n].request.engine, e.upstream, e.elapsedMs))
    ensures forall n :: |s.calls| <= n < |Step(config, s, e).calls| ==> Step(config, s, e).calls[n].result.None?
  {
    hide Normalize, CacheKey, WithDroppedFlags, ExecuteRun, Replay;
  }

  /** An engine is called only once the heavy budget is spent, and that is only asked of a request that missed. */
  lemma CallsOnlyAfterBudget(config: Config, s: State, e: Event)
    ensures |Step(config, s, e).calls| > |s.calls| ==>
              e.Proceed? && e.request < |s.requests| && s.requests[e.request].phase.Spending?
    ensures forall r :: 0 <= r < |s.requests| && !s.requests[r].phase.Spending? && Step(config, s, e).requests[r].phase.Spending? ==>
              && e.Lookup? && e.request == r && s.requests[r].phase.Reading?
              && (config.isDev || CacheKey(s.requests[r].normalized) !in s.cache)
  {
    hide Normalize, CacheKey, WithDroppedFlags, ExecuteRun, Replay;
  }

  /** Every settled call got one reply of its engine, and its result is what that reply earns. */
  lemma {:induction false} SettledByReply(config: Config, es: seq<Event>, n: nat) returns (k: nat)
    requires Settled(Exec(config, es), n)
    ensures k < |es| && es[k].Settle? && es[k].call == n
    ensures var c := Exec(config, es).calls[n]; Earns(c.request.engine, es[k].upstream, es[k].elapsedMs, c.result.value)
  {
    hide Step, Earns, ExecuteRun;
    var before, e := es[..|es| - 1], es[|es| - 1];
    var s := Exec(config, before);
    StepSettles(config, s, e);
    if Settled(s, n) {
      k := SettledByReply(config, before, n);
    } else {
      k := |es| - 1;
      RepliesEarn(s.calls[n].request.engine, e.upstream, e.elapsedMs);
    }
  }

  /** A body as it is sent: with the request's own drops, when it has some, in place of the engine's; nothing else
      changes but how long it took and whether it was cached. */
  ghost predicate Delivers(body: Body, own: seq<string>, sent: Body) {
    && sent.ok == body.ok && sent.content == body.content && sent.meta.Some? == body.meta.Some?
    && (body.meta.Some? ==>
          && sent.meta.value.engine == body.meta.value.engine && sent.meta.value.rest == body.meta.value.rest
          && sent.meta.value.droppedFlags == if own != [] then Some(own) else body.meta.value.droppedFlags)
  }

  lemma CoreDelivers(body: Body, own: seq<string>, sent: Body)
    requires Core(sent) == Core(WithDroppedFlags(body, own))
    ensures Delivers(body, own, sent)
  {
    assert sent.ok == Core(sent).ok && sent.content == Core(sent).content;
    assert sent.meta.Some? == Core(sent).meta.Some?;
    assert sent.meta.Some? ==>
        && sent.meta.value.engine == Core(sent).meta.value.engine && sent.meta.value.rest == Core(sent).meta.value.rest
        && sent.meta.value.droppedFlags == Core(sent).meta.value.droppedFlags;
  }

  /** Every response sent, by a leader, a follower or the cache, is the result of an actual call with the
      same engine, source, flags and 100 ms timeout bucket, with that request's own dropped flags put in; and the
      call's result is what its engine's reply, event `k` of the run, earns. */
  lemma ResponsesAreRealRuns(config: Config, es: seq<Event>, r: nat) returns (n: nat, k: nat)
    requires r < |Exec(config, es).requests|
    requires Exec(config, es).requests[r].phase.Answered? && Exec(config, es).requests[r].phase.response.Sent?
    ensures var s := Exec(config, es); var q := s.requests[r]; var sent := q.phase.response;
            var own := Sanitized(CatalogOf(config, q.normalized.engine), q.rawFlags, config.maxFlags, true);
            && n < |s.calls| && s.calls[n].result.Some?
            && s.calls[n].request.engine == q.normalized.engine
            && s.calls[n].request.sourceText == q.normalized.sourceText
            && s.calls[n].request.flags == q.normalized.flags == own.flags
            && (s.calls[n].request.timeoutMs + 99) / 100 == (q.normalized.timeoutMs + 99) / 100
            && sent.status == s.calls[n].result.value.status
            && Core(sent.body) == Core(WithDroppedFlags(s.calls[n].result.value.body, own.dropped))
            && Delivers(s.calls[n].result.value.body, own.dropped, sent.body)
    ensures k < |es| && es[k].Settle? && es[k].call == n
    ensures var q := Exec(config, es).requests[r];
            Earns(q.normalized.engine, es[k].upstream, es[k].elapsedMs, Exec(config, es).calls[n].result.value)
  {
    hide Exec, Step, Core, WithDroppedFlags, MapIsLeaders, CallsAreLed, CacheOk, ResultOk, Sanitized, Earns, Delivers;
    RunKeeps(config, es);
    var s := Exec(config, es);
    var q := s.requests[r];
    assert RequestOk(config, s, q);
    n :| FromCall(s, CacheKey(q.normalized), n, q.normalized.droppedFlags, q.phase.response.status, q.phase.response.body);
    k := SettledByReply(config, es, n);
    CoreDelivers(s.calls[n].result.value.body, q.normalized.droppedFlags, q.phase.response.body);
  }

  // ---- hits and misses ---------------------------------------------------------------------------

  /** A success says that it was cached exactly when it is answered on lookup, and then how long that took. */
  lemma CacheHitIffLookup(config: Config, es: seq<Event>, e: Event, r: nat)
    requires r < |Exec(config, es).requests| && !Exec(config, es).requests[r].phase.Answered?
    requires var phase := Exec(config, es + [e]).requests[r].phase;
             phase.Answered? && phase.response.Sent? && phase.response.status == 200
    ensures var meta := Exec(config, es + [e]).requests[r].phase.response.body.meta;
            && meta.Some? && meta.value.cacheHit == Some(e.Lookup?)
            && (e.Lookup? ==> meta.value.durationMs == Some(e.elapsedMs))
  {
    hide Exec, Normalize, CacheKey, MapIsLeaders, CallsAreLed, RequestOk;
    ExecMore(config, es, e);
    RunKeeps(config, es);
    var s := Exec(config, es);
    if e.Lookup? {
      var key := CacheKey(s.requests[r].normalized);
      var n: nat :| CachedFrom(s, key, s.cache[key], n);
      assert ResultOk(s.calls[n].result.value);
    }
  }

  /** In production the leader of a cacheable result writes it before answering, and any other answers at once. */
  lemma LeaderStoresIffCacheable(config: Config, s: State, r: nat)
    requires r < |s.requests| && s.requests[r].phase.Leading? && Settled(s, s.requests[r].phase.run)
    ensures var n := s.requests[r].phase.run;
            var result, phase := s.calls[n].result.value, Step(config, s, ResumeLeader(r)).requests[r].phase;
            && (phase == Storing(n) <==> !config.isDev && result.cache != Uncached)
            && (phase != Storing(n) ==>
                  && phase.Answered? && phase.response.Sent? && phase.response.status == result.status
                  && Delivers(result.body, s.requests[r].normalized.droppedFlags, phase.response.body))
  {
    hide CacheKey;
  }

  /** Once a result is written, the next lookup of its key by any request is answered with it. */
  lemma WrittenIsServed(config: Config, s: State, r: nat, q: nat, elapsedMs: nat)
    requires Inv(config, s) && !config.isDev && r < |s.requests| && q < |s.requests|
    requires s.requests[r].phase.Storing? && s.requests[q].phase.Reading?
    requires CacheKey(s.requests[q].normalized) == CacheKey(s.requests[r].normalized)
    ensures var result := s.calls[s.requests[r].phase.run].result.value;
            var phase := Step(config, Step(config, s, Store(r, true)), Lookup(q, elapsedMs)).requests[q].phase;
            && phase.Answered? && phase.response.Sent? && phase.response.status == result.status
            && Delivers(result.body, s.requests[q].normalized.droppedFlags, phase.response.body)
  {
    hide CacheKey, Normalize, MapIsLeaders, CallsAreLed, CacheOk, Core, ResultOk;
    assert RequestOk(config, s, s.requests[r]);
    var t := Step(config, s, Store(r, true));
    assert t.requests[q] == s.requests[q];
  }

  /** In development nothing is ever cached. */
  lemma {:induction false} DevNeverCaches(config: Config, es: seq<Event>)
    requires config.isDev
    ensures Exec(config, es).cache == map[]
    ensures forall r :: 0 <= r < |Exec(config, es).requests| ==> !Exec(config, es).requests[r].phase.Storing?
  {
    hide CacheKey, Normalize, ExecuteRun, WithDroppedFlags;
    if es != [] { DevNeverCaches(config, es[..|es| - 1]); }
  }

  /** Only successes, client errors and engine timeouts are ever cached. */
  lemma CacheHoldsOnlyOutcomes(config: Config, es: seq<Event>, key: Key)
    requires key in Exec(config, es).cache
    ensures var status := Exec(config, es).cache[key].status; status == 200 || status == 400 || status == 504
  {
    hide Exec, Step, Core, MapIsLeaders, CallsAreLed, RequestOk;
    RunKeeps(config, es);
    var s := Exec(config, es);
    var n: nat :| CachedFrom(s, key, s.cache[key], n);
    assert ResultOk(s.calls[n].result.value);
  }

  // ---- whose drops are reported ----------------------------------------------------------------

  function EngineCap(config: Config, engine: Engine): nat {
    if engine in config.engineMaxFlags then config.engineMaxFlags[engine] else config.maxFlags
  }

  /** An engine drops flags the gateway sent it if and only if it takes some, but fewer than it was sent. */
  lemma EngineDropsIffNarrow(config: Config, engine: Engine, sourceText: string, rawFlags: seq<RawFlag>, timeoutMs: nat)
    ensures var n := Normalize(config, engine, sourceText, rawFlags, timeoutMs);
            EngineDrops(config, n) != [] <==> 0 < EngineCap(config, engine) < |n.flags|
  {
    hide Sanitized;
    var sort := if engine in config.engineSorts then config.engineSorts[engine] else true;
    LaterDropsIffNarrow(CatalogOf(config, engine), rawFlags, config.maxFlags, EngineCap(config, engine), sort);
  }

  /** Every reply in the run came from an engine that reports its own drops (`Honest`). */
  ghost predicate HonestReplies(config: Config, es: seq<Event>) {
    forall k :: 0 <= k < |es| ==> HonestReply(config, Exec(config, es[..k]), es[k])
  }

  ghost predicate HonestReply(config: Config, s: State, e: Event) {
    e.Settle? && e.call < |s.calls| ==> Honest(config, s.calls[e.call].request, e.upstream)
  }

  /** Every settled call carries its engine's drops. */
  ghost predicate CallsReport(config: Config, s: State) {
    forall n :: 0 <= n < |s.calls| && s.calls[n].result.Some? ==>
      DropsReported(EngineDrops(config, s.calls[n].request), s.calls[n].result.value.body)
  }

  lemma {:induction false} HonestCallsReport(config: Config, es: seq<Event>)
    requires HonestReplies(config, es)
    ensures CallsReport(config, Exec(config, es))
  {
    hide EngineDrops, Honest, Step;
    if es != [] {
      var before, e := es[..|es| - 1], es[|es| - 1];
      assert forall k :: 0 <= k < |before| ==> before[k] == es[k] && before[..k] == es[..k];
      HonestCallsReport(config, before);
      StepReports(config, Exec(config, before), e);
    }
  }

  lemma StepReports(config: Config, s: State, e: Event)
    requires CallsReport(config, s) && HonestReply(config, s, e)
    ensures CallsReport(config, Step(config, s, e))
  {
    hide EngineDrops, Normalize;
  }

  /** Behind honest engines, a response with `meta` reports exactly its request's own drops if and only if it has
      some, or its engine takes all the flags it was sent, or none at all. */
  lemma OwnDropsIffNotNarrow(config: Config, es: seq<Event>, r: nat)
    requires HonestReplies(config, es) && r < |Exec(config, es).requests|
    requires Exec(config, es).requests[r].phase.Answered? && Exec(config, es).requests[r].phase.response.Sent?
    requires Exec(config, es).requests[r].phase.response.body.meta.Some?
    ensures var q := Exec(config, es).requests[r];
            var own := Sanitized(CatalogOf(config, q.normalized.engine), q.rawFlags, config.maxFlags, true);
            DropsReported(own.dropped, q.phase.response.body)
            <==> own.dropped != [] || !(0 < EngineCap(config, q.normalized.engine) < |own.flags|)
  {
    hide Exec, Step, MapIsLeaders, CallsAreLed, CacheOk, ResultOk, Sanitized, EngineDrops, HonestReplies;
    var s := Exec(config, es);
    var q := s.requests[r];
    RunKeeps(config, es);
    assert RequestOk(config, s, q);
    var n, _ := ResponsesAreRealRuns(config, es, r);
    HonestCallsReport(config, es);
    SameFlagsSameDrops(config, s.calls[n].request, q.normalized);
    EngineDropsIffNarrow(config, q.normalized.engine, q.normalized.sourceText, q.rawFlags, q.normalized.timeoutMs);
  }

  lemma SameFlagsSameDrops(config: Config, a: Normalized, b: Normalized)
    requires a.engine == b.engine && a.flags == b.flags
    ensures EngineDrops(config, a) == EngineDrops(config, b)
  {
  }

  // ---- an engine narrower than the gateway -----------------------------------------------------

  /** One request, alone: it misses the cache, leads a call, and is answered. */
  function OneRun(engine: Engine, sourceText: string, rawFlags: seq<RawFlag>, timeoutMs: nat, upstream: Upstream): seq<Event> {
    [] + [Arrive(0, engine, sourceText, rawFlags, timeoutMs)] + [Lookup(0, 0)] + [Proceed(0)]
    + [Settle(0, upstream, 0)] + [ResumeLeader(0)] + [Store(0, false)]
  }

  lemma ExecMore(config: Config, es: seq<Event>, e: Event)
    ensures Exec(config, es + [e]) == Step(config, Exec(config, es), e)
  {
    assert (es + [e])[..|es|] == es;
  }

  /** The success an engine sends when it dropped these flags. */
  function Success(drops: seq<string>): Upstream {
    Replied(200, None, Some(Body(true, "", Some(Meta(None, None, None, if drops == [] then None else Some(drops), map[])))))
  }

  /** The one request leads its call. */
  function Led(n: Normalized, rawFlags: seq<RawFlag>): State {
    State([Request(0, rawFlags, n, Leading(0))], [Call(0, 0, n, None)], map[(0, CacheKey(n)) := 0], map[])
  }

  lemma LeadsAlone(config: Config, engine: Engine, sourceText: string, rawFlags: seq<RawFlag>, timeoutMs: nat)
    ensures var n := Normalize(config, engine, sourceText, rawFlags, timeoutMs);
            Exec(config, [] + [Arrive(0, engine, sourceText, rawFlags, timeoutMs)] + [Lookup(0, 0)] + [Proceed(0)]) == Led(n, rawFlags)
  {
    hide Sanitized;
    var e1 := [] + [Arrive(0, engine, sourceText, rawFlags, timeoutMs)];
    ExecMore(config, [], Arrive(0, engine, sourceText, rawFlags, timeoutMs));
    ExecMore(config, e1, Lookup(0, 0));
    ExecMore(config, e1 + [Lookup(0, 0)], Proceed(0));
  }

  /** Once its call settles the one request is answered, through the cache or not. */
  lemma AnsweredAlone(config: Config, n: Normalized, rawFlags: seq<RawFlag>, upstream: Upstream)
    ensures var result := ExecuteRun(n.engine, upstream, 0);
            Step(config, Step(config, Step(config, Led(n, rawFlags), Settle(0, upstream, 0)), ResumeLeader(0)), Store(0, false)).requests
            == [Request(0, rawFlags, n, Answered(Sent(result.status, WithDroppedFlags(result.body, n.droppedFlags))))]
  {
    hide ExecuteRun, WithDroppedFlags;
  }

  /** In any configuration, a request with no drops of its own, sent to an engine that takes some but not all of
      its flags, is told of drops that are not its own. */
  lemma NarrowEngineShows(config: Config, engine: Engine, sourceText: string, rawFlags: seq<RawFlag>, timeoutMs: nat)
    requires var own := Sanitized(CatalogOf(config, engine), rawFlags, config.maxFlags, true);
             own.dropped == [] && 0 < EngineCap(config, engine) < |own.flags|
    ensures var n := Normalize(config, engine, sourceText, rawFlags, timeoutMs);
            var es := OneRun(engine, sourceText, rawFlags, timeoutMs, Success(EngineDrops(config, n)));
            var s := Exec(config, es);
            && HonestReplies(config, es) && |s.requests| == 1
            && s.requests[0].phase.Answered? && s.requests[0].phase.response.Sent?
            && s.requests[0].phase.response.body.meta.Some?
            && !DropsReported([], s.requests[0].phase.response.body)
  {
    hide Sanitized, Exec, Step, EngineDrops;
    var n := Normalize(config, engine, sourceText, rawFlags, timeoutMs);
    var upstream := Success(EngineDrops(config, n));
    var led := [] + [Arrive(0, engine, sourceText, rawFlags, timeoutMs)] + [Lookup(0, 0)] + [Proceed(0)];
    var settled := led + [Settle(0, upstream, 0)];
    EngineDropsIffNarrow(config, engine, sourceText, rawFlags, timeoutMs);
    LeadsAlone(config, engine, sourceText, rawFlags, timeoutMs);
    ExecMore(config, led, Settle(0, upstream, 0));
    ExecMore(config, settled, ResumeLeader(0));
    ExecMore(config, settled + [ResumeLeader(0)], Store(0, false));
    AnsweredAlone(config, n, rawFlags, upstream);
    var es := OneRun(engine, sourceText, rawFlags, timeoutMs, upstream);
    forall k | 0 <= k < |es| ensures HonestReply(config, Exec(config, es[..k]), es[k]) {
      if es[k].Settle? { assert es[..k] == led; }
    }
  }

  /** For example: two flags the gateway takes, and an engine that takes one. */
  lemma TwoFlagsOneTaken(sourceText: string, timeoutMs: nat)
    ensures var catalog := map["-a" := FlagSpec(false, None), "-b" := FlagSpec(false, None)];
            var config := Config(false, map["v8" := catalog], 2, map["v8" := 1], map[]);
            var n := Normalize(config, "v8", sourceText, AsRaw(["-a", "-b"]), timeoutMs);
            var s := Exec(config, OneRun("v8", sourceText, AsRaw(["-a", "-b"]), timeoutMs, Success(EngineDrops(config, n))));
            && n.droppedFlags == [] && |n.flags| == 2 && |s.requests| == 1
            && s.requests[0].phase.Answered? && s.requests[0].phase.response.Sent?
            && !DropsReported([], s.requests[0].phase.response.body)
  {
    var catalog := map["-a" := FlagSpec(false, None), "-b" := FlagSpec(false, None)];
    var config := Config(false, map["v8" := catalog], 2, map["v8" := 1], map[]);
    TwoFlagsAreClean(catalog);
    CleanIsKept(catalog, ["-a", "-b"], 2);
    hide Sanitized, Exec, EngineDrops, OneRun;
    NarrowEngineShows(config, "v8", sourceText, AsRaw(["-a", "-b"]), timeoutMs);
  }

  lemma TwoFlagsAreClean(catalog: Catalog)
    requires catalog == map["-a" := FlagSpec(false, None), "-b" := FlagSpec(false, None)]
    ensures Clean(catalog, ["-a", "-b"])
  {
    assert NameOf("-a") == "-a" && NameOf("-b") == "-b";
  }
}
