/**
 * POST /api/run (apps/api/src/routes/run.ts): coalescing concurrent requests and a cache shared by
 * every gateway process, as the synchronous segments between awaits.  Any number of requests in any
 * number of processes interleave in any order.
 *
 * A request's phase says which await it is suspended at.  The cache key's hash is injective, so a key
 * is the tuple that is hashed.  Rate limiting, authentication and the engine are the environment.
 */
module RunPath {
  import opened Optional
  import opened Flags

  type Engine = string

  datatype Normalized = Normalized(engine: Engine, sourceText: string, flags: seq<string>, timeoutMs: nat, droppedFlags: seq<string>)

  datatype Key = Key(engine: Engine, sourceText: string, flags: seq<string>, timeoutBucket: nat)

  /** The parts of `meta` the gateway itself touches, and the rest of it. */
  datatype Meta = Meta(durationMs: Option<nat>, engine: Option<Engine>, cacheHit: Option<bool>,
                       droppedFlags: Option<seq<string>>, rest: map<string, string>)

  /** A JSON body: everything but `meta` as text, and `meta` when the body has one. */
  datatype Body = Body(ok: bool, content: string, meta: Option<Meta>)

  /** What postJson comes back with; no payload means the text was not JSON. */
  datatype Upstream =
    | Unreachable(message: string)
    | Replied(status: nat, retryAfter: Option<string>, payload: Option<Body>)

  datatype CacheClass = Positive | Negative | Uncached

  datatype RunResult = RunResult(status: nat, body: Body, cache: CacheClass, retryAfter: Option<string>)

  datatype Response = Refused(status: nat) | Sent(status: nat, body: Body)

  datatype Phase =
    | Reading
    | Spending
    | Leading(run: nat)
    | Following(run: nat)
    | Storing(run: nat)
    | Answered(response: Response)

  datatype Request = Request(process: nat, rawFlags: seq<RawFlag>, normalized: Normalized, phase: Phase)

  /** One call to an engine, and its result once there is one. */
  datatype Call = Call(process: nat, leader: nat, request: Normalized, result: Option<RunResult>)

  datatype Config = Config(isDev: bool, catalogs: map<Engine, Catalog>, maxFlags: nat,
                           engineMaxFlags: map<Engine, nat>, engineSorts: map<Engine, bool>)

  datatype Cached = Cached(status: nat, body: Body)

  datatype State = State(requests: seq<Request>, calls: seq<Call>, inFlight: map<(nat, Key), nat>, cache: map<Key, Cached>)

  datatype Event =
    | Arrive(process: nat, engine: Engine, sourceText: string, rawFlags: seq<RawFlag>, timeoutMs: nat)
    | Deny(request: nat, status: nat)
    | Lookup(request: nat, elapsedMs: nat)
    | Proceed(request: nat)
    | Settle(call: nat, upstream: Upstream, elapsedMs: nat)
    | ResumeLeader(request: nat)
    | ResumeFollower(request: nat)
    | Store(request: nat, written: bool)
    | Evict(key: Key)

  // ---- the expressions of the handler ----------------------------------------------------------

  function CacheKey(n: Normalized): Key {
    Key(n.engine, n.sourceText, n.flags, (n.timeoutMs + 99) / 100)
  }

  function MapEngineErrorToStatus(engineStatusCode: nat): nat {
    if engineStatusCode == 408 then 504 else if engineStatusCode == 400 then 400 else 502
  }

  function WithDroppedFlags(body: Body, droppedFlags: seq<string>): Body {
    if droppedFlags == [] || body.meta.None? then body
    else body.(meta := Some(body.meta.value.(droppedFlags := Some(droppedFlags))))
  }

  function ErrorBody(error: string): Body { Body(false, error, None) }

  /** executeRun, from the engine's reply on. */
  function ExecuteRun(engine: Engine, upstream: Upstream, elapsedMs: nat): RunResult {
    match upstream
    case Unreachable(message) => RunResult(502, ErrorBody(message), Uncached, None)
    case Replied(status, retryAfter, payload) =>
      if status == 429 then
        RunResult(429, if payload.Some? then payload.value else ErrorBody("engine busy"), Uncached, retryAfter)
      else if status >= 500 then RunResult(502, ErrorBody("engine unavailable"), Uncached, None)
      else if payload.None? then RunResult(502, ErrorBody("engine returned invalid response"), Uncached, None)
      else if !payload.value.ok then
        var mapped := MapEngineErrorToStatus(status);
        RunResult(mapped, payload.value, if mapped == 400 || mapped == 504 then Negative else Uncached, None)
      else
        var meta := if payload.value.meta.Some? then payload.value.meta.value else Meta(None, None, None, None, map[]);
        RunResult(200,
                  payload.value.(meta := Some(meta.(durationMs := Some(elapsedMs), engine := Some(engine), cacheHit := Some(false)))),
                  Positive, None)
  }

  /** The body replayed on a cache hit. */
  function Replay(cached: Cached, elapsedMs: nat): Body {
    if cached.status == 200 && cached.body.meta.Some? then
      cached.body.(meta := Some(cached.body.meta.value.(cacheHit := Some(true), durationMs := Some(elapsedMs))))
    else cached.body
  }

  function CatalogOf(config: Config, engine: Engine): Catalog {
    if engine in config.catalogs then config.catalogs[engine] else map[]
  }

  function Normalize(config: Config, engine: Engine, sourceText: string, rawFlags: seq<RawFlag>, timeoutMs: nat): Normalized {
    var s := Sanitized(CatalogOf(config, engine), rawFlags, config.maxFlags, true);
    Normalized(engine, sourceText, s.flags, timeoutMs, s.dropped)
  }

  /** What the engine's own sanitizer drops from the flags the gateway sent it. */
  function EngineDrops(config: Config, n: Normalized): seq<string> {
    var cap := if n.engine in config.engineMaxFlags then config.engineMaxFlags[n.engine] else config.maxFlags;
    var sort := if n.engine in config.engineSorts then config.engineSorts[n.engine] else true;
    Sanitized(CatalogOf(config, n.engine), AsRaw(n.flags), cap, sort).dropped
  }

  /** An engine's success has `meta`, which reports dropped flags exactly when its sanitizer dropped some
      (packages/engine-runtime/src/app.ts). */
  predicate Honest(config: Config, n: Normalized, upstream: Upstream) {
    upstream.Replied? && upstream.payload.Some? ==>
      && (upstream.payload.value.ok ==> upstream.payload.value.meta.Some?)
      && (upstream.payload.value.meta.Some? ==>
            upstream.payload.value.meta.value.droppedFlags ==
              if EngineDrops(config, n) == [] then None else Some(EngineDrops(config, n)))
  }

  // ---- the segments ------------------------------------------------------------------------------

  function SetPhase(s: State, r: nat, phase: Phase): State
    requires r < |s.requests|
  {
    s.(requests := s.requests[r := s.requests[r].(phase := phase)])
  }

  function Answer(s: State, r: nat, status: nat, body: Body): State
    requires r < |s.requests|
  {
    SetPhase(s, r, Answered(Sent(status, WithDroppedFlags(body, s.requests[r].normalized.droppedFlags))))
  }

  /** After the general budget: a hit answers, a miss goes on to the heavy budget. */
  function OnLookup(config: Config, s: State, r: nat, elapsedMs: nat): State
    requires r < |s.requests|
  {
    var key := CacheKey(s.requests[r].normalized);
    if !config.isDev && key in s.cache then Answer(s, r, s.cache[key].status, Replay(s.cache[key], elapsedMs))
    else SetPhase(s, r, Spending)
  }

  /** After the heavy budget: follow the call in flight for this key, or lead a new one. */
  function OnProceed(s: State, r: nat): State
    requires r < |s.requests|
  {
    var request := s.requests[r];
    var slot := (request.process, CacheKey(request.normalized));
    if slot in s.inFlight then SetPhase(s, r, Following(s.inFlight[slot]))
    else
      var n := |s.calls|;
      SetPhase(s, r, Leading(n)).(calls := s.calls + [Call(request.process, r, request.normalized, None)],
                                  inFlight := s.inFlight[slot := n])
  }

  /** The leader's continuation: forget the call, then cache its result if it is worth it. */
  function OnResumeLeader(config: Config, s: State, r: nat): State
    requires r < |s.requests| && s.requests[r].phase.Leading? && s.requests[r].phase.run < |s.calls|
    requires s.calls[s.requests[r].phase.run].result.Some?
  {
    var n := s.requests[r].phase.run;
    var result := s.calls[n].result.value;
    var s1 := s.(inFlight := s.inFlight - {(s.requests[r].process, CacheKey(s.requests[r].normalized))});
    if !config.isDev && result.cache != Uncached then SetPhase(s1, r, Storing(n))
    else Answer(s1, r, result.status, result.body)
  }

  function OnStore(s: State, r: nat, written: bool): State
    requires r < |s.requests| && s.requests[r].phase.Storing? && s.requests[r].phase.run < |s.calls|
    requires s.calls[s.requests[r].phase.run].result.Some?
  {
    var result := s.calls[s.requests[r].phase.run].result.value;
    var s1 := if !written then s
              else s.(cache := s.cache[CacheKey(s.requests[r].normalized) := Cached(result.status, result.body)]);
    Answer(s1, r, result.status, result.body)
  }

  predicate Settled(s: State, n: nat) {
    n < |s.calls| && s.calls[n].result.Some?
  }

  function Step(config: Config, s: State, e: Event): State {
    match e
    case Arrive(p, engine, sourceText, rawFlags, timeoutMs) =>
      s.(requests := s.requests + [Request(p, rawFlags, Normalize(config, engine, sourceText, rawFlags, timeoutMs), Reading)])
    case Deny(r, status) =>
      if r < |s.requests| && (s.requests[r].phase.Reading? || s.requests[r].phase.Spending?)
      then SetPhase(s, r, Answered(Refused(status))) else s
    case Lookup(r, elapsedMs) =>
      if r < |s.requests| && s.requests[r].phase.Reading? then OnLookup(config, s, r, elapsedMs) else s
    case Proceed(r) =>
      if r < |s.requests| && s.requests[r].phase.Spending? then OnProceed(s, r) else s
    case Settle(n, upstream, elapsedMs) =>
      if n < |s.calls| && s.calls[n].result.None?
      then s.(calls := s.calls[n := s.calls[n].(result := Some(ExecuteRun(s.calls[n].request.engine, upstream, elapsedMs)))])
      else s
    case ResumeLeader(r) =>
      if r < |s.requests| && s.requests[r].phase.Leading? && Settled(s, s.requests[r].phase.run)
      then OnResumeLeader(config, s, r) else s
    case ResumeFollower(r) =>
      if r < |s.requests| && s.requests[r].phase.Following? && Settled(s, s.requests[r].phase.run)
      then var result := s.calls[s.requests[r].phase.run].result.value; Answer(s, r, result.status, result.body)
      else s
    case Store(r, written) =>
      if r < |s.requests| && s.requests[r].phase.Storing? && Settled(s, s.requests[r].phase.run)
      then OnStore(s, r, written) else s
    case Evict(key) => s.(cache := s.cache - {key})
  }

  function Exec(config: Config, es: seq<Event>): State {
    if es == [] then State([], [], map[], map[]) else Step(config, Exec(config, es[..|es| - 1]), es[|es| - 1])
  }
}
