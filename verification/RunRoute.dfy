/** The run handler's segments, in place, against `RunPath.Step`: what runs between two awaits. */
module RunRoute {
  import opened Optional
  import opened Flags
  import opened RunPath

  class RunRoute {
    const config: Config
    var inFlight: map<(nat, Key), nat>
    var cache: map<Key, Cached>
    var requests: seq<Request>
    var calls: seq<Call>

    ghost function Abs(): State
      reads this
    {
      State(requests, calls, inFlight, cache)
    }

    constructor (config: Config)
      ensures this.config == config && Abs() == Exec(config, [])
    {
      this.config := config;
      inFlight, cache, requests, calls := map[], map[], [], [];
    }

    /** A request is parsed and normalized, then waits for its general budget. */
    method Arrive(process: nat, engine: Engine, sourceText: string, rawFlags: seq<RawFlag>, timeoutMs: nat) returns (r: nat)
      modifies this
      ensures Abs() == Step(config, old(Abs()), Event.Arrive(process, engine, sourceText, rawFlags, timeoutMs))
      ensures r == |old(requests)|
    {
      var sanitized := SanitizeFlags(CatalogOf(config, engine), rawFlags, config.maxFlags, true);
      var normalized := Normalized(engine, sourceText, sanitized.flags, timeoutMs, sanitized.dropped);
      r := |requests|;
      requests := requests + [Request(process, rawFlags, normalized, Reading)];
    }

    method Send(r: nat, status: nat, body: Body)
      requires r < |requests|
      modifies this`requests
      ensures Abs() == Answer(old(Abs()), r, status, body)
    {
      var sent := WithDroppedFlags(body, requests[r].normalized.droppedFlags);
      requests := requests[r := requests[r].(phase := Answered(Sent(status, sent)))];
    }

    /** With the general budget spent: replay a cached result, or go on to the heavy budget. */
    method Lookup(r: nat, elapsedMs: nat)
      requires r < |requests| && requests[r].phase.Reading?
      modifies this
      ensures Abs() == Step(config, old(Abs()), Event.Lookup(r, elapsedMs))
    {
      var key := CacheKey(requests[r].normalized);
      if !config.isDev && key in cache {
        var cached := cache[key];
        var body := cached.body;
        if cached.status == 200 && body.meta.Some? {
          body := body.(meta := Some(body.meta.value.(cacheHit := Some(true), durationMs := Some(elapsedMs))));
        }
        Send(r, cached.status, body);
      } else {
        requests := requests[r := requests[r].(phase := Spending)];
      }
    }

    /** With the heavy budget spent: await the call in flight, or start one and enter it in the map. */
    method Proceed(r: nat)
      requires r < |requests| && requests[r].phase.Spending?
      modifies this
      ensures Abs() == Step(config, old(Abs()), Event.Proceed(r))
    {
      var slot := (requests[r].process, CacheKey(requests[r].normalized));
      if slot in inFlight {
        requests := requests[r := requests[r].(phase := Following(inFlight[slot]))];
      } else {
        var pending := |calls|;
        calls := calls + [Call(requests[r].process, r, requests[r].normalized, None)];
        inFlight := inFlight[slot := pending];
        requests := requests[r := requests[r].(phase := Leading(pending))];
      }
    }

    /** The leader's awaited call has settled: leave the map first, then cache or answer. */
    method ResumeLeader(r: nat)
      requires r < |requests| && requests[r].phase.Leading?
      requires Settled(Abs(), requests[r].phase.run)
      modifies this
      ensures Abs() == Step(config, old(Abs()), Event.ResumeLeader(r))
    {
      var run := requests[r].phase.run;
      var result := calls[run].result.value;
      inFlight := inFlight - {(requests[r].process, CacheKey(requests[r].normalized))};
      if !config.isDev && result.cache != Uncached {
        requests := requests[r := requests[r].(phase := Storing(run))];
      } else {
        Send(r, result.status, result.body);
      }
    }

    method ResumeFollower(r: nat)
      requires r < |requests| && requests[r].phase.Following?
      requires Settled(Abs(), requests[r].phase.run)
      modifies this
      ensures Abs() == Step(config, old(Abs()), Event.ResumeFollower(r))
    {
      var result := calls[requests[r].phase.run].result.value;
      Send(r, result.status, result.body);
    }

    /** writeCache has returned, having written or not. */
    method Store(r: nat, written: bool)
      requires r < |requests| && requests[r].phase.Storing?
      requires Settled(Abs(), requests[r].phase.run)
      modifies this
      ensures Abs() == Step(config, old(Abs()), Event.Store(r, written))
    {
      var result := calls[requests[r].phase.run].result.value;
      if written {
        cache := cache[CacheKey(requests[r].normalized) := Cached(result.status, result.body)];
      }
      Send(r, result.status, result.body);
    }
  }
}
