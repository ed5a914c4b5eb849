/** Fixed-window counting in Redis. Times are milliseconds of the one clock gateway and store share; a bucket's
    window index is stamped before the store runs the transaction, which may be later. */
module RateLimit {
  import opened Numbers
  import opened Optional

  type Seconds = s: nat | s > 0 witness 1

  /** An identity's budget for one suffix; the digest of the identity is taken as injective. */
  datatype Bucket = Bucket(suffix: string, identity: string)

  datatype Key = Key(bucket: Bucket, window: nat)

  datatype Config = Config(limit: Bucket -> nat, window: Bucket -> Seconds)

  // ---- the store's commands ------------------------------------------------------------------------------

  datatype Counter = Counter(value: nat, expiresAt: Option<nat>)

  type Store = map<Key, Counter>

  predicate Alive(store: Store, key: Key, now: nat) {
    key in store && (store[key].expiresAt.Some? ==> store[key].expiresAt.value > now)
  }

  function Incr(store: Store, key: Key, now: nat): Store {
    store[key := if Alive(store, key, now) then store[key].(value := store[key].value + 1) else Counter(1, None)]
  }

  function ExpireNx(store: Store, key: Key, seconds: Seconds, now: nat): Store {
    if !Alive(store, key, now) || store[key].expiresAt.Some? then store
    else store[key := store[key].(expiresAt := Some(now + 1000 * seconds))]
  }

  /** Remaining life in seconds, rounded to the nearest. */
  function Ttl(store: Store, key: Key, now: nat): int {
    if !Alive(store, key, now) then -2
    else if store[key].expiresAt.None? then -1
    else (store[key].expiresAt.value - now + 500) / 1000
  }

  // ---- one request ---------------------------------------------------------------------------------------

  function Window(ms: nat, seconds: Seconds): nat { ms / 1000 / seconds }

  /** INCR, EXPIRE NX and TTL as one transaction. */
  function Taken(store: Store, key: Key, seconds: Seconds, now: nat): Store {
    ExpireNx(Incr(store, key, now), key, seconds, now)
  }

  datatype Entry = Entry(bucket: Bucket, window: nat, at: nat, count: nat, admitted: bool)

  datatype State = State(now: nat, store: Store, log: seq<Entry>)

  const Start := State(0, map[], [])

  datatype Event =
    | Tick(ms: nat)
    | Request(bucket: Bucket, stamp: nat)

  /** A request's key carries the window of its stamp, which is never ahead of the clock. */
  function Step(c: Config, s: State, e: Event): State {
    match e
    case Tick(ms) => s.(now := s.now + ms)
    case Request(bucket, stamp) =>
      if stamp > s.now then s
      else
        var seconds := c.window(bucket);
        var key := Key(bucket, Window(stamp, seconds));
        var store := Taken(s.store, key, seconds, s.now);
        var count := store[key].value;
        State(s.now, store, s.log + [Entry(bucket, key.window, s.now, count, count <= c.limit(bucket))])
  }

  function Exec(c: Config, events: seq<Event>): State {
    if events == [] then Start else Step(c, Exec(c, events[..|events| - 1]), events[|events| - 1])
  }

  // ---- windows -------------------------------------------------------------------------------------------

  /** When a window opens; it closes when the next one opens. */
  function Opens(seconds: Seconds, w: nat): nat { w * (1000 * seconds) }

  lemma OpensNext(seconds: Seconds, w: nat)
    ensures Opens(seconds, w + 1) == Opens(seconds, w) + 1000 * seconds
  {
  }

  lemma OpensOrdered(seconds: Seconds, v: nat, w: nat)
    requires v <= w
    ensures Opens(seconds, v) <= Opens(seconds, w)
  {
  }

  lemma WindowBounds(ms: nat, seconds: Seconds)
    ensures Opens(seconds, Window(ms, seconds)) <= ms < Opens(seconds, Window(ms, seconds) + 1)
  {
    var q := ms / 1000;
    var w := q / seconds;
    assert q == seconds * w + q % seconds;
    assert ms == 1000 * q + ms % 1000;
    assert w * (1000 * seconds) == 1000 * (seconds * w);
    assert (w + 1) * (1000 * seconds) == 1000 * (seconds * w) + 1000 * seconds;
  }

  lemma NotBeforeWindow(ms: nat, seconds: Seconds, w: nat)
    requires w <= Window(ms, seconds)
    ensures Opens(seconds, w) <= ms
  {
    hide Window, Opens;
    WindowBounds(ms, seconds);
    OpensOrdered(seconds, w, Window(ms, seconds));
  }

  lemma NotAfterWindow(ms: nat, seconds: Seconds, w: nat)
    requires Window(ms, seconds) <= w
    ensures ms < Opens(seconds, w + 1)
  {
    hide Window, Opens;
    WindowBounds(ms, seconds);
    OpensOrdered(seconds, Window(ms, seconds) + 1, w + 1);
  }

  lemma WindowMonotone(a: nat, b: nat, seconds: Seconds)
    requires a <= b
    ensures Window(a, seconds) <= Window(b, seconds)
    ensures b < a + 1000 * seconds ==> Window(b, seconds) <= Window(a, seconds) + 1
  {
    hide Window, Opens;
    var v, w := Window(a, seconds), Window(b, seconds);
    WindowBounds(a, seconds);
    WindowBounds(b, seconds);
    OpensNext(seconds, v + 1);
    if w < v { OpensOrdered(seconds, w + 1, v); }
    if w > v + 1 { OpensOrdered(seconds, v + 2, w); }
  }

  // ---- what the log says -----------------------------------------------------------------------------------

  /** The request was stamped for this bucket and window. */
  predicate For(e: Entry, b: Bucket, w: nat) { e.bucket == b && e.window == w }

  function Count(log: seq<Entry>, b: Bucket, w: nat): nat {
    if log == [] then 0
    else Count(log[..|log| - 1], b, w) + if For(log[|log| - 1], b, w) then 1 else 0
  }

  function Admitted(log: seq<Entry>, b: Bucket, w: nat): nat {
    if log == [] then 0
    else Admitted(log[..|log| - 1], b, w) + if For(log[|log| - 1], b, w) && log[|log| - 1].admitted then 1 else 0
  }

  /** When the store ran the first request stamped for a window; 0 when there is none. */
  function FirstAt(log: seq<Entry>, b: Bucket, w: nat): nat {
    if log == [] then 0
    else
      var init := log[..|log| - 1];
      if Count(init, b, w) == 0 && For(log[|log| - 1], b, w) then log[|log| - 1].at else FirstAt(init, b, w)
  }

  function Length(c: Config, b: Bucket): nat { 1000 * c.window(b) }

  /** Every request stamped for the window ran within one window length of the first of them. */
  ghost predicate Timely(c: Config, log: seq<Entry>, b: Bucket, w: nat) {
    forall i :: 0 <= i < |log| && For(log[i], b, w) ==> log[i].at < FirstAt(log, b, w) + Length(c, b)
  }

  /** The store ran this request inside the window it was stamped for. */
  predicate Prompt(c: Config, e: Entry) { Window(e.at, c.window(e.bucket)) == e.window }

  /** A counter's life: it starts with a request that finds no live key and lasts one window length. */
  datatype Life = Life(start: nat, count: nat)

  function NextLife(c: Config, life: Option<Life>, e: Entry): Life {
    if life.None? || e.at >= life.value.start + Length(c, e.bucket) then Life(e.at, 1)
    else Life(life.value.start, life.value.count + 1)
  }

  function LifeOf(c: Config, log: seq<Entry>, b: Bucket, w: nat): Option<Life> {
    if log == [] then None
    else
      var life, e := LifeOf(c, log[..|log| - 1], b, w), log[|log| - 1];
      if For(e, b, w) then Some(NextLife(c, life, e)) else life
  }

  /** How many lives a window's counter has had. */
  function Lives(c: Config, log: seq<Entry>, b: Bucket, w: nat): nat {
    if log == [] then 0
    else Lives(c, log[..|log| - 1], b, w) + if For(log[|log| - 1], b, w) && log[|log| - 1].count == 1 then 1 else 0
  }

  // ---- every run -------------------------------------------------------------------------------------------

  /** The store holds each window's current life and nothing else. */
  ghost predicate KeyIsLife(c: Config, s: State, b: Bucket, w: nat) {
    match LifeOf(c, s.log, b, w)
    case None => Key(b, w) !in s.store
    case Some(life) =>
      Key(b, w) in s.store && s.store[Key(b, w)] == Counter(life.count, Some(life.start + Length(c, b)))
  }

  /** Requests run in order of time, never before their window, and are counted in their window's life. */
  ghost predicate Lawful(c: Config, log: seq<Entry>) {
    && (forall i, j :: 0 <= i < j < |log| ==> log[i].at <= log[j].at)
    && (forall i: nat :: i < |log| ==>
          && log[i].window <= Window(log[i].at, c.window(log[i].bucket))
          && log[i].count == NextLife(c, LifeOf(c, log[..i], log[i].bucket, log[i].window), log[i]).count
          && (log[i].admitted <==> log[i].count <= c.limit(log[i].bucket)))
  }

  ghost predicate Inv(c: Config, s: State) {
    && Lawful(c, s.log)
    && (forall e :: e in s.log ==> e.at <= s.now)
    && (forall b: Bucket, w: nat :: KeyIsLife(c, s, b, w))
  }

  lemma {:induction false} RunKeeps(c: Config, events: seq<Event>)
    ensures Inv(c, Exec(c, events))
  {
    if events != [] {
      RunKeeps(c, events[..|events| - 1]);
      var s := Exec(c, events[..|events| - 1]);
      match events[|events| - 1] {
        case Tick(ms) => TickKeeps(c, s, ms);
        case Request(bucket, stamp) => if stamp <= s.now { RequestKeeps(c, s, bucket, stamp); }
      }
    }
  }

  lemma TickKeeps(c: Config, s: State, ms: nat)
    requires Inv(c, s)
    ensures Inv(c, Step(c, s, Tick(ms)))
  {
    hide Lawful, LifeOf;
    var t := Step(c, s, Tick(ms));
    forall b: Bucket, w: nat ensures KeyIsLife(c, t, b, w) { assert KeyIsLife(c, s, b, w); }
  }

  lemma RequestKeeps(c: Config, s: State, bucket: Bucket, stamp: nat)
    requires Inv(c, s) && stamp <= s.now
    ensures Inv(c, Step(c, s, Request(bucket, stamp)))
  {
    hide Window, Taken, NextLife, LifeOf, Count, Admitted, Lives, FirstAt, Step, Lawful;
    var t, e := Step(c, s, Request(bucket, stamp)), Logged(c, s, bucket, stamp);
    assert KeyIsLife(c, s, bucket, e.window);
    RequestLogs(c, s, bucket, stamp);
    LawfulMore(c, s.log, e);
    forall b: Bucket, w: nat ensures KeyIsLife(c, t, b, w) {
      assert KeyIsLife(c, s, b, w);
      LogGrows(c, s.log, e, b, w);
    }
  }

  /** The entry a request leaves. */
  ghost function Logged(c: Config, s: State, b: Bucket, stamp: nat): Entry
    requires stamp <= s.now
  {
    var w := Window(stamp, c.window(b));
    var probe := Entry(b, w, s.now, 0, false);
    var count := NextLife(c, LifeOf(c, s.log, b, w), probe).count;
    Entry(b, w, s.now, count, count <= c.limit(b))
  }

  /** The transaction goes on with the key's life, or starts one, and leaves every other key alone. */
  lemma RequestLogs(c: Config, s: State, b: Bucket, stamp: nat)
    requires stamp <= s.now && KeyIsLife(c, s, b, Window(stamp, c.window(b)))
    ensures var t, e := Step(c, s, Request(b, stamp)), Logged(c, s, b, stamp);
            var life := NextLife(c, LifeOf(c, s.log, b, e.window), e);
            && t.now == s.now == e.at && t.log == s.log + [e]
            && For(e, b, Window(stamp, c.window(b))) && e.window <= Window(e.at, c.window(b))
            && e.count == life.count && (e.admitted <==> e.count <= c.limit(b))
            && t.store == s.store[Key(b, e.window) := Counter(life.count, Some(life.start + Length(c, b)))]
  {
    WindowMonotone(stamp, s.now, c.window(b));
    hide LifeOf, Window;
  }

  /** What one more request changes in the account of a window. */
  lemma LogGrows(c: Config, log: seq<Entry>, e: Entry, b: Bucket, w: nat)
    ensures Count(log + [e], b, w) == Count(log, b, w) + if For(e, b, w) then 1 else 0
    ensures Admitted(log + [e], b, w) == Admitted(log, b, w) + if For(e, b, w) && e.admitted then 1 else 0
    ensures Lives(c, log + [e], b, w) == Lives(c, log, b, w) + if For(e, b, w) && e.count == 1 then 1 else 0
    ensures FirstAt(log + [e], b, w) == if Count(log, b, w) == 0 && For(e, b, w) then e.at else FirstAt(log, b, w)
    ensures LifeOf(c, log + [e], b, w)
         == if For(e, b, w) then Some(NextLife(c, LifeOf(c, log, b, w), e)) else LifeOf(c, log, b, w)
  {
    assert (log + [e])[..|log|] == log;
  }

  lemma LawfulMore(c: Config, log: seq<Entry>, e: Entry)
    requires Lawful(c, log) && forall x :: x in log ==> x.at <= e.at
    requires e.window <= Window(e.at, c.window(e.bucket))
    requires e.count == NextLife(c, LifeOf(c, log, e.bucket, e.window), e).count
    requires e.admitted <==> e.count <= c.limit(e.bucket)
    ensures Lawful(c, log + [e])
  {
    hide Window, LifeOf, NextLife;
    var more := log + [e];
    forall i: nat | i < |more| ensures more[..i] == log[..i] && (i < |log| ==> more[i] == log[i]) {}
    assert log[..|log|] == log;
  }

  lemma LawfulBefore(c: Config, log: seq<Entry>, n: nat)
    requires Lawful(c, log) && n <= |log|
    ensures Lawful(c, log[..n])
  {
    hide Window, LifeOf, NextLife;
    var init := log[..n];
    assert forall i: nat :: i < |init| ==> init[i] == log[i] && init[..i] == log[..i];
  }

  /** The last request of a lawful log. */
  lemma LastCounts(c: Config, log: seq<Entry>)
    requires log != [] && Lawful(c, log)
    ensures var init, e := log[..|log| - 1], log[|log| - 1];
            && Lawful(c, init)
            && e.count == NextLife(c, LifeOf(c, init, e.bucket, e.window), e).count
            && (e.admitted <==> e.count <= c.limit(e.bucket))
            && (forall x :: x in init ==> x.at <= e.at)
  {
    hide Window, LifeOf, NextLife;
    LawfulBefore(c, log, |log| - 1);
  }

  // ---- a window's requests ---------------------------------------------------------------------------------

  lemma {:induction false} FirstOccurs(log: seq<Entry>, b: Bucket, w: nat)
    ensures Count(log, b, w) > 0 <==> exists i :: 0 <= i < |log| && For(log[i], b, w)
    ensures Count(log, b, w) > 0 ==> exists i :: 0 <= i < |log| && For(log[i], b, w) && log[i].at == FirstAt(log, b, w)
  {
    if log != [] {
      var init := log[..|log| - 1];
      FirstOccurs(init, b, w);
      assert forall i :: 0 <= i < |init| ==> log[i] == init[i];
    }
  }

  lemma TimelyBefore(c: Config, log: seq<Entry>, b: Bucket, w: nat)
    requires log != [] && Timely(c, log, b, w)
    ensures Timely(c, log[..|log| - 1], b, w)
  {
    var init := log[..|log| - 1];
    FirstOccurs(init, b, w);
    forall i | 0 <= i < |init| && For(init[i], b, w) ensures init[i].at < FirstAt(init, b, w) + Length(c, b) {
      assert log[i] == init[i];
    }
  }

  /** While its requests are timely, a window's counter has one life, begun by the first of them. */
  lemma {:induction false} TimelyIsOneLife(c: Config, log: seq<Entry>, b: Bucket, w: nat)
    requires Lawful(c, log) && Timely(c, log, b, w)
    ensures OneLife(c, log, b, w)
  {
    if log != [] {
      hide Lawful, Timely, OneLife, Count, LifeOf, Admitted, FirstAt, NextLife;
      var init, e := log[..|log| - 1], log[|log| - 1];
      assert log == init + [e];
      LastCounts(c, log);
      TimelyMore(c, init, e, b, w);
      TimelyIsOneLife(c, init, b, w);
      OneLifeGrows(c, init, e, b, w);
    }
  }

  /** One life, or none yet, that has counted every request and admitted the first `limit`. */
  ghost predicate OneLife(c: Config, log: seq<Entry>, b: Bucket, w: nat) {
    var n := Count(log, b, w);
    && LifeOf(c, log, b, w) == (if n == 0 then None else Some(Life(FirstAt(log, b, w), n)))
    && Admitted(log, b, w) == if n <= c.limit(b) then n else c.limit(b)
  }

  lemma OneLifeGrows(c: Config, log: seq<Entry>, e: Entry, b: Bucket, w: nat)
    requires OneLife(c, log, b, w)
    requires For(e, b, w) && Count(log, b, w) > 0 ==> e.at < FirstAt(log, b, w) + Length(c, b)
    requires e.count == NextLife(c, LifeOf(c, log, e.bucket, e.window), e).count
    requires e.admitted <==> e.count <= c.limit(e.bucket)
    ensures OneLife(c, log + [e], b, w)
  {
    LogGrows(c, log, e, b, w);
    hide Count, LifeOf, Admitted, FirstAt;
  }

  /** Some request after the first was counted as number one. */
  ghost predicate Restarted(log: seq<Entry>, b: Bucket, w: nat) {
    exists i: nat :: i < |log| && For(log[i], b, w) && log[i].count == 1 && Count(log[..i], b, w) > 0
  }

  /** The life that counts a request began no earlier than the first request. */
  lemma {:induction false} LifeAfterFirst(c: Config, log: seq<Entry>, b: Bucket, w: nat)
    requires Lawful(c, log)
    ensures match LifeOf(c, log, b, w)
            case None => Count(log, b, w) == 0
            case Some(life) => Count(log, b, w) > 0 && life.start >= FirstAt(log, b, w) && life.count >= 1
  {
    if log != [] {
      var init, e := log[..|log| - 1], log[|log| - 1];
      assert log == init + [e];
      LastCounts(c, log);
      LogGrows(c, init, e, b, w);
      FirstOccurs(init, b, w);
      hide Lawful, Count, LifeOf, FirstAt;
      LifeAfterFirst(c, init, b, w);
    }
  }

  /** Exactly the untimely windows start their count over. */
  lemma {:induction false} RestartedIffUntimely(c: Config, log: seq<Entry>, b: Bucket, w: nat)
    requires Lawful(c, log)
    ensures Restarted(log, b, w) <==> !Timely(c, log, b, w)
  {
    if log != [] {
      var init, e := log[..|log| - 1], log[|log| - 1];
      assert log == init + [e];
      LastCounts(c, log);
      RestartedMore(init, e, b, w);
      TimelyMore(c, init, e, b, w);
      hide Lawful, Timely, Restarted, Count, LifeOf, FirstAt;
      RestartedIffUntimely(c, init, b, w);
      LifeAfterFirst(c, init, b, w);
      if Timely(c, init, b, w) { TimelyIsOneLife(c, init, b, w); }
    }
  }

  lemma RestartedMore(log: seq<Entry>, e: Entry, b: Bucket, w: nat)
    ensures Restarted(log + [e], b, w) <==>
              Restarted(log, b, w) || (For(e, b, w) && e.count == 1 && Count(log, b, w) > 0)
  {
    var more := log + [e];
    assert forall i: nat :: i <= |log| ==> more[..i] == log[..i];
    assert log[..|log|] == log;
    if Restarted(log, b, w) {
      var i: nat :| i < |log| && For(log[i], b, w) && log[i].count == 1 && Count(log[..i], b, w) > 0;
      assert more[i] == log[i];
    }
    if For(e, b, w) && e.count == 1 && Count(log, b, w) > 0 { assert more[|log|] == e; }
  }

  lemma TimelyMore(c: Config, log: seq<Entry>, e: Entry, b: Bucket, w: nat)
    ensures Timely(c, log + [e], b, w) <==>
              Timely(c, log, b, w) && (For(e, b, w) && Count(log, b, w) > 0 ==> e.at < FirstAt(log, b, w) + Length(c, b))
  {
    var more := log + [e];
    assert more[..|log|] == log;
    FirstOccurs(log, b, w);
    FirstOccurs(more, b, w);
    assert forall i :: 0 <= i < |log| ==> more[i] == log[i];
    assert more[|log|] == e;
  }

  /** The timely half of the window limit: of all requests stamped for a window, exactly the first `limit` are
      admitted as long as they run within one window length of the first. */
  lemma FixedWindowLimit(c: Config, events: seq<Event>, b: Bucket, w: nat)
    requires Timely(c, Exec(c, events).log, b, w)
    ensures var log := Exec(c, events).log;
            var n := Count(log, b, w);
            && Admitted(log, b, w) == (if n <= c.limit(b) then n else c.limit(b))
            && forall i: nat :: i < |log| && For(log[i], b, w) ==>
                 (log[i].admitted <==> Count(log[..i], b, w) < c.limit(b))
  {
    var log := Exec(c, events).log;
    RunKeeps(c, events);
    TimelyIsOneLife(c, log, b, w);
    forall i: nat | i < |log| && For(log[i], b, w)
      ensures log[i].admitted <==> Count(log[..i], b, w) < c.limit(b)
    {
      TimelyAt(c, log, b, w, i);
    }
  }

  /** In every run, a window's requests are numbered in order if and only if they are timely. */
  lemma NumberedIffTimely(c: Config, events: seq<Event>, b: Bucket, w: nat)
    ensures var log := Exec(c, events).log;
            (forall i: nat :: i < |log| && For(log[i], b, w) ==> log[i].count == Count(log[..i], b, w) + 1)
            <==> Timely(c, log, b, w)
  {
    hide Exec, Lawful, Timely, LifeOf, Count, KeyIsLife;
    var log := Exec(c, events).log;
    RunKeeps(c, events);
    if Timely(c, log, b, w) {
      forall i: nat | i < |log| && For(log[i], b, w) ensures log[i].count == Count(log[..i], b, w) + 1 {
        TimelyAt(c, log, b, w, i);
      }
    } else {
      RestartedIffUntimely(c, log, b, w);
    }
  }

  lemma TimelyAt(c: Config, log: seq<Entry>, b: Bucket, w: nat, i: nat)
    requires Lawful(c, log) && Timely(c, log, b, w) && i < |log| && For(log[i], b, w)
    ensures log[i].count == Count(log[..i], b, w) + 1
    ensures log[i].admitted <==> Count(log[..i], b, w) < c.limit(b)
  {
    hide Lawful, Timely, LifeOf, Count, FirstAt, Admitted;
    TimelyPrefix(c, log, b, w, i);
    LawfulBefore(c, log, i);
    TimelyIsOneLife(c, log[..i], b, w);
    TimelyCounts(c, log, b, w, i);
  }

  lemma {:induction false} TimelyPrefix(c: Config, log: seq<Entry>, b: Bucket, w: nat, n: nat)
    requires Timely(c, log, b, w) && n <= |log|
    ensures Timely(c, log[..n], b, w)
    decreases |log|
  {
    if n == |log| {
      assert log[..n] == log;
    } else {
      TimelyBefore(c, log, b, w);
      TimelyPrefix(c, log[..|log| - 1], b, w, n);
      assert log[..|log| - 1][..n] == log[..n];
    }
  }

  lemma TimelyCounts(c: Config, log: seq<Entry>, b: Bucket, w: nat, i: nat)
    requires Lawful(c, log) && Timely(c, log, b, w) && i < |log| && For(log[i], b, w)
    requires var n := Count(log[..i], b, w);
             LifeOf(c, log[..i], b, w) == if n == 0 then None else Some(Life(FirstAt(log[..i], b, w), n))
    ensures log[i].count == Count(log[..i], b, w) + 1
    ensures log[i].admitted <==> log[i].count <= c.limit(b)
  {
    hide Timely, Count, LifeOf, FirstAt, Window, NextLife, Lawful;
    TimelyPrefix(c, log, b, w, i + 1);
    assert log[..i + 1] == log[..i] + [log[i]];
    TimelyMore(c, log[..i], log[i], b, w);
    CountedAt(c, log, i);
    OneLifeCounts(c, log[..i], log[i], b, w);
  }

  lemma CountedAt(c: Config, log: seq<Entry>, i: nat)
    requires Lawful(c, log) && i < |log|
    ensures log[i].count == NextLife(c, LifeOf(c, log[..i], log[i].bucket, log[i].window), log[i]).count
    ensures log[i].admitted <==> log[i].count <= c.limit(log[i].bucket)
  {
    hide NextLife, LifeOf, Window;
  }

  lemma OneLifeCounts(c: Config, log: seq<Entry>, e: Entry, b: Bucket, w: nat)
    requires For(e, b, w) && (Count(log, b, w) > 0 ==> e.at < FirstAt(log, b, w) + Length(c, b))
    requires var n := Count(log, b, w);
             LifeOf(c, log, b, w) == if n == 0 then None else Some(Life(FirstAt(log, b, w), n))
    ensures NextLife(c, LifeOf(c, log, b, w), e).count == Count(log, b, w) + 1
  {
    hide Count, LifeOf, FirstAt;
  }

  /** And only then: an untimely window counts some later request as number one, which is admitted whatever was
      admitted before it, unless the limit is zero. */
  lemma UntimelyStartsOver(c: Config, events: seq<Event>, b: Bucket, w: nat) returns (i: nat)
    requires !Timely(c, Exec(c, events).log, b, w)
    ensures var log := Exec(c, events).log;
            && i < |log| && For(log[i], b, w) && Count(log[..i], b, w) > 0
            && log[i].count == 1 && (log[i].admitted <==> c.limit(b) > 0)
  {
    var log := Exec(c, events).log;
    RunKeeps(c, events);
    RestartedIffUntimely(c, log, b, w);
    i :| i < |log| && For(log[i], b, w) && log[i].count == 1 && Count(log[..i], b, w) > 0;
  }

  /** An untimely window has had a life before the current one, so it has admitted that one's share as well. */
  ghost predicate LivesOverlap(c: Config, log: seq<Entry>, b: Bucket, w: nat) {
    var n, limit := Count(log, b, w), c.limit(b);
    match LifeOf(c, log, b, w)
    case None => false
    case Some(life) =>
      && 1 <= life.count < n && Admitted(log, b, w) <= n && (limit == 0 ==> Admitted(log, b, w) == 0)
      && Admitted(log, b, w) >= Min(n - life.count, limit) + Min(life.count, limit)
  }

  lemma {:induction false} UntimelyOverlaps(c: Config, log: seq<Entry>, b: Bucket, w: nat)
    requires Lawful(c, log) && !Timely(c, log, b, w)
    ensures LivesOverlap(c, log, b, w)
  {
    hide Lawful, Timely, OneLife, LivesOverlap, NextLife, Count, LifeOf, FirstAt, Admitted;
    if log == [] {
      NoneIsTimely(c, b, w);
    } else {
      var init, e := log[..|log| - 1], log[|log| - 1];
      assert log == init + [e];
      LastCounts(c, log);
      TimelyMore(c, init, e, b, w);
      if Timely(c, init, b, w) {
        TimelyIsOneLife(c, init, b, w);
        SecondLifeOverlaps(c, init, e, b, w);
      } else {
        UntimelyOverlaps(c, init, b, w);
        OverlapGrows(c, init, e, b, w);
      }
    }
  }

  lemma NoneIsTimely(c: Config, b: Bucket, w: nat)
    ensures Timely(c, [], b, w)
  {
  }

  lemma SecondLifeOverlaps(c: Config, log: seq<Entry>, e: Entry, b: Bucket, w: nat)
    requires OneLife(c, log, b, w) && For(e, b, w) && Count(log, b, w) > 0
    requires e.at >= FirstAt(log, b, w) + Length(c, b)
    requires e.count == NextLife(c, LifeOf(c, log, b, w), e).count && (e.admitted <==> e.count <= c.limit(b))
    ensures LivesOverlap(c, log + [e], b, w)
  {
    LogGrows(c, log, e, b, w);
    hide Count, LifeOf, FirstAt, Admitted;
  }

  lemma OverlapGrows(c: Config, log: seq<Entry>, e: Entry, b: Bucket, w: nat)
    requires LivesOverlap(c, log, b, w)
    requires e.count == NextLife(c, LifeOf(c, log, e.bucket, e.window), e).count
    requires e.admitted <==> e.count <= c.limit(e.bucket)
    ensures LivesOverlap(c, log + [e], b, w)
  {
    LogGrows(c, log, e, b, w);
    hide Count, LifeOf, FirstAt, Admitted;
  }

  /** The window limit, exactly: in every run a window admits no more than its limit if and only if its requests
      are timely, or no more than the limit altogether, or the limit is zero. */
  lemma WindowLimitIffTimely(c: Config, events: seq<Event>, b: Bucket, w: nat)
    ensures var log := Exec(c, events).log;
            Admitted(log, b, w) <= c.limit(b)
            <==> Timely(c, log, b, w) || Count(log, b, w) <= c.limit(b) || c.limit(b) == 0
  {
    hide Exec, Lawful, Timely, LifeOf, Count, FirstAt, Admitted, KeyIsLife;
    var log := Exec(c, events).log;
    RunKeeps(c, events);
    if Timely(c, log, b, w) { TimelyIsOneLife(c, log, b, w); } else { UntimelyOverlaps(c, log, b, w); }
  }

  /** Timely or not, a window admits at most its limit in each life of its counter. */
  lemma {:induction false} LivesLimit(c: Config, log: seq<Entry>, b: Bucket, w: nat)
    requires Lawful(c, log)
    ensures WithinLives(c, log, b, w)
  {
    if log != [] {
      var init, e := log[..|log| - 1], log[|log| - 1];
      assert log == init + [e];
      LastCounts(c, log);
      LogGrows(c, init, e, b, w);
      hide Lawful, Count, LifeOf, FirstAt, Lives, Admitted, Allowance;
      LivesLimit(c, init, b, w);
      if LifeOf(c, init, b, w).Some? {
        AllowanceGrows(c.limit(b), Lives(c, init, b, w), LifeOf(c, init, b, w).value.count);
      }
      FirstAllowance(c.limit(b));
    }
  }

  /** All of `lives` lives but the last full, and `count` requests of the last. */
  function Allowance(limit: nat, lives: nat, count: nat): int {
    limit * (lives - 1) + if count <= limit then count else limit
  }

  lemma AllowanceGrows(limit: nat, lives: nat, count: nat)
    requires lives > 0
    ensures Allowance(limit, lives, count + 1) == Allowance(limit, lives, count) + if count < limit then 1 else 0
    ensures Allowance(limit, lives + 1, 1) >= Allowance(limit, lives, count) + if limit >= 1 then 1 else 0
    ensures Allowance(limit, lives, count) <= limit * lives
  {
    OneMore(limit, lives - 1);
  }

  lemma FirstAllowance(limit: nat)
    ensures Allowance(limit, 1, 1) == if limit >= 1 then 1 else 0
  {
  }

  lemma OneMore(n: nat, k: int)
    ensures n * (k + 1) == n * k + n
  {
  }

  /** A life under way has admitted its count, up to the limit, and each life before at most the limit. */
  ghost predicate WithinLives(c: Config, log: seq<Entry>, b: Bucket, w: nat) {
    var lives := Lives(c, log, b, w);
    match LifeOf(c, log, b, w)
    case None => lives == 0 && Admitted(log, b, w) == 0
    case Some(life) => lives > 0 && life.count >= 1 && Admitted(log, b, w) <= Allowance(c.limit(b), lives, life.count)
  }

  /** In every run, a window admits at most its limit per life. */
  lemma RunLimit(c: Config, events: seq<Event>, b: Bucket, w: nat)
    ensures var log := Exec(c, events).log; Admitted(log, b, w) <= c.limit(b) * Lives(c, log, b, w)
  {
    hide Exec, Lawful, KeyIsLife, LifeOf, Lives, Admitted, Allowance;
    RunKeeps(c, events);
    LivesLimit(c, Exec(c, events).log, b, w);
    var life := LifeOf(c, Exec(c, events).log, b, w);
    if life.Some? { AllowanceGrows(c.limit(b), Lives(c, Exec(c, events).log, b, w), life.value.count); }
  }

  /** A request the store runs inside its own window is always timely. */
  lemma PromptIsTimely(c: Config, log: seq<Entry>, i: nat)
    requires Lawful(c, log) && i < |log| && Prompt(c, log[i])
    ensures Timely(c, log[..i + 1], log[i].bucket, log[i].window)
  {
    hide Window, Opens, LifeOf, NextLife, Timely, Lawful;
    var b, w, upto := log[i].bucket, log[i].window, log[..i + 1];
    NotAfterWindow(log[i].at, c.window(b), w);
    LawfulBefore(c, log, i + 1);
    InOrder(c, upto);
    assert upto[i] == log[i];
    OwnWindowIsTimely(c, upto, b, w);
  }

  lemma OwnWindowIsTimely(c: Config, log: seq<Entry>, b: Bucket, w: nat)
    requires Lawful(c, log)
    requires forall i :: 0 <= i < |log| && For(log[i], b, w) ==> log[i].at < Opens(c.window(b), w + 1)
    ensures Timely(c, log, b, w)
  {
    hide Window, Opens, LifeOf, NextLife, FirstAt, Count;
    FirstOccurs(log, b, w);
    if Count(log, b, w) > 0 {
      var k: nat :| k < |log| && For(log[k], b, w) && log[k].at == FirstAt(log, b, w);
      NotBeforeWindow(log[k].at, c.window(b), w);
      OpensNext(c.window(b), w);
    }
  }

  // ---- any stretch of time ---------------------------------------------------------------------------------

  predicate Ran(e: Entry, b: Bucket, from: nat, to: nat) { e.bucket == b && from <= e.at < to }

  /** All requests of a bucket let through in an interval of time, whatever window they were stamped for. */
  function AdmittedDuring(log: seq<Entry>, b: Bucket, from: nat, to: nat): nat {
    if log == [] then 0
    else AdmittedDuring(log[..|log| - 1], b, from, to)
         + if Ran(log[|log| - 1], b, from, to) && log[|log| - 1].admitted then 1 else 0
  }

  /** The windows the requests of an interval were stamped for. */
  function WindowsDuring(log: seq<Entry>, b: Bucket, from: nat, to: nat): set<nat> {
    set i | 0 <= i < |log| && Ran(log[i], b, from, to) :: log[i].window
  }

  function Total(log: seq<Entry>, b: Bucket, windows: seq<nat>): nat {
    if windows == [] then 0 else Admitted(log, b, windows[0]) + Total(log, b, windows[1..])
  }

  lemma {:induction false} TotalMore(log: seq<Entry>, b: Bucket, windows: seq<nat>)
    requires log != [] && forall i, j :: 0 <= i < j < |windows| ==> windows[i] != windows[j]
    ensures var init, e := log[..|log| - 1], log[|log| - 1];
            Total(log, b, windows) == Total(init, b, windows)
              + if e.bucket == b && e.admitted && e.window in windows then 1 else 0
  {
    if windows != [] { TotalMore(log, b, windows[1..]); }
  }

  lemma {:induction false} DuringWithinTotal(log: seq<Entry>, b: Bucket, from: nat, to: nat, windows: seq<nat>)
    requires forall i, j :: 0 <= i < j < |windows| ==> windows[i] != windows[j]
    requires forall i :: 0 <= i < |log| && Ran(log[i], b, from, to) ==> log[i].window in windows
    ensures AdmittedDuring(log, b, from, to) <= Total(log, b, windows)
  {
    if log != [] {
      var init := log[..|log| - 1];
      assert forall i :: 0 <= i < |init| ==> init[i] == log[i];
      DuringWithinTotal(init, b, from, to, windows);
      TotalMore(log, b, windows);
    }
  }

  lemma {:induction false} TotalLimit(c: Config, log: seq<Entry>, b: Bucket, windows: seq<nat>)
    requires Lawful(c, log) && forall w :: w in windows ==> Timely(c, log, b, w)
    ensures Total(log, b, windows) <= c.limit(b) * |windows|
  {
    if windows != [] {
      hide Lawful, Timely, LifeOf, Count, FirstAt, Admitted;
      assert windows[0] in windows;
      TimelyIsOneLife(c, log, b, windows[0]);
      TotalLimit(c, log, b, windows[1..]);
      OneMore(c.limit(b), |windows[1..]|);
    }
  }

  lemma {:induction false} Enumerate(s: set<nat>) returns (r: seq<nat>)
    ensures |r| == |s| && (forall i, j :: 0 <= i < j < |r| ==> r[i] != r[j]) && (forall x :: x in r <==> x in s)
    decreases s
  {
    if s == {} {
      r := [];
    } else {
      var x :| x in s;
      var rest := Enumerate(s - {x});
      r := [x] + rest;
    }
  }

  /** Any stretch of time admits at most the limit per window its requests were stamped for, while those
      windows are timely. */
  lemma IntervalLimit(c: Config, events: seq<Event>, b: Bucket, from: nat, to: nat)
    requires forall w :: w in WindowsDuring(Exec(c, events).log, b, from, to) ==> Timely(c, Exec(c, events).log, b, w)
    ensures var log := Exec(c, events).log;
            AdmittedDuring(log, b, from, to) <= c.limit(b) * |WindowsDuring(log, b, from, to)|
  {
    var log := Exec(c, events).log;
    RunKeeps(c, events);
    hide Lawful, Timely;
    var windows := Enumerate(WindowsDuring(log, b, from, to));
    DuringWithinTotal(log, b, from, to, windows);
    TotalLimit(c, log, b, windows);
  }

  /** When every request of the interval ran inside its own window, an interval as long as a window, wherever
      it starts, admits at most twice the limit, even if other requests of those windows come late. */
  lemma PromptIntervalLimit(c: Config, events: seq<Event>, b: Bucket, from: nat)
    requires forall e :: e in Exec(c, events).log && Ran(e, b, from, from + Length(c, b)) ==> Prompt(c, e)
    ensures AdmittedDuring(Exec(c, events).log, b, from, from + Length(c, b)) <= 2 * c.limit(b)
  {
    hide Window, LifeOf, NextLife, FirstAt, Count, Exec, Lawful, Prompt;
    var log, to := Exec(c, events).log, from + Length(c, b);
    RunKeeps(c, events);
    assert forall i, j :: 0 <= i < j < |log| ==> log[i].at <= log[j].at by { InOrder(c, log); }
    var n := EndOf(log, to);
    var upto := log[..n];
    LawfulBefore(c, log, n);
    NoneAfter(log, b, from, to, n);
    assert forall i :: 0 <= i < n ==> upto[i] == log[i] && log[i] in log;
    PromptWindows(c, upto, b, from);
  }

  lemma InOrder(c: Config, log: seq<Entry>)
    requires Lawful(c, log)
    ensures forall i, j :: 0 <= i < j < |log| ==> log[i].at <= log[j].at
  {
  }

  lemma PromptWindows(c: Config, log: seq<Entry>, b: Bucket, from: nat)
    requires Lawful(c, log) && forall i :: 0 <= i < |log| ==> log[i].at < from + Length(c, b)
    requires forall i :: 0 <= i < |log| && Ran(log[i], b, from, from + Length(c, b)) ==> Prompt(c, log[i])
    ensures AdmittedDuring(log, b, from, from + Length(c, b)) <= 2 * c.limit(b)
  {
    hide Window, LifeOf, NextLife, FirstAt, Count, Lawful, Timely, AdmittedDuring;
    var v := Window(from, c.window(b));
    forall i | 0 <= i < |log| && Ran(log[i], b, from, from + Length(c, b)) ensures log[i].window in [v, v + 1] {
      assert Prompt(c, log[i]);
      WindowMonotone(from, log[i].at, c.window(b));
    }
    OwnWindows(c, log, b, from, v);
    OwnWindows(c, log, b, from, v + 1);
    DuringWithinTotal(log, b, from, from + Length(c, b), [v, v + 1]);
    TotalLimit(c, log, b, [v, v + 1]);
  }

  /** Requests at or past the end of an interval do not count in it. */
  lemma {:induction false} NoneAfter(log: seq<Entry>, b: Bucket, from: nat, to: nat, n: nat)
    requires n <= |log| && forall i :: n <= i < |log| ==> log[i].at >= to
    ensures AdmittedDuring(log[..n], b, from, to) == AdmittedDuring(log, b, from, to)
    decreases |log|
  {
    if n < |log| {
      NoneAfter(log[..|log| - 1], b, from, to, n);
      assert log[..|log| - 1][..n] == log[..n];
    } else {
      assert log[..n] == log;
    }
  }

  /** In a log that ends with the interval, whose requests are prompt, both windows it meets are timely. */
  lemma OwnWindows(c: Config, log: seq<Entry>, b: Bucket, from: nat, w: nat)
    requires Lawful(c, log) && forall i :: 0 <= i < |log| ==> log[i].at < from + Length(c, b)
    requires forall i :: 0 <= i < |log| && Ran(log[i], b, from, from + Length(c, b)) ==> Prompt(c, log[i])
    requires Window(from, c.window(b)) <= w
    ensures Timely(c, log, b, w)
  {
    hide Window, Opens, LifeOf, NextLife, FirstAt, Count;
    var seconds := c.window(b);
    forall i | 0 <= i < |log| && For(log[i], b, w) ensures log[i].at < Opens(seconds, w + 1) {
      if log[i].at < from {
        NotAfterWindow(from, seconds, w);
      } else {
        assert Prompt(c, log[i]);
        NotAfterWindow(log[i].at, seconds, w);
      }
    }
    OwnWindowIsTimely(c, log, b, w);
  }

  /** The requests before a time are a prefix of a lawful log. */
  lemma {:induction false} EndOf(log: seq<Entry>, to: nat) returns (n: nat)
    requires forall i, j :: 0 <= i < j < |log| ==> log[i].at <= log[j].at
    ensures n <= |log| && (forall i :: 0 <= i < n ==> log[i].at < to) && (forall i :: n <= i < |log| ==> log[i].at >= to)
  {
    if log == [] || log[|log| - 1].at < to {
      n := |log|;
    } else {
      n := EndOf(log[..|log| - 1], to);
    }
  }

  // ---- late requests do exceed the limits ------------------------------------------------------------------

  lemma ExecMore(c: Config, events: seq<Event>, e: Event)
    ensures Exec(c, events + [e]) == Step(c, Exec(c, events), e)
  {
    assert (events + [e])[..|events|] == events;
  }

  /** The same request, `n` times at once. */
  function Burst(b: Bucket, stamp: nat, n: nat): seq<Event> {
    if n == 0 then [] else Burst(b, stamp, n - 1) + [Request(b, stamp)]
  }

  /** A burst within the limit on a window not seen before is admitted whole. */
  lemma {:induction false} BurstAdmits(c: Config, events: seq<Event>, b: Bucket, stamp: nat, n: nat)
    requires var s := Exec(c, events);
             stamp <= s.now && LifeOf(c, s.log, b, Window(stamp, c.window(b))).None? && n <= c.limit(b)
    ensures var s, t, w := Exec(c, events), Exec(c, events + Burst(b, stamp, n)), Window(stamp, c.window(b));
            && t.now == s.now
            && LifeOf(c, t.log, b, w) == (if n == 0 then None else Some(Life(s.now, n)))
            && Admitted(t.log, b, w) == Admitted(s.log, b, w) + n
            && (forall v: nat :: v != w ==> LifeOf(c, t.log, b, v) == LifeOf(c, s.log, b, v))
            && (forall from: nat, to: nat :: from <= s.now < to ==>
                  AdmittedDuring(t.log, b, from, to) == AdmittedDuring(s.log, b, from, to) + n)
  {
    hide Window, LifeOf, Admitted, AdmittedDuring, Exec, Step, Lawful;
    if n == 0 {
      assert events + Burst(b, stamp, 0) == events;
    } else {
      var before := events + Burst(b, stamp, n - 1);
      BurstAdmits(c, events, b, stamp, n - 1);
      assert events + Burst(b, stamp, n) == before + [Request(b, stamp)];
      ExecMore(c, before, Request(b, stamp));
      RunKeeps(c, before);
      RequestCounts(c, Exec(c, before), b, stamp);
    }
  }

  /** What one request adds to the log. */
  lemma RequestCounts(c: Config, s: State, b: Bucket, stamp: nat)
    requires Inv(c, s) && stamp <= s.now
    ensures var t, w, e := Step(c, s, Request(b, stamp)), Window(stamp, c.window(b)), Logged(c, s, b, stamp);
            var life := NextLife(c, LifeOf(c, s.log, b, w), e);
            && t.now == s.now == e.at && For(e, b, w)
            && (e.admitted <==> life.count <= c.limit(b))
            && LifeOf(c, t.log, b, w) == Some(life)
            && (forall v: nat :: v != w ==> LifeOf(c, t.log, b, v) == LifeOf(c, s.log, b, v))
            && Admitted(t.log, b, w) == Admitted(s.log, b, w) + (if e.admitted then 1 else 0)
            && (forall from: nat, to: nat :: from <= s.now < to ==>
                  AdmittedDuring(t.log, b, from, to) == AdmittedDuring(s.log, b, from, to) + if e.admitted then 1 else 0)
  {
    var t, w, e := Step(c, s, Request(b, stamp)), Window(stamp, c.window(b)), Logged(c, s, b, stamp);
    assert KeyIsLife(c, s, b, w);
    RequestLogs(c, s, b, stamp);
    hide Window, NextLife, Step, Logged, Lawful;
    assert t.log[..|s.log|] == s.log;
    forall v: nat | v != w ensures LifeOf(c, t.log, b, v) == LifeOf(c, s.log, b, v) { LogGrows(c, s.log, e, b, v); }
  }

  lemma TickRuns(c: Config, events: seq<Event>, ms: nat)
    ensures Exec(c, events + [Tick(ms)]) == Exec(c, events).(now := Exec(c, events).now + ms)
  {
    ExecMore(c, events, Tick(ms));
  }

  /** Whatever the limit, a request stamped at the end of a window but run when the window's first requests have
      expired is let through as well: one more than the limit is admitted for one window. */
  lemma LateRequestExceedsLimit(c: Config, b: Bucket)
    requires c.limit(b) > 0
    ensures var length := Length(c, b);
            var events := [] + Burst(b, 0, c.limit(b)) + [Tick(length)] + [Request(b, length - 1)];
            Admitted(Exec(c, events).log, b, 0) == c.limit(b) + 1
  {
    var length, n := Length(c, b), c.limit(b);
    FirstWindows(c.window(b));
    StartsEmpty(c, b);
    hide Window, Opens, LifeOf, Admitted, AdmittedDuring, Exec, Step, Lawful, Burst;
    var e1 := [] + Burst(b, 0, n);
    var e2 := e1 + [Tick(length)];
    BurstAdmits(c, [], b, 0, n);
    TickRuns(c, e1, length);
    ExecMore(c, e2, Request(b, length - 1));
    RunKeeps(c, e2);
    RequestCounts(c, Exec(c, e2), b, length - 1);
  }

  /** Whatever the limit, requests that each run in time for their window's counter can still crowd three
      windows into one stretch as long as a window, and admit three times the limit. */
  lemma LateRequestsCrowd(c: Config, b: Bucket)
    ensures var length, n := Length(c, b), c.limit(b);
            var events := [] + [Tick(length + 500)] + Burst(b, length - 1, n) + Burst(b, length + 500, n)
                          + [Tick(length - 500)] + Burst(b, 2 * length, n);
            AdmittedDuring(Exec(c, events).log, b, length + 500, length + 500 + length) == 3 * n
  {
    hide Window, Opens, LifeOf, Admitted, AdmittedDuring, Exec, Step, Burst;
    var length, n := Length(c, b), c.limit(b);
    var from := length + 500;
    var events := [] + [Tick(from)] + Burst(b, length - 1, n) + Burst(b, from, n);
    CrowdWindows(c.window(b));
    TwoWindowsCrowd(c, b);
    TickRuns(c, events, length - 500);
    BurstAdmits(c, events + [Tick(length - 500)], b, 2 * length, n);
  }

  lemma TwoWindowsCrowd(c: Config, b: Bucket)
    ensures var length, n := Length(c, b), c.limit(b);
            var s := Exec(c, [] + [Tick(length + 500)] + Burst(b, length - 1, n) + Burst(b, length + 500, n));
            && s.now == length + 500 && LifeOf(c, s.log, b, 2).None?
            && AdmittedDuring(s.log, b, length + 500, length + 500 + length) == 2 * n
  {
    hide Window, Opens, LifeOf, Admitted, AdmittedDuring, Exec, Step, Burst;
    var length, n := Length(c, b), c.limit(b);
    var from := length + 500;
    CrowdWindows(c.window(b));
    StartsEmpty(c, b);
    TickRuns(c, [], from);
    BurstAdmits(c, [] + [Tick(from)], b, length - 1, n);
    BurstAdmits(c, [] + [Tick(from)] + Burst(b, length - 1, n), b, from, n);
  }

  lemma StartsEmpty(c: Config, b: Bucket)
    ensures Exec(c, []) == Start
    ensures forall w: nat :: LifeOf(c, Start.log, b, w).None?
    ensures forall w: nat :: Admitted(Start.log, b, w) == 0
    ensures forall from: nat, to: nat :: AdmittedDuring(Start.log, b, from, to) == 0
  {
  }

  lemma FirstWindows(seconds: Seconds)
    ensures Window(0, seconds) == 0 && Window(1000 * seconds - 1, seconds) == 0 && Window(1000 * seconds, seconds) == 1
  {
  }

  lemma CrowdWindows(seconds: Seconds)
    ensures Window(1000 * seconds - 1, seconds) == 0 && Window(1000 * seconds + 500, seconds) == 1
            && Window(2000 * seconds, seconds) == 2
  {
  }

  // ---- the handler ---------------------------------------------------------------------------------------

  /** How the store answered `exec()`. */
  datatype Fate = Executed | Aborted | Unreachable

  datatype Headers = Headers(limit: nat, remaining: nat, reset: nat, retryAfter: Option<nat>)

  datatype RateLimitResult = RateLimitResult(limited: bool, retryAfter: nat, remaining: nat)

  class Redis {
    var counters: Store

    constructor () ensures counters == map[] { counters := map[]; }

    /** INCR, EXPIRE NX, TTL. None is a thrown error. */
    method Take(key: Key, limit: nat, seconds: Seconds, now: nat, fate: Fate) returns (r: Option<(nat, nat)>)
      modifies this
      ensures counters == if fate == Executed then Taken(old(counters), key, seconds, now) else old(counters)
      ensures fate == Unreachable <==> r.None?
      ensures fate == Aborted ==> r == Some((limit + 1, seconds))
      ensures fate == Executed ==>
                key in counters && r == Some((counters[key].value, Max(Ttl(counters, key, now), 1)))
    {
      if fate == Unreachable { return None; }
      if fate == Aborted { return Some((limit + 1, seconds)); }
      counters := Incr(counters, key, now);
      var count := counters[key].value;
      counters := ExpireNx(counters, key, seconds, now);
      r := Some((count, Max(Ttl(counters, key, now), 1)));
    }

    /** The limit is consumed and its headers set; an unreachable store admits and sets none. */
    method EnforceLimit(bucket: Bucket, limit: nat, seconds: Seconds, stamp: nat, now: nat, fate: Fate)
      returns (r: RateLimitResult, headers: Option<Headers>)
      requires stamp <= now
      modifies this
      ensures var key := Key(bucket, Window(stamp, seconds));
              && counters == (if fate == Executed then Taken(old(counters), key, seconds, now) else old(counters))
              && (fate == Executed ==>
                    && key in counters
                    && (r.limited <==> counters[key].value > limit)
                    && r.remaining == Max(limit - counters[key].value, 0)
                    && r.retryAfter == Max(Ttl(counters, key, now), 1))
              && (fate == Aborted ==> r == RateLimitResult(true, seconds, 0))
      ensures fate == Unreachable <==> headers.None?
      ensures fate == Unreachable ==> r == RateLimitResult(false, 0, 0)
      ensures headers.Some? ==>
                headers == Some(Headers(limit, r.remaining, now / 1000 + r.retryAfter,
                                        if r.limited then Some(r.retryAfter) else None))
    {
      var taken := Take(Key(bucket, Window(stamp, seconds)), limit, seconds, now, fate);
      if taken.None? {
        return RateLimitResult(false, 0, 0), None;
      }
      var (count, ttl) := taken.value;
      var limited := count > limit;
      var remaining := Max(limit - count, 0);
      headers := Some(Headers(limit, remaining, now / 1000 + ttl, if limited then Some(ttl) else None));
      r := RateLimitResult(limited, ttl, remaining);
    }
  }

  /** After a request the advertised wait is one to `seconds` seconds, and it ends no more than half a second
      before the window does. */
  lemma RetryAfterReachesWindowEnd(c: Config, s: State, b: Bucket)
    requires Inv(c, s)
    requires Count(s.log, b, Window(s.now, c.window(b))) > 0
    ensures var seconds := c.window(b);
            var w := Window(s.now, seconds);
            var wait := Max(Ttl(s.store, Key(b, w), s.now), 1);
            && 1 <= wait <= seconds && s.now + 1000 * wait + 500 > Opens(seconds, w + 1)
            && Key(b, w) in s.store && s.store[Key(b, w)].expiresAt.Some?
            && (wait > 1 ==> s.now + 1000 * wait <= s.store[Key(b, w)].expiresAt.value + 500)
  {
    hide Window, Opens, Count, LifeOf, Lawful;
    var seconds := c.window(b);
    var w := Window(s.now, seconds);
    assert KeyIsLife(c, s, b, w);
    CurrentLife(c, s.log, b, s.now);
    NotAfterWindow(s.now, seconds, w);
    var left := s.store[Key(b, w)].expiresAt.value - s.now;
    assert left > 0 && 1000 * ((left + 500) / 1000) > left - 500;
  }

  /** The current window's counter lives past the window's end. */
  lemma CurrentLife(c: Config, log: seq<Entry>, b: Bucket, now: nat)
    requires Lawful(c, log) && (forall e :: e in log ==> e.at <= now)
    requires Count(log, b, Window(now, c.window(b))) > 0
    ensures var w := Window(now, c.window(b));
            LifeOf(c, log, b, w).Some?
            && Opens(c.window(b), w + 1) <= LifeOf(c, log, b, w).value.start + Length(c, b) <= now + Length(c, b)
  {
    hide Window, Opens, LifeOf, NextLife, FirstAt, Count;
    var seconds := c.window(b);
    var w := Window(now, seconds);
    NotAfterWindow(now, seconds, w);
    assert forall i :: 0 <= i < |log| ==> log[i] in log;
    OwnWindowIsTimely(c, log, b, w);
    TimelyIsOneLife(c, log, b, w);
    FirstOccurs(log, b, w);
    var k: nat :| k < |log| && For(log[k], b, w) && log[k].at == FirstAt(log, b, w);
    NotBeforeWindow(log[k].at, seconds, w);
    OpensNext(seconds, w);
  }
}
