/**
 * The trace sandbox's scheduler (apps/trace-service/src/server/execute/sandbox.ts) as a transition
 * system: one state, one `Step` per event, and every theorem stated over every sequence of events.
 *
 * Worker threads, promises, timers and the wall clock are the environment.  A worker is the ordinal
 * of its spawn; a promise is its ticket, the ordinal of the `run` call that returned it; a timer is
 * the id of the task it guards; and each `Date.now()` takes the next reading of an arbitrary clock,
 * which need not be monotonic.  Events may arrive in any order and name any worker, task id or timer.
 */
module SandboxSpec {
  import opened Optional

  datatype SandboxTask =
    | Unary(functionName: string, input: string, preferredType: Option<string>)
    | Binary(expression: string)

  datatype Error =
    | SandboxClosed
    | SandboxBusy(queueDepth: nat)
    | BudgetExceeded(budgetMs: int)
    | Thrown(message: string)

  datatype Outcome = Resolved(value: string) | Rejected(error: Error)

  datatype Result = Ok(value: string) | Err(error: string)

  /** A queued call; its resolve/reject pair is the promise named by `ticket`. */
  datatype Pending = Pending(task: SandboxTask, ticket: nat, deadlineAt: int)

  datatype InFlight = InFlight(pending: Pending, id: nat)

  datatype Settlement = Settlement(ticket: nat, outcome: Outcome)

  /** How a task left the queue. */
  datatype Exit =
    | Posted(pending: Pending, worker: nat, id: nat, at: int, delay: int)
    | Expired(pending: Pending, at: int)
    | Dropped(pending: Pending)

  datatype State = State(
    // fields of the class
    budgetMs: int,
    maxQueueDepth: nat,
    worker: Option<nat>,
    ready: bool,
    queue: seq<Pending>,
    inFlight: Option<InFlight>,
    nextId: nat,
    closed: bool,
    // environment
    readings: nat,            // clock readings taken
    spawned: nat,             // workers started
    terminated: set<nat>,     // workers told to terminate
    timers: map<nat, int>,    // armed timers: task id -> due time
    issued: nat,              // promises returned by run
    accepted: seq<Pending>,   // every task ever queued, in order
    exits: seq<Exit>,         // every task that left the queue, in order
    settled: seq<Settlement>  // every resolve/reject call, in order
  )

  datatype Event =
    | Warm
    | Run(task: SandboxTask)
    | Ready(worker: nat)
    | Reply(worker: nat, id: nat, result: Result)
    | Failure(worker: nat, error: string)
    | Timer(id: nat)
    | Close

  function Initial(budgetMs: int, maxQueueDepth: nat): State {
    State(budgetMs, maxQueueDepth, None, false, [], None, 1, false, 0, 0, {}, map[], 0, [], [], [])
  }

  // ---- handlers ----------------------------------------------------------------------------

  function Settle(s: State, ticket: nat, outcome: Outcome): State {
    s.(settled := s.settled + [Settlement(ticket, outcome)])
  }

  function EnsureWorker(s: State): State {
    if s.worker.Some? then s
    else s.(worker := Some(s.spawned), spawned := s.spawned + 1, ready := false)
  }

  function RecycleWorker(s: State): State {
    s.(worker := None, ready := false,
       terminated := if s.worker.Some? then s.terminated + {s.worker.value} else s.terminated)
  }

  /** Rejects everything queued, oldest first. */
  function RejectQueue(s: State, error: Error): State {
    s.(queue := [],
       exits := s.exits + Drops(s.queue),
       settled := s.settled + Rejections(s.queue, error))
  }

  function Drops(queue: seq<Pending>): (r: seq<Exit>)
    ensures |r| == |queue|
  {
    seq(|queue|, i requires 0 <= i < |queue| => Dropped(queue[i]))
  }

  function Rejections(queue: seq<Pending>, error: Error): (r: seq<Settlement>)
    ensures |r| == |queue|
  {
    seq(|queue|, i requires 0 <= i < |queue| => Settlement(queue[i].ticket, Rejected(error)))
  }

  /** Takes the task out of flight and disarms its timer. */
  function ClearInFlight(s: State): State
    requires s.inFlight.Some?
  {
    s.(inFlight := None, timers := s.timers - {s.inFlight.value.id})
  }

  function Pump(clock: nat -> int, s: State): State
    decreases |s.queue|
  {
    if s.inFlight.Some? || s.queue == [] then s
    else
      var s := EnsureWorker(s);
      if !s.ready then s
      else Dispatch(clock, s)
  }

  /** The ready half of the pump: expire heads until one still has time, and post that one. */
  function Dispatch(clock: nat -> int, s: State): State
    requires s.inFlight.None? && s.queue != [] && s.worker.Some? && s.ready
    decreases |s.queue|, 0
  {
    var now := clock(s.readings);
    var s := s.(readings := s.readings + 1);
    if s.queue[0].deadlineAt - now <= 0 then Pump(clock, Expire(s, now)) else Post(s, now)
  }

  function Expire(s: State, now: int): State
    requires s.queue != []
  {
    Settle(s.(queue := s.queue[1..], exits := s.exits + [Expired(s.queue[0], now)]),
           s.queue[0].ticket, Rejected(BudgetExceeded(s.budgetMs)))
  }

  function Post(s: State, now: int): State
    requires s.queue != [] && s.worker.Some?
  {
    var head := s.queue[0];
    s.(queue := s.queue[1..],
       nextId := s.nextId + 1,
       inFlight := Some(InFlight(head, s.nextId)),
       timers := s.timers[s.nextId := head.deadlineAt],
       exits := s.exits + [Posted(head, s.worker.value, s.nextId, now, head.deadlineAt - now)])
  }

  function OnRun(clock: nat -> int, s: State, task: SandboxTask): State {
    var ticket := s.issued;
    var s := s.(issued := ticket + 1);
    if s.closed then Settle(s, ticket, Rejected(SandboxClosed))
    else if |s.queue| - (if s.inFlight.Some? then 0 else 1) >= s.maxQueueDepth then
      Settle(s, ticket, Rejected(SandboxBusy(|s.queue|)))
    else
      var pending := Pending(task, ticket, clock(s.readings) + s.budgetMs);
      Pump(clock, s.(readings := s.readings + 1,
                     queue := s.queue + [pending],
                     accepted := s.accepted + [pending]))
  }

  function OnReply(clock: nat -> int, s: State, id: nat, result: Result): State {
    if s.inFlight.None? || s.inFlight.value.id != id then s
    else
      var outcome := match result case Ok(v) => Resolved(v) case Err(e) => Rejected(Thrown(e));
      Pump(clock, Settle(ClearInFlight(s), s.inFlight.value.pending.ticket, outcome))
  }

  function OnFailure(clock: nat -> int, s: State, error: string): State {
    var s1 := if s.inFlight.None? then s
              else Settle(ClearInFlight(s), s.inFlight.value.pending.ticket, Rejected(Thrown(error)));
    var s2 := if s1.ready then s1 else RejectQueue(s1, Thrown(error));
    Pump(clock, RecycleWorker(s2))
  }

  function OnTimer(clock: nat -> int, s: State, id: nat): State {
    if s.inFlight.None? || s.inFlight.value.id != id then s
    else
      Pump(clock, RecycleWorker(
        Settle(ClearInFlight(s), s.inFlight.value.pending.ticket, Rejected(BudgetExceeded(s.budgetMs)))))
  }

  function OnClose(s: State): State {
    var s1 := RejectQueue(s.(closed := true), SandboxClosed);
    var s2 := if s1.inFlight.None? then s1
              else Settle(ClearInFlight(s1), s1.inFlight.value.pending.ticket, Rejected(SandboxClosed));
    RecycleWorker(s2)
  }

  /** One event.  Events naming a worker other than the current one are ignored. */
  function Step(clock: nat -> int, s: State, e: Event): State {
    match e
    case Warm => if s.closed then s else EnsureWorker(s)
    case Run(task) => OnRun(clock, s, task)
    case Ready(w) => if s.worker != Some(w) then s else Pump(clock, s.(ready := true))
    case Reply(w, id, result) => if s.worker != Some(w) then s else OnReply(clock, s, id, result)
    case Failure(w, error) => if s.worker != Some(w) then s else OnFailure(clock, s, error)
    case Timer(id) => OnTimer(clock, s, id)
    case Close => OnClose(s)
  }

  function Exec(clock: nat -> int, s: State, es: seq<Event>): State {
    if es == [] then s else Step(clock, Exec(clock, s, es[..|es| - 1]), es[|es| - 1])
  }

  // ---- invariant ---------------------------------------------------------------------------

  function Unsettled(s: State): nat {
    |s.queue| + if s.inFlight.Some? then 1 else 0
  }

  function Pendings(exits: seq<Exit>): (r: seq<Pending>)
    ensures |r| == |exits|
  {
    seq(|exits|, i requires 0 <= i < |exits| => exits[i].pending)
  }

  function QueuedTickets(queue: seq<Pending>): (r: seq<nat>)
    ensures |r| == |queue|
  {
    seq(|queue|, i requires 0 <= i < |queue| => queue[i].ticket)
  }

  function SettledTickets(settled: seq<Settlement>): (r: seq<nat>)
    ensures |r| == |settled|
  {
    seq(|settled|, i requires 0 <= i < |settled| => settled[i].ticket)
  }

  function FlyingTickets(f: Option<InFlight>): multiset<nat> {
    if f.Some? then multiset{f.value.pending.ticket} else multiset{}
  }

  /** Where every promise is: settled, queued or in flight, counted with multiplicity. */
  function Whereabouts(s: State): multiset<nat> {
    multiset(SettledTickets(s.settled)) + multiset(QueuedTickets(s.queue)) + FlyingTickets(s.inFlight)
  }

  function FirstNats(n: nat): (r: seq<nat>)
    ensures |r| == n
  {
    seq(n, i => i)
  }

  /** The pump has nothing left to do: waiting tasks wait for a task in flight or a worker still booting. */
  ghost predicate NoLostWakeup(s: State) {
    s.queue != [] ==> s.inFlight.Some? || (s.worker.Some? && !s.ready)
  }

  /** A task in flight is the last one posted, to the worker that is current, live and ready. */
  ghost predicate HeldByWorker(s: State) {
    s.inFlight.Some? ==>
      && s.ready
      && exists i ::
        && 0 <= i < |s.exits| && s.exits[i].Posted?
        && s.exits[i].pending == s.inFlight.value.pending
        && s.exits[i].id == s.inFlight.value.id
        && s.worker == Some(s.exits[i].worker)
  }

  /** Every spawned worker but the current one has been terminated, and only those. */
  ghost predicate OneLiveWorker(s: State) {
    && (forall w :: w in s.terminated <==> 0 <= w < s.spawned && s.worker != Some(w))
    && (s.worker.Some? ==> s.worker.value < s.spawned)
    && (s.worker.None? ==> !s.ready)
  }

  /** Exactly one timer runs, for the task in flight, due at the deadline set when it was queued. */
  ghost predicate TimerGuards(s: State) {
    s.timers == if s.inFlight.Some? then map[s.inFlight.value.id := s.inFlight.value.pending.deadlineAt] else map[]
  }

  /** A task is posted with time left and expires without. */
  ghost predicate Punctual(s: State, x: Exit) {
    && (x.Posted? ==> x.delay > 0 && x.at + x.delay == x.pending.deadlineAt && x.id < s.nextId && x.worker < s.spawned)
    && (x.Expired? ==> x.pending.deadlineAt <= x.at)
  }

  /** Tasks leave in the order they were accepted, and every task id is used once. */
  ghost predicate Fifo(s: State) {
    && s.accepted == Pendings(s.exits) + s.queue
    && (forall i, j :: 0 <= i < j < |s.accepted| ==> s.accepted[i].ticket < s.accepted[j].ticket)
    && (forall i :: 0 <= i < |s.accepted| ==> s.accepted[i].ticket < s.issued)
    && (forall i, j :: 0 <= i < j < |s.exits| && s.exits[i].Posted? && s.exits[j].Posted? ==> s.exits[i].id < s.exits[j].id)
    && (forall i :: 0 <= i < |s.exits| ==> Punctual(s, s.exits[i]))
  }

  /** No promise is lost and none is settled twice. */
  ghost predicate Conserved(s: State) {
    Whereabouts(s) == multiset(FirstNats(s.issued))
  }

  ghost predicate Quiet(s: State) {
    s.closed ==> s.worker.None? && s.queue == [] && s.inFlight.None?
  }

  /** What holds between handlers except that the pump may still owe work. */
  ghost predicate Core(s: State) {
    && HeldByWorker(s)
    && OneLiveWorker(s)
    && TimerGuards(s)
    && Fifo(s)
    && Conserved(s)
    && Quiet(s)
    && Unsettled(s) <= s.maxQueueDepth + 1
  }

  ghost predicate Inv(s: State) {
    Core(s) && NoLostWakeup(s)
  }
}
