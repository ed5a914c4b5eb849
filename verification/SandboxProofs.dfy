/** What every event keeps, and what follows for every run, of the trace sandbox's scheduler. */
module SandboxProofs {
  import opened Optional
  import opened SandboxSpec

  // ---- sequences and multisets -------------------------------------------------------------

  lemma SettledAppend(a: seq<Settlement>, b: seq<Settlement>)
    ensures SettledTickets(a + b) == SettledTickets(a) + SettledTickets(b)
  {
  }

  lemma SettledOne(a: seq<Settlement>, x: Settlement)
    ensures multiset(SettledTickets(a + [x])) == multiset(SettledTickets(a)) + multiset{x.ticket}
  {
    SettledAppend(a, [x]);
    assert SettledTickets([x]) == [x.ticket];
  }

  lemma QueuedHead(queue: seq<Pending>)
    requires queue != []
    ensures multiset(QueuedTickets(queue)) == multiset{queue[0].ticket} + multiset(QueuedTickets(queue[1..]))
  {
    assert QueuedTickets(queue) == [queue[0].ticket] + QueuedTickets(queue[1..]);
  }

  lemma QueuedLast(queue: seq<Pending>, p: Pending)
    ensures multiset(QueuedTickets(queue + [p])) == multiset(QueuedTickets(queue)) + multiset{p.ticket}
  {
    assert QueuedTickets(queue + [p]) == QueuedTickets(queue) + [p.ticket];
  }

  lemma FirstNatsNext(n: nat)
    ensures multiset(FirstNats(n + 1)) == multiset(FirstNats(n)) + multiset{n}
  {
    assert FirstNats(n + 1) == FirstNats(n) + [n];
  }

  // ---- one step ----------------------------------------------------------------------------

  function Booting(s: State): nat {
    if s.worker.Some? && !s.ready then 1 else 0
  }

  /** Work left: two units for a task not yet settled, one for a worker still booting. */
  function Measure(s: State): nat {
    2 * Unsettled(s) + Booting(s)
  }

  lemma ExpireKeeps(s: State, now: int)
    requires Core(s) && s.inFlight.None? && s.queue != [] && s.queue[0].deadlineAt <= now
    ensures Core(Expire(s, now))
  {
    var t := Expire(s, now);
    QueuedHead(s.queue);
    SettledOne(s.settled, t.settled[|s.settled|]);
    assert Pendings(t.exits) == Pendings(s.exits) + [s.queue[0]];
    assert t.accepted == Pendings(t.exits) + t.queue;
    assert forall i :: 0 <= i < |s.exits| ==> t.exits[i] == s.exits[i];
  }

  lemma PostKeeps(s: State, now: int)
    requires Core(s) && s.inFlight.None? && s.queue != [] && s.worker.Some? && s.ready
    requires s.queue[0].deadlineAt > now
    ensures Inv(Post(s, now))
  {
    var t := Post(s, now);
    QueuedHead(s.queue);
    assert Pendings(t.exits) == Pendings(s.exits) + [s.queue[0]];
    assert t.accepted == Pendings(t.exits) + t.queue;
    assert forall i :: 0 <= i < |s.exits| ==> t.exits[i] == s.exits[i];
    assert t.exits[|s.exits|].Posted?;
    forall i | 0 <= i < |t.exits| ensures Punctual(t, t.exits[i]) {
      assert i < |s.exits| ==> Punctual(s, s.exits[i]);
    }
    forall i, j | 0 <= i < j < |t.exits| && t.exits[i].Posted? && t.exits[j].Posted?
      ensures t.exits[i].id < t.exits[j].id
    {
      assert Punctual(s, s.exits[i]);
    }
  }

  /** What pumping leaves alone, and the only thing it may settle with. */
  ghost predicate PumpFrame(s: State, t: State) {
    && Unsettled(t) <= Unsettled(s)
    && (s.ready ==> t.ready)
    && t.accepted == s.accepted && s.settled <= t.settled && s.exits <= t.exits
    && t.issued == s.issued && t.closed == s.closed
    && t.budgetMs == s.budgetMs && t.maxQueueDepth == s.maxQueueDepth
    && forall i :: |s.settled| <= i < |t.settled| ==> t.settled[i].outcome == Rejected(BudgetExceeded(s.budgetMs))
  }

  lemma EnsureKeeps(s: State)
    requires Core(s) && !s.closed
    ensures Core(EnsureWorker(s))
  {
  }

  lemma PumpKeeps(clock: nat -> int, s: State)
    requires Core(s)
    ensures Inv(Pump(clock, s))
    ensures PumpFrame(s, Pump(clock, s))
    ensures s.queue != [] && s.inFlight.None? ==> Measure(Pump(clock, s)) <= Measure(EnsureWorker(s))
    ensures s.queue == [] || s.inFlight.Some? ==> Pump(clock, s) == s
    decreases |s.queue|, 1
  {
    if s.inFlight.None? && s.queue != [] {
      EnsureKeeps(s);
      if EnsureWorker(s).ready { DispatchKeeps(clock, EnsureWorker(s)); }
    }
  }

  lemma DispatchKeeps(clock: nat -> int, s: State)
    requires Core(s) && s.inFlight.None? && s.queue != [] && s.worker.Some? && s.ready
    ensures Inv(Dispatch(clock, s))
    ensures PumpFrame(s, Dispatch(clock, s))
    ensures Measure(Dispatch(clock, s)) <= Measure(s)
    decreases |s.queue|, 0
  {
    hide HeldByWorker, OneLiveWorker, TimerGuards, Fifo, Conserved;
    var now := clock(s.readings);
    var r := s.(readings := s.readings + 1);
    ReadKeeps(s);
    if r.queue[0].deadlineAt - now <= 0 {
      ExpireKeeps(r, now);
      PumpKeeps(clock, Expire(r, now));
    } else {
      PostKeeps(r, now);
    }
  }

  lemma ReadKeeps(s: State)
    requires Core(s)
    ensures Core(s.(readings := s.readings + 1))
  {
  }

  // ---- settling and recycling --------------------------------------------------------------

  /** The task in flight is settled, by a reply, a failure, its timer or close. */
  lemma LandKeeps(s: State, outcome: Outcome)
    requires Core(s) && s.inFlight.Some?
    ensures Core(Settle(ClearInFlight(s), s.inFlight.value.pending.ticket, outcome))
  {
    SettledOne(s.settled, Settlement(s.inFlight.value.pending.ticket, outcome));
    var t := Settle(ClearInFlight(s), s.inFlight.value.pending.ticket, outcome);
    assert forall x :: Punctual(s, x) ==> Punctual(t, x);
  }

  lemma RecycleKeeps(s: State)
    requires Core(s) && s.inFlight.None?
    ensures Core(RecycleWorker(s))
  {
    var t := RecycleWorker(s);
    assert forall x :: Punctual(s, x) ==> Punctual(t, x);
  }

  lemma RejectQueueKeeps(s: State, error: Error)
    requires Core(s)
    ensures Core(RejectQueue(s, error))
  {
    var t := RejectQueue(s, error);
    SettledAppend(s.settled, Rejections(s.queue, error));
    assert SettledTickets(Rejections(s.queue, error)) == QueuedTickets(s.queue);
    assert Pendings(t.exits) == Pendings(s.exits) + s.queue;
    forall i | 0 <= i < |t.exits| ensures Punctual(t, t.exits[i]) {
      assert i < |s.exits| ==> t.exits[i] == s.exits[i] && Punctual(s, s.exits[i]);
    }
    if s.inFlight.Some? {
      var i :| 0 <= i < |s.exits| && s.exits[i].Posted?
        && s.exits[i].pending == s.inFlight.value.pending
        && s.exits[i].id == s.inFlight.value.id
        && s.worker == Some(s.exits[i].worker);
      assert t.exits[i] == s.exits[i];
    }
  }

  /** A refused call: its promise is rejected on the spot. */
  lemma RefuseKeeps(s: State, error: Error)
    requires Inv(s)
    ensures Inv(Settle(s.(issued := s.issued + 1), s.issued, Rejected(error)))
  {
    SettledOne(s.settled, Settlement(s.issued, Rejected(error)));
    FirstNatsNext(s.issued);
    var t := Settle(s.(issued := s.issued + 1), s.issued, Rejected(error));
    assert forall x :: Punctual(s, x) ==> Punctual(t, x);
  }

  /** An accepted call, before the pump. */
  function Enqueue(clock: nat -> int, s: State, task: SandboxTask): State {
    var pending := Pending(task, s.issued, clock(s.readings) + s.budgetMs);
    s.(issued := s.issued + 1, readings := s.readings + 1,
       queue := s.queue + [pending], accepted := s.accepted + [pending])
  }

  lemma EnqueueKeeps(clock: nat -> int, s: State, task: SandboxTask)
    requires Inv(s) && !s.closed
    requires |s.queue| - (if s.inFlight.Some? then 0 else 1) < s.maxQueueDepth
    ensures Core(Enqueue(clock, s, task))
  {
    var t := Enqueue(clock, s, task);
    QueuedLast(s.queue, t.queue[|s.queue|]);
    FirstNatsNext(s.issued);
    assert forall x :: Punctual(s, x) ==> Punctual(t, x);
    assert t.accepted == Pendings(t.exits) + t.queue;
  }

  // ---- every event -------------------------------------------------------------------------

  lemma InitialInv(budgetMs: int, maxQueueDepth: nat)
    ensures Inv(Initial(budgetMs, maxQueueDepth))
  {
    assert FirstNats(0) == [];
  }

  lemma StepKeeps(clock: nat -> int, s: State, e: Event)
    requires Inv(s)
    ensures Inv(Step(clock, s, e))
  {
    hide Fifo, Conserved;
    match e
    case Warm => if !s.closed { EnsureKeeps(s); }
    case Run(task) =>
      if s.closed {
        RefuseKeeps(s, SandboxClosed);
      } else if |s.queue| - (if s.inFlight.Some? then 0 else 1) >= s.maxQueueDepth {
        RefuseKeeps(s, SandboxBusy(|s.queue|));
      } else {
        EnqueueKeeps(clock, s, task);
        PumpKeeps(clock, Enqueue(clock, s, task));
      }
    case Ready(w) =>
      if s.worker == Some(w) { ReadyKeeps(s); PumpKeeps(clock, s.(ready := true)); }
    case Reply(w, id, result) =>
      if s.worker == Some(w) && s.inFlight.Some? && s.inFlight.value.id == id {
        var outcome := match result case Ok(v) => Resolved(v) case Err(e) => Rejected(Thrown(e));
        LandKeeps(s, outcome);
        PumpKeeps(clock, Settle(ClearInFlight(s), s.inFlight.value.pending.ticket, outcome));
      }
    case Failure(w, error) => if s.worker == Some(w) { FailureKeeps(clock, s, error); }
    case Timer(id) =>
      if s.inFlight.Some? && s.inFlight.value.id == id {
        LandKeeps(s, Rejected(BudgetExceeded(s.budgetMs)));
        var t := Settle(ClearInFlight(s), s.inFlight.value.pending.ticket, Rejected(BudgetExceeded(s.budgetMs)));
        RecycleKeeps(t);
        PumpKeeps(clock, RecycleWorker(t));
      }
    case Close => CloseKeeps(s);
  }

  lemma ReadyKeeps(s: State)
    requires Inv(s) && s.worker.Some?
    ensures Core(s.(ready := true))
  {
    var t := s.(ready := true);
    assert forall x :: Punctual(s, x) ==> Punctual(t, x);
  }

  lemma FailureKeeps(clock: nat -> int, s: State, error: string)
    requires Inv(s) && s.worker.Some?
    ensures Inv(OnFailure(clock, s, error))
  {
    hide Fifo, Conserved;
    if s.inFlight.Some? { LandKeeps(s, Rejected(Thrown(error))); }
    var s1 := if s.inFlight.None? then s
              else Settle(ClearInFlight(s), s.inFlight.value.pending.ticket, Rejected(Thrown(error)));
    if !s1.ready { RejectQueueKeeps(s1, Thrown(error)); }
    var s2 := if s1.ready then s1 else RejectQueue(s1, Thrown(error));
    RecycleKeeps(s2);
    PumpKeeps(clock, RecycleWorker(s2));
  }

  lemma CloseKeeps(s: State)
    requires Inv(s)
    ensures Inv(OnClose(s)) && OnClose(s).closed
  {
    hide Fifo, Conserved;
    RejectQueueKeeps(s, SandboxClosed);
    var s1 := RejectQueue(s, SandboxClosed);
    if s1.inFlight.Some? { LandKeeps(s1, Rejected(SandboxClosed)); }
    var s2 := if s1.inFlight.None? then s1
              else Settle(ClearInFlight(s1), s1.inFlight.value.pending.ticket, Rejected(SandboxClosed));
    RecycleKeeps(s2);
    CloseFlag(RecycleWorker(s2));
    assert OnClose(s) == RecycleWorker(s2).(closed := true);
  }

  lemma CloseFlag(s: State)
    requires Core(s) && s.worker.None? && s.queue == [] && s.inFlight.None?
    ensures Inv(s.(closed := true))
  {
    var t := s.(closed := true);
    assert forall x :: Punctual(s, x) ==> Punctual(t, x);
  }

  // ---- every run ---------------------------------------------------------------------------

  lemma {:induction false} RunKeeps(clock: nat -> int, s: State, es: seq<Event>)
    requires Inv(s)
    ensures Inv(Exec(clock, s, es))
  {
    if es != [] {
      RunKeeps(clock, s, es[..|es| - 1]);
      StepKeeps(clock, Exec(clock, s, es[..|es| - 1]), es[|es| - 1]);
    }
  }

  /** In how many places a promise is: settlements, queue entries and the task in flight. */
  lemma EachPromiseInOnePlace(clock: nat -> int, budgetMs: int, maxQueueDepth: nat, es: seq<Event>, ticket: nat)
    ensures var s := Exec(clock, Initial(budgetMs, maxQueueDepth), es);
            Whereabouts(s)[ticket] == if ticket < s.issued then 1 else 0
  {
    InitialInv(budgetMs, maxQueueDepth);
    RunKeeps(clock, Initial(budgetMs, maxQueueDepth), es);
    FirstNatsCount(Exec(clock, Initial(budgetMs, maxQueueDepth), es).issued, ticket);
  }

  lemma {:induction false} FirstNatsCount(n: nat, k: nat)
    ensures multiset(FirstNats(n))[k] == if k < n then 1 else 0
  {
    if n == 0 {
      assert FirstNats(0) == [];
    } else {
      FirstNatsCount(n - 1, k);
      FirstNatsNext(n - 1);
    }
  }

  /** No promise is settled twice, and none is settled while its task still waits or runs. */
  lemma SettledAtMostOnce(clock: nat -> int, budgetMs: int, maxQueueDepth: nat, es: seq<Event>)
    ensures var s := Exec(clock, Initial(budgetMs, maxQueueDepth), es);
            && (forall i, j :: 0 <= i < j < |s.settled| ==> s.settled[i].ticket != s.settled[j].ticket)
            && (forall i, j :: 0 <= i < |s.settled| && 0 <= j < |s.queue| ==> s.settled[i].ticket != s.queue[j].ticket)
            && (s.inFlight.Some? ==> forall i :: 0 <= i < |s.settled| ==> s.settled[i].ticket != s.inFlight.value.pending.ticket)
  {
    var s := Exec(clock, Initial(budgetMs, maxQueueDepth), es);
    var done := SettledTickets(s.settled);
    forall i | 0 <= i < |done|
      ensures multiset(QueuedTickets(s.queue))[done[i]] + FlyingTickets(s.inFlight)[done[i]] == 0
      ensures forall j :: i < j < |done| ==> done[i] != done[j]
    {
      EachPromiseInOnePlace(clock, budgetMs, maxQueueDepth, es, done[i]);
      forall j | i < j < |done| ensures done[i] != done[j] { if done[i] == done[j] { Twice(done, i, j); } }
      assert done[i] in multiset(done);
    }
    forall j | 0 <= j < |s.queue| ensures QueuedTickets(s.queue)[j] in multiset(QueuedTickets(s.queue)) {}
    forall i, j | 0 <= i < |s.settled| && 0 <= j < |s.queue|
      ensures s.settled[i].ticket != s.queue[j].ticket
    {
      assert done[i] == s.settled[i].ticket && QueuedTickets(s.queue)[j] == s.queue[j].ticket;
    }
    forall i, j | 0 <= i < j < |s.settled| ensures s.settled[i].ticket != s.settled[j].ticket {
      assert done[i] != done[j];
    }
    if s.inFlight.Some? {
      forall i | 0 <= i < |s.settled| ensures s.settled[i].ticket != s.inFlight.value.pending.ticket {
        assert FlyingTickets(s.inFlight)[done[i]] == 0;
      }
    }
  }

  lemma Twice(a: seq<nat>, i: nat, j: nat)
    requires i < j < |a| && a[i] == a[j]
    ensures multiset(a)[a[i]] >= 2
  {
    assert a == a[..i + 1] + a[i + 1..];
    assert a[i] in multiset(a[..i + 1]) by { assert a[..i + 1][i] == a[i]; }
    assert a[j] in multiset(a[i + 1..]) by { assert a[i + 1..][j - i - 1] == a[j]; }
  }

  /** A step only adds settlements; one that resolves is the value the task's own worker replied with. */
  lemma StepSettles(clock: nat -> int, s: State, e: Event)
    requires Inv(s)
    ensures s.settled <= Step(clock, s, e).settled
    ensures forall j :: |s.settled| <= j < |Step(clock, s, e).settled| && Step(clock, s, e).settled[j].outcome.Resolved? ==>
              && e.Reply? && e.result == Ok(Step(clock, s, e).settled[j].outcome.value)
              && Holds(s, e.worker, e.id, Step(clock, s, e).settled[j].ticket)
  {
    hide Fifo, Conserved, OneLiveWorker, TimerGuards;
    match e
    case Warm =>
    case Run(task) =>
      if !s.closed && |s.queue| - (if s.inFlight.Some? then 0 else 1) < s.maxQueueDepth {
        EnqueueKeeps(clock, s, task);
        PumpKeeps(clock, Enqueue(clock, s, task));
      }
    case Ready(w) =>
      if s.worker == Some(w) { ReadyKeeps(s); PumpKeeps(clock, s.(ready := true)); }
    case Reply(w, id, result) =>
      if s.worker == Some(w) && s.inFlight.Some? && s.inFlight.value.id == id { ReplySettles(clock, s, w, id, result); }
    case Failure(w, error) => if s.worker == Some(w) { FailureSettles(clock, s, error); }
    case Timer(id) =>
      if s.inFlight.Some? && s.inFlight.value.id == id {
        LandKeeps(s, Rejected(BudgetExceeded(s.budgetMs)));
        var t := Settle(ClearInFlight(s), s.inFlight.value.pending.ticket, Rejected(BudgetExceeded(s.budgetMs)));
        RecycleKeeps(t);
        PumpKeeps(clock, RecycleWorker(t));
      }
    case Close =>
  }

  lemma ReplySettles(clock: nat -> int, s: State, w: nat, id: nat, result: Result)
    requires Inv(s) && s.worker == Some(w) && s.inFlight.Some? && s.inFlight.value.id == id
    ensures var t := Step(clock, s, Reply(w, id, result));
            && s.settled <= t.settled
            && forall j :: |s.settled| <= j < |t.settled| && t.settled[j].outcome.Resolved? ==>
                 result == Ok(t.settled[j].outcome.value) && Holds(s, w, id, t.settled[j].ticket)
  {
    hide Fifo, Conserved, OneLiveWorker, TimerGuards;
    var outcome := match result case Ok(v) => Resolved(v) case Err(e) => Rejected(Thrown(e));
    LandKeeps(s, outcome);
    var t := Settle(ClearInFlight(s), s.inFlight.value.pending.ticket, outcome);
    PumpKeeps(clock, t);
    assert t.settled[|s.settled|] == Settlement(s.inFlight.value.pending.ticket, outcome);
  }

  lemma FailureSettles(clock: nat -> int, s: State, error: string)
    requires Inv(s) && s.worker.Some?
    ensures var t := OnFailure(clock, s, error);
            s.settled <= t.settled && forall j :: |s.settled| <= j < |t.settled| ==> t.settled[j].outcome.Rejected?
  {
    hide Fifo, Conserved, OneLiveWorker, TimerGuards;
    if s.inFlight.Some? { LandKeeps(s, Rejected(Thrown(error))); }
    var s1 := if s.inFlight.None? then s
              else Settle(ClearInFlight(s), s.inFlight.value.pending.ticket, Rejected(Thrown(error)));
    if !s1.ready { RejectQueueKeeps(s1, Thrown(error)); }
    var s2 := if s1.ready then s1 else RejectQueue(s1, Thrown(error));
    RecycleKeeps(s2);
    PumpKeeps(clock, RecycleWorker(s2));
  }

  /** The current worker was posted this very task under this id, and has it still. */
  ghost predicate Holds(s: State, worker: nat, id: nat, ticket: nat) {
    && s.worker == Some(worker)
    && s.inFlight.Some? && s.inFlight.value.id == id && s.inFlight.value.pending.ticket == ticket
    && exists i ::
      && 0 <= i < |s.exits| && s.exits[i].Posted?
      && s.exits[i].pending == s.inFlight.value.pending && s.exits[i].worker == worker && s.exits[i].id == id
  }

  /** Whatever a run resolves a promise with, the worker then holding that task posted it for that id. */
  lemma {:induction false} ResolvedOnlyByHolder(
      clock: nat -> int, budgetMs: int, maxQueueDepth: nat, es: seq<Event>, j: nat) returns (k: nat)
    requires var s := Exec(clock, Initial(budgetMs, maxQueueDepth), es);
             j < |s.settled| && s.settled[j].outcome.Resolved?
    ensures k < |es| && es[k].Reply?
    ensures var s := Exec(clock, Initial(budgetMs, maxQueueDepth), es);
            && es[k].result == Ok(s.settled[j].outcome.value)
            && Holds(Exec(clock, Initial(budgetMs, maxQueueDepth), es[..k]), es[k].worker, es[k].id, s.settled[j].ticket)
  {
    var init := Initial(budgetMs, maxQueueDepth);
    var es', last := es[..|es| - 1], es[|es| - 1];
    var s' := Exec(clock, init, es');
    InitialInv(budgetMs, maxQueueDepth);
    RunKeeps(clock, init, es');
    StepSettles(clock, s', last);
    if j < |s'.settled| {
      k := ResolvedOnlyByHolder(clock, budgetMs, maxQueueDepth, es', j);
      assert es'[..k] == es[..k];
    } else {
      k := |es| - 1;
    }
  }

  // ---- what each event answers ---------------------------------------------------------------

  /** Behind its first `n` settlements a step only turns away tasks whose time ran out in the queue. */
  ghost predicate OnlyExpiresFrom(s: State, n: nat) {
    forall i :: n <= i < |s.settled| ==> s.settled[i].outcome == Rejected(BudgetExceeded(s.budgetMs))
  }

  /** A reply answers the promise of the task its worker holds, and the worker stays. */
  lemma ReplyAnswers(clock: nat -> int, s: State, w: nat, id: nat, ticket: nat, v: string)
    requires Inv(s) && Holds(s, w, id, ticket)
    ensures var t := Step(clock, s, Reply(w, id, Ok(v)));
            && s.settled + [Settlement(ticket, Resolved(v))] <= t.settled && OnlyExpiresFrom(t, |s.settled| + 1)
            && t.worker == Some(w) && t.ready
    ensures var t := Step(clock, s, Reply(w, id, Err(v)));
            && s.settled + [Settlement(ticket, Rejected(Thrown(v)))] <= t.settled && OnlyExpiresFrom(t, |s.settled| + 1)
            && t.worker == Some(w) && t.ready
  {
    hide Fifo, Conserved, OneLiveWorker, TimerGuards;
    LandKeeps(s, Resolved(v));
    LandKeeps(s, Rejected(Thrown(v)));
    var ok, err := Settle(ClearInFlight(s), ticket, Resolved(v)), Settle(ClearInFlight(s), ticket, Rejected(Thrown(v)));
    PumpKeeps(clock, ok);
    PumpKeeps(clock, err);
    PumpKeepsWorker(clock, ok);
    PumpKeepsWorker(clock, err);
  }

  /** A timer that is due rejects its task and ends the worker that ran over. */
  lemma TimerAnswers(clock: nat -> int, s: State, w: nat, id: nat, ticket: nat)
    requires Inv(s) && Holds(s, w, id, ticket)
    ensures var t := Step(clock, s, Timer(id));
            && s.settled + [Settlement(ticket, Rejected(BudgetExceeded(s.budgetMs)))] <= t.settled
            && OnlyExpiresFrom(t, |s.settled| + 1) && w in t.terminated
  {
    hide Fifo, Conserved, OneLiveWorker, TimerGuards, HeldByWorker;
    LandKeeps(s, Rejected(BudgetExceeded(s.budgetMs)));
    var u := Settle(ClearInFlight(s), ticket, Rejected(BudgetExceeded(s.budgetMs)));
    RecycleKeeps(u);
    PumpKeeps(clock, RecycleWorker(u));
    PumpKeepsWorker(clock, RecycleWorker(u));
  }

  /** A failing worker is ended.  One that was ready costs the task it holds and no other; one that was not
      costs every task that waited for it, oldest first. */
  lemma FailureAnswers(clock: nat -> int, s: State, w: nat, error: string)
    requires Inv(s) && s.worker == Some(w)
    ensures var t := Step(clock, s, Failure(w, error));
            && w in t.terminated
            && (forall id, ticket :: Holds(s, w, id, ticket) ==> s.settled + [Settlement(ticket, Rejected(Thrown(error)))] <= t.settled)
            && (s.ready ==> s.settled <= t.settled && OnlyExpiresFrom(t, |s.settled| + if s.inFlight.Some? then 1 else 0))
            && (!s.ready ==> t.queue == [] && |t.settled| == |s.settled| + |s.queue| && s.settled <= t.settled)
            && (!s.ready ==> forall i :: 0 <= i < |s.queue| ==>
                  t.settled[|s.settled| + i] == Settlement(s.queue[i].ticket, Rejected(Thrown(error))))
  {
    hide Fifo, Conserved, OneLiveWorker, TimerGuards;
    if s.inFlight.Some? { LandKeeps(s, Rejected(Thrown(error))); }
    var s1 := if s.inFlight.None? then s
              else Settle(ClearInFlight(s), s.inFlight.value.pending.ticket, Rejected(Thrown(error)));
    if !s1.ready { RejectQueueKeeps(s1, Thrown(error)); }
    var s2 := if s1.ready then s1 else RejectQueue(s1, Thrown(error));
    RecycleKeeps(s2);
    PumpKeeps(clock, RecycleWorker(s2));
    PumpKeepsWorker(clock, RecycleWorker(s2));
  }

  /** Closing answers everything outstanding with the one error, the queue first. */
  lemma CloseAnswers(clock: nat -> int, s: State)
    requires Inv(s)
    ensures var t := Step(clock, s, Close);
            && s.settled <= t.settled && |t.settled| == |s.settled| + Unsettled(s)
            && (forall i :: 0 <= i < Unsettled(s) ==>
                  t.settled[|s.settled| + i] == Settlement(
                    if i < |s.queue| then s.queue[i].ticket else s.inFlight.value.pending.ticket, Rejected(SandboxClosed)))
            && (s.worker.Some? ==> s.worker.value in t.terminated)
  {
    hide Fifo, Conserved, OneLiveWorker, TimerGuards, HeldByWorker;
  }

  /** A worker that was told to terminate is heard no more, nor is a timer that is not armed, nor a reply for any
      task but the one in flight. */
  lemma StaleIsIgnored(clock: nat -> int, s: State, e: Event)
    requires Inv(s)
    requires match e
             case Ready(w) => w in s.terminated
             case Reply(w, id, _) => w in s.terminated || (s.inFlight.Some? ==> s.inFlight.value.id != id)
             case Failure(w, _) => w in s.terminated
             case Timer(id) => id !in s.timers
             case _ => false
    ensures Step(clock, s, e) == s
  {
    hide Fifo, Conserved, HeldByWorker;
  }

  /** The pump ends no worker and replaces none. */
  lemma {:induction false} PumpKeepsWorker(clock: nat -> int, s: State)
    ensures Pump(clock, s).terminated == s.terminated
    ensures s.worker.Some? ==> Pump(clock, s).worker == s.worker && (s.ready ==> Pump(clock, s).ready)
    decreases |s.queue|
  {
    if s.inFlight.None? && s.queue != [] {
      var u := EnsureWorker(s);
      if u.ready && u.queue[0].deadlineAt - clock(u.readings) <= 0 {
        PumpKeepsWorker(clock, Expire(u.(readings := u.readings + 1), clock(u.readings)));
      }
    }
  }

  lemma {:induction false} SettledStands(clock: nat -> int, s: State, es: seq<Event>, k: nat)
    requires Inv(s) && k <= |es|
    ensures Exec(clock, s, es[..k]).settled <= Exec(clock, s, es).settled
  {
    if k == |es| {
      assert es[..k] == es;
    } else {
      var init := es[..|es| - 1];
      assert init[..k] == es[..k];
      SettledStands(clock, s, init, k);
      RunKeeps(clock, s, init);
      StepSettles(clock, Exec(clock, s, init), es[|es| - 1]);
    }
  }

  /** In some moment of the run the worker holding this promise's task replied with this value. */
  ghost predicate Replied(clock: nat -> int, s: State, es: seq<Event>, k: nat, ticket: nat, v: string) {
    && k < |es| && es[k].Reply? && es[k].result == Ok(v)
    && Holds(Exec(clock, s, es[..k]), es[k].worker, es[k].id, ticket)
  }

  /** In every run a promise is resolved with a value if and only if the worker that held its task replied it. */
  lemma ResolvedIffReplied(clock: nat -> int, budgetMs: int, maxQueueDepth: nat, es: seq<Event>, ticket: nat, v: string)
    ensures Settlement(ticket, Resolved(v)) in Exec(clock, Initial(budgetMs, maxQueueDepth), es).settled
            <==> exists k: nat :: Replied(clock, Initial(budgetMs, maxQueueDepth), es, k, ticket, v)
  {
    hide Inv, Holds;
    var init := Initial(budgetMs, maxQueueDepth);
    var s := Exec(clock, init, es);
    InitialInv(budgetMs, maxQueueDepth);
    if Settlement(ticket, Resolved(v)) in s.settled {
      var j :| 0 <= j < |s.settled| && s.settled[j] == Settlement(ticket, Resolved(v));
      var k := ResolvedOnlyByHolder(clock, budgetMs, maxQueueDepth, es, j);
      assert Replied(clock, init, es, k, ticket, v);
    }
    forall k: nat | Replied(clock, init, es, k, ticket, v) ensures Settlement(ticket, Resolved(v)) in s.settled {
      var before := Exec(clock, init, es[..k]);
      RunKeeps(clock, init, es[..k]);
      ReplyAnswers(clock, before, es[k].worker, es[k].id, ticket, v);
      assert es[..k + 1][..k] == es[..k];
      SettledStands(clock, init, es, k + 1);
      assert (before.settled + [Settlement(ticket, Resolved(v))])[|before.settled|] == Settlement(ticket, Resolved(v));
    }
  }

  // ---- what the queue and the clock decide -----------------------------------------------------

  /** A task that left by time did so at a reading of the clock, and if it expired was told so. */
  ghost predicate Booked(clock: nat -> int, s: State, x: Exit) {
    && (x.Dropped? || exists r :: 0 <= r < s.readings && clock(r) == x.at)
    && (x.Expired? ==> Settlement(x.pending.ticket, Rejected(BudgetExceeded(s.budgetMs))) in s.settled)
  }

  ghost predicate Ledger(clock: nat -> int, s: State) {
    forall i :: 0 <= i < |s.exits| ==> Booked(clock, s, s.exits[i])
  }

  /** One state after another, the new exits being booked. */
  ghost predicate Extends(clock: nat -> int, s: State, t: State) {
    && s.exits <= t.exits && s.settled <= t.settled && s.readings <= t.readings && s.budgetMs == t.budgetMs
    && forall i :: |s.exits| <= i < |t.exits| ==> Booked(clock, t, t.exits[i])
  }

  lemma ExtendsBooks(clock: nat -> int, s: State, t: State)
    requires Ledger(clock, s) && Extends(clock, s, t)
    ensures Ledger(clock, t)
  {
    forall i | 0 <= i < |t.exits| ensures Booked(clock, t, t.exits[i]) {
      if i < |s.exits| {
        assert Booked(clock, s, s.exits[i]) && t.exits[i] == s.exits[i];
        assert forall x :: x in s.settled ==> x in t.settled;
      }
    }
  }

  lemma {:induction false} PumpBooks(clock: nat -> int, s: State)
    requires Ledger(clock, s)
    ensures Ledger(clock, Pump(clock, s)) && s.budgetMs == Pump(clock, s).budgetMs
    decreases |s.queue|
  {
    if s.inFlight.None? && s.queue != [] {
      var u := EnsureWorker(s);
      if u.ready {
        var now, r := clock(u.readings), u.(readings := u.readings + 1);
        if u.queue[0].deadlineAt - now <= 0 {
          assert Expire(r, now).settled[|r.settled|] == Settlement(u.queue[0].ticket, Rejected(BudgetExceeded(s.budgetMs)));
          ExtendsBooks(clock, s, Expire(r, now));
          PumpBooks(clock, Expire(r, now));
        } else {
          ExtendsBooks(clock, s, Post(r, now));
        }
      } else {
        ExtendsBooks(clock, s, u);
      }
    }
  }

  lemma StepBooks(clock: nat -> int, s: State, e: Event)
    requires Ledger(clock, s)
    ensures Ledger(clock, Step(clock, s, e)) && Step(clock, s, e).budgetMs == s.budgetMs
  {
    hide Ledger;
    match e
    case Warm => if !s.closed { ExtendsBooks(clock, s, EnsureWorker(s)); }
    case Run(task) =>
      ExtendsBooks(clock, s, Enqueue(clock, s, task));
      PumpBooks(clock, Enqueue(clock, s, task));
      ExtendsBooks(clock, s, Settle(s.(issued := s.issued + 1), s.issued, Rejected(SandboxClosed)));
      ExtendsBooks(clock, s, Settle(s.(issued := s.issued + 1), s.issued, Rejected(SandboxBusy(|s.queue|))));
    case Ready(w) =>
      ExtendsBooks(clock, s, s.(ready := true));
      PumpBooks(clock, s.(ready := true));
    case Reply(_, _, result) =>
      if s.inFlight.Some? {
        var outcome := match result case Ok(v) => Resolved(v) case Err(e) => Rejected(Thrown(e));
        var t := Settle(ClearInFlight(s), s.inFlight.value.pending.ticket, outcome);
        ExtendsBooks(clock, s, t);
        PumpBooks(clock, t);
      }
    case Failure(_, error) =>
      var s1 := if s.inFlight.None? then s
                else Settle(ClearInFlight(s), s.inFlight.value.pending.ticket, Rejected(Thrown(error)));
      var t := RecycleWorker(if s1.ready then s1 else RejectQueue(s1, Thrown(error)));
      ExtendsBooks(clock, s, t);
      PumpBooks(clock, t);
    case Timer(_) =>
      if s.inFlight.Some? {
        var t := RecycleWorker(Settle(ClearInFlight(s), s.inFlight.value.pending.ticket, Rejected(BudgetExceeded(s.budgetMs))));
        ExtendsBooks(clock, s, t);
        PumpBooks(clock, t);
      }
    case Close => ExtendsBooks(clock, s, OnClose(s));
  }

  /** In every run a task is posted or expires at a reading of the clock, and one that expires is answered with
      the budget. */
  lemma {:induction false} ExpiredIsTold(clock: nat -> int, budgetMs: int, maxQueueDepth: nat, es: seq<Event>)
    ensures var s := Exec(clock, Initial(budgetMs, maxQueueDepth), es);
            && s.budgetMs == budgetMs
            && forall i :: 0 <= i < |s.exits| ==> Booked(clock, s, s.exits[i])
  {
    hide Booked, Step;
    if es != [] {
      ExpiredIsTold(clock, budgetMs, maxQueueDepth, es[..|es| - 1]);
      StepBooks(clock, Exec(clock, Initial(budgetMs, maxQueueDepth), es[..|es| - 1]), es[|es| - 1]);
    }
  }

  // ---- progress ----------------------------------------------------------------------------

  /** An event from a live source that has something to settle or a boot to finish. */
  predicate Effective(s: State, e: Event) {
    match e
    case Warm | Run(_) => false
    case Ready(w) => s.worker == Some(w) && !s.ready
    case Reply(w, id, _) => s.worker == Some(w) && s.inFlight.Some? && s.inFlight.value.id == id
    case Failure(w, _) => s.worker == Some(w) && Measure(s) > 0
    case Timer(id) => s.inFlight.Some? && s.inFlight.value.id == id
    case Close => Measure(s) > 0
  }

  /** Each effective event strictly lowers the work left; no other event but a call or a warm-up changes it. */
  lemma EffectiveEventsProgress(clock: nat -> int, s: State, e: Event)
    requires Inv(s) && !e.Run? && !e.Warm?
    ensures Measure(Step(clock, s, e)) <= Measure(s)
    ensures Effective(s, e) ==> Measure(Step(clock, s, e)) < Measure(s)
  {
    hide Fifo, Conserved;
    match e
    case Ready(w) =>
      if s.worker == Some(w) { ReadyKeeps(s); PumpKeeps(clock, s.(ready := true)); }
    case Reply(w, id, result) =>
      if s.worker == Some(w) && s.inFlight.Some? && s.inFlight.value.id == id {
        var outcome := match result case Ok(v) => Resolved(v) case Err(e) => Rejected(Thrown(e));
        LandKeeps(s, outcome);
        PumpKeeps(clock, Settle(ClearInFlight(s), s.inFlight.value.pending.ticket, outcome));
      }
    case Failure(_, _) =>
    case Timer(id) =>
      if s.inFlight.Some? && s.inFlight.value.id == id {
        LandKeeps(s, Rejected(BudgetExceeded(s.budgetMs)));
        var t := Settle(ClearInFlight(s), s.inFlight.value.pending.ticket, Rejected(BudgetExceeded(s.budgetMs)));
        RecycleKeeps(t);
        PumpKeeps(clock, RecycleWorker(t));
      }
    case Close =>
  }

  function EffectiveCount(clock: nat -> int, s: State, es: seq<Event>): nat {
    if es == [] then 0
    else
      var before := Exec(clock, s, es[..|es| - 1]);
      EffectiveCount(clock, s, es[..|es| - 1]) + if Effective(before, es[|es| - 1]) then 1 else 0
  }

  /** With no new calls, 2k + 1 effective events settle all k tasks outstanding, warm-ups or not. */
  lemma {:induction false} AllSettledEventually(clock: nat -> int, s: State, es: seq<Event>)
    requires Inv(s)
    requires forall i :: 0 <= i < |es| ==> !es[i].Run?
    ensures Unsettled(Exec(clock, s, es)) == 0
            || Measure(Exec(clock, s, es)) + EffectiveCount(clock, s, es) <= 2 * Unsettled(s) + 1
    ensures EffectiveCount(clock, s, es) >= 2 * Unsettled(s) + 1 ==> Unsettled(Exec(clock, s, es)) == 0
  {
    if es != [] {
      var before, e := es[..|es| - 1], es[|es| - 1];
      AllSettledEventually(clock, s, before);
      RunKeeps(clock, s, before);
      if e.Warm? { WarmUpIsIdle(clock, Exec(clock, s, before)); } else { EffectiveEventsProgress(clock, Exec(clock, s, before), e); }
    }
  }

  /** A warm-up settles nothing, and while a task is outstanding it changes nothing at all. */
  lemma WarmUpIsIdle(clock: nat -> int, s: State)
    requires Inv(s)
    ensures Unsettled(Step(clock, s, Warm)) == Unsettled(s) && !Effective(s, Warm)
    ensures Unsettled(s) > 0 ==> Step(clock, s, Warm) == s
    ensures !s.closed ==> Step(clock, s, Warm).worker.Some?
  {
  }

  /** While anything is outstanding an effective event is due: an armed timer, or the boot's own end. */
  lemma NeverStuck(s: State) returns (e: Event)
    requires Inv(s) && Unsettled(s) > 0
    ensures Effective(s, e)
    ensures (e.Timer? && e.id in s.timers) || (e.Ready? && s.worker == Some(e.worker) && !s.ready)
  {
    e := if s.inFlight.Some? then Timer(s.inFlight.value.id) else Ready(s.worker.value);
  }

  /** Closing settles everything and is final: no worker, task or timer ever returns. */
  lemma {:induction false} ClosedForGood(clock: nat -> int, s: State, es: seq<Event>)
    requires Inv(s)
    ensures var t := Exec(clock, OnClose(s), es);
            t.closed && t.worker.None? && Unsettled(t) == 0 && t.timers == map[] && t.spawned == s.spawned
  {
    hide Fifo, Conserved;
    CloseKeeps(s);
    if es != [] {
      ClosedForGood(clock, s, es[..|es| - 1]);
      RunKeeps(clock, OnClose(s), es[..|es| - 1]);
    }
  }

  /** A call is queued exactly when the closed flag is down and there is room; then its deadline is set. */
  lemma AcceptedIffRoom(clock: nat -> int, s: State, task: SandboxTask)
    requires Inv(s)
    ensures var t := Step(clock, s, Run(task));
            if !s.closed && Unsettled(s) <= s.maxQueueDepth
            then t.accepted == s.accepted + [Pending(task, s.issued, clock(s.readings) + s.budgetMs)]
            else t == Settle(s.(issued := s.issued + 1), s.issued,
                             Rejected(if s.closed then SandboxClosed else SandboxBusy(|s.queue|)))
  {
    hide Fifo, Conserved, OneLiveWorker, HeldByWorker, TimerGuards;
    if !s.closed && Unsettled(s) <= s.maxQueueDepth {
      EnqueueKeeps(clock, s, task);
      PumpKeeps(clock, Enqueue(clock, s, task));
    }
  }

  /** Over every run: tasks leave the queue in the order accepted, are posted only with time left on a
      timer due at their own deadline, and a task that expired was never posted. */
  lemma FifoAndDeadlines(clock: nat -> int, budgetMs: int, maxQueueDepth: nat, es: seq<Event>)
    ensures var s := Exec(clock, Initial(budgetMs, maxQueueDepth), es);
            && s.accepted == Pendings(s.exits) + s.queue
            && (forall i :: 0 <= i < |s.exits| && s.exits[i].Posted? ==>
                  s.exits[i].delay > 0 && s.exits[i].at + s.exits[i].delay == s.exits[i].pending.deadlineAt)
            && (forall i, j :: 0 <= i < |s.exits| && 0 <= j < |s.exits| && s.exits[i].Expired? && s.exits[j].Posted? ==>
                  s.exits[i].pending.deadlineAt <= s.exits[i].at && s.exits[i].pending.ticket != s.exits[j].pending.ticket)
  {
    var s := Exec(clock, Initial(budgetMs, maxQueueDepth), es);
    InitialInv(budgetMs, maxQueueDepth);
    RunKeeps(clock, Initial(budgetMs, maxQueueDepth), es);
    forall i | 0 <= i < |s.exits|
      ensures Punctual(s, s.exits[i]) && s.accepted[i] == s.exits[i].pending {}
  }
}
