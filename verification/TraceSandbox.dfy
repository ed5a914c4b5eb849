/** The sandbox class: each event handler, in place, against `SandboxSpec.Step`. */
module TraceSandbox {
  import opened Optional
  import opened SandboxSpec

  class TraceSandbox {
    const budgetMs: int
    const maxQueueDepth: nat
    var worker: Option<nat>
    var ready: bool
    var queue: seq<Pending>
    var inFlight: Option<InFlight>
    var nextId: nat
    var closed: bool

    // The environment: a clock of arbitrary readings, worker ordinals, and the log of what was done to it.
    const clock: nat -> int
    var readings: nat
    var spawned: nat
    var issued: nat
    ghost var terminated: set<nat>
    ghost var timers: map<nat, int>
    ghost var accepted: seq<Pending>
    ghost var exits: seq<Exit>
    ghost var settled: seq<Settlement>

    ghost function Abs(): State
      reads this
    {
      State(budgetMs, maxQueueDepth, worker, ready, queue, inFlight, nextId, closed,
            readings, spawned, terminated, timers, issued, accepted, exits, settled)
    }

    constructor (budgetMs: int, maxQueueDepth: nat, clock: nat -> int)
      ensures Abs() == Initial(budgetMs, maxQueueDepth)
      ensures this.clock == clock
    {
      this.budgetMs, this.maxQueueDepth, this.clock := budgetMs, maxQueueDepth, clock;
      worker, ready, queue, inFlight, nextId, closed := None, false, [], None, 1, false;
      readings, spawned, issued := 0, 0, 0;
      terminated, timers, accepted, exits, settled := {}, map[], [], [], [];
    }

    /** Date.now(). */
    method Now() returns (now: int)
      modifies this`readings
      ensures now == clock(old(readings)) && readings == old(readings) + 1
    {
      now := clock(readings);
      readings := readings + 1;
    }

    /** resolve or reject of the promise `ticket`. */
    ghost method Promise(ticket: nat, outcome: Outcome)
      modifies this`settled
      ensures Abs() == Settle(old(Abs()), ticket, outcome)
    {
      settled := settled + [Settlement(ticket, outcome)];
    }

    method Warm()
      modifies this
      ensures Abs() == Step(clock, old(Abs()), Event.Warm)
    {
      if !closed {
        var _ := EnsureWorker();
      }
    }

    method Run(task: SandboxTask) returns (ticket: nat)
      modifies this
      ensures Abs() == Step(clock, old(Abs()), Event.Run(task))
      ensures ticket == old(issued)
    {
      hide SandboxSpec.Pump;
      ticket := issued;
      issued := issued + 1;
      if closed {
        Promise(ticket, Rejected(SandboxClosed));
        return;
      }
      var waiting := |queue| - (if inFlight.Some? then 0 else 1);
      if waiting >= maxQueueDepth {
        Promise(ticket, Rejected(SandboxBusy(|queue|)));
        return;
      }
      var now := Now();
      var deadlineAt := now + budgetMs;
      queue := queue + [Pending(task, ticket, deadlineAt)];
      accepted := accepted + [Pending(task, ticket, deadlineAt)];
      Pump();
    }

    method Close()
      modifies this
      ensures Abs() == Step(clock, old(Abs()), Event.Close)
    {
      closed := true;
      RejectQueued(SandboxClosed);
      if inFlight.Some? {
        ClearTimeout(inFlight.value.id);
        Promise(inFlight.value.pending.ticket, Rejected(SandboxClosed));
        inFlight := None;
      }
      Recycle();
    }

    method RejectQueued(error: Error)
      modifies this
      ensures Abs() == RejectQueue(old(Abs()), error)
    {
      var queued := queue;
      queue := [];
      ghost var before := Abs();
      for i := 0 to |queued|
        invariant Abs() == before.(exits := before.exits + Drops(queued[..i]),
                                   settled := before.settled + Rejections(queued[..i], error))
      {
        Promise(queued[i].ticket, Rejected(error));
        exits := exits + [Dropped(queued[i])];
        assert Drops(queued[..i + 1]) == Drops(queued[..i]) + [Dropped(queued[i])];
        assert Rejections(queued[..i + 1], error)
            == Rejections(queued[..i], error) + [Settlement(queued[i].ticket, Rejected(error))];
      }
      assert queued[..|queued|] == queued;
    }

    method Pump()
      modifies this
      ensures Abs() == SandboxSpec.Pump(clock, old(Abs()))
      decreases |queue|
    {
      if inFlight.Some? || |queue| == 0 {
        return;
      }
      var worker := EnsureWorker();
      if !ready {
        return;
      }
      var now := Now();
      var pending := queue[0];
      queue := queue[1..];
      var remaining := pending.deadlineAt - now;
      if remaining <= 0 {
        exits := exits + [Expired(pending, now)];
        Promise(pending.ticket, Rejected(BudgetExceeded(budgetMs)));
        Pump();
        return;
      }
      var id := nextId;
      nextId := nextId + 1;
      SetTimeout(id, now + remaining);
      inFlight := Some(InFlight(pending, id));
      PostMessage(worker, id, pending, now, remaining);
    }

    ghost method SetTimeout(id: nat, due: int)
      modifies this`timers
      ensures timers == old(timers)[id := due]
    {
      timers := timers[id := due];
    }

    ghost method ClearTimeout(id: nat)
      modifies this`timers
      ensures timers == old(timers) - {id}
    {
      timers := timers - {id};
    }

    ghost method PostMessage(worker: nat, id: nat, pending: Pending, at: int, delay: int)
      modifies this`exits
      ensures exits == old(exits) + [Posted(pending, worker, id, at, delay)]
    {
      exits := exits + [Posted(pending, worker, id, at, delay)];
    }

    method EnsureWorker() returns (current: nat)
      modifies this`worker, this`ready, this`spawned
      ensures Abs() == SandboxSpec.EnsureWorker(old(Abs()))
      ensures worker == Some(current)
    {
      if worker.Some? {
        return worker.value;
      }
      ready := false;
      current := spawned;
      spawned := spawned + 1;
      worker := Some(current);
    }

    method OnReady(from: nat)
      modifies this
      ensures Abs() == Step(clock, old(Abs()), Ready(from))
    {
      if worker != Some(from) {
        return;
      }
      ready := true;
      Pump();
    }

    method OnReply(from: nat, id: nat, result: Result)
      modifies this
      ensures Abs() == Step(clock, old(Abs()), Reply(from, id, result))
    {
      if worker != Some(from) {
        return;
      }
      var landed := SettleInFlight(id);
      if landed.None? {
        return;
      }
      match result {
        case Ok(value) => Promise(landed.value.pending.ticket, Resolved(value));
        case Err(error) => Promise(landed.value.pending.ticket, Rejected(Thrown(error)));
      }
      Pump();
    }

    method OnWorkerFailure(from: nat, error: string)
      modifies this
      ensures Abs() == Step(clock, old(Abs()), Failure(from, error))
    {
      if worker != Some(from) {
        return;
      }
      var flying := inFlight;
      inFlight := None;
      if flying.Some? {
        ClearTimeout(flying.value.id);
        Promise(flying.value.pending.ticket, Rejected(Thrown(error)));
      }
      if !ready {
        RejectQueued(Thrown(error));
      }
      Recycle();
      Pump();
    }

    method OnBudgetExceeded(id: nat)
      modifies this
      ensures Abs() == Step(clock, old(Abs()), Timer(id))
    {
      var landed := SettleInFlight(id);
      if landed.None? {
        return;
      }
      Promise(landed.value.pending.ticket, Rejected(BudgetExceeded(budgetMs)));
      Recycle();
      Pump();
    }

    /** The task `id`, taken out of flight, or nothing when another task or none is there by now. */
    method SettleInFlight(id: nat) returns (landed: Option<InFlight>)
      modifies this`inFlight, this`timers
      ensures landed == if old(inFlight).Some? && old(inFlight).value.id == id then old(inFlight) else None
      ensures Abs() == if landed.Some? then ClearInFlight(old(Abs())) else old(Abs())
    {
      if inFlight.None? || inFlight.value.id != id {
        return None;
      }
      landed := inFlight;
      ClearTimeout(id);
      inFlight := None;
    }

    method Recycle()
      modifies this`worker, this`ready, this`terminated
      ensures Abs() == RecycleWorker(old(Abs()))
    {
      var recycled := worker;
      worker := None;
      ready := false;
      if recycled.Some? {
        terminated := terminated + {recycled.value};
      }
    }
  }
}
