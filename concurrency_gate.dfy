/**
 * The concurrency gate of findLargestDirs.js (`enqueue`, `processQueue`,
 * `MAX_CONCURRENT`, `currentConcurrent`, `queue`), as a sequential state
 * machine. Each submitted task gets a ticket, numbered in submission order;
 * starting a task's work and the settling of its promise are events that
 * change the gate's state. No caller in findLargestDirs.js submits to it.
 */
module ConcurrencyGate {

  /** `MAX_CONCURRENT`. */
  const MaxConcurrent: nat := 20

  /** How a task's promise settled: passed on to its submitter by `resolve` or `reject`. */
  datatype Outcome = Fulfilled | Rejected

  /**
   * How many queued tasks one drain starts with `active` tasks running and
   * `pending` waiting: as many as there are free slots, but no more than wait.
   */
  function Admissible(active: nat, pending: nat): (k: nat)
    requires active <= MaxConcurrent
    ensures k <= pending && active + k <= MaxConcurrent
    ensures k == pending || active + k == MaxConcurrent
  {
    if MaxConcurrent - active <= pending then MaxConcurrent - active else pending
  }

  class Gate {
    /** `currentConcurrent`: tasks started and not yet settled. */
    var currentConcurrent: nat
    /** `queue`: tickets of the tasks waiting for a slot, oldest first. */
    var queue: seq<nat>
    /** The ticket the next submitted task gets. */
    var nextTicket: nat

    /** Tickets in the order their work was started. */
    ghost var admitted: seq<nat>
    /** Tickets started and not yet settled. */
    ghost var running: set<nat>
    /** What each settled task's submitter was told. */
    ghost var settled: map<nat, Outcome>

    /** The gate's bookkeeping, which holds at every step. */
    ghost predicate Consistent()
      reads this
    {
      // the bound on concurrently running tasks
      && currentConcurrent <= MaxConcurrent
      && currentConcurrent == |running|
      // FIFO: the i-th task started is the i-th submitted; the rest wait in submission order
      && (forall i :: 0 <= i < |admitted| ==> admitted[i] == i)
      && (forall j :: 0 <= j < |queue| ==> queue[j] == |admitted| + j)
      && |admitted| + |queue| == nextTicket
      // every started task is either running or settled, never both
      && (forall t :: t in running ==> t < |admitted|)
      && (forall t :: t in settled ==> t < |admitted|)
      && running !! settled.Keys
      && |running| + |settled| == |admitted|
    }

    /** After every drain: a task waits only while every slot is taken. */
    ghost predicate Drained()
      reads this
    {
      queue == [] || currentConcurrent == MaxConcurrent
    }

    ghost predicate Valid()
      reads this
    {
      Consistent() && Drained()
    }

    /** The module's initial state: nothing running, nothing queued. */
    constructor ()
      ensures Valid()
      ensures currentConcurrent == 0 && queue == [] && nextTicket == 0
      ensures admitted == [] && running == {} && settled == map[]
    {
      currentConcurrent := 0;
      queue := [];
      nextTicket := 0;
      admitted := [];
      running := {};
      settled := map[];
    }

    /**
     * `processQueue`: while a slot is free and a task waits, take the oldest
     * waiting task, count it as running and start its work. Returns the
     * tickets started, in order.
     */
    method ProcessQueue() returns (started: seq<nat>)
      requires Consistent()
      modifies this
      ensures Valid()
      ensures |started| == Admissible(old(currentConcurrent), |old(queue)|)
      ensures started == old(queue)[..|started|] && queue == old(queue)[|started|..]
      ensures currentConcurrent == old(currentConcurrent) + |started|
      ensures admitted == old(admitted) + started
      ensures running == old(running) + set t | t in started
      ensures settled == old(settled) && nextTicket == old(nextTicket)
    {
      started := [];
      while currentConcurrent < MaxConcurrent && |queue| > 0
        invariant Consistent()
        invariant |started| <= |old(queue)|
        invariant started == old(queue)[..|started|] && queue == old(queue)[|started|..]
        invariant currentConcurrent == old(currentConcurrent) + |started|
        invariant admitted == old(admitted) + started
        invariant running == old(running) + set t | t in started
        invariant settled == old(settled) && nextTicket == old(nextTicket)
        decreases |queue|
      {
        var ticket := AdmitOne();
        started := started + [ticket];
        assert old(queue)[..|started|] == old(queue)[..|started| - 1] + [ticket];
      }
    }

    /** One turn of the drain loop: `queue.shift()`, `currentConcurrent++`, `fn()`. */
    method AdmitOne() returns (ticket: nat)
      requires Consistent()
      requires currentConcurrent < MaxConcurrent && queue != []
      modifies this
      ensures Consistent()
      ensures ticket == old(queue)[0] && queue == old(queue)[1..]
      ensures currentConcurrent == old(currentConcurrent) + 1
      ensures admitted == old(admitted) + [ticket]
      ensures running == old(running) + {ticket}
      ensures settled == old(settled) && nextTicket == old(nextTicket)
    {
      ticket := queue[0];
      assert ticket !in running && ticket !in settled;
      queue := queue[1..];
      currentConcurrent := currentConcurrent + 1;
      admitted := admitted + [ticket];
      running := running + {ticket};
    }

    /**
     * `enqueue(fn)`: the task joins the back of the queue and the queue is
     * drained. Returns its ticket and the tickets whose work started.
     */
    method Submit() returns (ticket: nat, started: seq<nat>)
      requires Valid()
      modifies this
      ensures Valid()
      ensures ticket == old(nextTicket) && nextTicket == old(nextTicket) + 1
      ensures var waiting := old(queue) + [ticket];
              |started| == Admissible(old(currentConcurrent), |waiting|) &&
              started == waiting[..|started|] && queue == waiting[|started|..]
      ensures started == (if old(currentConcurrent) < MaxConcurrent then [ticket] else [])
      ensures currentConcurrent == old(currentConcurrent) + |started|
      ensures admitted == old(admitted) + started
      ensures running == old(running) + set t | t in started
      ensures settled == old(settled)
    {
      ticket := nextTicket;
      queue := queue + [ticket];
      nextTicket := nextTicket + 1;
      started := ProcessQueue();
    }

    /**
     * The `finally` of a started task: whether it fulfilled or rejected, its
     * submitter is told, its slot is released and the queue is drained.
     */
    method Complete(ticket: nat, outcome: Outcome) returns (started: seq<nat>)
      requires Valid()
      requires ticket in running
      modifies this
      ensures Valid()
      ensures ticket !in running && ticket in settled && settled == old(settled)[ticket := outcome]
      ensures started == (if old(queue) == [] then [] else [old(queue)[0]])
      ensures queue == old(queue)[|started|..]
      ensures currentConcurrent == old(currentConcurrent) - 1 + |started|
      ensures running == old(running) - {ticket} + set t | t in started
      ensures admitted == old(admitted) + started && nextTicket == old(nextTicket)
    {
      currentConcurrent := currentConcurrent - 1;
      running := running - {ticket};
      settled := settled[ticket := outcome];
      started := ProcessQueue();
    }
  }
}
