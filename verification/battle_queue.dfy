/**
  The battle queue: a FIFO of combat intents with a one-way stop flag. Every
  operation is atomic here; the bounded wait of the consumer is modelled as an
  immediate answer.
*/
module BattleQueues {
  import opened Options

  /** A combat intent: the attacker and defender, as indices into the population. */
  datatype BattleTask = BattleTask(attacker: nat, defender: nat)

  datatype BattleQueue = BattleQueue(tasks: seq<BattleTask>, stopped: bool)

  /** A freshly constructed queue. */
  const EmptyQueue: BattleQueue := BattleQueue([], false)

  /** Appends at the back. The stop flag is not consulted: a stopped queue still accepts work. */
  function AddTask(q: BattleQueue, t: BattleTask): (r: BattleQueue)
    ensures |r.tasks| == |q.tasks| + 1
    ensures r.tasks[..|q.tasks|] == q.tasks && r.tasks[|q.tasks|] == t
    ensures r.stopped == q.stopped
  {
    q.(tasks := q.tasks + [t])
  }

  /** The outcome of one attempt to take a task: the task, if any, and the queue after. */
  datatype Taken = Taken(task: Option<BattleTask>, queue: BattleQueue)

  /** Takes the front task if there is one, whether or not the queue is stopped;
      on an empty queue it fails and changes nothing. */
  function TryGetTask(q: BattleQueue): (r: Taken)
    ensures r.task.Some? <==> |q.tasks| > 0
    ensures r.task.Some? ==> r.task.value == q.tasks[0] && r.queue == q.(tasks := q.tasks[1..])
    ensures r.task.None? ==> r.queue == q
  {
    if q.stopped && |q.tasks| == 0 then Taken(None, q)
    else if |q.tasks| > 0 then Taken(Some(q.tasks[0]), q.(tasks := q.tasks[1..]))
    else Taken(None, q)
  }

  /** Raises the stop flag; the buffered tasks are untouched. */
  function Stop(q: BattleQueue): (r: BattleQueue)
    ensures r.stopped
    ensures r.tasks == q.tasks
  {
    q.(stopped := true)
  }

  predicate IsEmpty(q: BattleQueue)
  {
    |q.tasks| == 0
  }

  predicate ShouldStop(q: BattleQueue)
  {
    q.stopped && |q.tasks| == 0
  }

  function Size(q: BattleQueue): nat
  {
    |q.tasks|
  }

  /** The flag does not close the queue to producers: a stopped, drained queue
      accepts a new task and delivers it to the next take. */
  lemma StoppedQueueAcceptsNewWork(t: BattleTask)
    ensures ShouldStop(Stop(EmptyQueue))
    ensures !ShouldStop(AddTask(Stop(EmptyQueue), t))
    ensures TryGetTask(AddTask(Stop(EmptyQueue), t)).task == Some(t)
  {
  }

  /** Stopping twice is the same as stopping once, and no operation lowers the flag. */
  lemma StopIsIdempotentAndSticky(q: BattleQueue, t: BattleTask)
    ensures Stop(Stop(q)) == Stop(q)
    ensures AddTask(Stop(q), t).stopped
    ensures TryGetTask(Stop(q)).queue.stopped
  {
  }

  /** `ShouldStop` holds exactly when the queue is stopped and a take would fail;
      `IsEmpty` agrees with `Size`. */
  lemma ShouldStopMeansTakeFails(q: BattleQueue)
    ensures ShouldStop(q) <==> q.stopped && TryGetTask(q).task.None?
    ensures IsEmpty(q) <==> Size(q) == 0
  {
  }

  /** Appends several tasks in order. */
  function AddAll(q: BattleQueue, ts: seq<BattleTask>): (r: BattleQueue)
    decreases |ts|
  {
    if |ts| == 0 then q else AddAll(AddTask(q, ts[0]), ts[1..])
  }

  /** The tasks collected by `n` successive takes, and the queue left behind. */
  datatype Drained = Drained(items: seq<BattleTask>, queue: BattleQueue)

  function TakeN(q: BattleQueue, n: nat): Drained
    decreases n
  {
    if n == 0 then Drained([], q)
    else
      var t := TryGetTask(q);
      if t.task.None? then Drained([], q)
      else
        var rest := TakeN(t.queue, n - 1);
        Drained([t.task.value] + rest.items, rest.queue)
  }

  lemma {:induction false} AddAllAppends(q: BattleQueue, ts: seq<BattleTask>)
    ensures AddAll(q, ts) == q.(tasks := q.tasks + ts)
    decreases |ts|
  {
    if |ts| > 0 {
      AddAllAppends(AddTask(q, ts[0]), ts[1..]);
      assert q.tasks + [ts[0]] + ts[1..] == q.tasks + ts;
    }
  }

  /** `n` takes return the first `n` tasks in order and leave the rest. */
  lemma {:induction false} TakeNYieldsPrefix(q: BattleQueue, n: nat)
    requires n <= |q.tasks|
    ensures TakeN(q, n).items == q.tasks[..n]
    ensures TakeN(q, n).queue == q.(tasks := q.tasks[n..])
    decreases n
  {
    if n > 0 {
      var t := TryGetTask(q);
      TakeNYieldsPrefix(t.queue, n - 1);
      assert [q.tasks[0]] + q.tasks[1..][..n - 1] == q.tasks[..n];
      assert q.tasks[1..][n - 1..] == q.tasks[n..];
    }
  }

  /** FIFO: whatever is added comes out after the earlier items, in the order added. */
  lemma FifoOrder(q: BattleQueue, ts: seq<BattleTask>)
    ensures TakeN(AddAll(q, ts), |q.tasks| + |ts|).items == q.tasks + ts
    ensures IsEmpty(TakeN(AddAll(q, ts), |q.tasks| + |ts|).queue)
  {
    AddAllAppends(q, ts);
    TakeNYieldsPrefix(AddAll(q, ts), |q.tasks| + |ts|);
    assert (q.tasks + ts)[..|q.tasks| + |ts|] == q.tasks + ts;
  }

  /** After a stop, every buffered task is still delivered, and only then do takes fail. */
  lemma StoppedQueueStillDelivers(q: BattleQueue)
    ensures TakeN(Stop(q), |q.tasks|).items == q.tasks
    ensures ShouldStop(TakeN(Stop(q), |q.tasks|).queue)
    ensures TryGetTask(TakeN(Stop(q), |q.tasks|).queue).task.None?
  {
    TakeNYieldsPrefix(Stop(q), |q.tasks|);
    assert q.tasks[..|q.tasks|] == q.tasks;
  }
}
