/**
 * The thread pool of 4/thread_pool.c as a state machine. Each locked region of the C code
 * is one atomic step: `push`, a worker taking the head of the queue, a worker finishing
 * its task, `join`, `detach` and `delete`. Threads, locks and condition variables are not
 * modelled; the task function is not run and its result is a parameter of the finishing
 * step. Which party frees a task is the ghost flag `freed`; where the pool holds a task
 * (its queue or a worker) is the ghost field `place`.
 */
module ThreadPool {
  import opened Common

  /** `TPOOL_MAX_THREADS` and `TPOOL_MAX_TASKS`. */
  const TPOOL_MAX_THREADS := 20
  const TPOOL_MAX_TASKS := 100000

  /** The `TPOOL_ERR_*` codes of the modelled steps; a call that returns 0 gives `None`. */
  datatype PoolError = InvalidArgument | TooManyTasks | TaskNotPushed | TaskInPool | HasTasks

  datatype Status = New | Pushed | Running | Finished | Joined | Detached

  /** Where the pool holds a task: nowhere, in its queue, or on a worker. */
  datatype Place = Outside | Queued | OnWorker

  /** The opaque `void *` a task function returns. */
  type Value = int

  /** The steps of a task's life, from the pool's side and from its owner's. */
  datatype Event = Pushing | PickingUp | Finishing | Joining | Detaching | Deleting

  /** What a step does to a task: its new status, the error it returns, and whether it frees it. */
  datatype Transition = Transition(status: Status, err: Option<PoolError>, frees: bool)

  /**
   * The task status table of 4/thread_pool.c. `Pushing` is the task check of
   * `thread_pool_push_task` once the queue has room; `PickingUp` and `Finishing` are the
   * two locked regions of `worker_thread`; `Joining` is `thread_task_join` once its wait
   * is over (a task still in the pool only makes it wait); `Detaching` and `Deleting` are
   * `thread_task_detach` and `thread_task_delete`.
   */
  function Next(s: Status, e: Event): Transition {
    match e
    case Pushing =>
      if s == New || s == Joined then Transition(Pushed, None, false) else Transition(s, Some(TaskInPool), false)
    case PickingUp =>
      if s == Detached then Transition(s, None, false) else Transition(Running, None, false)
    case Finishing =>
      if s == Detached then Transition(s, None, true)
      else if s == Running then Transition(Finished, None, false)
      else Transition(s, None, false)
    case Joining =>
      if s == New || s == Detached || s == Joined then Transition(s, Some(TaskNotPushed), false)
      else Transition(Joined, None, false)
    case Detaching =>
      if s == Detached then Transition(s, None, false)
      else if s == New || s == Joined then Transition(s, Some(TaskNotPushed), false)
      else if s == Finished then Transition(Detached, None, true)
      else Transition(Detached, None, false)
    case Deleting =>
      if s == Detached then Transition(s, None, false)
      else if s == New || s == Joined then Transition(s, None, true)
      else Transition(s, Some(TaskInPool), false)
  }

  /** A task's status may go with where the pool holds it. */
  predicate Holdable(place: Place, s: Status) {
    match place
    case Outside => s != Pushed && s != Running
    case Queued => s == Pushed || s == Detached
    case OnWorker => s == Running || s == Detached
  }

  /** Everything the model tracks about one task. */
  datatype Life = Life(status: Status, place: Place, freed: bool)

  /**
   * Whether a step can happen: the pool takes only a queued task and finishes only one on
   * a worker; its owner calls nothing on a freed task; a `join` of a task still in the
   * pool has not returned yet; and a `push` finds room in the queue.
   */
  predicate Enabled(l: Life, e: Event) {
    match e
    case Pushing => !l.freed && l.place != Queued
    case PickingUp => l.place == Queued
    case Finishing => l.place == OnWorker
    case Joining => !l.freed && l.status != Pushed && l.status != Running
    case Detaching => !l.freed
    case Deleting => !l.freed
  }

  /** A step on a task's life, following the status table. */
  function Step(l: Life, e: Event): Life {
    var t := Next(l.status, e);
    var place :=
      match e
      case Pushing => if t.err == None then Queued else l.place
      case PickingUp => OnWorker
      case Finishing => Outside
      case _ => l.place;
    Life(t.status, place, l.freed || t.frees)
  }

  /** The pool holds no freed task, and its status goes with where it is held. */
  predicate Sound(l: Life) {
    Holdable(l.place, l.status) && (l.place != Outside ==> !l.freed)
  }

  /**
   * One step keeps a task's life sound, and a step that frees the task finds it neither
   * freed already nor held by the pool, unless it is the pool's own last step on it.
   */
  lemma StepKeepsSound(l: Life, e: Event)
    requires Sound(l) && Enabled(l, e)
    ensures Sound(Step(l, e))
    ensures Next(l.status, e).frees ==> !l.freed && (l.place == Outside || e == Finishing)
  {
  }

  /** The life of a task after a series of steps, each of which must be enabled. */
  function Run(l: Life, es: seq<Event>): Life
    decreases |es|
  {
    if es == [] then l else Run(Step(l, es[0]), es[1..])
  }

  predicate AllEnabled(l: Life, es: seq<Event>)
    decreases |es|
  {
    es == [] || (Enabled(l, es[0]) && AllEnabled(Step(l, es[0]), es[1..]))
  }

  /** How many steps of a series free the task. */
  function Frees(l: Life, es: seq<Event>): nat
    decreases |es|
  {
    if es == [] then 0 else (if Next(l.status, es[0]).frees then 1 else 0) + Frees(Step(l, es[0]), es[1..])
  }

  /**
   * Who frees a task: along any series of steps from a sound life, the life stays sound,
   * so the pool never holds a freed task, and the task is freed at most once, and not at
   * all if it was freed before.
   */
  lemma {:induction false} RunIsSound(l: Life, es: seq<Event>)
    requires Sound(l) && AllEnabled(l, es)
    ensures Sound(Run(l, es))
    ensures Frees(l, es) <= (if l.freed then 0 else 1)
    ensures Run(l, es).freed <==> l.freed || Frees(l, es) == 1
    decreases |es|
  {
    if es != [] {
      StepKeepsSound(l, es[0]);
      RunIsSound(Step(l, es[0]), es[1..]);
    }
  }

  /** A new task, as `thread_task_new` makes it. */
  const Fresh := Life(New, Outside, false)

  /** The outcome of one pass of `thread_task_join`. */
  datatype JoinStep = JoinFailed(error: PoolError) | MustWait | JoinDone(result: Value)

  class Task {
    var status: Status
    /** `result`, written when the task function returns. */
    var result: Value
    ghost var place: Place
    ghost var freed: bool

    ghost function State(): Life
      reads this
    {
      Life(status, place, freed)
    }

    ghost predicate Valid()
      reads this
    {
      Sound(State())
    }

    /** `thread_task_new` once its allocations succeed. */
    constructor ()
      ensures Valid() && State() == Fresh
    {
      status, result := New, 0;
      place, freed := Outside, false;
    }

    /** `thread_task_is_finished`. */
    predicate IsFinished()
      reads this
    {
      status == Finished || status == Joined
    }

    /** `thread_task_is_running`. */
    predicate IsRunning()
      reads this
    {
      status == Running
    }

    /** A worker takes this queued task: it runs unless its owner has detached it. */
    method PickUp()
      requires Valid() && place == Queued
      modifies this
      ensures Valid() && status == Next(old(status), PickingUp).status && place == OnWorker
      ensures freed == old(freed) && result == old(result)
    {
      if status != Detached {
        status := Running;
      }
      place := OnWorker;
    }

    /**
     * `thread_task_join` up to its wait: a task that is new, detached or joined gives
     * `TASK_NOT_PUSHED`; a finished one becomes joined and hands over its result; a task
     * still in the pool makes the caller wait for it (`Rejoin`).
     */
    method Join() returns (r: JoinStep)
      requires Valid() && !freed
      modifies this
      ensures Valid() && place == old(place) && !freed && result == old(result)
      ensures old(status) == Pushed || old(status) == Running ==> r == MustWait && status == old(status)
      ensures old(status) != Pushed && old(status) != Running ==>
        && status == Next(old(status), Joining).status
        && r == (if Next(old(status), Joining).err == None then JoinDone(result) else JoinFailed(TaskNotPushed))
    {
      if status == New || status == Detached || status == Joined {
        return JoinFailed(TaskNotPushed);
      }
      if status != Finished {
        return MustWait;
      }
      status := Joined;
      r := JoinDone(result);
    }

    /**
     * The wait loop of `thread_task_join` once the caller is signalled: a finished task
     * becomes joined, and a finished or joined one hands over its result; the caller
     * waits on for any other task.
     */
    method Rejoin() returns (r: JoinStep)
      requires Valid() && !freed
      modifies this
      ensures Valid() && place == old(place) && !freed && result == old(result)
      ensures old(status) == Finished || old(status) == Joined ==> r == JoinDone(result) && status == Joined
      ensures old(status) != Finished && old(status) != Joined ==> r == MustWait && status == old(status)
    {
      if status != Finished && status != Joined {
        return MustWait;
      }
      status := Joined;
      r := JoinDone(result);
    }

    /**
     * `thread_task_detach`: a detached task stays so; a new or joined one gives
     * `TASK_NOT_PUSHED`; a finished one is freed at once; one still in the pool becomes
     * detached, and the worker that runs it frees it.
     */
    method Detach() returns (err: Option<PoolError>)
      requires Valid() && !freed
      modifies this
      ensures Valid() && place == old(place) && result == old(result)
      ensures var t := Next(old(status), Detaching); status == t.status && err == t.err && freed == t.frees
    {
      if status == Detached {
        return None;
      }
      if status == New || status == Joined {
        return Some(TaskNotPushed);
      }
      if status == Finished {
        status := Detached;
        freed := true;
        return None;
      }
      status := Detached;
      err := None;
    }

    /**
     * `thread_task_delete`: a detached task is left to the worker that runs it; a new or
     * joined one is freed; one still in the pool gives `TASK_IN_POOL`.
     */
    method Delete() returns (err: Option<PoolError>)
      requires Valid() && !freed
      modifies this
      ensures Valid() && place == old(place) && status == old(status) && result == old(result)
      ensures var t := Next(old(status), Deleting); err == t.err && freed == t.frees
    {
      if status == Detached {
        return None;
      }
      if status != New && status != Joined {
        return Some(TaskInPool);
      }
      freed := true;
      err := None;
    }
  }

  class Pool {
    /** `max_threads`. */
    const maxThreads: nat
    /** `task_queue`, with room for `TPOOL_MAX_TASKS` tasks; `queue[0 .. queueSize)` are queued. */
    const queue: array<Task?>
    var queueSize: nat
    /** Workers running a task. */
    var activeThreads: nat
    /** Workers started. */
    var count: nat
    var shutdown: bool
    /** The tasks the active workers run. */
    ghost var running: set<Task>

    ghost predicate Valid()
      reads this, queue
    {
      && 1 <= maxThreads <= TPOOL_MAX_THREADS
      && queue.Length == TPOOL_MAX_TASKS && queueSize <= queue.Length
      && activeThreads <= count <= maxThreads
      && |running| == activeThreads
      && (forall i :: 0 <= i < queueSize ==> queue[i] != null && queue[i] !in running)
      && (forall i, j :: 0 <= i < j < queueSize ==> queue[i] != queue[j])
    }

    /** The queued tasks, oldest first. */
    ghost function Queue(): seq<Task?>
      reads this, queue
      requires Valid()
    {
      queue[..queueSize]
    }

    ghost function Held(): set<Task?>
      reads this, queue
      requires Valid()
    {
      (set i | 0 <= i < queueSize :: queue[i]) + running
    }

    /** The tasks the pool holds are where their `place` says, and sound. */
    ghost predicate Holds()
      reads this, queue, Held()
      requires Valid()
    {
      && (forall i :: 0 <= i < queueSize ==> queue[i].place == Queued && queue[i].Valid())
      && (forall t :: t in running ==> t.place == OnWorker && t.Valid())
    }

    constructor (maxThreadCount: nat)
      requires 1 <= maxThreadCount <= TPOOL_MAX_THREADS
      ensures Valid() && Holds() && fresh(queue)
      ensures maxThreads == maxThreadCount && Queue() == [] && count == 0 && activeThreads == 0 && !shutdown
    {
      maxThreads := maxThreadCount;
      queue := new Task?[TPOOL_MAX_TASKS](_ => null);
      queueSize, activeThreads, count, shutdown := 0, 0, 0, false;
      running := {};
    }

    /** `thread_pool_thread_count`. */
    function ThreadCount(): (n: nat)
      reads this, queue
      requires Valid()
      ensures n <= maxThreads
    {
      count
    }

    /**
     * `thread_pool_push_task`, `spawned` being whether `pthread_create` succeeds: no task
     * gives `INVALID_ARGUMENT`, a full queue `TOO_MANY_TASKS`, a task that is not new or
     * joined `TASK_IN_POOL`, all changing nothing. Otherwise the task is pushed at the tail
     * of the queue, and a worker is started when there are fewer than `max_threads` and
     * all of them are busy.
     */
    method Push(task: Task?, spawned: bool) returns (err: Option<PoolError>)
      requires Valid() && Holds() && (task != null ==> task.Valid() && !task.freed)
      modifies this, queue, task
      ensures Valid() && Holds() && shutdown == old(shutdown)
      ensures running == old(running) && activeThreads == old(activeThreads)
      ensures task == null ==> err == Some(InvalidArgument) && Queue() == old(Queue()) && count == old(count)
      ensures task != null && old(queueSize) >= TPOOL_MAX_TASKS ==>
        err == Some(TooManyTasks) && Queue() == old(Queue()) && count == old(count) && unchanged(task)
      ensures task != null && old(queueSize) < TPOOL_MAX_TASKS ==>
        var t := Next(old(task.status), Pushing);
        && err == t.err && task.status == t.status && !task.freed && task.result == old(task.result)
        && (err != None ==> Queue() == old(Queue()) && count == old(count) && task.place == old(task.place))
        && (err == None ==>
              && task.place == Queued && Queue() == old(Queue()) + [task]
              && count == if old(count) < maxThreads && old(activeThreads) == old(count) && spawned
                          then old(count) + 1 else old(count))
    {
      if task == null {
        return Some(InvalidArgument);
      }
      if queueSize >= queue.Length {
        return Some(TooManyTasks);
      }
      if task.status != New && task.status != Joined {
        return Some(TaskInPool);
      }
      Enqueue(task);
      if count < maxThreads && activeThreads == count && spawned {
        count := count + 1;
      }
      err := None;
    }

    /** The task, new or joined, is marked pushed and joins the tail of the queue. */
    method Enqueue(task: Task)
      requires Valid() && Holds() && queueSize < queue.Length
      requires task.Valid() && !task.freed && (task.status == New || task.status == Joined)
      modifies this, queue, task
      ensures Valid() && Holds() && Queue() == old(Queue()) + [task]
      ensures count == old(count) && activeThreads == old(activeThreads) && running == old(running) && shutdown == old(shutdown)
      ensures task.status == Pushed && task.place == Queued && !task.freed && task.result == old(task.result)
    {
      ghost var q := Queue();
      var n := queueSize;
      assert forall i :: 0 <= i < n ==> queue[i] != task;
      assert task !in running;
      queue[n] := task;
      assert forall i :: 0 <= i < n ==> queue[i] == q[i];
      queueSize := n + 1;
      assert forall i :: 0 <= i < n ==> queue[i] != null && queue[i] != queue[n] && queue[i] !in running;
      assert Valid();
      assert Queue() == q + [task];
      task.status := Pushed;
      task.place := Queued;
    }

    /**
     * The first locked region of `worker_thread`, by an idle worker of a pool that is not
     * shutting down, with a task queued: it takes the oldest task, moves the rest one
     * slot toward the front, and marks the task running unless its owner has detached it.
     */
    method Take() returns (task: Task)
      requires Valid() && Holds() && queueSize > 0 && activeThreads < count && !shutdown
      modifies this, queue, queue[0]
      ensures Valid() && Holds() && count == old(count) && shutdown == old(shutdown)
      ensures task == old(Queue())[0] && Queue() == old(Queue())[1..]
      ensures task.status == Next(old(task.status), PickingUp).status && task.place == OnWorker
      ensures task.freed == old(task.freed) && task.result == old(task.result)
      ensures running == old(running) + {task} && activeThreads == old(activeThreads) + 1
    {
      task := Dequeue();
      task.PickUp();
      running := running + {task};
      activeThreads := activeThreads + 1;
    }

    /** The queue side of `Take`: the oldest task leaves the queue, the rest move up. */
    method Dequeue() returns (task: Task)
      requires Valid() && Holds() && queueSize > 0
      modifies this, queue
      ensures Valid() && Holds() && task == old(Queue())[0] && Queue() == old(Queue())[1..]
      ensures task.place == Queued && task.Valid() && task !in running
      ensures forall k :: 0 <= k < queueSize ==> queue[k] != task
      ensures count == old(count) && activeThreads == old(activeThreads) && running == old(running) && shutdown == old(shutdown)
    {
      task := queue[0];
      ShiftLeft();
      queueSize := queueSize - 1;
      queue[queueSize] := null;
      assert forall k :: 0 <= k < queueSize ==> queue[k] == old(queue[k + 1]);
      assert Queue() == old(Queue())[1..];
    }

    /** The loop of `worker_thread` that moves the queued tasks but the first one slot toward the front. */
    method ShiftLeft()
      requires 0 < queueSize <= queue.Length
      modifies queue
      ensures forall k :: 0 <= k < queueSize - 1 ==> queue[k] == old(queue[k + 1])
      ensures forall k :: queueSize - 1 <= k < queue.Length ==> queue[k] == old(queue[k])
    {
      var i := 0;
      while i < queueSize - 1
        invariant 0 <= i <= queueSize - 1
        invariant forall k :: 0 <= k < i ==> queue[k] == old(queue[k + 1])
        invariant forall k :: i <= k < queue.Length ==> queue[k] == old(queue[k])
      {
        queue[i] := queue[i + 1];
        i := i + 1;
      }
    }

    /**
     * The second locked region of `worker_thread`, once the function of `task` returned
     * `value`: the result is recorded; a running task becomes finished, a detached one is
     * freed by the worker; and the worker is idle again.
     */
    method Finish(task: Task, value: Value)
      requires Valid() && Holds() && task in running
      modifies this, task
      ensures Valid() && Holds() && count == old(count) && shutdown == old(shutdown) && Queue() == old(Queue())
      ensures var t := Next(old(task.status), Finishing); task.status == t.status && task.freed == t.frees
      ensures task.result == value && task.place == Outside
      ensures running == old(running) - {task} && activeThreads == old(activeThreads) - 1
    {
      task.result := value;
      if task.status == Detached {
        task.freed := true;
      } else if task.status == Running {
        task.status := Finished;
      }
      task.place := Outside;
      running := running - {task};
      activeThreads := activeThreads - 1;
    }

    /** An idle worker that finds the pool shutting down stops. */
    method Exit()
      requires Valid() && shutdown && activeThreads < count
      modifies this
      ensures Valid() && count == old(count) - 1
      ensures queueSize == old(queueSize) && running == old(running) && activeThreads == old(activeThreads) && shutdown
    {
      count := count - 1;
    }

    /**
     * `thread_pool_delete`: a pool with queued tasks or busy workers gives `HAS_TASKS` and
     * stays usable; otherwise it shuts down, and every worker it started stops and is joined.
     */
    method Delete() returns (err: Option<PoolError>)
      requires Valid()
      modifies this
      ensures Valid() && queueSize == old(queueSize) && running == old(running)
      ensures old(queueSize) > 0 || old(activeThreads) > 0 ==>
        err == Some(HasTasks) && shutdown == old(shutdown) && count == old(count)
      ensures old(queueSize) == 0 && old(activeThreads) == 0 ==> err == None && shutdown && count == 0
    {
      if queueSize > 0 || activeThreads > 0 {
        return Some(HasTasks);
      }
      shutdown := true;
      var threadsToJoin := count;
      var i := 0;
      while i < threadsToJoin
        invariant Valid() && i <= threadsToJoin && count == threadsToJoin - i
        invariant shutdown && queueSize == old(queueSize) && running == old(running) && activeThreads == 0
      {
        Exit();
        i := i + 1;
      }
      err := None;
    }
  }

  /**
   * `thread_pool_new`: a thread limit outside `1 .. TPOOL_MAX_THREADS` gives
   * `INVALID_ARGUMENT`; otherwise the pool starts with no workers and an empty queue.
   */
  method NewPool(maxThreadCount: int) returns (pool: Pool?, err: Option<PoolError>)
    ensures maxThreadCount < 1 || maxThreadCount > TPOOL_MAX_THREADS ==> pool == null && err == Some(InvalidArgument)
    ensures 1 <= maxThreadCount <= TPOOL_MAX_THREADS ==>
      && err == None && pool != null && fresh(pool) && pool.Valid() && pool.Holds()
      && pool.maxThreads == maxThreadCount && pool.Queue() == [] && pool.count == 0 && !pool.shutdown
  {
    if maxThreadCount < 1 || maxThreadCount > TPOOL_MAX_THREADS {
      return null, Some(InvalidArgument);
    }
    pool := new Pool(maxThreadCount);
    err := None;
  }
}
