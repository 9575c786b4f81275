/**
 The queue discipline of `ThreadPool`, with threads, the mutex and the
 condition variable abstracted away: a FIFO of pending tasks and a `stop`
 flag. A worker step is one pass of a worker's loop body under the lock.
 */
module WorkerPool {

  /** The state the queue mutex protects. */
  datatype PoolState<T> = PoolState(tasks: seq<T>, stop: bool)

  /**
   What one worker step does: keep waiting on the condition variable, leave
   the worker loop, or take a task to run outside the lock.
   */
  datatype Step<T> = Wait | Exit | Run(task: T)

  /** `enqueue`: the task goes to the back of the queue, behind the queued ones. */
  function Enqueued<T>(p: PoolState<T>, t: T): (q: PoolState<T>)
    ensures |q.tasks| == |p.tasks| + 1 && q.tasks[..|p.tasks|] == p.tasks && q.tasks[|p.tasks|] == t
    ensures q.stop == p.stop
  {
    PoolState(p.tasks + [t], p.stop)
  }

  /** The destructor's first act: set `stop`, keep the queue. */
  function Stopped<T>(p: PoolState<T>): (q: PoolState<T>)
    ensures q.stop && q.tasks == p.tasks
  {
    PoolState(p.tasks, true)
  }

  /** One pass of the worker loop body. */
  function Next<T>(p: PoolState<T>): (r: (Step<T>, PoolState<T>))
    ensures r.0 == Exit <==> p.stop && p.tasks == []
    ensures r.0 == Wait <==> !p.stop && p.tasks == []
    ensures r.0.Run? ==> r.0.task == p.tasks[0] && r.1.tasks == p.tasks[1..]
    ensures r.1.stop == p.stop && (!r.0.Run? ==> r.1 == p)
  {
    if !p.stop && p.tasks == [] then (Wait, p)
    else if p.stop && p.tasks == [] then (Exit, p)
    else (Run(p.tasks[0]), PoolState(p.tasks[1..], p.stop))
  }

  /** The steps a worker takes in `n` passes of its loop, and the state left behind. */
  function Work<T>(p: PoolState<T>, n: nat): (r: (seq<Step<T>>, PoolState<T>))
    ensures |r.0| == n
    ensures r.1.stop == p.stop && |r.1.tasks| <= |p.tasks|
    decreases n
  {
    if n == 0 then ([], p)
    else
      var next := Next(p);
      var rest := Work(next.1, n - 1);
      ([next.0] + rest.0, rest.1)
  }

  function Runs<T>(ts: seq<T>): (steps: seq<Step<T>>)
  {
    seq(|ts|, i requires 0 <= i < |ts| => Run(ts[i]))
  }

  /**
   As long as tasks are queued, each step hands out the front task and
   removes exactly that one: tasks leave in FIFO order, each once, whether or
   not `stop` is set.
   */
  lemma {:induction false} WorkIsFifo<T>(p: PoolState<T>, n: nat)
    requires n <= |p.tasks|
    ensures Work(p, n) == (Runs(p.tasks[..n]), PoolState(p.tasks[n..], p.stop))
    decreases n
  {
    if n > 0 {
      var q := Next(p).1;
      assert Work(p, n).0 == [Run(p.tasks[0])] + Work(q, n - 1).0;
      WorkIsFifo(q, n - 1);
      assert q.tasks[..n - 1] == p.tasks[1..n];
      assert q.tasks[n - 1..] == p.tasks[n..];
      assert Runs(p.tasks[..n]) == [Run(p.tasks[0])] + Runs(p.tasks[1..n]);
      assert Work(p, n).0 == Runs(p.tasks[..n]);
      assert Work(p, n).1 == PoolState(p.tasks[n..], p.stop);
    } else {
      assert p.tasks[0..] == p.tasks;
      assert Runs(p.tasks[..0]) == [];
    }
  }

  /** A task enqueued behind the queued ones is handed out right after them. */
  lemma EnqueueIsFifo<T>(p: PoolState<T>, t: T)
    ensures Work(Enqueued(p, t), |p.tasks| + 1).0 == Runs(p.tasks) + [Run(t)]
  {
    var q := Enqueued(p, t);
    WorkIsFifo(q, |q.tasks|);
    assert q.tasks[..|q.tasks|] == p.tasks + [t];
  }

  /**
   Drain: after `stop` is set the tasks still queued are all handed out, in
   order, and only then does the worker exit.
   */
  lemma DrainAfterStop<T>(p: PoolState<T>)
    ensures Work(Stopped(p), |p.tasks| + 1) == (Runs(p.tasks) + [Exit], PoolState([], true))
  {
    var s := Stopped(p);
    WorkIsFifo(s, |p.tasks|);
    WorkSplit(s, |p.tasks|, 1);
    assert s.tasks[..|p.tasks|] == p.tasks;
    var drained := PoolState([], true);
    assert Work(s, |p.tasks|).1 == drained;
    assert Work(drained, 1).0 == [Exit] + Work(drained, 0).0;
    assert Work(s, |p.tasks| + 1).0 == Runs(p.tasks) + [Exit];
  }

  /** Doing `m` steps then `k` more is doing `m + k` steps. */
  lemma {:induction false} WorkSplit<T>(p: PoolState<T>, m: nat, k: nat)
    ensures Work(p, m + k).0 == Work(p, m).0 + Work(Work(p, m).1, k).0
    ensures Work(p, m + k).1 == Work(Work(p, m).1, k).1
    decreases m
  {
    if m > 0 {
      WorkSplit(Next(p).1, m - 1, k);
    }
  }

  /** A worker never leaves its loop while `stop` is clear. */
  lemma {:induction false} NoExitWhileRunning<T>(p: PoolState<T>, n: nat)
    requires !p.stop
    ensures Exit !in Work(p, n).0
    ensures !Work(p, n).1.stop
    decreases n
  {
    if n > 0 {
      NoExitWhileRunning(Next(p).1, n - 1);
    }
  }

  /**
   A worker exits only once `stop` is set and every task that was queued
   has been handed out before the exit.
   */
  lemma {:induction false} ExitOnlyAfterDrain<T>(p: PoolState<T>, n: nat, k: nat)
    requires k < n && Work(p, n).0[k] == Exit
    ensures p.stop && |p.tasks| <= k
    ensures Work(p, n).0[..|p.tasks|] == Runs(p.tasks)
    decreases n
  {
    if p.tasks == [] {
      if !p.stop {
        assert Work(p, n).0[k] in Work(p, n).0;
        NoExitWhileRunning(p, n);
        assert false;
      }
    } else {
      var q := Next(p).1;
      assert Work(p, n).0 == [Run(p.tasks[0])] + Work(q, n - 1).0;
      ExitOnlyAfterDrain(q, n - 1, k - 1);
      assert Work(p, n).0[..|p.tasks|] == [Run(p.tasks[0])] + Work(q, n - 1).0[..|q.tasks|];
      assert Runs(p.tasks) == [Run(p.tasks[0])] + Runs(q.tasks);
    }
  }

  /**
   The pool object. `submitted` and `handedOut` are ghost history: every
   task ever enqueued, and every task a worker has taken, in order.
   */
  class ThreadPool<T> {
    var tasks: seq<T>
    var stop: bool
    ghost var submitted: seq<T>
    ghost var handedOut: seq<T>

    /** No task is lost or taken twice: the taken ones followed by the queue are all that was enqueued. */
    ghost predicate Valid()
      reads this
    {
      handedOut + tasks == submitted
    }

    function State(): PoolState<T>
      reads this
    {
      PoolState(tasks, stop)
    }

    /** Threads are not modelled; the pool starts running, with an empty queue. */
    constructor ()
      ensures Valid() && State() == PoolState([], false)
      ensures submitted == [] && handedOut == []
    {
      tasks := [];
      stop := false;
      submitted := [];
      handedOut := [];
    }

    method Enqueue(t: T)
      requires Valid()
      modifies this
      ensures Valid() && State() == Enqueued(old(State()), t)
      ensures submitted == old(submitted) + [t] && handedOut == old(handedOut)
    {
      tasks := tasks + [t];
      submitted := submitted + [t];
    }

    /** One pass of a worker's loop body, up to the point where the task would run. */
    method WorkerStep() returns (step: Step<T>)
      requires Valid()
      modifies this
      ensures Valid() && (step, State()) == Next(old(State()))
      ensures submitted == old(submitted)
      ensures handedOut == old(handedOut) + (if step.Run? then [step.task] else [])
    {
      if !stop && tasks == [] {
        return Wait;
      }
      if stop && tasks == [] {
        return Exit;
      }
      step := Run(tasks[0]);
      handedOut := handedOut + [tasks[0]];
      tasks := tasks[1..];
      assert old(tasks) == [step.task] + tasks;
    }

    /** The destructor sets `stop`; the workers it then joins are modelled by `WorkerStep`. */
    method Shutdown()
      requires Valid()
      modifies this`stop
      ensures Valid() && State() == Stopped(old(State()))
    {
      stop := true;
    }
  }
}
