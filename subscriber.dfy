/**
 * The outstanding-task counter that makeExecutorCompletionService wraps around an
 * ExecutorCompletionService. Tasks and their results are not modelled; a submitted task is
 * known by the handle (Future) it returns, and the completion queue holds handles in the
 * order their tasks finished.
 */
module Subscriber {
  import opened Options

  /** A result handle, known by the order of its submission. */
  datatype Future = Future(id: nat)

  /** The wrapped ExecutorCompletionService, reduced to which handles are running and which finished. */
  class CompletionService {
    var issued: nat               // handles handed out so far: ids 0 .. issued-1
    var running: seq<Future>      // submitted, not finished
    var completed: seq<Future>    // finished and not yet retrieved, in completion order
    ghost var retrieved: nat      // handles removed by take or poll

    ghost predicate Valid()
      reads this
    {
      |running| + |completed| + retrieved == issued
    }

    /** Submitted tasks whose handle has not been retrieved. */
    ghost function Outstanding(): nat
      reads this
    {
      |running| + |completed|
    }

    constructor ()
      ensures Valid() && issued == 0 && running == [] && completed == [] && retrieved == 0
    {
      issued, running, completed, retrieved := 0, [], [], 0;
    }

    /** submit: schedule a task; its handle joins the running tasks. */
    method Submit() returns (f: Future)
      requires Valid()
      modifies this
      ensures Valid()
      ensures f == Future(old(issued)) && issued == old(issued) + 1
      ensures running == old(running) + [f] && completed == old(completed) && retrieved == old(retrieved)
    {
      f := Future(issued);
      issued := issued + 1;
      running := running + [f];
    }

    /** The executor finishes running task number k (a step of a worker thread, not of the caller). */
    method Finish(k: nat)
      requires Valid() && k < |running|
      modifies this
      ensures Valid()
      ensures running == old(running)[..k] + old(running)[k + 1..]
      ensures completed == old(completed) + [old(running)[k]]
      ensures issued == old(issued) && retrieved == old(retrieved)
    {
      completed := completed + [running[k]];
      running := running[..k] + running[k + 1..];
    }

    /** take: the oldest finished handle. Waiting while none has finished is not modelled. */
    method Take() returns (f: Future)
      requires Valid() && completed != []
      modifies this
      ensures Valid()
      ensures f == old(completed)[0] && completed == old(completed)[1..]
      ensures running == old(running) && issued == old(issued) && retrieved == old(retrieved) + 1
    {
      f := completed[0];
      completed := completed[1..];
      retrieved := retrieved + 1;
    }

    /** poll: the oldest finished handle, or None at once when none has finished. */
    method Poll() returns (f: Option<Future>)
      requires Valid()
      modifies this
      ensures Valid()
      ensures old(completed) == [] ==> f == None && retrieved == old(retrieved)
      ensures old(completed) != [] ==> f == Some(old(completed)[0]) && retrieved == old(retrieved) + 1
      ensures completed == if old(completed) == [] then [] else old(completed)[1..]
      ensures running == old(running) && issued == old(issued)
    {
      if completed == [] {
        f := None;
      } else {
        f := Some(completed[0]);
        completed := completed[1..];
        retrieved := retrieved + 1;
      }
    }
  }

  /** The anonymous FuturesCompletion: every call is delegated, and taskCount adjusted. */
  class FuturesCompletion {
    const exec: CompletionService
    var taskCount: int
    ghost var missedPolls: nat    // poll calls that returned no handle but still decremented

    ghost predicate Valid()
      reads this, exec
    {
      exec.Valid() && taskCount == exec.Outstanding() - missedPolls
    }

    constructor ()
      ensures Valid() && fresh(exec)
      ensures taskCount == 0 && missedPolls == 0 && exec.Outstanding() == 0 && exec.issued == 0
    {
      exec := new CompletionService();
      taskCount := 0;
      missedPolls := 0;
    }

    /** submit(Callable): +1. */
    method Submit<U>(task: () -> U) returns (f: Future)
      requires Valid()
      modifies this, exec
      ensures Valid()
      ensures taskCount == old(taskCount) + 1 && missedPolls == old(missedPolls)
      ensures f == Future(old(exec.issued)) && exec.issued == old(exec.issued) + 1
      ensures exec.running == old(exec.running) + [f] && exec.completed == old(exec.completed)
    {
      f := exec.Submit();
      taskCount := taskCount + 1;
    }

    /** submit(Runnable, result): +1. */
    method SubmitRunnable<U>(task: () -> (), result: U) returns (f: Future)
      requires Valid()
      modifies this, exec
      ensures Valid()
      ensures taskCount == old(taskCount) + 1 && missedPolls == old(missedPolls)
      ensures f == Future(old(exec.issued)) && exec.issued == old(exec.issued) + 1
      ensures exec.running == old(exec.running) + [f] && exec.completed == old(exec.completed)
    {
      f := exec.Submit();
      taskCount := taskCount + 1;
    }

    /** take: -1, and the handle is a finished one. */
    method Take() returns (f: Future)
      requires Valid() && exec.completed != []
      modifies this, exec
      ensures Valid()
      ensures taskCount == old(taskCount) - 1 && missedPolls == old(missedPolls)
      ensures f == old(exec.completed)[0] && exec.completed == old(exec.completed)[1..]
      ensures exec.running == old(exec.running) && exec.issued == old(exec.issued)
    {
      f := exec.Take();
      taskCount := taskCount - 1;
    }

    /** poll(): -1 whether or not a handle is returned. */
    method Poll() returns (f: Option<Future>)
      requires Valid()
      modifies this, exec
      ensures Valid()
      ensures taskCount == old(taskCount) - 1
      ensures f.None? <==> old(exec.completed) == []
      ensures f.Some? ==> f.value == old(exec.completed)[0] && missedPolls == old(missedPolls)
      ensures f.None? ==> missedPolls == old(missedPolls) + 1
      ensures exec.completed == if old(exec.completed) == [] then [] else old(exec.completed)[1..]
      ensures exec.running == old(exec.running) && exec.issued == old(exec.issued)
    {
      f := exec.Poll();
      taskCount := taskCount - 1;
      if f.None? {
        missedPolls := missedPolls + 1;
      }
    }

    /**
     * poll(timeout, unit): as poll(); with no worker step modelled during the wait, it returns
     * None exactly when nothing has finished. -1 whether or not a handle is returned.
     */
    method PollWithin(timeout: int) returns (f: Option<Future>)
      requires Valid()
      modifies this, exec
      ensures Valid()
      ensures taskCount == old(taskCount) - 1
      ensures f.None? <==> old(exec.completed) == []
      ensures f.Some? ==> f.value == old(exec.completed)[0] && missedPolls == old(missedPolls)
      ensures f.None? ==> missedPolls == old(missedPolls) + 1
      ensures exec.completed == if old(exec.completed) == [] then [] else old(exec.completed)[1..]
      ensures exec.running == old(exec.running) && exec.issued == old(exec.issued)
    {
      f := exec.Poll();
      taskCount := taskCount - 1;
      if f.None? {
        missedPolls := missedPolls + 1;
      }
    }

    /** count: the current value, nothing changes. */
    method Count() returns (c: int)
      requires Valid()
      ensures c == taskCount && c == exec.Outstanding() - missedPolls
    {
      c := taskCount;
    }
  }

  /** K submits, the K tasks finishing, and K takes bring a fresh counter back to 0. */
  method SubmitThenTakeAll(k: nat) returns (c: int)
    ensures c == 0
  {
    var service := new FuturesCompletion();
    var i := 0;
    while i < k
      invariant 0 <= i <= k
      invariant service.Valid() && fresh(service.exec)
      invariant service.taskCount == i && service.missedPolls == 0
      invariant |service.exec.running| == i && service.exec.completed == []
    {
      var f := service.Submit(() => 0);
      i := i + 1;
    }
    while i > 0
      invariant 0 <= i <= k
      invariant service.Valid() && fresh(service.exec)
      invariant service.taskCount == i && service.missedPolls == 0
      invariant |service.exec.running| == i && service.exec.completed == []
    {
      service.exec.Finish(0);
      var f := service.Take();
      i := i - 1;
    }
    c := service.Count();
  }

  /** A poll on a fresh counter finds nothing yet still decrements: count() is then -1. */
  method PollWhenNothingFinished() returns (f: Option<Future>, c: int)
    ensures f == None && c == -1
  {
    var service := new FuturesCompletion();
    f := service.Poll();
    c := service.Count();
  }

  /** With one task still running, a missed poll makes count() 0 although one task is outstanding. */
  method MissedPollHidesRunningTask() returns (c: int, ghost outstanding: nat)
    ensures c == 0 && outstanding == 1
  {
    var service := new FuturesCompletion();
    var submitted := service.Submit(() => 0);
    var f := service.PollWithin(5);
    c := service.Count();
    outstanding := service.exec.Outstanding();
  }

  /**
   * Two submits give two different handles; when the second task finishes first, poll returns
   * its handle and a later take the other one, and count() is back at 0.
   */
  method PollThenTake() returns (polled: Option<Future>, taken: Future, c: int)
    ensures polled == Some(Future(1)) && taken == Future(0) && c == 0
  {
    var service := new FuturesCompletion();
    var a := service.Submit(() => 0);
    var b := service.SubmitRunnable(() => (), 0);
    service.exec.Finish(1);
    service.exec.Finish(0);
    polled := service.Poll();
    taken := service.Take();
    c := service.Count();
  }
}
