# spartan react_pipe in Dafny

A model of the push-to-pull pipeline of `spartan.react_pipe` and proofs about it:

- **GeneratorIterator** (`generator_iterator.dfy`). A producer publishes values into a bounded,
  closable work queue through a `Publisher` view. The consumer pulls them with `hasNext`/`next`.
  `hasNext` hands out the next item of a local batch, or refills the batch: it drains up to
  `maxWorkQueueDepth` items from the queue, or waits in a timed poll when the queue is empty.
  After such a wait, the batch is the polled item plus whatever drainTo then finds, so it can
  hold `maxWorkQueueDepth + 1` items.
  When the queue is closed and empty, `hasNext` answers false and runs the completion callback.
  A compare-and-set flag makes that callback run once at most, even when `cancel()` is also
  called. The iterator is a class whose fields the methods update in place. Ghost fields record
  what the callback and the consumer observed:
  - `completionCalls` counts the callback runs;
  - `delivered` holds the values handed out, in order;
  - the queue's `history` holds everything ever published.

  The class invariant `Valid()` says the delivered values, followed by the pending ones (the
  unread batch, then the queue), are exactly what was published. That is the FIFO guarantee.
- **Work queue** (`channels.dfy`). The package's blocking queue with `done()`/`isDone()`, reduced
  to the five operations the iterator uses: `put`, `drainTo`, `poll`, `done` and `isDone`.
- **FuturesCompletion** (`subscriber.dfy`). The outstanding-task counter that
  `makeExecutorCompletionService` wraps around an `ExecutorCompletionService`. It is modelled as
  written: both `poll` methods decrement the counter even when they return no handle. The ghost
  field `missedPolls` makes the invariant exact: `taskCount == outstanding - missedPolls`.
- **generateFibonacciSequence** (`fibonacci.dfy`). The producer lambda of `Main`. It publishes 0,
  then 1 (when the ceiling is above 0), then every further Fibonacci number up to the ceiling,
  except that a ceiling of exactly 1 stops after 0, 1. It calls `done()` on every way
  out, interrupted or not. It returns the publish count only when the loop ends by `break`.
- **Pipelines** (`pipelines.dfy`). Producer and consumer taking turns on one iterator:
  - every item reaches the consumer in order, at every queue depth;
  - a depth-2 run of the Fibonacci values ends with the callback run exactly once;
  - `cancel()` keeps buffered items;
  - a consumer blocked in poll receives what the producer publishes meanwhile.

Concurrency is modelled as turns at method boundaries, with one exception: while `hasNext`
waits in `poll`, the producer may act. The `WhileBlocked` value passed to `HasNext` states what
the producer does meanwhile: the items it puts, in order, and whether it then calls `done()`.
When `hasNext` does not wait, that value must be empty.

## Model

| member | source | states |
|---|---|---|
| Channels.Channel.constructor | src/main/java/spartan/react_pipe/GeneratorIterator.java:32 | `new ArrayBlockingQueue<>(maxWorkQueueDepth)`: an empty, open queue of that capacity, which must be above 0 |
| Channels.Channel.Put | src/main/java/spartan/react_pipe/GeneratorIterator.java:47-49 | publish's `put` appends the item at the tail of the queue and of the published history; the closed flag is unchanged |
| Channels.Channel.DrainTo | src/main/java/spartan/react_pipe/GeneratorIterator.java:69 | `drainTo(list, max)` removes min(max, size) items from the head, no item for max ≤ 0; drained items followed by what remains equal the old queue |
| Channels.Channel.Poll | src/main/java/spartan/react_pipe/GeneratorIterator.java:73 | the timed poll sees the producer's puts and done() made during the wait; it returns the head of the old queue plus the new puts and removes it, or None when both are empty |
| Channels.Channel.Done | src/main/java/spartan/react_pipe/GeneratorIterator.java:51-53 | `done()` closes the queue and keeps buffered items |
| Channels.Channel.IsDone | src/main/java/spartan/react_pipe/GeneratorIterator.java:74 | `isDone()` reports the closed flag |
| GeneratorIterators.GeneratorIterator.constructor | src/main/java/spartan/react_pipe/GeneratorIterator.java:28-36 | new iterator: empty open queue of the given capacity; position == drainedItemsCount == depth, so the first hasNext refills; no callback run, nothing delivered |
| GeneratorIterators.GeneratorIterator.WithDefaultDepth | src/main/java/spartan/react_pipe/GeneratorIterator.java:38-41 | the one-argument constructor uses depth 50, with the same initial state |
| GeneratorIterators.GeneratorIterator.GetPublisher | src/main/java/spartan/react_pipe/GeneratorIterator.java:43-55 | the publisher is a fresh view over this iterator's own work queue |
| GeneratorIterators.Publisher.constructor | src/main/java/spartan/react_pipe/GeneratorIterator.java:44-45 | the anonymous publisher captures the iterator's work queue |
| GeneratorIterators.Publisher.Publish | src/main/java/spartan/react_pipe/GeneratorIterator.java:46-49 | publish appends the item to the shared queue and its history |
| GeneratorIterators.Publisher.Done | src/main/java/spartan/react_pipe/GeneratorIterator.java:50-53 | done closes the shared queue and leaves its items alone |
| GeneratorIterators.GeneratorIterator.FillBatch | src/main/java/spartan/react_pipe/GeneratorIterator.java:59-79 | the refill loop: it resets the cursor, then ends with a non-empty batch (true) or an empty batch on a closed, empty queue (false). From a non-empty queue the batch has min(depth, queued) items. After a wait in poll it has the polled item plus min(depth, arrivals − 1), up to depth + 1 in all. The batch followed by the rest of the queue equals the old queue plus what arrived during the poll |
| GeneratorIterators.GeneratorIterator.Refill | src/main/java/spartan/react_pipe/GeneratorIterator.java:58-80 | the refill branch keeps the class invariant; the pending items after it are the pending items before it plus what arrived during the poll |
| GeneratorIterators.GeneratorIterator.Advance | src/main/java/spartan/react_pipe/GeneratorIterator.java:81-83 | `nextValue = drainedItems.get(position++)`: the oldest pending item is cached and counted as delivered, and pending loses its head |
| GeneratorIterators.GeneratorIterator.DrainQueue | src/main/java/spartan/react_pipe/GeneratorIterator.java:57-84 | true iff something is pending or arrives during the poll. On true, nextValue is the oldest such item and it leaves pending, by the fast path or by a refill (min(depth, queued) items, or after a wait in poll the polled item plus up to depth more). On false, the cursor and batch are reset, the queue is closed and nothing is pending |
| GeneratorIterators.GeneratorIterator.OnDone | src/main/java/spartan/react_pipe/GeneratorIterator.java:86-90 | compare-and-set: afterwards the flag is set and the callback has run exactly once; a second call does not run it again |
| GeneratorIterators.GeneratorIterator.HasNext | src/main/java/spartan/react_pipe/GeneratorIterator.java:92-101 | true iff an item is pending or arrives while waiting; then nextValue is the oldest one, removed from pending, and the callback is untouched. False only on a closed queue with nothing pending; then nextValue is cleared, the cursor and batch are reset, and the callback has run exactly once |
| GeneratorIterators.GeneratorIterator.Next | src/main/java/spartan/react_pipe/GeneratorIterator.java:103-104 | next returns the cached value and changes nothing, so repeated calls agree |
| GeneratorIterators.GeneratorIterator.Cancel | src/main/java/spartan/react_pipe/GeneratorIterator.java:106-109 | cancel runs the one-shot callback (at most once overall) and leaves pending items untouched |
| Subscriber.CompletionService.constructor | src/main/java/spartan/react_pipe/Subscriber.java:40 | `new ExecutorCompletionService<>(executor)`: no handle issued, nothing running or finished |
| Subscriber.CompletionService.Submit | src/main/java/spartan/react_pipe/Subscriber.java:46 | the delegate's submit issues a new handle and adds it to the running tasks |
| Subscriber.CompletionService.Finish | src/main/java/spartan/react_pipe/Subscriber.java:40 | a worker finishing running task k moves its handle to the tail of the finished queue; the other running tasks keep their order |
| Subscriber.CompletionService.Take | src/main/java/spartan/react_pipe/Subscriber.java:60 | the delegate's take removes and returns the oldest finished handle |
| Subscriber.CompletionService.Poll | src/main/java/spartan/react_pipe/Subscriber.java:67 | the delegate's poll returns the oldest finished handle, or None at once when none has finished |
| Subscriber.FuturesCompletion.constructor | src/main/java/spartan/react_pipe/Subscriber.java:40-42 | a fresh counter is 0 over a fresh, empty completion service |
| Subscriber.FuturesCompletion.Submit | src/main/java/spartan/react_pipe/Subscriber.java:44-49 | submit(Callable) delegates and increments taskCount by one; the new handle is a new one and is running |
| Subscriber.FuturesCompletion.SubmitRunnable | src/main/java/spartan/react_pipe/Subscriber.java:51-56 | submit(Runnable, result) delegates and increments taskCount by one |
| Subscriber.FuturesCompletion.Take | src/main/java/spartan/react_pipe/Subscriber.java:58-63 | take returns the oldest finished handle and decrements taskCount by one |
| Subscriber.FuturesCompletion.Poll | src/main/java/spartan/react_pipe/Subscriber.java:65-70 | poll() decrements taskCount whether or not it returns a handle; None iff nothing has finished, and then the missed poll is recorded; a returned handle leaves the finished queue |
| Subscriber.FuturesCompletion.PollWithin | src/main/java/spartan/react_pipe/Subscriber.java:72-77 | poll(timeout, unit) behaves the same: an unconditional decrement, None iff nothing has finished, and a returned handle leaves the finished queue |
| Subscriber.FuturesCompletion.Count | src/main/java/spartan/react_pipe/Subscriber.java:79-82 | count returns taskCount, which equals the outstanding tasks minus the polls that found nothing |
| Subscriber.SubmitThenTakeAll | src/main/java/spartan/react_pipe/Subscriber.java:44-63 | k submits, then k finished tasks taken one by one, bring a fresh counter back to 0 |
| Subscriber.PollThenTake | src/main/java/spartan/react_pipe/Subscriber.java:44-82 | two submits give different handles; with the second finishing first, poll returns it and take the other, and count() is back at 0 |
| Subscriber.PollWhenNothingFinished | src/main/java/spartan/react_pipe/Subscriber.java:65-70 | a poll on a fresh counter returns None, yet count() becomes -1 |
| Subscriber.MissedPollHidesRunningTask | src/main/java/spartan/react_pipe/Subscriber.java:72-82 | after one submit and a timed poll that finds nothing, count() is 0 although one task is still outstanding. A caller that polls and then waits while `count() > 0` would stop waiting for that task |
| Fibonacci.FibPrefix | src/main/java/spartan/react_pipe/Main.java:61-75 | the first n Fibonacci numbers, element k being Fib(k) |
| Fibonacci.GenerateFibonacciSequence | src/main/java/spartan/react_pipe/Main.java:56-84 | done() is called exactly once on every way out. The published values are a Fibonacci prefix, each allowed by the ceiling, and publishing stops at the first disallowed one unless an interrupted publish stops it earlier. The loop ends by `break` iff ceiling ≥ 2 and nothing interrupts, and only then is the publish count returned; otherwise 0 |
| Fibonacci.FibMonotone | src/main/java/spartan/react_pipe/Main.java:68-75 | the values the loop publishes never decrease (the fact that makes `i > max_ceiling` a stopping point) |
| Fibonacci.PublishesDownward | src/main/java/spartan/react_pipe/Main.java:68-75 | once a value is not published, no later one is |
| Fibonacci.RunOutputUnique | src/main/java/spartan/react_pipe/Main.java:56-84 | the uninterrupted output is determined by the ceiling alone |
| Fibonacci.PublishedShape | src/main/java/spartan/react_pipe/Main.java:61-75 | anything published starts with 0, never decreases, and stays within the ceiling after the first value |
| Fibonacci.NonPositiveCeiling | src/main/java/spartan/react_pipe/Main.java:62-64 | a ceiling ≤ 0 publishes exactly [0] |
| Fibonacci.CeilingOne | src/main/java/spartan/react_pipe/Main.java:65-67 | a ceiling of 1 publishes exactly [0, 1] |
| Fibonacci.LargerCeiling | src/main/java/spartan/react_pipe/Main.java:65-75 | a ceiling ≥ 2 publishes 0, 1, 1 first and ends with the largest Fibonacci number within the ceiling |
| Fibonacci.CeilingThree | src/main/java/spartan/react_pipe/Main.java:56-84 | a ceiling of 3 publishes exactly [0, 1, 1, 2, 3] |
| Fibonacci.RunTerminates | src/main/java/spartan/react_pipe/Main.java:68-75 | every integer ceiling has an uninterrupted output: for those, the `for (;;)` loop ends |
| Pipelines.Produce | src/main/java/spartan/react_pipe/GeneratorIterator.java:46-49 | a publish into a queue with room adds the item at the end of what is pending |
| Pipelines.Close | src/main/java/spartan/react_pipe/GeneratorIterator.java:50-53 | done closes the queue and leaves what is pending |
| Pipelines.Pull | src/main/java/spartan/react_pipe/GeneratorIterator.java:92-104 | hasNext then next returns the oldest pending item, or false plus a single callback run once everything published has been delivered |
| Pipelines.Take | src/main/java/spartan/react_pipe/GeneratorIterator.java:92-104 | with something pending, hasNext/next yields its head and leaves the tail pending |
| Pipelines.DrainRest | src/main/java/spartan/react_pipe/GeneratorIterator.java:92-109 | after done(), iterating until hasNext is false delivers all of the published history, in order, and the callback has run exactly once |
| Pipelines.Transfer | src/main/java/spartan/react_pipe/GeneratorIterator.java:43-109 | at any depth the constructor accepts (0 < depth < 2^31 − 1), the consumer receives exactly the published sequence, in order, and the callback has run exactly once |
| Pipelines.Exchange | src/main/java/spartan/react_pipe/GeneratorIterator.java:57-84 | on an idle pipeline, two publishes then two pulls give the two items in order (a refill, then the fast path) |
| Pipelines.Overlap | src/main/java/spartan/react_pipe/GeneratorIterator.java:57-84 | publish x, y; pull gives x; publish z and done: y and z stay pending, in order |
| Pipelines.DepthTwoRun | src/main/java/spartan/react_pipe/Main.java:43-87 | depth 2, publishing 0, 1, 1, 2, 3 then done, in turns: the consumer gets exactly those values, and a later cancel() does not run the callback a second time |
| Pipelines.CancelKeepsBuffer | src/main/java/spartan/react_pipe/GeneratorIterator.java:106-109 | cancel() after the first pull still lets the second buffered item be handed out, and the callback has run once |
| Pipelines.PollThenDrain | src/main/java/spartan/react_pipe/GeneratorIterator.java:62-79 | a consumer blocked in poll on an empty queue gets the first item the producer publishes meanwhile, and the second joins the same batch |
| Pipelines.BatchOfDepthPlusOne | src/main/java/spartan/react_pipe/GeneratorIterator.java:62-79 | at depth 2, a consumer waiting in poll gets the first of three items published meanwhile; the batch then holds all three, depth + 1 |
| Pipelines.GenerateToThree | src/main/java/spartan/react_pipe/Main.java:56-84 | the lambda with ceiling 3 publishes [0, 1, 1, 2, 3] and returns 5 |

## Left out

- The work queue class (`ArrayBlockingQueue` in the same package, with `done`/`isDone`) is not part of this model. `Channel` gives it plain FIFO meaning: `drainTo` takes from the head, `poll` waits only for what the producer does meanwhile, and `done` keeps buffered items.
- Channels.Channel.Put: blocking on a full queue, and a put after `done()`, are not modelled. Callers must have room and an open queue.
- GeneratorIterators.GeneratorIterator.HasNext: the producer acts only while the consumer waits in `poll`, and only as the `WhileBlocked` argument says. A poll that times out on an empty, still-open queue, with no producer action, is excluded by the precondition `CanAnswer`. In the source that case loops forever, waiting 5 seconds per poll.
- GeneratorIterators.GeneratorIterator.HasNext: the source can lose an item, and the model does not capture this. Suppose `poll` times out empty, and then, before `isDone()` runs, the producer calls `publish(x)` and `done()`. `drainQueue` then returns false with x still queued: `hasNext` clears `nextValue` and runs the callback, and x is never delivered. The model's `Poll` sees every put made during the wait, so this interleaving cannot occur in it. "False only on a closed queue with nothing pending" and `Pipelines.Transfer` therefore hold only for the interleavings the model admits.
- GeneratorIterators.GeneratorIterator.DrainQueue: the `InterruptedException` branch of the poll (return false) is not modelled.
- The `onCompletion` lambda's effect (it prints) is replaced by the ghost counter `completionCalls`. `AtomicBoolean` and `synchronized` are treated as sequential, so two threads racing on `cancel()` are not modelled.
- `Subscriber.stream` (a `Spliterator` adapter from the Java library) is not modelled. The `Pipelines` scenarios pull with `hasNext`/`next` directly.
- Subscriber.CompletionService.Take: waiting until a task finishes is not modelled. The precondition asks for a finished task, and `Finish` is the worker's step.
- Subscriber.FuturesCompletion.PollWithin: no worker step happens during the timeout, so it behaves like `poll()`. `InterruptedException` is not modelled.
- Task bodies, their results, `Future.get()` and `ExecutionException` are not modelled; a handle is known only by its submission index.
- Main.main's plumbing (argument parsing, `printf` output, submitting the consumer task, the final `while (count() > 0)` loop) and the `ForkJoinPool`/thread-factory class are not modelled. `ForkJoinPoolEx.java` is not part of this model.
- Fibonacci.GenerateFibonacciSequence: the source computes in `double`. The model uses unbounded integers, so it covers ceilings whose Fibonacci numbers are exact in a double (below 2^53), and it takes the already-floored ceiling as an integer. Interruption is modelled by `interruptAt`, the index of the publish call that throws. Main's own publisher never blocks forever, because the consumer runs in parallel; the model's publish has no capacity bound.
- Subscriber.FuturesCompletion.Poll: `taskCount` is a 32-bit Java `int` and wraps; the model uses an unbounded integer. From 0, 2^31 missed polls bring the source's count() to -2^31, and the next one wraps it to 2^31−1; the model's count keeps going down. The same holds for `PollWithin`. In the other direction, the 2^31-th submit from 0 wraps count() to -2^31.
- Fibonacci.GenerateFibonacciSequence: `Double.parseDouble` accepts "Infinity" and "NaN", and `Math.floor` keeps both. With either ceiling the source never returns: for +∞, `i > max_ceiling` never holds, and for NaN no comparison holds. The model's ceiling is an integer, so it does not cover these inputs.
- GeneratorIterators.GeneratorIterator.constructor: construction failures are not modelled as an error path; the constructor requires 0 < depth < 2^31 − 1 instead. In the source, `new ArrayList<>(maxWorkQueueDepth + 1)` throws for a depth of -2 or less, and also at 2^31 − 1, where depth + 1 wraps to -2^31. What happens at depths 0 and -1 depends on the queue class's constructor, which is not part of this model.
