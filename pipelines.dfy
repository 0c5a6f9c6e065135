/**
 * Producer and consumer of one GeneratorIterator taking turns, as Main wires them:
 * the producer publishes while the work queue has room, the consumer pulls with hasNext/next.
 */
module Pipelines {
  import opened Options
  import opened Channels
  import opened GeneratorIterators
  import Fibonacci

  /** The producer's turn: publish one item into a queue with room. */
  method Produce<T>(it: GeneratorIterator<T>, publisher: Publisher<T>, x: T)
    requires it.Valid() && publisher.workQueue == it.workQueue
    requires !it.workQueue.closed && |it.workQueue.items| < it.maxWorkQueueDepth
    modifies it.workQueue
    ensures it.Valid() && !it.workQueue.closed
    ensures it.workQueue.items == old(it.workQueue.items) + [x]
    ensures it.workQueue.history == old(it.workQueue.history) + [x]
    ensures it.Pending() == old(it.Pending()) + [x]
  {
    publisher.Publish(x);
  }

  /** The producer's last act: done(). */
  method Close<T>(it: GeneratorIterator<T>, publisher: Publisher<T>)
    requires it.Valid() && publisher.workQueue == it.workQueue
    modifies it.workQueue
    ensures it.Valid() && it.workQueue.closed
    ensures it.workQueue.history == old(it.workQueue.history) && it.Pending() == old(it.Pending())
  {
    publisher.Done();
  }

  /**
   * The consumer's turn: hasNext then next, with nothing published meanwhile. It gets the
   * oldest pending item, or, on a closed and drained queue, false and the completion.
   */
  method Pull<T>(it: GeneratorIterator<T>) returns (more: bool, x: Option<T>)
    requires it.Valid() && (it.Pending() != [] || it.workQueue.closed)
    modifies it, it.workQueue
    ensures it.Valid()
    ensures it.workQueue.closed == old(it.workQueue.closed) && it.workQueue.history == old(it.workQueue.history)
    ensures more <==> old(it.Pending()) != []
    ensures more ==> x == Some(old(it.Pending())[0]) && it.Pending() == old(it.Pending())[1..] &&
                     it.delivered == old(it.delivered) + [x.value] &&
                     it.isCompleted == old(it.isCompleted) && it.completionCalls == old(it.completionCalls)
    ensures !more ==> x == None && it.delivered == old(it.delivered) == it.workQueue.history &&
                      it.isCompleted && it.completionCalls == 1
  {
    more := it.HasNext(WhileBlocked([], false));
    x := it.Next();
  }

  /** The consumer's turn while something is pending: hasNext is true and next is the oldest item. */
  method Take<T>(it: GeneratorIterator<T>) returns (x: T)
    requires it.Valid() && it.Pending() != []
    modifies it, it.workQueue
    ensures it.Valid()
    ensures it.workQueue.closed == old(it.workQueue.closed) && it.workQueue.history == old(it.workQueue.history)
    ensures x == old(it.Pending())[0] && it.Pending() == old(it.Pending())[1..]
    ensures it.delivered == old(it.delivered) + [x]
    ensures it.isCompleted == old(it.isCompleted) && it.completionCalls == old(it.completionCalls)
  {
    var more, next := Pull(it);
    x := next.value;
  }

  /**
   * The consumer after done(): hasNext/next until hasNext is false. Everything published has
   * then been handed out, in order, and the callback has run exactly once.
   */
  method DrainRest<T>(it: GeneratorIterator<T>) returns (rest: seq<T>)
    requires it.Valid() && it.workQueue.closed
    modifies it, it.workQueue
    ensures it.Valid() && it.workQueue.history == old(it.workQueue.history)
    ensures it.delivered == old(it.delivered) + rest == it.workQueue.history
    ensures it.isCompleted && it.completionCalls == 1
  {
    rest := [];
    var more, x := Pull(it);
    while more
      invariant it.Valid() && it.workQueue.closed
      invariant it.workQueue.history == old(it.workQueue.history)
      invariant more ==> x.Some? && it.delivered == old(it.delivered) + rest + [x.value]
      invariant !more ==> it.delivered == old(it.delivered) + rest == it.workQueue.history
      invariant !more ==> it.isCompleted && it.completionCalls == 1
      decreases |it.workQueue.history| - |old(it.delivered)| - |rest|
    {
      rest := rest + [x.value];
      more, x := Pull(it);
    }
  }

  /**
   * Order preservation: whatever the queue depth, the consumer receives exactly the published
   * items in order, and iteration ends with the completion callback run exactly once.
   */
  method Transfer<T>(xs: seq<T>, depth: nat) returns (received: seq<T>, ghost callbacks: nat)
    requires 0 < depth < 0x7fff_ffff
    ensures received == xs && callbacks == 1
  {
    var it := new GeneratorIterator<T>(depth);
    var publisher := it.GetPublisher();
    received := [];
    var i := 0;
    while i < |xs|
      invariant 0 <= i <= |xs|
      invariant it.Valid() && fresh(it) && fresh(it.workQueue) && publisher.workQueue == it.workQueue
      invariant !it.workQueue.closed && it.maxWorkQueueDepth == depth
      invariant it.workQueue.history == xs[..i] && received == it.delivered
      decreases |xs| - i, i - |received|
    {
      if |it.workQueue.items| < depth {
        Produce(it, publisher, xs[i]);
        assert xs[..i + 1] == xs[..i] + [xs[i]];
        i := i + 1;
      } else {
        // the queue is full: the producer blocks and the consumer takes a turn
        var x := Take(it);
        received := received + [x];
      }
    }
    Close(it, publisher);
    var rest := DrainRest(it);
    assert xs[..i] == xs;
    received := received + rest;
    callbacks := it.completionCalls;
  }

  /** One round on an idle pipeline: the producer publishes x and y, the consumer takes both. */
  method Exchange<T>(it: GeneratorIterator<T>, publisher: Publisher<T>, x: T, y: T) returns (u: T, v: T)
    requires it.Valid() && publisher.workQueue == it.workQueue && it.maxWorkQueueDepth >= 2
    requires !it.workQueue.closed && it.Pending() == []
    modifies it, it.workQueue
    ensures it.Valid() && !it.workQueue.closed && it.Pending() == []
    ensures u == x && v == y
    ensures it.delivered == old(it.delivered) + [x] + [y] && it.workQueue.history == old(it.workQueue.history) + [x] + [y]
    ensures it.isCompleted == old(it.isCompleted) && it.completionCalls == old(it.completionCalls)
  {
    assert it.workQueue.items == [];
    Produce(it, publisher, x);
    Produce(it, publisher, y);
    u := Take(it);
    v := Take(it);
  }

  /**
   * The last round on an idle pipeline: the producer publishes x and y, the consumer takes x,
   * and the producer publishes z and calls done().
   */
  method Overlap<T>(it: GeneratorIterator<T>, publisher: Publisher<T>, x: T, y: T, z: T) returns (u: T)
    requires it.Valid() && publisher.workQueue == it.workQueue && it.maxWorkQueueDepth >= 2
    requires !it.workQueue.closed && it.Pending() == []
    modifies it, it.workQueue
    ensures it.Valid() && it.workQueue.closed && it.Pending() == [y, z]
    ensures u == x
    ensures it.delivered == old(it.delivered) + [x] && it.workQueue.history == old(it.workQueue.history) + [x] + [y] + [z]
    ensures it.isCompleted == old(it.isCompleted) && it.completionCalls == old(it.completionCalls)
  {
    assert it.workQueue.items == [];
    Produce(it, publisher, x);
    Produce(it, publisher, y);
    u := Take(it);
    assert |it.workQueue.items| <= 1;
    Produce(it, publisher, z);
    Close(it, publisher);
  }

  /**
   * Depth 2, publishing 0, 1, 1, 2, 3 then done, in turns: the consumer sees them in order,
   * the iteration ends with the callback run once, and a later cancel does not run it again.
   */
  method DepthTwoRun() returns (received: seq<int>, ghost callbacks: nat)
    ensures received == [0, 1, 1, 2, 3] && callbacks == 1
  {
    var it := new GeneratorIterator<int>(2);
    var publisher := it.GetPublisher();
    var a, b := Exchange(it, publisher, 0, 1);  // a refill with batch [0, 1], then the fast path
    var c := Overlap(it, publisher, 1, 2, 3);   // a refill with batch [1, 2]
    assert it.delivered == [0, 1, 1] && it.workQueue.history == [0, 1, 1, 2, 3];
    var rest := DrainRest(it);                  // 2 by the fast path, 3 by a refill, then false
    assert rest == ([0, 1, 1] + rest)[3..];
    received := [a, b, c] + rest;
    it.Cancel();
    callbacks := it.completionCalls;
  }

  /** cancel() leaves the batch alone: buffered items are still handed out after it. */
  method CancelKeepsBuffer() returns (x: Option<int>, y: Option<int>, ghost callbacks: nat)
    ensures x == Some(5) && y == Some(6) && callbacks == 1
  {
    var it := new GeneratorIterator<int>(2);
    var publisher := it.GetPublisher();
    Produce(it, publisher, 5);
    Produce(it, publisher, 6);
    var first := Take(it);
    it.Cancel();
    var second := Take(it);
    x, y := Some(first), Some(second);
    callbacks := it.completionCalls;
  }

  /** The consumer blocks in poll on an empty queue and the producer publishes two items meanwhile. */
  method PollThenDrain() returns (first: Option<int>, batch: seq<int>)
    ensures first == Some(7) && batch == [7, 8]
  {
    var it := new GeneratorIterator<int>(4);
    var more := it.HasNext(WhileBlocked([7, 8], false));
    first := it.Next();
    batch := it.drainedItems;
    assert batch + it.workQueue.items == [7, 8] && |batch| == 2;
  }

  /**
   * The poll takes the first item as soon as it is published, and the producer then fills the
   * queue of depth 2 before drainTo runs: the batch holds depth + 1 = 3 items.
   */
  method BatchOfDepthPlusOne() returns (first: Option<int>, batch: seq<int>)
    ensures first == Some(7) && batch == [7, 8, 9]
  {
    var it := new GeneratorIterator<int>(2);
    var more := it.HasNext(WhileBlocked([7, 8, 9], false));
    first := it.Next();
    batch := it.drainedItems;
    assert batch + it.workQueue.items == [7, 8, 9] && |batch| == 3;
  }

  /** Main's generator run with ceiling 3, uninterrupted, publishes 0, 1, 1, 2, 3 and returns 5. */
  method GenerateToThree() returns (published: seq<int>, count: int)
    ensures published == [0, 1, 1, 2, 3] && count == 5
  {
    var doneCalls, exit;
    published, doneCalls, exit, count := Fibonacci.GenerateFibonacciSequence(3, None);
    Fibonacci.CeilingThree(published);
  }
}
