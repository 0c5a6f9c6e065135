/**
 * GeneratorIterator: the push-to-pull adapter. A producer publishes into a bounded work queue
 * through a Publisher view; the consumer pulls with hasNext/next, which refills a local batch
 * from the queue, and the completion callback runs at most once whether iteration ends by
 * exhaustion or by cancel().
 */
module GeneratorIterators {
  import opened Options
  import opened Channels

  const DefaultMaxWorkQueueDepth: nat := 50

  /** What the producer adds to the queue during hasNext: only what it puts while hasNext waits in poll. */
  function Arrivals<T>(waits: bool, meanwhile: WhileBlocked<T>): seq<T>
  {
    if waits then meanwhile.puts else []
  }

  /**
   * The size of a refill batch. From a non-empty queue, drainTo takes up to `depth` items.
   * After a wait in poll, the batch is the polled item plus up to `depth` items that drainTo
   * then finds, which the producer put after the first: up to depth + 1 in all.
   */
  function BatchSize(depth: nat, queued: nat, arrived: nat): nat
  {
    if queued > 0 then Min(depth, queued) else if arrived == 0 then 0 else 1 + Min(depth, arrived - 1)
  }

  class GeneratorIterator<T> {
    const maxWorkQueueDepth: nat
    const workQueue: Channel<T>
    var drainedItems: seq<T>       // the current batch
    var drainedItemsCount: int
    var position: int              // read cursor into the batch
    var nextValue: Option<T>       // what next() returns
    var isCompleted: bool          // the compare-and-set flag guarding the callback
    ghost var completionCalls: nat // how many times the completion callback has run
    ghost var delivered: seq<T>    // values handed out by successful hasNext calls, in order

    /** The batch items not yet handed out. */
    ghost function Unread(): seq<T>
      reads this
    {
      if 0 <= position <= drainedItemsCount == |drainedItems| then drainedItems[position..] else []
    }

    /** Everything published and not yet handed out, oldest first: the unread batch, then the queue. */
    ghost function Pending(): seq<T>
      reads this, workQueue
    {
      Unread() + workQueue.items
    }

    ghost predicate Valid()
      reads this, workQueue
    {
      workQueue.Valid() && workQueue.capacity == maxWorkQueueDepth &&
      0 <= position <= drainedItemsCount <= maxWorkQueueDepth + 1 &&
      |drainedItems| <= maxWorkQueueDepth + 1 &&
      // the batch count agrees with the batch, except in the initial "exhausted" state
      (drainedItemsCount == |drainedItems| || (drainedItems == [] && position == drainedItemsCount)) &&
      // the callback has run exactly when the flag is set
      completionCalls == (if isCompleted then 1 else 0) &&
      // FIFO: what was handed out, then what is pending, is everything published
      delivered + Pending() == workQueue.history
    }

    /**
     * The two-argument constructor. The depth is a Java int, and at its largest value 2^31 - 1
     * the batch list's initial capacity depth + 1 wraps negative and construction throws, so
     * the depth is below that here.
     */
    constructor (maxWorkQueueDepth: nat)
      requires 0 < maxWorkQueueDepth < 0x7fff_ffff
      ensures Valid() && fresh(workQueue)
      ensures this.maxWorkQueueDepth == maxWorkQueueDepth
      ensures position == drainedItemsCount == maxWorkQueueDepth && drainedItems == []
      ensures workQueue.items == [] && !workQueue.closed && workQueue.history == []
      ensures nextValue == None && !isCompleted && completionCalls == 0 && delivered == []
    {
      this.maxWorkQueueDepth := maxWorkQueueDepth;
      workQueue := new Channel(maxWorkQueueDepth);
      drainedItems := [];
      drainedItemsCount, position := maxWorkQueueDepth, maxWorkQueueDepth;
      nextValue := None;
      isCompleted := false;
      completionCalls := 0;
      delivered := [];
    }

    /** The one-argument constructor: the default queue depth of 50. */
    constructor WithDefaultDepth()
      ensures Valid() && fresh(workQueue)
      ensures maxWorkQueueDepth == DefaultMaxWorkQueueDepth
      ensures position == drainedItemsCount == DefaultMaxWorkQueueDepth && drainedItems == []
      ensures workQueue.items == [] && !workQueue.closed && workQueue.history == []
      ensures nextValue == None && !isCompleted && completionCalls == 0 && delivered == []
    {
      maxWorkQueueDepth := DefaultMaxWorkQueueDepth;
      workQueue := new Channel(DefaultMaxWorkQueueDepth);
      drainedItems := [];
      drainedItemsCount, position := DefaultMaxWorkQueueDepth, DefaultMaxWorkQueueDepth;
      nextValue := None;
      isCompleted := false;
      completionCalls := 0;
      delivered := [];
    }

    /** getPublisher: a producer-side view bound to this iterator's work queue. */
    method GetPublisher() returns (p: Publisher<T>)
      ensures fresh(p) && p.workQueue == workQueue
    {
      p := new Publisher(workQueue);
    }

    /** The batch still has an unread item: hasNext takes the fast path. */
    ghost predicate Buffered()
      reads this
    {
      position < drainedItemsCount
    }

    /** hasNext would find the batch used up and the queue empty, and wait in poll. */
    ghost predicate Waits()
      reads this, workQueue
    {
      !Buffered() && workQueue.items == []
    }

    /** hasNext can finish: something is buffered, queued, or will arrive, or the queue is or gets closed. */
    ghost predicate CanAnswer(meanwhile: WhileBlocked<T>)
      reads this, workQueue
    {
      Buffered() || workQueue.items != [] || workQueue.closed || meanwhile.puts != [] || meanwhile.closes
    }

    /**
     * The `position >= drainedItemsCount` branch of drainQueue: a fresh batch from the head of
     * the queue, or, when the queue is closed with nothing left, an empty one.
     */
    method Refill(meanwhile: WhileBlocked<T>) returns (filled: bool)
      requires Valid() && !Buffered() && workQueue.Admits(meanwhile) && CanAnswer(meanwhile)
      modifies this`position, this`drainedItems, this`drainedItemsCount, workQueue
      ensures Valid() && position == 0 && drainedItemsCount == |drainedItems|
      ensures filled <==> drainedItems != []
      ensures Pending() == old(Pending()) + Arrivals(old(Waits()), meanwhile)
      ensures |drainedItems| == BatchSize(maxWorkQueueDepth, |old(workQueue.items)|, |Arrivals(old(Waits()), meanwhile)|)
      ensures drainedItems + workQueue.items == old(workQueue.items) + Arrivals(old(Waits()), meanwhile)
      ensures workQueue.history == old(workQueue.history) + Arrivals(old(Waits()), meanwhile)
      ensures workQueue.closed == (old(workQueue.closed) || (old(Waits()) && meanwhile.closes))
      ensures !filled ==> workQueue.closed && workQueue.items == []
    {
      assert Unread() == [];
      filled := FillBatch(meanwhile);
      assert Unread() == drainedItems;
    }

    /**
     * The refill loop itself: reset the cursor and batch, then alternate drainTo and a timed
     * poll until the batch is non-empty or the queue is closed with nothing drained.
     */
    method FillBatch(meanwhile: WhileBlocked<T>) returns (filled: bool)
      requires workQueue.Valid() && workQueue.capacity == maxWorkQueueDepth && maxWorkQueueDepth > 0
      requires workQueue.Admits(meanwhile)
      requires workQueue.items != [] || workQueue.closed || meanwhile.puts != [] || meanwhile.closes
      modifies this`position, this`drainedItems, this`drainedItemsCount, workQueue
      ensures workQueue.Valid() && position == 0 && drainedItemsCount == |drainedItems|
      ensures filled <==> drainedItems != []
      ensures |drainedItems| == BatchSize(maxWorkQueueDepth, |old(workQueue.items)|, |Arrivals(old(workQueue.items) == [], meanwhile)|)
      ensures drainedItems + workQueue.items == old(workQueue.items) + Arrivals(old(workQueue.items) == [], meanwhile)
      ensures workQueue.history == old(workQueue.history) + Arrivals(old(workQueue.items) == [], meanwhile)
      ensures workQueue.closed == (old(workQueue.closed) || (old(workQueue.items) == [] && meanwhile.closes))
      ensures !filled ==> workQueue.closed && workQueue.items == []
    {
      position := 0;
      drainedItems := [];
      drainedItemsCount := 0;
      var isDone := false;
      var pollItem: Option<T> := None;
      while true
        invariant workQueue.Valid() && workQueue.capacity == maxWorkQueueDepth
        invariant position == 0 && drainedItems == [] && drainedItemsCount == 0
        invariant pollItem.None? ==>
                    !isDone && workQueue.items == old(workQueue.items) &&
                    workQueue.closed == old(workQueue.closed) && workQueue.history == old(workQueue.history) &&
                    workQueue.Admits(meanwhile) &&
                    (workQueue.items != [] || workQueue.closed || meanwhile.puts != [] || meanwhile.closes)
        invariant pollItem.Some? ==>
                    old(workQueue.items) == [] && meanwhile.puts == [pollItem.value] + workQueue.items &&
                    workQueue.closed == (old(workQueue.closed) || meanwhile.closes) &&
                    workQueue.history == old(workQueue.history) + meanwhile.puts
        decreases if pollItem.Some? then 0 else 1
      {
        if pollItem.Some? {
          drainedItems := drainedItems + [pollItem.value];
          drainedItemsCount := drainedItemsCount + 1;
        }
        var batch := workQueue.DrainTo(maxWorkQueueDepth);
        drainedItems := drainedItems + batch;
        drainedItemsCount := drainedItemsCount + |batch|;
        if drainedItemsCount > 0 { break; }
        if isDone { return false; }
        pollItem := workQueue.Poll(5, meanwhile);
        isDone := workQueue.IsDone();
        if pollItem.None? && isDone { return false; }
      }
      return true;
    }

    /** The fast path of drainQueue: cache the item under the cursor and advance the cursor. */
    method Advance()
      requires Valid() && Buffered()
      modifies this`position, this`nextValue, this`delivered
      ensures Valid()
      ensures position == old(position) + 1
      ensures nextValue == Some(old(Pending())[0]) && old(Pending())[0] == drainedItems[old(position)]
      ensures Pending() == old(Pending())[1..] && delivered == old(delivered) + [nextValue.value]
    {
      var item := drainedItems[position];
      ghost var rest := drainedItems[position + 1..];
      ghost var queued := workQueue.items;
      assert drainedItemsCount == |drainedItems|;
      assert drainedItems[position..] == [item] + rest;
      assert old(Pending()) == [item] + (rest + queued);
      nextValue := Some(item);
      position := position + 1;
      delivered := delivered + [item];
      assert Unread() == rest;
    }

    /**
     * drainQueue: hand out the oldest pending item, refilling the batch from the queue when it
     * is used up. Returns false only when the batch is used up and the queue is closed and empty.
     */
    method DrainQueue(meanwhile: WhileBlocked<T>) returns (r: bool)
      requires Valid() && CanAnswer(meanwhile) && workQueue.Admits(meanwhile)
      // the producer acts only while the consumer waits in poll
      requires !Waits() ==> meanwhile == WhileBlocked([], false)
      modifies this, workQueue
      ensures Valid()
      ensures isCompleted == old(isCompleted) && completionCalls == old(completionCalls)
      ensures workQueue.history == old(workQueue.history) + Arrivals(old(Waits()), meanwhile)
      ensures workQueue.closed == (old(workQueue.closed) || (old(Waits()) && meanwhile.closes))
      ensures r <==> old(Pending()) + Arrivals(old(Waits()), meanwhile) != []
      ensures r ==> nextValue == Some((old(Pending()) + Arrivals(old(Waits()), meanwhile))[0]) &&
                    Pending() == (old(Pending()) + Arrivals(old(Waits()), meanwhile))[1..] &&
                    delivered == old(delivered) + [nextValue.value]
      ensures !r ==> nextValue == old(nextValue) && delivered == old(delivered) &&
                     workQueue.closed && Pending() == [] &&
                     position == 0 && drainedItemsCount == 0 && drainedItems == []
      // fast path: the batch item under the cursor; the queue is not touched
      ensures old(Buffered()) ==>
                position == old(position) + 1 &&
                drainedItems == old(drainedItems) && drainedItemsCount == old(drainedItemsCount) &&
                nextValue == Some(old(drainedItems)[old(position)]) && workQueue.items == old(workQueue.items)
      // refill: a new batch from the head of the queue (up to depth + 1 items after a wait in poll)
      ensures !old(Buffered()) && r ==>
                position == 1 && drainedItemsCount == |drainedItems| &&
                |drainedItems| == BatchSize(maxWorkQueueDepth, |old(workQueue.items)|, |Arrivals(old(Waits()), meanwhile)|) &&
                drainedItems + workQueue.items == old(workQueue.items) + Arrivals(old(Waits()), meanwhile)
    {
      if position >= drainedItemsCount {
        var filled := Refill(meanwhile);
        if !filled {
          return false;
        }
        assert Unread() == drainedItems;
      }
      Advance();
      return true;
    }

    /** onDone: the compare-and-set guard; the callback runs only for the caller that flips the flag. */
    method OnDone()
      requires Valid()
      modifies this`isCompleted, this`completionCalls
      ensures Valid() && isCompleted && completionCalls == 1
      ensures old(isCompleted) ==> completionCalls == old(completionCalls)
    {
      if !isCompleted {
        isCompleted := true;
        completionCalls := completionCalls + 1;
      }
    }

    /**
     * hasNext: true with the oldest pending value cached in nextValue, or false (nextValue
     * cleared, completion run) when the batch is used up and the queue is closed and empty.
     */
    method HasNext(meanwhile: WhileBlocked<T>) returns (r: bool)
      requires Valid() && CanAnswer(meanwhile) && workQueue.Admits(meanwhile)
      // the producer acts only while the consumer waits in poll
      requires !Waits() ==> meanwhile == WhileBlocked([], false)
      modifies this, workQueue
      ensures Valid()
      ensures workQueue.history == old(workQueue.history) + Arrivals(old(Waits()), meanwhile)
      ensures workQueue.closed == (old(workQueue.closed) || (old(Waits()) && meanwhile.closes))
      ensures r <==> old(Pending()) + Arrivals(old(Waits()), meanwhile) != []
      ensures r ==> nextValue == Some((old(Pending()) + Arrivals(old(Waits()), meanwhile))[0]) &&
                    Pending() == (old(Pending()) + Arrivals(old(Waits()), meanwhile))[1..] &&
                    delivered == old(delivered) + [nextValue.value] &&
                    isCompleted == old(isCompleted) && completionCalls == old(completionCalls)
      ensures !r ==> nextValue == None && delivered == old(delivered) &&
                     workQueue.closed && Pending() == [] && isCompleted && completionCalls == 1 &&
                     position == 0 && drainedItemsCount == 0 && drainedItems == []
      // fast path
      ensures old(Buffered()) ==>
                position == old(position) + 1 &&
                drainedItems == old(drainedItems) && drainedItemsCount == old(drainedItemsCount) &&
                nextValue == Some(old(drainedItems)[old(position)]) && workQueue.items == old(workQueue.items)
      // refill
      ensures !old(Buffered()) && r ==>
                position == 1 && drainedItemsCount == |drainedItems| &&
                |drainedItems| == BatchSize(maxWorkQueueDepth, |old(workQueue.items)|, |Arrivals(old(Waits()), meanwhile)|) &&
                drainedItems + workQueue.items == old(workQueue.items) + Arrivals(old(Waits()), meanwhile)
    {
      r := DrainQueue(meanwhile);
      if !r {
        nextValue := None;
        OnDone();
      }
    }

    /** next: the value cached by the last hasNext; changes nothing, so repeated calls agree. */
    method Next() returns (v: Option<T>)
      ensures v == nextValue
    {
      v := nextValue;
    }

    /** cancel: runs the one-shot completion; batch, cursor and queue are untouched. */
    method Cancel()
      requires Valid()
      modifies this`isCompleted, this`completionCalls
      ensures Valid() && isCompleted && completionCalls == 1
      ensures Pending() == old(Pending())
    {
      OnDone();
    }
  }

  /** The producer-side view returned by getPublisher. */
  class Publisher<T> {
    const workQueue: Channel<T>

    constructor (workQueue: Channel<T>)
      ensures this.workQueue == workQueue
    {
      this.workQueue := workQueue;
    }

    /** publish: put into the shared work queue. */
    method Publish(item: T)
      requires workQueue.Valid() && !workQueue.closed && |workQueue.items| < workQueue.capacity
      modifies workQueue
      ensures workQueue.Valid()
      ensures workQueue.items == old(workQueue.items) + [item]
      ensures workQueue.history == old(workQueue.history) + [item]
      ensures workQueue.closed == old(workQueue.closed)
    {
      workQueue.Put(item);
    }

    /** done: close the shared work queue. */
    method Done()
      modifies workQueue
      ensures workQueue.closed
      ensures workQueue.items == old(workQueue.items) && workQueue.history == old(workQueue.history)
    {
      workQueue.Done();
    }
  }
}
