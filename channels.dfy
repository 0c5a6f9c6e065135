/**
 * The bounded, closable FIFO work queue that GeneratorIterator hands items through
 * (spartan.react_pipe.ArrayBlockingQueue, of which only the interface is modelled:
 * put, drainTo, poll, done and isDone, each with plain FIFO meaning).
 */
module Channels {
  import opened Options

  function Min(a: int, b: int): int { if a <= b then a else b }

  /**
   * What the producer thread does while the consumer is blocked in a timed poll:
   * the items it puts, in order, and whether it then closes the queue.
   * Everywhere else the two threads are modelled as taking turns at method boundaries.
   */
  datatype WhileBlocked<T> = WhileBlocked(puts: seq<T>, closes: bool)

  class Channel<T> {
    const capacity: nat
    var items: seq<T>      // buffered items, oldest first
    var closed: bool       // set by done(), never cleared
    ghost var history: seq<T>  // every item ever put, in order

    ghost predicate Valid()
      reads this
    {
      capacity > 0 && |items| <= capacity
    }

    /**
     * The producer can do `w` while the consumer waits: no put after done, no put into a full
     * queue. A poll on an empty queue takes the first item put as soon as it arrives, so the
     * producer can then fill the queue to capacity: up to capacity + 1 puts in all.
     */
    ghost predicate Admits(w: WhileBlocked<T>)
      reads this
    {
      (closed ==> w.puts == []) &&
      if items == [] then |w.puts| <= capacity + 1 else |items| + |w.puts| <= capacity
    }

    constructor (capacity: nat)
      requires capacity > 0
      ensures Valid() && this.capacity == capacity
      ensures items == [] && !closed && history == []
    {
      this.capacity := capacity;
      items := [];
      closed := false;
      history := [];
    }

    /** put: appends at the tail. Blocking on a full queue and put-after-done are not modelled. */
    method Put(item: T)
      requires Valid() && !closed && |items| < capacity
      modifies this
      ensures Valid()
      ensures items == old(items) + [item] && history == old(history) + [item]
      ensures closed == old(closed)
    {
      items := items + [item];
      history := history + [item];
    }

    /** drainTo(list, max): removes up to `maxElements` items from the head, in order, without blocking. */
    method DrainTo(maxElements: int) returns (drained: seq<T>)
      requires Valid()
      modifies this
      ensures Valid()
      ensures |drained| == if maxElements <= 0 then 0 else Min(maxElements, |old(items)|)
      ensures old(items) == drained + items
      ensures closed == old(closed) && history == old(history)
    {
      var n := if maxElements <= 0 then 0 else Min(maxElements, |items|);
      drained := items[..n];
      items := items[n..];
    }

    /**
     * poll(timeout, unit): waits for the producer's actions `meanwhile`, then removes and returns the
     * head, or None when the queue is still empty (closed, or the wait timed out).
     */
    method Poll(timeoutSeconds: nat, meanwhile: WhileBlocked<T>) returns (item: Option<T>)
      requires Valid() && Admits(meanwhile)
      modifies this
      ensures Valid()
      ensures history == old(history) + meanwhile.puts
      ensures closed == (old(closed) || meanwhile.closes)
      ensures old(items) + meanwhile.puts == [] ==> item == None && items == []
      ensures old(items) + meanwhile.puts != [] ==>
                item == Some((old(items) + meanwhile.puts)[0]) && items == (old(items) + meanwhile.puts)[1..]
    {
      items := items + meanwhile.puts;
      history := history + meanwhile.puts;
      closed := closed || meanwhile.closes;
      if items == [] {
        item := None;
      } else {
        item := Some(items[0]);
        items := items[1..];
      }
    }

    /** done(): marks the queue closed; buffered items stay retrievable. */
    method Done()
      modifies this
      ensures closed
      ensures items == old(items) && history == old(history)
    {
      closed := true;
    }

    /** isDone(): observes the closed flag. */
    method IsDone() returns (done: bool)
      ensures done == closed
    {
      done := closed;
    }
  }
}
