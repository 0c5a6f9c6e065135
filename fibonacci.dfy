/**
 * The generateFibonacciSequence producer of Main: publish 0; then 1 when the ceiling is above
 * 0; then, unless the ceiling is exactly 1, each successive sum while it stays at or below the
 * ceiling. The publisher is closed on every way out.
 * The ceiling is already floored by the caller, so it is an integer here, and the values
 * the doubles hold are integers too.
 */
module Fibonacci {
  import opened Options

  /** The Fibonacci numbers: Fib(0) = 0, Fib(1) = 1. */
  function Fib(n: nat): nat
  {
    if n < 2 then n else Fib(n - 1) + Fib(n - 2)
  }

  /** The first n Fibonacci numbers, in order. */
  function FibPrefix(n: nat): (s: seq<int>)
    ensures |s| == n
    ensures forall k :: 0 <= k < n ==> s[k] == Fib(k)
  {
    if n == 0 then [] else FibPrefix(n - 1) + [Fib(n - 1)]
  }

  /**
   * An uninterrupted run publishes a (k+1)-th value: the first (0) always, the second (1)
   * when the ceiling is positive, and from then on Fib(k) while it is at most the ceiling,
   * except that a ceiling of exactly 1 stops after the second value.
   */
  predicate Publishes(ceiling: int, k: nat)
  {
    k == 0 || (k == 1 && ceiling > 0) || (k >= 2 && ceiling >= 2 && Fib(k) <= ceiling)
  }

  /** What an uninterrupted run publishes, characterised without reference to the loop. */
  ghost predicate IsRunOutput(ceiling: int, s: seq<int>)
  {
    s == FibPrefix(|s|) && !Publishes(ceiling, |s|) &&
    forall k :: 0 <= k < |s| ==> Publishes(ceiling, k)
  }

  /** How the lambda left its try block. */
  datatype Exit = EarlyReturn | LoopBreak | Interrupted

  /** The publish call with this index (counting from 0) throws InterruptedException. */
  predicate InterruptsAt(interruptAt: Option<nat>, k: nat)
  {
    interruptAt == Some(k)
  }

  /**
   * The generator lambda. `published` is what reached the publisher, `doneCalls` how often
   * publisher.done() was called, and `publishCallCount` the lambda's return value.
   */
  method GenerateFibonacciSequence(ceiling: int, interruptAt: Option<nat>)
    returns (published: seq<int>, doneCalls: nat, exit: Exit, publishCallCount: int)
    ensures doneCalls == 1
    ensures published == FibPrefix(|published|)
    ensures forall k :: 0 <= k < |published| ==> Publishes(ceiling, k)
    ensures interruptAt.Some? ==> |published| <= interruptAt.value
    ensures exit == Interrupted <==> InterruptsAt(interruptAt, |published|) && Publishes(ceiling, |published|)
    ensures exit != Interrupted ==> !Publishes(ceiling, |published|)
    ensures exit == LoopBreak <==> ceiling >= 2 && exit != Interrupted
    ensures publishCallCount == if exit == LoopBreak then |published| else 0
  {
    published, doneCalls, publishCallCount := [], 0, 0;
    exit := LoopBreak;
    label try: {
      var count := 0;
      var j, i := 0, 1;
      if InterruptsAt(interruptAt, |published|) { exit := Interrupted; break try; }
      published := published + [j];
      count := count + 1;
      if ceiling <= j { exit := EarlyReturn; break try; }
      if InterruptsAt(interruptAt, |published|) { exit := Interrupted; break try; }
      published := published + [i];
      count := count + 1;
      if ceiling == i { exit := EarlyReturn; break try; }
      while true
        invariant ceiling >= 2 && |published| >= 2 && count == |published|
        invariant published == FibPrefix(|published|)
        invariant j == Fib(|published| - 2) && i == Fib(|published| - 1)
        invariant 0 <= j <= i <= ceiling && 1 <= i
        invariant forall k :: 0 <= k < |published| ==> Publishes(ceiling, k)
        invariant interruptAt.Some? ==> |published| <= interruptAt.value
        invariant exit == LoopBreak && publishCallCount == 0 && doneCalls == 0
        decreases 2 * ceiling - i - j
      {
        var tmp := i;
        i := i + j;
        j := tmp;
        if i > ceiling { break; }
        if InterruptsAt(interruptAt, |published|) { exit := Interrupted; break try; }
        published := published + [i];
        count := count + 1;
      }
      publishCallCount := count;
    }
    doneCalls := doneCalls + 1;  // the finally block
  }

  lemma {:induction false} FibMonotone(m: nat, n: nat)
    requires m <= n
    ensures Fib(m) <= Fib(n)
    decreases n - m
  {
    if m < n {
      FibMonotone(m, n - 1);
      assert Fib(n - 1) <= Fib(n);
    }
  }

  /** Publication stops for good: once a value is not published, no later one is. */
  lemma PublishesDownward(ceiling: int, k: nat, l: nat)
    requires k <= l && Publishes(ceiling, l)
    ensures Publishes(ceiling, k)
  {
    if k >= 2 {
      FibMonotone(k, l);
    }
  }

  /** The uninterrupted output is determined by the ceiling alone. */
  lemma RunOutputUnique(ceiling: int, s: seq<int>, t: seq<int>)
    requires IsRunOutput(ceiling, s) && IsRunOutput(ceiling, t)
    ensures s == t
  {
  }

  /** Whatever was published, interrupted or not, starts with 0, never decreases, and stays within the ceiling after the first value. */
  lemma PublishedShape(ceiling: int, s: seq<int>)
    requires s == FibPrefix(|s|)
    requires forall k :: 0 <= k < |s| ==> Publishes(ceiling, k)
    ensures |s| > 0 ==> s[0] == 0
    ensures forall k :: 1 <= k < |s| ==> s[k] <= ceiling
    ensures forall k, l :: 0 <= k <= l < |s| ==> s[k] <= s[l]
  {
    forall k | 1 <= k < |s|
      ensures s[k] <= ceiling
    {
      assert Publishes(ceiling, k);
      assert Fib(1) == 1;
    }
    forall k, l | 0 <= k <= l < |s|
      ensures s[k] <= s[l]
    {
      FibMonotone(k, l);
    }
  }

  /** A ceiling of 0 or below publishes only the first 0. */
  lemma NonPositiveCeiling(ceiling: int, s: seq<int>)
    requires ceiling <= 0
    ensures IsRunOutput(ceiling, s) <==> s == [0]
  {
    assert FibPrefix(1) == [0];
    assert Publishes(ceiling, 0) && !Publishes(ceiling, 1);
  }

  /** A ceiling of 1 publishes 0 and 1, and not the second 1. */
  lemma CeilingOne(s: seq<int>)
    ensures IsRunOutput(1, s) <==> s == [0, 1]
  {
    assert FibPrefix(2) == [0, 1];
    assert Publishes(1, 0) && Publishes(1, 1) && !Publishes(1, 2);
  }

  /** A ceiling of 2 or more publishes 0, 1, 1, and ends with the last Fibonacci number within it. */
  lemma LargerCeiling(ceiling: int, s: seq<int>)
    requires ceiling >= 2 && IsRunOutput(ceiling, s)
    ensures |s| >= 3 && s[..3] == [0, 1, 1]
    ensures s[|s| - 1] <= ceiling < Fib(|s|)
  {
    assert Fib(2) == 1;
    assert Publishes(ceiling, 0) && Publishes(ceiling, 1) && Publishes(ceiling, 2);
    assert Publishes(ceiling, |s| - 1);
  }

  /** The ceiling 3 run publishes exactly [0, 1, 1, 2, 3]. */
  lemma CeilingThree(s: seq<int>)
    ensures IsRunOutput(3, s) <==> s == [0, 1, 1, 2, 3]
  {
    forall k: nat | k < 5
      ensures Publishes(3, k)
    {
      if k >= 2 {
        FibMonotone(k, 4);
      }
    }
    forall k: nat | k >= 5
      ensures !Publishes(3, k)
    {
      FibMonotone(5, k);
    }
    assert FibPrefix(5) == [0, 1, 1, 2, 3];
    if IsRunOutput(3, s) {
      assert |s| >= 5;
      assert Publishes(3, |s| - 1);
    }
  }

  /** Every ceiling has an uninterrupted output: the loop ends. */
  lemma RunTerminates(ceiling: int)
    ensures exists s :: IsRunOutput(ceiling, s)
  {
    if ceiling <= 0 {
      NonPositiveCeiling(ceiling, [0]);
    } else if ceiling == 1 {
      CeilingOne([0, 1]);
    } else {
      var n: nat := 2;
      while Fib(n) <= ceiling
        invariant 2 <= n
        invariant forall k :: 0 <= k < n ==> Publishes(ceiling, k)
        decreases ceiling - Fib(n)
      {
        FibMonotone(1, n - 1);
        n := n + 1;
      }
      assert IsRunOutput(ceiling, FibPrefix(n));
    }
  }
}
