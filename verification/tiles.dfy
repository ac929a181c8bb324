/**
 Tile ranks and their displayed values.

 A cell holds a rank `r`; the tile it shows is `Fibonacci(r)` in the game's
 own Fibonacci numbering (1, 2, 3, 5, 8, ...). Two tiles merge when their
 ranks are adjacent, or when both are the smallest tile.
 */
module Tiles {

  /** The 28 displayed values the board tabulates for ranks 0..27. */
  const FibTable: seq<nat> := [0, 1, 2, 3, 5, 8, 13, 21, 34, 55, 89, 144, 233, 377, 610, 987, 1597,
                               2584, 4181, 6765, 10946, 17711, 28657, 46368, 75025, 121393, 196418, 317811]

  /** Number of entries in the table; ranks at or above it are past the table. */
  const TableSize: nat := 28

  /** Displayed value of a rank: the table entry, continued by the same
      recurrence past the end of the table. */
  function Fibonacci(i: nat): (v: nat)
    ensures i < TableSize ==> v == FibTable[i]
    ensures i >= 1 ==> v >= 1
  {
    if i < |FibTable| then FibTable[i] else Fibonacci(i - 1) + Fibonacci(i - 2)
  }

  /** The table itself obeys the recurrence from rank 3 on. */
  lemma TableRecurrence(i: nat)
    requires 3 <= i < TableSize
    ensures FibTable[i] == FibTable[i - 1] + FibTable[i - 2]
  {
    if i < 10 {
      assert i in {3, 4, 5, 6, 7, 8, 9};
    } else if i < 19 {
      assert i in {10, 11, 12, 13, 14, 15, 16, 17, 18};
    } else {
      assert i in {19, 20, 21, 22, 23, 24, 25, 26, 27};
    }
  }

  /** fib(k) == fib(k-1) + fib(k-2) for every k >= 3, inside and past the table. */
  lemma FibonacciRecurrence(i: nat)
    requires i >= 3
    ensures Fibonacci(i) == Fibonacci(i - 1) + Fibonacci(i - 2)
  {
    if i < TableSize {
      TableRecurrence(i);
    }
  }

  /** Displayed values never decrease with rank. */
  lemma {:induction false} FibonacciMonotone(i: nat, j: nat)
    requires i <= j
    ensures Fibonacci(i) <= Fibonacci(j)
    decreases j - i
  {
    if i < j {
      FibonacciMonotone(i, j - 1);
      if j >= 3 {
        FibonacciRecurrence(j);
      }
    }
  }

  /** The merge predicate of the row scan: `hold` is the pending tile and
      `t` the next non-empty tile to its right. */
  predicate Mergeable(hold: nat, t: nat)
  {
    t - hold == 1 || hold - t == 1 || (t == 1 && hold == 1)
  }

  /** Rank produced by a merge: one above the larger of the two. */
  function MergedRank(hold: nat, t: nat): (m: nat)
    ensures m > hold && m > t
    ensures m == hold + 1 || m == t + 1
  {
    if t > hold then t + 1 else hold + 1
  }

  /** A merge of two real tiles conserves the total displayed value. */
  lemma MergeConserves(hold: nat, t: nat)
    requires hold >= 1 && t >= 1
    requires Mergeable(hold, t)
    ensures Fibonacci(MergedRank(hold, t)) == Fibonacci(hold) + Fibonacci(t)
  {
    if t > hold {
      MergeUp(hold, t);
    } else if hold > t {
      MergeUp(t, hold);
    } else {
      assert hold == 1 && t == 1;
      assert Fibonacci(2) == 2 && Fibonacci(1) == 1;
    }
  }

  /** Two tiles of adjacent ranks give the next rank's value. */
  lemma MergeUp(lo: nat, hi: nat)
    requires lo >= 1 && hi == lo + 1
    ensures Fibonacci(hi + 1) == Fibonacci(lo) + Fibonacci(hi)
  {
    var k := hi + 1;
    FibonacciRecurrence(k);
    assert k - 1 == hi && k - 2 == lo;
  }

  /** Sum of displayed values of a sequence of ranks. */
  function FibSum(xs: seq<nat>): nat
  {
    if xs == [] then 0 else Fibonacci(xs[0]) + FibSum(xs[1..])
  }

  lemma {:induction false} FibSumAppend(xs: seq<nat>, ys: seq<nat>)
    ensures FibSum(xs + ys) == FibSum(xs) + FibSum(ys)
  {
    if xs != [] {
      assert (xs + ys)[1..] == xs[1..] + ys;
      FibSumAppend(xs[1..], ys);
    } else {
      assert xs + ys == ys;
    }
  }
}
