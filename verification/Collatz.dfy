/**
 The 3n+1 map, its trajectories, and the 64-bit form in which the solver computes it.
 "n first reaches 1 after exactly k steps" is a relation, so that nothing here presumes
 that every number does reach 1.
 */
module Collatz {
  import opened Words

  /** One step of the 3n+1 map on unbounded integers. */
  function Next(n: int): int {
    if n % 2 == 0 then n / 2 else 3 * n + 1
  }

  /** One step of the map as the solver computes it, in 64-bit words. */
  function Next64(n: int): int {
    if n % 2 == 0 then n / 2 else Int64(Int64(3 * n) + 1)
  }

  /** The k-th number on the trajectory of n. */
  function Iter(n: int, k: nat): int {
    if k == 0 then n else Next(Iter(n, k - 1))
  }

  /** n reaches 1, for the first time, after exactly k steps. */
  ghost predicate Steps(n: int, k: nat)
    decreases k
  {
    if n == 1 then k == 0 else k > 0 && Steps(Next(n), k - 1)
  }

  /** None of the first k numbers on the trajectory of n is 1. */
  ghost predicate Unfinished(n: int, k: nat) {
    forall j: nat | j < k :: Iter(n, j) != 1
  }

  lemma {:induction false} IterPositive(n: int, k: nat)
    requires n >= 1
    ensures Iter(n, k) >= 1
  {
    if k > 0 {
      IterPositive(n, k - 1);
    }
  }

  lemma {:induction false} IterShift(n: int, k: nat)
    ensures Iter(n, k + 1) == Iter(Next(n), k)
  {
    if k > 0 {
      IterShift(n, k - 1);
    }
  }

  /** The relation agrees with its reading on trajectories, in both directions. */
  lemma {:induction false} StepsIsFirstHit(n: int, k: nat)
    ensures Steps(n, k) <==> Iter(n, k) == 1 && Unfinished(n, k)
    decreases k
  {
    if n == 1 {
      assert k > 0 ==> Iter(n, 0) == 1;
    } else if k > 0 {
      StepsIsFirstHit(Next(n), k - 1);
      IterShift(n, k - 1);
      forall j: nat | j < k - 1
        ensures Iter(Next(n), j) == Iter(n, j + 1)
      {
        IterShift(n, j);
      }
      if Unfinished(Next(n), k - 1) {
        forall j: nat | j < k
          ensures Iter(n, j) != 1
        {
          if j > 0 {
            assert Iter(Next(n), j - 1) != 1;
          }
        }
      }
      if Unfinished(n, k) {
        forall j: nat | j < k - 1
          ensures Iter(Next(n), j) != 1
        {
          assert Iter(n, j + 1) != 1;
        }
      }
    }
  }

  lemma {:induction false} StepsUnique(n: int, k: nat, k': nat)
    requires Steps(n, k) && Steps(n, k')
    ensures k == k'
    decreases k
  {
    if n != 1 {
      StepsUnique(Next(n), k - 1, k' - 1);
    }
  }

  /** A number met on an unfinished trajectory hands its step count back to the start. */
  lemma {:induction false} StepsExtend(n: int, k: nat, v: nat)
    requires Unfinished(n, k) && Steps(Iter(n, k), v)
    ensures Steps(n, k + v)
    decreases k
  {
    if k > 0 {
      assert Iter(n, k - 1) != 1;
      StepsExtend(n, k - 1, v + 1);
    }
  }

  lemma {:induction false} IterAdd(n: int, a: nat, b: nat)
    ensures Iter(n, a + b) == Iter(Iter(n, a), b)
    decreases b
  {
    if b > 0 {
      IterAdd(n, a, b - 1);
    }
  }

  /** The 64-bit step is the true step for every number that fits an 18 digit subscript. */
  lemma Next64Exact(n: int)
    requires 1 <= n < 1_000_000_000_000_000_000
    ensures Next64(n) == Next(n)
    ensures 1 <= Next64(n) < INT64_LIMIT
  {
    assert 0 <= 3 * n + 1 < INT64_LIMIT;
  }

  lemma StepBefore(n: int, m: int, k: nat)
    requires n != 1 && Next(n) == m && Steps(m, k)
    ensures Steps(n, k + 1)
  {
  }

  /** From 9 it takes 19 steps to 1, over 52. */
  lemma NineTakesNineteen()
    ensures Steps(9, 19) && Iter(9, 8) == 52
  {
    StepBefore(2, 1, 0);
    StepBefore(4, 2, 1);
    StepBefore(8, 4, 2);
    StepBefore(16, 8, 3);
    StepBefore(5, 16, 4);
    StepBefore(10, 5, 5);
    StepBefore(20, 10, 6);
    StepBefore(40, 20, 7);
    StepBefore(13, 40, 8);
    StepBefore(26, 13, 9);
    StepBefore(52, 26, 10);
    StepBefore(17, 52, 11);
    StepBefore(34, 17, 12);
    StepBefore(11, 34, 13);
    StepBefore(22, 11, 14);
    StepBefore(7, 22, 15);
    StepBefore(14, 7, 16);
    StepBefore(28, 14, 17);
    StepBefore(9, 28, 18);
    assert Iter(9, 4) == 22;
    assert Iter(9, 8) == 52;
  }
}
