/** Index arithmetic on a cycle of n positions: the step forward and the step
    back used by the project carousel and by the hero paragraph rotation. */
module Cyclic {

  /** `(i + 1) % n`: the next position, wrapping from n - 1 to 0. */
  function Succ(i: int, n: int): (r: int)
    requires n > 0 && 0 <= i < n
    ensures 0 <= r < n
    ensures i < n - 1 ==> r == i + 1
    ensures i == n - 1 ==> r == 0
  {
    (i + 1) % n
  }

  /** `(i - 1 + n) % n`: the previous position, wrapping from 0 to n - 1. */
  function Pred(i: int, n: int): (r: int)
    requires n > 0 && 0 <= i < n
    ensures 0 <= r < n
    ensures 0 < i ==> r == i - 1
    ensures i == 0 ==> r == n - 1
  {
    (i - 1 + n) % n
  }

  /** Stepping back undoes stepping forward. */
  lemma PredSucc(i: int, n: int)
    requires n > 0 && 0 <= i < n
    ensures Pred(Succ(i, n), n) == i
  {
  }

  /** Stepping forward undoes stepping back. */
  lemma SuccPred(i: int, n: int)
    requires n > 0 && 0 <= i < n
    ensures Succ(Pred(i, n), n) == i
  {
  }

  /** The position reached after k steps forward from i. */
  function SuccIter(i: int, n: int, k: nat): (r: int)
    requires n > 0 && 0 <= i < n
    ensures 0 <= r < n
  {
    if k == 0 then i else Succ(SuccIter(i, n, k - 1), n)
  }

  /** Up to one full round, k steps forward from i land on i + k, wrapped
      once past the end. */
  lemma {:induction false} SuccIterWithinRound(i: int, n: int, k: nat)
    requires n > 0 && 0 <= i < n && k <= n
    ensures SuccIter(i, n, k) == if i + k < n then i + k else i + k - n
  {
    if k > 0 {
      SuccIterWithinRound(i, n, k - 1);
    }
  }

  /** Walking a + b steps is walking a steps and then b more. */
  lemma {:induction false} SuccIterAdd(i: int, n: int, a: nat, b: nat)
    requires n > 0 && 0 <= i < n
    ensures SuccIter(i, n, a + b) == SuccIter(SuccIter(i, n, a), n, b)
  {
    if b > 0 {
      SuccIterAdd(i, n, a, b - 1);
    }
  }

  /** n steps forward come back to the start: the cycle has period n. */
  lemma {:induction false} SuccIterFull(i: int, n: int)
    requires n > 0 && 0 <= i < n
    ensures SuccIter(i, n, n) == i
  {
    SuccIterWithinRound(i, n, n);
  }

  /** Walking n more steps changes nothing, whatever the number of steps. */
  lemma {:induction false} SuccIterPeriodic(i: int, n: int, k: nat)
    requires n > 0 && 0 <= i < n
    ensures SuccIter(i, n, k + n) == SuccIter(i, n, k)
  {
    SuccIterAdd(i, n, n, k);
    SuccIterFull(i, n);
  }

  /** Fewer than n steps forward never come back to the start: every position
      of the cycle is visited exactly once per round. */
  lemma {:induction false} SuccIterDistinct(i: int, n: int, k: nat)
    requires n > 0 && 0 <= i < n
    requires 0 < k < n
    ensures SuccIter(i, n, k) != i
  {
    SuccIterWithinRound(i, n, k);
  }
}
