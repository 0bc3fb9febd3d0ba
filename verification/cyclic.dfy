/**
 * Wrap-around index arithmetic shared by the session registry
 * (`NextSession`/`PrevSession`) and the tab bar (`NextTab`/`PrevTab`):
 * the successor `(i+1) % n` and the predecessor that wraps from 0 to n-1.
 */
module Cyclic {

  /** `(i + 1) % n`, the next index with wrap-around (Go's `%` on a non-negative operand). */
  function Succ(i: nat, n: nat): nat
    requires n > 0
  {
    (i + 1) % n
  }

  /** `i - 1`, replaced by `n - 1` when it drops below zero. */
  function Pred(i: int, n: nat): int
    requires n > 0
  {
    if i - 1 < 0 then n - 1 else i - 1
  }

  /** The successor steps forward by one and wraps only from the last index. */
  lemma SuccCases(i: nat, n: nat)
    requires i < n
    ensures Succ(i, n) == if i + 1 < n then i + 1 else 0
  {
    if i + 1 == n {
      assert (i + 1) % n == n % n == 0;
    }
  }

  /** Stepping back undoes stepping forward, and the other way round. */
  lemma PredSucc(i: nat, n: nat)
    requires i < n
    ensures Succ(i, n) < n && Pred(Succ(i, n), n) == i
    ensures 0 <= Pred(i, n) < n && Succ(Pred(i, n), n) == i
  {
    SuccCases(i, n);
    if i > 0 {
      SuccCases(i - 1, n);
    } else {
      SuccCases(n - 1, n);
    }
  }

  /** k successive `Succ` steps from i. */
  function SuccIter(i: nat, k: nat, n: nat): nat
    requires n > 0
    decreases k
  {
    if k == 0 then i else SuccIter(Succ(i, n), k - 1, n)
  }

  lemma {:induction false} SuccIterCompose(i: nat, a: nat, b: nat, n: nat)
    requires n > 0
    ensures SuccIter(i, a + b, n) == SuccIter(SuccIter(i, a, n), b, n)
    decreases a
  {
    if a > 0 {
      SuccIterCompose(Succ(i, n), a - 1, b, n);
    }
  }

  lemma {:induction false} SuccIterWalk(i: nat, k: nat, n: nat)
    requires i + k < n
    ensures SuccIter(i, k, n) == i + k
    decreases k
  {
    if k > 0 {
      SuccCases(i, n);
      SuccIterWalk(i + 1, k - 1, n);
    }
  }

  /** n steps of `Succ` on n indices come back to the start. */
  lemma SuccCycle(i: nat, n: nat)
    requires i < n
    ensures SuccIter(i, n, n) == i
  {
    SuccIterCompose(i, n - 1 - i, i + 1, n);
    SuccIterWalk(i, n - 1 - i, n);
    SuccCases(n - 1, n);
    SuccIterWalk(0, i, n);
  }

  /** Every `Succ` iterate of an index stays an index. */
  lemma {:induction false} SuccIterBound(i: nat, k: nat, n: nat)
    requires i < n
    ensures SuccIter(i, k, n) < n
    decreases k
  {
    if k > 0 {
      SuccCases(i, n);
      SuccIterBound(Succ(i, n), k - 1, n);
    }
  }
}
