/** Positions on a ring of n slots, and powers of two. */
module Modular {

  /** The slot k places after `head`. */
  function Slot(head: nat, k: nat, n: nat): (s: nat)
    requires 0 < n
    ensures s < n
  {
    (head + k) % n
  }

  lemma MulSteps(n: nat, x: nat, y: nat)
    requires x < y
    ensures n * x + n <= n * y
  {
    assert n * y == n * x + n * (y - x);
    assert n * (y - x) == n + n * (y - x - 1);
  }

  /** Quotient and remainder are unique. */
  lemma ModUnique(a: nat, n: nat, q: nat, r: nat)
    requires r < n && a == n * q + r
    ensures a % n == r
  {
    var q', r' := a / n, a % n;
    assert a == n * q' + r';
    if q' < q {
      MulSteps(n, q', q);
    } else if q < q' {
      MulSteps(n, q, q');
    }
  }

  lemma ModAdd(a: nat, k: nat, n: nat)
    requires 0 < n && k <= n
    ensures (a + k) % n == if a % n + k < n then a % n + k else a % n + k - n
  {
    var q, r := a / n, a % n;
    assert a == n * q + r;
    if r + k < n {
      ModUnique(a + k, n, q, r + k);
    } else if r + k < 2 * n {
      assert n * (q + 1) == n * q + n;
      ModUnique(a + k, n, q + 1, r + k - n);
    }
  }

  /** Two places less than n apart are different slots. */
  lemma SlotsDiffer(head: nat, j: nat, k: nat, n: nat)
    requires j < k < j + n
    ensures Slot(head, j, n) != Slot(head, k, n)
  {
    ModAdd(head + j, k - j, n);
  }

  /** A slot counted from the reduced head is the slot counted from the head itself. */
  lemma SlotShift(head: nat, k: nat, n: nat)
    requires 0 < n && k <= n
    ensures Slot((head + 1) % n, k, n) == Slot(head, k + 1, n)
  {
    ModAdd(head + 1, k, n);
    var h := (head + 1) % n;
    ModUnique(h, n, 0, h);
    ModAdd(h, k, n);
  }

  /** The slot after the last held one. */
  lemma SlotNext(head: nat, k: nat, n: nat)
    requires 0 < n
    ensures (Slot(head, k, n) + 1) % n == Slot(head, k + 1, n)
  {
    var s := Slot(head, k, n);
    ModAdd(head + k, 1, n);
    ModUnique(s, n, 0, s);
    ModAdd(s, 1, n);
  }

  function Pow2(k: nat): (p: nat)
    ensures 0 < p
  {
    if k == 0 then 1 else 2 * Pow2(k - 1)
  }

  lemma Pow2Doubles(k: nat)
    requires 0 < k
    ensures Pow2(k) == 2 * Pow2(k - 1)
  {
  }

  lemma {:induction false} Pow2Grows(k: nat, m: nat)
    requires k <= m
    ensures Pow2(k) <= Pow2(m)
  {
    if k < m {
      Pow2Grows(k, m - 1);
    }
  }
}
