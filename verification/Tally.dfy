/** Sums over sequences, indexed by thread number, and how they react to one update. */
module Tally {

  function Sum<T>(s: seq<T>, f: T -> int): int
  {
    if s == [] then 0 else Sum(s[..|s| - 1], f) + f(s[|s| - 1])
  }

  /** Changing one entry moves the sum by the difference of that entry. */
  lemma {:induction false} SumUpdate<T>(s: seq<T>, i: nat, x: T, f: T -> int)
    requires i < |s|
    ensures Sum(s[i := x], f) == Sum(s, f) - f(s[i]) + f(x)
  {
    var last := |s| - 1;
    if i < last {
      assert s[i := x][..last] == s[..last][i := x];
      SumUpdate(s[..last], i, x, f);
    } else {
      assert s[i := x][..last] == s[..last];
    }
  }

  /** A sum of bounded terms is bounded. */
  lemma {:induction false} SumBounds<T>(s: seq<T>, f: T -> int, lo: int, hi: int)
    requires forall i :: 0 <= i < |s| ==> lo <= f(s[i]) <= hi
    ensures lo * |s| <= Sum(s, f) <= hi * |s|
  {
    if s != [] {
      SumBounds(s[..|s| - 1], f, lo, hi);
      assert lo * |s| == lo * (|s| - 1) + lo;
      assert hi * |s| == hi * (|s| - 1) + hi;
    }
  }

  /** A count, as a term to sum. */
  function Value(n: nat): int { n }
}
