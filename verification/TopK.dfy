/**
 fast_partial_sort: the K largest elements, largest first, with a min-heap of K elements.  The
 heapq operations and list.sort are used through their contracts only: heap order and contents.
 */
module TopK {
  import opened Permute

  ghost predicate Descending(s: seq<int>) {
    forall i, j :: 0 <= i < j < |s| ==> s[i] >= s[j]
  }

  function Insert(s: seq<int>, x: int): (r: seq<int>)
    ensures |r| == |s| + 1
  {
    if s == [] then [x] else if x > s[0] then [x] + s else [s[0]] + Insert(s[1..], x)
  }

  /** sorted(s, reverse=True) */
  function SortDescending(s: seq<int>): (r: seq<int>)
    ensures |r| == |s|
  {
    if s == [] then [] else Insert(SortDescending(s[..|s| - 1]), s[|s| - 1])
  }

  lemma {:induction false} InsertMembers(s: seq<int>, x: int)
    ensures forall y :: y in Insert(s, x) ==> y in s || y == x
  {
    if s != [] && x <= s[0] {
      InsertMembers(s[1..], x);
    }
  }

  lemma {:induction false} InsertContents(s: seq<int>, x: int)
    ensures multiset(Insert(s, x)) == multiset(s) + multiset{x}
  {
    if s != [] && x <= s[0] {
      InsertContents(s[1..], x);
      assert s == [s[0]] + s[1..];
    }
  }

  lemma {:induction false} InsertDescends(s: seq<int>, x: int)
    requires Descending(s)
    ensures Descending(Insert(s, x))
  {
    if s != [] && x <= s[0] {
      var r := Insert(s[1..], x);
      InsertDescends(s[1..], x);
      InsertMembers(s[1..], x);
      assert forall j :: 0 <= j < |r| ==> r[j] in r;
    }
  }

  lemma InsertSorts(s: seq<int>, x: int)
    requires Descending(s)
    ensures Descending(Insert(s, x)) && multiset(Insert(s, x)) == multiset(s) + multiset{x}
  {
    InsertDescends(s, x);
    InsertContents(s, x);
  }

  lemma {:induction false} SortSorts(s: seq<int>)
    ensures Descending(SortDescending(s)) && multiset(SortDescending(s)) == multiset(s)
  {
    if s != [] {
      SortSorts(s[..|s| - 1]);
      InsertSorts(SortDescending(s[..|s| - 1]), s[|s| - 1]);
      assert s == s[..|s| - 1] + [s[|s| - 1]];
    }
  }

  /** A descending list is determined by its elements. */
  lemma {:induction false} DescendingIsUnique(a: seq<int>, b: seq<int>)
    requires Descending(a) && Descending(b) && multiset(a) == multiset(b)
    ensures a == b
  {
    SameElements(a, b);
    if a != [] {
      SameHead(a, b);
      DropHeads(a, b);
      DescendingTail(a);
      DescendingTail(b);
      hide Descending;
      DescendingIsUnique(a[1..], b[1..]);
    }
  }

  lemma DropHeads(a: seq<int>, b: seq<int>)
    requires multiset(a) == multiset(b) && a != [] && b != [] && a[0] == b[0]
    ensures multiset(a[1..]) == multiset(b[1..])
  {
    DropBoth(a, 0, b, 0);
    assert a[..0] + a[1..] == a[1..] && b[..0] + b[1..] == b[1..];
  }

  lemma SameHead(a: seq<int>, b: seq<int>)
    requires Descending(a) && Descending(b) && a != [] && b != [] && forall x :: x in a <==> x in b
    ensures a[0] == b[0]
  {
    assert a[0] in a && b[0] in b;
    var i :| 0 <= i < |b| && b[i] == a[0];
    var j :| 0 <= j < |a| && a[j] == b[0];
  }

  lemma DescendingTail(s: seq<int>)
    requires Descending(s) && s != []
    ensures Descending(s[1..])
  {
  }

  /** The first k of the sorted list after one more element. */
  lemma {:induction false} InsertPrefix(s: seq<int>, x: int, k: nat)
    requires Descending(s) && 0 < k <= |s|
    ensures x > s[k - 1] ==> Insert(s, x)[..k] == Insert(s[..k - 1], x)
    ensures x <= s[k - 1] ==> Insert(s, x)[..k] == s[..k]
  {
    if x > s[0] {
      assert Insert(s, x)[..k] == [x] + s[..k - 1];
    } else if k > 1 {
      InsertPrefix(s[1..], x, k - 1);
      assert s[1..][..k - 1] == s[1..k];
      assert s[..k - 1][1..] == s[1..][..k - 2];
      assert Insert(s, x)[..k] == [s[0]] + Insert(s[1..], x)[..k - 1];
    }
  }

  // ---------------------------------------------------------------- the library, by contract

  ghost predicate ParentBelow(h: seq<int>, i: nat)
    requires 0 < i < |h|
  {
    h[(i - 1) / 2] <= h[i]
  }

  ghost predicate IsMinHeap(h: seq<int>) {
    forall i :: 0 < i < |h| ==> ParentBelow(h, i)
  }

  lemma {:induction false} HeapFirstIsLeast(h: seq<int>, i: nat)
    requires IsMinHeap(h) && i < |h|
    ensures h[0] <= h[i]
  {
    if i > 0 {
      assert ParentBelow(h, i);
      HeapFirstIsLeast(h, (i - 1) / 2);
    }
  }

  method Sort(s: seq<int>) returns (r: seq<int>)
    ensures Descending(r) && multiset(r) == multiset(s) && |r| == |s|
  {
    SortSorts(s);
    r := SortDescending(s);
  }

  method Heapify(s: seq<int>) returns (h: seq<int>)
    ensures IsMinHeap(h) && multiset(h) == multiset(s) && |h| == |s|
  {
    var d := Sort(s);
    h := [];
    var i := |d|;
    while i > 0
      invariant 0 <= i <= |d| && multiset(h) == multiset(d[i..])
      invariant |h| == |d| - i && forall k :: 0 <= k < |h| ==> h[k] == d[|d| - 1 - k]
    {
      i := i - 1;
      assert d[i..] == [d[i]] + d[i + 1..];
      h := h + [d[i]];
    }
    assert d[0..] == d;
  }

  /** heapq.heapreplace: the least element goes, x comes. */
  method HeapReplace(h: seq<int>, x: int) returns (r: seq<int>)
    requires IsMinHeap(h) && h != []
    ensures IsMinHeap(r) && |r| == |h|
    ensures multiset(r) + multiset{h[0]} == multiset(h) + multiset{x}
  {
    assert h == [h[0]] + h[1..];
    r := Heapify(h[1..] + [x]);
  }

  // ---------------------------------------------------------------- fast_partial_sort

  /** The heap holds the k largest of the elements seen so far. */
  ghost predicate HoldsLargest(heap: seq<int>, seen: seq<int>) {
    0 < |heap| <= |seen| && multiset(heap) == multiset(SortDescending(seen)[..|heap|])
  }

  lemma PrefixDescends(s: seq<int>, k: nat)
    requires Descending(s) && k <= |s|
    ensures Descending(s[..k])
  {
  }

  /** The root is the k-th largest. */
  lemma RootIsKth(heap: seq<int>, seen: seq<int>)
    requires HoldsLargest(heap, seen) && IsMinHeap(heap)
    ensures heap[0] == SortDescending(seen)[|heap| - 1]
  {
    var largest := SortDescending(seen)[..|heap|];
    SortSorts(seen);
    SameElements(heap, largest);
    assert heap[0] in largest && largest[|heap| - 1] in heap;
    var i :| 0 <= i < |heap| && heap[i] == largest[|heap| - 1];
    HeapFirstIsLeast(heap, i);
  }

  /** An element not above the root changes nothing. */
  lemma TooSmall(heap: seq<int>, seen: seq<int>, x: int)
    requires HoldsLargest(heap, seen) && IsMinHeap(heap) && x <= heap[0]
    ensures HoldsLargest(heap, seen + [x])
  {
    SortSorts(seen);
    RootIsKth(heap, seen);
    InsertPrefix(SortDescending(seen), x, |heap|);
    assert (seen + [x])[..|seen|] == seen;
  }

  /** A larger element takes the root's place. */
  lemma TakesRoot(heap: seq<int>, seen: seq<int>, x: int, heap': seq<int>)
    requires HoldsLargest(heap, seen) && IsMinHeap(heap) && x > heap[0]
    requires |heap'| == |heap| && multiset(heap') + multiset{heap[0]} == multiset(heap) + multiset{x}
    ensures HoldsLargest(heap', seen + [x])
  {
    var d, k := SortDescending(seen), |heap|;
    SortSorts(seen);
    RootIsKth(heap, seen);
    InsertPrefix(d, x, k);
    assert (seen + [x])[..|seen|] == seen;
    PrefixDescends(d, k - 1);
    InsertSorts(d[..k - 1], x);
    hide SortDescending, IsMinHeap, Insert, Descending;
    LastOfPrefix(d, k);
    SwapOne(multiset(heap), multiset(heap'), multiset(d[..k - 1]), heap[0], x);
  }

  lemma LastOfPrefix(d: seq<int>, k: nat)
    requires 0 < k <= |d|
    ensures multiset(d[..k]) == multiset(d[..k - 1]) + multiset{d[k - 1]}
  {
    assert d[..k] == d[..k - 1] + [d[k - 1]];
  }

  lemma SwapOne(h: multiset<int>, h': multiset<int>, rest: multiset<int>, root: int, x: int)
    requires h == rest + multiset{root} && h' + multiset{root} == h + multiset{x}
    ensures h' == rest + multiset{x}
  {
    assert (rest + multiset{x}) + multiset{root} == h + multiset{x};
    Cancel(h', rest + multiset{x}, root);
  }

  /** The whole input sorted, cut to its first K. */
  function Largest(K: int, data: seq<int>): seq<int> {
    SortDescending(data)[..if K <= 0 then 0 else if K < |data| then K else |data|]
  }

  lemma AllSeenAreHeld(s: seq<int>, heap: seq<int>)
    requires s != [] && multiset(heap) == multiset(s) && |heap| == |s|
    ensures HoldsLargest(heap, s)
  {
    SortSorts(s);
    assert SortDescending(s)[..|s|] == SortDescending(s);
  }

  lemma SortedHeapIsTheAnswer(heap: seq<int>, data: seq<int>, r: seq<int>)
    requires HoldsLargest(heap, data) && Descending(r) && multiset(r) == multiset(heap)
    ensures r == SortDescending(data)[..|heap|]
  {
    SortSorts(data);
    PrefixDescends(SortDescending(data), |heap|);
    DescendingIsUnique(r, SortDescending(data)[..|heap|]);
  }

  /**
   What the answer means, without any sort: K elements or all there are, largest first, and none of
   those left out is larger than any of them.
   */
  ghost predicate IsTopK(K: int, data: seq<int>, r: seq<int>) {
    && |r| == (if K <= 0 then 0 else if K < |data| then K else |data|)
    && Descending(r)
    && exists rest: seq<int> :: IsRest(data, r, rest)
  }

  ghost predicate IsRest(data: seq<int>, r: seq<int>, rest: seq<int>) {
    multiset(r) + multiset(rest) == multiset(data) && forall x, y :: x in r && y in rest ==> y <= x
  }

  lemma LargestIsTopK(K: int, data: seq<int>)
    ensures IsTopK(K, data, Largest(K, data))
  {
    var d, r := SortDescending(data), Largest(K, data);
    SortSorts(data);
    hide SortDescending;
    PrefixDescends(d, |r|);
    assert d == r + d[|r|..];
    assert IsRest(data, r, d[|r|..]);
  }

  method FastPartialSort(K: int, data: seq<int>) returns (r: seq<int>)
    ensures r == Largest(K, data) && IsTopK(K, data, r)
  {
    LargestIsTopK(K, data);
    hide IsTopK;
    hide HoldsLargest, IsMinHeap, Descending, SortDescending;
    var heap: seq<int> := [];
    var it, n := 0, 0;
    while n < K && it < |data|
      invariant 0 <= n == it <= |data| && (K <= 0 ==> n == 0) && (0 <= K ==> n <= K)
      invariant heap == data[..it]
    {
      heap := heap + [data[it]];
      it, n := it + 1, n + 1;
    }
    if heap == [] {
      return [];
    }
    heap := Heapify(heap);
    AllSeenAreHeld(data[..it], heap);
    var top := heap[0];
    ghost var k := it;
    while it < |data|
      invariant 0 < k <= it <= |data| && |heap| == k && top == heap[0]
      invariant IsMinHeap(heap) && HoldsLargest(heap, data[..it])
    {
      var x := data[it];
      assert data[..it + 1] == data[..it] + [x];
      if x > top {
        ghost var before := heap;
        heap := HeapReplace(heap, x);
        TakesRoot(before, data[..it], x, heap);
        top := heap[0];
      } else {
        TooSmall(heap, data[..it], x);
      }
      it := it + 1;
    }
    assert data[..it] == data;
    r := Sort(heap);
    SortedHeapIsTheAnswer(heap, data, r);
  }
}
