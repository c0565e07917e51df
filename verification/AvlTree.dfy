/** The AVL tree of avltree.py as a value: what `put`, `balance` and the two turns compute. */
module AvlTree {
  import opened Modular
  import opened Permute

  /** `height` is the cached field of the node. */
  datatype Tree = Leaf | Node(left: Tree, key: int, height: int, right: Tree)

  function Height(t: Tree): int { if t.Leaf? then 0 else t.height }

  function Max(a: int, b: int): int { if a < b then b else a }

  function Different(t: Tree): int
    requires t.Node?
  {
    Height(t.left) - Height(t.right)
  }

  /** A node whose cached height is computed from its children. */
  function Make(l: Tree, k: int, r: Tree): Tree { Node(l, k, Max(Height(l), Height(r)) + 1, r) }

  /** Every cached height is the height of the subtree. */
  predicate Cached(t: Tree) {
    t.Node? ==> Cached(t.left) && Cached(t.right) && t.height == Max(Height(t.left), Height(t.right)) + 1
  }

  function LeftTurn(t: Tree): (r: Tree)
    requires t.Node? && t.right.Node?
    ensures Cached(t.left) && Cached(t.right) ==> r.Node? && Cached(r)
  {
    var x := t.right;
    Make(Make(t.left, t.key, x.left), x.key, x.right)
  }

  function RightTurn(t: Tree): (r: Tree)
    requires t.Node? && t.left.Node?
    ensures Cached(t.left) && Cached(t.right) ==> r.Node? && Cached(r)
  {
    var x := t.left;
    Make(x.left, x.key, Make(x.right, t.key, t.right))
  }

  function TrueHeight(t: Tree): nat {
    if t.Leaf? then 0 else 1 + Max(TrueHeight(t.left), TrueHeight(t.right))
  }

  lemma {:induction false} CachedIsTrue(t: Tree)
    requires Cached(t)
    ensures Height(t) == TrueHeight(t)
  {
    if t.Node? {
      CachedIsTrue(t.left);
      CachedIsTrue(t.right);
    }
  }

  /** Neither turn is ever asked to lift a missing child. */
  function Balance(t: Tree): (r: Tree)
    requires t.Node? && Cached(t)
    ensures r.Node? && Cached(r)
  {
    CachedIsTrue(t.left);
    CachedIsTrue(t.right);
    if Different(t) > 1 then
      CachedIsTrue(t.left.right);
      CachedIsTrue(t.left.left);
      RightTurn(if Different(t.left) < 0 then t.(left := LeftTurn(t.left)) else t)
    else if Different(t) < -1 then
      CachedIsTrue(t.right.right);
      CachedIsTrue(t.right.left);
      LeftTurn(if Different(t.right) > 0 then t.(right := RightTurn(t.right)) else t)
    else t
  }

  function Put(t: Tree, k: int): (r: Tree)
    requires Cached(t)
    ensures r.Node? && Cached(r)
    decreases t
  {
    if t.Leaf? then Node(Leaf, k, 1, Leaf)
    else if t.key > k then Balance(Make(Put(t.left, k), t.key, t.right))
    else if t.key < k then Balance(Make(t.left, t.key, Put(t.right, k)))
    else Balance(Make(t.left, t.key, t.right))
  }

  // ---------------------------------------------------------------- balance

  /** Siblings differ by at most one in height, everywhere. */
  predicate Balanced(t: Tree) {
    t.Node? ==> Balanced(t.left) && Balanced(t.right) && -1 <= Different(t) <= 1
  }

  /** Heights are never negative, and a cached node is taller than each child by one or two. */
  lemma ChildHeights(t: Tree)
    requires t.Node? && Cached(t) && Balanced(t)
    ensures 0 <= Height(t.left) && 0 <= Height(t.right)
    ensures t.height - 2 <= Height(t.left) <= t.height - 1 && t.height - 2 <= Height(t.right) <= t.height - 1
  {
    CachedIsTrue(t.left);
    CachedIsTrue(t.right);
  }

  lemma RightTurnRepairs(t: Tree)
    requires t.Node? && Cached(t) && Balanced(t.left) && Balanced(t.right) && Different(t) == 2
    requires t.left.Node? && Different(t.left) >= 0
    ensures Balanced(RightTurn(t)) && t.height - 1 <= Height(RightTurn(t)) <= t.height
  {
    ChildHeights(t.left);
  }

  lemma DoubleRightRepairs(t: Tree)
    requires t.Node? && Cached(t) && Balanced(t.left) && Balanced(t.right) && Different(t) == 2
    requires t.left.Node? && t.left.right.Node? && Different(t.left) < 0
    ensures var r := RightTurn(t.(left := LeftTurn(t.left)));
            Balanced(r) && t.height - 1 <= Height(r) <= t.height
  {
    ChildHeights(t.left);
    ChildHeights(t.left.right);
  }

  lemma LeftTurnRepairs(t: Tree)
    requires t.Node? && Cached(t) && Balanced(t.left) && Balanced(t.right) && Different(t) == -2
    requires t.right.Node? && Different(t.right) <= 0
    ensures Balanced(LeftTurn(t)) && t.height - 1 <= Height(LeftTurn(t)) <= t.height
  {
    ChildHeights(t.right);
  }

  lemma DoubleLeftRepairs(t: Tree)
    requires t.Node? && Cached(t) && Balanced(t.left) && Balanced(t.right) && Different(t) == -2
    requires t.right.Node? && t.right.left.Node? && Different(t.right) > 0
    ensures var r := LeftTurn(t.(right := RightTurn(t.right)));
            Balanced(r) && t.height - 1 <= Height(r) <= t.height
  {
    ChildHeights(t.right);
    ChildHeights(t.right.left);
  }

  /** `balance` repairs any node with balanced subtrees whose heights differ by at most two. */
  lemma BalanceRepairs(t: Tree)
    requires t.Node? && Cached(t) && Balanced(t.left) && Balanced(t.right) && -2 <= Different(t) <= 2
    ensures Balanced(Balance(t)) && t.height - 1 <= Height(Balance(t)) <= t.height
    ensures -1 <= Different(t) <= 1 ==> Balance(t) == t
  {
    CachedIsTrue(t.left);
    CachedIsTrue(t.right);
    if Different(t) == 2 {
      CachedIsTrue(t.left.left);
      CachedIsTrue(t.left.right);
      hide LeftTurn, RightTurn, Balanced;
      if Different(t.left) < 0 { DoubleRightRepairs(t); } else { RightTurnRepairs(t); }
    } else if Different(t) == -2 {
      CachedIsTrue(t.right.left);
      CachedIsTrue(t.right.right);
      hide LeftTurn, RightTurn, Balanced;
      if Different(t.right) > 0 { DoubleLeftRepairs(t); } else { LeftTurnRepairs(t); }
    }
  }

  /** One insertion keeps the tree balanced and raises it by at most one. */
  lemma {:induction false} PutBalanced(t: Tree, k: int)
    requires Cached(t) && Balanced(t)
    ensures Balanced(Put(t, k)) && Height(t) <= Height(Put(t, k)) <= Height(t) + 1
    decreases t
  {
    if t.Node? {
      if t.key > k {
        PutBalanced(t.left, k);
        BalanceRepairs(Make(Put(t.left, k), t.key, t.right));
      } else if t.key < k {
        PutBalanced(t.right, k);
        BalanceRepairs(Make(t.left, t.key, Put(t.right, k)));
      } else {
        BalanceRepairs(Make(t.left, t.key, t.right));
      }
    }
  }

  // ---------------------------------------------------------------- order

  function Inorder(t: Tree): seq<int> {
    if t.Leaf? then [] else Inorder(t.left) + [t.key] + Inorder(t.right)
  }

  /** Rotations move no key. */
  lemma BalanceKeepsInorder(t: Tree)
    requires t.Node? && Cached(t)
    ensures Inorder(Balance(t)) == Inorder(t)
  {
    CachedIsTrue(t.left);
    CachedIsTrue(t.right);
    if Different(t) > 1 {
      if Different(t.left) < 0 {
        LeftTurnKeepsInorder(t.left);
        RightTurnKeepsInorder(t.(left := LeftTurn(t.left)));
      } else {
        RightTurnKeepsInorder(t);
      }
    } else if Different(t) < -1 {
      if Different(t.right) > 0 {
        RightTurnKeepsInorder(t.right);
        LeftTurnKeepsInorder(t.(right := RightTurn(t.right)));
      } else {
        LeftTurnKeepsInorder(t);
      }
    }
  }

  lemma Regroup(a: seq<int>, x: int, b: seq<int>, y: int, c: seq<int>)
    ensures (a + [x] + b) + [y] + c == a + [x] + (b + [y] + c)
  {
  }

  lemma LeftTurnKeepsInorder(t: Tree)
    requires t.Node? && t.right.Node?
    ensures Inorder(LeftTurn(t)) == Inorder(t)
  {
    Regroup(Inorder(t.left), t.key, Inorder(t.right.left), t.right.key, Inorder(t.right.right));
  }

  lemma RightTurnKeepsInorder(t: Tree)
    requires t.Node? && t.left.Node?
    ensures Inorder(RightTurn(t)) == Inorder(t)
  {
    Regroup(Inorder(t.left.left), t.left.key, Inorder(t.left.right), t.key, Inorder(t.right));
  }

  /** The reference: insertion into an ascending list, which ignores a key already there. */
  function Insert(s: seq<int>, k: int): seq<int> {
    if s == [] then [k]
    else if k < s[0] then [k] + s
    else if k == s[0] then s
    else [s[0]] + Insert(s[1..], k)
  }

  lemma PassFirst(a: seq<int>, p: int, b: seq<int>)
    requires a != []
    ensures (a + [p] + b)[0] == a[0] && (a + [p] + b)[1..] == a[1..] + [p] + b
    ensures [a[0]] + (a[1..] + [p] + b) == a + [p] + b
  {
  }

  /** Below a larger pivot, insertion happens before it. */
  lemma {:induction false} InsertBefore(a: seq<int>, p: int, b: seq<int>, k: int)
    requires k < p
    ensures Insert(a + [p] + b, k) == Insert(a, k) + [p] + b
  {
    if a == [] {
      assert [] + [p] + b == [p] + b;
      assert Insert(a, k) + [p] + b == [k] + ([p] + b);
    } else {
      InsertBefore(a[1..], p, b, k);
      PassFirst(a, p, b);
    }
  }

  /** Above a smaller pivot, everything up to it is passed. */
  lemma {:induction false} InsertAfter(a: seq<int>, p: int, b: seq<int>, k: int)
    requires p < k && forall i :: 0 <= i < |a| ==> a[i] < k
    ensures Insert(a + [p] + b, k) == a + [p] + Insert(b, k)
  {
    if a == [] {
      assert [] + [p] + b == [p] + b;
    } else {
      InsertAfter(a[1..], p, b, k);
      PassFirst(a, p, b);
    }
  }

  lemma {:induction false} InsertPresent(a: seq<int>, k: int, b: seq<int>)
    requires forall i :: 0 <= i < |a| ==> a[i] < k
    ensures Insert(a + [k] + b, k) == a + [k] + b
  {
    if a == [] {
      assert [] + [k] + b == [k] + b;
    } else {
      InsertPresent(a[1..], k, b);
      PassFirst(a, k, b);
    }
  }

  lemma SplitAscending(a: seq<int>, p: int, b: seq<int>)
    requires Ascending(a + [p] + b)
    ensures Ascending(a) && Ascending(b)
    ensures (forall i :: 0 <= i < |a| ==> a[i] < p) && (forall i :: 0 <= i < |b| ==> p < b[i])
  {
    var s := a + [p] + b;
    assert s[|a|] == p;
    assert forall i :: 0 <= i < |a| ==> s[i] == a[i];
    assert forall i :: 0 <= i < |b| ==> s[|a| + 1 + i] == b[i];
  }

  /** In-order, `put` is insertion into the ascending list of keys. */
  lemma {:induction false} PutInserts(t: Tree, k: int)
    requires Cached(t) && Ascending(Inorder(t))
    ensures Inorder(Put(t, k)) == Insert(Inorder(t), k)
    decreases t
  {
    if t.Node? {
      var a, b := Inorder(t.left), Inorder(t.right);
      SplitAscending(a, t.key, b);
      if t.key > k {
        PutInserts(t.left, k);
        InsertBefore(a, t.key, b, k);
        BalanceKeepsInorder(Make(Put(t.left, k), t.key, t.right));
      } else if t.key < k {
        PutInserts(t.right, k);
        InsertAfter(a, t.key, b, k);
        BalanceKeepsInorder(Make(t.left, t.key, Put(t.right, k)));
      } else {
        InsertPresent(a, k, b);
        BalanceKeepsInorder(Make(t.left, t.key, t.right));
      }
    }
  }

  /** The list insertion keeps ascending order and adds exactly the key. */
  lemma {:induction false} InsertAdds(s: seq<int>, k: int)
    requires Ascending(s)
    ensures Ascending(Insert(s, k))
    ensures forall x :: x in Insert(s, k) <==> x in s || x == k
  {
    if s != [] && k > s[0] {
      InsertAdds(s[1..], k);
      assert forall x :: x in s <==> x == s[0] || x in s[1..];
      var r := Insert(s[1..], k);
      forall i | 0 <= i < |r| ensures s[0] < r[i] {
        assert r[i] in r;
      }
    }
  }

  /** Putting a key that is present changes nothing at all, cached heights included. */
  lemma {:induction false} PutDuplicate(t: Tree, k: int)
    requires Cached(t) && Balanced(t) && Ascending(Inorder(t)) && k in Inorder(t)
    ensures Put(t, k) == t
    decreases t
  {
    SplitAscending(Inorder(t.left), t.key, Inorder(t.right));
    if t.key > k {
      PutDuplicate(t.left, k);
    } else if t.key < k {
      PutDuplicate(t.right, k);
    }
    BalanceRepairs(t);
  }

  // ---------------------------------------------------------------- size

  function Size(t: Tree): nat {
    if t.Leaf? then 0 else Size(t.left) + 1 + Size(t.right)
  }

  function Fib(n: nat): nat {
    if n < 2 then n else Fib(n - 1) + Fib(n - 2)
  }

  lemma {:induction false} FibGrows(n: nat)
    ensures Fib(n) <= Fib(n + 1)
  {
    if n >= 2 {
      FibGrows(n - 1);
    }
  }

  lemma SizeStep(l: nat, r: nat, m: nat, n: nat)
    requires -1 <= l - r <= 1 && m + 1 >= Fib(l + 2) && n + 1 >= Fib(r + 2)
    ensures m + 1 + n + 1 >= Fib(1 + Max(l, r) + 2)
  {
    hide Fib;
    var h := Max(l, r);
    FibStep(h);
    FibGrows(h + 1);
  }

  lemma FibStep(h: nat)
    ensures Fib(h + 3) == Fib(h + 2) + Fib(h + 1)
  {
  }

  /** A balanced tree of height h holds at least Fib(h + 2) - 1 keys. */
  lemma {:induction false} BalancedIsLarge(t: Tree)
    requires Cached(t) && Balanced(t)
    ensures Size(t) + 1 >= Fib(TrueHeight(t) + 2)
  {
    if t.Node? {
      BalancedIsLarge(t.left);
      BalancedIsLarge(t.right);
      CachedIsTrue(t.left);
      CachedIsTrue(t.right);
      var l, r := TrueHeight(t.left), TrueHeight(t.right);
      SizeStep(l, r, Size(t.left), Size(t.right));
    } else {
      assert Fib(2) == 1;
    }
  }

  lemma {:induction false} FibIsExponential(h: nat)
    ensures Fib(h + 2) >= Pow2(h / 2)
  {
    if h < 2 {
      assert Fib(2) == 1 && Fib(3) == 2;
    } else {
      FibIsExponential(h - 2);
      FibGrows(h);
      assert Fib(h + 2) == Fib(h + 1) + Fib(h);
    }
  }

  /** Calls of put_item made by one put, the outermost included. */
  function Calls(t: Tree, k: int): nat {
    if t.Leaf? || t.key == k then 1
    else 1 + Calls(if t.key > k then t.left else t.right, k)
  }

  lemma {:induction false} CallsFollowHeight(t: Tree, k: int)
    ensures Calls(t, k) <= TrueHeight(t) + 1
  {
    if t.Node? && t.key != k {
      CallsFollowHeight(if t.key > k then t.left else t.right, k);
    }
  }

  /** In a balanced tree, 2 to half the depth of the recursion is at most the number of keys plus one. */
  lemma CallsAreLogarithmic(t: Tree, k: int)
    requires Cached(t) && Balanced(t)
    ensures 1 <= Calls(t, k) && Pow2((Calls(t, k) - 1) / 2) <= Size(t) + 1
  {
    BalancedIsLarge(t);
    FibIsExponential(TrueHeight(t));
    CallsFollowHeight(t, k);
    Pow2Grows((Calls(t, k) - 1) / 2, TrueHeight(t) / 2);
  }

  lemma {:induction false} SizeIsLength(t: Tree)
    ensures Size(t) == |Inorder(t)|
  {
    if t.Node? {
      SizeIsLength(t.left);
      SizeIsLength(t.right);
    }
  }

  // ---------------------------------------------------------------- every reachable tree

  /** The tree after putting the keys in order into an empty one. */
  function Puts(keys: seq<int>): (t: Tree)
    ensures Cached(t)
  {
    if keys == [] then Leaf else Put(Puts(keys[..|keys| - 1]), keys[|keys| - 1])
  }

  /**
   Every tree reachable by puts is balanced, has true cached heights and strictly ascending keys,
   and holds exactly the keys put.
   */
  lemma {:induction false} ReachableTrees(keys: seq<int>)
    ensures var t := Puts(keys);
            && Cached(t) && Balanced(t) && Ascending(Inorder(t))
            && forall k :: k in Inorder(t) <==> k in keys
  {
    if keys != [] {
      hide Balanced, Cached, Put, Inorder, Insert, Ascending;
      var init, k := keys[..|keys| - 1], keys[|keys| - 1];
      ReachableTrees(init);
      OnePut(Puts(init), k);
      assert keys == init + [k];
    }
  }

  /** The whole effect of one put. */
  lemma OnePut(t: Tree, k: int)
    requires Cached(t) && Balanced(t) && Ascending(Inorder(t))
    ensures Balanced(Put(t, k)) && Ascending(Inorder(Put(t, k)))
    ensures Inorder(Put(t, k)) == Insert(Inorder(t), k)
    ensures forall x :: x in Inorder(Put(t, k)) <==> x in Inorder(t) || x == k
  {
    hide Cached, Balanced, Put, Inorder, Insert, Ascending;
    PutBalanced(t, k);
    PutInserts(t, k);
    InsertAdds(Inorder(t), k);
  }

  /** The recursion of put_item is logarithmic: 2 to half its depth is at most the number of keys plus one. */
  lemma PutIsLogarithmic(keys: seq<int>, k: int)
    ensures var t := Puts(keys);
            && Size(t) + 1 >= Fib(TrueHeight(t) + 2)
            && Pow2((Calls(t, k) - 1) / 2) <= Size(t) + 1
  {
    hide Calls, Size, Fib, Pow2, TrueHeight, Inorder, Ascending, Balanced, Cached, Puts;
    ReachableTrees(keys);
    BalancedIsLarge(Puts(keys));
    CallsAreLogarithmic(Puts(keys), k);
  }
}
