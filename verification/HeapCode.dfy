/** heap.c on the struct itself: the array of node pointers, `cnt`, and the nodes freed so far. */
module HeapCode {
  import opened HeapOrder
  import opened Permute

  // ---------------------------------------------------------------- node_free_post

  /** The slots whose node the post-order recursion from slot i frees, in order. */
  function PostOrder(i: nat, cnt: nat): seq<nat>
    requires 1 <= i
    decreases if i < cnt then cnt - i else 0
  {
    if i >= cnt then [] else PostOrder(2 * i, cnt) + PostOrder(2 * i + 1, cnt) + [i]
  }

  /** The slots the recursion reads. */
  function Touched(i: nat, cnt: nat): set<nat>
    requires 1 <= i
    decreases if i < cnt then cnt - i else 0
  {
    if i >= cnt then {i} else {i} + Touched(2 * i, cnt) + Touched(2 * i + 1, cnt)
  }

  function Count(s: seq<nat>, j: nat): nat { multiset(s)[j] }

  lemma {:induction false} BelowOneChild(i: nat, j: nat)
    requires 1 <= i
    ensures Below(i, j) <==> j == i || Below(2 * i, j) || Below(2 * i + 1, j)
    ensures !(Below(2 * i, j) && Below(2 * i + 1, j))
    ensures !(j == i && Below(2 * i, j)) && !(j == i && Below(2 * i + 1, j))
  {
    if j > i {
      BelowOneChild(i, j / 2);
    }
  }

  /** The recursion from slot i frees each live slot of its subtree exactly once, and no other. */
  lemma {:induction false} PostOrderOnce(i: nat, cnt: nat, j: nat)
    requires 1 <= i
    ensures Count(PostOrder(i, cnt), j) == if Below(i, j) && j < cnt then 1 else 0
    decreases if i < cnt then cnt - i else 0
  {
    hide Count;
    if i < cnt {
      hide PostOrder, Below;
      PostOrderUnfolds(i, cnt);
      PostOrderOnce(2 * i, cnt, j);
      PostOrderOnce(2 * i + 1, cnt, j);
      BelowOneChild(i, j);
      var a, b := PostOrder(2 * i, cnt), PostOrder(2 * i + 1, cnt);
      CountConcat(a, b, j);
      CountConcat(a + b, [i], j);
      CountOne(i, j);
    } else {
      CountNone(j);
    }
  }

  lemma PostOrderUnfolds(i: nat, cnt: nat)
    requires 1 <= i < cnt
    ensures PostOrder(i, cnt) == PostOrder(2 * i, cnt) + PostOrder(2 * i + 1, cnt) + [i]
  {
  }

  lemma CountNone(j: nat)
    ensures Count([], j) == 0
  {
  }

  lemma CountConcat(a: seq<nat>, b: seq<nat>, j: nat)
    ensures Count(a + b, j) == Count(a, j) + Count(b, j)
  {
  }

  lemma CountOne(i: nat, j: nat)
    ensures Count([i], j) == if i == j then 1 else 0
  {
  }

  lemma {:induction false} EverySlotIsBelowOne(j: nat)
    requires 1 <= j
    ensures Below(1, j)
  {
    if j > 1 {
      EverySlotIsBelowOne(j / 2);
    }
  }

  /** From the root: every live slot is freed exactly once. */
  lemma EverySlotFreedOnce(cnt: nat, j: nat)
    ensures Count(PostOrder(1, cnt), j) == if 1 <= j < cnt then 1 else 0
  {
    PostOrderOnce(1, cnt, j);
    if 1 <= j {
      EverySlotIsBelowOne(j);
    }
  }

  /** The list holds slots of the subtree of slot i only. */
  ghost predicate AllBelow(i: nat, slots: seq<nat>) {
    forall k :: 0 <= k < |slots| ==> Below(i, slots[k])
  }

  /** Slot y may come after slot x: y is not x and not below it, nor the left sibling of a right child x. */
  predicate MayFollow(x: nat, y: nat) {
    !Below(x, y) && !(x == y + 1 && y % 2 == 0)
  }

  ghost predicate ChildrenFirst(slots: seq<nat>) {
    forall a, b :: 0 <= a < b < |slots| ==> MayFollow(slots[a], slots[b])
  }

  lemma {:induction false} BelowTransitive(i: nat, x: nat, y: nat)
    requires Below(i, x) && Below(x, y)
    ensures Below(i, y)
  {
    if y != x {
      BelowTransitive(i, x, y / 2);
    }
  }

  /** The left sibling of a slot of the left subtree is not in the right one. */
  lemma SiblingsTogether(i: nat, x: nat)
    requires 1 <= i && Below(2 * i, x) && x % 2 == 1
    ensures !Below(2 * i + 1, x - 1)
  {
    BelowOneChild(i, x / 2);
    assert (x - 1) / 2 == x / 2;
  }

  /** A slot of the right subtree may follow a slot of the left one. */
  lemma RightFollowsLeft(i: nat, x: nat, y: nat)
    requires 1 <= i && Below(2 * i, x) && Below(2 * i + 1, y)
    ensures MayFollow(x, y)
  {
    BelowOneChild(i, y);
    if x % 2 == 1 {
      SiblingsTogether(i, x);
    }
    if Below(x, y) {
      BelowTransitive(2 * i, x, y);
    }
  }

  lemma {:induction false} BelowIsLater(i: nat, x: nat)
    requires Below(i, x)
    ensures i <= x
  {
  }

  lemma ParentFollows(i: nat, c: nat, x: nat)
    requires 1 <= i && (c == 2 * i || c == 2 * i + 1) && Below(c, x)
    ensures MayFollow(x, i)
  {
    BelowIsLater(c, x);
  }

  lemma {:induction false} PostOrderBelow(i: nat, cnt: nat)
    requires 1 <= i
    ensures AllBelow(i, PostOrder(i, cnt))
    decreases if i < cnt then cnt - i else 0
  {
    if i < cnt {
      PostOrderBelow(2 * i, cnt);
      PostOrderBelow(2 * i + 1, cnt);
      hide Below, PostOrder;
      PostOrderUnfolds(i, cnt);
      forall x ensures Below(2 * i, x) || Below(2 * i + 1, x) || x == i ==> Below(i, x) {
        BelowOneChild(i, x);
      }
    }
  }

  /** The recursion frees the nodes below a slot before the slot's own, and left children before right ones. */
  lemma {:induction false} PostOrderIsChildrenFirst(i: nat, cnt: nat)
    requires 1 <= i
    ensures ChildrenFirst(PostOrder(i, cnt))
    decreases if i < cnt then cnt - i else 0
  {
    if i < cnt {
      var l, r := PostOrder(2 * i, cnt), PostOrder(2 * i + 1, cnt);
      PostOrderIsChildrenFirst(2 * i, cnt);
      PostOrderIsChildrenFirst(2 * i + 1, cnt);
      PostOrderBelow(2 * i, cnt);
      PostOrderBelow(2 * i + 1, cnt);
      hide Below, MayFollow, PostOrder;
      PostOrderUnfolds(i, cnt);
      forall x, y | x in l && y in r ensures MayFollow(x, y) { RightFollowsLeft(i, x, y); }
      forall x | x in l ensures MayFollow(x, i) { ParentFollows(i, 2 * i, x); }
      forall x | x in r ensures MayFollow(x, i) { ParentFollows(i, 2 * i + 1, x); }
      ChildrenFirstParts(l, r, i);
    }
  }

  lemma ChildrenFirstParts(l: seq<nat>, r: seq<nat>, i: nat)
    requires ChildrenFirst(l) && ChildrenFirst(r)
    requires forall x, y :: x in l && y in r ==> MayFollow(x, y)
    requires forall x :: x in l || x in r ==> MayFollow(x, i)
    ensures ChildrenFirst(l + r + [i])
  {
    hide MayFollow;
    var s := l + r + [i];
    forall a, b | 0 <= a < b < |s| ensures MayFollow(s[a], s[b]) {
      assert s[a] == if a < |l| then l[a] else r[a - |l|];
      assert s[b] == if b < |l| then l[b] else if b < |l| + |r| then r[b - |l|] else i;
    }
  }

  lemma {:induction false} TouchedBelow(i: nat, cnt: nat, j: nat)
    requires 1 <= i
    ensures j in Touched(i, cnt) <==> Below(i, j) && (j == i || j / 2 < cnt)
    decreases if i < cnt then cnt - i else 0
  {
    if i < cnt {
      TouchedBelow(2 * i, cnt, j);
      TouchedBelow(2 * i + 1, cnt, j);
      BelowOneChild(i, j);
    } else {
      BelowBeyond(i, j);
    }
  }

  /** A proper descendant's parent is still at least the ancestor. */
  lemma BelowBeyond(i: nat, j: nat)
    ensures Below(i, j) && j != i ==> i <= j / 2
  {
    assert Below(i, j) && j != i ==> Below(i, j / 2);
  }

  /**
   heap_free reads inside the array exactly when the heap is empty or at most half full: with
   anything in it, twice the count must fit.
   */
  lemma FreeStaysInBounds(max: nat, cnt: nat)
    requires 1 <= cnt
    ensures (forall j :: j in Touched(1, cnt) ==> j < max) <==> (if cnt == 1 then 1 < max else 2 * cnt <= max)
  {
    TouchedBelow(1, cnt, 2 * cnt - 1);
    EverySlotIsBelowOne(2 * cnt - 1);
    forall j | j in Touched(1, cnt) ensures j < 2 * cnt {
      TouchedBelow(1, cnt, j);
    }
    if cnt == 1 {
      assert Touched(1, 1) == {1};
    } else {
      assert 2 * cnt - 1 in Touched(1, cnt);
    }
  }

  /** The nodes in the given slots. */
  function Pick(nodes: seq<Node>, slots: seq<nat>): seq<Node>
    requires LiveSlots(slots, |nodes| + 1)
  {
    seq(|slots|, k requires 0 <= k < |slots| => nodes[slots[k] - 1])
  }

  ghost predicate LiveSlots(slots: seq<nat>, cnt: nat) {
    forall k :: 0 <= k < |slots| ==> 1 <= slots[k] < cnt
  }

  /** Slots in another order pick the same nodes. */
  lemma {:induction false} PickPermutes(nodes: seq<Node>, a: seq<nat>, b: seq<nat>)
    requires LiveSlots(a, |nodes| + 1) && LiveSlots(b, |nodes| + 1) && multiset(a) == multiset(b)
    ensures multiset(Pick(nodes, a)) == multiset(Pick(nodes, b))
    decreases |a|
  {
    hide Pick;
    SameElements(a, b);
    if a == [] {
      PickNothing(nodes);
    } else {
      assert a[0] in b;
      var i :| 0 <= i < |b| && b[i] == a[0];
      DropBoth(a, 0, b, i);
      PickWithout(nodes, a, 0);
      PickWithout(nodes, b, i);
      PickPermutes(nodes, a[..0] + a[1..], b[..i] + b[i + 1..]);
    }
  }

  lemma PickNothing(nodes: seq<Node>)
    ensures Pick(nodes, []) == []
  {
  }

  lemma PickWithout(nodes: seq<Node>, a: seq<nat>, i: nat)
    requires LiveSlots(a, |nodes| + 1) && i < |a|
    ensures LiveSlots(a[..i] + a[i + 1..], |nodes| + 1)
    ensures multiset(Pick(nodes, a)) == multiset(Pick(nodes, a[..i] + a[i + 1..])) + multiset{nodes[a[i] - 1]}
  {
    var p := Pick(nodes, a);
    RemoveAt(p, i);
    assert Pick(nodes, a[..i] + a[i + 1..]) == p[..i] + p[i + 1..];
  }

  function Slots(cnt: nat): seq<nat>
    requires 1 <= cnt
  {
    seq(cnt - 1, k requires 0 <= k => k + 1)
  }

  lemma {:induction false} SlotsOnce(cnt: nat, j: nat)
    requires 1 <= cnt
    ensures Count(Slots(cnt), j) == if 1 <= j < cnt then 1 else 0
  {
    if cnt > 1 {
      SlotsOnce(cnt - 1, j);
      assert Slots(cnt) == Slots(cnt - 1) + [cnt - 1];
      CountConcat(Slots(cnt - 1), [cnt - 1], j);
      CountOne(cnt - 1, j);
    }
  }

  /** The recursion from the root frees all live nodes, as a multiset. */
  lemma FreesAllNodes(nodes: seq<Node>)
    requires LiveSlots(PostOrder(1, |nodes| + 1), |nodes| + 1)
    ensures multiset(Pick(nodes, PostOrder(1, |nodes| + 1))) == multiset(nodes)
  {
    hide PostOrder, Slots, Pick, LiveSlots;
    var cnt := |nodes| + 1;
    forall j ensures multiset(PostOrder(1, cnt))[j] == multiset(Slots(cnt))[j] {
      EverySlotFreedOnce(cnt, j);
      SlotsOnce(cnt, j);
    }
    assert multiset(PostOrder(1, cnt)) == multiset(Slots(cnt));
    PickAll(nodes);
    PickPermutes(nodes, PostOrder(1, cnt), Slots(cnt));
  }

  lemma PickAll(nodes: seq<Node>)
    ensures LiveSlots(Slots(|nodes| + 1), |nodes| + 1) && Pick(nodes, Slots(|nodes| + 1)) == nodes
  {
  }

  lemma PickPostOrder(nodes: seq<Node>, i: nat, cnt: nat)
    requires 1 <= i < cnt == |nodes| + 1
    requires LiveSlots(PostOrder(2 * i, cnt), cnt) && LiveSlots(PostOrder(2 * i + 1, cnt), cnt)
    ensures LiveSlots(PostOrder(i, cnt), cnt)
    ensures Pick(nodes, PostOrder(i, cnt))
         == Pick(nodes, PostOrder(2 * i, cnt)) + Pick(nodes, PostOrder(2 * i + 1, cnt)) + [nodes[i - 1]]
  {
    PostOrderUnfolds(i, cnt);
    hide PostOrder;
  }

  /** No node occurs twice in the two lists together. */
  ghost predicate Once(freed: seq<Node>, nodes: seq<Node>) {
    forall n :: n in freed + nodes ==> multiset(freed)[n] + multiset(nodes)[n] <= 1
  }

  lemma OnceAfterPush(freed: seq<Node>, nodes: seq<Node>, node: Node)
    requires Once(freed, nodes) && node !in freed && node !in nodes
    ensures Once(freed, Push(nodes, node))
  {
    PushAddsTheNode(nodes, node);
    hide Push;
    forall n | n in freed + Push(nodes, node) ensures multiset(freed)[n] + multiset(Push(nodes, node))[n] <= 1 {
      if n == node {
        assert multiset(freed)[n] == 0 && multiset(nodes)[n] == 0;
      } else {
        assert n in Push(nodes, node) ==> n in multiset(nodes);
        assert n in freed + nodes;
      }
    }
  }

  lemma OnceAfterPop(freed: seq<Node>, nodes: seq<Node>)
    requires Once(freed, nodes) && nodes != []
    ensures Once(freed + [nodes[0]], Pop(nodes))
  {
    PopRemovesTheRoot(nodes);
    hide Pop;
    forall n | n in freed + [nodes[0]] + Pop(nodes)
      ensures multiset(freed + [nodes[0]])[n] + multiset(Pop(nodes))[n] <= 1
    {
      assert n in Pop(nodes) ==> n in multiset(nodes);
      assert nodes[0] in nodes;
      assert n in freed + nodes;
    }
  }

  lemma OnceAfterFree(freed: seq<Node>, nodes: seq<Node>, freed': seq<Node>, n: Node)
    requires Once(freed, nodes) && multiset(freed') == multiset(freed) + multiset(nodes) && n in freed'
    ensures multiset(freed')[n] <= 1
  {
    assert n in multiset(freed');
    assert n in freed + nodes;
  }

  // ---------------------------------------------------------------- the struct

  lemma PushIsSiftUp(s: seq<Node>, node: Node)
    ensures Push(s, node) == SiftUp(s + [node], |s| + 1)
  {
  }

  lemma PopIsSiftDown(s: seq<Node>)
    requires s != []
    ensures Pop(s) == if |s| == 1 then [] else SiftDown(LastToRoot(s), 1)
  {
  }

  class Heap {
    const arr: array<Node?>
    var cnt: nat
    var freed: seq<Node>  // history: nodes passed to free

    ghost predicate Valid()
      reads `cnt, arr
    {
      1 <= cnt <= arr.Length && forall i :: 0 <= i < arr.Length ==> (arr[i] != null <==> 1 <= i < cnt)
    }

    /** The live nodes, slot 1 first. */
    ghost function Nodes(): (s: seq<Node>)
      requires Valid()
      reads `cnt, arr
      ensures |s| == cnt - 1
    {
      arr[1..cnt]
    }

    /** No node is freed and live, freed twice, or live in two slots. */
    ghost predicate FreedOnce()
      requires Valid()
      reads this, arr
    {
      Once(freed, Nodes())
    }

    /**
     heap_init: its loop compares and does not assign, so the slots keep what malloc left in them, and
     the heap is well formed if and only if they all happen to be NULL.
     */
    constructor (slots: array<Node?>)
      requires 1 <= slots.Length
      ensures arr == slots && cnt == 1 && freed == [] && slots[..] == old(slots[..])
      ensures Valid() <==> forall i :: 0 <= i < slots.Length ==> slots[i] == null
      ensures Valid() ==> Nodes() == [] && FreedOnce()
    {
      arr, cnt, freed := slots, 1, [];
    }

    method SwapSlots(i: nat, j: nat)
      requires Valid() && 1 <= i < cnt && 1 <= j < cnt
      modifies arr
      ensures Valid() && Nodes() == Swap(old(Nodes()), i, j)
    {
      ghost var s := Nodes();
      arr[i], arr[j] := arr[j], arr[i];
      assert Nodes() == Swap(s, i, j);
    }

    /** The comparisons of one turn of heappop's loop. */
    method ChooseChild(index: nat) returns (target: nat)
      requires Valid() && 1 <= index < cnt
      ensures target == Chosen(Nodes(), index)
    {
      hide ToInt;
      ghost var s := Nodes();
      var left, right := INT_MAX, INT_MAX;
      assert s[index - 1] == arr[index];
      if 2 * index < arr.Length && arr[2 * index] != null && arr[index].data > arr[2 * index].data {
        left := ToInt(arr[2 * index].data);
      }
      assert 2 * index < cnt ==> s[2 * index - 1] == arr[2 * index];
      assert left == Candidate(s, index, 2 * index);
      if 2 * index + 1 < arr.Length && arr[2 * index + 1] != null && arr[index].data > arr[2 * index + 1].data {
        right := ToInt(arr[2 * index + 1].data);
      }
      assert 2 * index + 1 < cnt ==> s[2 * index] == arr[2 * index + 1];
      assert right == Candidate(s, index, 2 * index + 1);
      target := if left < right then 2 * index else if left > right then 2 * index + 1 else 0;
    }

    /** The new node in the first free slot. */
    method AddLast(node: Node)
      requires Valid() && cnt < arr.Length
      modifies this`cnt, arr
      ensures Valid() && cnt == old(cnt) + 1 && Nodes() == old(Nodes()) + [node]
    {
      ghost var before := Nodes();
      arr[cnt] := node;
      cnt := cnt + 1;
      assert Nodes() == before + [node];
    }

    method HeapPush(data: int) returns (node: Node)
      requires Valid() && cnt < arr.Length
      modifies this, arr
      ensures Valid() && fresh(node) && node.data == data
      ensures Nodes() == Push(old(Nodes()), node) && freed == old(freed)
      ensures Ordered(old(Nodes())) ==> Ordered(Nodes())
      ensures old(FreedOnce()) ==> FreedOnce()
    {
      hide Once, Ordered, Push;
      ghost var before := Nodes();
      var target := cnt;
      node := new Node(data);
      assert node !in freed && node !in before;
      AddLast(node);
      PushIsSiftUp(before, node);
      while target != 1
        invariant Valid() && 1 <= target < cnt && cnt == old(cnt) + 1 && freed == old(freed)
        invariant SiftUp(Nodes(), target) == Push(before, node)
        decreases target
      {
        var parent := target / 2;
        assert Nodes()[parent - 1] == arr[parent] && Nodes()[target - 1] == arr[target];
        if arr[parent].data < arr[target].data {
          break;
        }
        SwapSlots(parent, target);
        target := parent;
      }
      assert Nodes() == SiftUp(Nodes(), target);
      if Ordered(before) {
        PushKeepsOrder(before, node);
      }
      if Once(freed, before) {
        OnceAfterPush(freed, before, node);
      }
    }

    method HeapPop() returns (res: int)
      requires Valid() && 1 < arr.Length
      modifies this, arr
      ensures Valid()
      ensures old(cnt) == 1 ==> res == -1 && Nodes() == [] && freed == old(freed)
      ensures old(cnt) > 1 ==> res == old(arr[1]).data && Nodes() == Pop(old(Nodes()))
      ensures old(cnt) > 1 ==> freed == old(freed) + [old(arr[1])]
      ensures old(cnt) > 1 && Ordered(old(Nodes())) ==> forall n :: n in old(Nodes()) ==> res <= n.data
      ensures old(FreedOnce()) ==> FreedOnce()
    {
      hide Once, Ordered, Pop;
      if arr[1] == null {
        return -1;
      }
      ghost var before := Nodes();
      res := arr[1].data;
      freed := freed + [arr[1]];
      cnt := cnt - 1;
      arr[1] := arr[cnt];
      arr[cnt] := null;
      var index := 1;
      PopIsSiftDown(before);
      if cnt > 1 {
        assert Nodes() == LastToRoot(before);
      }
      while index < cnt
        invariant Valid() && 1 <= index && cnt == old(cnt) - 1 && freed == old(freed) + [old(arr[1])]
        invariant cnt > 1 ==> index < cnt && SiftDown(Nodes(), index) == Pop(before)
        decreases cnt - index
      {
        var target := ChooseChild(index);
        if target == 0 {
          break;
        }
        SwapSlots(index, target);
        index := target;
      }
      if old(FreedOnce()) {
        OnceAfterPop(old(freed), before);
      }
      if Ordered(before) {
        forall n | n in before ensures res <= n.data {
          var i :| 0 <= i < |before| && before[i] == n;
          RootIsLeast(before, i + 1);
        }
      }
    }

    /** node_free_post; the bound on `index` is what keeps the reads inside the array. */
    method NodeFreePost(index: nat)
      requires Valid() && 1 <= index < arr.Length && (index < cnt ==> 2 * cnt <= arr.Length)
      modifies this`freed
      ensures Valid() && LiveSlots(PostOrder(index, cnt), cnt)
      ensures freed == old(freed) + Pick(Nodes(), PostOrder(index, cnt))
      decreases if index < cnt then cnt - index else 0
    {
      if arr[index] == null {
        return;
      }
      hide PostOrder, Pick;
      PostOrderUnfolds(index, cnt);
      NodeFreePost(index * 2);
      NodeFreePost(index * 2 + 1);
      freed := freed + [arr[index]];
      PickPostOrder(Nodes(), index, cnt);
    }

    /** heap_free: every live node is freed, and no node is ever freed twice. */
    method HeapFree()
      requires Valid() && 1 < arr.Length && (cnt == 1 || 2 * cnt <= arr.Length)
      modifies this`freed
      ensures Valid() && multiset(freed) == multiset(old(freed)) + multiset(Nodes())
      ensures old(FreedOnce()) ==> forall n :: n in freed ==> multiset(freed)[n] <= 1
    {
      hide Once, PostOrder;
      ghost var before := freed;
      NodeFreePost(1);
      FreesAllNodes(Nodes());
      if old(FreedOnce()) {
        forall n | n in freed ensures multiset(freed)[n] <= 1 {
          OnceAfterFree(before, Nodes(), freed, n);
        }
      }
    }
  }

  predicate DistinctInts(keys: seq<int>) {
    && (forall i, j :: 0 <= i < j < |keys| ==> keys[i] != keys[j])
    && (forall i :: 0 <= i < |keys| ==> -0x8000_0000 <= keys[i] <= INT_MAX)
  }

  method PushAll(heap: Heap, keys: seq<int>) returns (ghost nodes: seq<Node>)
    requires heap.Valid() && heap.Nodes() == [] && |keys| <= heap.arr.Length - 1
    modifies heap, heap.arr
    ensures heap.Valid() && heap.Nodes() == Pushes(nodes)
    ensures |nodes| == |keys| && forall k :: 0 <= k < |keys| ==> nodes[k].data == keys[k]
  {
    hide Ordered, Once, Push;
    nodes := [];
    for i := 0 to |keys|
      invariant heap.Valid() && heap.cnt == i + 1 && |nodes| == i && heap.Nodes() == Pushes(nodes)
      invariant forall k :: 0 <= k < i ==> nodes[k].data == keys[k]
    {
      var node := heap.HeapPush(keys[i]);
      assert (nodes + [node])[..i] == nodes;
      nodes := nodes + [node];
    }
  }

  method PopAll(heap: Heap) returns (out: seq<int>)
    requires heap.Valid()
    modifies heap, heap.arr
    ensures heap.Valid() && heap.Nodes() == [] && out == Drain(old(heap.Nodes()))
  {
    hide Ordered, Once, Pop;
    out := [];
    while heap.cnt > 1
      invariant heap.Valid() && out + Drain(heap.Nodes()) == Drain(old(heap.Nodes()))
      decreases heap.cnt
    {
      ghost var before := heap.Nodes();
      var key := heap.HeapPop();
      assert out + Drain(before) == (out + [key]) + Drain(heap.Nodes());
      out := out + [key];
    }
    assert out + Drain(heap.Nodes()) == out;
  }

  /**
   Up to MAX - 1 pushes and as many pops return every key as often as it was pushed, and distinct int
   keys in ascending order.
   */
  method PushAllThenPopAll(heap: Heap, keys: seq<int>) returns (out: seq<int>)
    requires heap.Valid() && heap.Nodes() == [] && |keys| <= heap.arr.Length - 1
    modifies heap, heap.arr
    ensures heap.Valid() && heap.Nodes() == []
    ensures multiset(out) == multiset(keys)
    ensures DistinctInts(keys) ==> Ascending(out)
  {
    ghost var nodes := PushAll(heap, keys);
    hide Pushes, Drain, Keys;
    SameKeys(nodes, keys);
    PushThenDrainAll(nodes);
    if DistinctInts(keys) {
      assert Distinct(nodes) && InRange(nodes);
      PushThenDrain(nodes);
    }
    out := PopAll(heap);
  }

  lemma SameKeys(nodes: seq<Node>, keys: seq<int>)
    requires |nodes| == |keys| && forall k :: 0 <= k < |keys| ==> nodes[k].data == keys[k]
    ensures Keys(nodes) == keys
  {
  }
}
