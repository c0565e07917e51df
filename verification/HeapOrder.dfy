/**
 The 1-based binary heap of heap.c on sequences: position i of the array is element i - 1.
 `SiftUp` and `SiftDown` are what the two loops compute.
 */
module HeapOrder {
  import opened Permute

  /** struct Node; `data` is a long and is never changed. */
  class Node {
    const data: int
    constructor (data: int)
      ensures this.data == data
    {
      this.data := data;
    }
  }

  function Key(s: seq<Node>, i: nat): int
    requires 1 <= i <= |s|
  {
    s[i - 1].data
  }

  function Swap(s: seq<Node>, i: nat, j: nat): (r: seq<Node>)
    requires 1 <= i <= |s| && 1 <= j <= |s|
    ensures |r| == |s|
  {
    s[i - 1 := s[j - 1]][j - 1 := s[i - 1]]
  }

  /** The loop of heappush from slot i: stop only below a strictly smaller parent. */
  function SiftUp(s: seq<Node>, i: nat): (r: seq<Node>)
    requires 1 <= i <= |s|
    ensures |r| == |s|
    decreases i
  {
    if i == 1 || Key(s, i / 2) < Key(s, i) then s else SiftUp(Swap(s, i / 2, i), i / 2)
  }

  function Push(s: seq<Node>, node: Node): (r: seq<Node>)
    ensures |r| == |s| + 1
  {
    SiftUp(s + [node], |s| + 1)
  }

  const INT_MAX: int := 0x7fff_ffff

  /** Assigning a long to an int. */
  function ToInt(x: int): (r: int)
    ensures -0x8000_0000 <= r <= 0x7fff_ffff && (x - r) % 0x1_0000_0000 == 0
  {
    (x + 0x8000_0000) % 0x1_0000_0000 - 0x8000_0000
  }

  /** `left` or `right` in heappop: the child's key as an int if the child exists and is smaller. */
  function Candidate(s: seq<Node>, i: nat, child: nat): (r: int)
    requires 1 <= i <= |s| && 1 <= child
    ensures r <= INT_MAX
  {
    if child <= |s| && Key(s, i) > Key(s, child) then ToInt(Key(s, child)) else INT_MAX
  }

  /** The child heappop moves up at slot i, or 0 when it stops. */
  function Chosen(s: seq<Node>, i: nat): (t: nat)
    requires 1 <= i <= |s|
    ensures t != 0 ==> i < t <= |s| && Key(s, i) > Key(s, t) && (t == 2 * i || t == 2 * i + 1)
  {
    var left, right := Candidate(s, i, 2 * i), Candidate(s, i, 2 * i + 1);
    if left < right then 2 * i else if left > right then 2 * i + 1 else 0
  }

  /** The loop of heappop from slot i. */
  function SiftDown(s: seq<Node>, i: nat): (r: seq<Node>)
    requires 1 <= i <= |s|
    ensures |r| == |s|
    decreases |s| - i
  {
    var t := Chosen(s, i);
    if t == 0 then s else SiftDown(Swap(s, i, t), t)
  }

  /** The last node moved to the root. */
  function LastToRoot(s: seq<Node>): (r: seq<Node>)
    requires s != []
    ensures |r| == |s| - 1
  {
    s[0 := s[|s| - 1]][..|s| - 1]
  }

  function Pop(s: seq<Node>): (r: seq<Node>)
    requires s != []
    ensures |r| == |s| - 1
  {
    if |s| == 1 then [] else SiftDown(LastToRoot(s), 1)
  }

  // ---------------------------------------------------------------- nothing is lost

  lemma SwapKeepsNodes(s: seq<Node>, i: nat, j: nat)
    requires 1 <= i <= |s| && 1 <= j <= |s|
    ensures multiset(Swap(s, i, j)) == multiset(s)
  {
  }

  lemma {:induction false} SiftUpKeepsNodes(s: seq<Node>, i: nat)
    requires 1 <= i <= |s|
    ensures multiset(SiftUp(s, i)) == multiset(s)
    decreases i
  {
    if i != 1 && Key(s, i / 2) >= Key(s, i) {
      SwapKeepsNodes(s, i / 2, i);
      SiftUpKeepsNodes(Swap(s, i / 2, i), i / 2);
    }
  }

  lemma {:induction false} SiftDownKeepsNodes(s: seq<Node>, i: nat)
    requires 1 <= i <= |s|
    ensures multiset(SiftDown(s, i)) == multiset(s)
    decreases |s| - i
  {
    var t := Chosen(s, i);
    if t != 0 {
      SwapKeepsNodes(s, i, t);
      SiftDownKeepsNodes(Swap(s, i, t), t);
    }
  }

  /** heappush adds the new node, heappop removes the root, and nothing else changes hands. */
  lemma PushAddsTheNode(s: seq<Node>, node: Node)
    ensures multiset(Push(s, node)) == multiset(s) + multiset{node}
  {
    SiftUpKeepsNodes(s + [node], |s| + 1);
  }

  lemma PopRemovesTheRoot(s: seq<Node>)
    requires s != []
    ensures multiset(s) == multiset(Pop(s)) + multiset{s[0]}
  {
    var last := |s| - 1;
    if last == 0 {
      assert s == [s[0]];
    } else {
      SiftDownKeepsNodes(LastToRoot(s), 1);
      assert LastToRoot(s) == [s[last]] + s[1..last];
      assert s == [s[0]] + s[1..last] + [s[last]];
    }
  }

  // ---------------------------------------------------------------- heap order

  ghost predicate Ordered(s: seq<Node>) {
    forall i :: 2 <= i <= |s| ==> Key(s, i / 2) <= Key(s, i)
  }

  /** Order everywhere except between slot i and its parent. */
  ghost predicate OrderedBut(s: seq<Node>, i: nat)
    requires 1 <= i <= |s|
  {
    && (forall j :: 2 <= j <= |s| && j != i ==> Key(s, j / 2) <= Key(s, j))
    && (forall j :: 2 <= j <= |s| && j / 2 == i && i >= 2 ==> Key(s, i / 2) <= Key(s, j))
  }

  lemma {:induction false} SiftUpOrders(s: seq<Node>, i: nat)
    requires 1 <= i <= |s| && OrderedBut(s, i)
    ensures Ordered(SiftUp(s, i))
    decreases i
  {
    if i != 1 && Key(s, i / 2) >= Key(s, i) {
      var p := i / 2;
      var r := Swap(s, p, i);
      forall j | 2 <= j <= |r| && j != p ensures Key(r, j / 2) <= Key(r, j) {
      }
      forall j | 2 <= j <= |r| && j / 2 == p && p >= 2 ensures Key(r, p / 2) <= Key(r, j) {
      }
      SiftUpOrders(r, p);
    }
  }

  /** heappush keeps heap order, duplicate keys included. */
  lemma PushKeepsOrder(s: seq<Node>, node: Node)
    requires Ordered(s)
    ensures Ordered(Push(s, node))
  {
    var t := s + [node];
    assert forall j :: 1 <= j <= |s| ==> Key(t, j) == Key(s, j);
    SiftUpOrders(t, |s| + 1);
  }

  /** The node is at slot j, below a strictly smaller parent or at the root. */
  predicate SettledAt(s: seq<Node>, node: Node, j: nat)
    requires 1 <= j <= |s|
  {
    s[j - 1] == node && (j > 1 ==> Key(s, j / 2) < node.data)
  }

  lemma {:induction false} SiftUpSettles(s: seq<Node>, i: nat) returns (j: nat)
    requires 1 <= i <= |s|
    ensures 1 <= j <= i && SettledAt(SiftUp(s, i), s[i - 1], j)
    decreases i
  {
    if i != 1 && Key(s, i / 2) >= Key(s, i) {
      j := SiftUpSettles(Swap(s, i / 2, i), i / 2);
    } else {
      j := i;
    }
  }

  /** The new node passes every parent that is not smaller, equal keys included. */
  lemma PushSettles(s: seq<Node>, node: Node) returns (j: nat)
    ensures 1 <= j <= |s| + 1 && SettledAt(Push(s, node), node, j)
  {
    j := SiftUpSettles(s + [node], |s| + 1);
  }

  /** Order everywhere except between slot i and its children. */
  ghost predicate OrderedAbove(s: seq<Node>, i: nat)
    requires 1 <= i <= |s|
  {
    && (forall j :: 2 <= j <= |s| && j / 2 != i ==> Key(s, j / 2) <= Key(s, j))
    && (forall j :: 2 <= j <= |s| && j / 2 == i && i >= 2 ==> Key(s, i / 2) <= Key(s, j))
  }

  /** Child c of slot i exists and has a smaller key. */
  predicate IsSmaller(s: seq<Node>, i: nat, c: nat)
    requires 1 <= i <= |s| && 1 <= c
  {
    c <= |s| && Key(s, c) < Key(s, i)
  }

  /**
   Which child moves up, for all keys: with one smaller child, that one unless it reads as INT_MAX;
   with two, the one that reads as the smaller int, and none when they read alike.
   */
  lemma ChosenIs(s: seq<Node>, i: nat)
    requires 1 <= i <= |s|
    ensures var l, r := 2 * i, 2 * i + 1;
            && (Chosen(s, i) == 0 || Chosen(s, i) == l || Chosen(s, i) == r)
            && (!IsSmaller(s, i, l) && !IsSmaller(s, i, r) ==> Chosen(s, i) == 0)
            && (IsSmaller(s, i, l) && !IsSmaller(s, i, r) ==>
                  (Chosen(s, i) == l <==> ToInt(Key(s, l)) != 0x7fff_ffff))
            && (!IsSmaller(s, i, l) && IsSmaller(s, i, r) ==>
                  (Chosen(s, i) == r <==> ToInt(Key(s, r)) != 0x7fff_ffff))
            && (IsSmaller(s, i, l) && IsSmaller(s, i, r) ==>
                  && (Chosen(s, i) == l <==> ToInt(Key(s, l)) < ToInt(Key(s, r)))
                  && (Chosen(s, i) == r <==> ToInt(Key(s, r)) < ToInt(Key(s, l))))
  {
    hide ToInt;
  }

  /** The choice at slot i is right: the smaller child moves up, or no child is smaller. */
  predicate RightChoice(s: seq<Node>, i: nat)
    requires 1 <= i <= |s|
  {
    var t := Chosen(s, i);
    if t == 0 then forall c :: 2 * i <= c <= 2 * i + 1 && c <= |s| ==> Key(s, i) <= Key(s, c)
    else forall c :: 2 * i <= c <= 2 * i + 1 && c <= |s| ==> Key(s, t) <= Key(s, c)
  }

  /** Every choice on the way down is right. */
  predicate RightChoices(s: seq<Node>, i: nat)
    requires 1 <= i <= |s|
    decreases |s| - i
  {
    RightChoice(s, i) && (Chosen(s, i) != 0 ==> RightChoices(Swap(s, i, Chosen(s, i)), Chosen(s, i)))
  }

  lemma ChoiceKeepsOrderAbove(s: seq<Node>, i: nat)
    requires 1 <= i <= |s| && OrderedAbove(s, i) && RightChoice(s, i) && Chosen(s, i) != 0
    ensures OrderedAbove(Swap(s, i, Chosen(s, i)), Chosen(s, i))
  {
    var t := Chosen(s, i);
    var r := Swap(s, i, t);
    forall j | 2 <= j <= |r| && j / 2 != t ensures Key(r, j / 2) <= Key(r, j) {
      if j / 2 == i { assert 2 * i <= j <= 2 * i + 1; }
    }
  }

  lemma {:induction false} RightChoicesOrder(s: seq<Node>, i: nat)
    requires 1 <= i <= |s| && OrderedAbove(s, i) && RightChoices(s, i)
    ensures Ordered(SiftDown(s, i))
    decreases |s| - i
  {
    var t := Chosen(s, i);
    if t == 0 {
      forall j | 2 <= j <= |s| ensures Key(s, j / 2) <= Key(s, j) {
        if j / 2 == i { assert 2 * i <= j <= 2 * i + 1; }
      }
    } else {
      ChoiceKeepsOrderAbove(s, i);
      RightChoicesOrder(Swap(s, i, t), t);
    }
  }

  /** Slot j lies in the subtree of slot i. */
  predicate Below(i: nat, j: nat) {
    j == i || (j > i && Below(i, j / 2))
  }

  lemma {:induction false} BelowChild(i: nat, c: nat, j: nat)
    requires 1 <= i && c / 2 == i && i < c && Below(c, j)
    ensures Below(i, j) && j != i
  {
    if j != c {
      BelowChild(i, c, j / 2);
    }
  }

  /** Sifting from slot i moves nothing outside its subtree. */
  lemma {:induction false} SiftDownStaysBelow(s: seq<Node>, i: nat, j: nat)
    requires 1 <= i <= |s| && 1 <= j <= |s| && !Below(i, j)
    ensures Key(SiftDown(s, i), j) == Key(s, j)
    decreases |s| - i
  {
    var t := Chosen(s, i);
    if t != 0 {
      if Below(t, j) {
        BelowChild(i, t, j);
      }
      SiftDownStaysBelow(Swap(s, i, t), t, j);
    }
  }

  /** A wrong choice is never repaired: the slot keeps a key larger than the other child's. */
  lemma {:induction false} WrongChoicesStay(s: seq<Node>, i: nat)
    requires 1 <= i <= |s| && !RightChoices(s, i)
    ensures !Ordered(SiftDown(s, i))
    decreases |s| - i
  {
    var t := Chosen(s, i);
    var r := SiftDown(s, i);
    if RightChoice(s, i) {
      WrongChoicesStay(Swap(s, i, t), t);
    } else {
      var c :| 2 * i <= c <= 2 * i + 1 && c <= |s| && Key(s, c) < Key(s, if t == 0 then i else t);
      if t != 0 {
        assert c != t && !Below(t, i) && !Below(t, c / 2);
        SiftDownStaysBelow(Swap(s, i, t), t, i);
        SiftDownStaysBelow(Swap(s, i, t), t, c);
      }
      assert c / 2 == i && Key(r, i) > Key(r, c);
    }
  }

  /** heappop keeps heap order if and only if every choice on the way down is right. */
  lemma PopOrderIff(s: seq<Node>)
    requires Ordered(s) && |s| >= 2
    ensures Ordered(Pop(s)) <==> RightChoices(LastToRoot(s), 1)
  {
    var t := LastToRoot(s);
    assert forall j :: 2 <= j <= |t| ==> Key(t, j) == Key(s, j);
    if RightChoices(t, 1) {
      RightChoicesOrder(t, 1);
    } else {
      WrongChoicesStay(t, 1);
    }
  }

  // ---------------------------------------------------------------- when the choices are right

  predicate InRange(s: seq<Node>) {
    forall j :: 0 <= j < |s| ==> -0x8000_0000 <= s[j].data <= INT_MAX
  }

  predicate Distinct(s: seq<Node>) {
    forall i, j :: 0 <= i < j < |s| ==> s[i].data != s[j].data
  }

  /** Line 84: both children are equal and smaller than the sinking node. */
  predicate TieAt(s: seq<Node>, i: nat)
    requires 1 <= i <= |s|
  {
    2 * i + 1 <= |s| && Key(s, 2 * i) == Key(s, 2 * i + 1) && Key(s, 2 * i) < Key(s, i)
  }

  /** The sinking node meets such a tie on its way. */
  predicate MeetsTie(s: seq<Node>, i: nat)
    requires 1 <= i <= |s|
    decreases |s| - i
  {
    TieAt(s, i) || (Chosen(s, i) != 0 && MeetsTie(Swap(s, i, Chosen(s, i)), Chosen(s, i)))
  }

  lemma ToIntInRange(x: int)
    requires -0x8000_0000 <= x <= INT_MAX
    ensures ToInt(x) == x
  {
  }

  lemma ChoiceInRange(s: seq<Node>, i: nat)
    requires 1 <= i <= |s| && InRange(s)
    ensures RightChoice(s, i) <==> !TieAt(s, i)
    ensures TieAt(s, i) ==> Chosen(s, i) == 0
  {
    if 2 * i <= |s| { ToIntInRange(Key(s, 2 * i)); }
    if 2 * i + 1 <= |s| { ToIntInRange(Key(s, 2 * i + 1)); }
    hide ToInt;
    if TieAt(s, i) {
      assert Key(s, i) > Key(s, 2 * i);
    }
  }

  /** For keys that fit in an int, the choices are right exactly when no tie is met. */
  lemma {:induction false} TiesAreTheOnlyTrouble(s: seq<Node>, i: nat)
    requires 1 <= i <= |s| && InRange(s)
    ensures RightChoices(s, i) <==> !MeetsTie(s, i)
    decreases |s| - i
  {
    ChoiceInRange(s, i);
    if Chosen(s, i) != 0 {
      TiesAreTheOnlyTrouble(Swap(s, i, Chosen(s, i)), Chosen(s, i));
    }
  }

  lemma {:induction false} DistinctMeetsNoTie(s: seq<Node>, i: nat)
    requires 1 <= i <= |s| && Distinct(s)
    ensures !MeetsTie(s, i)
    decreases |s| - i
  {
    if Chosen(s, i) != 0 {
      DistinctMeetsNoTie(Swap(s, i, Chosen(s, i)), Chosen(s, i));
    }
  }

  lemma DistinctByNodes(s: seq<Node>, r: seq<Node>, node: Node)
    requires Distinct(s) && multiset(s) == multiset(r) + multiset{node}
    ensures Distinct(r) && node !in r
  {
    forall i, j | 0 <= i < j < |r| ensures r[i].data != r[j].data {
      if r[i].data == r[j].data {
        assert multiset(r)[r[i]] >= 1 && multiset(r)[r[j]] >= 1;
        SameNode(s, r[i], r[j]);
        TwiceIn(r, i, j);
        OnceIn(s, r[i]);
      }
    }
    if node in r {
      assert multiset(r)[node] >= 1;
      OnceIn(s, node);
    }
  }

  lemma SameNode(s: seq<Node>, a: Node, b: Node)
    requires Distinct(s) && multiset(s)[a] >= 1 && multiset(s)[b] >= 1 && a.data == b.data
    ensures a == b
  {
    assert a in s && b in s;
  }

  lemma TwiceIn(r: seq<Node>, i: nat, j: nat)
    requires i < j < |r| && r[i] == r[j]
    ensures multiset(r)[r[i]] >= 2
  {
    assert r == r[..j] + r[j..];
    assert r[i] in r[..j] && r[j] in r[j..];
    assert multiset(r) == multiset(r[..j]) + multiset(r[j..]);
  }

  lemma {:induction false} OnceIn(s: seq<Node>, a: Node)
    requires Distinct(s)
    ensures multiset(s)[a] <= 1
  {
    if s != [] {
      var init := s[..|s| - 1];
      OnceIn(init, a);
      assert s == init + [s[|s| - 1]];
      if a == s[|s| - 1] {
        assert a !in init;
      }
    }
  }

  /** heappop on distinct keys that fit in an int keeps heap order. */
  lemma PopKeepsOrder(s: seq<Node>)
    requires Ordered(s) && Distinct(s) && InRange(s) && s != []
    ensures Ordered(Pop(s)) && Distinct(Pop(s)) && InRange(Pop(s)) && s[0] !in Pop(s)
  {
    PopRemovesTheRoot(s);
    DistinctByNodes(s, Pop(s), s[0]);
    forall n | n in Pop(s) ensures n in s {
      assert multiset(Pop(s))[n] >= 1;
      assert n in multiset(s);
    }
    assert forall j :: 0 <= j < |Pop(s)| ==> Pop(s)[j] in Pop(s);
    if |s| >= 2 {
      var t := LastToRoot(s);
      assert Distinct(t) && InRange(t);
      PopOrderIff(s);
      TiesAreTheOnlyTrouble(t, 1);
      DistinctMeetsNoTie(t, 1);
    }
  }

  lemma {:induction false} RootIsLeast(s: seq<Node>, i: nat)
    requires Ordered(s) && 1 <= i <= |s|
    ensures Key(s, 1) <= Key(s, i)
  {
    if i >= 2 {
      RootIsLeast(s, i / 2);
    }
  }

  /** With equal keys the order can break: 1, 2, 2, 3 pushed and one pop. */
  lemma EqualChildrenBreakTheHeap(a: Node, b: Node, c: Node, d: Node)
    requires a.data == 1 && b.data == 2 && c.data == 2 && d.data == 3
    ensures var s := Push(Push(Push(Push([], a), b), c), d);
            Ordered(s) && InRange(s) && !Ordered(Pop(s)) && Key(Pop(s), 1) == 3
  {
  }

  /** Distinct keys that do not fit in an int can break it: a smaller child that reads as INT_MAX is not seen. */
  lemma WideKeyHidesASmallerChild(a: Node, b: Node, c: Node)
    requires a.data == 1 && b.data == 0x7fff_ffff && c.data == 0x8_0000_0000
    ensures var s := Push(Push(Push([], a), b), c);
            Ordered(s) && Distinct(s) && !InRange(s) && Key(s, 2) == 0x7fff_ffff
            && !Ordered(Pop(s)) && Key(Pop(s), 1) == 0x8_0000_0000
  {
  }

  /** And the truncated comparison can move the larger child up. */
  lemma WideKeyPicksTheLargerChild(a: Node, b: Node, c: Node, d: Node)
    requires a.data == 1 && b.data == 2 && c.data == 0x1_0000_0001 && d.data == 0x1_0000_0002
    ensures var s := Push(Push(Push(Push([], a), b), c), d);
            Ordered(s) && Distinct(s) && !InRange(s)
            && !Ordered(Pop(s)) && Key(Pop(s), 1) == 0x1_0000_0001 && Key(Pop(s), 2) == 2
  {
    var s, t := [a, b, c, d], [d, b, c];
    assert Push(Push(Push(Push([], a), b), c), d) == s;
    assert LastToRoot(s) == t;
    assert Chosen(t, 1) == 3;
    assert Swap(t, 1, 3) == [c, b, d];
    assert Chosen([c, b, d], 3) == 0;
    assert SiftDown([c, b, d], 3) == [c, b, d];
    assert SiftDown(t, 1) == [c, b, d];
    assert Pop(s) == [c, b, d];
    assert Key([c, b, d], 1) > Key([c, b, d], 2);
    assert Key([c, b, d], 2 / 2) > Key([c, b, d], 2);
    assert s[2].data > INT_MAX;
  }

  // ---------------------------------------------------------------- whole runs

  function Pushes(nodes: seq<Node>): (s: seq<Node>)
    ensures |s| == |nodes|
  {
    if nodes == [] then [] else Push(Pushes(nodes[..|nodes| - 1]), nodes[|nodes| - 1])
  }

  /** The keys returned by popping until the heap is empty. */
  function Drain(s: seq<Node>): (keys: seq<int>)
    ensures |keys| == |s|
    decreases |s|
  {
    if s == [] then [] else [Key(s, 1)] + Drain(Pop(s))
  }

  function Keys(s: seq<Node>): (keys: seq<int>)
    ensures |keys| == |s|
  {
    seq(|s|, i requires 0 <= i < |s| => s[i].data)
  }

  lemma KeysConcat(a: seq<Node>, b: seq<Node>)
    ensures Keys(a + b) == Keys(a) + Keys(b)
  {
  }

  /** Moving a node about moves its key. */
  lemma KeysSplitAt(s: seq<Node>, i: nat)
    requires i < |s|
    ensures multiset(Keys(s)) == multiset(Keys(s[..i] + s[i + 1..])) + multiset{s[i].data}
  {
    hide Keys;
    RemoveAt(Keys(s), i);
    KeysWithout(s, i);
  }

  lemma KeysWithout(s: seq<Node>, i: nat)
    requires i < |s|
    ensures Keys(s)[i] == s[i].data && Keys(s[..i] + s[i + 1..]) == Keys(s)[..i] + Keys(s)[i + 1..]
  {
  }

  lemma {:induction false} SameNodesSameKeys(a: seq<Node>, b: seq<Node>)
    requires multiset(a) == multiset(b)
    ensures multiset(Keys(a)) == multiset(Keys(b))
    decreases |a|
  {
    hide Keys;
    SameLength(a, b);
    if a != [] {
      assert a[0] in multiset(a) && a[0] in b;
      var j :| 0 <= j < |b| && b[j] == a[0];
      DropBoth(a, 0, b, j);
      SameNodesSameKeys(a[..0] + a[1..], b[..j] + b[j + 1..]);
      KeysSplitAt(a, 0);
      KeysSplitAt(b, j);
    } else {
      assert a == b;
    }
  }

  lemma SameLength(a: seq<Node>, b: seq<Node>)
    requires multiset(a) == multiset(b)
    ensures |a| == |b|
  {
    assert |multiset(a)| == |a| && |multiset(b)| == |b|;
  }

  lemma PopKeepsKeys(s: seq<Node>)
    requires s != []
    ensures multiset(Keys(s)) == multiset([Key(s, 1)] + Keys(Pop(s)))
  {
    hide Pop;
    PopRemovesTheRoot(s);
    assert multiset([s[0]] + Pop(s)) == multiset{s[0]} + multiset(Pop(s));
    SameNodesSameKeys(s, [s[0]] + Pop(s));
    KeysConcat([s[0]], Pop(s));
    assert Keys([s[0]]) == [Key(s, 1)];
  }

  /** Popping until empty returns each key as often as it was held, whatever the keys and their order. */
  lemma {:induction false} DrainKeepsKeys(s: seq<Node>)
    ensures multiset(Drain(s)) == multiset(Keys(s))
    decreases |s|
  {
    if s != [] {
      hide Pop, Keys;
      DrainKeepsKeys(Pop(s));
      PopKeepsKeys(s);
      SameTail(Key(s, 1), Drain(Pop(s)), Keys(Pop(s)));
    }
  }

  lemma SameTail(x: int, a: seq<int>, b: seq<int>)
    requires multiset(a) == multiset(b)
    ensures multiset([x] + a) == multiset([x] + b)
  {
    assert multiset([x] + a) == multiset{x} + multiset(a);
    assert multiset([x] + b) == multiset{x} + multiset(b);
  }

  /** The heap is in order before every pop. */
  ghost predicate StaysOrdered(s: seq<Node>)
    decreases |s|
  {
    Ordered(s) && (s != [] ==> StaysOrdered(Pop(s)))
  }

  /** No pop on the way to the empty heap meets a tie. */
  predicate NoPopMeetsTie(s: seq<Node>)
    decreases |s|
  {
    s != [] ==> (|s| >= 2 ==> !MeetsTie(LastToRoot(s), 1)) && NoPopMeetsTie(Pop(s))
  }

  lemma NodesInRange(s: seq<Node>, r: seq<Node>)
    requires InRange(s) && multiset(r) <= multiset(s)
    ensures InRange(r)
  {
    forall j | 0 <= j < |r| ensures -0x8000_0000 <= r[j].data <= INT_MAX {
      assert r[j] in multiset(r);
      assert r[j] in s;
    }
  }

  /** Over a whole drain of int-range keys, order is kept if and only if no pop meets a tie. */
  lemma {:induction false} StaysOrderedIff(s: seq<Node>)
    requires Ordered(s) && InRange(s)
    ensures StaysOrdered(s) <==> NoPopMeetsTie(s)
    decreases |s|
  {
    if s != [] {
      hide Ordered, RightChoices, MeetsTie, InRange;
      PopRemovesTheRoot(s);
      NodesInRange(s, Pop(s));
      OnePopIff(s);
      if Ordered(Pop(s)) { StaysOrderedIff(Pop(s)); }
    }
  }

  lemma OnePopIff(s: seq<Node>)
    requires Ordered(s) && InRange(s) && s != []
    ensures Ordered(Pop(s)) <==> (|s| >= 2 ==> !MeetsTie(LastToRoot(s), 1))
  {
    if |s| >= 2 {
      var t := LastToRoot(s);
      assert InRange(t);
      hide Pop, RightChoices, MeetsTie, InRange, LastToRoot;
      PopOrderIff(s);
      TiesAreTheOnlyTrouble(t, 1);
    }
  }

  lemma RootIsLeastKey(s: seq<Node>, x: int)
    requires Ordered(s) && s != [] && x in Keys(s)
    ensures Key(s, 1) <= x
  {
    var i :| 0 <= i < |s| && Keys(s)[i] == x;
    RootIsLeast(s, i + 1);
  }

  /** A drain that stays in order returns the keys in order, equal keys included. */
  lemma {:induction false} OrderedDrain(s: seq<Node>)
    requires StaysOrdered(s)
    ensures NonDescending(Drain(s))
    decreases |s|
  {
    if s != [] {
      hide Pop, Ordered, Keys;
      var rest := Drain(Pop(s));
      OrderedDrain(Pop(s));
      DrainKeepsKeys(Pop(s));
      PopKeepsKeys(s);
      forall j | 0 <= j < |rest| ensures Key(s, 1) <= rest[j] {
        StillHeld(rest, Keys(Pop(s)), Keys(s), Key(s, 1), j);
        RootIsLeastKey(s, rest[j]);
      }
    }
  }

  lemma StillHeld(rest: seq<int>, keys: seq<int>, all: seq<int>, x: int, j: nat)
    requires multiset(rest) == multiset(keys) && multiset(all) == multiset([x] + keys) && j < |rest|
    ensures rest[j] in all
  {
    assert rest[j] in multiset(rest);
    assert rest[j] in keys && rest[j] in [x] + keys;
    assert rest[j] in multiset([x] + keys);
  }

  /**
   Push any keys and pop as many: none is lost or invented.  If they fit in an int and no pop meets a
   tie, they come out in order.
   */
  lemma PushThenDrainAll(nodes: seq<Node>)
    ensures var s := Pushes(nodes);
            && multiset(Drain(s)) == multiset(Keys(nodes))
            && (InRange(nodes) && NoPopMeetsTie(s) ==> NonDescending(Drain(s)))
  {
    hide Pushes, Drain, Keys, Ordered, InRange, NoPopMeetsTie, StaysOrdered;
    var s := Pushes(nodes);
    PushesOrdered(nodes);
    DrainKeepsKeys(s);
    SameNodesSameKeys(s, nodes);
    if InRange(nodes) && NoPopMeetsTie(s) {
      NodesInRange(nodes, s);
      StaysOrderedIff(s);
      OrderedDrain(s);
    }
  }

  lemma {:induction false} PushesOrdered(nodes: seq<Node>)
    ensures Ordered(Pushes(nodes)) && multiset(Pushes(nodes)) == multiset(nodes)
  {
    if nodes != [] {
      hide Push, Ordered;
      var init, last := nodes[..|nodes| - 1], nodes[|nodes| - 1];
      PushesOrdered(init);
      PushKeepsOrder(Pushes(init), last);
      PushAddsTheNode(Pushes(init), last);
      assert nodes == init + [last];
    }
  }

  ghost predicate HasKey(s: seq<Node>, x: int) {
    exists n :: n in s && n.data == x
  }

  lemma PopSplitsKeys(s: seq<Node>, x: int)
    requires s != []
    ensures HasKey(s, x) <==> x == Key(s, 1) || HasKey(Pop(s), x)
  {
    PopRemovesTheRoot(s);
    if n :| n in s && n.data == x {
      assert n in multiset(Pop(s)) + multiset{s[0]};
      assert n == s[0] || n in Pop(s);
    }
    if n :| n in Pop(s) && n.data == x {
      assert n in multiset(s);
    }
    assert s[0] in s;
  }

  lemma RootIsBelow(s: seq<Node>, x: int)
    requires Ordered(s) && Distinct(s) && s != [] && HasKey(Pop(s), x)
    ensures Key(s, 1) < x
  {
    var n :| n in Pop(s) && n.data == x;
    PopRemovesTheRoot(s);
    assert n in multiset(s) && n in s;
    DistinctByNodes(s, Pop(s), s[0]);
    var i :| 0 <= i < |s| && s[i] == n;
    RootIsLeast(s, i + 1);
    assert i != 0;
  }

  lemma DrainHasKeys(s: seq<Node>)
    requires s != [] && forall x :: x in Drain(Pop(s)) <==> HasKey(Pop(s), x)
    ensures forall x :: x in Drain(s) <==> HasKey(s, x)
  {
    hide Pop, HasKey;
    forall x ensures x in Drain(s) <==> HasKey(s, x) {
      PopSplitsKeys(s, x);
    }
  }

  lemma RestIsAbove(s: seq<Node>)
    requires Ordered(s) && Distinct(s) && s != [] && forall x :: x in Drain(Pop(s)) <==> HasKey(Pop(s), x)
    ensures forall j :: 0 <= j < |Drain(Pop(s))| ==> Key(s, 1) < Drain(Pop(s))[j]
  {
    hide Pop, HasKey, Ordered, Distinct, Drain;
    forall j | 0 <= j < |Drain(Pop(s))| ensures Key(s, 1) < Drain(Pop(s))[j] {
      var x := Drain(Pop(s))[j];
      assert x in Drain(Pop(s));
      RootIsBelow(s, x);
    }
  }

  lemma AscendingCons(x: int, s: seq<int>)
    requires Ascending(s) && forall j :: 0 <= j < |s| ==> x < s[j]
    ensures Ascending([x] + s)
  {
  }

  lemma {:induction false} DrainAscends(s: seq<Node>)
    requires Ordered(s) && Distinct(s) && InRange(s)
    ensures Ascending(Drain(s))
    ensures forall x :: x in Drain(s) <==> HasKey(s, x)
    decreases |s|
  {
    if s != [] {
      hide Pop, Ordered, Distinct, InRange, HasKey, Ascending;
      PopKeepsOrder(s);
      DrainAscends(Pop(s));
      DrainHasKeys(s);
      RestIsAbove(s);
      AscendingCons(Key(s, 1), Drain(Pop(s)));
    }
  }

  /** Push distinct int-range keys, then pop them all: they come out in ascending order, none missing. */
  lemma PushThenDrain(nodes: seq<Node>)
    requires Distinct(nodes) && InRange(nodes)
    ensures var keys := Drain(Pushes(nodes));
            Ascending(keys) && |keys| == |nodes| && forall x :: x in keys <==> HasKey(nodes, x)
  {
    var s := Pushes(nodes);
    PushesOrdered(nodes);
    forall n ensures n in s <==> n in nodes {
      assert n in multiset(s) <==> n in multiset(nodes);
    }
    assert forall x :: HasKey(s, x) <==> HasKey(nodes, x);
    forall j | 0 <= j < |s| ensures -0x8000_0000 <= s[j].data <= INT_MAX {
      assert s[j] in nodes;
    }
    forall i, j | 0 <= i < j < |s| ensures s[i].data != s[j].data {
      if s[i].data == s[j].data {
        assert s[i] in nodes && s[j] in nodes;
        TwiceIn(s, i, j);
        OnceIn(nodes, s[i]);
      }
    }
    DrainAscends(s);
  }
}
