/** avltree.py: the nodes and the tree, updated in place; each method computes what AvlTree says. */
module Avl {
  import opened AvlTree
  import opened Modular
  import opened Permute

  class Vertex {
    var key: int
    var height: int
    var left: Vertex?
    var right: Vertex?
    ghost var Repr: set<Vertex>

    ghost predicate Valid()
      reads this, Repr
      decreases Repr
    {
      && this in Repr
      && (left != null ==> left in Repr && left.Repr < Repr && this !in left.Repr && left.Valid())
      && (right != null ==> right in Repr && right.Repr < Repr && this !in right.Repr && right.Valid())
      && (left != null && right != null ==> left.Repr !! right.Repr)
    }

    /** The tree below this node, cached heights included. */
    ghost function Shape(): (t: Tree)
      requires Valid()
      reads this, Repr
      ensures t.Node? && t.height == height && t.key == key
      decreases Repr
    {
      Node(if left == null then Leaf else left.Shape(), key, height, if right == null then Leaf else right.Shape())
    }

    constructor (key: int, height: int)
      ensures Valid() && fresh(Repr) && Repr == {this}
      ensures this.key == key && this.height == height && left == null && right == null
      ensures Shape() == Node(Leaf, key, height, Leaf)
    {
      this.key, this.height := key, height;
      left, right := null, null;
      Repr := {this};
    }
  }

  ghost predicate Ok(n: Vertex?)
    reads n, if n != null then n.Repr else {}
  {
    n != null ==> n.Valid()
  }

  ghost function ShapeOf(n: Vertex?): Tree
    requires Ok(n)
    reads n, if n != null then n.Repr else {}
  {
    if n == null then Leaf else n.Shape()
  }

  ghost function ReprOf(n: Vertex?): set<Vertex>
    reads n
  {
    if n == null then {} else n.Repr
  }

  /** Avl.height */
  function HeightOf(n: Vertex?): int
    reads n
  {
    if n == null then 0 else n.height
  }

  /** `node.left` replaced; the caller has computed the new subtree. */
  method SetLeft(node: Vertex, l: Vertex?)
    requires Ok(l) && Ok(node.right) && node !in ReprOf(l) && node !in ReprOf(node.right)
    requires ReprOf(l) !! ReprOf(node.right)
    modifies node
    ensures node.Valid() && node.left == l && node.right == old(node.right) && node.key == old(node.key)
    ensures node.height == old(node.height)
    ensures node.Repr == {node} + ReprOf(l) + ReprOf(node.right)
    ensures node.Shape() == Node(ShapeOf(l), old(node.key), old(node.height), old(ShapeOf(node.right)))
  {
    node.left := l;
    node.Repr := {node} + ReprOf(l) + ReprOf(node.right);
  }

  method SetRight(node: Vertex, r: Vertex?)
    requires Ok(r) && Ok(node.left) && node !in ReprOf(r) && node !in ReprOf(node.left)
    requires ReprOf(r) !! ReprOf(node.left)
    modifies node
    ensures node.Valid() && node.right == r && node.left == old(node.left) && node.key == old(node.key)
    ensures node.height == old(node.height)
    ensures node.Repr == {node} + ReprOf(r) + ReprOf(node.left)
    ensures node.Shape() == Node(old(ShapeOf(node.left)), old(node.key), old(node.height), ShapeOf(r))
  {
    node.right := r;
    node.Repr := {node} + ReprOf(r) + ReprOf(node.left);
  }

  /** node.height = max(height(left), height(right)) + 1 */
  method FixHeight(node: Vertex)
    requires node.Valid()
    modifies node`height
    ensures node.Valid() && node.Shape() == old(Make(ShapeOf(node.left), node.key, ShapeOf(node.right)))
  {
    node.height := Max(HeightOf(node.left), HeightOf(node.right)) + 1;
  }

  /** What `Valid` says about the parts of a node. */
  lemma Parts(node: Vertex)
    requires node.Valid()
    ensures Ok(node.left) && Ok(node.right) && ReprOf(node.left) !! ReprOf(node.right)
    ensures node !in ReprOf(node.left) && node !in ReprOf(node.right)
    ensures ReprOf(node.left) + ReprOf(node.right) + {node} <= node.Repr
    ensures node.left != null ==> node.left in ReprOf(node.left)
    ensures node.right != null ==> node.right in ReprOf(node.right)
    ensures node.Shape() == Node(ShapeOf(node.left), node.key, node.height, ShapeOf(node.right))
  {
  }

  /** Avl.left_turn */
  method LeftTurnOf(node: Vertex) returns (x: Vertex)
    requires node.Valid() && node.right != null
    modifies node, node.right
    ensures x == old(node.right) && x.Valid() && x.Repr <= old(node.Repr)
    ensures x.Shape() == old(LeftTurn(node.Shape()))
  {
    hide Vertex.Valid, Vertex.Shape;
    x := node.right;
    Parts(node);
    Parts(x);
    SetRight(node, x.left);
    FixHeight(node);
    SetLeft(x, node);
    FixHeight(x);
  }

  /** Avl.right_turn */
  method RightTurnOf(node: Vertex) returns (x: Vertex)
    requires node.Valid() && node.left != null
    modifies node, node.left
    ensures x == old(node.left) && x.Valid() && x.Repr <= old(node.Repr)
    ensures x.Shape() == old(RightTurn(node.Shape()))
  {
    hide Vertex.Valid, Vertex.Shape;
    x := node.left;
    Parts(node);
    Parts(x);
    SetLeft(node, x.right);
    FixHeight(node);
    SetRight(x, node);
    FixHeight(x);
  }

  /** Avl.different */
  function DifferentOf(node: Vertex): int
    reads node, node.left, node.right
  {
    HeightOf(node.left) - HeightOf(node.right)
  }

  /** The first branch of Avl.balance: the left side is too high. */
  method LowerLeft(node: Vertex) returns (x: Vertex)
    requires node.Valid() && Cached(node.Shape()) && Different(node.Shape()) > 1
    modifies node.Repr
    ensures x.Valid() && x.Repr <= old(node.Repr) && x.Shape() == old(Balance(node.Shape()))
  {
    hide Vertex.Valid, Vertex.Shape;
    ghost var t := node.Shape();
    Parts(node);
    CachedIsTrue(t.right);
    Parts(node.left);
    CachedIsTrue(t.left.left);
    CachedIsTrue(t.left.right);
    if DifferentOf(node.left) < 0 {
      var l := LeftTurnOf(node.left);
      SetLeft(node, l);
    }
    x := RightTurnOf(node);
  }

  /** The second branch: the right side is too high. */
  method LowerRight(node: Vertex) returns (x: Vertex)
    requires node.Valid() && Cached(node.Shape()) && Different(node.Shape()) < -1
    modifies node.Repr
    ensures x.Valid() && x.Repr <= old(node.Repr) && x.Shape() == old(Balance(node.Shape()))
  {
    hide Vertex.Valid, Vertex.Shape;
    ghost var t := node.Shape();
    Parts(node);
    CachedIsTrue(t.left);
    Parts(node.right);
    CachedIsTrue(t.right.left);
    CachedIsTrue(t.right.right);
    if DifferentOf(node.right) > 0 {
      var r := RightTurnOf(node.right);
      SetRight(node, r);
    }
    x := LeftTurnOf(node);
  }

  /** Avl.balance */
  method BalanceOf(node: Vertex) returns (x: Vertex)
    requires node.Valid() && Cached(node.Shape())
    modifies node.Repr
    ensures x.Valid() && x.Repr <= old(node.Repr) && x.Shape() == old(Balance(node.Shape()))
  {
    hide Vertex.Valid, Vertex.Shape;
    Parts(node);
    if DifferentOf(node) > 1 {
      x := LowerLeft(node);
    } else if DifferentOf(node) < -1 {
      x := LowerRight(node);
    } else {
      x := node;
    }
  }

  /** Avl.put_item; `calls` counts its activations, this one included. */
  method PutItem(node: Vertex?, key: int) returns (m: Vertex, ghost calls: nat)
    requires Ok(node) && Cached(ShapeOf(node))
    modifies ReprOf(node)
    ensures m.Valid() && fresh(m.Repr - old(ReprOf(node)))
    ensures m.Shape() == old(Put(ShapeOf(node), key))
    ensures calls == old(Calls(ShapeOf(node), key))
    decreases ReprOf(node)
  {
    hide Vertex.Valid, Vertex.Shape, Balance, LeftTurn, RightTurn, Max, Height, Different;
    if node == null {
      m := new Vertex(key, 1);
      calls := 1;
      return;
    }
    Parts(node);
    calls := 1;
    if node.key > key {
      var l, below := PutItem(node.left, key);
      calls := 1 + below;
      SetLeft(node, l);
    } else if node.key < key {
      var r, below := PutItem(node.right, key);
      calls := 1 + below;
      SetRight(node, r);
    }
    FixHeight(node);
    m := BalanceOf(node);
  }

  lemma SamePut(t: Tree, key: int)
    requires Cached(t) && Balanced(t) && Ascending(Inorder(t))
    ensures key in Inorder(t) ==> AvlTree.Put(t, key) == t
  {
    hide Cached, Balanced, Ascending, Inorder, AvlTree.Put;
    if key in Inorder(t) {
      PutDuplicate(t, key);
    }
  }

  class Avl {
    var root: Vertex?

    ghost predicate Valid()
      reads this, root, ReprOf(root)
    {
      Ok(root) && Cached(ShapeOf(root)) && Balanced(ShapeOf(root)) && Ascending(Inorder(ShapeOf(root)))
    }

    /** The keys held, in order. */
    ghost function Keys(): seq<int>
      requires Valid()
      reads this, root, ReprOf(root)
    {
      Inorder(ShapeOf(root))
    }

    constructor ()
      ensures Valid() && Keys() == []
    {
      root := null;
    }

    /**
     Avl.put: the key is added in its place, the tree stays balanced, and a duplicate changes nothing;
     put_item is entered logarithmically often.
     */
    method Put(key: int) returns (ghost calls: nat)
      requires Valid()
      modifies this, ReprOf(root)
      ensures Valid() && fresh(ReprOf(root) - old(ReprOf(root)))
      ensures Keys() == Insert(old(Keys()), key)
      ensures Ascending(Keys()) && forall x :: x in Keys() <==> x in old(Keys()) || x == key
      ensures ShapeOf(root) == AvlTree.Put(old(ShapeOf(root)), key)
      ensures key in old(Keys()) ==> ShapeOf(root) == old(ShapeOf(root))
      ensures 1 <= calls && Pow2((calls - 1) / 2) <= |old(Keys())| + 1
    {
      hide Vertex.Valid, Vertex.Shape, Cached, Balanced, Ascending, Inorder, Insert, AvlTree.Put;
      ghost var t := ShapeOf(root);
      OnePut(t, key);
      SamePut(t, key);
      CallsAreLogarithmic(t, key);
      SizeIsLength(t);
      root, calls := PutItem(root, key);
    }
  }
}
