// The AVL tree as a value: order, balance, stored heights, rotations, and how
// many nodes a tree of a given height must hold.

module AvlTree {
  /** Keys under the map's comparison. Any countable total order embeds in the
      real numbers, so this stands for every key type and comparison. */
  type Key = real
  type Val(==, !new)
  type Entry = (Key, Val)

  datatype Tree = Leaf | Node(left: Tree, key: Key, val: Val, height: nat, right: Tree)

  /** The stored height, 0 for no node. */
  function H(t: Tree): nat { if t.Leaf? then 0 else t.height }

  function Max(a: nat, b: nat): nat { if a < b then b else a }

  function Size(t: Tree): nat { if t.Leaf? then 0 else Size(t.left) + 1 + Size(t.right) }

  /** The in-order walk. */
  function Walk(t: Tree): seq<Entry> { if t.Leaf? then [] else Walk(t.left) + [(t.key, t.val)] + Walk(t.right) }

  ghost predicate Sorted(w: seq<Entry>) { forall i, j :: 0 <= i < j < |w| ==> w[i].0 < w[j].0 }

  /** Every stored height is right and no two siblings differ by more than one. */
  predicate Avl(t: Tree) {
    t.Node? ==>
      && t.height == Max(H(t.left), H(t.right)) + 1
      && H(t.left) <= H(t.right) + 1 && H(t.right) <= H(t.left) + 1
      && Avl(t.left) && Avl(t.right)
  }

  // ---------------------------------------------------------------------
  // Rebalancing one node
  // ---------------------------------------------------------------------

  /** A node over two subtrees; its height is stored in one byte. */
  function Made(left: Tree, key: Key, val: Val, right: Tree): Tree {
    Node(left, key, val, (Max(H(left), H(right)) + 1) % 256, right)
  }

  function Balance(t: Tree): int { if t.Leaf? then 0 else H(t.right) - H(t.left) }

  function RotateLeft(left: Tree, key: Key, val: Val, right: Tree): Tree
    requires right.Node?
  {
    Made(Made(left, key, val, right.left), right.key, right.val, right.right)
  }

  function RotateRight(left: Tree, key: Key, val: Val, right: Tree): Tree
    requires left.Node?
  {
    Made(left.left, left.key, left.val, Made(left.right, key, val, right))
  }

  /** The right child's left child comes up. */
  function RotateRightLeft(left: Tree, key: Key, val: Val, right: Tree): Tree
    requires right.Node? && right.left.Node?
  {
    var m := right.left;
    Made(Made(left, key, val, m.left), m.key, m.val, Made(m.right, right.key, right.val, right.right))
  }

  function RotateLeftRight(left: Tree, key: Key, val: Val, right: Tree): Tree
    requires left.Node? && left.right.Node?
  {
    var m := left.right;
    Made(Made(left.left, left.key, left.val, m.left), m.key, m.val, Made(m.right, key, val, right))
  }

  /** The node's new subtree root, and whether a rotation changed it. */
  function CheckBalance(left: Tree, key: Key, val: Val, right: Tree): (Tree, bool) {
    var balance := H(right) - H(left);
    if balance > 1 && right.Node? then
      if Balance(right) >= 0 || right.left.Leaf? then (RotateLeft(left, key, val, right), true)
      else (RotateRightLeft(left, key, val, right), true)
    else if balance < -1 && left.Node? then
      if Balance(left) <= 0 || left.right.Leaf? then (RotateRight(left, key, val, right), true)
      else (RotateLeftRight(left, key, val, right), true)
    else (Made(left, key, val, right), false)
  }

  lemma {:induction false} MadeWalk(left: Tree, key: Key, val: Val, right: Tree)
    ensures Walk(Made(left, key, val, right)) == Walk(left) + [(key, val)] + Walk(right)
  {
  }

  lemma {:induction false} RotateLeftWalk(left: Tree, key: Key, val: Val, right: Tree)
    requires right.Node?
    ensures Walk(RotateLeft(left, key, val, right)) == Walk(left) + [(key, val)] + Walk(right)
  {
    hide Made;
    MadeWalk(left, key, val, right.left);
    MadeWalk(Made(left, key, val, right.left), right.key, right.val, right.right);
  }

  lemma {:induction false} RotateRightWalk(left: Tree, key: Key, val: Val, right: Tree)
    requires left.Node?
    ensures Walk(RotateRight(left, key, val, right)) == Walk(left) + [(key, val)] + Walk(right)
  {
    hide Made;
    MadeWalk(left.right, key, val, right);
    MadeWalk(left.left, left.key, left.val, Made(left.right, key, val, right));
  }

  lemma {:induction false} RotateRightLeftWalk(left: Tree, key: Key, val: Val, right: Tree)
    requires right.Node? && right.left.Node?
    ensures Walk(RotateRightLeft(left, key, val, right)) == Walk(left) + [(key, val)] + Walk(right)
  {
    hide Made, Walk;
    var m := right.left;
    var a, c := Made(left, key, val, m.left), Made(m.right, right.key, right.val, right.right);
    MadeWalk(left, key, val, m.left);
    MadeWalk(m.right, right.key, right.val, right.right);
    MadeWalk(a, m.key, m.val, c);
    WalkNode(right);
    WalkNode(m);
  }

  lemma {:induction false} RotateLeftRightWalk(left: Tree, key: Key, val: Val, right: Tree)
    requires left.Node? && left.right.Node?
    ensures Walk(RotateLeftRight(left, key, val, right)) == Walk(left) + [(key, val)] + Walk(right)
  {
    hide Made, Walk;
    var m := left.right;
    var a, c := Made(left.left, left.key, left.val, m.left), Made(m.right, key, val, right);
    MadeWalk(left.left, left.key, left.val, m.left);
    MadeWalk(m.right, key, val, right);
    MadeWalk(a, m.key, m.val, c);
    WalkNode(left);
    WalkNode(m);
  }

  lemma {:induction false} WalkNode(t: Tree)
    requires t.Node?
    ensures Walk(t) == Walk(t.left) + [(t.key, t.val)] + Walk(t.right)
  {
  }

  /** A rotation moves no entry. */
  lemma {:induction false} CheckBalanceWalk(left: Tree, key: Key, val: Val, right: Tree)
    ensures Walk(CheckBalance(left, key, val, right).0) == Walk(left) + [(key, val)] + Walk(right)
  {
    hide Walk, Made, RotateLeft, RotateRight, RotateLeftRight, RotateRightLeft;
    MadeWalk(left, key, val, right);
    if right.Node? {
      RotateLeftWalk(left, key, val, right);
      if right.left.Node? { RotateRightLeftWalk(left, key, val, right); }
    }
    if left.Node? {
      RotateRightWalk(left, key, val, right);
      if left.right.Node? { RotateLeftRightWalk(left, key, val, right); }
    }
  }

  lemma {:induction false} MadeAvl(left: Tree, key: Key, val: Val, right: Tree)
    requires Avl(left) && Avl(right) && H(left) <= H(right) + 1 && H(right) <= H(left) + 1 && H(left) <= 250 && H(right) <= 250
    ensures Avl(Made(left, key, val, right)) && H(Made(left, key, val, right)) == Max(H(left), H(right)) + 1
  {
    var h := Max(H(left), H(right)) + 1;
    assert h % 256 == h;
  }

  lemma {:induction false} DeeperRight(left: Tree, key: Key, val: Val, right: Tree)
    requires Avl(left) && Avl(right) && H(right) == H(left) + 2 && H(right) <= 200
    ensures var t := CheckBalance(left, key, val, right).0;
      Avl(t) && t.Node? && (H(t) == H(right) || (H(t) == H(right) + 1 && Balance(right) == 0))
  {
    hide Made;
    assert right.Node? && Avl(right.left) && Avl(right.right);
    if Balance(right) >= 0 || right.left.Leaf? {
      MadeAvl(left, key, val, right.left);
      MadeAvl(Made(left, key, val, right.left), right.key, right.val, right.right);
      assert Made(Made(left, key, val, right.left), right.key, right.val, right.right).Node? by { MadeIsNode(Made(left, key, val, right.left), right.key, right.val, right.right); }
    } else {
      var m := right.left;
      var a, c := Made(left, key, val, m.left), Made(m.right, right.key, right.val, right.right);
      assert Avl(m.left) && Avl(m.right);
      MadeAvl(left, key, val, m.left);
      MadeAvl(m.right, right.key, right.val, right.right);
      MadeAvl(a, m.key, m.val, c);
      MadeIsNode(a, m.key, m.val, c);
    }
  }

  lemma {:induction false} MadeIsNode(left: Tree, key: Key, val: Val, right: Tree)
    ensures Made(left, key, val, right).Node?
  {
  }

  lemma {:induction false} DeeperLeft(left: Tree, key: Key, val: Val, right: Tree)
    requires Avl(left) && Avl(right) && H(left) == H(right) + 2 && H(left) <= 200
    ensures var t := CheckBalance(left, key, val, right).0;
      Avl(t) && t.Node? && (H(t) == H(left) || (H(t) == H(left) + 1 && Balance(left) == 0))
  {
    hide Made;
    assert left.Node? && Avl(left.left) && Avl(left.right);
    if Balance(left) <= 0 || left.right.Leaf? {
      MadeAvl(left.right, key, val, right);
      MadeAvl(left.left, left.key, left.val, Made(left.right, key, val, right));
      MadeIsNode(left.left, left.key, left.val, Made(left.right, key, val, right));
    } else {
      var m := left.right;
      var a, c := Made(left.left, left.key, left.val, m.left), Made(m.right, key, val, right);
      assert Avl(m.left) && Avl(m.right);
      MadeAvl(left.left, left.key, left.val, m.left);
      MadeAvl(m.right, key, val, right);
      MadeAvl(a, m.key, m.val, c);
      MadeIsNode(a, m.key, m.val, c);
    }
  }

  /** Between subtrees whose heights differ by two at most, one rotation gives a
      balanced subtree. It is lower than the deeper side alone would make it,
      unless that side's own root was level. */
  lemma {:induction false} CheckBalanceAvl(left: Tree, key: Key, val: Val, right: Tree)
    requires Avl(left) && Avl(right) && H(left) <= H(right) + 2 && H(right) <= H(left) + 2 && H(left) <= 200 && H(right) <= 200
    ensures var (t, rotated) := CheckBalance(left, key, val, right);
      var tall := Max(H(left), H(right)) + 1;
      && Avl(t) && t.Node? && (H(t) == tall || (rotated && H(t) == tall - 1))
      && (rotated <==> H(left) == H(right) + 2 || H(right) == H(left) + 2)
      && (!rotated ==> t == Node(left, key, val, tall, right))
      && (H(left) == H(right) + 2 && Balance(left) != 0 ==> H(t) == tall - 1)
      && (H(right) == H(left) + 2 && Balance(right) != 0 ==> H(t) == tall - 1)
  {
    hide RotateLeft, RotateRight, RotateLeftRight, RotateRightLeft, Avl;
    if H(right) == H(left) + 2 { DeeperRight(left, key, val, right); }
    else if H(left) == H(right) + 2 { DeeperLeft(left, key, val, right); }
    else { MadeAvl(left, key, val, right); }
  }

  // ---------------------------------------------------------------------
  // Height and size
  // ---------------------------------------------------------------------

  function Fib(n: nat): nat { if n < 2 then n else Fib(n - 1) + Fib(n - 2) }

  /** A tree of h levels holds at least Fib(h + 2) - 1 nodes. */
  lemma {:induction false} SizeAtLeast(t: Tree)
    requires Avl(t)
    ensures Size(t) + 1 >= Fib(H(t) + 2)
  {
    hide Fib;
    if t.Leaf? {
      FibStart();
    } else {
      SizeAtLeast(t.left);
      SizeAtLeast(t.right);
      var a, b := Max(H(t.left), H(t.right)), if H(t.left) < H(t.right) then H(t.left) else H(t.right);
      FibGrows(b + 2, a + 1);
      FibSum(a + 3);
    }
  }

  lemma {:induction false} FibStart()
    ensures Fib(1) == 1 && Fib(2) == 1
  {
  }

  lemma {:induction false} FibSum(n: nat)
    requires n >= 2
    ensures Fib(n) == Fib(n - 1) + Fib(n - 2)
  {
  }

  lemma {:induction false} FibGrows(m: nat, n: nat)
    ensures m >= n ==> Fib(m) >= Fib(n)
  {
    if m > n {
      FibGrows(m - 1, n);
    }
  }

  /** The bound is exact: each height has a tree that small. */
  function Thin(h: nat, k: Key, v: Val): Tree {
    if h == 0 then Leaf else if h == 1 then Node(Leaf, k, v, 1, Leaf)
    else Node(Thin(h - 1, k, v), k, v, h, Thin(h - 2, k, v))
  }

  lemma {:induction false} FibNext(h: nat)
    ensures Fib(h + 2) == Fib(h + 1) + Fib(h)
  {
  }

  lemma {:induction false} ThinIsLeast(h: nat, k: Key, v: Val)
    ensures Avl(Thin(h, k, v)) && H(Thin(h, k, v)) == h && Size(Thin(h, k, v)) + 1 == Fib(h + 2)
  {
    hide Fib;
    if h > 1 {
      ThinIsLeast(h - 1, k, v);
      ThinIsLeast(h - 2, k, v);
      FibNext(h);
      var t := Thin(h, k, v);
      assert t.left == Thin(h - 1, k, v) && t.right == Thin(h - 2, k, v);
      assert Size(t) == Size(t.left) + 1 + Size(t.right);
    } else {
      FibStart();
      FibSum(3);
    }
  }

  const WORD: nat := 0x1_0000_0000_0000_0000
  const MAX_TREE_HEIGHT: nat := 128

  lemma {:induction false} FibStep(n: nat, a: nat, b: nat)
    requires Fib(n) == a && Fib(n + 1) == b
    ensures Fib(n + 10) == 34 * a + 55 * b && Fib(n + 11) == 55 * a + 89 * b
  {
    assert Fib(n + 4) == 2 * a + 3 * b && Fib(n + 5) == 3 * a + 5 * b;
    assert Fib(n + 7) == 8 * a + 13 * b && Fib(n + 8) == 13 * a + 21 * b;
  }

  lemma {:induction false} FibOf94()
    ensures Fib(94) == 19740274219868223167
  {
    assert Fib(4) == 3 && Fib(5) == 5;
    hide Fib;
    FibStep(4, 3, 5);
    FibStep(14, 377, 610);
    FibStep(24, 46368, 75025);
    FibStep(34, 5702887, 9227465);
    FibStep(44, 701408733, 1134903170);
    FibStep(54, 86267571272, 139583862445);
    FibStep(64, 10610209857723, 17167680177565);
    FibStep(74, 1304969544928657, 2111485077978050);
    FibStep(84, 160500643816367088, 259695496911122585);
  }

  /** A tree of fewer than 2^64 nodes has at most 91 levels, so a path of 128
      entries always has room and a height always fits its byte. */
  lemma {:induction false} HeightBound(t: Tree)
    requires Avl(t) && Size(t) < WORD
    ensures H(t) <= 91 < MAX_TREE_HEIGHT
  {
    hide Fib;
    SizeAtLeast(t);
    FibOf94();
    FibGrows(H(t) + 2, 94);
  }
}
