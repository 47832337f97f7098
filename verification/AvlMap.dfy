// The AVL map's operations as the source runs them: loops over an explicit
// path, stopping early, against the recursive insert and delete.

module AvlPath {
  import opened AvlTree

  /** A node on the way down, with the child the walk took missing. */
  datatype Frame =
    | WentLeft(key: Key, val: Val, height: nat, right: Tree)
    | WentRight(left: Tree, key: Key, val: Val, height: nat)

  /** The frames from the root down; the last is the nearest parent. */
  type Path = seq<Frame>

  function Fill(f: Frame, t: Tree): Tree {
    match f
    case WentLeft(k, v, h, r) => Node(t, k, v, h, r)
    case WentRight(l, k, v, h) => Node(l, k, v, h, t)
  }

  /** The tree with t in the place the path leads to. */
  function Plug(path: Path, t: Tree): Tree {
    if path == [] then t else Plug(path[..|path| - 1], Fill(path[|path| - 1], t))
  }

  function Before(path: Path): seq<Entry> {
    if path == [] then []
    else
      var f := path[|path| - 1];
      Before(path[..|path| - 1]) + (if f.WentLeft? then [] else Walk(f.left) + [(f.key, f.val)])
  }

  function After(path: Path): seq<Entry> {
    if path == [] then []
    else
      var f := path[|path| - 1];
      (if f.WentLeft? then [(f.key, f.val)] + Walk(f.right) else []) + After(path[..|path| - 1])
  }

  lemma Regroup(a: seq<Entry>, l: seq<Entry>, m: seq<Entry>, r: seq<Entry>, b: seq<Entry>)
    ensures (a + l) + m + (r + b) == a + (l + m + r) + b
  {
  }

  /** What one frame puts before and behind its subtree. */
  function FrameBefore(f: Frame): seq<Entry> { if f.WentLeft? then [] else Walk(f.left) + [(f.key, f.val)] }
  function FrameAfter(f: Frame): seq<Entry> { if f.WentLeft? then [(f.key, f.val)] + Walk(f.right) else [] }

  lemma {:induction false} PathStep(path: Path, t: Tree)
    requires path != []
    ensures var n := |path| - 1;
      && Plug(path, t) == Plug(path[..n], Fill(path[n], t))
      && Before(path) == Before(path[..n]) + FrameBefore(path[n]) && After(path) == FrameAfter(path[n]) + After(path[..n])
  {
    hide Walk;
  }

  lemma {:induction false} PathNone(t: Tree)
    ensures Plug([], t) == t && Before([]) + Walk(t) + After([]) == Walk(t)
  {
    hide Walk;
  }

  lemma {:induction false} PlugWalk(path: Path, t: Tree)
    ensures Walk(Plug(path, t)) == Before(path) + Walk(t) + After(path)
    decreases |path|
  {
    hide Walk, Plug, Before, After, FrameBefore, FrameAfter;
    if path == [] {
      PathNone(t);
    } else {
      var n := |path| - 1;
      PlugWalk(path[..n], Fill(path[n], t));
      PathStep(path, t);
      FrameWalk(path[n], t);
      Regroup(Before(path[..n]), FrameBefore(path[n]), Walk(t), FrameAfter(path[n]), After(path[..n]));
    }
  }

  lemma {:induction false} FrameWalk(f: Frame, t: Tree)
    ensures Walk(Fill(f, t)) == FrameBefore(f) + Walk(t) + FrameAfter(f)
  {
    FillWalk(f, t);
    hide Walk;
  }

  lemma {:induction false} FillWalk(f: Frame, t: Tree)
    ensures Walk(Fill(f, t)) == if f.WentLeft? then Walk(t) + [(f.key, f.val)] + Walk(f.right) else Walk(f.left) + [(f.key, f.val)] + Walk(t)
  {
  }

  function Sibling(f: Frame): Tree { if f.WentLeft? then f.right else f.left }

  /** A subtree of height h in the place makes the whole tree an AVL tree. */
  predicate Context(path: Path, h: nat) {
    path != [] ==>
      var f := path[|path| - 1];
      && Avl(Sibling(f)) && H(Sibling(f)) <= h + 1 && h <= H(Sibling(f)) + 1
      && f.height == Max(h, H(Sibling(f))) + 1
      && Context(path[..|path| - 1], f.height)
  }

  lemma {:induction false} PlugAvl(path: Path, t: Tree)
    ensures Avl(Plug(path, t)) <==> Avl(t) && Context(path, H(t))
    decreases |path|
  {
    if path != [] {
      PlugAvl(path[..|path| - 1], Fill(path[|path| - 1], t));
    }
  }

  /** A path is no longer than its tree is tall, and every place on it is lower. */
  lemma {:induction false} ContextHeight(path: Path, t: Tree)
    requires Context(path, H(t))
    ensures H(t) + |path| <= H(Plug(path, t))
    decreases |path|
  {
    if path != [] { ContextHeight(path[..|path| - 1], Fill(path[|path| - 1], t)); }
  }

  /** Rebalances the parent of t. */
  function Rebalanced(f: Frame, t: Tree): (Tree, bool) {
    match f
    case WentLeft(k, v, _, r) => CheckBalance(t, k, v, r)
    case WentRight(l, k, v, _) => CheckBalance(l, k, v, t)
  }

  /** Rebalances every node of the path, up to the root. */
  function RebuildAll(path: Path, t: Tree): Tree
    decreases |path|
  {
    if path == [] then t else RebuildAll(path[..|path| - 1], Rebalanced(path[|path| - 1], t).0)
  }

  /** Where the subtree's height is what it was, nothing above it changes. */
  lemma {:induction false} StopEarly(path: Path, t: Tree)
    requires Avl(t) && Context(path, H(t)) && H(Plug(path, t)) <= 150
    ensures RebuildAll(path, t) == Plug(path, t)
    decreases |path|
  {
    if path != [] {
      var f := path[|path| - 1];
      ContextHeight(path, t);
      ContextHeight(path[..|path| - 1], Fill(f, t));
      RebalancedAvl(f, t, H(t));
      StopEarly(path[..|path| - 1], Fill(f, t));
    }
  }

  /** Rebalancing over a subtree that changed its height by one level. h is the
      height the place had. */
  lemma {:induction false} RebalancedAvl(f: Frame, t: Tree, h: nat)
    requires Avl(t) && Avl(Sibling(f)) && H(Sibling(f)) <= h + 1 && h <= H(Sibling(f)) + 1
    requires f.height == Max(h, H(Sibling(f))) + 1 && H(t) <= h + 1 && h <= H(t) + 1 && h <= 150
    ensures var (u, rotated) := Rebalanced(f, t);
      && Avl(u) && u.Node?
      && (H(t) == h ==> u == Fill(f, t) && !rotated)
      && (H(t) == h + 1 ==> H(u) == f.height || (H(u) == f.height + 1 && !rotated && Balance(u) != 0) || (rotated && Balance(t) == 0))
      && (H(t) + 1 == h ==> H(u) == f.height || H(u) + 1 == f.height)
      && (H(t) == h + 1 && rotated ==> H(t) >= 2)
  {
    hide CheckBalance, Avl;
    match f
    case WentLeft(k, v, _, r) => CheckBalanceAvl(t, k, v, r);
    case WentRight(l, k, v, _) => CheckBalanceAvl(l, k, v, t);
  }

  lemma {:induction false} RebalancedWalk(f: Frame, t: Tree)
    ensures Walk(Rebalanced(f, t).0) == Walk(Fill(f, t))
  {
    hide CheckBalance, Walk;
    FillWalk(f, t);
    match f
    case WentLeft(k, v, _, r) => CheckBalanceWalk(t, k, v, r);
    case WentRight(l, k, v, _) => CheckBalanceWalk(l, k, v, t);
  }
}

module AvlMap {
  import opened AvlTree
  import opened AvlPath

  // ---------------------------------------------------------------------
  // The recursive map
  // ---------------------------------------------------------------------

  function AvlInsert(t: Tree, k: Key, v: Val): Tree {
    if t.Leaf? then Node(Leaf, k, v, 1, Leaf)
    else if k == t.key then t.(val := v)
    else if k < t.key then CheckBalance(AvlInsert(t.left, k, v), t.key, t.val, t.right).0
    else CheckBalance(t.left, t.key, t.val, AvlInsert(t.right, k, v)).0
  }

  /** The tree without its smallest node, and that node's entry. */
  function DetachMin(t: Tree): (Tree, Entry)
    requires t.Node?
  {
    if t.left.Leaf? then (t.right, (t.key, t.val))
    else var (l, e) := DetachMin(t.left); (CheckBalance(l, t.key, t.val, t.right).0, e)
  }

  function DetachMax(t: Tree): (Tree, Entry)
    requires t.Node?
  {
    if t.right.Leaf? then (t.left, (t.key, t.val))
    else var (r, e) := DetachMax(t.right); (CheckBalance(t.left, t.key, t.val, r).0, e)
  }

  /** What takes a removed node's place: a neighbour from its deeper side, the
      right one on ties. */
  function Joined(left: Tree, right: Tree): Tree {
    if left.Leaf? then right
    else if right.Leaf? then left
    else if H(right) >= H(left) then var (r, e) := DetachMin(right); Made(left, e.0, e.1, r)
    else var (l, e) := DetachMax(left); Made(l, e.0, e.1, right)
  }

  function AvlDelete(t: Tree, k: Key): Tree {
    if t.Leaf? then Leaf
    else if k == t.key then Joined(t.left, t.right)
    else if k < t.key then CheckBalance(AvlDelete(t.left, k), t.key, t.val, t.right).0
    else CheckBalance(t.left, t.key, t.val, AvlDelete(t.right, k)).0
  }

  // ---------------------------------------------------------------------
  // The recursive map over paths
  // ---------------------------------------------------------------------

  /** The path the descent towards k takes. */
  predicate Towards(path: Path, k: Key) {
    forall i :: 0 <= i < |path| ==> if path[i].WentLeft? then k < path[i].key else k > path[i].key
  }

  lemma {:induction false} InsertOverPath(path: Path, t: Tree, k: Key, v: Val)
    requires Towards(path, k)
    ensures AvlInsert(Plug(path, t), k, v) == RebuildAll(path, AvlInsert(t, k, v))
    decreases |path|
  {
    hide CheckBalance;
    if path != [] {
      var n := |path| - 1;
      InsertOverPath(path[..n], Fill(path[n], t), k, v);
    }
  }

  lemma {:induction false} DeleteOverPath(path: Path, t: Tree, k: Key)
    requires Towards(path, k)
    ensures AvlDelete(Plug(path, t), k) == RebuildAll(path, AvlDelete(t, k))
    decreases |path|
  {
    hide CheckBalance;
    if path != [] {
      var n := |path| - 1;
      DeleteOverPath(path[..n], Fill(path[n], t), k);
    }
  }

  lemma {:induction false} DetachMinThrough(path: Path, t: Tree)
    requires t.Node? && forall i :: 0 <= i < |path| ==> path[i].WentLeft?
    ensures Plug(path, t).Node? && DetachMin(Plug(path, t)) == (RebuildAll(path, DetachMin(t).0), DetachMin(t).1)
    decreases |path|
  {
    hide CheckBalance;
    if path != [] {
      var n := |path| - 1;
      DetachMinThrough(path[..n], Fill(path[n], t));
    }
  }

  lemma {:induction false} DetachMaxThrough(path: Path, t: Tree)
    requires t.Node? && forall i :: 0 <= i < |path| ==> path[i].WentRight?
    ensures Plug(path, t).Node? && DetachMax(Plug(path, t)) == (RebuildAll(path, DetachMax(t).0), DetachMax(t).1)
    decreases |path|
  {
    hide CheckBalance;
    if path != [] {
      var n := |path| - 1;
      DetachMaxThrough(path[..n], Fill(path[n], t));
    }
  }

  // ---------------------------------------------------------------------
  // Balance and entries after a removal
  // ---------------------------------------------------------------------

  lemma {:induction false} DetachMinKeeps(t: Tree)
    requires Avl(t) && t.Node? && H(t) <= 150
    ensures var (u, e) := DetachMin(t); Avl(u) && (H(u) == H(t) || H(u) + 1 == H(t)) && Walk(t) == [e] + Walk(u)
  {
    hide CheckBalance;
    if t.left.Node? {
      DetachMinKeeps(t.left);
      var (l, e) := DetachMin(t.left);
      CheckBalanceAvl(l, t.key, t.val, t.right);
      CheckBalanceWalk(l, t.key, t.val, t.right);
    }
  }

  lemma {:induction false} DetachMaxKeeps(t: Tree)
    requires Avl(t) && t.Node? && H(t) <= 150
    ensures var (u, e) := DetachMax(t); Avl(u) && (H(u) == H(t) || H(u) + 1 == H(t)) && Walk(t) == Walk(u) + [e]
  {
    hide CheckBalance;
    if t.right.Node? {
      DetachMaxKeeps(t.right);
      var (r, e) := DetachMax(t.right);
      CheckBalanceAvl(t.left, t.key, t.val, r);
      CheckBalanceWalk(t.left, t.key, t.val, r);
    }
  }

  /** The replacement from the deeper side needs no rotation. */
  lemma {:induction false} JoinedKeeps(t: Tree)
    requires Avl(t) && t.Node? && H(t) <= 150
    ensures var u := Joined(t.left, t.right);
      Avl(u) && (H(u) == H(t) || H(u) + 1 == H(t)) && Walk(u) == Walk(t.left) + Walk(t.right)
  {
    hide CheckBalance, DetachMin, DetachMax, Made;
    if t.left.Node? && t.right.Node? {
      if H(t.right) >= H(t.left) {
        DetachMinKeeps(t.right);
        var (r, e) := DetachMin(t.right);
        MadeAvl(t.left, e.0, e.1, r);
        MadeWalk(t.left, e.0, e.1, r);
      } else {
        DetachMaxKeeps(t.left);
        var (l, e) := DetachMax(t.left);
        MadeAvl(l, e.0, e.1, t.right);
        MadeWalk(l, e.0, e.1, t.right);
      }
    }
  }
}
