// The AVL map object and its in-order iterator.

module AvlMapObject {
  import opened Options
  import opened AvlTree
  import opened AvlPath
  import opened AvlMap
  import opened MapTypes

  // ---------------------------------------------------------------------
  // Entries around a key
  // ---------------------------------------------------------------------

  function Below(w: seq<Entry>, k: Key): seq<Entry> {
    if w == [] then [] else if w[0].0 < k then [w[0]] + Below(w[1..], k) else Below(w[1..], k)
  }

  function Above(w: seq<Entry>, k: Key): seq<Entry> {
    if w == [] then [] else if w[0].0 > k then [w[0]] + Above(w[1..], k) else Above(w[1..], k)
  }

  ghost predicate AllBelow(w: seq<Entry>, k: Key) { forall i :: 0 <= i < |w| ==> w[i].0 < k }
  ghost predicate AllAbove(w: seq<Entry>, k: Key) { forall i :: 0 <= i < |w| ==> w[i].0 > k }

  lemma {:induction false} BelowAll(w: seq<Entry>, k: Key)
    ensures AllBelow(w, k) ==> Below(w, k) == w && Above(w, k) == []
    ensures AllAbove(w, k) ==> Above(w, k) == w && Below(w, k) == []
  {
    if w != [] { BelowAll(w[1..], k); }
  }

  lemma ConcatHead(a: seq<Entry>, b: seq<Entry>)
    requires a != []
    ensures (a + b)[0] == a[0] && (a + b)[1..] == a[1..] + b
  {
  }

  lemma Assoc(a: seq<Entry>, b: seq<Entry>, c: seq<Entry>)
    ensures a + (b + c) == (a + b) + c
  {
  }

  /** The entry alone, if the condition lets it through. */
  function Only(e: Entry, b: bool): seq<Entry> { if b then [e] else [] }

  lemma {:induction false} BelowHead(w: seq<Entry>, k: Key)
    requires w != []
    ensures Below(w, k) == Only(w[0], w[0].0 < k) + Below(w[1..], k)
  {
  }

  lemma {:induction false} AboveHead(w: seq<Entry>, k: Key)
    requires w != []
    ensures Above(w, k) == Only(w[0], w[0].0 > k) + Above(w[1..], k)
  {
  }

  lemma {:induction false} NoneBeside(b: seq<Entry>, k: Key)
    ensures [] + b == b && Below([], k) + Below(b, k) == Below(b, k) && Above([], k) + Above(b, k) == Above(b, k)
  {
  }

  lemma {:induction false} BelowConcat(a: seq<Entry>, b: seq<Entry>, k: Key)
    ensures Below(a + b, k) == Below(a, k) + Below(b, k)
  {
    hide Below, Only;
    if a == [] { NoneBeside(b, k); }
    else {
      BelowConcat(a[1..], b, k);
      ConcatHead(a, b);
      BelowHead(a + b, k);
      BelowHead(a, k);
      Assoc(Only(a[0], a[0].0 < k), Below(a[1..], k), Below(b, k));
    }
  }

  lemma {:induction false} AboveConcat(a: seq<Entry>, b: seq<Entry>, k: Key)
    ensures Above(a + b, k) == Above(a, k) + Above(b, k)
  {
    hide Above, Only;
    if a == [] { NoneBeside(b, k); }
    else {
      AboveConcat(a[1..], b, k);
      ConcatHead(a, b);
      AboveHead(a + b, k);
      AboveHead(a, k);
      Assoc(Only(a[0], a[0].0 > k), Above(a[1..], k), Above(b, k));
    }
  }

  /** Around the place of k the entries split into the smaller and the larger. */
  lemma {:induction false} SidesSplit(a: seq<Entry>, m: seq<Entry>, b: seq<Entry>, k: Key)
    requires AllBelow(a, k) && AllAbove(b, k) && (m == [] || (|m| == 1 && m[0].0 == k))
    ensures Below(a + m + b, k) == a && Above(a + m + b, k) == b
  {
    BelowAll(a, k);
    BelowAll(b, k);
    BelowConcat(a + m, b, k);
    BelowConcat(a, m, k);
    AboveConcat(a + m, b, k);
    AboveConcat(a, m, k);
  }

  // ---------------------------------------------------------------------
  // Descent
  // ---------------------------------------------------------------------

  /** Nothing on the path's sides belongs where the path leads. */
  ghost predicate Aside(path: Path, k: Key) { AllBelow(Before(path), k) && AllAbove(After(path), k) }

  lemma {:induction false} SortedParts(a: seq<Entry>, l: seq<Entry>, e: Entry, r: seq<Entry>, b: seq<Entry>)
    requires Sorted(a + (l + [e] + r) + b)
    ensures AllBelow(l, e.0) && AllAbove(r, e.0)
  {
    var w := a + (l + [e] + r) + b;
    var n := |a| + |l|;
    assert w[n] == e;
    forall i | 0 <= i < |l| ensures l[i].0 < e.0 { assert w[|a| + i] == l[i]; }
    forall i | 0 <= i < |r| ensures r[i].0 > e.0 { assert w[n + 1 + i] == r[i]; }
  }

  lemma {:induction false} PathEnd(path: Path, f: Frame)
    ensures Before(path + [f]) == Before(path) + (if f.WentLeft? then [] else Walk(f.left) + [(f.key, f.val)])
    ensures After(path + [f]) == (if f.WentLeft? then [(f.key, f.val)] + Walk(f.right) else []) + After(path)
  {
    assert (path + [f])[..|path|] == path;
  }

  lemma {:induction false} AsideStep(path: Path, f: Frame, t: Tree, k: Key)
    requires Aside(path, k) && Sorted(Walk(Plug(path, t))) && t.Node? && Fill(f, if f.WentLeft? then t.left else t.right) == t
    requires if f.WentLeft? then k < t.key else k > t.key
    ensures Aside(path + [f], k)
  {
    hide Walk, Sorted, Before, After, Plug;
    PlugWalk(path, t);
    WalkNode(t);
    SortedParts(Before(path), Walk(t.left), (t.key, t.val), Walk(t.right), After(path));
    PathEnd(path, f);
  }

  lemma {:induction false} PlugPush(path: Path, f: Frame, t: Tree)
    ensures Plug(path + [f], t) == Plug(path, Fill(f, t))
  {
    assert (path + [f])[..|path|] == path;
  }

  /** Walks towards k and records the way in a path that never outgrows its
      fixed size. */
  method Descend(root: Tree, k: Key) returns (path: Path, t: Tree)
    requires Avl(root) && Sorted(Walk(root)) && Size(root) < WORD
    ensures Plug(path, t) == root && Towards(path, k) && Aside(path, k) && (t.Node? ==> t.key == k)
    ensures |path| < MAX_TREE_HEIGHT
  {
    hide Walk, Sorted, Avl, Plug;
    HeightBound(root);
    path, t := [], root;
    assert Plug(path, t) == root by { PlugNone(t); }
    while t.Node? && t.key != k
      invariant Plug(path, t) == root && Towards(path, k) && Aside(path, k)
      decreases t
    {
      var f := if k < t.key then WentLeft(t.key, t.val, t.height, t.right) else WentRight(t.left, t.key, t.val, t.height);
      var next := if k < t.key then t.left else t.right;
      AsideStep(path, f, t, k);
      PlugPush(path, f, next);
      path := path + [f];
      t := next;
    }
    PlugAvl(path, t);
    ContextHeight(path, t);
  }

  lemma {:induction false} PlugNone(t: Tree)
    ensures Plug([], t) == t
  {
  }

  // ---------------------------------------------------------------------
  // Rebalancing loops
  // ---------------------------------------------------------------------

  lemma {:induction false} RebuildStep(path: Path, t: Tree, n: nat)
    requires n < |path|
    ensures RebuildAll(path[..n + 1], t) == RebuildAll(path[..n], Rebalanced(path[n], t).0)
    ensures Context(path[..n + 1], H(t)) ==> Context(path[..n], path[n].height)
  {
    assert path[..n + 1][..n] == path[..n];
  }

  /** What a subtree that grew by one level looks like: a new node, or one that
      leans to the side that grew. */
  predicate Grown(t: Tree, h: nat) { Avl(t) && H(t) == h + 1 && (h == 0 || Balance(t) != 0) }

  /** What is below the place of height h on the path: heights stay small. */
  lemma {:induction false} FrameOf(path: Path, n: nat, h: nat)
    requires n < |path| && Context(path[..n + 1], h)
    ensures var f := path[n]; var s := Sibling(f);
      && Avl(s) && H(s) <= h + 1 && h <= H(s) + 1 && f.height == Max(h, H(s)) + 1 && Context(path[..n], f.height)
  {
    assert path[..n + 1][..n] == path[..n];
  }

  /** The highest place of a context bounds the lower ones. */
  lemma {:induction false} ContextLow(path: Path, h: nat, top: nat)
    requires Context(path, h) && (path != [] ==> path[0].height <= top) && (path == [] ==> h <= top)
    ensures h + |path| <= top
    decreases |path|
  {
    if path != [] {
      var n := |path| - 1;
      ContextLow(path[..n], path[n].height, top);
    }
  }

  /** After an insert: rebalance upwards until a rotation, or until a subtree has
      the height it had. */
  method RebalanceAfterInsert(path: Path, t0: Tree, ghost h0: nat) returns (root: Tree)
    requires Context(path, h0) && Grown(t0, h0) && (path != [] ==> path[0].height <= 100) && h0 <= 100
    ensures root == RebuildAll(path, t0) && Avl(root)
  {
    hide RebuildAll, Rebalanced, Context, Avl, Balance;
    var t := t0;
    var i := |path|;
    ghost var h := h0;
    assert path[..i] == path;
    var done := false;
    while i > 0 && !done
      invariant 0 <= i <= |path| && RebuildAll(path[..i], t) == RebuildAll(path, t0) && Context(path[..i], h)
      invariant h <= 100 && if done then Avl(t) && H(t) == h else Grown(t, h)
      decreases i, !done
    {
      FrameOf(path, i - 1, h);
      ContextLow(path[..i], h, 100);
      RebalancedAvl(path[i - 1], t, h);
      RebuildStep(path, t, i - 1);
      ContextLow(path[..i - 1], path[i - 1].height, 100);
      i := i - 1;
      var (u, rotated) := Rebalanced(path[i], t);
      t := u;
      h := path[i].height;
      done := rotated || H(u) == path[i].height;
    }
    root := Finish(path[..i], t, done, h);
  }

  /** The nodes above the last one touched stay as they are. */
  method Finish(path: Path, t: Tree, done: bool, ghost h: nat) returns (root: Tree)
    requires Context(path, h) && Avl(t) && (path != [] ==> path[0].height <= 100) && h <= 100
    requires path == [] || H(t) == h
    ensures root == RebuildAll(path, t) && Avl(root)
  {
    root := Plug(path, t);
    PlugAvl(path, t);
    if path != [] {
      PlugHeight(path, t);
      StopEarly(path, t);
    }
  }

  lemma {:induction false} PlugHeight(path: Path, t: Tree)
    requires path != []
    ensures Plug(path, t).Node? && H(Plug(path, t)) == path[0].height
    decreases |path|
  {
    var n := |path| - 1;
    if n > 0 { PlugHeight(path[..n], Fill(path[n], t)); }
  }

  /** After a delete: rebalance upwards until a subtree has the height it had. */
  method RebalanceAfterDelete(path: Path, t0: Tree, ghost h0: nat) returns (root: Tree)
    requires Context(path, h0) && Avl(t0) && (H(t0) == h0 || H(t0) + 1 == h0) && (path != [] ==> path[0].height <= 100) && h0 <= 100
    ensures root == RebuildAll(path, t0) && Avl(root)
  {
    hide RebuildAll, Rebalanced, Context, Avl, Balance;
    var t := t0;
    var i := |path|;
    ghost var h := h0;
    assert path[..i] == path;
    var done := false;
    while i > 0 && !done
      invariant 0 <= i <= |path| && RebuildAll(path[..i], t) == RebuildAll(path, t0) && Context(path[..i], h)
      invariant h <= 100 && Avl(t) && (H(t) == h || (!done && H(t) + 1 == h))
      decreases i, !done
    {
      FrameOf(path, i - 1, h);
      ContextLow(path[..i], h, 100);
      RebalancedAvl(path[i - 1], t, h);
      RebuildStep(path, t, i - 1);
      ContextLow(path[..i - 1], path[i - 1].height, 100);
      i := i - 1;
      var (u, _) := Rebalanced(path[i], t);
      t := u;
      h := path[i].height;
      done := H(u) == path[i].height;
    }
    root := Finish(path[..i], t, done, h);
  }

  // ---------------------------------------------------------------------
  // Detaching the smallest or the largest node
  // ---------------------------------------------------------------------

  /** Takes the extreme node out of a subtree and rebalances the whole way up,
      over a path of its own that never outgrows its fixed array. */
  method DetachExtreme(root: Tree, max: bool) returns (rest: Tree, e: Entry)
    requires root.Node? && Avl(root) && H(root) <= 91
    ensures (rest, e) == if max then DetachMax(root) else DetachMin(root)
  {
    hide Plug, RebuildAll, CheckBalance;
    var path: Path := [];
    var t := root;
    PlugNone(t);
    while if max then t.right.Node? else t.left.Node?
      invariant t.Node? && Plug(path, t) == root && Avl(t) && |path| + H(t) <= H(root)
      invariant forall i :: 0 <= i < |path| ==> if max then path[i].WentRight? else path[i].WentLeft?
      decreases t
    {
      var f := if max then WentRight(t.left, t.key, t.val, t.height) else WentLeft(t.key, t.val, t.height, t.right);
      var next := if max then t.right else t.left;
      PlugPush(path, f, next);
      assert |path| < MAX_TREE_HEIGHT;
      path := path + [f];
      t := next;
    }
    if max { DetachMaxThrough(path, t); } else { DetachMinThrough(path, t); }
    e := (t.key, t.val);
    rest := RebalanceWhole(path, if max then t.left else t.right);
  }

  method RebalanceWhole(path: Path, t0: Tree) returns (root: Tree)
    ensures root == RebuildAll(path, t0)
  {
    root := t0;
    var i := |path|;
    assert path[..i] == path;
    while i > 0
      invariant 0 <= i <= |path| && RebuildAll(path[..i], root) == RebuildAll(path, t0)
    {
      RebuildStep(path, root, i - 1);
      hide RebuildAll, Rebalanced;
      i := i - 1;
      root := Rebalanced(path[i], root).0;
    }
  }

  /** What takes the removed node's place. */
  method Removal(left: Tree, right: Tree) returns (t: Tree)
    requires Avl(left) && Avl(right) && H(left) <= 91 && H(right) <= 91
    ensures t == Joined(left, right)
  {
    if left.Leaf? { t := right; }
    else if right.Leaf? { t := left; }
    else if H(right) >= H(left) {
      var r, e := DetachExtreme(right, false);
      t := Made(left, e.0, e.1, r);
    } else {
      var l, e := DetachExtreme(left, true);
      t := Made(l, e.0, e.1, right);
    }
  }

  // ---------------------------------------------------------------------
  // The map
  // ---------------------------------------------------------------------

  ghost predicate Has(w: seq<Entry>, k: Key) { exists i :: 0 <= i < |w| && w[i].0 == k }

  lemma {:induction false} WalkSize(t: Tree)
    ensures |Walk(t)| == Size(t)
  {
    if t.Node? {
      WalkSize(t.left);
      WalkSize(t.right);
    }
  }

  lemma {:induction false} SortedAround(a: seq<Entry>, b: seq<Entry>, m: seq<Entry>, m': seq<Entry>, k: Key)
    requires Sorted(a + m + b) && AllBelow(a, k) && AllAbove(b, k)
    requires |m| <= 1 && |m'| <= 1 && (forall i :: 0 <= i < |m'| ==> m'[i].0 == k)
    ensures Sorted(a + m' + b)
  {
    var w, w' := a + m + b, a + m' + b;
    forall i, j | 0 <= i < j < |w'| ensures w'[i].0 < w'[j].0 {
      var i1 := if i < |a| then i else if i < |a| + |m'| then |a| else i - |m'| + |m|;
      var j1 := if j < |a| then j else if j < |a| + |m'| then |a| else j - |m'| + |m|;
      if i < |a| { assert w'[i] == a[i] == w[i1]; }
      if j < |a| { assert w'[j] == a[j] == w[j1]; }
      if i >= |a| + |m'| { assert w'[i] == b[i - |a| - |m'|] == w[i1]; }
      if j >= |a| + |m'| { assert w'[j] == b[j - |a| - |m'|] == w[j1]; }
    }
  }

  /** Where the descent ends tells whether the key is there. */
  lemma {:induction false} Located(path: Path, t: Tree, k: Key)
    requires Aside(path, k) && (t.Node? ==> t.key == k) && Sorted(Walk(Plug(path, t)))
    ensures var w := Walk(Plug(path, t));
      && (Has(w, k) <==> t.Node?) && (t.Node? ==> (k, t.val) in w)
      && Below(w, k) == Before(path) + (if t.Node? then Walk(t.left) else [])
      && Above(w, k) == (if t.Node? then Walk(t.right) else []) + After(path)
  {
    hide Walk, Before, After, Plug, Below, Above;
    PlugWalk(path, t);
    var w := Walk(Plug(path, t));
    var a, b := Before(path), After(path);
    if t.Node? {
      WalkNode(t);
      SortedParts(a, Walk(t.left), (t.key, t.val), Walk(t.right), b);
      var l, r := a + Walk(t.left), Walk(t.right) + b;
      assert w == l + [(t.key, t.val)] + r;
      assert w[|l|] == (t.key, t.val);
      SidesSplit(l, [(t.key, t.val)], r, k);
    } else {
      assert Walk(t) == [] by { LeafWalk(t); }
      assert w == a + [] + b;
      SidesSplit(a, [], b, k);
    }
  }

  lemma {:induction false} LeafWalk(t: Tree)
    requires t.Leaf?
    ensures Walk(t) == []
  {
  }

  /** Inserting where the descent ended: order, entries and size. */
  lemma {:induction false} InsertedEntries(path: Path, t: Tree, k: Key, v: Val, u: Tree)
    requires Aside(path, k) && (t.Node? ==> t.key == k) && Sorted(Walk(Plug(path, t)))
    requires Walk(u) == Before(path) + Walk(AvlInsert(t, k, v)) + After(path)
    ensures var w := Walk(Plug(path, t)); Walk(u) == Below(w, k) + [(k, v)] + Above(w, k) && Sorted(Walk(u))
    ensures Size(u) == Size(Plug(path, t)) + (if t.Node? then 0 else 1)
  {
    hide Walk, Before, After, Plug, Below, Above, AvlInsert, Sorted, Aside, Size;
    Located(path, t, k);
    PlugWalk(path, t);
    WalkSize(u);
    WalkSize(Plug(path, t));
    InsertHere(t, k, v);
    var w := Walk(Plug(path, t));
    var m := if t.Node? then [(k, t.val)] else [];
    var l, r := if t.Node? then Walk(t.left) else [], if t.Node? then Walk(t.right) else [];
    SidesBound(w, k);
    assert l + m + r == Walk(t) && l + [(k, v)] + r == Walk(AvlInsert(t, k, v));
    Regroup(Before(path), l, m, r, After(path));
    Regroup(Before(path), l, [(k, v)], r, After(path));
    SortedAround(Below(w, k), Above(w, k), m, [(k, v)], k);
  }

  lemma {:induction false} InsertHere(t: Tree, k: Key, v: Val)
    requires t.Node? ==> t.key == k
    ensures Walk(AvlInsert(t, k, v)) == if t.Node? then Walk(t.left) + [(k, v)] + Walk(t.right) else [(k, v)]
    ensures t.Node? ==> Walk(t) == Walk(t.left) + [(k, t.val)] + Walk(t.right)
    ensures t.Leaf? ==> Walk(t) == []
  {
  }

  lemma {:induction false} SidesBound(w: seq<Entry>, k: Key)
    ensures AllBelow(Below(w, k), k) && AllAbove(Above(w, k), k)
  {
    if w != [] { SidesBound(w[1..], k); }
  }

  lemma {:induction false} DeletedEntries(path: Path, t: Tree, k: Key, u: Tree)
    requires Aside(path, k) && t.Node? && t.key == k && Sorted(Walk(Plug(path, t)))
    requires Walk(u) == Before(path) + (Walk(t.left) + Walk(t.right)) + After(path)
    ensures var w := Walk(Plug(path, t)); Walk(u) == Below(w, k) + Above(w, k) && Sorted(Walk(u))
    ensures Size(u) + 1 == Size(Plug(path, t))
  {
    hide Walk, Before, After, Plug, Below, Above, Sorted, Aside, Size;
    Located(path, t, k);
    PlugWalk(path, t);
    WalkNode(t);
    WalkSize(u);
    WalkSize(Plug(path, t));
    var w := Walk(Plug(path, t));
    SidesBound(w, k);
    Regroup(Before(path), Walk(t.left), [(k, t.val)], Walk(t.right), After(path));
    Regroup(Before(path), Walk(t.left), [], Walk(t.right), After(path));
    SortedAround(Below(w, k), Above(w, k), [(k, t.val)], [], k);
    assert Below(w, k) + [] == Below(w, k) && Walk(t.left) + [] == Walk(t.left);
  }

  lemma {:induction false} RebuildWalk(path: Path, t: Tree)
    ensures Walk(RebuildAll(path, t)) == Before(path) + Walk(t) + After(path)
    decreases |path|
  {
    if path != [] {
      var n := |path| - 1;
      hide Walk, Rebalanced;
      RebuildWalk(path[..n], Rebalanced(path[n], t).0);
      RebalancedWalk(path[n], t);
      FillWalk(path[n], t);
    } else {
      hide Walk;
    }
  }

  /** The context of a path into an AVL tree of fewer than 2^64 nodes is low. */
  lemma {:induction false} PathOf(path: Path, t: Tree)
    requires Avl(Plug(path, t)) && Size(Plug(path, t)) < WORD
    ensures Avl(t) && Context(path, H(t)) && H(t) <= 91 && (path != [] ==> path[0].height <= 91) && H(Plug(path, t)) <= 91
  {
    hide Context, Plug, Avl, Size;
    HeightBound(Plug(path, t));
    PlugAvl(path, t);
    ContextHeight(path, t);
    if path != [] { PlugHeight(path, t); } else { PlugNone(t); }
  }

  class BstMap {
    var root: Tree
    var count: nat

    ghost predicate Valid()
      reads this
    {
      Avl(root) && Sorted(Walk(root)) && Size(root) == count <= MAX_CAPACITY
    }

    constructor ()
      ensures Valid() && root == Leaf
    {
      root, count := Leaf, 0;
    }

    method Get(k: Key) returns (r: Option<Val>)
      requires Valid()
      ensures r.Some? <==> Has(Walk(root), k)
      ensures r.Some? ==> (k, r.value) in Walk(root)
    {
      hide Avl, Sorted, Walk, Has, Size;
      var path, t := Descend(root, k);
      Located(path, t, k);
      r := if t.Node? then Some(t.val) else None;
    }

    /** Inserts or updates one key. The tree that results is the recursive
        insert's, and no other entry changes. */
    method Insert(k: Key, v: Val, entry: bool, value: bool) returns (code: Code)
      requires Valid()
      modifies this
      ensures Valid()
      ensures code.Success? <==> !Has(old(Walk(root)), k) && old(count) != MAX_CAPACITY && entry
      ensures code.KeyAlreadyPresent? <==> Has(old(Walk(root)), k) && value
      ensures code.ContainerFull? <==> !Has(old(Walk(root)), k) && old(count) == MAX_CAPACITY
      ensures !code.KeyNotFound? && count == old(count) + (if code.Success? then 1 else 0)
      ensures code.Success? || code.KeyAlreadyPresent? ==>
        && root == AvlInsert(old(root), k, v)
        && Walk(root) == Below(old(Walk(root)), k) + [(k, v)] + Above(old(Walk(root)), k)
      ensures !code.Success? && !code.KeyAlreadyPresent? ==> root == old(root)
    {
      hide Avl, Sorted, Walk, Has, Size, Context, Plug, RebuildAll, Below, Above, AvlInsert, Before, After, Towards, Aside;
      var path, t := Descend(root, k);
      Located(path, t, k);
      PathOf(path, t);
      InsertOverPath(path, t, k, v);
      RebuildWalk(path, AvlInsert(t, k, v));
      if t.Node? {
        if !value { return NotEnoughMemory; }
        Updated(t, k, v);
        InsertedEntries(path, t, k, v, RebuildAll(path, t.(val := v)));
        root := Finish(path, t.(val := v), true, H(t));
        return KeyAlreadyPresent;
      }
      if count == MAX_CAPACITY { return ContainerFull; }
      if !entry { return NotEnoughMemory; }
      var leaf := Node(Leaf, k, v, 1, Leaf);
      NewNode(t, k, v);
      InsertedEntries(path, t, k, v, RebuildAll(path, leaf));
      root := RebalanceAfterInsert(path, leaf, 0);
      count := count + 1;
      code := Success;
    }

    method Delete(k: Key) returns (code: Code)
      requires Valid()
      modifies this
      ensures Valid()
      ensures code == if Has(old(Walk(root)), k) then Success else KeyNotFound
      ensures code.Success? ==> root == AvlDelete(old(root), k) && Walk(root) == Below(old(Walk(root)), k) + Above(old(Walk(root)), k)
      ensures !code.Success? ==> root == old(root)
      ensures count + (if code.Success? then 1 else 0) == old(count)
    {
      hide Avl, Sorted, Walk, Has, Size, Context, Plug, RebuildAll, Below, Above, AvlDelete, Before, After, Towards, Aside, Joined;
      var path, t := Descend(root, k);
      Located(path, t, k);
      if t.Leaf? { return KeyNotFound; }
      PathOf(path, t);
      DeleteOverPath(path, t, k);
      DeleteHere(t, k);
      SubtreeHeights(t);
      var u := Removal(t.left, t.right);
      JoinedKeeps(t);
      RebuildWalk(path, u);
      DeletedEntries(path, t, k, RebuildAll(path, u));
      root := RebalanceAfterDelete(path, u, H(t));
      count := count - 1;
      code := Success;
    }
  }

  lemma {:induction false} Updated(t: Tree, k: Key, v: Val)
    requires t.Node? && t.key == k
    ensures AvlInsert(t, k, v) == t.(val := v) && (Avl(t) ==> Avl(t.(val := v)))
  {
  }

  lemma {:induction false} NewNode(t: Tree, k: Key, v: Val)
    requires t.Leaf?
    ensures AvlInsert(t, k, v) == Node(Leaf, k, v, 1, Leaf) && Grown(Node(Leaf, k, v, 1, Leaf), 0) && H(t) == 0
  {
  }

  lemma {:induction false} SubtreeHeights(t: Tree)
    requires t.Node? && Avl(t) && H(t) <= 91
    ensures Avl(t.left) && Avl(t.right) && H(t.left) <= 91 && H(t.right) <= 91
  {
  }

  lemma {:induction false} DeleteHere(t: Tree, k: Key)
    requires t.Node? && t.key == k
    ensures AvlDelete(t, k) == Joined(t.left, t.right)
  {
  }

  // ---------------------------------------------------------------------
  // The iterator
  // ---------------------------------------------------------------------

  /** What a stack of nodes has still to give: from the top, each node's own
      entry and then its right subtree. */
  function Pending(stack: seq<Tree>): seq<Entry> {
    if stack == [] then []
    else
      var t := stack[|stack| - 1];
      (if t.Node? then [(t.key, t.val)] + Walk(t.right) else []) + Pending(stack[..|stack| - 1])
  }

  /** Nodes from ever lower levels, all below height h. */
  ghost predicate Descending(stack: seq<Tree>, h: nat) {
    && (forall i :: 0 <= i < |stack| ==> stack[i].Node? && Avl(stack[i]) && H(stack[i]) <= h - i)
  }

  class Cursor {
    var stack: seq<Tree>
    ghost var height: nat
    ghost var rest: seq<Entry>

    ghost predicate Valid()
      reads this
    {
      height <= 91 && Descending(stack, height) && Pending(stack) == rest
    }

    constructor (root: Tree)
      requires Avl(root) && Size(root) < WORD
      ensures Valid() && rest == Walk(root)
    {
      stack := [];
      height := H(root);
      rest := [];
      new;
      HeightBound(root);
      PushLefts(root);
      assert Walk(root) + [] == Walk(root);
    }

    /** Pushes a node and all its left descendants. */
    method PushLefts(root: Tree)
      requires height <= 91 && Descending(stack, height) && Pending(stack) == rest
      requires Avl(root) && H(root) + |stack| <= height
      modifies this`stack, this`rest
      ensures Valid() && rest == Walk(root) + old(rest) && |stack| < MAX_TREE_HEIGHT
    {
      hide Pending;
      var t := root;
      ghost var base := rest;
      while t.Node?
        invariant Avl(t) && H(t) + |stack| <= height <= 91 && Descending(stack, height)
        invariant Walk(t) + Pending(stack) == Walk(root) + base
        decreases t
      {
        hide Walk;
        WalkNode(t);
        PendingPush(stack, t);
        stack := stack + [t];
        t := t.left;
      }
      LeafWalk(t);
      rest := Pending(stack);
    }

    /** The next entry in key order, or nothing at the end. */
    method Next() returns (r: Option<Entry>)
      requires Valid()
      modifies this`stack, this`rest
      ensures Valid() && |stack| < MAX_TREE_HEIGHT
      ensures old(rest) == [] ==> r == None && rest == []
      ensures old(rest) != [] ==> r == Some(old(rest)[0]) && rest == old(rest)[1..]
    {
      if stack == [] { return None; }
      var n := |stack| - 1;
      var t := stack[n];
      hide Walk;
      stack := stack[..n];
      rest := Pending(stack);
      PushLefts(t.right);
      r := Some((t.key, t.val));
    }
  }

  lemma {:induction false} PendingPush(stack: seq<Tree>, t: Tree)
    requires t.Node?
    ensures Pending(stack + [t]) == [(t.key, t.val)] + Walk(t.right) + Pending(stack)
  {
    assert (stack + [t])[..|stack|] == stack;
  }

  /** Stepped to its end, the iterator gives every entry of the map exactly once,
      in ascending key order: the recursive in-order walk. */
  method IterateAll(root: Tree) returns (entries: seq<Entry>)
    requires Avl(root) && Sorted(Walk(root)) && Size(root) < WORD
    ensures entries == Walk(root) && Sorted(entries) && |entries| == Size(root)
  {
    hide Walk, Avl, Sorted, Size;
    var it := new Cursor(root);
    entries := [];
    WalkSize(root);
    while true
      invariant it.Valid() && fresh(it) && entries + it.rest == Walk(root)
      decreases |it.rest|
    {
      var r := it.Next();
      if r.None? { break; }
      entries := entries + [r.value];
    }
  }
}
