// The ownership of JSON nodes: a heap of live nodes that every call keeps a
// forest, with an exact log of what was freed.

module JsonForest {
  import opened Orders

  type Id = nat
  type Key(==, !new)

  datatype Kind = Scalar | ListKind | DictKind

  datatype Node = Node(kind: Kind, kids: seq<Id>, keys: seq<Key>, attached: bool)

  type Nodes = map<Id, Node>

  /** Who holds a node, and how many holders are above it. */
  datatype Shape = Shape(parent: map<Id, Id>, level: map<Id, nat>)

  /** Every child is live, and its one parent is this node. */
  ghost predicate KidsOk(nodes: Nodes, sh: Shape) {
    forall p :: p in nodes ==>
      && NoRepeat(nodes[p].kids)
      && forall c :: c in nodes[p].kids ==> c in nodes && c in sh.parent && sh.parent[c] == p
  }

  /** A node is marked attached exactly when it has a parent, which is live, holds
      it, and stands one level above: so no node is its own ancestor. */
  ghost predicate ParentsOk(nodes: Nodes, sh: Shape) {
    && (forall n :: n in nodes ==> n in sh.level && (nodes[n].attached <==> n in sh.parent))
    && (forall n :: n in sh.parent ==>
         n in nodes && sh.parent[n] in nodes && n in nodes[sh.parent[n]].kids && sh.level[sh.parent[n]] < sh.level[n])
  }

  /** The second half of ParentsOk for one node. */
  ghost predicate ParentOk(nodes: Nodes, sh: Shape, n: Id) {
    && n in nodes && n in sh.parent && n in sh.level && sh.parent[n] in nodes && sh.parent[n] in sh.level
    && n in nodes[sh.parent[n]].kids && sh.level[sh.parent[n]] < sh.level[n]
  }

  ghost predicate FlagOk(nodes: Nodes, sh: Shape, n: Id) { n in nodes && n in sh.level && (nodes[n].attached <==> n in sh.parent) }

  lemma ParentAt(nodes: Nodes, sh: Shape, n: Id)
    requires ParentsOk(nodes, sh)
    ensures n in nodes ==> n in sh.level && FlagOk(nodes, sh, n)
    ensures n in sh.parent ==> ParentOk(nodes, sh, n)
  {
  }

  lemma ParentsFrom(nodes: Nodes, sh: Shape)
    requires (forall n :: n in nodes ==> FlagOk(nodes, sh, n)) && forall n :: n in sh.parent ==> ParentOk(nodes, sh, n)
    ensures ParentsOk(nodes, sh)
  {
  }

  predicate FormOk(n: Node) {
    && (n.kind == Scalar ==> n.kids == [])
    && (n.kind == DictKind ==> |n.keys| == |n.kids| && forall i, j :: 0 <= i < j < |n.keys| ==> n.keys[i] != n.keys[j])
  }

  ghost predicate FormsOk(nodes: Nodes) { forall n :: n in nodes ==> FormOk(nodes[n]) }

  ghost predicate Forest(nodes: Nodes, sh: Shape) { KidsOk(nodes, sh) && ParentsOk(nodes, sh) && FormsOk(nodes) }

  // ---------------------------------------------------------------------
  // Ancestors and subtrees
  // ---------------------------------------------------------------------

  /** a is n or holds it, directly or through others. */
  ghost predicate Holds(nodes: Nodes, sh: Shape, a: Id, n: Id)
    requires ParentsOk(nodes, sh) && n in nodes
    decreases sh.level[n]
  {
    n == a || (n in sh.parent && Holds(nodes, sh, a, sh.parent[n]))
  }

  ghost predicate Closed(nodes: Nodes, s: set<Id>) { forall p, c :: p in s && p in nodes && c in nodes[p].kids ==> c in s }

  /** What holds c holds all of a closed set around it. */
  lemma {:induction false} HeldInClosed(nodes: Nodes, sh: Shape, s: set<Id>, a: Id, n: Id)
    requires ParentsOk(nodes, sh) && n in nodes && a in s && Closed(nodes, s) && Holds(nodes, sh, a, n)
    ensures n in s
    decreases sh.level[n]
  {
    if n != a { HeldInClosed(nodes, sh, s, a, sh.parent[n]); }
  }

  /** s is the subtree of a: everything a holds, and nothing else. */
  ghost predicate Subtree(nodes: Nodes, sh: Shape, a: Id, s: set<Id>)
    requires ParentsOk(nodes, sh)
  {
    forall n :: n in s <==> n in nodes && Holds(nodes, sh, a, n)
  }

  lemma {:induction false} RootHolds(nodes: Nodes, sh: Shape, n: Id) returns (root: Id)
    requires ParentsOk(nodes, sh) && n in nodes
    ensures root in nodes && !nodes[root].attached && Holds(nodes, sh, root, n)
    decreases sh.level[n]
  {
    if n in sh.parent {
      root := RootHolds(nodes, sh, sh.parent[n]);
    } else {
      root := n;
    }
  }

  /** Nothing leaks: a live node is always held by some node the caller owns. */
  lemma NoLeak(nodes: Nodes, sh: Shape)
    requires ParentsOk(nodes, sh) && forall n :: n in nodes ==> nodes[n].attached
    ensures nodes == map[]
  {
    if nodes != map[] {
      var n :| n in nodes;
      var root := RootHolds(nodes, sh, n);
    }
  }

  // ---------------------------------------------------------------------
  // The walk over a subtree
  // ---------------------------------------------------------------------

  /** A walk from the root a: the done nodes and those still to do are held by a,
      all different, and each but a hangs below a done node; done nodes' children
      are all known. */
  ghost predicate Walking(nodes: Nodes, sh: Shape, a: Id, done: set<Id>, todo: seq<Id>)
    requires ParentsOk(nodes, sh)
  {
    && a in nodes && !nodes[a].attached && (a in done || a in todo)
    && NoRepeat(todo) && (forall n :: n in todo ==> n !in done)
    && (forall n :: n in done || n in todo ==> n in nodes && Holds(nodes, sh, a, n) && (n == a || (n in sh.parent && sh.parent[n] in done)))
    && (forall p, c :: p in done && p in nodes && c in nodes[p].kids ==> c in done || c in todo)
  }

  lemma WalkStart(nodes: Nodes, sh: Shape, a: Id)
    requires ParentsOk(nodes, sh) && a in nodes && !nodes[a].attached
    ensures Walking(nodes, sh, a, {}, [a])
  {
  }

  /** The next node's children are new to the walk. */
  lemma NewKids(nodes: Nodes, sh: Shape, a: Id, done: set<Id>, rest: seq<Id>, n: Id)
    requires KidsOk(nodes, sh) && ParentsOk(nodes, sh) && Walking(nodes, sh, a, done, rest + [n])
    ensures n in nodes && n !in done && n !in rest && NoRepeat(nodes[n].kids)
    ensures forall c :: c in nodes[n].kids ==>
      c in nodes && c in sh.parent && sh.parent[c] == n && c !in done && c !in rest && c != n && c != a && Holds(nodes, sh, a, c)
  {
    var todo := rest + [n];
    assert todo[|rest|] == n;
    forall i | 0 <= i < |rest| ensures rest[i] != n && rest[i] in todo { assert todo[i] == rest[i]; }
    forall c | c in nodes[n].kids ensures c in sh.parent && sh.parent[c] == n && c !in done && c !in todo && c != a {}
  }

  lemma DistinctJoin(rest: seq<Id>, n: Id, kids: seq<Id>)
    requires NoRepeat(rest + [n]) && NoRepeat(kids) && forall c :: c in kids ==> c !in rest
    ensures NoRepeat(rest + kids)
  {
    var todo, next := rest + [n], rest + kids;
    forall i, j | 0 <= i < j < |next| ensures next[i] != next[j] {
      if j < |rest| { assert todo[i] == rest[i] && todo[j] == rest[j]; }
      else if i < |rest| { assert next[j] in kids && next[i] in rest; }
    }
  }

  lemma WalkStep(nodes: Nodes, sh: Shape, a: Id, done: set<Id>, rest: seq<Id>, n: Id)
    requires Forest(nodes, sh) && Walking(nodes, sh, a, done, rest + [n])
    ensures n in nodes && n !in done && n !in rest
    ensures Walking(nodes, sh, a, done + {n}, rest + nodes[n].kids)
  {
    hide KidsOk, ParentsOk, FormsOk, Holds, NoRepeat;
    NewKids(nodes, sh, a, done, rest, n);
    var todo, next := rest + [n], rest + nodes[n].kids;
    DistinctJoin(rest, n, nodes[n].kids);
    forall m | m in done + {n} || m in next
      ensures m in nodes && Holds(nodes, sh, a, m) && (m == a || (m in sh.parent && sh.parent[m] in done + {n}))
    {
      if m in rest || m == n { assert m in todo; }
    }
    forall m | m in next ensures m !in done + {n} {
      if m in rest { assert m in todo; }
    }
    forall p, c | p in done + {n} && p in nodes && c in nodes[p].kids ensures c in done + {n} || c in next {
      if p != n && c in todo { assert c == n || c in rest; }
    }
    assert a in done + {n} || a in next by { if a in todo { assert a == n || a in rest; } }
  }

  /** A walk with nothing left has been through the whole subtree. */
  lemma WalkEnd(nodes: Nodes, sh: Shape, a: Id, done: set<Id>)
    requires Forest(nodes, sh) && Walking(nodes, sh, a, done, [])
    ensures Subtree(nodes, sh, a, done)
  {
    forall n | n in nodes && Holds(nodes, sh, a, n) ensures n in done { HeldInClosed(nodes, sh, done, a, n); }
  }

  // ---------------------------------------------------------------------
  // Attaching, detaching, dropping
  // ---------------------------------------------------------------------

  /** n with c at place i. */
  function Inserted(n: Node, i: nat, c: Id, keys: seq<Key>): Node
    requires i <= |n.kids|
  {
    n.(kids := n.kids[..i] + [c] + n.kids[i..], keys := keys)
  }

  function Attach(nodes: Nodes, n: Id, i: nat, c: Id, keys: seq<Key>): Nodes
    requires n in nodes && c in nodes && i <= |nodes[n].kids|
  {
    nodes[n := Inserted(nodes[n], i, c, keys)][c := nodes[c].(attached := true)]
  }

  /** The subtree of c comes to stand below n. */
  function AttachShape(nodes: Nodes, sh: Shape, n: Id, c: Id, sub: set<Id>): Shape
    requires n in sh.level
  {
    Shape(sh.parent[c := n], map m | m in nodes && m in sh.level :: if m in sub then sh.level[m] + sh.level[n] + 1 else sh.level[m])
  }

  /** Attaching a free node to a container it does not hold keeps a forest. */
  lemma AttachOk(nodes: Nodes, sh: Shape, n: Id, i: nat, c: Id, keys: seq<Key>, sub: set<Id>)
    requires Forest(nodes, sh) && n in nodes && c in nodes && n != c && !nodes[c].attached && i <= |nodes[n].kids|
    requires Subtree(nodes, sh, c, sub) && n !in sub && nodes[n].kind != Scalar
    requires FormOk(Inserted(nodes[n], i, c, keys))
    ensures Forest(Attach(nodes, n, i, c, keys), AttachShape(nodes, sh, n, c, sub))
  {
    hide KidsOk, Holds, NoRepeat, Inserted, FormsOk, FormOk, Attach;
    InsertedKids(nodes, sh, n, i, c, keys);
    SubtreeClosed(nodes, sh, c, sub);
    hide ParentsOk, Subtree;
    AttachKids(nodes, sh, n, i, c, keys, sub);
    AttachParents(nodes, sh, n, i, c, keys, sub);
    AttachForms(nodes, n, i, c, keys);
  }

  lemma AttachForms(nodes: Nodes, n: Id, i: nat, c: Id, keys: seq<Key>)
    requires FormsOk(nodes) && n in nodes && c in nodes && n != c && i <= |nodes[n].kids| && FormOk(Inserted(nodes[n], i, c, keys))
    ensures FormsOk(Attach(nodes, n, i, c, keys))
  {
    hide Inserted;
  }

  lemma InsertedKids(nodes: Nodes, sh: Shape, n: Id, i: nat, c: Id, keys: seq<Key>)
    requires KidsOk(nodes, sh) && ParentsOk(nodes, sh) && n in nodes && c in nodes && !nodes[c].attached && i <= |nodes[n].kids|
    ensures var k := Inserted(nodes[n], i, c, keys).kids; NoRepeat(k) && forall m :: m in k <==> m == c || m in nodes[n].kids
  {
    var was := nodes[n].kids;
    var k := Inserted(nodes[n], i, c, keys).kids;
    assert c !in was;
    assert k[i] == c;
    assert was == was[..i] + was[i..];
    forall m | m in was ensures m in k {}
  }

  lemma SubtreeClosed(nodes: Nodes, sh: Shape, c: Id, sub: set<Id>)
    requires KidsOk(nodes, sh) && ParentsOk(nodes, sh) && c in nodes && Subtree(nodes, sh, c, sub)
    ensures c in sub && forall m :: m in sh.parent && m != c ==> (m in sub <==> sh.parent[m] in sub)
  {
  }

  lemma AttachKids(nodes: Nodes, sh: Shape, n: Id, i: nat, c: Id, keys: seq<Key>, sub: set<Id>)
    requires KidsOk(nodes, sh) && ParentsOk(nodes, sh) && n in nodes && c in nodes && n != c && !nodes[c].attached && i <= |nodes[n].kids|
    requires var k := Inserted(nodes[n], i, c, keys).kids; NoRepeat(k) && forall m :: m in k <==> m == c || m in nodes[n].kids
    ensures KidsOk(Attach(nodes, n, i, c, keys), AttachShape(nodes, sh, n, c, sub))
  {
    hide Inserted, Attach, NoRepeat;
    AttachFields(nodes, n, i, c, keys);
  }

  /** What attaching changes, field by field. */
  lemma AttachFields(nodes: Nodes, n: Id, i: nat, c: Id, keys: seq<Key>)
    requires n in nodes && c in nodes && n != c && i <= |nodes[n].kids|
    ensures var after := Attach(nodes, n, i, c, keys);
      && after.Keys == nodes.Keys
      && (forall m :: m in nodes ==> after[m].kids == if m == n then Inserted(nodes[n], i, c, keys).kids else nodes[m].kids)
      && (forall m :: m in nodes ==> after[m].attached == (m == c || nodes[m].attached))
  {
  }

  lemma AttachParents(nodes: Nodes, sh: Shape, n: Id, i: nat, c: Id, keys: seq<Key>, sub: set<Id>)
    requires KidsOk(nodes, sh) && ParentsOk(nodes, sh) && n in nodes && c in nodes && n != c && !nodes[c].attached && i <= |nodes[n].kids|
    requires n !in sub && c in sub && forall m :: m in sh.parent && m != c ==> (m in sub <==> sh.parent[m] in sub)
    requires var k := Inserted(nodes[n], i, c, keys).kids; forall m :: m in k <==> m == c || m in nodes[n].kids
    ensures ParentsOk(Attach(nodes, n, i, c, keys), AttachShape(nodes, sh, n, c, sub))
  {
    hide Inserted, Attach, KidsOk, ParentsOk, FlagOk, ParentOk, AttachShape;
    AttachFields(nodes, n, i, c, keys);
    ParentAt(nodes, sh, n);
    var after, sh2 := Attach(nodes, n, i, c, keys), AttachShape(nodes, sh, n, c, sub);
    forall m | m in after ensures FlagOk(after, sh2, m) {
      ParentAt(nodes, sh, m);
      AttachFlag(nodes, after, sh, n, c, sub, m);
    }
    AttachParentKeys(nodes, sh, n, c, sub);
    forall m | m in sh2.parent ensures ParentOk(after, sh2, m) {
      ParentAt(nodes, sh, m);
      ParentAt(nodes, sh, c);
      AttachParent(nodes, after, sh, n, c, sub, m);
    }
    ParentsFrom(after, sh2);
  }

  lemma AttachParentKeys(nodes: Nodes, sh: Shape, n: Id, c: Id, sub: set<Id>)
    requires n in sh.level
    ensures forall m :: m in AttachShape(nodes, sh, n, c, sub).parent <==> m == c || m in sh.parent
  {
  }

  lemma AttachFlag(nodes: Nodes, after: Nodes, sh: Shape, n: Id, c: Id, sub: set<Id>, m: Id)
    requires m in nodes && m in after && n in sh.level && FlagOk(nodes, sh, m) && after[m].attached == (m == c || nodes[m].attached)
    ensures FlagOk(after, AttachShape(nodes, sh, n, c, sub), m)
  {
  }

  lemma AttachParent(nodes: Nodes, after: Nodes, sh: Shape, n: Id, c: Id, sub: set<Id>, m: Id)
    requires n in nodes && c in nodes && FlagOk(nodes, sh, n) && FlagOk(nodes, sh, c) && after.Keys == nodes.Keys
    requires if m == c then c in after[n].kids else ParentOk(nodes, sh, m) && (m in nodes[sh.parent[m]].kids ==> m in after[sh.parent[m]].kids)
    requires n !in sub && c in sub && (m in sh.parent && m != c ==> (m in sub <==> sh.parent[m] in sub))
    ensures ParentOk(after, AttachShape(nodes, sh, n, c, sub), m)
  {
  }

  /** n without its child at place i. */
  function Removed(n: Node, i: nat): Node
    requires i < |n.kids|
  {
    n.(kids := n.kids[..i] + n.kids[i + 1..], keys := if i < |n.keys| then n.keys[..i] + n.keys[i + 1..] else n.keys)
  }

  function Detach(nodes: Nodes, n: Id, i: nat): Nodes
    requires n in nodes && i < |nodes[n].kids| && nodes[n].kids[i] in nodes
  {
    var c := nodes[n].kids[i];
    nodes[n := Removed(nodes[n], i)][c := nodes[c].(attached := false)]
  }

  function DetachShape(sh: Shape, c: Id): Shape { sh.(parent := sh.parent - {c}) }

  lemma RemovedKids(n: Node, i: nat)
    requires i < |n.kids| && NoRepeat(n.kids)
    ensures var k := Removed(n, i).kids; NoRepeat(k) && forall m :: m in k <==> m in n.kids && m != n.kids[i]
    ensures FormOk(n) ==> FormOk(Removed(n, i))
  {
    var k := Removed(n, i).kids;
    forall m | m in n.kids && m != n.kids[i] ensures m in k {
      var j :| 0 <= j < |n.kids| && n.kids[j] == m;
      assert j < i ==> k[j] == m;
      assert j > i ==> k[j - 1] == m;
    }
    assert forall j :: 0 <= j < |k| ==> k[j] == if j < i then n.kids[j] else n.kids[j + 1];
    if FormOk(n) && n.kind == DictKind {
      var ks := Removed(n, i).keys;
      assert forall j :: 0 <= j < |ks| ==> ks[j] == if j < i then n.keys[j] else n.keys[j + 1];
    }
  }

  lemma DetachFields(nodes: Nodes, n: Id, i: nat)
    requires n in nodes && i < |nodes[n].kids| && nodes[n].kids[i] in nodes && nodes[n].kids[i] != n
    ensures var after := Detach(nodes, n, i); var c := nodes[n].kids[i];
      && after.Keys == nodes.Keys
      && (forall m :: m in nodes ==> after[m].kids == if m == n then Removed(nodes[n], i).kids else nodes[m].kids)
      && (forall m :: m in nodes ==> after[m].attached == (m != c && nodes[m].attached))
  {
    hide Removed;
    assert Removed(nodes[n], i).attached == nodes[n].attached by { RemovedAttached(nodes[n], i); }
  }

  lemma RemovedAttached(n: Node, i: nat)
    requires i < |n.kids|
    ensures Removed(n, i).attached == n.attached
  {
  }

  lemma DetachKids(nodes: Nodes, sh: Shape, n: Id, i: nat)
    requires KidsOk(nodes, sh) && n in nodes && i < |nodes[n].kids| && nodes[n].kids[i] in nodes && nodes[n].kids[i] != n
    requires var k := Removed(nodes[n], i).kids; NoRepeat(k) && forall m :: m in k <==> m in nodes[n].kids && m != nodes[n].kids[i]
    ensures KidsOk(Detach(nodes, n, i), DetachShape(sh, nodes[n].kids[i]))
  {
    hide Removed, Detach, NoRepeat;
    DetachFields(nodes, n, i);
    assert nodes[n].kids[i] in nodes[n].kids;
  }

  lemma DetachParents(nodes: Nodes, sh: Shape, n: Id, i: nat)
    requires KidsOk(nodes, sh) && ParentsOk(nodes, sh) && n in nodes && i < |nodes[n].kids| && nodes[n].kids[i] in nodes && nodes[n].kids[i] != n
    requires var k := Removed(nodes[n], i).kids; forall m :: m in k <==> m in nodes[n].kids && m != nodes[n].kids[i]
    ensures ParentsOk(Detach(nodes, n, i), DetachShape(sh, nodes[n].kids[i]))
  {
    hide Removed, Detach, KidsOk, ParentsOk, FlagOk, ParentOk;
    DetachFields(nodes, n, i);
    var c := nodes[n].kids[i];
    KidParent(nodes, sh, n, c);
    var after, sh2 := Detach(nodes, n, i), DetachShape(sh, c);
    forall m | m in after ensures FlagOk(after, sh2, m) {
      ParentAt(nodes, sh, m);
      DetachFlag(nodes, after, sh, c, m);
    }
    forall m | m in sh2.parent ensures ParentOk(after, sh2, m) {
      ParentAt(nodes, sh, m);
      DetachParent(nodes, after, sh, c, m);
    }
    ParentsFrom(after, sh2);
  }

  lemma DetachFlag(nodes: Nodes, after: Nodes, sh: Shape, c: Id, m: Id)
    requires m in after && FlagOk(nodes, sh, m) && after[m].attached == (m != c && nodes[m].attached)
    ensures FlagOk(after, DetachShape(sh, c), m)
  {
  }

  lemma DetachParent(nodes: Nodes, after: Nodes, sh: Shape, c: Id, m: Id)
    requires m != c && ParentOk(nodes, sh, m) && after.Keys == nodes.Keys
    requires m in nodes[sh.parent[m]].kids ==> m in after[sh.parent[m]].kids
    ensures ParentOk(after, DetachShape(sh, c), m)
  {
  }

  lemma KidParent(nodes: Nodes, sh: Shape, n: Id, c: Id)
    requires KidsOk(nodes, sh) && n in nodes && c in nodes[n].kids
    ensures c in sh.parent && sh.parent[c] == n
  {
  }

  lemma DetachForms(nodes: Nodes, n: Id, i: nat)
    requires FormsOk(nodes) && n in nodes && i < |nodes[n].kids| && nodes[n].kids[i] in nodes && FormOk(Removed(nodes[n], i))
    requires nodes[n].kids[i] != n
    ensures FormsOk(Detach(nodes, n, i))
  {
    hide Removed;
  }

  lemma KidIsOther(nodes: Nodes, sh: Shape, n: Id, i: nat)
    requires KidsOk(nodes, sh) && ParentsOk(nodes, sh) && n in nodes && i < |nodes[n].kids|
    ensures var c := nodes[n].kids[i]; c in nodes && c != n && NoRepeat(nodes[n].kids)
  {
    assert nodes[n].kids[i] in nodes[n].kids;
  }

  lemma FormOf(nodes: Nodes, n: Id)
    requires FormsOk(nodes) && n in nodes
    ensures FormOk(nodes[n])
  {
  }

  lemma DetachOk(nodes: Nodes, sh: Shape, n: Id, i: nat)
    requires Forest(nodes, sh) && n in nodes && i < |nodes[n].kids|
    ensures var c := nodes[n].kids[i]; c in nodes && c != n && Forest(Detach(nodes, n, i), DetachShape(sh, c))
  {
    hide KidsOk, ParentsOk, FormsOk, FormOk, Removed, NoRepeat, Detach;
    KidIsOther(nodes, sh, n, i);
    RemovedKids(nodes[n], i);
    FormOf(nodes, n);
    DetachKids(nodes, sh, n, i);
    DetachParents(nodes, sh, n, i);
    DetachForms(nodes, n, i);
  }

  function Dropped(nodes: Nodes, s: set<Id>): Nodes { nodes - s }

  function DropShape(sh: Shape, s: set<Id>): Shape { sh.(parent := sh.parent - s) }

  lemma DropKids(nodes: Nodes, sh: Shape, a: Id, sub: set<Id>)
    requires KidsOk(nodes, sh) && ParentsOk(nodes, sh) && a in nodes && !nodes[a].attached
    requires forall m :: m in sh.parent && m != a ==> (m in sub <==> sh.parent[m] in sub)
    ensures KidsOk(Dropped(nodes, sub), DropShape(sh, sub))
  {
    var after := Dropped(nodes, sub);
    forall p | p in after ensures NoRepeat(after[p].kids) && after[p] == nodes[p] && p !in sub {}
    forall p, c | p in after && c in after[p].kids ensures c in after && c in sh.parent && sh.parent[c] == p && c !in sub {
      assert c in nodes[p].kids;
      assert c in sh.parent && sh.parent[c] == p && c != a;
    }
  }

  lemma DropParents(nodes: Nodes, sh: Shape, a: Id, sub: set<Id>)
    requires ParentsOk(nodes, sh) && a in nodes && !nodes[a].attached && a in sub
    requires forall m :: m in sh.parent && m != a ==> (m in sub <==> sh.parent[m] in sub)
    ensures ParentsOk(Dropped(nodes, sub), DropShape(sh, sub))
  {
    var after := Dropped(nodes, sub);
    assert forall m :: m in after <==> m in nodes && m !in sub;
    assert forall m :: m in after ==> after[m] == nodes[m];
  }

  /** Without a whole free subtree the rest is a forest. */
  lemma DropOk(nodes: Nodes, sh: Shape, a: Id, sub: set<Id>)
    requires Forest(nodes, sh) && a in nodes && !nodes[a].attached && Subtree(nodes, sh, a, sub)
    ensures Forest(Dropped(nodes, sub), DropShape(sh, sub))
  {
    hide KidsOk, ParentsOk, FormOk, Subtree, Holds;
    SubtreeClosed(nodes, sh, a, sub);
    DropKids(nodes, sh, a, sub);
    DropParents(nodes, sh, a, sub);
  }
}
