// The JSON document object model: the calls that build, change and free trees.

module JsonDom {
  import opened Options
  import opened Orders
  import opened JsonForest

  datatype Code = Success | InvalidArgs | NotEnoughMemory | ContainerFull | KeyNotFound

  /** What the memory allows: how long the search's stack may get, and what the
      insert into the container answers. */
  datatype Memory = Memory(stack: nat, insert: Code)

  /** Of the nodes made so far each is live or was freed, and freed only once. */
  ghost predicate Ledger(live: set<Id>, next: Id, freed: seq<Id>) {
    && NoRepeat(freed)
    && (forall n :: n in live ==> n < next) && (forall n :: n in freed ==> n < next)
    && (forall n :: 0 <= n < next ==> (n in live <==> n !in freed))
  }

  lemma LedgerNew(live: set<Id>, next: Id, freed: seq<Id>)
    requires Ledger(live, next, freed)
    ensures Ledger(live + {next}, next + 1, freed) && next !in live
  {
  }

  lemma LedgerFree(live: set<Id>, next: Id, freed: seq<Id>, n: Id)
    requires Ledger(live, next, freed) && n in live
    ensures Ledger(live - {n}, next, freed + [n])
  {
    var log := freed + [n];
    assert forall m :: m in log <==> m in freed || m == n;
  }

  class Dom {
    var nodes: Nodes
    var next: Id
    ghost var sh: Shape
    /** Every node that was freed, in order. */
    ghost var freed: seq<Id>

    /** The nodes are a forest, and of all nodes ever made each is either live or
        was freed exactly once. */
    ghost predicate Valid()
      reads this
    {
      Forest(nodes, sh) && Ledger(nodes.Keys, next, freed)
    }

    constructor ()
      ensures Valid() && nodes == map[] && freed == []
    {
      nodes, next := map[], 0;
      sh := Shape(map[], map[]);
      freed := [];
    }

    /** A new node belongs to the caller. */
    method Create(kind: Kind) returns (n: Id)
      requires Valid()
      modifies this
      ensures Valid() && n !in old(nodes) && nodes == old(nodes)[n := Node(kind, [], [], false)] && freed == old(freed)
    {
      hide Forest, Ledger;
      n := next;
      LedgerNew(nodes.Keys, next, freed);
      CreateOk(nodes, sh, n, kind);
      nodes := nodes[n := Node(kind, [], [], false)];
      assert nodes.Keys == old(nodes.Keys) + {n};
      sh := sh.(level := sh.level[n := 0]);
      next := next + 1;
    }

    /** Frees a free-standing tree, each node of it exactly once, with a worklist
        instead of recursion. */
    method Destroy(a: Id, ghost sub: set<Id>)
      requires Valid() && a in nodes && !nodes[a].attached && Subtree(nodes, sh, a, sub)
      modifies this
      ensures Valid() && next == old(next)
      ensures nodes == Dropped(old(nodes), sub) && |freed| >= |old(freed)| && freed[..|old(freed)|] == old(freed)
    {
      hide Forest, Ledger, Walking, Subtree, KidsOk, FormsOk, ParentsOk, Dropped, DropShape;
      ghost var start, shape, log := nodes, sh, freed;
      ghost var done: set<Id> := {};
      var work := [a];
      ForestParents(start, shape);
      WalkStart(nodes, sh, a);
      DropNothing(start);
      while work != []
        invariant Forest(start, shape) && ParentsOk(start, shape) && Walking(start, shape, a, done, work)
        invariant nodes == Dropped(start, done) && Ledger(nodes.Keys, next, freed)
        invariant |freed| >= |log| && freed[..|log|] == log
        modifies this`nodes, this`freed
        decreases |nodes|
      {
        var rest, n := work[..|work| - 1], work[|work| - 1];
        assert work == rest + [n];
        WalkStep(start, shape, a, done, rest, n);
        FreeStep(start, done, n);
        LedgerFree(nodes.Keys, next, freed, n);
        work := rest + nodes[n].kids;
        done := done + {n};
        nodes := nodes - {n};
        freed := freed + [n];
      }
      WalkEnd(start, shape, a, done);
      OneSubtree(start, shape, a, done, sub);
      DropOk(start, shape, a, sub);
      sh := DropShape(sh, sub);
    }

    /** Does c hold n? Exact unless the search runs out of room, which it cannot
        with room for every live node. */
    method Reaches(c: Id, n: Id, room: nat) returns (found: bool, incomplete: bool)
      requires Valid() && c in nodes && n in nodes && !nodes[c].attached && ParentsOk(nodes, sh)
      ensures found ==> Holds(nodes, sh, c, n)
      ensures !found && !incomplete ==> !Holds(nodes, sh, c, n)
      ensures room >= |nodes| ==> !incomplete
    {
      hide Forest, Ledger, Walking, Subtree, KidsOk, FormsOk, ParentsOk;
      found, incomplete := false, false;
      HoldsFirst(nodes, sh, c, n);
      if c == n { return true, false; }
      if !nodes[n].attached { return; }
      var stack := [c];
      ghost var done: set<Id> := {};
      WalkStart(nodes, sh, c);
      while stack != []
        invariant Walking(nodes, sh, c, done, stack) && n !in done && done <= nodes.Keys
        decreases |nodes.Keys - done|
      {
        var rest, m := stack[..|stack| - 1], stack[|stack| - 1];
        assert stack == rest + [m];
        WalkStep(nodes, sh, c, done, rest, m);
        if m == n {
          WalkHolds(nodes, sh, c, done, stack, m);
          return true, false;
        }
        StackFits(nodes, sh, c, done + {m}, rest + nodes[m].kids);
        if |rest| + |nodes[m].kids| > room { return false, true; }
        stack := rest + nodes[m].kids;
        SmallerRest(nodes.Keys, done, m);
        done := done + {m};
      }
      WalkEnd(nodes, sh, c, done);
      SubtreeIs(nodes, sh, c, done, n);
    }

    ghost function Sub(a: Id): (s: set<Id>)
      requires ParentsOk(nodes, sh)
      reads this
      ensures Subtree(nodes, sh, a, s)
    {
      set m | m in nodes && Holds(nodes, sh, a, m)
    }

    /** Takes the child c of n out and frees its tree. */
    method Discard(n: Id, i: nat)
      requires Valid() && n in nodes && i < |nodes[n].kids|
      modifies this
      ensures Valid() && next == old(next)
      ensures Others(old(nodes), old(sh), nodes, {n}, Some(old(nodes)[n].kids[i]))
      ensures n in nodes && nodes[n] == Removed(old(nodes)[n], i)
    {
      hide KidsOk, FormsOk, ParentsOk, Ledger, Detach, DetachShape, Dropped, Subtree, Others, Removed;
      var c := nodes[n].kids[i];
      DetachOk(nodes, sh, n, i);
      DetachKeys(nodes, n, i);
      nodes := Detach(nodes, n, i);
      sh := DetachShape(sh, c);
      ghost var sub := Sub(c);
      DiscardIs(old(nodes), old(sh), n, i, sub);
      Destroy(c, sub);
    }

    /** Frees the child of a failed call, which has taken it over. */
    method TakeAndFree(c: Id)
      requires Valid() && c in nodes && !nodes[c].attached
      modifies this
      ensures Valid() && next == old(next) && FreedAll(old(nodes), old(sh), c, nodes)
    {
      hide KidsOk, FormsOk, ParentsOk, Ledger, Dropped, Subtree;
      ghost var sub := Sub(c);
      Destroy(c, sub);
      FreedBy(old(nodes), old(sh), c, sub);
    }

    /** Appends child to a list. Only a refusal of the arguments leaves child
        alone; every other failure has freed it, whole and once. */
    method Push(arr: Option<Id>, child: Option<Id>, mem: Memory) returns (code: Code)
      requires Valid() && (arr.Some? ==> arr.value in nodes) && (child.Some? ==> child.value in nodes)
      requires mem.insert in {Success, NotEnoughMemory, ContainerFull}
      modifies this
      ensures Valid() && next == old(next)
      ensures BadPush(old(nodes), arr, child) <==>
        child.None? || arr.None? || child == arr || old(nodes)[child.value].attached || old(nodes)[arr.value].kind != ListKind
      ensures BadPush(old(nodes), arr, child) ==> code == InvalidArgs
      ensures code == InvalidArgs ==> (BadPush(old(nodes), arr, child) || Cycle(old(nodes), old(sh), arr, child)) && nodes == old(nodes) && freed == old(freed)
      ensures code == Success ==>
        && !BadPush(old(nodes), arr, child) && !Cycle(old(nodes), old(sh), arr, child) && freed == old(freed)
        && Others(old(nodes), old(sh), nodes, {arr.value, child.value}, None)
        && nodes[arr.value] == old(nodes)[arr.value].(kids := old(nodes)[arr.value].kids + [child.value])
        && nodes[child.value] == old(nodes)[child.value].(attached := true)
      ensures code in {Success, InvalidArgs, NotEnoughMemory, mem.insert}
      ensures code != Success && code != InvalidArgs ==> child.Some? && FreedAll(old(nodes), old(sh), child.value, nodes)
      ensures mem.stack >= |old(nodes)| ==>
        code == if BadPush(old(nodes), arr, child) || Cycle(old(nodes), old(sh), arr, child) then InvalidArgs else mem.insert
    {
      hide KidsOk, FormsOk, ParentsOk, Ledger, Attach, AttachShape, Holds;
      if child.None? { return InvalidArgs; }
      var c := child.value;
      if nodes[c].attached || child == arr { return InvalidArgs; }
      if arr.None? || nodes[arr.value].kind != ListKind { return InvalidArgs; }
      var n := arr.value;
      var found, incomplete := Reaches(c, n, mem.stack);
      if found { return InvalidArgs; }
      if incomplete {
        TakeAndFree(c);
        return NotEnoughMemory;
      }
      if mem.insert != Success {
        TakeAndFree(c);
        return mem.insert;
      }
      ghost var sub := Sub(c);
      AttachForest(nodes, sh, n, |nodes[n].kids|, c, nodes[n].keys, sub);
      AttachIs(nodes, sh, n, |nodes[n].kids|, c, nodes[n].keys);
      assert nodes[n].kids[..|nodes[n].kids|] + [c] + nodes[n].kids[|nodes[n].kids|..] == nodes[n].kids + [c];
      sh := AttachShape(nodes, sh, n, c, sub);
      nodes := Attach(nodes, n, |nodes[n].kids|, c, nodes[n].keys);
      code := Success;
    }

    /** Inserts child under a key, or replaces and frees what the key held, in the
        same place. Setting a key to what it holds does nothing. */
    method Set(obj: Option<Id>, key: Option<Key>, child: Option<Id>, mem: Memory) returns (code: Code)
      requires Valid() && (obj.Some? ==> obj.value in nodes) && (child.Some? ==> child.value in nodes)
      requires mem.insert in {Success, NotEnoughMemory, ContainerFull}
      modifies this
      ensures Valid() && next == old(next)
      ensures BadSet(old(nodes), obj, key, child) <==>
        || child.None? || obj.None? || key.None? || child == obj || old(nodes)[obj.value].kind != DictKind
        || (old(nodes)[child.value].attached && !Under(old(nodes)[obj.value].keys, old(nodes)[obj.value].kids, key.value, child.value))
      ensures BadSet(old(nodes), obj, key, child) ==> code == InvalidArgs
      ensures code == InvalidArgs ==> (BadSet(old(nodes), obj, key, child) || Cycle(old(nodes), old(sh), obj, child)) && nodes == old(nodes) && freed == old(freed)
      ensures code == Success ==>
        && !BadSet(old(nodes), obj, key, child) && !Cycle(old(nodes), old(sh), obj, child)
        && if old(nodes)[child.value].attached then nodes == old(nodes) && freed == old(freed)
           else
             var n, c, o, i := obj.value, child.value, old(nodes)[obj.value], IndexOf(old(nodes)[obj.value].keys, key.value);
             && |o.keys| == |o.kids|
             && Others(old(nodes), old(sh), nodes, {n, c}, if i < |o.keys| then Some(o.kids[i]) else None)
             && n in nodes && c in nodes && nodes[c] == old(nodes)[c].(attached := true)
             && nodes[n] == (if i < |o.keys| then o.(kids := o.kids[i := c]) else o.(kids := o.kids + [c], keys := o.keys + [key.value]))
      ensures code in {Success, InvalidArgs, NotEnoughMemory, mem.insert}
      ensures code != Success && code != InvalidArgs ==> child.Some? && FreedAll(old(nodes), old(sh), child.value, nodes)
      ensures mem.stack >= |old(nodes)| ==>
        code == if BadSet(old(nodes), obj, key, child) || Cycle(old(nodes), old(sh), obj, child) then InvalidArgs
                else if key.value in old(nodes)[obj.value].keys then Success else mem.insert
    {
      hide KidsOk, FormsOk, ParentsOk, Ledger, Attach, Holds, Under, Others;
      if child.None? { return InvalidArgs; }
      var c := child.value;
      if child == obj { return InvalidArgs; }
      if obj.None? || nodes[obj.value].kind != DictKind || key.None? { return InvalidArgs; }
      var n, k := obj.value, key.value;
      var i := IndexOf(nodes[n].keys, k);
      KeysMatch(nodes, sh, n);
      UnderIs(nodes, sh, n, k, c);
      if nodes[c].attached {
        if i < |nodes[n].keys| && nodes[n].kids[i] == c {
          KidHoldsNot(nodes, sh, n, i);
          return Success;
        }
        return InvalidArgs;
      }
      var found, incomplete := Reaches(c, n, mem.stack);
      if found { return InvalidArgs; }
      if incomplete {
        TakeAndFree(c);
        return NotEnoughMemory;
      }
      if i < |nodes[n].keys| {
        ReplaceAt(n, i, c);
        return Success;
      }
      if mem.insert != Success {
        TakeAndFree(c);
        return mem.insert;
      }
      AddMember(n, k, c);
      code := Success;
    }

    method AddMember(n: Id, k: Key, c: Id)
      requires Valid() && n in nodes && c in nodes && n != c && !nodes[c].attached && nodes[n].kind == DictKind && k !in nodes[n].keys
      requires ParentsOk(nodes, sh) && !Holds(nodes, sh, c, n)
      modifies this
      ensures Valid() && next == old(next) && freed == old(freed)
      ensures Others(old(nodes), old(sh), nodes, {n, c}, None)
      ensures n in nodes && nodes[n] == old(nodes)[n].(kids := old(nodes)[n].kids + [c], keys := old(nodes)[n].keys + [k])
      ensures c in nodes && nodes[c] == old(nodes)[c].(attached := true)
    {
      hide KidsOk, FormsOk, ParentsOk, Ledger, Attach, AttachShape, Holds, Others;
      ghost var sub := Sub(c);
      MemberForm(nodes, sh, n, k, c);
      AttachForest(nodes, sh, n, |nodes[n].kids|, c, nodes[n].keys + [k], sub);
      AttachIs(nodes, sh, n, |nodes[n].kids|, c, nodes[n].keys + [k]);
      assert nodes[n].kids[..|nodes[n].kids|] + [c] + nodes[n].kids[|nodes[n].kids|..] == nodes[n].kids + [c];
      sh := AttachShape(nodes, sh, n, c, sub);
      nodes := Attach(nodes, n, |nodes[n].kids|, c, nodes[n].keys + [k]);
    }

    /** Puts c in the place of n's child at i and frees that child's tree. */
    method ReplaceAt(n: Id, i: nat, c: Id)
      requires Valid() && n in nodes && c in nodes && n != c && !nodes[c].attached && nodes[n].kind == DictKind && i < |nodes[n].kids|
      requires ParentsOk(nodes, sh) && !Holds(nodes, sh, c, n)
      modifies this
      ensures Valid() && next == old(next) && Others(old(nodes), old(sh), nodes, {n, c}, Some(old(nodes)[n].kids[i]))
      ensures n in nodes && nodes[n] == old(nodes)[n].(kids := old(nodes)[n].kids[i := c])
      ensures c in nodes && nodes[c] == old(nodes)[c].(attached := true)
    {
      hide KidsOk, FormsOk, ParentsOk, Ledger, Attach, AttachShape, Holds, Detach, DetachShape, Subtree, Dropped, Others;
      ghost var start, shape := nodes, sh;
      var was, keys := nodes[n].kids[i], nodes[n].keys;
      DetachOk(nodes, sh, n, i);
      DetachKeys(nodes, n, i);
      DetachHolds(nodes, sh, n, i, c, n);
      DetachNode(nodes, sh, n, i, c);
      nodes := Detach(nodes, n, i);
      sh := DetachShape(sh, was);
      ghost var sub := Sub(c);
      AttachForest(nodes, sh, n, i, c, keys, sub);
      AttachKeys(nodes, n, i, c, keys);
      sh := AttachShape(nodes, sh, n, c, sub);
      nodes := Attach(nodes, n, i, c, keys);
      ghost var gone := Sub(was);
      AttachOther(Detach(start, n, i), n, i, c, keys, was);
      Destroy(was, gone);
      ReplaceIs(start, shape, n, i, c, sub, gone);
    }

    method ListRemove(arr: Option<Id>, i: nat) returns (code: Code)
      requires Valid() && (arr.Some? ==> arr.value in nodes)
      modifies this
      ensures Valid() && next == old(next)
      ensures code == if arr.Some? && old(nodes)[arr.value].kind == ListKind && i < |old(nodes)[arr.value].kids| then Success else InvalidArgs
      ensures code == InvalidArgs ==> nodes == old(nodes) && freed == old(freed)
      ensures code == Success ==>
        var n, o := arr.value, old(nodes)[arr.value];
        && Others(old(nodes), old(sh), nodes, {n}, Some(o.kids[i]))
        && n in nodes && nodes[n].kids == o.kids[..i] + o.kids[i + 1..] && nodes[n].kind == o.kind && nodes[n].attached == o.attached
    {
      hide KidsOk, FormsOk, ParentsOk, Ledger, Forest, Others;
      if arr.None? || nodes[arr.value].kind != ListKind || i >= |nodes[arr.value].kids| { return InvalidArgs; }
      Discard(arr.value, i);
      code := Success;
    }

    method DictRemove(obj: Option<Id>, key: Option<Key>) returns (code: Code)
      requires Valid() && (obj.Some? ==> obj.value in nodes)
      modifies this
      ensures Valid() && next == old(next)
      ensures code == if obj.None? || key.None? || old(nodes)[obj.value].kind != DictKind then InvalidArgs
                      else if key.value in old(nodes)[obj.value].keys then Success else KeyNotFound
      ensures code != Success ==> nodes == old(nodes) && freed == old(freed)
      ensures code == Success ==>
        var n, o, i := obj.value, old(nodes)[obj.value], IndexOf(old(nodes)[obj.value].keys, key.value);
        && i < |o.kids| && Others(old(nodes), old(sh), nodes, {n}, Some(o.kids[i]))
        && n in nodes && nodes[n] == o.(kids := o.kids[..i] + o.kids[i + 1..], keys := o.keys[..i] + o.keys[i + 1..])
    {
      hide KidsOk, FormsOk, ParentsOk, Ledger, Others;
      if obj.None? || key.None? || nodes[obj.value].kind != DictKind { return InvalidArgs; }
      KeysMatch(nodes, sh, obj.value);
      var i := IndexOf(nodes[obj.value].keys, key.value);
      if i == |nodes[obj.value].keys| { return KeyNotFound; }
      Discard(obj.value, i);
      code := Success;
    }
  }

  // ---------------------------------------------------------------------
  // What the calls promise
  // ---------------------------------------------------------------------

  /** The arguments a push refuses whatever the trees are. */
  predicate BadPush(nodes: Nodes, arr: Option<Id>, child: Option<Id>) {
    || child.None? || child == arr || arr.None?
    || (child.value in nodes && nodes[child.value].attached) || (arr.value in nodes && nodes[arr.value].kind != ListKind)
  }

  /** One of the members has this key and this child. */
  ghost predicate Under(keys: seq<Key>, kids: seq<Id>, k: Key, c: Id) {
    exists i: nat :: i < |keys| && i < |kids| && keys[i] == k && kids[i] == c
  }

  lemma UnderIs(nodes: Nodes, sh: Shape, n: Id, k: Key, c: Id)
    requires Forest(nodes, sh) && n in nodes && nodes[n].kind == DictKind
    ensures HeldUnder(nodes, n, k, c) <==> Under(nodes[n].keys, nodes[n].kids, k, c)
  {
    hide KidsOk, ParentsOk;
    assert FormOk(nodes[n]);
    var i := IndexOf(nodes[n].keys, k);
    assert forall j :: 0 <= j < |nodes[n].keys| && nodes[n].keys[j] == k ==> i == j;
  }

  /** The key already holds this child. */
  predicate HeldUnder(nodes: Nodes, n: Id, k: Key, c: Id) {
    n in nodes && var i := IndexOf(nodes[n].keys, k); i < |nodes[n].keys| && i < |nodes[n].kids| && nodes[n].kids[i] == c
  }

  predicate BadSet(nodes: Nodes, obj: Option<Id>, key: Option<Key>, child: Option<Id>) {
    || child.None? || child == obj || obj.None? || key.None? || (obj.value in nodes && nodes[obj.value].kind != DictKind)
    || (child.value in nodes && nodes[child.value].attached && !HeldUnder(nodes, obj.value, key.value, child.value))
  }

  /** The child already holds the container. */
  ghost predicate Cycle(nodes: Nodes, sh: Shape, into: Option<Id>, child: Option<Id>) {
    into.Some? && child.Some? && into.value in nodes && ParentsOk(nodes, sh) && Holds(nodes, sh, child.value, into.value)
  }

  /** Exactly the tree of c is gone. */
  ghost predicate FreedAll(nodes: Nodes, sh: Shape, c: Id, after: Nodes) {
    ParentsOk(nodes, sh) && after.Keys <= nodes.Keys && forall m :: m in nodes ==> (m in after <==> !Holds(nodes, sh, c, m)) && (m in after ==> after[m] == nodes[m])
  }

  lemma FreedBy(nodes: Nodes, sh: Shape, c: Id, sub: set<Id>)
    requires ParentsOk(nodes, sh) && Subtree(nodes, sh, c, sub)
    ensures FreedAll(nodes, sh, c, Dropped(nodes, sub))
  {
  }

  /** Of the nodes only the tree of lost is gone, and but for mine the others are
      as they were. */
  ghost predicate Others(nodes: Nodes, sh: Shape, after: Nodes, mine: set<Id>, lost: Option<Id>) {
    && ParentsOk(nodes, sh) && after.Keys <= nodes.Keys
    && forall m :: m in nodes ==>
      && (m in after <==> lost.None? || !Holds(nodes, sh, lost.value, m))
      && (m in after && m !in mine ==> after[m] == nodes[m])
  }

  lemma AttachIs(nodes: Nodes, sh: Shape, n: Id, i: nat, c: Id, keys: seq<Key>)
    requires ParentsOk(nodes, sh) && n in nodes && c in nodes && n != c && i <= |nodes[n].kids|
    ensures var u := Attach(nodes, n, i, c, keys);
      && u.Keys == nodes.Keys && Others(nodes, sh, u, {n, c}, None) && u[c] == nodes[c].(attached := true)
      && u[n] == nodes[n].(kids := nodes[n].kids[..i] + [c] + nodes[n].kids[i..], keys := keys)
  {
  }

  lemma DiscardIs(nodes: Nodes, sh: Shape, n: Id, i: nat, sub: set<Id>)
    requires Forest(nodes, sh) && n in nodes && i < |nodes[n].kids| && nodes[n].kids[i] in nodes && nodes[n].kids[i] != n
    requires var c := nodes[n].kids[i]; ParentsOk(Detach(nodes, n, i), DetachShape(sh, c)) && Subtree(Detach(nodes, n, i), DetachShape(sh, c), c, sub)
    ensures var u := Dropped(Detach(nodes, n, i), sub);
      Others(nodes, sh, u, {n}, Some(nodes[n].kids[i])) && n in u && u[n] == Removed(nodes[n], i)
  {
    hide KidsOk, FormsOk, ParentsOk, Removed, DetachShape, Holds;
    var c := nodes[n].kids[i];
    var u := Dropped(Detach(nodes, n, i), sub);
    ForestParents(nodes, sh);
    KidHoldsNot(nodes, sh, n, i);
    forall m | m in nodes ensures (m in u <==> !Holds(nodes, sh, c, m)) && (m in u && m != n ==> u[m] == nodes[m]) {
      DetachBelow(nodes, sh, n, i, m);
      HoldsFirst(Detach(nodes, n, i), DetachShape(sh, c), c, m);
    }
  }

  /** A child taken out holds what it held. */
  lemma {:induction false} DetachBelow(nodes: Nodes, sh: Shape, n: Id, i: nat, m: Id)
    requires Forest(nodes, sh) && n in nodes && i < |nodes[n].kids| && m in nodes && nodes[n].kids[i] in nodes
    requires ParentsOk(Detach(nodes, n, i), DetachShape(sh, nodes[n].kids[i]))
    ensures m in Detach(nodes, n, i)
    ensures var c := nodes[n].kids[i]; Holds(Detach(nodes, n, i), DetachShape(sh, c), c, m) <==> Holds(nodes, sh, c, m)
    decreases sh.level[m]
  {
    DetachKeys(nodes, n, i);
    hide KidsOk, FormsOk, Detach;
    var c := nodes[n].kids[i];
    var sh1 := DetachShape(sh, c);
    if m != c && m in sh.parent {
      assert m in sh1.parent && sh.parent[m] == sh1.parent[m];
      DetachBelow(nodes, sh, n, i, sh.parent[m]);
    }
  }

  /** A free-standing tree that does not hold the container holds what it held. */
  lemma {:induction false} AttachAside(nodes: Nodes, sh: Shape, n: Id, i: nat, c: Id, keys: seq<Key>, sub: set<Id>, a: Id, m: Id)
    requires ParentsOk(nodes, sh) && n in nodes && c in nodes && i <= |nodes[n].kids| && !nodes[c].attached && a != c && m in nodes && n in sh.level
    requires ParentsOk(Attach(nodes, n, i, c, keys), AttachShape(nodes, sh, n, c, sub)) && !Holds(nodes, sh, a, n)
    ensures m in Attach(nodes, n, i, c, keys)
    ensures Holds(Attach(nodes, n, i, c, keys), AttachShape(nodes, sh, n, c, sub), a, m) <==> Holds(nodes, sh, a, m)
    decreases var sh2 := AttachShape(nodes, sh, n, c, sub); if m in sh2.level then sh2.level[m] else 0
  {
    AttachKeys(nodes, n, i, c, keys);
    hide Attach;
    var sh2 := AttachShape(nodes, sh, n, c, sub);
    if m == c {
      AttachAside(nodes, sh, n, i, c, keys, sub, a, n);
    } else if m != a && m in sh.parent {
      assert m in sh2.parent && sh.parent[m] == sh2.parent[m];
      AttachAside(nodes, sh, n, i, c, keys, sub, a, sh.parent[m]);
    }
  }

  lemma ReplaceIs(nodes: Nodes, sh: Shape, n: Id, i: nat, c: Id, sub: set<Id>, gone: set<Id>)
    requires Forest(nodes, sh) && n in nodes && c in nodes && n != c && !nodes[c].attached && i < |nodes[n].kids|
    requires nodes[n].kids[i] in nodes && nodes[n].kids[i] != n && nodes[n].kids[i] != c
    requires var was := nodes[n].kids[i]; var t, sh1 := Detach(nodes, n, i), DetachShape(sh, nodes[n].kids[i]);
      && ParentsOk(t, sh1) && n in t && c in t && !t[c].attached && i <= |t[n].kids| && n in sh1.level
      && var u, sh2 := Attach(t, n, i, c, nodes[n].keys), AttachShape(t, sh1, n, c, sub);
         ParentsOk(u, sh2) && Subtree(u, sh2, was, gone)
    ensures var u := Dropped(Attach(Detach(nodes, n, i), n, i, c, nodes[n].keys), gone);
      && Others(nodes, sh, u, {n, c}, Some(nodes[n].kids[i]))
      && n in u && u[n] == nodes[n].(kids := nodes[n].kids[i := c]) && c in u && u[c] == nodes[c].(attached := true)
  {
    hide KidsOk, FormsOk, ParentsOk, DetachShape, AttachShape, Holds;
    var was := nodes[n].kids[i];
    var t, sh1 := Detach(nodes, n, i), DetachShape(sh, was);
    var v, sh2 := Attach(t, n, i, c, nodes[n].keys), AttachShape(t, sh1, n, c, sub);
    var u := Dropped(v, gone);
    ForestParents(nodes, sh);
    KidHoldsNot(nodes, sh, n, i);
    DetachBelow(nodes, sh, n, i, n);
    HoldsFirst(nodes, sh, was, c);
    assert nodes[n].kids[..i] + [c] + nodes[n].kids[i + 1..] == nodes[n].kids[i := c];
    forall m | m in nodes ensures m in v && (m in gone <==> Holds(nodes, sh, was, m)) {
      DetachBelow(nodes, sh, n, i, m);
      AttachAside(t, sh1, n, i, c, nodes[n].keys, sub, was, m);
    }
    HoldsFirst(nodes, sh, was, was);
  }

  lemma KeysMatch(nodes: Nodes, sh: Shape, n: Id)
    requires Forest(nodes, sh) && n in nodes
    ensures ParentsOk(nodes, sh) && (nodes[n].kind == DictKind ==> |nodes[n].keys| == |nodes[n].kids|)
  {
    hide KidsOk, ParentsOk;
    assert FormOk(nodes[n]);
  }

  lemma MemberForm(nodes: Nodes, sh: Shape, n: Id, k: Key, c: Id)
    requires Forest(nodes, sh) && n in nodes && nodes[n].kind == DictKind && k !in nodes[n].keys
    ensures FormOk(Inserted(nodes[n], |nodes[n].kids|, c, nodes[n].keys + [k]))
  {
    hide KidsOk, ParentsOk;
    assert FormOk(nodes[n]);
  }

  lemma AttachForest(nodes: Nodes, sh: Shape, n: Id, i: nat, c: Id, keys: seq<Key>, sub: set<Id>)
    requires Forest(nodes, sh) && n in nodes && c in nodes && n != c && !nodes[c].attached && i <= |nodes[n].kids|
    requires Subtree(nodes, sh, c, sub) && !Holds(nodes, sh, c, n)
    requires nodes[n].kind == ListKind || (nodes[n].kind == DictKind && FormOk(Inserted(nodes[n], i, c, keys)))
    ensures n in sh.level && Forest(Attach(nodes, n, i, c, keys), AttachShape(nodes, sh, n, c, sub))
  {
    hide KidsOk, FormsOk;
    SubtreeIs(nodes, sh, c, sub, n);
    AttachOk(nodes, sh, n, i, c, keys, sub);
  }

  lemma AttachKeys(nodes: Nodes, n: Id, i: nat, c: Id, keys: seq<Key>)
    requires n in nodes && c in nodes && i <= |nodes[n].kids|
    ensures Attach(nodes, n, i, c, keys).Keys == nodes.Keys
  {
  }

  lemma AttachOther(nodes: Nodes, n: Id, i: nat, c: Id, keys: seq<Key>, m: Id)
    requires n in nodes && c in nodes && i <= |nodes[n].kids| && m in nodes && m != c && m != n
    ensures Attach(nodes, n, i, c, keys)[m] == nodes[m]
  {
  }

  /** Taking a child out adds no holder. */
  lemma {:induction false} DetachHolds(nodes: Nodes, sh: Shape, n: Id, i: nat, a: Id, m: Id)
    requires Forest(nodes, sh) && n in nodes && i < |nodes[n].kids| && m in nodes
    requires nodes[n].kids[i] in nodes && ParentsOk(Detach(nodes, n, i), DetachShape(sh, nodes[n].kids[i])) && m in Detach(nodes, n, i)
    ensures Holds(Detach(nodes, n, i), DetachShape(sh, nodes[n].kids[i]), a, m) ==> Holds(nodes, sh, a, m)
    decreases sh.level[m]
  {
    hide KidsOk, FormsOk, Detach;
    var sh1 := DetachShape(sh, nodes[n].kids[i]);
    if m in sh1.parent && m != a {
      assert m in sh.parent && sh.parent[m] == sh1.parent[m];
      DetachHolds(nodes, sh, n, i, a, sh.parent[m]);
    }
  }

  lemma DetachNode(nodes: Nodes, sh: Shape, n: Id, i: nat, c: Id)
    requires Forest(nodes, sh) && n in nodes && i < |nodes[n].kids| && c in nodes && !nodes[c].attached && nodes[n].kind == DictKind
    requires nodes[n].kids[i] in nodes && nodes[n].kids[i] != n && n != c
    ensures var t := Detach(nodes, n, i);
      && !t[c].attached && nodes[n].kids[i] != c && t[n].kind == DictKind && i <= |t[n].kids|
      && FormOk(Inserted(t[n], i, c, nodes[n].keys))
  {
    assert nodes[n].kids[i] in nodes[n].kids;
    assert FormOk(nodes[n]);
    hide KidsOk, ParentsOk, FormsOk;
  }

  lemma DetachKeys(nodes: Nodes, n: Id, i: nat)
    requires n in nodes && i < |nodes[n].kids| && nodes[n].kids[i] in nodes
    ensures Detach(nodes, n, i).Keys == nodes.Keys && !Detach(nodes, n, i)[nodes[n].kids[i]].attached
  {
  }

  lemma HoldsFirst(nodes: Nodes, sh: Shape, c: Id, n: Id)
    requires ParentsOk(nodes, sh) && n in nodes && c in nodes
    ensures c == n ==> Holds(nodes, sh, c, n)
    ensures c != n && !nodes[n].attached ==> !Holds(nodes, sh, c, n)
  {
  }

  /** A holder stands no deeper than what it holds. */
  lemma {:induction false} HoldsLevel(nodes: Nodes, sh: Shape, a: Id, n: Id)
    requires ParentsOk(nodes, sh) && n in nodes && Holds(nodes, sh, a, n)
    ensures a in nodes && sh.level[a] <= sh.level[n]
    decreases sh.level[n]
  {
    if n != a { HoldsLevel(nodes, sh, a, sh.parent[n]); }
  }

  lemma KidHoldsNot(nodes: Nodes, sh: Shape, n: Id, i: nat)
    requires Forest(nodes, sh) && n in nodes && i < |nodes[n].kids|
    ensures !Holds(nodes, sh, nodes[n].kids[i], n)
  {
    hide Holds, FormsOk;
    var c := nodes[n].kids[i];
    assert c in nodes[n].kids;
    if Holds(nodes, sh, c, n) { HoldsLevel(nodes, sh, c, n); }
  }

  lemma {:induction false} DistinctSize(s: seq<Id>, all: set<Id>)
    requires NoRepeat(s) && forall n :: n in s ==> n in all
    ensures |s| <= |all|
  {
    if s != [] {
      var rest, n := s[..|s| - 1], s[|s| - 1];
      forall m | m in rest ensures m in all - {n} {}
      DistinctSize(rest, all - {n});
    }
  }

  /** What is left to do is never more than what is live. */
  lemma StackFits(nodes: Nodes, sh: Shape, a: Id, done: set<Id>, todo: seq<Id>)
    requires ParentsOk(nodes, sh) && Walking(nodes, sh, a, done, todo)
    ensures |todo| <= |nodes|
  {
    DistinctSize(todo, nodes.Keys);
  }

  lemma WalkHolds(nodes: Nodes, sh: Shape, a: Id, done: set<Id>, todo: seq<Id>, n: Id)
    requires ParentsOk(nodes, sh) && Walking(nodes, sh, a, done, todo) && n in todo
    ensures n in nodes && Holds(nodes, sh, a, n)
  {
  }

  lemma SubtreeIs(nodes: Nodes, sh: Shape, a: Id, s: set<Id>, n: Id)
    requires ParentsOk(nodes, sh) && Subtree(nodes, sh, a, s) && n in nodes
    ensures n in s <==> Holds(nodes, sh, a, n)
  {
  }

  lemma SmallerRest(all: set<Id>, done: set<Id>, n: Id)
    requires n in all && n !in done
    ensures |all - (done + {n})| < |all - done|
  {
    assert all - (done + {n}) == (all - done) - {n};
  }

  lemma ForestParents(nodes: Nodes, sh: Shape)
    requires Forest(nodes, sh)
    ensures ParentsOk(nodes, sh)
  {
  }

  lemma DropNothing(nodes: Nodes)
    ensures Dropped(nodes, {}) == nodes
  {
  }

  lemma FreeStep(start: Nodes, done: set<Id>, n: Id)
    requires n in start && n !in done
    ensures var nodes := Dropped(start, done);
      && n in nodes && nodes[n] == start[n] && Dropped(start, done + {n}) == nodes - {n}
      && (nodes - {n}).Keys == nodes.Keys - {n} && |nodes - {n}| < |nodes|
  {
    var nodes := Dropped(start, done);
    assert Dropped(start, done + {n}) == nodes - {n};
    assert (nodes - {n}).Keys == nodes.Keys - {n};
  }

  lemma CreateOk(nodes: Nodes, sh: Shape, n: Id, kind: Kind)
    requires Forest(nodes, sh) && n !in nodes
    ensures Forest(nodes[n := Node(kind, [], [], false)], sh.(level := sh.level[n := 0]))
  {
    hide KidsOk, ParentsOk, NoRepeat;
    CreateKids(nodes, sh, n, kind);
    CreateParents(nodes, sh, n, kind);
  }

  lemma CreateKids(nodes: Nodes, sh: Shape, n: Id, kind: Kind)
    requires KidsOk(nodes, sh) && n !in nodes
    ensures KidsOk(nodes[n := Node(kind, [], [], false)], sh.(level := sh.level[n := 0]))
  {
    hide NoRepeat;
    NoKids();
  }

  lemma CreateParents(nodes: Nodes, sh: Shape, n: Id, kind: Kind)
    requires ParentsOk(nodes, sh) && n !in nodes
    ensures ParentsOk(nodes[n := Node(kind, [], [], false)], sh.(level := sh.level[n := 0]))
  {
  }

  lemma NoKids()
    ensures NoRepeat<Id>([])
  {
  }

  lemma OneSubtree(nodes: Nodes, sh: Shape, a: Id, s: set<Id>, t: set<Id>)
    requires ParentsOk(nodes, sh) && Subtree(nodes, sh, a, s) && Subtree(nodes, sh, a, t)
    ensures s == t
  {
  }
}
