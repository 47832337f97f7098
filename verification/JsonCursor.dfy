// The dictionary cursor under changes: members come in insertion order, and
// each is known by when it was inserted.

module JsonCursor {
  import opened Options
  import opened Orders
  import opened JsonForest
  import opened JsonDom

  /** A dictionary's members in order, with the cursor over them: the member the
      next step reads, and those it has given. `newest` is the number of the next new member. */
  datatype State = State(order: seq<nat>, next: Option<nat>, given: seq<nat>, newest: nat)

  ghost predicate Rising(s: seq<nat>) { forall i, j :: 0 <= i < j < |s| ==> s[i] < s[j] }

  ghost predicate Members(order: seq<nat>, newest: nat) { Rising(order) && forall m :: m in order ==> m < newest }

  /** The member after m. */
  function Successor(order: seq<nat>, m: nat): Option<nat> {
    if order == [] then None
    else if order[0] == m then (if |order| > 1 then Some(order[1]) else None)
    else Successor(order[1..], m)
  }

  function Without(order: seq<nat>, m: nat): seq<nat> {
    if order == [] then [] else if order[0] == m then order[1..] else [order[0]] + Without(order[1..], m)
  }

  datatype Action = Step | Replace(m: nat) | Remove(m: nat) | Insert

  /** Removing the successor is the one change a cursor does not survive. */
  predicate Allowed(s: State, a: Action) { a.Remove? ==> s.next != Some(a.m) }

  function Do(s: State, a: Action): State {
    match a
    case Step => if s.next.None? then s else s.(next := Successor(s.order, s.next.value), given := s.given + [s.next.value])
    case Replace(_) => s
    case Remove(m) => s.(order := Without(s.order, m))
    case Insert => s.(order := s.order + [s.newest], newest := s.newest + 1)
  }

  /** The cursor on the first member, nothing given. */
  function First(order: seq<nat>, newest: nat): State { State(order, if order == [] then None else Some(order[0]), [], newest) }

  ghost predicate Runs(s: State, actions: seq<Action>, t: State)
    decreases |actions|
  {
    if actions == [] then s == t else Allowed(s, actions[0]) && Runs(Do(s, actions[0]), actions[1..], t)
  }

  // ---------------------------------------------------------------------
  // The invariant
  // ---------------------------------------------------------------------

  /** What was given rises and lies before what is to come; every member of the
      start that lies before it was given. */
  ghost predicate Inv(s: State, start: seq<nat>, limit: nat) {
    && Members(s.order, s.newest) && Rising(s.given) && limit <= s.newest
    && (forall m :: m in start ==> m < limit)
    && (s.next.Some? ==> s.next.value in s.order && forall m :: m in s.given ==> m < s.next.value)
    && (forall m :: m in s.order && m < limit && (s.next.Some? ==> m < s.next.value) ==> m in s.given)
  }

  lemma {:induction false} SuccessorIs(order: seq<nat>, m: nat)
    requires Rising(order) && m in order
    ensures match Successor(order, m)
      case None => forall k :: k in order ==> k <= m
      case Some(n) => n in order && m < n && forall k :: k in order ==> k <= m || k >= n
  {
    if order[0] == m {
      forall k | k in order ensures k == m || (|order| > 1 && k >= order[1] > m) {
        var i :| 0 <= i < |order| && order[i] == k;
      }
    } else {
      var t := order[1..];
      assert forall i :: 0 <= i < |t| ==> t[i] == order[i + 1];
      assert forall k :: k in order <==> k == order[0] || k in t;
      SuccessorIs(t, m);
      var i :| 0 <= i < |t| && t[i] == m;
      assert order[0] < order[i + 1];
    }
  }

  lemma {:induction false} WithoutIs(order: seq<nat>, m: nat)
    requires Rising(order)
    ensures Rising(Without(order, m)) && forall k :: k in Without(order, m) <==> k in order && k != m
  {
    if order != [] {
      var t := order[1..];
      assert forall i :: 0 <= i < |t| ==> t[i] == order[i + 1];
      assert forall k :: k in order <==> k == order[0] || k in t;
      WithoutIs(t, m);
      var w := Without(order, m);
      if order[0] != m {
        var u := Without(t, m);
        assert w == [order[0]] + u;
        forall j | 0 <= j < |u| ensures order[0] < u[j] {
          assert u[j] in t;
          var i :| 0 <= i < |t| && t[i] == u[j];
          assert order[0] < order[i + 1];
        }
      } else {
        forall k | k in t ensures k != m {
          var i :| 0 <= i < |t| && t[i] == k;
          assert order[0] < order[i + 1];
        }
      }
    }
  }

  lemma RisingSnoc(s: seq<nat>, x: nat)
    requires Rising(s) && forall m :: m in s ==> m < x
    ensures Rising(s + [x]) && forall m :: m in s + [x] <==> m in s || m == x
  {
    forall i | 0 <= i < |s| ensures s[i] < x { assert s[i] in s; }
    assert (s + [x])[|s|] == x;
  }

  lemma StepKeeps(s: State, start: seq<nat>, limit: nat)
    requires Inv(s, start, limit)
    ensures Inv(Do(s, Step), start, limit)
  {
    if s.next.Some? {
      SuccessorIs(s.order, s.next.value);
      RisingSnoc(s.given, s.next.value);
    }
  }

  lemma ChangeKeeps(s: State, a: Action, start: seq<nat>, limit: nat)
    requires Inv(s, start, limit) && Allowed(s, a) && !a.Step?
    ensures Inv(Do(s, a), start, limit)
  {
    if a.Remove? { WithoutIs(s.order, a.m); }
    if a.Insert? { RisingSnoc(s.order, s.newest); }
  }

  lemma {:induction false} RunsKeep(s: State, actions: seq<Action>, t: State, start: seq<nat>, limit: nat)
    requires Inv(s, start, limit) && Runs(s, actions, t)
    ensures Inv(t, start, limit)
    decreases |actions|
  {
    hide Inv, Do;
    if actions != [] {
      var a := actions[0];
      if a.Step? { StepKeeps(s, start, limit); } else { ChangeKeeps(s, a, start, limit); }
      RunsKeep(Do(s, a), actions[1..], t, start, limit);
    }
  }

  /** Whatever is replaced, removed (but for the successor) or inserted while the
      cursor goes from the first member to the end, every original member that
      is still there was given, none was given twice, and all were given in
      insertion order. */
  lemma CursorVisitsAll(order: seq<nat>, newest: nat, actions: seq<Action>, t: State)
    requires Members(order, newest) && Runs(First(order, newest), actions, t) && t.next.None?
    ensures Rising(t.given)
    ensures forall m :: m in order && m in t.order ==> m in t.given
  {
    var s := First(order, newest);
    assert Inv(s, order, newest) by {
      forall m | m in order ensures order != [] && m >= order[0] { var i :| 0 <= i < |order| && order[i] == m; }
    }
    RunsKeep(s, actions, t, order, newest);
  }

  /** Removing the successor is really excluded: wherever the cursor stands on a
      member that has one, it would step onto a member that is gone. */
  lemma SuccessorMustStay(s: State, i: nat)
    requires Members(s.order, s.newest) && i + 1 < |s.order| && s.next == Some(s.order[i])
    ensures var u, n := Do(s, Step), s.order[i + 1];
      && u.next == Some(n) && !Allowed(u, Remove(n))
      && Do(u, Remove(n)).next == Some(n) && n !in Do(u, Remove(n)).order
  {
    hide Successor, Without;
    SuccessorIs(s.order, s.order[i]);
    assert s.order[i + 1] in s.order;
    WithoutIs(s.order, s.order[i + 1]);
    var after := Successor(s.order, s.order[i]);
    if after.Some? {
      var j :| 0 <= j < |s.order| && s.order[j] == after.value;
      assert j > i;
    }
  }

  // ---------------------------------------------------------------------
  // The cursor over a dictionary node
  // ---------------------------------------------------------------------

  /** A dictionary node, the births of its members, and the keys and children the
      cursor has handed out. */
  datatype Cursor = Cursor(dict: Node, state: State, seen: seq<(Key, Id)>)

  datatype Change = Next | Put(k: Key, child: Id) | Drop(k: Key)

  predicate Tied(c: Cursor) { c.dict.kind == DictKind && FormOk(c.dict) && |c.state.order| == |c.dict.keys| }

  /** What a change of the node is to the births. */
  function Meaning(c: Cursor, a: Change): Action
    requires Tied(c)
  {
    match a
    case Next => Step
    case Put(k, _) => var i := IndexOf(c.dict.keys, k); if i < |c.dict.keys| then Replace(c.state.order[i]) else Insert
    case Drop(k) => var i := IndexOf(c.dict.keys, k); if i < |c.dict.keys| then Remove(c.state.order[i]) else Replace(0)
  }

  /** What setting and removing members make of the node, as the tree calls do. */
  function Changed(d: Node, a: Change): Node
    requires d.kind == DictKind && FormOk(d)
  {
    match a
    case Next => d
    case Put(k, child) =>
      var i := IndexOf(d.keys, k);
      if i < |d.keys| then Inserted(Removed(d, i), i, child, d.keys) else Inserted(d, |d.kids|, child, d.keys + [k])
    case Drop(k) => var i := IndexOf(d.keys, k); if i < |d.keys| then Removed(d, i) else d
  }

  /** The key and the child of the member the cursor steps onto. */
  function Read(c: Cursor): seq<(Key, Id)>
    requires Tied(c)
  {
    if c.state.next.None? then []
    else
      var i := IndexOf(c.state.order, c.state.next.value);
      if i < |c.dict.keys| then [(c.dict.keys[i], c.dict.kids[i])] else []
  }

  function After(c: Cursor, a: Change): Cursor
    requires Tied(c)
  {
    Cursor(Changed(c.dict, a), Do(c.state, Meaning(c, a)), if a.Next? then c.seen + Read(c) else c.seen)
  }

  /** The births of the members a node has at the start are their places. */
  function Start(d: Node): Cursor { Cursor(d, First(seq(|d.keys|, i => i), |d.keys|), []) }

  ghost predicate Walks(c: Cursor, changes: seq<Change>, t: Cursor)
    decreases |changes|
  {
    if changes == [] then c == t
    else Tied(c) && Allowed(c.state, Meaning(c, changes[0])) && Walks(After(c, changes[0]), changes[1..], t)
  }

  /** A member of the start has the key it had then, in the node and in what was
      handed out. */
  ghost predicate Named(d: Node, c: Cursor) {
    && Tied(c) && |c.seen| == |c.state.given|
    && (forall i :: 0 <= i < |c.state.order| && c.state.order[i] < |d.keys| ==> c.dict.keys[i] == d.keys[c.state.order[i]])
    && (forall i :: 0 <= i < |c.seen| && c.state.given[i] < |d.keys| ==> c.seen[i].0 == d.keys[c.state.given[i]])
  }

  lemma {:induction false} WithoutStep(order: seq<nat>, m: nat)
    requires order != []
    ensures Without(order, m) == if order[0] == m then RemoveAt(order, 0) else [order[0]] + Without(order[1..], m)
  {
    assert order[..0] + order[1..] == order[1..];
  }

  lemma CutStep(order: seq<nat>, i: nat)
    requires 0 < i < |order|
    ensures [order[0]] + RemoveAt(order[1..], i - 1) == RemoveAt(order, i)
  {
  }

  lemma {:induction false} WithoutAt(order: seq<nat>, i: nat)
    requires Rising(order) && i < |order|
    ensures Without(order, order[i]) == RemoveAt(order, i)
  {
    hide Without, RemoveAt, Rising;
    WithoutStep(order, order[i]);
    if i > 0 {
      RisingTail(order, i);
      WithoutAt(order[1..], i - 1);
      CutStep(order, i);
    }
  }

  lemma RisingTail(order: seq<nat>, i: nat)
    requires Rising(order) && 0 < i < |order|
    ensures Rising(order[1..]) && order[0] < order[i] && order[1..][i - 1] == order[i]
  {
  }

  lemma CutForm(d: Node, i: nat)
    requires d.kind == DictKind && FormOk(d) && i < |d.keys|
    ensures FormOk(Removed(d, i)) && Removed(d, i).keys == RemoveAt(d.keys, i)
  {
  }

  lemma ChangedForm(d: Node, a: Change)
    requires d.kind == DictKind && FormOk(d)
    ensures var e, i := Changed(d, a), if a.Next? then 0 else IndexOf(d.keys, a.k);
      && e.kind == DictKind && FormOk(e)
      && e.keys == match a
           case Next => d.keys
           case Put(k, _) => if i < |d.keys| then d.keys else d.keys + [k]
           case Drop(k) => if i < |d.keys| then RemoveAt(d.keys, i) else d.keys
  {
    hide IndexOf;
    if a.Drop? && IndexOf(d.keys, a.k) < |d.keys| { CutForm(d, IndexOf(d.keys, a.k)); }
  }

  lemma AfterNamed(d: Node, c: Cursor, a: Change, start: seq<nat>)
    requires Named(d, c) && Inv(c.state, start, |d.keys|) && Allowed(c.state, Meaning(c, a))
    ensures Named(d, After(c, a))
  {
    hide IndexOf, Without, Successor, FormOk, Changed, Read;
    ChangedForm(c.dict, a);
    match a
    case Next => NextNamed(d, c, start);
    case Put(k, _) =>
    case Drop(k) =>
      var i := IndexOf(c.dict.keys, k);
      if i < |c.dict.keys| {
        WithoutAt(c.state.order, i);
        assert After(c, a).state.order == RemoveAt(c.state.order, i);
      }
  }

  lemma NextNamed(d: Node, c: Cursor, start: seq<nat>)
    requires Named(d, c) && Inv(c.state, start, |d.keys|)
    ensures Named(d, After(c, Next))
  {
    hide Successor, FormOk;
  }

  lemma {:induction false} WalksKeep(d: Node, c: Cursor, changes: seq<Change>, t: Cursor, start: seq<nat>)
    requires Named(d, c) && Inv(c.state, start, |d.keys|) && Walks(c, changes, t)
    ensures Named(d, t) && Inv(t.state, start, |d.keys|)
    decreases |changes|
  {
    hide Named, Inv, Do, Changed, Meaning, Allowed, Tied, Read;
    if changes != [] {
      var a := changes[0];
      AfterNamed(d, c, a, start);
      if Meaning(c, a).Step? { StepKeeps(c.state, start, |d.keys|); } else { ChangeKeeps(c.state, Meaning(c, a), start, |d.keys|); }
      WalksKeep(d, After(c, a), changes[1..], t, start);
    }
  }

  /** Over a dictionary node: whatever is set or removed (but for the successor)
      while the cursor goes to the end, each key of the start whose member is still
      there was handed out, and no member was handed out twice. */
  lemma KeysVisited(d: Node, changes: seq<Change>, t: Cursor, i: nat)
    requires d.kind == DictKind && FormOk(d) && Walks(Start(d), changes, t) && t.state.next.None?
    requires i < |d.keys| && i in t.state.order
    ensures exists j :: 0 <= j < |t.seen| && t.seen[j].0 == d.keys[i]
    ensures |t.seen| == |t.state.given| && Rising(t.state.given)
  {
    hide Walks;
    var order := Start(d).state.order;
    assert Inv(Start(d).state, order, |d.keys|);
    WalksKeep(d, Start(d), changes, t, order);
    assert i in t.state.given;
    var j :| 0 <= j < |t.state.given| && t.state.given[j] == i;
    assert t.seen[j].0 == d.keys[i];
  }

  /** A step hands out a member the node has at that moment. */
  lemma HandsOutMember(d: Node, changes: seq<Change>, t: Cursor)
    requires d.kind == DictKind && FormOk(d) && Walks(Start(d), changes, t) && t.state.next.Some?
    ensures Tied(t)
    ensures exists i :: 0 <= i < |t.dict.keys| && i < |t.dict.kids| && After(t, Next).seen == t.seen + [(t.dict.keys[i], t.dict.kids[i])]
  {
    hide Walks;
    var order := Start(d).state.order;
    assert Inv(Start(d).state, order, |d.keys|);
    WalksKeep(d, Start(d), changes, t, order);
    var i := IndexOf(t.state.order, t.state.next.value);
    assert After(t, Next).seen == t.seen + [(t.dict.keys[i], t.dict.kids[i])];
  }
}
