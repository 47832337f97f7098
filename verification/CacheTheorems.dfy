// What holds over whole executions of the cache, for every interleaving, every
// allocation failure and every answer of the remote source.

module CacheTheorems {
  import opened Options
  import opened Orders
  import opened SequentialLru
  import opened CacheSegment
  import opened CacheInvariant
  import opened CacheRegions
  import opened CacheProtocol

  ghost predicate Execution(b: seq<System>, l: seq<Step>) {
    && |b| == |l| + 1
    && Init(b[0])
    && forall i :: 0 <= i < |l| ==> Next(b[i], l[i], b[i + 1])
  }

  /** The sequential operations of the first n steps. */
  ghost function Ops(b: seq<System>, l: seq<Step>, n: nat): seq<Op>
    requires Execution(b, l) && n <= |l|
  {
    if n == 0 then [] else
      assert Next(b[n - 1], l[n - 1], b[n]);
      Ops(b, l, n - 1) + [OpOf(b[n - 1], l[n - 1])]
  }

  /** Every execution has the contents, the eviction order and the evictions of a
      sequential run in which each set happens when its remote setter has
      returned and a failed set does not happen at all; and a segment never
      holds more entries than its capacity. */
  lemma {:induction false} ExecutionIsSequential(b: seq<System>, l: seq<Step>, n: nat)
    requires Execution(b, l) && n <= |l|
    ensures Inv(b[n]) && b[n].seg.cap == b[0].seg.cap > 0 && b[n].seg.hasSetter == b[0].seg.hasSetter
    ensures View(b[n].seg) == ApplyAll(Lru([], []), b[0].seg.cap, Ops(b, l, n))
    ensures |View(b[n].seg).items| == b[n].seg.size <= b[0].seg.cap
  {
    hide Next, Inv, View, Init;
    if n == 0 {
      Empty(b[0]);
    } else {
      ExecutionIsSequential(b, l, n - 1);
      assert Next(b[n - 1], l[n - 1], b[n]);
      StepRefines(b[n - 1], l[n - 1], b[n]);
      var ops := Ops(b, l, n);
      assert ops[..n - 1] == Ops(b, l, n - 1) by { OpsLength(b, l, n - 1); }
    }
    Bounded(b[n]);
  }

  lemma Empty(a: System)
    requires Init(a)
    ensures Inv(a) && a.seg.cap > 0 && View(a.seg) == Lru([], [])
  {
    InitInv(a);
  }

  lemma Bounded(a: System)
    requires Inv(a)
    ensures |View(a.seg).items| == a.seg.size <= a.seg.cap
  {
    hide RefsInv, CountInv, OwnerInv;
  }

  lemma {:induction false} OpsLength(b: seq<System>, l: seq<Step>, n: nat)
    requires Execution(b, l) && n <= |l|
    ensures |Ops(b, l, n)| == n
  {
    hide Next;
    if n > 0 { OpsLength(b, l, n - 1); }
  }

  lemma Reachable(b: seq<System>, l: seq<Step>, n: nat)
    requires Execution(b, l) && n <= |l|
    ensures Inv(b[n]) && b[n].seg.hasSetter == b[0].seg.hasSetter
    ensures n < |l| ==> Next(b[n], l[n], b[n + 1]) && Guard(b[n], l[n])
  {
    assert n < |l| ==> Next(b[n], l[n], b[n + 1]);
    hide Next, Inv, View;
    ExecutionIsSequential(b, l, n);
  }

  // ---------------------------------------------------------------------
  // Single flight and memory
  // ---------------------------------------------------------------------

  /** At most one remote call per key: two calls that work on an entry work on
      different keys. */
  lemma SingleFlight(a: System, c: Call, d: Call)
    requires Inv(a) && c in a.calls && d in a.calls && c != d && Owns(a.calls[c]) && Owns(a.calls[d])
    ensures a.calls[c].k != a.calls[d].k
  {
    hide OrderInv, CountInv;
    var x, y := Ref(a.calls[c]).value, Ref(a.calls[d]).value;
    assert OwnerOf(a.calls, c, x) && OwnerOf(a.calls, d, y);
    OwnEntry(a, c);
    OwnEntry(a, d);
    EntryFacts(a.seg, x);
    EntryFacts(a.seg, y);
  }

  /** No entry is freed while a call can still reach it, and no entry outlives
      both the index and its last reference. */
  lemma NoDanglingNoLeak(a: System)
    requires Inv(a)
    ensures forall c :: c in a.calls && Ref(a.calls[c]).Some? ==> Ref(a.calls[c]).value in a.seg.entries
    ensures forall x :: x in a.seg.entries && (forall k :: k in a.seg.index ==> a.seg.index[k] != x) ==>
              exists c :: c in a.calls && Ref(a.calls[c]) == Some(x)
  {
    hide OrderInv, OwnerInv;
    forall x | x in a.seg.entries && (forall k :: k in a.seg.index ==> a.seg.index[k] != x)
      ensures exists c :: c in a.calls && Ref(a.calls[c]) == Some(x)
    {
      assert a.seg.entries[x].evicted;
      assert |Holders(a.calls, x)| > 0;
      var c :| c in Holders(a.calls, x);
    }
  }

  /** Once every call has returned, the only entries left are the live ones. */
  lemma QuietMeansLive(a: System, x: Id)
    requires Inv(a) && (forall c :: c in a.calls ==> a.calls[c].Done?) && x in a.seg.entries
    ensures a.seg.entries[x].inLru && a.seg.entries[x].waiters == 0 && !Busy(a.seg.entries[x])
  {
    hide OrderInv, IndexInv, RefsInv;
    EntryFacts(a.seg, x);
    assert Holders(a.calls, x) == {};
    assert forall c :: !OwnerOf(a.calls, c, x);
    assert !FetchingOf(a.seg, x) && !SettingOf(a.seg, x);
  }

  // ---------------------------------------------------------------------
  // Nobody waits for nobody
  // ---------------------------------------------------------------------

  lemma {:induction false} FreshId(s: set<nat>) returns (m: nat)
    ensures forall x :: x in s ==> x < m
  {
    if s == {} { m := 0; } else {
      var y :| y in s;
      var n := FreshId(s - {y});
      m := if y < n then n else y + 1;
      assert forall x :: x in s ==> x == y || x in s - {y};
    }
  }

  /** A call's next step, given an unused address. */
  function NextOf(c: Call, pc: Pc, id: Id): Step
    requires !pc.Done?
  {
    match pc
    case GetStart(_) => GetLock(c, id, None, false)
    case SetStart(_, _) => SetLock(c, id, true, None)
    case GetWait(_, _) => GetWake(c, false)
    case SetWait(_, _, _) => SetWake(c)
    case Fetching(_, _) => RemoteRead(c, None)
    case Setting(_, _, _) => RemoteWrite(c, true)
    case Fetched(_, _, _) => FetchReturn(c, false)
    case SetReplied(_, _, _, _) => SetReturn(c)
  }

  /** Every step whose guard holds can be taken. */
  lemma StepEnabled(a: System, l: Step)
    requires Inv(a) && Guard(a, l)
    ensures exists b :: Next(a, l, b)
  {
    hide Inv, Refines;
    match l
    case CallGet(c, k) =>
      assert Next(a, l, a.(calls := a.calls[c := GetStart(k)]));
    case CallSet(c, k, v) =>
      assert Next(a, l, a.(calls := a.calls[c := SetStart(k, v)]));
    case GetLock(c, id, alloc, oom) =>
      GetLockKeeps(a, a, l);
      assert Next(a, l, Moved(a, c, GetBegin(a.seg, a.calls[c].k, id, alloc, oom)));
    case SetLock(c, id, copied, alloc) =>
      SetLockKeeps(a, a, l);
      assert Next(a, l, Moved(a, c, SetBegin(a.seg, a.calls[c].k, a.calls[c].v, id, copied, alloc)));
    case GetWake(c, oom) =>
      WakeKeeps(a, a, l);
      assert Next(a, l, Moved(a, c, GetResume(a.seg, a.calls[c].k, a.calls[c].id, oom)));
    case SetWake(c) =>
      WakeKeeps(a, a, l);
      assert Next(a, l, Moved(a, c, SetResume(a.seg, a.calls[c].k, a.calls[c].v, a.calls[c].id)));
    case RemoteRead(c, r) =>
      assert Next(a, l, a.(calls := a.calls[c := Fetched(a.calls[c].k, a.calls[c].id, r)]));
    case RemoteWrite(c, ok) =>
      var pc := a.calls[c];
      assert Next(a, l, a.(remote := if ok then a.remote[pc.k := pc.v] else a.remote,
                           calls := a.calls[c := SetReplied(pc.k, pc.v, pc.id, ok)]));
    case FetchReturn(c, oom) =>
      ReturnKeeps(a, a, l);
      assert Next(a, l, Moved(a, c, FetchEnd(a.seg, a.calls[c].id, a.calls[c].r, oom)));
    case SetReturn(c) =>
      ReturnKeeps(a, a, l);
      assert Next(a, l, Moved(a, c, SetEnd(a.seg, a.calls[c].id, a.calls[c].v, a.calls[c].ok)));
  }

  /** While any call is unfinished, some unfinished call can take a step: a call
      that waits does so on an entry whose owner is itself able to move. */
  lemma NoDeadlock(a: System, c: Call)
    requires Inv(a) && c in a.calls && !a.calls[c].Done?
    ensures exists l, b :: !Starts(l) && Next(a, l, b)
  {
    hide SegInv, CountInv, RefsInv;
    var pc := a.calls[c];
    var id := FreshId(a.seg.entries.Keys);
    if Ref(pc).Some? { OwnEntry(a, c); }
    var d := c;
    if (pc.GetWait? || pc.SetWait?) && Busy(a.seg.entries[pc.id]) {
      var x := pc.id;
      assert FetchingOf(a.seg, x) || SettingOf(a.seg, x);
      d :| OwnerOf(a.calls, d, x);
    }
    hide OwnerInv;
    var l := NextOf(d, a.calls[d], id);
    assert Guard(a, l);
    StepEnabled(a, l);
  }

  // ---------------------------------------------------------------------
  // Agreement with the remote store
  // ---------------------------------------------------------------------

  predicate Stores(remote: map<Key, Value>, k: Key, v: Value) { k in remote && remote[k] == v }

  /** A set of k whose remote setter has succeeded and which has not yet retaken
      the lock. */
  ghost predicate Written(a: System, k: Key) {
    exists c :: c in a.calls && a.calls[c].SetReplied? && a.calls[c].k == k && a.calls[c].ok
  }

  ghost predicate RemoteInv(a: System) {
    && (forall i :: 0 <= i < |View(a.seg).items| ==>
          var it := View(a.seg).items[i]; Written(a, it.0) || Stores(a.remote, it.0, it.1))
    && (forall c :: c in a.calls && a.calls[c].SetReplied? && a.calls[c].ok ==>
          Stores(a.remote, a.calls[c].k, a.calls[c].v))
    && (forall c :: c in a.calls && a.calls[c].Fetched? && a.calls[c].r.Some? ==>
          Stores(a.remote, a.calls[c].k, a.calls[c].r.value))
  }

  /** The items after an operation are old ones of other keys, plus what was put. */
  lemma ApplyItems(l: Lru, cap: nat, op: Op, i: nat)
    requires cap > 0 && Distinct(l.items) && i < |Apply(l, cap, op).items|
    ensures var it := Apply(l, cap, op).items[i];
            (op.Put? && it == (op.k, op.v)) || (it in l.items && (op.Put? ==> it.0 != op.k))
  {
    if op.Put? {
      var j := Find(l.items, op.k);
      if j < |l.items| {
        assert forall m :: 0 <= m < |l.items| && m != j ==> l.items[m].0 != op.k;
      }
    }
  }

  lemma ViewDistinct(s: Seg)
    requires SegInv(s)
    ensures Distinct(View(s).items)
  {
    ItemsDistinct(s.entries, s.lru, s.index);
  }

  /** With a remote setter, only a finished fetch or a finished set puts a value
      into the cache, and the remote store holds that value. */
  lemma PutIsStored(a: System, l: Step)
    requires Guard(a, l) && a.seg.hasSetter && RemoteInv(a) && OpOf(a, l).Put?
    ensures Stores(a.remote, OpOf(a, l).k, OpOf(a, l).v) && l.c in a.calls
    ensures !l.RemoteWrite? && (a.calls[l.c].SetReplied? ==> OpOf(a, l).k == a.calls[l.c].k)
  {
  }

  lemma ReplyIsPut(a: System, l: Step)
    requires Guard(a, l) && l.c in a.calls && a.calls[l.c].SetReplied? && a.calls[l.c].ok
    ensures OpOf(a, l) == Put(a.calls[l.c].k, a.calls[l.c].v)
  {
  }

  lemma LockedStepRemote(a: System, l: Step, b: System)
    requires Next(a, l, b) && a.seg.hasSetter && RemoteInv(a) && !l.RemoteRead? && !l.RemoteWrite?
    requires Distinct(View(a.seg).items) && Guard(a, l)
    requires a.seg.cap > 0 && View(b.seg) == Apply(View(a.seg), a.seg.cap, OpOf(a, l))
    ensures RemoteInv(b)
  {
    hide View, Next, OpOf, Guard, Apply;
    CallsAfter(a, l, b);
    forall i | 0 <= i < |View(b.seg).items|
      ensures var it := View(b.seg).items[i]; Written(b, it.0) || Stores(b.remote, it.0, it.1)
    {
      ItemAfter(a, l, b, i);
    }
  }

  lemma ItemAfter(a: System, l: Step, b: System, i: nat)
    requires Guard(a, l) && a.seg.hasSetter && RemoteInv(a) && a.seg.cap > 0 && Distinct(View(a.seg).items)
    requires View(b.seg) == Apply(View(a.seg), a.seg.cap, OpOf(a, l)) && i < |View(b.seg).items|
    requires b.remote == a.remote && forall d :: d in a.calls && d != l.c ==> d in b.calls && b.calls[d] == a.calls[d]
    ensures var it := View(b.seg).items[i]; Written(b, it.0) || Stores(b.remote, it.0, it.1)
  {
    hide View, OpOf, Guard, Apply;
    var op := OpOf(a, l);
    var it := View(b.seg).items[i];
    ApplyItems(View(a.seg), a.seg.cap, op, i);
    if op.Put? && it == (op.k, op.v) {
      PutIsStored(a, l);
    } else {
      var j :| 0 <= j < |View(a.seg).items| && View(a.seg).items[j] == it;
      if Written(a, it.0) {
        var c :| c in a.calls && a.calls[c].SetReplied? && a.calls[c].k == it.0 && a.calls[c].ok;
        if c == l.c { ReplyIsPut(a, l); }
        assert b.calls[c] == a.calls[c];
      }
    }
  }

  /** A locked step moves its own call, never to a point with a remote answer. */
  lemma CallsAfter(a: System, l: Step, b: System)
    requires Next(a, l, b) && !l.RemoteRead? && !l.RemoteWrite?
    ensures b.remote == a.remote && l.c in b.calls && !b.calls[l.c].SetReplied? && !b.calls[l.c].Fetched?
    ensures forall d :: d in a.calls && d != l.c ==> d in b.calls && b.calls[d] == a.calls[d]
    ensures forall d :: d in b.calls && d != l.c ==> d in a.calls
  {
  }

  lemma RemoteStepRemote(a: System, l: Step, b: System)
    requires Inv(a) && Next(a, l, b) && RemoteInv(a) && (l.RemoteRead? || l.RemoteWrite?)
    ensures RemoteInv(b)
  {
    hide SegInv, RefsInv, CountInv, OwnerInv, View;
    assert b.seg == a.seg;
    var c := l.c;
    forall d | d in a.calls && d != c && Owns(a.calls[d]) ensures a.calls[d].k != a.calls[c].k {
      SingleFlight(a, c, d);
    }
    forall i | 0 <= i < |View(b.seg).items|
      ensures var it := View(b.seg).items[i]; Written(b, it.0) || Stores(b.remote, it.0, it.1)
    {
      var it := View(a.seg).items[i];
      if Written(a, it.0) {
        var d :| d in a.calls && a.calls[d].SetReplied? && a.calls[d].k == it.0 && a.calls[d].ok;
        assert b.calls[d] == a.calls[d];
      } else if l.RemoteWrite? && l.ok && it.0 == a.calls[c].k {
        assert b.calls[c].SetReplied? && b.calls[c].k == it.0 && b.calls[c].ok;
      }
    }
  }

  lemma {:induction false} RemoteAlways(b: seq<System>, l: seq<Step>, n: nat)
    requires Execution(b, l) && n <= |l| && b[0].seg.hasSetter
    ensures RemoteInv(b[n])
  {
    hide Next, Inv, View, RemoteInv, Init, OpOf;
    if n == 0 {
      EmptyRemote(b[0]);
    } else {
      RemoteAlways(b, l, n - 1);
      Reachable(b, l, n - 1);
      StepRefines(b[n - 1], l[n - 1], b[n]);
      if l[n - 1].RemoteRead? || l[n - 1].RemoteWrite? {
        RemoteStepRemote(b[n - 1], l[n - 1], b[n]);
      } else {
        DistinctIn(b[n - 1]);
        LockedStepRemote(b[n - 1], l[n - 1], b[n]);
      }
    }
  }

  lemma DistinctIn(a: System)
    requires Inv(a)
    ensures Distinct(View(a.seg).items)
  {
    ViewDistinct(a.seg);
  }

  lemma EmptyRemote(a: System)
    requires Init(a)
    ensures RemoteInv(a)
  {
    InitInv(a);
  }

  /** If the remote store changes only through a cache that has a remote setter,
      every cached key with no set in progress holds the remote store's value. */
  lemma CacheAgreesWithRemote(b: seq<System>, l: seq<Step>, n: nat, k: Key, v: Value)
    requires Execution(b, l) && n <= |l| && b[0].seg.hasSetter
    requires Lookup(View(b[n].seg).items, k) == Some(v)
    requires forall c :: c in b[n].calls && OwnsSet(b[n].calls[c]) ==> b[n].calls[c].k != k
    ensures Stores(b[n].remote, k, v)
  {
    hide Next, Inv, View;
    RemoteAlways(b, l, n);
  }

  /** Without a remote setter a set reaches only the cache, so the agreement above
      is lost at the first set. */
  lemma NoSetterNoAgreement(k: Key, v: Value) returns (b: seq<System>, l: seq<Step>)
    ensures Execution(b, l) && !b[0].seg.hasSetter
    ensures Lookup(View(b[|l|].seg).items, k) == Some(v) && k !in b[|l|].remote
    ensures forall c :: c in b[|l|].calls ==> b[|l|].calls[c].Done?
  {
    var s := Seg(1, false, false, map[], map[], [], 0, []);
    var b0 := System(s, map[], map[]);
    var b1 := b0.(calls := map[0 := SetStart(k, v)]);
    var l1 := SetLock(0, 7, true, None);
    InitInv(b0);
    StepRefines(b0, CallSet(0, k, v), b1);
    SetLockKeeps(b1, b1, l1);
    var b2 := Moved(b1, 0, SetBegin(b1.seg, k, v, 7, true, None));
    assert Next(b1, l1, b2);
    StepRefines(b1, l1, b2);
    b, l := [b0, b1, b2], [CallSet(0, k, v), l1];
    assert Execution(b, l);
    assert OpOf(b1, l1) == Put(k, v);
    assert View(b2.seg).items == [(k, v)];
  }

  // ---------------------------------------------------------------------
  // What a get reports
  // ---------------------------------------------------------------------

  predicate GetOf(pc: Pc, k: Key) {
    (pc.GetStart? || pc.GetWait? || pc.Fetching? || pc.Fetched?) && pc.k == k
  }

  /** Call c is a get of k at every state from `from` to n. */
  ghost predicate Getting(b: seq<System>, c: Call, k: Key, from: nat, n: nat)
    requires n < |b|
  {
    forall i :: from <= i <= n ==> c in b[i].calls && GetOf(b[i].calls[c], k)
  }

  /** At some state from `from` to n the sequential list gave r for k. */
  ghost predicate Gave(b: seq<System>, k: Key, r: Option<Value>, from: nat, n: nat)
    requires n < |b|
  {
    exists i :: from <= i <= n && Lookup(View(b[i].seg).items, k) == r
  }

  lemma LookupLive(s: Seg, x: Id)
    requires SegInv(s) && x in s.entries && s.entries[x].inLru
    ensures Lookup(View(s).items, s.entries[x].key) == s.entries[x].value
  {
    hide IndexInv, Items;
    LiveEntry(s.entries, s.lru, x);
    FindLive(s.entries, s.lru, s.index, x);
    ItemAt(s.entries, s.lru, IndexOf(s.lru, x));
  }

  lemma LookupPlaceholder(s: Seg, x: Id)
    requires SegInv(s) && x in s.entries && !s.entries[x].inLru && !s.entries[x].evicted
    ensures Lookup(View(s).items, s.entries[x].key) == None
  {
    hide IndexInv;
    FindAbsent(s.entries, s.lru, s.index, x);
  }

  lemma LookupUnindexed(s: Seg, k: Key)
    requires SegInv(s) && k !in s.index
    ensures Lookup(View(s).items, k) == None
  {
    forall i | 0 <= i < |s.lru| ensures Items(s.entries, s.lru)[i].0 != k {
      ItemAt(s.entries, s.lru, i);
    }
  }

  /** The state of the entry a waiting get holds can be explained by a moment
      since the get began. */
  ghost predicate Explained(b: seq<System>, c: Call, k: Key, from: nat, n: nat)
    requires n < |b|
  {
    c in b[n].calls && b[n].calls[c].GetWait? && b[n].calls[c].id in b[n].seg.entries ==>
      var e := b[n].seg.entries[b[n].calls[c].id];
      && (e.value.Some? ==> Gave(b, k, e.value, from, n))
      && (e.fetchFailed ==> Gave(b, k, None, from, n))
  }

  lemma {:induction false} WaitExplained(b: seq<System>, l: seq<Step>, c: Call, k: Key, from: nat, n: nat)
    requires Execution(b, l) && from <= n <= |l| && Getting(b, c, k, from, n) && b[from].calls[c].GetStart?
    ensures Explained(b, c, k, from, n)
    decreases n
  {
    hide Next, Inv, View, ValuesKept, PointOf;
    if n == from || !b[n].calls[c].GetWait? { return; }
    WaitExplained(b, l, c, k, from, n - 1);
    Reachable(b, l, n - 1);
    Reachable(b, l, n);
    StepRefines(b[n - 1], l[n - 1], b[n]);
    var x := b[n].calls[c].id;
    OwnEntry(b[n], c);
    if b[n - 1].calls[c] == b[n].calls[c] {
      WaitStep(b, l, c, k, from, n, PointOf(b[n - 1], l[n - 1]));
    } else {
      WaitBegins(b[n - 1], l[n - 1], b[n], c);
      EntryInv(b[n], x);
      if b[n].seg.entries[x].value.Some? {
        assert Lookup(View(b[n].seg).items, k) == b[n].seg.entries[x].value by { LookupIn(b[n], x); }
      }
    }
  }

  lemma EntryInv(a: System, x: Id)
    requires Inv(a) && x in a.seg.entries
    ensures Settled(a.seg.entries[x])
  {
    EntryFacts(a.seg, x);
  }

  lemma LookupIn(a: System, x: Id)
    requires Inv(a) && x in a.seg.entries
    ensures a.seg.entries[x].inLru ==> Lookup(View(a.seg).items, a.seg.entries[x].key) == a.seg.entries[x].value
    ensures a.seg.entries[x].fetching ==> Lookup(View(a.seg).items, a.seg.entries[x].key) == None
  {
    hide RefsInv, CountInv, OwnerInv, SegInv, View;
    EntryFacts(a.seg, x);
    if a.seg.entries[x].inLru { LookupLive(a.seg, x); }
    if a.seg.entries[x].fetching { LookupPlaceholder(a.seg, x); }
  }

  /** A get starts to wait only on an entry that is not dead. */
  lemma WaitBegins(a: System, l: Step, b: System, c: Call)
    requires Inv(a) && Next(a, l, b) && c in a.calls && c in b.calls && b.calls[c].GetWait? && a.calls[c] != b.calls[c]
    requires b.calls[c].id in b.seg.entries
    ensures !b.seg.entries[b.calls[c].id].evicted
  {
    hide RefsInv, CountInv, OwnerInv;
    assert l.GetLock? && l.c == c;
    var k := a.calls[c].k;
    hide SegInv;
    IndexedEntry(a.seg, k);
  }

  lemma WaitStep(b: seq<System>, l: seq<Step>, c: Call, k: Key, from: nat, n: nat, pc: Pc)
    requires Execution(b, l) && from < n <= |l| && Getting(b, c, k, from, n)
    requires Inv(b[n - 1]) && Inv(b[n]) && Explained(b, c, k, from, n - 1)
    requires b[n].calls[c].GetWait? && b[n - 1].calls[c] == b[n].calls[c]
    requires ValuesKept(b[n - 1].seg, b[n].seg, pc)
    ensures Explained(b, c, k, from, n)
  {
    hide Next, Inv, View;
    var x := b[n].calls[c].id;
    OwnEntry(b[n - 1], c);
    OwnEntry(b[n], c);
    var e, f := b[n - 1].seg.entries[x], b[n].seg.entries[x];
    LookupIn(b[n - 1], x);
    LookupIn(b[n], x);
    assert f.value.Some? ==> e.value == f.value || f.inLru;
    assert f.fetchFailed ==> e.fetchFailed || e.fetching;
  }

  /** Every value a get reports, and every "not found", was the sequential
      list's answer at some moment between the start and the end of that get. */
  lemma GetExplained(b: seq<System>, l: seq<Step>, c: Call, k: Key, from: nat, n: nat)
    requires Execution(b, l) && from <= n < |l| && Getting(b, c, k, from, n) && b[from].calls[c].GetStart?
    requires c in b[n + 1].calls && b[n + 1].calls[c].Done?
    ensures var r := b[n + 1].calls[c].code;
            && (r.Success? ==> r.v.Some? && Gave(b, k, r.v, from, n + 1))
            && (r.KeyNotFound? ==> Gave(b, k, None, from, n + 1))
  {
    hide Next, Inv, View, ValuesKept;
    Reachable(b, l, n);
    Reachable(b, l, n + 1);
    WaitExplained(b, l, c, k, from, n);
    LastStep(b[n], l[n], b[n + 1], c, k);
    if b[n].calls[c].GetWait? { GaveLater(b, k, from, n); }
  }

  lemma GaveLater(b: seq<System>, k: Key, from: nat, n: nat)
    requires n + 1 < |b|
    ensures forall r :: Gave(b, k, r, from, n) ==> Gave(b, k, r, from, n + 1)
  {
    hide View;
    forall r | Gave(b, k, r, from, n) ensures Gave(b, k, r, from, n + 1) {
      var i :| from <= i <= n && Lookup(View(b[i].seg).items, k) == r;
      assert from <= i <= n + 1;
    }
  }

  /** How a get ends: with the list's answer before or after its last step, or
      with what the entry it waited on holds. */
  lemma LastStep(a: System, l: Step, b: System, c: Call, k: Key)
    requires Inv(a) && Next(a, l, b) && c in a.calls && GetOf(a.calls[c], k) && c in b.calls && b.calls[c].Done?
    ensures var r := b.calls[c].code;
            && (r.Success? ==> r.v.Some?)
            && if a.calls[c].GetWait? then
                 && a.calls[c].id in a.seg.entries
                 && var e := a.seg.entries[a.calls[c].id];
                    (r.Success? ==> e.value == r.v) && (r.KeyNotFound? ==> e.fetchFailed)
               else
                 var before, after := Lookup(View(a.seg).items, k), Lookup(View(b.seg).items, k);
                 && (r.Success? ==> before == r.v || after == r.v)
                 && (r.KeyNotFound? ==> before == None)
  {
    hide Inv, View, Refines, Next, Guard;
    EndsFrom(a, l, b, c, k);
    StepRefines(a, l, b);
    var pc := a.calls[c];
    if pc.GetStart? { LastLock(a, l, b, c); }
    else if pc.Fetched? { LastFetch(a, l, b, c); }
    else { LastWake(a, l, b, c); }
  }

  /** A get in the middle of its remote call does not end with a step. */
  lemma EndsFrom(a: System, l: Step, b: System, c: Call, k: Key)
    requires Next(a, l, b) && c in a.calls && GetOf(a.calls[c], k) && c in b.calls && b.calls[c].Done?
    ensures Guard(a, l) && !a.calls[c].Fetching?
  {
  }

  lemma LastWake(a: System, l: Step, b: System, c: Call)
    requires Inv(a) && Next(a, l, b) && c in a.calls && a.calls[c].GetWait? && c in b.calls && b.calls[c].Done?
    ensures var r := b.calls[c].code;
            && (r.Success? ==> r.v.Some?)
            && a.calls[c].id in a.seg.entries
            && var e := a.seg.entries[a.calls[c].id];
               (r.Success? ==> e.value == r.v) && (r.KeyNotFound? ==> e.fetchFailed)
  {
    hide Inv;
    OwnEntry(a, c);
    assert l.GetWake? && l.c == c;
  }

  lemma LastLock(a: System, l: Step, b: System, c: Call)
    requires Inv(a) && Next(a, l, b) && c in a.calls && a.calls[c].GetStart? && c in b.calls && b.calls[c].Done?
    ensures var r, before := b.calls[c].code, Lookup(View(a.seg).items, a.calls[c].k);
            && (r.Success? ==> r.v.Some? && before == r.v)
            && (r.KeyNotFound? ==> before == None)
  {
    hide SegInv, RefsInv, CountInv, OwnerInv, View;
    var s, k := a.seg, a.calls[c].k;
    assert l.GetLock? && l.c == c;
    if k in s.index {
      IndexedEntry(s, k);
      if !Busy(s.entries[s.index[k]]) { LookupLive(s, s.index[k]); }
    } else {
      LookupUnindexed(s, k);
    }
  }

  lemma LastFetch(a: System, l: Step, b: System, c: Call)
    requires Inv(a) && Next(a, l, b) && Guard(a, l) && Refines(a, l, b)
    requires c in a.calls && a.calls[c].Fetched? && c in b.calls && b.calls[c].Done?
    ensures var r, k := b.calls[c].code, a.calls[c].k;
            && (r.Success? ==> r.v.Some? && Lookup(View(b.seg).items, k) == r.v)
            && (r.KeyNotFound? ==> Lookup(View(a.seg).items, k) == None)
  {
    hide Inv, View;
    assert l.FetchReturn? && l.c == c;
    OwnEntry(a, c);
    LookupIn(a, a.calls[c].id);
  }
}
