// Gets that wait for another call's fetch. The interface promises them that
// fetch's result; the code lets a set that gets in between overwrite it. This
// file says exactly what such a get reports.

module CoalescedGets {
  import opened Options
  import opened SequentialLru
  import opened CacheSegment
  import opened CacheInvariant
  import opened CacheRegions
  import opened CacheProtocol
  import opened CacheTheorems

  /** Call d waits on entry x at every state from i to j. */
  ghost predicate Waiting(b: seq<System>, d: Call, k: Key, x: Id, i: nat, j: nat)
    requires j < |b|
  {
    forall m :: i <= m <= j ==> d in b[m].calls && b[m].calls[d] == GetWait(k, x) && x in b[m].seg.entries
  }

  // ---------------------------------------------------------------------
  // What one step leaves in an entry
  // ---------------------------------------------------------------------

  /** The step puts a value under k while entry x is the one in the index. */
  ghost predicate PutsInto(a: System, l: Step, k: Key, x: Id)
    requires Guard(a, l)
  {
    OpOf(a, l).Put? && OpOf(a, l).k == k && k in a.seg.index && a.seg.index[k] == x
  }

  /** The step pushes k out of the list while a set owns its entry x. */
  ghost predicate Empties(a: System, l: Step, k: Key, x: Id)
    requires Guard(a, l)
  {
    && SettingOf(a.seg, x) && a.seg.cap > 0
    && Lookup(View(a.seg).items, k).Some?
    && Lookup(Apply(View(a.seg), a.seg.cap, OpOf(a, l)).items, k).None?
  }

  ghost predicate Overwrites(a: System, l: Step, k: Key, x: Id)
    requires Guard(a, l)
  {
    PutsInto(a, l, k, x) || Empties(a, l, k, x)
  }

  ghost function Into(a: System, l: Step, k: Key, x: Id, was: Option<Value>): Option<Value>
    requires Guard(a, l)
  {
    if PutsInto(a, l, k, x) then Some(OpOf(a, l).v) else if Empties(a, l, k, x) then None else was
  }

  /** An operation of the list leaves a key its item, replaces it by its own put,
      or pushes it out. */
  lemma ApplyLookup(l: Lru, cap: nat, op: Op, k: Key)
    requires cap > 0 && Distinct(l.items)
    ensures var after := Lookup(Apply(l, cap, op).items, k);
            if op.Put? && op.k == k then after == Some(op.v) else after == None || after == Lookup(l.items, k)
  {
    var items := Apply(l, cap, op).items;
    var i := Find(items, k);
    if i < |items| && !(op.Put? && op.k == k) {
      ApplyItems(l, cap, op, i);
      hide Apply;
      var j :| 0 <= j < |l.items| && l.items[j] == items[i];
      FindUnique(l.items, j);
    }
  }

  /** The three standings of an entry, against the index and the list. */
  lemma Standing(a: System, x: Id)
    requires Inv(a) && x in a.seg.entries
    ensures var e := a.seg.entries[x]; var found := Lookup(View(a.seg).items, e.key);
            && (!e.evicted <==> e.key in a.seg.index && a.seg.index[e.key] == x)
            && (e.evicted ==> !e.inLru && !e.setting)
            && (e.inLru ==> found == e.value && e.value.Some?)
            && (!e.inLru && !e.evicted ==> found == None && e.value.None?)
  {
    hide RefsInv, CountInv, OwnerInv, OrderInv, View;
    EntryFacts(a.seg, x);
    if a.seg.entries[x].inLru { LookupLive(a.seg, x); }
    else if !a.seg.entries[x].evicted { LookupPlaceholder(a.seg, x); }
  }

  /** A step in which an indexed entry dies leaves its key without an entry. */
  lemma DeadLeavesKey(a: System, b: System, pc: Pc, k: Key, x: Id)
    requires Inv(a) && Inv(b) && ValuesKept(a.seg, b.seg, pc)
    requires k in a.seg.index && a.seg.index[k] == x && x in b.seg.entries && b.seg.entries[x].evicted
    ensures Lookup(View(b.seg).items, k) == None
  {
    hide RefsInv, CountInv, OwnerInv, OrderInv, View;
    assert k !in b.seg.index;
    LookupUnindexed(b.seg, k);
  }

  /** What an entry holds after a step: the value put into it, nothing after an
      eviction during a set, and otherwise what it held. */
  lemma StepInto(a: System, l: Step, b: System, k: Key, x: Id)
    requires Inv(a) && Next(a, l, b) && Guard(a, l)
    requires x in a.seg.entries && x in b.seg.entries && a.seg.entries[x].key == k == b.seg.entries[x].key
    ensures b.seg.entries[x].value == Into(a, l, k, x, a.seg.entries[x].value)
    ensures b.seg.entries[x].fetching ==> a.seg.entries[x].fetching
    ensures b.seg.entries[x].fetchFailed ==> a.seg.entries[x].fetchFailed || a.seg.entries[x].fetching
    ensures a.seg.entries[x].fetchFailed ==> b.seg.entries[x].fetchFailed
  {
    hide Next, Inv, View, OpOf, Guard, Apply, PointOf;
    StepRefines(a, l, b);
    Standing(a, x);
    Standing(b, x);
    DistinctIn(a);
    ApplyLookup(View(a.seg), a.seg.cap, OpOf(a, l), k);
    assert Continues(a.seg.entries[x], b.seg.entries[x]);
    if !a.seg.entries[x].evicted && b.seg.entries[x].evicted { DeadLeavesKey(a, b, PointOf(a, l), k, x); }
  }

  // ---------------------------------------------------------------------
  // What the waiting get finds
  // ---------------------------------------------------------------------

  /** The value last put into entry x by the steps from i to j - 1, None once an
      eviction during a set emptied it, and r if no such step was taken. */
  ghost function LastInto(b: seq<System>, l: seq<Step>, k: Key, x: Id, r: Option<Value>, i: nat, j: nat): Option<Value>
    requires Execution(b, l) && i <= j <= |l|
    decreases j
  {
    if i == j then r else
      assert Next(b[j - 1], l[j - 1], b[j]);
      Into(b[j - 1], l[j - 1], k, x, LastInto(b, l, k, x, r, i, j - 1))
  }

  lemma {:induction false} EntryHolds(b: seq<System>, l: seq<Step>, d: Call, k: Key, x: Id, i: nat, j: nat)
    requires Execution(b, l) && i <= j <= |l| && Waiting(b, d, k, x, i, j)
    ensures b[j].seg.entries[x].value == LastInto(b, l, k, x, b[i].seg.entries[x].value, i, j)
    ensures !b[i].seg.entries[x].fetching ==>
              !b[j].seg.entries[x].fetching && b[j].seg.entries[x].fetchFailed == b[i].seg.entries[x].fetchFailed
    decreases j
  {
    hide Next, Inv, View, Guard, Into;
    if i < j {
      EntryHolds(b, l, d, k, x, i, j - 1);
      Reachable(b, l, j - 1);
      Reachable(b, l, j);
      OwnEntry(b[j - 1], d);
      OwnEntry(b[j], d);
      StepInto(b[j - 1], l[j - 1], b[j], k, x);
    }
  }

  /** What a get that finds `held` in the entry it waited on does next. */
  function Resumed(k: Key, held: Option<Value>, oom: bool): Pc {
    if held.None? then GetStart(k) else if oom then Done(NotEnoughMemory) else Done(Success(held))
  }

  /** A get that waited for another call's fetch reports that fetch's failure; if
      the fetch found a value, the get reports the value last put into the entry
      since then, the fetched one included, and starts over if an eviction during
      a set emptied the entry. */
  lemma CoalescedGetReports(b: seq<System>, l: seq<Step>, c: Call, d: Call, k: Key, x: Id, r: Option<Value>, i: nat, j: nat)
    requires Execution(b, l) && i < j < |l| && Waiting(b, d, k, x, i, j)
    requires l[i].FetchReturn? && l[i].c == c && c in b[i].calls && b[i].calls[c] == Fetched(k, x, r)
    requires l[j].GetWake? && l[j].c == d
    ensures d in b[j + 1].calls
    ensures b[j + 1].calls[d] == if r.None? then Done(KeyNotFound)
                                 else Resumed(k, LastInto(b, l, k, x, r, i + 1, j), l[j].oom)
  {
    hide Inv, LastInto, Guard;
    Reachable(b, l, i);
    Reachable(b, l, i + 1);
    Reachable(b, l, j);
    EntryHolds(b, l, d, k, x, i + 1, j);
    hide Execution;
    FetchMarks(b[i], l[i], b[i + 1], x, r);
    EntryInv(b[i + 1], x);
    EntryInv(b[j], x);
    WakeOutcome(b[j], l[j], b[j + 1], k, x);
  }

  lemma WakeOutcome(a: System, l: Step, b: System, k: Key, x: Id)
    requires Next(a, l, b) && l.GetWake? && l.c in a.calls && a.calls[l.c] == GetWait(k, x) && x in a.seg.entries
    ensures l.c in b.calls
    ensures var e := a.seg.entries[x];
            b.calls[l.c] == if e.value.None? && e.fetchFailed then Done(KeyNotFound) else Resumed(k, e.value, l.oom)
  {
  }

  /** Exactly when the interface's promise is kept: the fetched value is what the
      steps since the fetch leave in the entry. */
  lemma CoalescedGetWhen(b: seq<System>, l: seq<Step>, c: Call, d: Call, k: Key, x: Id, r: Option<Value>, i: nat, j: nat)
    requires Execution(b, l) && i < j < |l| && Waiting(b, d, k, x, i, j)
    requires l[i].FetchReturn? && l[i].c == c && c in b[i].calls && b[i].calls[c] == Fetched(k, x, r) && r.Some?
    requires l[j] == GetWake(d, false)
    ensures d in b[j + 1].calls
    ensures b[j + 1].calls[d] == Done(Success(r)) <==> LastInto(b, l, k, x, r, i + 1, j) == r
  {
    CoalescedGetReports(b, l, c, d, k, x, r, i, j);
  }

  // ---------------------------------------------------------------------
  // Conditions a reader of the steps can check
  // ---------------------------------------------------------------------

  ghost predicate NoOverwrite(b: seq<System>, l: seq<Step>, k: Key, x: Id, i: nat, j: nat)
    requires Execution(b, l) && i <= j <= |l|
  {
    forall m :: i <= m < j ==> Guard(b[m], l[m]) && !Overwrites(b[m], l[m], k, x)
  }

  lemma {:induction false} UntouchedStays(b: seq<System>, l: seq<Step>, k: Key, x: Id, r: Option<Value>, i: nat, j: nat)
    requires Execution(b, l) && i <= j <= |l| && NoOverwrite(b, l, k, x, i, j)
    ensures LastInto(b, l, k, x, r, i, j) == r
    decreases j
  {
    hide Next, Guard, PutsInto, Empties;
    if i < j {
      UntouchedStays(b, l, k, x, r, i, j - 1);
      assert !Overwrites(b[j - 1], l[j - 1], k, x);
    }
  }

  /** The last overwriting step decides. */
  lemma {:induction false} LastOverwriteDecides(b: seq<System>, l: seq<Step>, k: Key, x: Id, r: Option<Value>, i: nat, m: nat, j: nat)
    requires Execution(b, l) && i <= m < j <= |l| && Guard(b[m], l[m]) && Overwrites(b[m], l[m], k, x)
    requires NoOverwrite(b, l, k, x, m + 1, j)
    ensures LastInto(b, l, k, x, r, i, j) == if PutsInto(b[m], l[m], k, x) then Some(OpOf(b[m], l[m]).v) else None
    decreases j
  {
    hide Next, Guard, PutsInto, Empties;
    if m + 1 < j {
      LastOverwriteDecides(b, l, k, x, r, i, m, j - 1);
      assert !Overwrites(b[j - 1], l[j - 1], k, x);
    }
  }

  predicate SetOf(pc: Pc, k: Key) {
    (pc.SetStart? || pc.SetWait? || pc.Setting? || pc.SetReplied?) && pc.k == k
  }

  /** No set of k is under way at any state from i to j. */
  ghost predicate NoSetOf(b: seq<System>, k: Key, i: nat, j: nat)
    requires j < |b|
  {
    forall m, c :: i <= m <= j && c in b[m].calls ==> !SetOf(b[m].calls[c], k)
  }

  lemma NotSetting(a: System, x: Id, k: Key)
    requires Inv(a) && x in a.seg.entries && a.seg.entries[x].key == k
    requires forall c :: c in a.calls ==> !SetOf(a.calls[c], k)
    ensures !a.seg.entries[x].setting
  {
    hide SegInv, CountInv;
    assert forall c :: OwnerOf(a.calls, c, x) ==> !OwnsSet(a.calls[c]);
    assert !SettingOf(a.seg, x);
  }

  /** Without a set of the key and after its fetch, nothing writes into an entry. */
  lemma NoSetNoOverwrite(a: System, l: Step, k: Key, x: Id)
    requires Inv(a) && Guard(a, l) && x in a.seg.entries && a.seg.entries[x].key == k && !a.seg.entries[x].fetching
    requires forall c :: c in a.calls ==> !SetOf(a.calls[c], k)
    ensures !Overwrites(a, l, k, x)
  {
    hide SegInv, RefsInv, CountInv, OwnerInv, View;
    NotSetting(a, x, k);
    if PutsInto(a, l, k, x) {
      assert l.FetchReturn?;
      OwnEntry(a, l.c);
      IndexedBy(a, a.calls[l.c].id);
    }
  }

  lemma IndexedBy(a: System, y: Id)
    requires Inv(a) && y in a.seg.entries && a.seg.entries[y].fetching
    ensures a.seg.entries[y].key in a.seg.index && a.seg.index[a.seg.entries[y].key] == y
  {
    hide OrderInv, RefsInv, CountInv, OwnerInv;
    EntryFacts(a.seg, y);
  }

  /** The promise holds as documented when no set of the key was under way
      between the end of the fetch and the end of the get. */
  lemma CoalescedGet(b: seq<System>, l: seq<Step>, c: Call, d: Call, k: Key, x: Id, r: Option<Value>, i: nat, j: nat)
    requires Execution(b, l) && i < j < |l| && Waiting(b, d, k, x, i, j)
    requires l[i].FetchReturn? && l[i].c == c && c in b[i].calls && b[i].calls[c] == Fetched(k, x, r)
    requires l[j] == GetWake(d, false)
    requires r.Some? ==> NoSetOf(b, k, i + 1, j)
    ensures d in b[j + 1].calls && b[j + 1].calls[d] == Done(if r.Some? then Success(r) else KeyNotFound)
  {
    hide Next, Inv, View, Guard, LastInto, Overwrites;
    CoalescedGetReports(b, l, c, d, k, x, r, i, j);
    if r.Some? {
      forall m | i + 1 <= m < j ensures Guard(b[m], l[m]) && !Overwrites(b[m], l[m], k, x) {
        Reachable(b, l, m);
        OwnEntry(b[m], d);
        NotFetching(b, l, d, k, x, r, i, m);
        NoSetNoOverwrite(b[m], l[m], k, x);
      }
      UntouchedStays(b, l, k, x, r, i + 1, j);
    }
  }

  lemma NotFetching(b: seq<System>, l: seq<Step>, d: Call, k: Key, x: Id, r: Option<Value>, i: nat, m: nat)
    requires Execution(b, l) && i < m <= |l| && Waiting(b, d, k, x, i, m) && r.Some?
    requires l[i].FetchReturn? && l[i].c in b[i].calls && b[i].calls[l[i].c] == Fetched(k, x, r)
    ensures !b[m].seg.entries[x].fetching
  {
    hide Next, Inv, View, Guard, LastInto;
    Reachable(b, l, i);
    Reachable(b, l, i + 1);
    FetchMarks(b[i], l[i], b[i + 1], x, r);
    EntryInv(b[i + 1], x);
    EntryHolds(b, l, d, k, x, i + 1, m);
  }

  lemma FetchMarks(a: System, l: Step, b: System, x: Id, r: Option<Value>)
    requires Inv(a) && Next(a, l, b) && l.FetchReturn? && a.calls[l.c].Fetched? && a.calls[l.c].id == x && a.calls[l.c].r == r
    requires x in b.seg.entries
    ensures if r.Some? then b.seg.entries[x].value == r else b.seg.entries[x].fetchFailed
  {
    hide SegInv, CountInv, RefsInv, OwnerInv, View, Kept, Region;
    OwnEntry(a, l.c);
    Fetches(a.seg, a.calls[l.c].k, x, r, l.oom);
  }

  // An execution with one key in a segment of capacity 1, used below.

  function RaceSeg(k: Key, value: Option<Value>, waiters: nat): Seg {
    Seg(1, true, false, map[0 := Entry(k, value, value.None?, false, false, false, value.Some?, waiters)], map[k := 0],
        if value.Some? then [0] else [], if value.Some? then 1 else 0, [])
  }

  function RaceStates(k: Key, v: Value, w: Value): seq<System> {
    var s0 := Seg(1, true, false, map[], map[], [], 0, []);
    var m := map[k := v];
    var done := Done(Success(Some(v)));
    [ System(s0, map[], m),
      System(s0, map[0 := GetStart(k)], m),
      System(RaceSeg(k, None, 1), map[0 := Fetching(k, 0)], m),
      System(RaceSeg(k, None, 1), map[0 := Fetching(k, 0), 1 := GetStart(k)], m),
      System(RaceSeg(k, None, 2), map[0 := Fetching(k, 0), 1 := GetWait(k, 0)], m),
      System(RaceSeg(k, None, 2), map[0 := Fetched(k, 0, Some(v)), 1 := GetWait(k, 0)], m),
      System(RaceSeg(k, Some(v), 1), map[0 := done, 1 := GetWait(k, 0)], m),
      System(RaceSeg(k, Some(v), 1), map[0 := done, 1 := GetWait(k, 0), 2 := SetStart(k, w)], m),
      System(RaceSeg(k, Some(w), 1), map[0 := done, 1 := GetWait(k, 0), 2 := Done(Success(None))], m),
      System(RaceSeg(k, Some(w), 0), map[0 := done, 1 := Done(Success(Some(w))), 2 := Done(Success(None))], m)]
  }

  function RaceSteps(k: Key, v: Value, w: Value): seq<Step> {
    [ CallGet(0, k), GetLock(0, 0, None, false), CallGet(1, k), GetLock(1, 1, None, false), RemoteRead(0, Some(v)),
      FetchReturn(0, false), CallSet(2, k, w), SetLock(2, 1, true, None), GetWake(1, false)]
  }

  lemma RaceOpens(k: Key, v: Value, w: Value)
    ensures var b, l := RaceStates(k, v, w), RaceSteps(k, v, w);
            Next(b[0], l[0], b[1]) && Next(b[1], l[1], b[2]) && Next(b[2], l[2], b[3])
  {
  }

  lemma RaceWaits(k: Key, v: Value, w: Value)
    ensures var b, l := RaceStates(k, v, w), RaceSteps(k, v, w); Next(b[3], l[3], b[4]) && Next(b[4], l[4], b[5])
  {
  }

  lemma RaceFetches(k: Key, v: Value, w: Value)
    ensures var b, l := RaceStates(k, v, w), RaceSteps(k, v, w); Next(b[5], l[5], b[6])
  {
    RaceFetched(k, v);
    hide FetchEnd;
  }

  lemma RaceFetched(k: Key, v: Value)
    ensures var s := RaceSeg(k, None, 2);
            FetchReady(s, 0) && FetchEnd(s, 0, Some(v), false) == (RaceSeg(k, Some(v), 1), Done(Success(Some(v))))
  {
    var t, u := FetchEnd(RaceSeg(k, None, 2), 0, Some(v), false).0, RaceSeg(k, Some(v), 1);
    assert t.entries == u.entries;
    assert t == u;
  }

  lemma RaceCalls(k: Key, v: Value, w: Value)
    ensures var b, l := RaceStates(k, v, w), RaceSteps(k, v, w); Next(b[6], l[6], b[7])
  {
  }

  lemma RaceSets(k: Key, v: Value, w: Value)
    ensures var b, l := RaceStates(k, v, w), RaceSteps(k, v, w); Next(b[7], l[7], b[8])
  {
    var t, u := SetBegin(RaceSeg(k, Some(v), 1), k, w, 1, true, None).0, RaceSeg(k, Some(w), 1);
    assert t.entries == u.entries;
    assert t == u;
  }

  lemma RaceWakes(k: Key, v: Value, w: Value)
    ensures var b, l := RaceStates(k, v, w), RaceSteps(k, v, w); Next(b[8], l[8], b[9])
  {
    var t, u := GetResume(RaceSeg(k, Some(w), 1), k, 0, false).0, RaceSeg(k, Some(w), 0);
    assert t.entries == u.entries;
    assert t == u;
  }

  /** The documented promise fails of the code: for any two values there is an
      execution in which a get coalesced onto a fetch of v reports w, because a
      set of the key to w ran before the waiting get got the lock back. */
  lemma SetBetween(k: Key, v: Value, w: Value) returns (b: seq<System>, l: seq<Step>)
    ensures Execution(b, l) && |l| == 9
    ensures b[4].calls == map[0 := Fetching(k, 0), 1 := GetWait(k, 0)]
    ensures l[5] == FetchReturn(0, false) && b[6].calls[0] == Done(Success(Some(v)))
    ensures l[8] == GetWake(1, false) && b[9].calls[1] == Done(Success(Some(w)))
  {
    b, l := RaceStates(k, v, w), RaceSteps(k, v, w);
    hide Next;
    RaceOpens(k, v, w);
    RaceWaits(k, v, w);
    RaceFetches(k, v, w);
    RaceCalls(k, v, w);
    RaceSets(k, v, w);
    RaceWakes(k, v, w);
  }
}
