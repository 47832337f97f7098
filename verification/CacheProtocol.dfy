// The concurrent cache: any number of calls interleaved at their locked regions
// and remote calls. A call is a get or a set; between two regions it stands at a
// program point that says which entry it waits for or works on.

module CacheProtocol {
  import opened Options
  import opened SequentialLru
  import opened CacheSegment
  import opened CacheInvariant
  import opened CacheRegions

  type Call = nat

  datatype System = System(seg: Seg, calls: map<Call, Pc>, remote: map<Key, Value>)

  datatype Step =
    | CallGet(c: Call, k: Key)
    | CallSet(c: Call, k: Key, v: Value)
    | GetLock(c: Call, id: Id, alloc: Option<Code>, oom: bool)
    | SetLock(c: Call, id: Id, copied: bool, alloc: Option<Code>)
    | GetWake(c: Call, oom: bool)
    | SetWake(c: Call)
    | RemoteRead(c: Call, r: Option<Value>)
    | RemoteWrite(c: Call, ok: bool)
    | FetchReturn(c: Call, oom: bool)
    | SetReturn(c: Call)

  predicate Starts(l: Step) { l.CallGet? || l.CallSet? }

  /** The program point a step needs. A wait ends only on an entry with no
      operation in progress. */
  predicate Guard(a: System, l: Step) {
    if Starts(l) then l.c !in a.calls
    else
      && l.c in a.calls
      && var pc := a.calls[l.c];
         match l
         case GetLock(_, id, alloc, _) => pc.GetStart? && id !in a.seg.entries && AllocFails(alloc)
         case SetLock(_, id, _, alloc) => pc.SetStart? && id !in a.seg.entries && AllocFails(alloc)
         case GetWake(_, _) => pc.GetWait? && pc.id in a.seg.entries && !Busy(a.seg.entries[pc.id])
         case SetWake(_) => pc.SetWait? && pc.id in a.seg.entries && !Busy(a.seg.entries[pc.id])
         case RemoteRead(_, r) => pc.Fetching? && (r.Some? ==> pc.k in a.remote && a.remote[pc.k] == r.value)
         case RemoteWrite(_, _) => pc.Setting?
         case FetchReturn(_, _) => pc.Fetched?
         case SetReturn(_) => pc.SetReplied?
  }

  predicate AllocFails(alloc: Option<Code>) {
    alloc.Some? ==> alloc.value.NotEnoughMemory? || alloc.value.ContainerFull?
  }

  function Moved(a: System, c: Call, r: (Seg, Pc)): System {
    a.(seg := r.0, calls := a.calls[c := r.1])
  }

  /** One step. The readiness conditions ask nothing of the callers: every
      reachable state meets them (see StepEnabled). */
  ghost predicate Next(a: System, l: Step, b: System) {
    && Guard(a, l)
    && match l
       case CallGet(c, k) => b == a.(calls := a.calls[c := GetStart(k)])
       case CallSet(c, k, v) => b == a.(calls := a.calls[c := SetStart(k, v)])
       case GetLock(c, id, alloc, oom) =>
         var pc := a.calls[c];
         GetReady(a.seg, pc.k, id) && b == Moved(a, c, GetBegin(a.seg, pc.k, id, alloc, oom))
       case SetLock(c, id, copied, alloc) =>
         var pc := a.calls[c];
         SetReady(a.seg, pc.k, id) && b == Moved(a, c, SetBegin(a.seg, pc.k, pc.v, id, copied, alloc))
       case GetWake(c, oom) =>
         var pc := a.calls[c];
         WakeReady(a.seg, pc.id) && b == Moved(a, c, GetResume(a.seg, pc.k, pc.id, oom))
       case SetWake(c) =>
         var pc := a.calls[c];
         SetWakeReady(a.seg, pc.id) && b == Moved(a, c, SetResume(a.seg, pc.k, pc.v, pc.id))
       case RemoteRead(c, r) =>
         var pc := a.calls[c];
         b == a.(calls := a.calls[c := Fetched(pc.k, pc.id, r)])
       case RemoteWrite(c, ok) =>
         var pc := a.calls[c];
         b == a.(remote := if ok then a.remote[pc.k := pc.v] else a.remote,
                 calls := a.calls[c := SetReplied(pc.k, pc.v, pc.id, ok)])
       case FetchReturn(c, oom) =>
         var pc := a.calls[c];
         FetchReady(a.seg, pc.id) && b == Moved(a, c, FetchEnd(a.seg, pc.id, pc.r, oom))
       case SetReturn(c) =>
         var pc := a.calls[c];
         SetEndReady(a.seg, pc.id) && b == Moved(a, c, SetEnd(a.seg, pc.id, pc.v, pc.ok))
  }

  /** The operation of the sequential list a step stands for. */
  function OpOf(a: System, l: Step): Op
    requires Guard(a, l)
  {
    if Starts(l) then Nothing
    else
      var s := a.seg;
      var pc := a.calls[l.c];
      match l
      case GetLock(_, _, _, oom) =>
        if Hit(s, pc.k) && !oom then Use(pc.k) else Nothing
      case GetWake(_, oom) => if s.entries[pc.id].inLru && !oom then Use(pc.k) else Nothing
      case SetLock(_, _, copied, alloc) => PutIf(TakesAtOnce(s, pc.k, copied, alloc) && !s.hasSetter, pc.k, pc.v)
      case SetWake(_) => PutIf(!s.entries[pc.id].evicted && !s.hasSetter, pc.k, pc.v)
      case FetchReturn(_, _) => if pc.r.Some? then Put(pc.k, pc.r.value) else Nothing
      case SetReturn(_) => PutIf(pc.ok, pc.k, pc.v)
      case RemoteRead(_, _) => Nothing
      case RemoteWrite(_, _) => Nothing
  }

  // ---------------------------------------------------------------------
  // References and ownership
  // ---------------------------------------------------------------------

  ghost function Holders(calls: map<Call, Pc>, x: Id): set<Call> {
    set c | c in calls && Ref(calls[c]) == Some(x)
  }

  /** A call that holds a reference names an allocated entry of its own key. */
  ghost predicate RefsInv(s: Seg, calls: map<Call, Pc>) {
    forall c :: c in calls && Ref(calls[c]).Some? ==>
      var x := Ref(calls[c]).value; x in s.entries && s.entries[x].key == calls[c].k
  }

  /** The waiter count of an entry is the number of calls that reference it. */
  ghost predicate CountInv(s: Seg, calls: map<Call, Pc>) {
    forall x :: x in s.entries ==> s.entries[x].waiters == |Holders(calls, x)|
  }

  ghost predicate OwnerOf(calls: map<Call, Pc>, c: Call, x: Id) {
    c in calls && Owns(calls[c]) && Ref(calls[c]) == Some(x)
  }

  /** An entry is marked busy exactly while one call works on it. */
  ghost predicate OwnerInv(s: Seg, calls: map<Call, Pc>) {
    && (forall c, d, x :: OwnerOf(calls, c, x) && OwnerOf(calls, d, x) ==> c == d)
    && (forall x :: FetchingOf(s, x) <==> exists c :: OwnerOf(calls, c, x) && OwnsFetch(calls[c]))
    && (forall x :: SettingOf(s, x) <==> exists c :: OwnerOf(calls, c, x) && OwnsSet(calls[c]))
  }

  ghost predicate Inv(a: System) {
    SegInv(a.seg) && RefsInv(a.seg, a.calls) && CountInv(a.seg, a.calls) && OwnerInv(a.seg, a.calls)
  }

  ghost predicate Init(a: System) {
    && a.seg.cap > 0 && a.seg.entries == map[] && a.seg.index == map[] && a.seg.lru == [] && a.seg.size == 0
    && a.seg.evictions == [] && a.calls == map[]
  }

  lemma InitInv(a: System)
    requires Init(a)
    ensures Inv(a) && View(a.seg) == Lru([], [])
  {
    assert SegInv(a.seg);
    assert RefsInv(a.seg, a.calls);
    assert CountInv(a.seg, a.calls);
    assert OwnerInv(a.seg, a.calls);
    assert ItemsOf(a.seg.entries, a.seg.lru) == [];
  }

  lemma SameButOne(p: set<Call>, q: set<Call>, c: Call)
    requires p - {c} == q - {c}
    ensures |p| + Bit(c in q) == |q| + Bit(c in p)
  {
    var others := p - {c};
    assert p == if c in p then others + {c} else others;
    assert q == if c in q then others + {c} else others;
  }

  lemma HoldersMoved(calls: map<Call, Pc>, c: Call, pc2: Pc, x: Id)
    requires c in calls
    ensures |Holders(calls[c := pc2], x)| + Bit(Ref(calls[c]) == Some(x)) == |Holders(calls, x)| + Bit(Ref(pc2) == Some(x))
  {
    hide Ref;
    SameButOne(Holders(calls, x), Holders(calls[c := pc2], x), c);
  }

  lemma RefsKept(s: Seg, t: Seg, calls: map<Call, Pc>, c: Call, pc2: Pc, x: Id)
    requires RefsInv(s, calls) && CountInv(s, calls) && c in calls
    requires Kept(s.entries, t.entries, x) && Accounts(s, t, calls[c], pc2, x)
    requires forall d :: d in calls && d != c && Ref(calls[d]) == Some(x) ==> x in t.entries
    ensures RefsInv(t, calls[c := pc2])
  {
    var calls2 := calls[c := pc2];
    forall d | d in calls2 && Ref(calls2[d]).Some?
      ensures Ref(calls2[d]).value in t.entries && t.entries[Ref(calls2[d]).value].key == calls2[d].k
    {
      var y := Ref(calls2[d]).value;
      if d != c && y != x {
        assert d in Holders(calls, y);
        assert s.entries[y].waiters != 0;
      }
    }
  }

  lemma CountKept(s: Seg, t: Seg, calls: map<Call, Pc>, c: Call, pc2: Pc, x: Id)
    requires RefsInv(s, calls) && CountInv(s, calls) && c in calls
    requires Kept(s.entries, t.entries, x) && Accounts(s, t, calls[c], pc2, x)
    ensures CountInv(t, calls[c := pc2])
    ensures forall d :: d in calls && d != c && Ref(calls[d]) == Some(x) ==> x in t.entries
  {
    var calls2 := calls[c := pc2];
    assert WaitersOf(s, x) == |Holders(calls, x)| by {
      if x !in s.entries { assert Holders(calls, x) == {}; }
    }
    HoldersMoved(calls, c, pc2, x);
    assert WaitersOf(t, x) == |Holders(calls2, x)|;
    forall y | y in t.entries && y != x ensures t.entries[y].waiters == |Holders(calls2, y)| {
      HoldersMoved(calls, c, pc2, y);
    }
    forall d | d in calls && d != c && Ref(calls[d]) == Some(x) ensures x in t.entries {
      assert d in Holders(calls2, x);
    }
  }

  lemma OwnerKept(s: Seg, t: Seg, calls: map<Call, Pc>, c: Call, pc2: Pc, x: Id)
    requires OwnerInv(s, calls) && c in calls && (x in s.entries ==> Settled(s.entries[x]))
    requires Kept(s.entries, t.entries, x) && Accounts(s, t, calls[c], pc2, x)
    ensures OwnerInv(t, calls[c := pc2])
  {
    forall y | y != x ensures FetchingOf(t, y) == FetchingOf(s, y) && SettingOf(t, y) == SettingOf(s, y) {}
    FlagKept(s, t, calls, c, pc2, x);
    OneOwner(s, t, calls, c, pc2, x);
  }

  lemma OneOwner(s: Seg, t: Seg, calls: map<Call, Pc>, c: Call, pc2: Pc, x: Id)
    requires OwnerInv(s, calls) && c in calls && Accounts(s, t, calls[c], pc2, x)
    ensures var calls2 := calls[c := pc2];
            forall d, e, y :: OwnerOf(calls2, d, y) && OwnerOf(calls2, e, y) ==> d == e
  {
    var calls2 := calls[c := pc2];
    forall d, e, y | OwnerOf(calls2, d, y) && OwnerOf(calls2, e, y) ensures d == e {
      if d != c && e != c {
        assert OwnerOf(calls, d, y) && OwnerOf(calls, e, y);
      } else if d != c {
        assert OwnerOf(calls, d, y);
        if Owns(calls[c]) { assert OwnerOf(calls, c, y); }
      } else if e != c {
        assert OwnerOf(calls, e, y);
        if Owns(calls[c]) { assert OwnerOf(calls, c, y); }
      }
    }
  }

  lemma FlagKept(s: Seg, t: Seg, calls: map<Call, Pc>, c: Call, pc2: Pc, x: Id)
    requires OwnerInv(s, calls) && c in calls && (x in s.entries ==> Settled(s.entries[x]))
    requires Accounts(s, t, calls[c], pc2, x)
    requires forall y :: y != x ==> FetchingOf(t, y) == FetchingOf(s, y) && SettingOf(t, y) == SettingOf(s, y)
    ensures var calls2 := calls[c := pc2];
            && (forall y :: FetchingOf(t, y) <==> exists d :: OwnerOf(calls2, d, y) && OwnsFetch(calls2[d]))
            && (forall y :: SettingOf(t, y) <==> exists d :: OwnerOf(calls2, d, y) && OwnsSet(calls2[d]))
  {
    var calls2 := calls[c := pc2];
    forall y ensures FetchingOf(t, y) <==> exists d :: OwnerOf(calls2, d, y) && OwnsFetch(calls2[d]) {
      FetchFlag(s, t, calls, c, pc2, x, y);
    }
    forall y ensures SettingOf(t, y) <==> exists d :: OwnerOf(calls2, d, y) && OwnsSet(calls2[d]) {
      SetFlag(s, t, calls, c, pc2, x, y);
    }
  }

  lemma FetchFlag(s: Seg, t: Seg, calls: map<Call, Pc>, c: Call, pc2: Pc, x: Id, y: Id)
    requires OwnerInv(s, calls) && c in calls && (x in s.entries ==> Settled(s.entries[x]))
    requires Accounts(s, t, calls[c], pc2, x)
    requires y != x ==> FetchingOf(t, y) == FetchingOf(s, y)
    ensures var calls2 := calls[c := pc2];
            FetchingOf(t, y) <==> exists d :: OwnerOf(calls2, d, y) && OwnsFetch(calls2[d])
  {
    var calls2 := calls[c := pc2];
    if FetchingOf(t, y) {
      if y == x && OwnsFetch(pc2) {
        assert OwnerOf(calls2, c, y);
      } else {
        var d :| OwnerOf(calls, d, y) && OwnsFetch(calls[d]);
        assert d != c;
        assert OwnerOf(calls2, d, y);
      }
    }
    if d :| OwnerOf(calls2, d, y) && OwnsFetch(calls2[d]) {
      if d != c {
        assert OwnerOf(calls, d, y);
        if y == x && OwnsFetch(calls[c]) { assert OwnerOf(calls, c, y); }
      }
    }
  }

  lemma SetFlag(s: Seg, t: Seg, calls: map<Call, Pc>, c: Call, pc2: Pc, x: Id, y: Id)
    requires OwnerInv(s, calls) && c in calls && (x in s.entries ==> Settled(s.entries[x]))
    requires Accounts(s, t, calls[c], pc2, x)
    requires y != x ==> SettingOf(t, y) == SettingOf(s, y)
    ensures var calls2 := calls[c := pc2];
            SettingOf(t, y) <==> exists d :: OwnerOf(calls2, d, y) && OwnsSet(calls2[d])
  {
    var calls2 := calls[c := pc2];
    if SettingOf(t, y) {
      if y == x && OwnsSet(pc2) {
        assert OwnerOf(calls2, c, y);
      } else {
        var d :| OwnerOf(calls, d, y) && OwnsSet(calls[d]);
        assert d != c;
        assert OwnerOf(calls2, d, y);
      }
    }
    if d :| OwnerOf(calls2, d, y) && OwnsSet(calls2[d]) {
      if d != c {
        assert OwnerOf(calls, d, y);
        if y == x && OwnsSet(calls[c]) { assert OwnerOf(calls, c, y); }
      }
    }
  }

  /** How a step of a call at pc changes the values of all entries: a value that
      appears is live, a failure mark comes from a fetch, and a value that no set
      is working on stays unless this call is a set of that key. */
  ghost predicate ValuesKept(s: Seg, t: Seg, pc: Pc) {
    forall y :: y in t.entries ==>
      var f := t.entries[y];
      && (f.value.Some? ==> (y in s.entries && s.entries[y].value == f.value) || f.inLru)
      && (f.fetchFailed ==> y in s.entries && (s.entries[y].fetchFailed || s.entries[y].fetching))
      && (y in s.entries && s.entries[y].fetchFailed ==> f.fetchFailed)
      && (y in s.entries && s.entries[y].value.Some? && !s.entries[y].setting ==>
            (Writes(pc, s.hasSetter) && s.entries[y].key == pc.k) || f.value == s.entries[y].value)
      && (if y in s.entries then Continues(s.entries[y], f) else f.key !in s.index)
  }

  lemma RegionValues(s: Seg, t: Seg, pc: Pc, pc2: Pc, x: Id)
    requires Kept(s.entries, t.entries, x) && Values(s, t, pc, x)
    requires Writes(pc, s.hasSetter) && x in s.entries ==> s.entries[x].key == pc.k
    ensures ValuesKept(s, t, pc)
  {
  }

  /** A region's accounts keep every reference and every owner right. */
  lemma Moves(a: System, b: System, c: Call, pc2: Pc, x: Id)
    requires Inv(a) && c in a.calls && Region(a.seg, b.seg, a.calls[c], pc2, x) && b.calls == a.calls[c := pc2]
    requires !a.calls[c].Done? && x in a.seg.entries ==> a.seg.entries[x].key == a.calls[c].k
    ensures Inv(b) && ValuesKept(a.seg, b.seg, a.calls[c])
    ensures b.seg.cap == a.seg.cap && b.seg.hasSetter == a.seg.hasSetter
  {
    hide SegInv, RefsInv, CountInv, OwnerInv, Kept, Accounts, Values;
    RegionValues(a.seg, b.seg, a.calls[c], pc2, x);
    hide ValuesKept;
    if x in a.seg.entries { EntryFacts(a.seg, x); }
    CountKept(a.seg, b.seg, a.calls, c, pc2, x);
    RefsKept(a.seg, b.seg, a.calls, c, pc2, x);
    OwnerKept(a.seg, b.seg, a.calls, c, pc2, x);
  }

  /** What the invariant says about a call's own entry. */
  lemma OwnEntry(a: System, c: Call)
    requires Inv(a) && c in a.calls && Ref(a.calls[c]).Some?
    ensures var pc := a.calls[c]; var x := Ref(pc).value;
            && x in a.seg.entries && a.seg.entries[x].key == pc.k && a.seg.entries[x].waiters > 0
            && (OwnsFetch(pc) ==> a.seg.entries[x].fetching)
            && (OwnsSet(pc) ==> a.seg.entries[x].setting)
  {
    hide SegInv;
    var pc := a.calls[c];
    var x := Ref(pc).value;
    assert c in Holders(a.calls, x);
    if Owns(pc) {
      assert OwnerOf(a.calls, c, x);
      assert OwnsFetch(pc) ==> FetchingOf(a.seg, x);
      assert OwnsSet(pc) ==> SettingOf(a.seg, x);
    }
  }

  // ---------------------------------------------------------------------
  // Every step
  // ---------------------------------------------------------------------

  function PointOf(a: System, l: Step): Pc
    requires Guard(a, l)
  {
    if Starts(l) then Done(KeyNotFound) else a.calls[l.c]
  }

  /** The invariant is kept and the sequential list made the step's operation. */
  ghost predicate Refines(a: System, l: Step, b: System)
    requires Guard(a, l)
  {
    && a.seg.cap > 0 && b.seg.cap == a.seg.cap && b.seg.hasSetter == a.seg.hasSetter
    && Inv(b) && View(b.seg) == Apply(View(a.seg), a.seg.cap, OpOf(a, l))
    && ValuesKept(a.seg, b.seg, PointOf(a, l))
  }

  lemma StartKeeps(a: System, b: System, c: Call, pc: Pc)
    requires Inv(a) && c !in a.calls && Ref(pc).None? && b == a.(calls := a.calls[c := pc])
    ensures Inv(b) && ValuesKept(a.seg, b.seg, Done(KeyNotFound))
  {
    hide SegInv;
    assert forall x :: Holders(b.calls, x) == Holders(a.calls, x);
    forall d, x ensures OwnerOf(b.calls, d, x) <==> OwnerOf(a.calls, d, x) {}
    forall x ensures FetchingOf(b.seg, x) <==> exists d :: OwnerOf(b.calls, d, x) && OwnsFetch(b.calls[d]) {
      if d :| OwnerOf(a.calls, d, x) && OwnsFetch(a.calls[d]) { assert OwnerOf(b.calls, d, x); }
      if d :| OwnerOf(b.calls, d, x) && OwnsFetch(b.calls[d]) { assert OwnerOf(a.calls, d, x); }
    }
    forall x ensures SettingOf(b.seg, x) <==> exists d :: OwnerOf(b.calls, d, x) && OwnsSet(b.calls[d]) {
      if d :| OwnerOf(a.calls, d, x) && OwnsSet(a.calls[d]) { assert OwnerOf(b.calls, d, x); }
      if d :| OwnerOf(b.calls, d, x) && OwnsSet(b.calls[d]) { assert OwnerOf(a.calls, d, x); }
    }
  }

  lemma RemoteKeeps(a: System, b: System, c: Call, pc2: Pc)
    requires Inv(a) && c in a.calls && b.seg == a.seg && b.calls == a.calls[c := pc2]
    requires var pc := a.calls[c];
             || (pc.Fetching? && pc2.Fetched? && pc2.k == pc.k && pc2.id == pc.id)
             || (pc.Setting? && pc2.SetReplied? && pc2.k == pc.k && pc2.id == pc.id)
    ensures Inv(b) && ValuesKept(a.seg, b.seg, a.calls[c])
  {
    hide SegInv, RefsInv, CountInv, OwnerInv, Kept, ValuesKept;
    var pc := a.calls[c];
    OwnEntry(a, c);
    KeptSelf(a.seg.entries, pc.id);
    EntryFacts(a.seg, pc.id);
    Moves(a, b, c, pc2, pc.id);
  }

  lemma HasRoom(a: System)
    requires Inv(a)
    ensures a.seg.cap > 0
  {
    hide OrderInv, IndexInv, RefsInv, CountInv, OwnerInv;
  }

  lemma GetLockKeeps(a: System, b: System, l: Step)
    requires Inv(a) && l.GetLock? && Guard(a, l)
    ensures GetReady(a.seg, a.calls[l.c].k, l.id)
    ensures Next(a, l, b) ==> Refines(a, l, b)
  {
    hide SegInv, RefsInv, CountInv, OwnerInv, Region, GetBegin, SetBegin, SetResume, GetResume, FetchEnd, SetEnd, View, ValuesKept, Apply;
    HasRoom(a);
    var s, k := a.seg, a.calls[l.c].k;
    var x := if k in s.index then s.index[k] else l.id;
    GetBegins(s, k, l.id, l.alloc, l.oom);
    var r := GetBegin(s, k, l.id, l.alloc, l.oom);
    if k in s.index { IndexedEntry(s, k); }
    if Next(a, l, b) { Moves(a, b, l.c, r.1, x); }
  }

  lemma SetLockKeeps(a: System, b: System, l: Step)
    requires Inv(a) && l.SetLock? && Guard(a, l)
    ensures SetReady(a.seg, a.calls[l.c].k, l.id)
    ensures Next(a, l, b) ==> Refines(a, l, b)
  {
    hide SegInv, RefsInv, CountInv, OwnerInv, Region, GetBegin, SetBegin, SetResume, GetResume, FetchEnd, SetEnd, View, ValuesKept, Apply;
    HasRoom(a);
    var s, pc := a.seg, a.calls[l.c];
    SetBegins(s, pc.k, pc.v, l.id, l.copied, l.alloc);
    if pc.k in s.index { IndexedEntry(s, pc.k); }
    if Next(a, l, b) { Moves(a, b, l.c, b.calls[l.c], if pc.k in s.index then s.index[pc.k] else l.id); }
  }

  lemma WakeKeeps(a: System, b: System, l: Step)
    requires Inv(a) && (l.GetWake? || l.SetWake?) && Guard(a, l)
    ensures WakeReady(a.seg, a.calls[l.c].id) && (l.SetWake? ==> SetWakeReady(a.seg, a.calls[l.c].id))
    ensures Next(a, l, b) ==> Refines(a, l, b)
  {
    hide SegInv, RefsInv, CountInv, OwnerInv, Region, GetBegin, SetBegin, SetResume, GetResume, FetchEnd, SetEnd, View, ValuesKept, Apply;
    HasRoom(a);
    var pc := a.calls[l.c];
    OwnEntry(a, l.c);
    if l.GetWake? { Resumes(a.seg, pc.k, pc.id, l.oom); } else { SetResumes(a.seg, pc.k, pc.v, pc.id); }
    if Next(a, l, b) { Moves(a, b, l.c, b.calls[l.c], pc.id); }
  }

  lemma ReturnKeeps(a: System, b: System, l: Step)
    requires Inv(a) && (l.FetchReturn? || l.SetReturn?) && Guard(a, l)
    ensures l.FetchReturn? ==> FetchReady(a.seg, a.calls[l.c].id)
    ensures l.SetReturn? ==> SetEndReady(a.seg, a.calls[l.c].id)
    ensures Next(a, l, b) ==> Refines(a, l, b)
  {
    hide SegInv, RefsInv, CountInv, OwnerInv, Region, GetBegin, SetBegin, SetResume, GetResume, FetchEnd, SetEnd, View, ValuesKept, Apply;
    HasRoom(a);
    var pc := a.calls[l.c];
    OwnEntry(a, l.c);
    if l.FetchReturn? { Fetches(a.seg, pc.k, pc.id, pc.r, l.oom); } else { SetEnds(a.seg, pc.k, pc.v, pc.id, pc.ok); }
    if Next(a, l, b) { Moves(a, b, l.c, b.calls[l.c], pc.id); }
  }

  lemma PlainKeeps(a: System, b: System, l: Step)
    requires Inv(a) && (Starts(l) || l.RemoteRead? || l.RemoteWrite?) && Next(a, l, b)
    ensures Refines(a, l, b)
  {
    hide SegInv, RefsInv, CountInv, OwnerInv, View, ValuesKept;
    HasRoom(a);
    match l
    case CallGet(c, k) => StartKeeps(a, b, c, GetStart(k));
    case CallSet(c, k, v) => StartKeeps(a, b, c, SetStart(k, v));
    case RemoteRead(c, r) => RemoteKeeps(a, b, c, b.calls[c]);
    case RemoteWrite(c, ok) => RemoteKeeps(a, b, c, b.calls[c]);
    case _ =>
  }

  /** Every step keeps the invariant and is the sequential operation OpOf names:
      a hit is a use, a fetched or set value is a put at the moment its remote
      call has returned, and everything else, a failed set included, is nothing. */
  lemma StepRefines(a: System, l: Step, b: System)
    requires Inv(a) && Next(a, l, b)
    ensures Refines(a, l, b)
  {
    assert Guard(a, l);
    hide Next, Inv, Refines;
    if l.GetLock? { GetLockKeeps(a, b, l); }
    else if l.SetLock? { SetLockKeeps(a, b, l); }
    else if l.GetWake? || l.SetWake? { WakeKeeps(a, b, l); }
    else if l.FetchReturn? || l.SetReturn? { ReturnKeeps(a, b, l); }
    else { PlainKeeps(a, b, l); }
  }
}
