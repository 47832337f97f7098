// The contract every locked region meets: the segment stays well formed, the
// region accounts for the one reference and the one ownership of the call that
// runs it, and its effect on the sequential list is one operation or none.

module CacheRegions {
  import opened Options
  import opened Orders
  import opened SequentialLru
  import opened CacheSegment
  import opened CacheInvariant

  /** The entry a call holds a reference to between two locked regions. */
  function Ref(pc: Pc): Option<Id> {
    match pc
    case GetStart(_) => None
    case SetStart(_, _) => None
    case Done(_) => None
    case GetWait(_, id) => Some(id)
    case SetWait(_, _, id) => Some(id)
    case Fetching(_, id) => Some(id)
    case Fetched(_, id, _) => Some(id)
    case Setting(_, _, id) => Some(id)
    case SetReplied(_, _, id, _) => Some(id)
  }

  predicate OwnsFetch(pc: Pc) { pc.Fetching? || pc.Fetched? }

  predicate OwnsSet(pc: Pc) { pc.Setting? || pc.SetReplied? }

  predicate Owns(pc: Pc) { OwnsFetch(pc) || OwnsSet(pc) }

  function Bit(b: bool): nat { if b then 1 else 0 }

  function WaitersOf(s: Seg, x: Id): nat { if x in s.entries then s.entries[x].waiters else 0 }

  function FetchingOf(s: Seg, x: Id): bool { x in s.entries && s.entries[x].fetching }

  function SettingOf(s: Seg, x: Id): bool { x in s.entries && s.entries[x].setting }

  /** What a call moving from pc to pc2 does to the entry x it works on. */
  ghost predicate Accounts(s: Seg, t: Seg, pc: Pc, pc2: Pc, x: Id) {
    && (Ref(pc).Some? ==> Ref(pc).value == x)
    && (Ref(pc2).Some? ==> Ref(pc2).value == x && x in t.entries && t.entries[x].key == pc2.k)
    && WaitersOf(t, x) + Bit(Ref(pc).Some?) == WaitersOf(s, x) + Bit(Ref(pc2).Some?)
    && FetchingOf(t, x) == (OwnsFetch(pc2) || (FetchingOf(s, x) && !OwnsFetch(pc)))
    && SettingOf(t, x) == (OwnsSet(pc2) || (SettingOf(s, x) && !OwnsSet(pc)))
    && (Owns(pc2) && !Owns(pc) ==> !FetchingOf(s, x) && !SettingOf(s, x))
    && (x in s.entries && x in t.entries ==> t.entries[x].key == s.entries[x].key)
  }

  /** Only a finishing set writes over a value. */
  predicate Writes(pc: Pc, hasSetter: bool) {
    pc.SetReplied? || (!hasSetter && (pc.SetStart? || pc.SetWait?))
  }

  /** Where the value and the failure mark of entry x can come from. */
  predicate Values(s: Seg, t: Seg, pc: Pc, x: Id) {
    x in t.entries ==>
      && (t.entries[x].value.Some? ==> (x in s.entries && s.entries[x].value == t.entries[x].value) || t.entries[x].inLru)
      && (t.entries[x].fetchFailed ==> x in s.entries && (s.entries[x].fetchFailed || s.entries[x].fetching))
      && (x in s.entries && s.entries[x].fetchFailed ==> t.entries[x].fetchFailed)
      && (x in s.entries && s.entries[x].value.Some? && !Writes(pc, s.hasSetter) ==> t.entries[x].value == s.entries[x].value)
      && (if x in s.entries then Continues(s.entries[x], t.entries[x]) else t.entries[x].key !in s.index)
  }

  /** An entry keeps its key, is fetched into at most once, never comes back from
      the dead, and loses its value only to an eviction during a set. */
  predicate Continues(e: Entry, f: Entry) {
    && f.key == e.key && (f.fetching ==> e.fetching)
    && (e.evicted ==> f.evicted && f.value == e.value)
    && (e.value.Some? && f.value.None? ==> e.setting)
    && (e.inLru && f.evicted ==> e.evicted || !e.setting)
  }

  ghost predicate Region(s: Seg, t: Seg, pc: Pc, pc2: Pc, x: Id) {
    && SegInv(t) && Kept(s.entries, t.entries, x) && Accounts(s, t, pc, pc2, x) && Values(s, t, pc, x)
    && t.cap == s.cap && t.hasGetter == s.hasGetter && t.hasSetter == s.hasSetter
  }

  // ---------------------------------------------------------------------
  // Small changes to one entry
  // ---------------------------------------------------------------------

  lemma Unsettle(s: Seg, x: Id)
    requires SegInv(s)
    ensures ShapeBut(s, x)
  {
    hide OrderInv, IndexInv;
  }

  lemma Settle(s: Seg, x: Id)
    requires ShapeBut(s, x) && (x in s.entries ==> Settled(s.entries[x]))
    ensures SegInv(s)
  {
    hide OrderInv, IndexInv;
  }

  lemma KeptSelf(entries: map<Id, Entry>, x: Id)
    ensures Kept(entries, entries, x)
  {
  }

  function With(s: Seg, x: Id, e: Entry): Seg {
    s.(entries := s.entries[x := e])
  }

  /** The order and its items depend only on the live entries. */
  lemma OrderFrame(a: map<Id, Entry>, b: map<Id, Entry>, lru: seq<Id>)
    requires OrderInv(a, lru)
    requires forall id :: id in a && a[id].inLru ==>
               id in b && Live(b[id]) && b[id].key == a[id].key && b[id].value == a[id].value
    requires forall id :: id in b && b[id].inLru ==> id in a && a[id].inLru
    ensures OrderInv(b, lru) && Items(b, lru) == Items(a, lru)
  {
    assert AllLive(b, lru);
    assert forall i :: 0 <= i < |lru| ==> ItemsOf(b, lru)[i] == ItemsOf(a, lru)[i];
  }

  lemma LiveEntry(entries: map<Id, Entry>, lru: seq<Id>, x: Id)
    requires OrderInv(entries, lru) && x in entries && entries[x].inLru
    ensures Live(entries[x]) && x in lru
  {
  }

  /** New flags or references on an entry that keeps its key, value and place. */
  lemma Reflag(s: Seg, x: Id, e: Entry)
    requires ShapeBut(s, x) && x in s.entries
    requires var f := s.entries[x]; f.key == e.key && f.value == e.value && f.evicted == e.evicted && f.inLru == e.inLru
    requires e.inLru ==> !e.fetching
    ensures ShapeBut(With(s, x, e), x) && Kept(s.entries, With(s, x, e).entries, x)
    ensures View(With(s, x, e)) == View(s)
  {
    ReflagOrder(s.entries, s.lru, x, e);
    ReflagIndex(s.entries, s.index, x, e);
    hide OrderInv, IndexInv, Items;
  }

  lemma ReflagOrder(entries: map<Id, Entry>, lru: seq<Id>, x: Id, e: Entry)
    requires OrderInv(entries, lru) && x in entries
    requires var f := entries[x]; f.key == e.key && f.value == e.value && f.evicted == e.evicted && f.inLru == e.inLru
    requires e.inLru ==> !e.fetching
    ensures OrderInv(entries[x := e], lru) && Items(entries[x := e], lru) == Items(entries, lru)
  {
    hide OrderInv, Items;
    forall id | id in entries && entries[id].inLru ensures Live(entries[id]) { LiveEntry(entries, lru, id); }
    OrderFrame(entries, entries[x := e], lru);
  }

  lemma ReflagIndex(entries: map<Id, Entry>, index: map<Key, Id>, x: Id, e: Entry)
    requires IndexInv(entries, index) && x in entries && entries[x].key == e.key && entries[x].evicted == e.evicted
    ensures IndexInv(entries[x := e], index)
  {
  }

  /** Whatever happens to an entry outside the order leaves the order alone. */
  lemma OutsideOrder(a: map<Id, Entry>, b: map<Id, Entry>, lru: seq<Id>, x: Id)
    requires OrderInv(a, lru) && (x in a ==> !a[x].inLru) && (x in b ==> !b[x].inLru)
    requires forall id :: id in a && id != x ==> id in b && b[id] == a[id]
    requires forall id :: id in b && id != x ==> id in a
    ensures OrderInv(b, lru) && Items(b, lru) == Items(a, lru)
  {
    hide OrderInv, Items;
    forall id | id in a && a[id].inLru ensures Live(a[id]) { LiveEntry(a, lru, id); }
    OrderFrame(a, b, lru);
  }

  /** A new placeholder under a key that has no entry. */
  lemma Placeholder(s: Seg, k: Key, x: Id, e: Entry)
    requires SegInv(s) && x !in s.entries && k !in s.index
    requires e.key == k && e.value.None? && !e.evicted && !e.inLru
    ensures var t := With(s, x, e).(index := s.index[k := x]);
            && ShapeBut(t, x) && Kept(s.entries, t.entries, x) && View(t) == View(s)
  {
    hide OrderInv, Items;
    OutsideOrder(s.entries, s.entries[x := e], s.lru, x);
    PlaceholderIndex(s.entries, s.index, x, e);
    hide IndexInv;
  }

  lemma PlaceholderIndex(entries: map<Id, Entry>, index: map<Key, Id>, x: Id, e: Entry)
    requires IndexInv(entries, index) && x !in entries && e.key !in index && !e.evicted
    ensures IndexInv(entries[x := e], index[e.key := x])
  {
  }

  /** Taking a placeholder out of the index. */
  lemma Retiring(s: Seg, x: Id, failed: bool)
    requires ShapeBut(s, x) && x in s.entries && !s.entries[x].inLru && !s.entries[x].evicted
    ensures var t := Retire(s, x, failed);
            && ShapeBut(t, x) && Kept(s.entries, t.entries, x) && View(t) == View(s)
  {
    hide OrderInv, Items;
    var e := s.entries[x].(evicted := true, fetchFailed := failed);
    OutsideOrder(s.entries, s.entries[x := e], s.lru, x);
    RetiringIndex(s.entries, s.index, x, e);
    hide IndexInv;
  }

  lemma RetiringIndex(entries: map<Id, Entry>, index: map<Key, Id>, x: Id, e: Entry)
    requires IndexInv(entries, index) && x in entries && !entries[x].evicted && e.key == entries[x].key && e.evicted
    ensures IndexInv(entries[x := e], index - {e.key})
  {
  }

  /** Freeing a dead entry that nobody holds. */
  lemma Freeing(s: Seg, x: Id)
    requires ShapeBut(s, x) && x in s.entries && (s.entries[x].evicted ==> !s.entries[x].inLru)
    ensures var t := FreeIfDead(s, x);
            && ShapeBut(t, x) && Kept(s.entries, t.entries, x) && View(t) == View(s)
            && (x in t.entries ==> t.entries[x] == s.entries[x])
  {
    hide OrderInv, Items;
    if s.entries[x].evicted {
      OutsideOrder(s.entries, s.entries - {x}, s.lru, x);
      FreeingIndex(s.entries, s.index, x);
    }
    hide IndexInv;
  }

  lemma FreeingIndex(entries: map<Id, Entry>, index: map<Key, Id>, x: Id)
    requires IndexInv(entries, index) && x in entries && entries[x].evicted
    ensures IndexInv(entries - {x}, index)
  {
  }

  lemma IndexedEntry(s: Seg, k: Key)
    requires SegInv(s) && k in s.index
    ensures var x := s.index[k];
            && x in s.entries && s.entries[x].key == k && !s.entries[x].evicted && Settled(s.entries[x])
            && (!Busy(s.entries[x]) ==> Live(s.entries[x]) && x in s.lru)
  {
    hide OrderInv;
    if s.entries[s.index[k]].inLru { LiveEntry(s.entries, s.lru, s.index[k]); }
  }

  lemma EntryFacts(s: Seg, x: Id)
    requires SegInv(s) && x in s.entries
    ensures Settled(s.entries[x]) && (s.entries[x].inLru ==> x in s.lru)
  {
    hide OrderInv, IndexInv;
    if s.entries[x].inLru { LiveEntry(s.entries, s.lru, x); }
  }

  /** A full segment always has an entry to evict, and never a placeholder. */
  lemma CanStore(s: Seg, x: Id)
    requires ShapeBut(s, x) && x in s.entries
    ensures Storable(s, x)
  {
    hide IndexInv, FlagInv, Items;
    if s.entries[x].inLru { LiveEntry(s.entries, s.lru, x); }
    else if s.size >= s.cap { ItemAt(s.entries, s.lru, |s.lru| - 1); }
  }

  // ---------------------------------------------------------------------
  // Get
  // ---------------------------------------------------------------------

  /** Reflag between two settled states. */
  lemma Rewrite(s: Seg, x: Id, e: Entry)
    requires SegInv(s) && x in s.entries && Settled(e)
    requires var f := s.entries[x]; f.key == e.key && f.value == e.value && f.evicted == e.evicted && f.inLru == e.inLru
    ensures SegInv(With(s, x, e)) && Kept(s.entries, With(s, x, e).entries, x)
    ensures View(With(s, x, e)) == View(s)
  {
    Unsettle(s, x);
    hide SegInv, Kept, View;
    Reflag(s, x, e);
    Settle(With(s, x, e), x);
  }

  lemma GetMiss(s: Seg, k: Key, x: Id)
    requires SegInv(s) && x !in s.entries && k !in s.index && s.hasGetter
    ensures var (t, pc2) := GetBegin(s, k, x, None, false);
            Region(s, t, GetStart(k), pc2, x) && View(t) == View(s)
  {
    hide SegInv, ShapeBut, Kept, View;
    var e := Entry(k, None, true, false, false, false, false, 1);
    Placeholder(s, k, x, e);
    Settle(With(s, x, e).(index := s.index[k := x]), x);
  }

  lemma GetBusy(s: Seg, k: Key, x: Id, alloc: Option<Code>, oom: bool)
    requires SegInv(s) && x !in s.entries && k in s.index && s.index[k] in s.entries && Busy(s.entries[s.index[k]])
    ensures var (t, pc2) := GetBegin(s, k, x, alloc, oom);
            Region(s, t, GetStart(k), pc2, s.index[k]) && View(t) == View(s)
  {
    hide SegInv, Kept, View;
    var y := s.index[k];
    IndexedEntry(s, k);
    Rewrite(s, y, s.entries[y].(waiters := s.entries[y].waiters + 1));
  }

  /** Moving a live entry to the front. */
  lemma Fronting(s: Seg, x: Id)
    requires SegInv(s) && x in s.lru
    ensures x in s.entries && s.entries[x].inLru
    ensures var t := ToFront(s, x);
            SegInv(t) && Kept(s.entries, t.entries, x) && View(t) == Apply(View(s), s.cap, Use(s.entries[x].key))
  {
    ItemAt(s.entries, s.lru, IndexOf(s.lru, x));
    hide OrderInv, IndexInv, Items;
    FrontIsUse(s.entries, s.lru, x);
    FindLive(s.entries, s.lru, s.index, x);
    KeptSelf(s.entries, x);
  }

  lemma GetHit(s: Seg, k: Key, x: Id, alloc: Option<Code>, oom: bool)
    requires SegInv(s) && x !in s.entries && k in s.index && s.index[k] in s.entries && !Busy(s.entries[s.index[k]])
    ensures GetReady(s, k, x)
    ensures var (t, pc2) := GetBegin(s, k, x, alloc, oom);
            && Region(s, t, GetStart(k), pc2, s.index[k])
            && View(t) == Apply(View(s), s.cap, if oom then Nothing else Use(k))
            && pc2 == Done(if oom then NotEnoughMemory else Success(s.entries[s.index[k]].value))
            && s.entries[s.index[k]].inLru
  {
    hide SegInv, Kept, View;
    IndexedEntry(s, k);
    KeptSelf(s.entries, s.index[k]);
    if !oom { Fronting(s, s.index[k]); }
  }

  predicate Hit(s: Seg, k: Key) {
    k in s.index && s.index[k] in s.entries && !Busy(s.entries[s.index[k]])
  }

  /** The first locked region of a get, in every case. */
  lemma GetBegins(s: Seg, k: Key, x: Id, alloc: Option<Code>, oom: bool)
    requires SegInv(s) && x !in s.entries && (alloc.Some? ==> !alloc.value.Success?)
    ensures GetReady(s, k, x)
    ensures var (t, pc2) := GetBegin(s, k, x, alloc, oom);
            && Region(s, t, GetStart(k), pc2, if k in s.index then s.index[k] else x)
            && View(t) == Apply(View(s), s.cap, if Hit(s, k) && !oom then Use(k) else Nothing)
  {
    assert s.cap > 0;
    hide SegInv, Kept, View;
    if k !in s.index {
      if s.hasGetter && alloc.None? { GetMiss(s, k, x); } else { KeptSelf(s.entries, x); }
    } else {
      IndexedEntry(s, k);
      if Busy(s.entries[s.index[k]]) { GetBusy(s, k, x, alloc, oom); } else { GetHit(s, k, x, alloc, oom); }
    }
  }

  // ---------------------------------------------------------------------
  // The end of a fetch
  // ---------------------------------------------------------------------

  lemma Fetches(s: Seg, k: Key, x: Id, r: Option<Value>, oom: bool)
    requires SegInv(s) && x in s.entries && s.entries[x].fetching && s.entries[x].waiters > 0
    ensures FetchReady(s, x)
    ensures var (t, pc2) := FetchEnd(s, x, r, oom);
            && Region(s, t, Fetched(k, x, r), pc2, x)
            && View(t) == Apply(View(s), s.cap, if r.Some? then Put(s.entries[x].key, r.value) else Nothing)
            && (x in t.entries ==> if r.Some? then t.entries[x].value == r else t.entries[x].fetchFailed)
            && pc2 == Done(if r.None? then KeyNotFound else if oom then NotEnoughMemory else Success(r))
  {
    hide SegInv, ShapeBut, Kept, View;
    var e := s.entries[x];
    EntryFacts(s, x);
    Unsettle(s, x);
    CanStore(s, x);
    var f := e.(waiters := e.waiters - 1, fetching := false);
    Reflag(s, x, f);
    if r.Some? { FetchStored(s, k, x, r, oom); } else { FetchFailing(s, k, x, r, oom); }
  }

  lemma FetchStored(s: Seg, k: Key, x: Id, r: Option<Value>, oom: bool)
    requires FetchReady(s, x) && r.Some? && ShapeBut(s, x)
    requires s.entries[x].fetching && !s.entries[x].setting && !s.entries[x].fetchFailed && s.entries[x].value.None?
    ensures var (t, pc2) := FetchEnd(s, x, r, oom);
            && Region(s, t, Fetched(k, x, r), pc2, x)
            && View(t) == Apply(View(s), s.cap, Put(s.entries[x].key, r.value))
            && x in t.entries && t.entries[x].value == r
  {
    hide ShapeBut, Kept, View, SegInv;
    var e := s.entries[x];
    var f := e.(waiters := e.waiters - 1, fetching := false);
    Reflag(s, x, f);
    var m := With(s, x, f);
    StoreNew(m, x, r.value);
    KeptTrans(s.entries, m.entries, Store(m, x, r.value).entries, x);
    Settle(Store(m, x, r.value), x);
  }

  lemma FetchFailing(s: Seg, k: Key, x: Id, r: Option<Value>, oom: bool)
    requires FetchReady(s, x) && r.None? && ShapeBut(s, x)
    requires s.entries[x].fetching && !s.entries[x].setting && s.entries[x].value.None?
    ensures var (t, pc2) := FetchEnd(s, x, r, oom);
            && Region(s, t, Fetched(k, x, r), pc2, x) && View(t) == View(s)
            && (x in t.entries ==> t.entries[x].fetchFailed)
  {
    hide ShapeBut, Kept, View, SegInv;
    var e := s.entries[x];
    var f := e.(waiters := e.waiters - 1, fetching := false);
    Reflag(s, x, f);
    var m := With(s, x, f);
    Retiring(m, x, true);
    var n := Retire(m, x, true);
    Freeing(n, x);
    KeptTrans(s.entries, m.entries, n.entries, x);
    KeptTrans(s.entries, n.entries, FreeIfDead(n, x).entries, x);
    Settle(FreeIfDead(n, x), x);
  }

  // ---------------------------------------------------------------------
  // A getter that waited
  // ---------------------------------------------------------------------

  lemma Resumes(s: Seg, k: Key, x: Id, oom: bool)
    requires SegInv(s) && x in s.entries && s.entries[x].waiters > 0 && !Busy(s.entries[x]) && s.entries[x].key == k
    ensures WakeReady(s, x)
    ensures var (t, pc2) := GetResume(s, k, x, oom);
            && Region(s, t, GetWait(k, x), pc2, x)
            && View(t) == Apply(View(s), s.cap, if s.entries[x].inLru && !oom then Use(k) else Nothing)
            && pc2 == if s.entries[x].value.None? then (if s.entries[x].fetchFailed then Done(KeyNotFound) else GetStart(k))
                      else Done(if oom then NotEnoughMemory else Success(s.entries[x].value))
  {
    hide SegInv, ShapeBut, Kept, View;
    EntryFacts(s, x);
    var f := s.entries[x].(waiters := s.entries[x].waiters - 1);
    var m := With(s, x, f);
    if s.entries[x].evicted {
      LeaveDead(s, x);
    } else {
      Rewrite(s, x, f);
      if !oom {
        Fronting(m, x);
        KeptTrans(s.entries, m.entries, ToFront(m, x).entries, x);
      }
    }
  }

  /** Dropping a reference to a dead entry, the last one frees it. */
  lemma LeaveDead(s: Seg, x: Id)
    requires SegInv(s) && x in s.entries && s.entries[x].waiters > 0 && s.entries[x].evicted
    ensures var t := FreeIfDead(With(s, x, s.entries[x].(waiters := s.entries[x].waiters - 1)), x);
            && SegInv(t) && Kept(s.entries, t.entries, x) && View(t) == View(s)
  {
    hide SegInv, ShapeBut, Kept, View;
    EntryFacts(s, x);
    Unsettle(s, x);
    var m := With(s, x, s.entries[x].(waiters := s.entries[x].waiters - 1));
    Reflag(s, x, s.entries[x].(waiters := s.entries[x].waiters - 1));
    Freeing(m, x);
    KeptTrans(s.entries, m.entries, FreeIfDead(m, x).entries, x);
    Settle(FreeIfDead(m, x), x);
  }

  // ---------------------------------------------------------------------
  // Set
  // ---------------------------------------------------------------------

  /** The states in which a setter may own an entry: live, or a placeholder. */
  predicate Ownable(e: Entry) {
    && !e.evicted && !e.fetching && !e.fetchFailed
    && (e.inLru ==> e.value.Some?) && (!e.inLru ==> e.value.None?)
  }

  ghost predicate Finished(s: Seg, t: Seg, x: Id, v: Value, ok: bool)
    requires x in s.entries
  {
    && SegInv(t) && Kept(s.entries, t.entries, x) && WaitersOf(t, x) == WaitersOf(s, x)
    && !FetchingOf(t, x) && !SettingOf(t, x)
    && (x in s.entries && x in t.entries ==> t.entries[x].key == s.entries[x].key)
    && Values(s, t, SetReplied(s.entries[x].key, v, x, ok), x)
    && t.cap == s.cap && t.hasGetter == s.hasGetter && t.hasSetter == s.hasSetter
  }

  /** Storing into an entry a setter owns is a put of its key. */
  lemma StoreOwned(s: Seg, x: Id, v: Value)
    requires ShapeBut(s, x) && x in s.entries && Ownable(s.entries[x])
    ensures Storable(s, x)
    ensures var m := Store(s, x, v);
            && ShapeBut(m, x) && Kept(s.entries, m.entries, x) && View(m) == Apply(View(s), s.cap, Put(s.entries[x].key, v))
            && x in m.entries && m.entries[x] == s.entries[x].(value := Some(v), inLru := true)
            && m.cap == s.cap && m.hasGetter == s.hasGetter && m.hasSetter == s.hasSetter
  {
    hide ShapeBut, Kept, View, SegInv, Apply, Evictable;
    CanStore(s, x);
    if s.entries[x].inLru { StoreLive(s, x, v); } else { StoreNew(s, x, v); }
  }

  lemma FinishOk(s: Seg, x: Id, v: Value)
    requires ShapeBut(s, x) && x in s.entries && Ownable(s.entries[x]) && s.entries[x].setting
    ensures OwnReady(s, x)
    ensures var (t, pc2) := SetFinish(s, x, v, true);
            pc2 == Done(Success(None)) && Finished(s, t, x, v, true) && View(t) == Apply(View(s), s.cap, Put(s.entries[x].key, v))
            && x in t.entries && t.entries[x].inLru && t.entries[x].value == Some(v)
  {
    hide ShapeBut, Kept, View, SegInv, Apply, Store, Storable;
    StoreOwned(s, x, v);
    var m := Store(s, x, v);
    var f := m.entries[x].(setting := false);
    Reflag(m, x, f);
    KeptTrans(s.entries, m.entries, With(m, x, f).entries, x);
    Settle(With(m, x, f), x);
  }

  lemma FinishFailed(s: Seg, x: Id, v: Value)
    requires ShapeBut(s, x) && x in s.entries && Ownable(s.entries[x]) && s.entries[x].setting
    ensures OwnReady(s, x)
    ensures var (t, pc2) := SetFinish(s, x, v, false);
            && pc2 == Done(UnexpectedFailure) && Finished(s, t, x, v, false) && View(t) == View(s)
            && (x in t.entries ==> t.entries[x].value == s.entries[x].value && t.entries[x].inLru == s.entries[x].inLru)
  {
    hide ShapeBut, Kept, View, SegInv, Apply, Evictable;
    CanStore(s, x);
    KeptSelf(s.entries, x);
    if !s.entries[x].inLru { Retiring(s, x, false); }
    var m := if s.entries[x].inLru then s else Retire(s, x, false);
    var f := m.entries[x].(setting := false);
    Reflag(m, x, f);
    var n := With(m, x, f);
    KeptTrans(s.entries, m.entries, n.entries, x);
    Freeing(n, x);
    KeptTrans(s.entries, n.entries, FreeIfDead(n, x).entries, x);
    Settle(FreeIfDead(n, x), x);
  }

  function PutIf(b: bool, k: Key, v: Value): Op { if b then Put(k, v) else Nothing }

  lemma Owning(s: Seg, k: Key, v: Value, x: Id)
    requires ShapeBut(s, x) && x in s.entries && Ownable(s.entries[x]) && !s.entries[x].setting && s.entries[x].key == k
    ensures OwnReady(s, x)
    ensures var (t, pc2) := Own(s, k, v, x);
            Region(s, t, SetStart(k, v), pc2, x) && View(t) == Apply(View(s), s.cap, PutIf(!s.hasSetter, k, v))
  {
    hide ShapeBut, Kept, View, SegInv, SetFinish;
    CanStore(s, x);
    var e := s.entries[x];
    var f := if s.hasSetter then e.(setting := true, waiters := e.waiters + 1) else e.(setting := true);
    Reflag(s, x, f);
    var m := With(s, x, f);
    if s.hasSetter {
      Settle(m, x);
    } else {
      FinishOk(m, x, v);
      KeptTrans(s.entries, m.entries, SetFinish(m, x, v, true).0.entries, x);
    }
  }

  predicate TakesAtOnce(s: Seg, k: Key, copied: bool, alloc: Option<Code>) {
    && copied
    && (if k in s.index then s.index[k] in s.entries && !Busy(s.entries[s.index[k]]) else alloc.None?)
  }

  lemma SetTakesNew(s: Seg, k: Key, v: Value, x: Id)
    requires SegInv(s) && x !in s.entries && k !in s.index
    ensures var m := With(s, x, Entry(k, None, false, false, false, false, false, 0)).(index := s.index[k := x]);
            && OwnReady(m, x)
            && var (t, pc2) := Own(m, k, v, x);
               Region(s, t, SetStart(k, v), pc2, x) && View(t) == Apply(View(s), s.cap, PutIf(!s.hasSetter, k, v))
  {
    hide ShapeBut, Kept, View, SegInv;
    var e := Entry(k, None, false, false, false, false, false, 0);
    Placeholder(s, k, x, e);
    var m := With(s, x, e).(index := s.index[k := x]);
    Owning(m, k, v, x);
    KeptTrans(s.entries, m.entries, Own(m, k, v, x).0.entries, x);
  }

  lemma SetReadiness(s: Seg, k: Key, x: Id)
    requires SegInv(s) && x !in s.entries
    ensures SetReady(s, k, x)
  {
    hide IndexInv, Items;
    if s.size >= s.cap { ItemAt(s.entries, s.lru, |s.lru| - 1); }
    if k in s.index {
      IndexedEntry(s, k);
      Unsettle(s, s.index[k]);
      CanStore(s, s.index[k]);
    }
  }

  lemma SetBegins(s: Seg, k: Key, v: Value, x: Id, copied: bool, alloc: Option<Code>)
    requires SegInv(s) && x !in s.entries
    ensures SetReady(s, k, x)
    ensures var (t, pc2) := SetBegin(s, k, v, x, copied, alloc);
            && Region(s, t, SetStart(k, v), pc2, if k in s.index then s.index[k] else x)
            && View(t) == Apply(View(s), s.cap, PutIf(TakesAtOnce(s, k, copied, alloc) && !s.hasSetter, k, v))
  {
    hide ShapeBut, Kept, View, SegInv, Own, Evictable;
    SetReadiness(s, k, x);
    var y := if k in s.index then s.index[k] else x;
    KeptSelf(s.entries, y);
    if !copied || (k !in s.index && alloc.Some?) {
    } else if k !in s.index {
      SetTakesNew(s, k, v, x);
    } else {
      IndexedEntry(s, k);
      var e := s.entries[y];
      if Busy(e) {
        Rewrite(s, y, e.(waiters := e.waiters + 1));
      } else {
        Unsettle(s, y);
        Owning(s, k, v, y);
      }
    }
  }

  lemma SetResumes(s: Seg, k: Key, v: Value, x: Id)
    requires SegInv(s) && x in s.entries && s.entries[x].waiters > 0 && !Busy(s.entries[x]) && s.entries[x].key == k
    ensures SetWakeReady(s, x)
    ensures var (t, pc2) := SetResume(s, k, v, x);
            && Region(s, t, SetWait(k, v, x), pc2, x)
            && View(t) == Apply(View(s), s.cap, PutIf(!s.entries[x].evicted && !s.hasSetter, k, v))
  {
    hide ShapeBut, Kept, View, SegInv, Own;
    EntryFacts(s, x);
    Unsettle(s, x);
    CanStore(s, x);
    if s.entries[x].evicted {
      LeaveDead(s, x);
    } else {
      var f := s.entries[x].(waiters := s.entries[x].waiters - 1);
      Reflag(s, x, f);
      var m := With(s, x, f);
      Owning(m, k, v, x);
      KeptTrans(s.entries, m.entries, Own(m, k, v, x).0.entries, x);
    }
  }

  lemma SetEnds(s: Seg, k: Key, v: Value, x: Id, ok: bool)
    requires SegInv(s) && x in s.entries && s.entries[x].waiters > 0 && s.entries[x].setting && s.entries[x].key == k
    ensures SetEndReady(s, x)
    ensures var (t, pc2) := SetEnd(s, x, v, ok);
            && Region(s, t, SetReplied(k, v, x, ok), pc2, x)
            && View(t) == Apply(View(s), s.cap, PutIf(ok, k, v))
            && pc2 == Done(if ok then Success(None) else UnexpectedFailure)
  {
    hide ShapeBut, Kept, View, SegInv, SetFinish, Evictable;
    EntryFacts(s, x);
    Unsettle(s, x);
    CanStore(s, x);
    var f := s.entries[x].(waiters := s.entries[x].waiters - 1);
    Reflag(s, x, f);
    var m := With(s, x, f);
    if ok { FinishOk(m, x, v); } else { FinishFailed(m, x, v); }
    KeptTrans(s.entries, m.entries, SetFinish(m, x, v, ok).0.entries, x);
  }
}
