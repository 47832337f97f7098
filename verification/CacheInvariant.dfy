// What every locked region keeps of a segment, and what it does to the
// sequential list the segment stands for.

module CacheInvariant {
  import opened Options
  import opened Orders
  import opened SequentialLru
  import opened CacheSegment

  predicate Live(e: Entry) { e.inLru && e.value.Some? && !e.evicted && !e.fetching }

  ghost predicate AllLive(entries: map<Id, Entry>, lru: seq<Id>) {
    forall i :: 0 <= i < |lru| ==> lru[i] in entries && Live(entries[lru[i]])
  }

  /** The eviction order holds exactly the live entries, each once. */
  ghost predicate OrderInv(entries: map<Id, Entry>, lru: seq<Id>) {
    && NoRepeat(lru)
    && AllLive(entries, lru)
    && (forall id :: id in entries && entries[id].inLru ==> id in lru)
  }

  /** The index holds exactly the entries that are not dead, under their keys. */
  ghost predicate IndexInv(entries: map<Id, Entry>, index: map<Key, Id>) {
    && (forall k :: k in index ==> index[k] in entries && entries[index[k]].key == k && !entries[index[k]].evicted)
    && (forall id :: id in entries && !entries[id].evicted ==> entries[id].key in index && index[entries[id].key] == id)
  }

  predicate Settled(e: Entry) {
    && (e.evicted ==> !Busy(e) && e.waiters > 0 && !e.inLru)
    && (e.inLru ==> Live(e))
    && (!e.inLru && !e.evicted ==> e.value.None? && Busy(e))
    && !(e.fetching && e.setting)
    && (e.fetchFailed ==> e.evicted && e.value.None?)
  }

  /** Every entry but x, which a region may be changing, is in one of the four
      documented states. */
  ghost predicate FlagInv(entries: map<Id, Entry>, x: Id) {
    forall id :: id in entries && id != x ==> Settled(entries[id])
  }

  ghost predicate ShapeBut(s: Seg, x: Id) {
    && s.cap > 0 && s.size == |s.lru| <= s.cap
    && OrderInv(s.entries, s.lru)
    && IndexInv(s.entries, s.index)
    && FlagInv(s.entries, x)
  }

  ghost predicate SegInv(s: Seg) {
    && s.cap > 0 && s.size == |s.lru| <= s.cap
    && OrderInv(s.entries, s.lru)
    && IndexInv(s.entries, s.index)
    && forall id :: id in s.entries ==> Settled(s.entries[id])
  }

  ghost function ItemsOf(entries: map<Id, Entry>, lru: seq<Id>): (r: seq<(Key, Value)>)
    requires AllLive(entries, lru)
    ensures |r| == |lru|
    ensures forall i :: 0 <= i < |lru| ==> r[i] == (entries[lru[i]].key, entries[lru[i]].value.value)
  {
    if lru == [] then []
    else
      assert forall i :: 0 <= i < |lru[1..]| ==> lru[1..][i] == lru[i + 1];
      [(entries[lru[0]].key, entries[lru[0]].value.value)] + ItemsOf(entries, lru[1..])
  }

  /** The live entries as the sequential list sees them. */
  ghost function Items(entries: map<Id, Entry>, lru: seq<Id>): (r: seq<(Key, Value)>)
    ensures OrderInv(entries, lru) ==> |r| == |lru|
  {
    if OrderInv(entries, lru) then ItemsOf(entries, lru) else []
  }

  ghost function View(s: Seg): Lru {
    Lru(Items(s.entries, s.lru), s.evictions)
  }

  predicate SameRefs(e: Entry, f: Entry) {
    && e.key == f.key && e.waiters == f.waiters && e.fetching == f.fetching && e.setting == f.setting
    && e.fetchFailed == f.fetchFailed
    && (f.value == e.value || (e.setting && f.value.None?))
    && (f.inLru ==> e.inLru)
    && (if e.evicted then f.evicted && f.value == e.value else f.evicted ==> !e.setting)
  }

  /** A region working on entry x may evict others; it frees none that is still
      referenced or owned and touches nobody's references or ownership. */
  ghost predicate Kept(old_: map<Id, Entry>, new_: map<Id, Entry>, x: Id) {
    && (forall id :: id in new_ && id != x ==> id in old_ && SameRefs(old_[id], new_[id]))
    && (forall id :: id in old_ && id != x && id !in new_ ==> old_[id].waiters == 0 && !Busy(old_[id]))
  }

  // ---------------------------------------------------------------------
  // The order
  // ---------------------------------------------------------------------

  lemma FrontMembers(s: seq<Id>, x: Id)
    requires x in s && NoRepeat(s)
    ensures NoRepeat(MoveToFront(s, x))
    ensures |MoveToFront(s, x)| == |s|
    ensures forall y :: y in MoveToFront(s, x) <==> y in s
  {
    var i := IndexOf(s, x);
    assert s == s[..i] + [x] + s[i + 1..];
  }

  /** Moving a live entry to the front keeps the order and is a use of its key. */
  lemma FrontIsUse(entries: map<Id, Entry>, lru: seq<Id>, id: Id)
    requires OrderInv(entries, lru) && id in lru
    ensures OrderInv(entries, MoveToFront(lru, id)) && |MoveToFront(lru, id)| == |lru|
    ensures var i := IndexOf(lru, id);
            Items(entries, MoveToFront(lru, id)) == [Items(entries, lru)[i]] + RemoveAt(Items(entries, lru), i)
  {
    FrontMembers(lru, id);
    var r := MoveToFront(lru, id);
    assert AllLive(entries, r) by {
      forall j | 0 <= j < |r| ensures r[j] in entries && Live(entries[r[j]]) { assert r[j] in r; }
    }
    FrontItems(entries, lru, IndexOf(lru, id));
  }

  lemma FrontItems(entries: map<Id, Entry>, lru: seq<Id>, i: nat)
    requires AllLive(entries, lru) && i < |lru| && AllLive(entries, [lru[i]] + RemoveAt(lru, i))
    ensures ItemsOf(entries, [lru[i]] + RemoveAt(lru, i)) == [ItemsOf(entries, lru)[i]] + RemoveAt(ItemsOf(entries, lru), i)
  {
  }

  lemma ItemsDistinct(entries: map<Id, Entry>, lru: seq<Id>, index: map<Key, Id>)
    requires OrderInv(entries, lru) && IndexInv(entries, index)
    ensures Distinct(Items(entries, lru))
  {
    var r := Items(entries, lru);
    forall i, j | 0 <= i < j < |r| ensures r[i].0 != r[j].0 {
      assert lru[i] in entries && lru[j] in entries;
    }
  }

  lemma FindLive(entries: map<Id, Entry>, lru: seq<Id>, index: map<Key, Id>, id: Id)
    requires OrderInv(entries, lru) && IndexInv(entries, index) && id in lru
    ensures Find(Items(entries, lru), entries[id].key) == IndexOf(lru, id)
  {
    ItemsDistinct(entries, lru, index);
    FindUnique(Items(entries, lru), IndexOf(lru, id));
  }

  /** The key of an entry outside the order is not in the list. */
  lemma FindAbsent(entries: map<Id, Entry>, lru: seq<Id>, index: map<Key, Id>, id: Id)
    requires OrderInv(entries, lru) && IndexInv(entries, index)
    requires id in entries && !entries[id].inLru && !entries[id].evicted
    ensures Find(Items(entries, lru), entries[id].key) == |lru|
  {
    forall i | 0 <= i < |lru| ensures Items(entries, lru)[i].0 != entries[id].key {
      assert lru[i] != id;
    }
  }

  // ---------------------------------------------------------------------
  // Eviction
  // ---------------------------------------------------------------------

  /** b is a but for the last entry of the order, which is out of the order in b. */
  ghost predicate LastLeft(a: map<Id, Entry>, b: map<Id, Entry>, lru: seq<Id>)
    requires |lru| > 0
  {
    var victim := lru[|lru| - 1];
    && (forall id :: id in a && id != victim ==> id in b && b[id] == a[id])
    && (forall id :: id in b && id != victim ==> id in a)
    && (victim in b ==> !b[victim].inLru)
  }

  lemma RestOrder(a: map<Id, Entry>, b: map<Id, Entry>, lru: seq<Id>)
    requires OrderInv(a, lru) && |lru| > 0 && LastLeft(a, b, lru)
    ensures OrderInv(b, lru[..|lru| - 1])
  {
    var n := |lru| - 1;
    var rest := lru[..n];
    assert lru == rest + [lru[n]];
    assert AllLive(b, rest) by {
      forall i | 0 <= i < n ensures rest[i] in b && Live(b[rest[i]]) { assert lru[i] != lru[n]; }
    }
  }

  lemma SameItem(a: map<Id, Entry>, b: map<Id, Entry>, lru: seq<Id>, i: nat)
    requires OrderInv(a, lru) && i < |lru| - 1 && LastLeft(a, b, lru)
    ensures lru[i] in a && lru[i] in b && b[lru[i]] == a[lru[i]]
  {
  }

  lemma OrderWithoutLast(a: map<Id, Entry>, b: map<Id, Entry>, lru: seq<Id>)
    requires OrderInv(a, lru) && |lru| > 0 && LastLeft(a, b, lru)
    ensures OrderInv(b, lru[..|lru| - 1])
    ensures Items(b, lru[..|lru| - 1]) == Items(a, lru)[..|lru| - 1]
  {
    hide OrderInv, Items, LastLeft;
    RestOrder(a, b, lru);
    var n := |lru| - 1;
    forall i | 0 <= i < n ensures Items(b, lru[..n])[i] == Items(a, lru)[i] {
      ItemAt(b, lru[..n], i);
      ItemAt(a, lru, i);
      SameItem(a, b, lru, i);
    }
  }

  /** Rewriting one settled entry that stays in the index. */
  lemma SetOne(entries: map<Id, Entry>, index: map<Key, Id>, id: Id, e: Entry, x: Id)
    requires IndexInv(entries, index) && FlagInv(entries, x) && id in entries && id != x
    requires !entries[id].evicted && !e.evicted && Settled(e) && SameRefs(entries[id], e)
    ensures IndexInv(entries[id := e], index) && FlagInv(entries[id := e], x) && Kept(entries, entries[id := e], x)
  {
  }

  /** Taking one entry out of the index, and out of memory if nobody holds it. */
  lemma DropOne(entries: map<Id, Entry>, index: map<Key, Id>, id: Id, e: Entry, x: Id)
    requires IndexInv(entries, index) && FlagInv(entries, x) && id in entries && id != x
    requires !entries[id].evicted && e.evicted && SameRefs(entries[id], e)
    requires e.waiters > 0 ==> Settled(e)
    requires !Busy(entries[id])
    ensures var i' := index - {e.key};
            && (e.waiters > 0 ==> IndexInv(entries[id := e], i') && FlagInv(entries[id := e], x) && Kept(entries, entries[id := e], x))
            && (e.waiters == 0 ==> IndexInv(entries - {id}, i') && FlagInv(entries - {id}, x) && Kept(entries, entries - {id}, x))
  {
  }

  lemma ItemAt(entries: map<Id, Entry>, lru: seq<Id>, i: nat)
    requires OrderInv(entries, lru) && i < |lru|
    ensures lru[i] in entries && Live(entries[lru[i]])
    ensures Items(entries, lru)[i] == (entries[lru[i]].key, entries[lru[i]].value.value)
  {
  }

  lemma EvictFields(s: Seg)
    requires Evictable(s)
    ensures var t, e := EvictLru(s), s.entries[s.lru[|s.lru| - 1]];
            && t.lru == s.lru[..|s.lru| - 1] && LastLeft(s.entries, t.entries, s.lru)
            && t.evictions == s.evictions + [(e.key, e.value.value)]
  {
  }

  lemma EvictOrder(s: Seg, t: Seg)
    requires Evictable(s) && OrderInv(s.entries, s.lru) && t == EvictLru(s)
    ensures OrderInv(t.entries, t.lru) && Items(t.entries, t.lru) == Items(s.entries, s.lru)[..|s.lru| - 1]
    ensures t.evictions == s.evictions + [Items(s.entries, s.lru)[|s.lru| - 1]]
  {
    hide OrderInv, Items, EvictLru, LastLeft;
    EvictFields(s);
    ItemAt(s.entries, s.lru, |s.lru| - 1);
    OrderWithoutLast(s.entries, t.entries, s.lru);
  }

  lemma EvictRest(s: Seg, x: Id, t: Seg)
    requires Evictable(s) && s.lru[|s.lru| - 1] != x && t == EvictLru(s)
    requires IndexInv(s.entries, s.index) && FlagInv(s.entries, x)
    requires var e := s.entries[s.lru[|s.lru| - 1]]; Live(e) && Settled(e)
    ensures IndexInv(t.entries, t.index) && FlagInv(t.entries, x) && Kept(s.entries, t.entries, x)
    ensures x in s.entries ==> x in t.entries && t.entries[x] == s.entries[x]
  {
    hide IndexInv, FlagInv, Kept;
    var victim := s.lru[|s.lru| - 1];
    var e := s.entries[victim];
    if e.setting {
      SetOne(s.entries, s.index, victim, e.(inLru := false, value := None), x);
    } else {
      var e' := e.(inLru := false, evicted := true);
      DropOne(s.entries, s.index, victim, e', x);
      assert s.entries[victim := e'] - {victim} == s.entries - {victim};
    }
  }

  /** An eviction keeps the segment well formed and removes exactly the least
      recently used item. */
  lemma EvictShape(s: Seg, x: Id)
    requires ShapeBut(s, x) && |s.lru| > 0 && s.lru[|s.lru| - 1] != x
    ensures Evictable(s)
    ensures var t := EvictLru(s);
            && ShapeBut(t, x) && Kept(s.entries, t.entries, x)
            && (x in s.entries ==> x in t.entries && t.entries[x] == s.entries[x])
            && Items(t.entries, t.lru) == Items(s.entries, s.lru)[..|s.lru| - 1]
            && t.evictions == s.evictions + [Items(s.entries, s.lru)[|s.lru| - 1]]
  {
    hide OrderInv, IndexInv, Items, Kept;
    ItemAt(s.entries, s.lru, |s.lru| - 1);
    EvictOrder(s, EvictLru(s));
    EvictRest(s, x, EvictLru(s));
  }

  // ---------------------------------------------------------------------
  // Storing a value
  // ---------------------------------------------------------------------

  lemma FillLive(s: Seg, id: Id, v: Value)
    requires ShapeBut(s, id) && id in s.lru
    ensures id in s.entries && ShapeBut(Fill(s, id, v), id) && Kept(s.entries, Fill(s, id, v).entries, id)
  {
    assert s.lru[IndexOf(s.lru, id)] == id;
  }

  lemma FillLiveItems(entries: map<Id, Entry>, lru: seq<Id>, id: Id, v: Value)
    requires OrderInv(entries, lru) && id in lru && id in entries
    requires OrderInv(entries[id := entries[id].(value := Some(v))], lru)
    ensures Items(entries[id := entries[id].(value := Some(v))], lru)
            == Items(entries, lru)[IndexOf(lru, id) := (entries[id].key, v)]
  {
    hide OrderInv, Items;
    var e' := entries[id := entries[id].(value := Some(v))];
    var i := IndexOf(lru, id);
    forall j | 0 <= j < |lru| ensures Items(e', lru)[j] == Items(entries, lru)[i := (entries[id].key, v)][j] {
      ItemAt(e', lru, j);
      ItemAt(entries, lru, j);
      if j != i { ItemsApart(entries, lru, i, j); }
    }
  }

  lemma ItemsApart(entries: map<Id, Entry>, lru: seq<Id>, i: nat, j: nat)
    requires OrderInv(entries, lru) && i < |lru| && j < |lru| && i != j
    ensures lru[i] != lru[j]
  {
  }

  /** Storing into a live entry is a put of its key: the value changes and the
      key moves to the front. */
  lemma StoreLive(s: Seg, id: Id, v: Value)
    requires ShapeBut(s, id) && id in s.lru
    ensures Storable(s, id)
    ensures var t := Store(s, id, v);
            && ShapeBut(t, id) && Kept(s.entries, t.entries, id)
            && View(t) == Apply(View(s), s.cap, Put(s.entries[id].key, v))
  {
    FillLive(s, id, v);
    FillLiveItems(s.entries, s.lru, id, v);
    var f := Fill(s, id, v);
    FrontIsUse(f.entries, f.lru, id);
    FindLive(s.entries, s.lru, s.index, id);
    assert s.entries[id].inLru by { assert s.lru[IndexOf(s.lru, id)] == id; }
    hide OrderInv, IndexInv, FlagInv, Kept, Items, MoveToFront;
    var i := IndexOf(s.lru, id);
    var was := Items(s.entries, s.lru);
    assert RemoveAt(was[i := (s.entries[id].key, v)], i) == RemoveAt(was, i);
  }

  /** Giving a placeholder its value, before it enters the order. */
  lemma FillNew(s: Seg, id: Id, v: Value)
    requires ShapeBut(s, id) && id in s.entries && !s.entries[id].inLru && !s.entries[id].evicted
    ensures var t := Fill(s, id, v);
            && ShapeBut(t, id) && Kept(s.entries, t.entries, id) && View(t) == View(s)
    ensures id !in s.lru
  {
    hide OrderInv, Items, IndexInv, FlagInv, Kept;
    FillNewOrder(s.entries, s.lru, id, v);
    FillRest(s.entries, s.index, id, v);
  }

  lemma FillRest(entries: map<Id, Entry>, index: map<Key, Id>, id: Id, v: Value)
    requires IndexInv(entries, index) && FlagInv(entries, id) && id in entries
    ensures var e' := entries[id := entries[id].(value := Some(v))]; IndexInv(e', index) && FlagInv(e', id) && Kept(entries, e', id)
  {
  }

  lemma FillNewOrder(entries: map<Id, Entry>, lru: seq<Id>, id: Id, v: Value)
    requires OrderInv(entries, lru) && id in entries && !entries[id].inLru
    ensures var e' := entries[id := entries[id].(value := Some(v))];
            OrderInv(e', lru) && Items(e', lru) == Items(entries, lru)
    ensures id !in lru
  {
    assert forall i :: 0 <= i < |lru| ==> lru[i] in entries && lru[i] != id;
    assert AllLive(entries[id := entries[id].(value := Some(v))], lru);
  }

  lemma RoomShape(s: Seg, id: Id)
    requires ShapeBut(s, id) && id in s.entries && id !in s.lru
    ensures s.size >= s.cap ==> Evictable(s)
    ensures var u := Room(s);
            && ShapeBut(u, id) && Kept(s.entries, u.entries, id) && u.size < u.cap == s.cap
            && id in u.entries && u.entries[id] == s.entries[id]
            && View(u) ==
               (if s.size < s.cap then View(s)
                else Lru(Items(s.entries, s.lru)[..|s.lru| - 1], s.evictions + [Items(s.entries, s.lru)[|s.lru| - 1]]))
  {
    hide OrderInv, IndexInv, FlagInv, Items;
    if s.size >= s.cap { EvictShape(s, id); }
  }

  lemma EnterShape(s: Seg, id: Id, v: Value)
    requires ShapeBut(s, id) && s.size < s.cap && id in s.entries && !s.entries[id].inLru
    requires !s.entries[id].evicted && !s.entries[id].fetching && s.entries[id].value == Some(v)
    ensures var t := Enter(s, id);
            && ShapeBut(t, id) && Kept(s.entries, t.entries, id)
            && View(t) == Lru([(s.entries[id].key, v)] + Items(s.entries, s.lru), s.evictions)
  {
    hide OrderInv, Items, IndexInv, FlagInv, Kept;
    EnterOrder(s.entries, s.lru, id, v);
    EnterRest(s.entries, s.index, id);
  }

  lemma EnterRest(entries: map<Id, Entry>, index: map<Key, Id>, id: Id)
    requires IndexInv(entries, index) && FlagInv(entries, id) && id in entries
    ensures var e' := entries[id := entries[id].(inLru := true)]; IndexInv(e', index) && FlagInv(e', id) && Kept(entries, e', id)
  {
  }

  lemma EnterOrder(entries: map<Id, Entry>, lru: seq<Id>, id: Id, v: Value)
    requires OrderInv(entries, lru) && id in entries && !entries[id].inLru
    requires !entries[id].evicted && !entries[id].fetching && entries[id].value == Some(v)
    ensures var e' := entries[id := entries[id].(inLru := true)];
            && OrderInv(e', [id] + lru)
            && Items(e', [id] + lru) == [(entries[id].key, v)] + Items(entries, lru)
  {
    var e' := entries[id := entries[id].(inLru := true)];
    assert forall i :: 0 <= i < |lru| ==> lru[i] in entries && lru[i] != id;
    assert AllLive(e', lru);
    assert ItemsOf(e', lru) == ItemsOf(entries, lru);
    assert AllLive(e', [id] + lru);
    assert NoRepeat([id] + lru);
    assert ([id] + lru)[1..] == lru;
    forall x | x in e' && e'[x].inLru ensures x in [id] + lru {
      if x != id { assert x in lru; }
    }
  }

  lemma KeptTrans(a: map<Id, Entry>, b: map<Id, Entry>, c: map<Id, Entry>, x: Id)
    requires Kept(a, b, x) && Kept(b, c, x)
    ensures Kept(a, c, x)
  {
  }

  /** Storing into a placeholder is a put of its key: the key comes in at the
      front, and in a full segment the least recently used item goes. */
  lemma StoreNew(s: Seg, id: Id, v: Value)
    requires ShapeBut(s, id) && id in s.entries && !s.entries[id].inLru
    requires !s.entries[id].evicted && !s.entries[id].fetching
    ensures Storable(s, id)
    ensures var t := Store(s, id, v);
            && ShapeBut(t, id) && Kept(s.entries, t.entries, id)
            && id in t.entries && t.entries[id] == s.entries[id].(value := Some(v), inLru := true)
            && View(t) == Apply(View(s), s.cap, Put(s.entries[id].key, v))
  {
    hide OrderInv, IndexInv, FlagInv, Kept, Items;
    FindAbsent(s.entries, s.lru, s.index, id);
    FillNew(s, id, v);
    var f := Fill(s, id, v);
    RoomShape(f, id);
    var u := Room(f);
    EnterShape(u, id, v);
    var t := Enter(u, id);
    KeptTrans(s.entries, f.entries, u.entries, id);
    KeptTrans(s.entries, u.entries, t.entries, id);
  }
}
