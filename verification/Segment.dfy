// The segment as the program keeps it: an entry table, a key index and a doubly
// linked eviction order, which the locked regions update field by field. Every
// region keeps the segment valid and is one operation of the sequential list, or
// none; it leaves the state the functions of CacheSegment describe, so what is
// proved of executions holds of these methods.

module SegmentObject {
  import opened Options
  import opened Orders
  import opened SequentialLru
  import opened CacheSegment
  import opened CacheInvariant
  import opened CacheRegions
  import opened LinkedOrder

  ghost predicate SetBegan(s: Seg, k: Key, v: Value, id: Id, copied: bool, alloc: Option<Code>, r: (Seg, Pc)) {
    SetReady(s, k, id) && r == SetBegin(s, k, v, id, copied, alloc)
  }

  /** The links are those of the order and the flags say who is in it. */
  ghost predicate InPlace(next: map<Node<Id>, Node<Id>>, prev: map<Node<Id>, Node<Id>>, entries: map<Id, Entry>, lru: seq<Id>) {
    && Spells(next, prev, lru)
    && (forall id :: id in lru ==> id in entries && entries[id].inLru)
    && (forall id :: id in entries && entries[id].inLru ==> id in lru)
  }

  /** Rewriting an entry that stays in or out of the order. */
  lemma Rewritten(next: map<Node<Id>, Node<Id>>, prev: map<Node<Id>, Node<Id>>, entries: map<Id, Entry>, lru: seq<Id>, id: Id, e: Entry)
    requires InPlace(next, prev, entries, lru)
    requires if id in entries then e.inLru == entries[id].inLru else !e.inLru
    ensures InPlace(next, prev, entries[id := e], lru)
  {
    hide Spells;
  }

  lemma Freed(next: map<Node<Id>, Node<Id>>, prev: map<Node<Id>, Node<Id>>, entries: map<Id, Entry>, lru: seq<Id>, id: Id)
    requires InPlace(next, prev, entries, lru) && id in entries && !entries[id].inLru
    ensures InPlace(next, prev, entries - {id}, lru)
  {
    hide Spells;
  }

  lemma Flagged(next: map<Node<Id>, Node<Id>>, prev: map<Node<Id>, Node<Id>>, entries: map<Id, Entry>, lru: seq<Id>, id: Id)
    requires InPlace(next, prev, entries, lru)
    ensures id in lru <==> id in entries && entries[id].inLru
    ensures Spells(next, prev, lru)
  {
    hide Spells;
  }

  class Segment {
    const cap: nat
    const hasGetter: bool
    const hasSetter: bool
    var entries: map<Id, Entry>
    var index: map<Key, Id>
    var next: map<Node<Id>, Node<Id>>
    var prev: map<Node<Id>, Node<Id>>
    var size: nat
    var evictions: seq<(Key, Value)>
    ghost var lru: seq<Id>      // the order the links spell out

    constructor (capacity: nat, getter: bool, setter: bool)
      requires capacity > 0
      ensures Valid() && View(State()) == Lru([], [])
      ensures State() == Seg(capacity, getter, setter, map[], map[], [], 0, [])
    {
      cap, hasGetter, hasSetter := capacity, getter, setter;
      entries, index, lru, size, evictions := map[], map[], [], 0, [];
      next, prev := map[Head := Tail], map[Tail := Head];
      new;
      assert SegInv(State());
    }

    ghost function State(): Seg
      reads this
    {
      Seg(cap, hasGetter, hasSetter, entries, index, lru, size, evictions)
    }

    /** What holds whenever the lock is free: the entries, the index and the order
        agree, the links are those of the order and so are the flags. */
    ghost predicate Valid()
      reads this
    {
      SegInv(State()) && Placed()
    }

    /** What holds inside a region as well. */
    ghost predicate Placed()
      reads this
    {
      InPlace(next, prev, entries, lru)
    }

    /** The order is within the capacity and its tail can be evicted. */
    ghost predicate Ordered()
      reads this
    {
      && Placed() && 0 < cap && size == |lru| <= cap
      && (lru == [] || Evictable(State()))
    }

    /** Takes an entry out of the order by leading its neighbours past it; a no-op
        on an entry outside the order. */
    method Unlink(id: Id)
      requires Placed() && id in entries
      modifies this`next, this`prev, this`lru, this`entries
      ensures Placed() && id !in lru
      ensures lru == if id in old(lru) then RemoveAt(old(lru), IndexOf(old(lru), id)) else old(lru)
      ensures entries == old(entries)[id := old(entries)[id].(inLru := false)]
    {
      Flagged(next, prev, entries, lru, id);
      if !entries[id].inLru {
        assert entries == entries[id := entries[id].(inLru := false)];
        return;
      }
      ghost var q := IndexOf(lru, id);
      Neighbours(next, prev, lru, id);
      UnlinkedForward(next, lru, q);
      UnlinkedBackward(prev, lru, q);
      RemovedMembers(lru, q);
      hide Forward, Backward, NodeAt, RemoveAt, IndexOf;
      var after, before := next[At(id)], prev[At(id)];
      next := next[before := after] - {At(id)};
      prev := prev[after := before] - {At(id)};
      entries := entries[id := entries[id].(inLru := false)];
      lru := RemoveAt(lru, q);
    }

    /** Links an entry between the head and what followed it. */
    method LinkFront(id: Id)
      requires Placed() && id in entries && !entries[id].inLru
      modifies this`next, this`prev, this`lru, this`entries
      ensures Placed() && lru == [id] + old(lru)
      ensures entries == old(entries)[id := old(entries)[id].(inLru := true)]
    {
      Flagged(next, prev, entries, lru, id);
      FirstNode(next, lru);
      LinkedFirst(next, prev, lru, id);
      hide Spells, NodeAt;
      var first := next[Head];
      next := next[At(id) := first];
      prev := prev[At(id) := Head];
      prev := prev[first := At(id)];
      next := next[Head := At(id)];
      entries := entries[id := entries[id].(inLru := true)];
      lru := [id] + lru;
    }

    /** Makes an entry of the order its first one and leaves the others as they
        stood to each other. */
    method MoveFront(id: Id)
      requires Placed() && id in entries && entries[id].inLru
      modifies this`next, this`prev, this`lru, this`entries
      ensures Placed() && State() == ToFront(old(State()), id)
    {
      hide InPlace, RemoveAt, IndexOf;
      Flagged(next, prev, entries, lru, id);
      Unlink(id);
      LinkFront(id);
      assert entries == old(entries);
    }

    /** Frees a dead entry that nobody references. */
    method Reap(id: Id)
      requires Placed() && id in entries && (entries[id].evicted ==> !entries[id].inLru)
      modifies this`entries
      ensures Placed() && State() == FreeIfDead(old(State()), id)
      ensures id in entries ==> !entries[id].evicted || entries[id].waiters > 0
    {
      hide InPlace;
      if entries[id].evicted && entries[id].waiters == 0 {
        Freed(next, prev, entries, lru, id);
        entries := entries - {id};
      }
    }

    /** Evicts the last entry of the order, or reports that there is none. */
    method Evict() returns (evicted: bool)
      requires Placed() && (lru == [] || Evictable(State()))
      modifies this
      ensures Placed() && evicted == (old(lru) != [])
      ensures State() == if evicted then EvictLru(old(State())) else old(State())
    {
      hide InPlace, Spells, IndexOf;
      TailOf(this);
      var last := prev[Tail];
      if last == Head { return false; }
      var victim := last.id;
      Flagged(next, prev, entries, lru, victim);
      var e := entries[victim].(inLru := false);
      evictions := evictions + [(e.key, e.value.value)];
      Unlink(victim);
      size := size - 1;
      if e.setting {
        Rewritten(next, prev, entries, lru, victim, e.(value := None));
        entries := entries[victim := e.(value := None)];
        assert entries == old(entries)[victim := e.(value := None)];
        return true;
      }
      index := index - {e.key};
      Rewritten(next, prev, entries, lru, victim, e.(evicted := true));
      entries := entries[victim := e.(evicted := true)];
      assert entries == old(entries)[victim := e.(evicted := true)];
      Reap(victim);
      return true;
    }

    /** Evicts until there is room for one more entry. */
    method MakeRoom()
      requires Ordered()
      modifies this
      ensures Placed() && State() == Room(old(State())) && size < cap
    {
      hide InPlace;
      ghost var start := State();
      while size >= cap
        invariant Placed()
        invariant State() == start || (start.size >= cap && State() == EvictLru(start) && size < cap)
        decreases size
      {
        var more := Evict();
        if !more { break; }
      }
    }

    /** Installs a value and makes the entry the most recently used one. */
    method StoreValue(id: Id, v: Value)
      requires Ordered() && Storable(State(), id)
      modifies this
      ensures Placed() && State() == Store(old(State()), id, v)
    {
      hide InPlace, IndexOf;
      Rewritten(next, prev, entries, lru, id, entries[id].(value := Some(v)));
      entries := entries[id := entries[id].(value := Some(v))];
      if !entries[id].inLru {
        MakeRoom();
        LinkFront(id);
        size := size + 1;
      } else {
        MoveFront(id);
      }
    }

    /** Copies the value out and promotes a live entry. */
    method HandOut(id: Id, oom: bool) returns (pc: Pc)
      requires Placed() && Readable(State(), id)
      modifies this
      ensures Placed() && (State(), pc) == Read(old(State()), id, oom)
    {
      hide InPlace, IndexOf;
      Flagged(next, prev, entries, lru, id);
      if oom { return Done(NotEnoughMemory); }
      var copy := entries[id].value;
      if !entries[id].evicted { MoveFront(id); }
      return Done(Success(copy));
    }

    // -------------------------------------------------------------------
    // The locked regions
    // -------------------------------------------------------------------

    /** The first region of a get: a hit is one use of the key, a miss and a busy
        entry leave the list as it is. */
    method GetLocked(k: Key, id: Id, alloc: Option<Code>, oom: bool) returns (pc: Pc)
      requires Valid() && id !in entries && (alloc.Some? ==> !alloc.value.Success?)
      modifies this
      ensures Valid()
      ensures View(State()) == Apply(old(View(State())), cap, if Hit(old(State()), k) && !oom then Use(k) else Nothing)
      ensures (State(), pc) == GetBegin(old(State()), k, id, alloc, oom)
      ensures pc == if k !in old(index) then (if !hasGetter then Done(KeyNotFound) else if alloc.Some? then Done(alloc.value) else Fetching(k, id))
                    else if Busy(old(entries[index[k]])) then GetWait(k, old(index[k]))
                    else Done(if oom then NotEnoughMemory else Success(old(entries[index[k]].value)))
    {
      hide SegInv, InPlace, IndexOf, View, Kept, Accounts, Values, Settled;
      Placing(this);
      GetBegins(State(), k, id, alloc, oom);
      if k !in index {
        if !hasGetter { return Done(KeyNotFound); }
        if alloc.Some? { return Done(alloc.value); }
        var e := Entry(k, None, true, false, false, false, false, 0);
        Rewritten(next, prev, entries, lru, id, e.(waiters := 1));
        index := index[k := id];
        entries := entries[id := e.(waiters := e.waiters + 1)];
        return Fetching(k, id);
      }
      var x := index[k];
      if entries[x].fetching || entries[x].setting {
        Rewritten(next, prev, entries, lru, x, entries[x].(waiters := entries[x].waiters + 1));
        entries := entries[x := entries[x].(waiters := entries[x].waiters + 1)];
        return GetWait(k, x);
      }
      pc := HandOut(x, oom);
    }

    /** The region after the remote getter answered: a value is one put of the key,
        a failure leaves the list as it is. */
    method FetchReturned(id: Id, r: Option<Value>, oom: bool) returns (pc: Pc)
      requires Valid() && id in entries && entries[id].fetching && entries[id].waiters > 0
      modifies this
      ensures Valid()
      ensures View(State()) == Apply(old(View(State())), cap, if r.Some? then Put(old(entries)[id].key, r.value) else Nothing)
      ensures (State(), pc) == FetchEnd(old(State()), id, r, oom)
      ensures pc == Done(if r.None? then KeyNotFound else if oom then NotEnoughMemory else Success(r))
    {
      hide SegInv, InPlace, IndexOf, View, Kept, Accounts, Values, Settled;
      Placing(this);
      Fetches(State(), entries[id].key, id, r, oom);
      Rewritten(next, prev, entries, lru, id, entries[id].(waiters := entries[id].waiters - 1, fetching := false));
      entries := entries[id := entries[id].(waiters := entries[id].waiters - 1, fetching := false)];
      match r
      case Some(v) =>
        StoreValue(id, v);
        return Done(if oom then NotEnoughMemory else Success(Some(v)));
      case None =>
        index := index - {entries[id].key};
        Rewritten(next, prev, entries, lru, id, entries[id].(evicted := true, fetchFailed := true));
        entries := entries[id := entries[id].(evicted := true, fetchFailed := true)];
        Reap(id);
        return Done(KeyNotFound);
    }

    /** A get that waited goes on: a live value is one use of the key. */
    method GetWoken(k: Key, id: Id, oom: bool) returns (pc: Pc)
      requires Valid() && id in entries && entries[id].waiters > 0 && !Busy(entries[id]) && entries[id].key == k
      modifies this
      ensures Valid()
      ensures View(State()) == Apply(old(View(State())), cap, if old(entries)[id].inLru && !oom then Use(k) else Nothing)
      ensures (State(), pc) == GetResume(old(State()), k, id, oom)
      ensures pc == if old(entries[id].value).None? then (if old(entries[id].fetchFailed) then Done(KeyNotFound) else GetStart(k))
                    else Done(if oom then NotEnoughMemory else Success(old(entries[id].value)))
    {
      hide SegInv, InPlace, IndexOf, View, Kept, Accounts, Values, Settled;
      Placing(this);
      Resumes(State(), k, id, oom);
      Rewritten(next, prev, entries, lru, id, entries[id].(waiters := entries[id].waiters - 1));
      entries := entries[id := entries[id].(waiters := entries[id].waiters - 1)];
      if entries[id].value.None? {
        pc := if entries[id].fetchFailed then Done(KeyNotFound) else GetStart(k);
        Reap(id);
        return;
      }
      pc := HandOut(id, oom);
      Reap(id);
    }

    /** The end of a set that owns its entry: the value goes in, or a placeholder
        goes out. */
    method Finish(id: Id, v: Value, ok: bool) returns (pc: Pc)
      requires Ordered() && OwnReady(State(), id)
      modifies this
      ensures Placed() && (State(), pc) == SetFinish(old(State()), id, v, ok)
      ensures pc == Done(if ok then Success(None) else UnexpectedFailure)
    {
      hide InPlace, IndexOf;
      if ok { StoreValue(id, v); }
      if !ok && !entries[id].inLru {
        index := index - {entries[id].key};
        Rewritten(next, prev, entries, lru, id, entries[id].(evicted := true, fetchFailed := false));
        entries := entries[id := entries[id].(evicted := true, fetchFailed := false)];
      }
      Rewritten(next, prev, entries, lru, id, entries[id].(setting := false));
      entries := entries[id := entries[id].(setting := false)];
      Reap(id);
      return Done(if ok then Success(None) else UnexpectedFailure);
    }

    /** A set takes an entry. */
    method Take(k: Key, v: Value, id: Id) returns (pc: Pc)
      requires Ordered() && OwnReady(State(), id)
      modifies this
      ensures Placed() && (State(), pc) == Own(old(State()), k, v, id)
      ensures pc == if hasSetter then Setting(k, v, id) else Done(Success(None))
    {
      hide InPlace, IndexOf;
      var e := entries[id].(setting := true);
      if hasSetter {
        Rewritten(next, prev, entries, lru, id, e.(waiters := e.waiters + 1));
        entries := entries[id := e.(waiters := e.waiters + 1)];
        return Setting(k, v, id);
      }
      Rewritten(next, prev, entries, lru, id, e);
      entries := entries[id := e];
      pc := Finish(id, v, true);
    }

    /** The first region of a set: one put of the key when it takes an entry and
        there is no remote setter to call first. */
    method SetLocked(k: Key, v: Value, id: Id, copied: bool, alloc: Option<Code>) returns (pc: Pc)
      requires Valid() && id !in entries
      modifies this
      ensures Valid()
      ensures View(State()) == Apply(old(View(State())), cap, PutIf(TakesAtOnce(old(State()), k, copied, alloc) && !hasSetter, k, v))
      ensures SetBegan(old(State()), k, v, id, copied, alloc, (State(), pc))
      ensures pc == if !copied then Done(NotEnoughMemory)
                    else if k in old(index) && Busy(old(entries[index[k]])) then SetWait(k, v, old(index[k]))
                    else if k !in old(index) && alloc.Some? then Done(alloc.value)
                    else if hasSetter then Setting(k, v, if k in old(index) then old(index[k]) else id) else Done(Success(None))
    {
      hide SegInv, InPlace, IndexOf, View, Kept, Accounts, Values, Settled, Own, Apply;
      Placing(this);
      SetBegins(State(), k, v, id, copied, alloc);
      if !copied { return Done(NotEnoughMemory); }
      if k !in index {
        if alloc.Some? { return Done(alloc.value); }
        Rewritten(next, prev, entries, lru, id, Entry(k, None, false, false, false, false, false, 0));
        entries := entries[id := Entry(k, None, false, false, false, false, false, 0)];
        index := index[k := id];
        pc := Take(k, v, id);
        return;
      }
      var x := index[k];
      if !entries[x].fetching && !entries[x].setting {
        pc := Take(k, v, x);
        return;
      }
      Rewritten(next, prev, entries, lru, x, entries[x].(waiters := entries[x].waiters + 1));
      entries := entries[x := entries[x].(waiters := entries[x].waiters + 1)];
      return SetWait(k, v, x);
    }

    /** A set that waited takes its entry, or looks its key up again. */
    method SetWoken(k: Key, v: Value, id: Id) returns (pc: Pc)
      requires Valid() && id in entries && entries[id].waiters > 0 && !Busy(entries[id]) && entries[id].key == k
      modifies this
      ensures Valid()
      ensures View(State()) == Apply(old(View(State())), cap, PutIf(!old(entries)[id].evicted && !hasSetter, k, v))
      ensures (State(), pc) == SetResume(old(State()), k, v, id)
      ensures pc == if old(entries[id].evicted) then SetStart(k, v) else if hasSetter then Setting(k, v, id) else Done(Success(None))
    {
      hide SegInv, InPlace, IndexOf, View, Kept, Accounts, Values, Settled;
      Placing(this);
      SetResumes(State(), k, v, id);
      Rewritten(next, prev, entries, lru, id, entries[id].(waiters := entries[id].waiters - 1));
      entries := entries[id := entries[id].(waiters := entries[id].waiters - 1)];
      if !entries[id].evicted {
        pc := Take(k, v, id);
        return;
      }
      Reap(id);
      return SetStart(k, v);
    }

    /** The region after the remote setter answered: success is one put of the key,
        failure leaves the list as it is. */
    method SetReturned(id: Id, v: Value, ok: bool) returns (pc: Pc)
      requires Valid() && id in entries && entries[id].waiters > 0 && entries[id].setting
      modifies this
      ensures Valid()
      ensures View(State()) == Apply(old(View(State())), cap, PutIf(ok, old(entries)[id].key, v))
      ensures (State(), pc) == SetEnd(old(State()), id, v, ok)
      ensures pc == Done(if ok then Success(None) else UnexpectedFailure)
    {
      hide SegInv, InPlace, IndexOf, View, Kept, Accounts, Values, Settled;
      Placing(this);
      SetEnds(State(), entries[id].key, v, id, ok);
      Rewritten(next, prev, entries, lru, id, entries[id].(waiters := entries[id].waiters - 1));
      entries := entries[id := entries[id].(waiters := entries[id].waiters - 1)];
      pc := Finish(id, v, ok);
    }
  }

  /** A valid segment is in order, and its flags say which entries are. */
  lemma Placing(g: Segment)
    requires g.Valid()
    ensures g.Ordered()
    ensures forall id :: id in g.entries && g.entries[id].evicted ==> !g.entries[id].inLru
  {
    hide Items, InPlace;
    if g.lru != [] { ItemAt(g.entries, g.lru, |g.lru| - 1); }
  }

  /** The tail sentinel points back to the last entry, or to the head. */
  lemma TailOf(g: Segment)
    requires g.Placed()
    ensures Tail in g.prev && g.prev[Tail] == if g.lru == [] then Head else At(g.lru[|g.lru| - 1])
    ensures g.lru != [] ==> var n := |g.lru| - 1; g.lru[n] in g.lru && RemoveAt(g.lru, IndexOf(g.lru, g.lru[n])) == g.lru[..n]
  {
    LastNode(g.prev, g.lru);
    if g.lru != [] { LastIndex(g.lru); }
  }

  lemma LastIndex(s: seq<Id>)
    requires |s| > 0 && NoRepeat(s)
    ensures IndexOf(s, s[|s| - 1]) == |s| - 1
  {
  }
}
