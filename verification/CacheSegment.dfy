// One segment of the cache: the entry table, the key index, the eviction order
// and the locked regions that change them. The pure functions below say what
// each locked region does to a segment; class Segment performs it step by step
// on its fields and is proved to do exactly that.

module CacheSegment {
  import opened Options
  import opened Orders
  import opened SequentialLru

  /** The address of an entry. A freed address may be handed out again. */
  type Id = nat

  datatype Entry = Entry(
    key: Key,
    value: Option<Value>,
    fetching: bool,      // a remote getter runs for the key
    setting: bool,       // a setter owns the entry
    evicted: bool,       // out of the index and the order, kept by references
    fetchFailed: bool,
    inLru: bool,
    waiters: nat)

  datatype Seg = Seg(
    cap: nat,
    hasGetter: bool,
    hasSetter: bool,
    entries: map<Id, Entry>,
    index: map<Key, Id>,
    lru: seq<Id>,                      // most recently used first
    size: nat,
    evictions: seq<(Key, Value)>)      // the eviction callback's calls so far

  datatype Code = Success(v: Option<Value>) | KeyNotFound | NotEnoughMemory | ContainerFull | UnexpectedFailure

  /** Where a call stands between two locked regions. */
  datatype Pc =
    | GetStart(k: Key)
    | SetStart(k: Key, v: Value)
    | GetWait(k: Key, id: Id)
    | SetWait(k: Key, v: Value, id: Id)
    | Fetching(k: Key, id: Id)
    | Fetched(k: Key, id: Id, r: Option<Value>)
    | Setting(k: Key, v: Value, id: Id)
    | SetReplied(k: Key, v: Value, id: Id, ok: bool)
    | Done(code: Code)

  function MoveToFront(s: seq<Id>, x: Id): seq<Id>
    requires x in s
  {
    [x] + RemoveAt(s, IndexOf(s, x))
  }

  // ---------------------------------------------------------------------
  // What the locked regions do
  // ---------------------------------------------------------------------

  /** Frees an entry that left the index once nobody holds a reference. */
  function FreeIfDead(s: Seg, id: Id): Seg
    requires id in s.entries
  {
    if s.entries[id].evicted && s.entries[id].waiters == 0
    then s.(entries := s.entries - {id})
    else s
  }

  predicate Evictable(s: Seg) {
    && s.size == |s.lru| > 0
    && var victim := s.lru[|s.lru| - 1];
       victim in s.entries && s.entries[victim].value.Some?
  }

  /** Evicts the entry at the tail of the order. An entry that a setter owns
      stays in the index as a placeholder. */
  function EvictLru(s: Seg): Seg
    requires Evictable(s)
  {
    var victim := s.lru[|s.lru| - 1];
    var e := s.entries[victim];
    var t := s.(lru := s.lru[..|s.lru| - 1], size := s.size - 1,
                evictions := s.evictions + [(e.key, e.value.value)]);
    if e.setting then
      t.(entries := t.entries[victim := e.(inLru := false, value := None)])
    else
      FreeIfDead(t.(index := t.index - {e.key},
                    entries := t.entries[victim := e.(inLru := false, evicted := true)]), victim)
  }

  /** Room for one more entry: nothing below the capacity, one eviction at it. */
  function Room(s: Seg): Seg
    requires s.size >= s.cap ==> Evictable(s)
  {
    if s.size >= s.cap then EvictLru(s) else s
  }

  predicate Storable(s: Seg, id: Id) {
    && id in s.entries
    && (s.entries[id].inLru ==> id in s.lru)
    && (!s.entries[id].inLru ==> s.size >= s.cap ==> Evictable(s) && s.lru[|s.lru| - 1] != id)
  }

  function Fill(s: Seg, id: Id, v: Value): Seg
    requires id in s.entries
  {
    s.(entries := s.entries[id := s.entries[id].(value := Some(v))])
  }

  function Enter(s: Seg, id: Id): Seg
    requires id in s.entries
  {
    s.(lru := [id] + s.lru, size := s.size + 1, entries := s.entries[id := s.entries[id].(inLru := true)])
  }

  function ToFront(s: Seg, id: Id): Seg
    requires id in s.lru
  {
    s.(lru := MoveToFront(s.lru, id))
  }

  /** Installs a value and puts the entry at the most recently used end. */
  function Store(s: Seg, id: Id, v: Value): Seg
    requires Storable(s, id)
  {
    if s.entries[id].inLru then ToFront(Fill(s, id, v), id) else Enter(Room(Fill(s, id, v)), id)
  }

  /** Takes the key out of the index and marks its entry dead. */
  function Retire(s: Seg, id: Id, failedFetch: bool): Seg
    requires id in s.entries
  {
    var e := s.entries[id];
    s.(index := s.index - {e.key}, entries := s.entries[id := e.(evicted := true, fetchFailed := failedFetch)])
  }

  predicate Busy(e: Entry) { e.fetching || e.setting }

  predicate GetReady(s: Seg, k: Key, fresh_: Id) {
    && fresh_ !in s.entries
    && (k in s.index ==> s.index[k] in s.entries && (!Busy(s.entries[s.index[k]]) ==> Readable(s, s.index[k])))
  }

  predicate Readable(s: Seg, id: Id) {
    id in s.entries && s.entries[id].value.Some? && (!s.entries[id].evicted ==> id in s.lru)
  }

  /** Hands out the value, and moves a live entry to the front unless the
      caller's copy could not be allocated. */
  function Read(s: Seg, id: Id, oom: bool): (Seg, Pc)
    requires Readable(s, id)
  {
    var e := s.entries[id];
    if oom then (s, Done(NotEnoughMemory))
    else (if e.evicted then s else ToFront(s, id), Done(Success(e.value)))
  }

  /** The first locked region of a get. `alloc` is what the allocator and the
      index insert answer for a placeholder, `oom` what it answers for a copy. */
  function GetBegin(s: Seg, k: Key, id: Id, alloc: Option<Code>, oom: bool): (Seg, Pc)
    requires GetReady(s, k, id)
  {
    if k !in s.index then
      if !s.hasGetter then (s, Done(KeyNotFound))
      else if alloc.Some? then (s, Done(alloc.value))
      else
        (s.(index := s.index[k := id],
            entries := s.entries[id := Entry(k, None, true, false, false, false, false, 1)]), Fetching(k, id))
    else
      var x := s.index[k];
      var e := s.entries[x];
      if Busy(e) then (s.(entries := s.entries[x := e.(waiters := e.waiters + 1)]), GetWait(k, x))
      else Read(s, x, oom)
  }

  predicate FetchReady(s: Seg, id: Id) {
    && id in s.entries && s.entries[id].waiters > 0
    && !s.entries[id].inLru && !s.entries[id].evicted
    && (s.size >= s.cap ==> Evictable(s) && s.lru[|s.lru| - 1] != id)
  }

  /** The locked region after the remote getter answered `r`. */
  function FetchEnd(s: Seg, id: Id, r: Option<Value>, oom: bool): (Seg, Pc)
    requires FetchReady(s, id)
  {
    var e := s.entries[id];
    var t := s.(entries := s.entries[id := e.(waiters := e.waiters - 1, fetching := false)]);
    match r
    case Some(v) => (Store(t, id, v), Done(if oom then NotEnoughMemory else Success(Some(v))))
    case None => (FreeIfDead(Retire(t, id, true), id), Done(KeyNotFound))
  }

  predicate WakeReady(s: Seg, id: Id) {
    && id in s.entries && s.entries[id].waiters > 0 && !Busy(s.entries[id])
    && (s.entries[id].value.Some? && !s.entries[id].evicted ==> id in s.lru)
  }

  /** A getter that waited on an entry goes on. Without a value it reports the
      failed fetch, or starts over after a failed set. */
  function GetResume(s: Seg, k: Key, id: Id, oom: bool): (Seg, Pc)
    requires WakeReady(s, id)
  {
    var e := s.entries[id];
    var t := s.(entries := s.entries[id := e.(waiters := e.waiters - 1)]);
    if e.value.None? then (FreeIfDead(t, id), if e.fetchFailed then Done(KeyNotFound) else GetStart(k))
    else
      var (u, pc) := Read(t, id, oom);
      (FreeIfDead(u, id), pc)
  }

  predicate OwnReady(s: Seg, id: Id) {
    && Storable(s, id)
    && !s.entries[id].evicted
  }

  /** A setter takes the entry. With a remote setter it leaves the lock holding a
      reference, without one it finishes at once. */
  function Own(s: Seg, k: Key, v: Value, id: Id): (Seg, Pc)
    requires OwnReady(s, id)
  {
    var e := s.entries[id];
    if s.hasSetter then
      (s.(entries := s.entries[id := e.(setting := true, waiters := e.waiters + 1)]), Setting(k, v, id))
    else
      SetFinish(s.(entries := s.entries[id := e.(setting := true)]), id, v, true)
  }

  function SetFinish(s: Seg, id: Id, v: Value, ok: bool): (Seg, Pc)
    requires OwnReady(s, id)
  {
    var t := if ok then Store(s, id, v) else if s.entries[id].inLru then s else Retire(s, id, false);
    var u := t.(entries := t.entries[id := t.entries[id].(setting := false)]);
    (FreeIfDead(u, id), Done(if ok then Success(None) else UnexpectedFailure))
  }

  predicate SetReady(s: Seg, k: Key, id: Id) {
    && id !in s.entries && id !in s.lru
    && (s.size >= s.cap ==> Evictable(s))
    && (k in s.index ==> s.index[k] in s.entries && (!Busy(s.entries[s.index[k]]) ==> OwnReady(s, s.index[k])))
  }

  /** The first locked region of a set. `copied` says whether the copy of the
      value, made before the lock is taken, could be allocated. */
  function SetBegin(s: Seg, k: Key, v: Value, id: Id, copied: bool, alloc: Option<Code>): (Seg, Pc)
    requires SetReady(s, k, id)
  {
    if !copied then (s, Done(NotEnoughMemory))
    else if k !in s.index then
      if alloc.Some? then (s, Done(alloc.value))
      else
        Own(s.(index := s.index[k := id],
               entries := s.entries[id := Entry(k, None, false, false, false, false, false, 0)]), k, v, id)
    else
      var x := s.index[k];
      var e := s.entries[x];
      if Busy(e) then (s.(entries := s.entries[x := e.(waiters := e.waiters + 1)]), SetWait(k, v, x))
      else Own(s, k, v, x)
  }

  predicate SetWakeReady(s: Seg, id: Id) {
    && WakeReady(s, id)
    && (!s.entries[id].evicted ==> Storable(s, id))
  }

  /** A setter that waited on an entry takes it, or looks the key up again when
      the entry died meanwhile. */
  function SetResume(s: Seg, k: Key, v: Value, id: Id): (Seg, Pc)
    requires SetWakeReady(s, id)
  {
    var e := s.entries[id];
    var t := s.(entries := s.entries[id := e.(waiters := e.waiters - 1)]);
    if e.evicted then (FreeIfDead(t, id), SetStart(k, v)) else Own(t, k, v, id)
  }

  predicate SetEndReady(s: Seg, id: Id) {
    OwnReady(s, id) && s.entries[id].waiters > 0
  }

  /** The locked region after the remote setter answered `ok`. */
  function SetEnd(s: Seg, id: Id, v: Value, ok: bool): (Seg, Pc)
    requires SetEndReady(s, id)
  {
    var e := s.entries[id];
    SetFinish(s.(entries := s.entries[id := e.(waiters := e.waiters - 1)]), id, v, ok)
  }
}
