// The map object: its fields change in place, and every public operation is
// stated on the entries it stands for.

module OpenMapObject {
  import opened Options
  import opened ProbeTable
  import opened Powers
  import opened MapTypes
  import opened OpenAddressing
  import opened InsertWindow
  import opened OpenMap

  /** Which of an operation's allocations succeed, should it come to them. */
  datatype Memory = Memory(resize: bool, deepSwitch: bool, windowSwitch: bool)

  /** The table holds m in the mode's layout; a fast one that is not overdue a
      switch keeps every entry within the cap. */
  ghost predicate Layout(hash: Hash, t: Table, keyed: bool, span: nat, overdue: bool, m: map<Key, Val>) {
    && Capacity(|t|) && MinSpan(|t|) <= span <= |t|
    && Good(t, HomeOf(hash, keyed, |t|), span, m)
    && (!keyed && !overdue ==> Within(t, HomeOf(hash, keyed, |t|), InsertCap(|t|) + 1))
  }

  lemma GoodWithin(t: Table, h: Home, span: nat, m: map<Key, Val>, cap: nat)
    requires Good(t, h, span, m) && span <= cap
    ensures Within(t, h, cap)
  {
  }

  lemma GoodSize(t: Table, h: Home, span: nat, m: map<Key, Val>)
    requires Good(t, h, span, m)
    ensures |m| == Count(t)
  {
    MapOfSize(t);
    MapOfHolds(t);
    HoldsOnce(t, MapOf(t), m);
  }

  lemma Fresh(hash: Hash, t: Table, keyed: bool)
    requires Capacity(|t|) && AllEmpty(t)
    ensures Count(t) == 0 && Layout(hash, t, keyed, MinSpan(|t|), false, map[])
  {
    hide IsPow2, InsertCap, Count;
    HomeInRange(hash, keyed, |t|);
    GoodEmpty(t, HomeOf(hash, keyed, |t|));
  }

  lemma Rebuilt(hash: Hash, t: Table, keyed: bool, largest: nat, m: map<Key, Val>)
    requires Capacity(|t|) && Good(t, HomeOf(hash, keyed, |t|), largest + 1, m) && largest < |t|
    requires !keyed ==> largest <= InsertCap(|t|)
    ensures Layout(hash, t, keyed, Max(largest + 1, MinSpan(|t|)), false, m)
  {
    hide IsPow2, InsertCap, HomeOf, Good;
    GoodWider(t, HomeOf(hash, keyed, |t|), largest + 1, m, Max(largest + 1, MinSpan(|t|)));
    if !keyed { GoodWithin(t, HomeOf(hash, keyed, |t|), largest + 1, m, InsertCap(|t|) + 1); }
  }

  /** A new entry in the first free slot of its probe sequence. */
  lemma LayoutWrite(hash: Hash, t: Table, keyed: bool, span: nat, overdue: bool, m: map<Key, Val>, i: nat, k: Key, v: Val)
    requires Layout(hash, t, keyed, span, overdue, m) && i < |t| && t[i].Empty? && k !in m
    requires PathFull(t, HomeOf(hash, keyed, |t|)(k), i)
    ensures var d := Dist(HomeOf(hash, keyed, |t|)(k), i, |t|);
      && Layout(hash, t[i := Full(k, v)], keyed, Max(span, d + 1), overdue || (!keyed && d > InsertCap(|t|)), m[k := v])
      && Count(t[i := Full(k, v)]) == Count(t) + 1
      && (d >= span ==> d >= DEEP_INSERT)
  {
    hide IsPow2, InsertCap, HomeOf, ProbeInv, UniqueKeys, Holds, Count, PathFull;
    GoodWrite(t, HomeOf(hash, keyed, |t|), span, m, i, k, v);
  }

  lemma LayoutDelete(hash: Hash, t: Table, keyed: bool, span: nat, overdue: bool, m: map<Key, Val>, i: nat)
    requires Layout(hash, t, keyed, span, overdue, m) && i < |t| && t[i].Full?
    ensures var cap := if !keyed && !overdue then InsertCap(|t|) + 1 else span;
      Gap(t[i := Empty], HomeOf(hash, keyed, |t|), span, cap, i, i, m - {t[i].k})
    ensures Count(t[i := Empty]) + 1 == Count(t)
  {
    hide IsPow2, InsertCap, HomeOf, HoleInv, ProbeInv, UniqueKeys, Holds, Count, PathFull, Scanned;
    var h := HomeOf(hash, keyed, |t|);
    Emptied(t, h, span, i);
    RemoveHolds(t, m, i);
    GoodWithin(t, h, span, m, span);
  }

  lemma LayoutOverwrite(hash: Hash, t: Table, keyed: bool, span: nat, overdue: bool, m: map<Key, Val>, i: nat, v: Val)
    requires Layout(hash, t, keyed, span, overdue, m) && i < |t| && t[i].Full?
    ensures Layout(hash, t[i := Full(t[i].k, v)], keyed, span, overdue, m[t[i].k := v])
    ensures Count(t[i := Full(t[i].k, v)]) == Count(t)
  {
    hide IsPow2, InsertCap, HomeOf, ProbeInv, UniqueKeys, Holds, Count, PathFull;
    Overwritten(t, HomeOf(hash, keyed, |t|), span, m, i, v);
  }

  /** Fills an empty block for a rebuild: the wanted hash first, and the keyed
      one over it when the fast one shows itself bad for these keys. */
  method FillBlock(src: array<Slot>, count: nat, keyed: bool, a: array<Slot>, hash: Hash, want: bool, ghost m: map<Key, Val>)
    returns (largest: nat, mode: bool)
    requires src != a && Count(src[..]) == count <= a.Length && a.Length > 0
    requires UniqueKeys(src[..]) && Holds(src[..], m) && AllEmpty(a[..])
    modifies a
    ensures InRange(HomeOf(hash, false, a.Length), a.Length)
    ensures var f := Refill(src[..], HomeOf(hash, false, a.Length), a.Length);
      mode <==> want || f.largest > InsertCap(a.Length) || (keyed && f.sum > count + 64)
    ensures Good(a[..], HomeOf(hash, mode, a.Length), largest + 1, m) && largest < a.Length && Count(a[..]) == count
    ensures !mode ==> largest <= InsertCap(a.Length)
    ensures InRange(HomeOf(hash, mode, a.Length), a.Length)
    ensures a[..] == Refill(src[..], HomeOf(hash, mode, a.Length), a.Length).table
  {
    hide Good, UniqueKeys, Holds, Count, InsertCap, Refill, HomeOf;
    ghost var t := src[..];
    var n := a.Length;
    HomeInRange(hash, false, n);
    HomeInRange(hash, true, n);
    mode := want;
    var bad := false;
    if !want && keyed {
      var attempt, _ := FastAttempt(src, count, a, HomeOf(hash, false, n), m);
      match attempt {
        case None => largest, bad := 0, true;
        case Some(most) => largest := most;
      }
    } else {
      largest := PlaceAll(src, a, HomeOf(hash, want, n), m);
      bad := !want && largest > InsertCap(n);
    }
    assert src[..] == t;
    if bad {
      forall i | 0 <= i < n { a[i] := Empty; }
      assert src[..] == t;
      mode := true;
      largest := PlaceAll(src, a, HomeOf(hash, true, n), m);
    }
  }

  lemma AllFull(t: Table, home: nat, p: nat)
    requires home < |t| && p < |t| && PathFull(t, home, p) && t[p].Full? && Dist(home, p, |t|) + 1 == |t|
    ensures Count(t) == |t|
  {
    FullCount(t);
  }

  lemma {:induction false} SomeFree(t: Table, p: nat)
    requires p < |t| && t[p].Empty?
    ensures Count(t) < |t|
  {
    if p < |t| - 1 { SomeFree(t[..|t| - 1], p); }
  }

  lemma HalfCapacity(n: nat)
    requires Capacity(n) && n > MIN_CAPACITY
    ensures Capacity(n / 2)
  {
    MaxIsPow2();
    Pow2Gap(MIN_CAPACITY, n);
  }

  lemma CapIsDeep(n: nat)
    requires n >= MIN_CAPACITY
    ensures InsertCap(n) >= 96
  {
    assert Log2(n) >= 4 by {
      assert Log2(n / 2) >= 3 by { assert Log2(n / 2 / 2) >= 2 by { assert Log2(n / 2 / 2 / 2) >= 1; } }
    }
  }

  class HashMap {
    const hash: Hash
    const boundOf: (nat, nat) -> nat
    var slots: array<Slot>
    var count: nat
    var span: nat
    var keyed: bool
    var window: nat
    var bound: nat
    ghost var contents: map<Key, Val>
    /** A fast table holds an entry past the cap because the memory for its
        switch was not there. */
    ghost var overdue: bool

    ghost predicate Valid()
      reads this, slots
    {
      count == Count(slots[..]) && Layout(hash, slots[..], keyed, span, overdue, contents)
    }

    function CurrentHome(): Home
      reads this
    {
      HomeOf(hash, keyed, slots.Length)
    }

    constructor (hash: Hash, boundOf: (nat, nat) -> nat, capacity: nat)
      requires Capacity(capacity)
      ensures Valid() && contents == map[] && !keyed && fresh(slots) && slots.Length == capacity
    {
      this.hash := hash;
      this.boundOf := boundOf;
      slots := new Slot[capacity](_ => Empty);
      count := 0;
      span := MinSpan(capacity);
      keyed := false;
      window, bound := WINDOW_START, 0xFFFF;
      contents := map[];
      overdue := false;
      new;
      Fresh(hash, slots[..], false);
    }

    lemma ValidGood()
      requires Valid()
      ensures Good(slots[..], CurrentHome(), span, contents)
    {
    }

    method RestartWindow()
      modifies this`window, this`bound
      ensures window == WINDOW_START && bound == if keyed then 0xFFFF else boundOf(count, slots.Length)
    {
      window := WINDOW_START;
      bound := if keyed then 0xFFFF else boundOf(count, slots.Length);
    }

    /** Rebuilds the table at n slots. The entries stay; the mode and the layout
        that result are functions of the old table. */
    method Rebuild(n: nat, want: bool, alloc: bool)
      requires Valid() && Capacity(n) && count <= n
      modifies this
      ensures Valid() && contents == old(contents) && count == old(count)
      ensures !alloc ==> slots == old(slots) && keyed == old(keyed) && overdue == old(overdue) && span == old(span)
      ensures !alloc ==> window == old(window) && bound == old(bound)
      ensures alloc ==> fresh(slots) && slots.Length == n && !overdue
      ensures alloc ==> window == WINDOW_START && bound == if keyed then 0xFFFF else boundOf(count, n)
      ensures InRange(HomeOf(hash, false, n), n)
      ensures alloc ==> var f := Refill(old(slots[..]), HomeOf(hash, false, n), n);
        keyed <==> || want || f.largest > InsertCap(n)
                   || (old(keyed) && f.sum > count + 64)
    {
      hide IsPow2, UniqueKeys, Holds, ProbeInv, Count, InsertCap, Layout, Refill, HomeOf, InRange;
      HomeInRange(hash, false, n);
      if !alloc { return; }
      ValidGood();
      var a := new Slot[n](_ => Empty);
      var largest, mode := FillBlock(slots, count, keyed, a, hash, want, contents);
      Rebuilt(hash, a[..], mode, largest, contents);
      slots := a;
      keyed := mode;
      span := Max(largest + 1, MinSpan(n));
      overdue := false;
      RestartWindow();
    }

    /** The slot of a key, found within span slots of its home or not at all. */
    method Lookup(k: Key) returns (r: Option<nat>)
      requires Valid()
      ensures r.Some? <==> k in contents
      ensures r.Some? ==> r.value < slots.Length && slots[r.value] == Full(k, contents[k])
    {
      hide IsPow2, InsertCap, Count, ProbeInv, UniqueKeys, Holds, PathFull, NotBefore, HomeOf;
      var index, walked := Probe(slots, CurrentHome(), k, span);
      if IsKey(slots[index], k) {
        Met(slots[..], CurrentHome(), span, contents, index);
        r := Some(index);
      } else {
        Missed(slots[..], CurrentHome(), span, contents, k, index);
        r := None;
      }
    }

    /** Switches to the keyed hash at the same capacity, and gives the slot the
        key then has. Without memory the table stays as it is. */
    method SwitchKeeping(k: Key, index: nat, alloc: bool) returns (slot: nat)
      requires Valid() && k in contents && index < slots.Length && slots[index] == Full(k, contents[k])
      modifies this
      ensures Valid() && contents == old(contents) && count == old(count) && slots.Length == old(slots.Length)
      ensures slot < slots.Length && slots[slot] == Full(k, contents[k])
      ensures alloc ==> keyed && !overdue && fresh(slots) && window == WINDOW_START && bound == 0xFFFF
      ensures !alloc ==> slots == old(slots) && keyed == old(keyed) && overdue == old(overdue)
      ensures !alloc ==> window == old(window) && bound == old(bound)
    {
      hide IsPow2, InsertCap, Good, Count, Within, HomeOf;
      slot := index;
      Rebuild(slots.Length, true, alloc);
      if alloc {
        var r := Lookup(k);
        slot := r.value;
      }
    }

    /** Writes a new entry into the slot its probe found and widens the span
        to cover it. */
    method Store(index: nat, k: Key, v: Val, d: nat)
      requires Valid() && k !in contents && index < slots.Length && slots[index].Empty?
      requires CurrentHome()(k) < slots.Length && PathFull(slots[..], CurrentHome()(k), index)
      requires d == Dist(CurrentHome()(k), index, slots.Length)
      modifies this`count, this`span, this`contents, this`overdue, slots
      ensures Valid() && contents == old(contents)[k := v] && count == old(count) + 1 && slots[index] == Full(k, v)
      ensures overdue == (old(overdue) || (!keyed && d > InsertCap(slots.Length)))
    {
      hide Layout, InsertCap, Count, HomeOf, PathFull;
      ghost var t := slots[..];
      LayoutWrite(hash, t, keyed, span, overdue, contents, index, k, v);
      slots[index] := Full(k, v);
      assert slots[..] == t[index := Full(k, v)];
      contents := contents[k := v];
      count := count + 1;
      overdue := overdue || (!keyed && d > InsertCap(slots.Length));
      if d >= DEEP_INSERT && d >= span { span := d + 1; }
    }

    /** Adds an insert to the window; the insert that ends it switches a fast
        table whose walks add up to more than the bound. */
    method NoteWindow(k: Key, index: nat, walk: nat, alloc: bool) returns (slot: nat)
      requires Valid() && k in contents && index < slots.Length && slots[index] == Full(k, contents[k])
      modifies this
      ensures Valid() && contents == old(contents) && count == old(count) && slots.Length == old(slots.Length)
      ensures slot < slots.Length && slots[slot] == Full(k, contents[k]) && (slots == old(slots) || fresh(slots))
      ensures overdue ==> old(overdue)
      ensures var ends := WindowAdd(old(window), walk);
        && (keyed <==> old(keyed) || (ends.1 && ends.0 > old(bound) && alloc))
        && window == (if ends.1 then WINDOW_START else ends.0)
        && bound == if !ends.1 then old(bound) else if keyed then 0xFFFF else boundOf(count, slots.Length)
    {
      hide Layout, Count, WindowAdd;
      slot := index;
      var (sum, ended) := WindowAdd(window, walk);
      window := sum;
      if ended {
        var switchNow := !keyed && window > bound;
        RestartWindow();
        if switchNow { slot := SwitchKeeping(k, index, alloc); }
      }
    }

    /** Finishes the insert of a new key: writes it, and reports its displacement
        to the cap and to the window, either of which may switch the table. */
    method Land(index: nat, k: Key, v: Val, mem: Memory) returns (slot: nat)
      requires Valid() && k !in contents && index < slots.Length && slots[index].Empty?
      requires CurrentHome()(k) < slots.Length && PathFull(slots[..], CurrentHome()(k), index)
      modifies this, slots
      ensures Valid() && contents == old(contents)[k := v] && count == old(count) + 1
      ensures slots.Length == old(slots.Length) && slot < slots.Length && slots[slot] == Full(k, v)
      ensures slots == old(slots) || fresh(slots)
      ensures overdue ==> old(overdue) || !mem.deepSwitch
      ensures var d := Dist(old(CurrentHome()(k)), index, slots.Length);
        var ends := WindowAdd(old(window), d);
        keyed <==> || old(keyed) || (d > InsertCap(slots.Length) && mem.deepSwitch)
                   || (ends.1 && ends.0 > old(bound) && mem.windowSwitch)
    {
      hide Layout, Count, WindowAdd, InsertCap, HomeOf, PathFull, IsPow2;
      ValidSize();
      CapIsDeep(slots.Length);
      var d := Dist(CurrentHome()(k), index, slots.Length);
      Store(index, k, v, d);
      slot := index;
      if d >= DEEP_INSERT && !keyed && d > InsertCap(slots.Length) {
        slot := SwitchKeeping(k, index, mem.deepSwitch);
      }
      slot := NoteWindow(k, slot, d, mem.windowSwitch);
    }

    lemma ValidSize()
      requires Valid()
      ensures count == |contents| <= slots.Length && Capacity(slots.Length)
    {
      GoodSize(slots[..], CurrentHome(), span, contents);
    }

    method Overwrite(index: nat, v: Val)
      requires Valid() && index < slots.Length && slots[index].Full?
      modifies this`contents, slots
      ensures Valid() && contents == old(contents)[old(slots[index].k) := v]
      ensures slots[..] == old(slots[..])[index := Full(old(slots[index].k), v)]
    {
      hide Layout, Count;
      ghost var t := slots[..];
      LayoutOverwrite(hash, t, keyed, span, overdue, contents, index, v);
      contents := contents[slots[index].k := v];
      slots[index] := Full(slots[index].k, v);
      assert slots[..] == t[index := Full(t[index].k, v)];
    }

    /** The probe of the insert path, over the whole ring. */
    method ProbeAll(k: Key) returns (index: nat)
      requires Valid()
      ensures index < slots.Length && CurrentHome()(k) < slots.Length && PathFull(slots[..], CurrentHome()(k), index)
      ensures IsKey(slots[index], k) <==> k in contents
      ensures IsKey(slots[index], k) ==> slots[index] == Full(k, contents[k])
      ensures k !in contents ==> (slots[index].Full? <==> count == slots.Length)
    {
      hide IsPow2, InsertCap, Count, ProbeInv, UniqueKeys, Holds, PathFull, NotBefore, HomeOf;
      ghost var t := slots[..];
      var walked;
      index, walked := Probe(slots, CurrentHome(), k, slots.Length);
      if IsKey(slots[index], k) {
        Met(t, CurrentHome(), span, contents, index);
      } else {
        Missed(t, CurrentHome(), span, contents, k, index);
        if slots[index].Full? {
          AllFull(t, CurrentHome()(k), index);
        } else {
          SomeFree(t, index);
        }
      }
    }

    /** The growth path of a new key: rebuild larger, probe again; or, without
        the memory, the slot already found. */
    method InsertGrowing(k: Key, v: Val, found: nat, mem: Memory) returns (code: Code, slot: nat)
      requires Valid() && k !in contents && 10 * count > 7 * slots.Length && slots.Length < MAX_CAPACITY
      requires found < slots.Length && CurrentHome()(k) < slots.Length && PathFull(slots[..], CurrentHome()(k), found)
      requires slots[found].Full? <==> count == slots.Length
      modifies this, slots
      ensures Valid() && (slots == old(slots) || fresh(slots)) && (overdue ==> old(overdue) || !mem.deepSwitch)
      ensures code == if old(count) == old(slots.Length) && !mem.resize then NotEnoughMemory else Success
      ensures count == old(count) + (if code.Success? then 1 else 0)
      ensures contents == if code.Success? then old(contents)[k := v] else old(contents)
      ensures code.Success? ==> slot < slots.Length && slots[slot] == Full(k, v)
      ensures slots.Length == if mem.resize then (if old(count) < old(slots.Length) || 2 * old(slots.Length) == MAX_CAPACITY then 2 * old(slots.Length) else 4 * old(slots.Length))
                              else old(slots.Length)
    {
      hide Layout, InsertCap, Count, HomeOf, PathFull, Capacity, RehashCapacity, WindowAdd, AboveGrowLoad, CeilPow2;
      ValidSize();
      assert slots.Length <= MAX_CAPACITY && count != MAX_CAPACITY;
      GrowthCapacity(count, slots.Length);
      var index := found;
      Rebuild(RehashCapacity(count + 1), false, mem.resize);
      if mem.resize {
        index := ProbeFree(k);
      } else if slots[found].Full? {
        return NotEnoughMemory, 0;
      }
      slot := Land(index, k, v, mem);
      code := Success;
    }

    /** The first free slot for a key the table does not hold. */
    method ProbeFree(k: Key) returns (index: nat)
      requires Valid() && k !in contents && count < slots.Length
      ensures index < slots.Length && slots[index].Empty?
      ensures CurrentHome()(k) < slots.Length && PathFull(slots[..], CurrentHome()(k), index)
    {
      hide Good, InsertCap, Count, PathFull, IsPow2;
      var walked;
      index, walked := FirstFree(slots, CurrentHome()(k), slots.Length);
    }

    /** Inserts a new key, or overwrites (or, with keep, leaves) the value of a
        key already there. */
    method Insert(k: Key, v: Val, keep: bool, mem: Memory) returns (code: Code, slot: nat)
      requires Valid()
      modifies this, slots
      ensures Valid() && (slots == old(slots) || fresh(slots)) && (overdue ==> old(overdue) || !mem.deepSwitch)
      ensures code.KeyAlreadyPresent? <==> k in old(contents)
      ensures code.ContainerFull? <==> k !in old(contents) && old(count) == MAX_CAPACITY
      ensures code.NotEnoughMemory? <==> k !in old(contents) && old(count) == old(slots.Length) < MAX_CAPACITY && !mem.resize
      ensures !code.KeyNotFound? && count == old(count) + (if code.Success? then 1 else 0)
      ensures contents == if code.Success? || (code.KeyAlreadyPresent? && !keep) then old(contents)[k := v] else old(contents)
      ensures code.Success? || code.KeyAlreadyPresent? ==> slot < slots.Length && slots[slot] == Full(k, contents[k])
      ensures var n := old(slots.Length);
        slots.Length == if code.Success? && 10 * old(count) > 7 * n && n < MAX_CAPACITY && mem.resize
                        then (if old(count) < n || 2 * n == MAX_CAPACITY then 2 * n else 4 * n) else n
      ensures k in old(contents) ==> slots == old(slots)
    {
      hide Layout, InsertCap, Count, HomeOf, PathFull, RehashCapacity, WindowAdd;
      var index := ProbeAll(k);
      assert count <= slots.Length <= MAX_CAPACITY by { ValidSize(); }
      slot := index;
      if IsKey(slots[index], k) {
        if !keep { Overwrite(index, v); }
        return KeyAlreadyPresent, index;
      }
      if count == MAX_CAPACITY { return ContainerFull, index; }
      if AboveGrowLoad(count, slots.Length) && slots.Length < MAX_CAPACITY {
        code, slot := InsertGrowing(k, v, index, mem);
      } else {
        slot := Land(index, k, v, mem);
        code := Success;
      }
    }

    /** Takes the entry out of its slot and closes the gap. */
    method Unslot(index: nat)
      requires Valid() && index < slots.Length && slots[index].Full?
      modifies this`contents, this`count, slots
      ensures Valid() && contents == old(contents) - {old(slots[index].k)} && count + 1 == old(count)
    {
      hide InsertCap, Count, HomeOf, Gap, Good, Within, IsPow2;
      ghost var t := slots[..];
      var h := CurrentHome();
      ghost var cap := if !keyed && !overdue then InsertCap(slots.Length) + 1 else span;
      LayoutDelete(hash, t, keyed, span, overdue, contents, index);
      contents := contents - {t[index].k};
      slots[index] := Empty;
      assert slots[..] == t[index := Empty];
      if slots[Next(index, slots.Length)].Full? {
        CloseGap(slots, h, span, index, cap, contents);
      } else {
        GapEnd(slots[..], h, span, cap, index, index, contents);
      }
      count := count - 1;
    }

    /** Deletes a key, and halves a table less than a quarter full. */
    method Delete(k: Key, resize: bool) returns (code: Code)
      requires Valid()
      modifies this, slots
      ensures Valid() && (slots == old(slots) || fresh(slots))
      ensures code == if k in old(contents) then Success else KeyNotFound
      ensures contents == old(contents) - {k} && count + (if code.Success? then 1 else 0) == old(count)
      ensures k !in old(contents) ==> slots == old(slots) && slots[..] == old(slots[..])
      ensures (overdue ==> old(overdue)) && (old(keyed) ==> keyed)
      ensures slots.Length ==
        if k in old(contents) && |contents| < old(slots.Length) / 4 && old(slots.Length) > MIN_CAPACITY && resize then old(slots.Length) / 2
        else old(slots.Length)
    {
      hide Layout, Count, Refill, InsertCap, HomeOf;
      var r := Lookup(k);
      if r.None? { return KeyNotFound; }
      Unslot(r.value);
      ValidSize();
      if count < slots.Length / 4 && slots.Length > MIN_CAPACITY {
        HalfCapacity(slots.Length);
        Rebuild(slots.Length / 2, keyed, resize);
      }
      code := Success;
    }

    /** Destroys every entry, whatever comes of the memory for a new size. */
    method Reset(capacity: nat, alloc: bool) returns (code: Code)
      requires Valid() && (capacity == 0 || Capacity(capacity))
      modifies this, slots
      ensures Valid() && contents == map[] && keyed == old(keyed) && (slots == old(slots) || fresh(slots))
      ensures code == if capacity == 0 || capacity == old(slots.Length) || alloc then Success else NotEnoughMemory
      ensures slots.Length == if capacity == 0 || !alloc then old(slots.Length) else capacity
    {
      hide IsPow2, InsertCap, Count, Good, HomeOf, Within;
      code := Success;
      if capacity == 0 || capacity == slots.Length || !alloc {
        if capacity != 0 && capacity != slots.Length { code := NotEnoughMemory; }
        forall i | 0 <= i < slots.Length { slots[i] := Empty; }
      } else {
        slots := new Slot[capacity](_ => Empty);
      }
      count := 0;
      span := MinSpan(slots.Length);
      contents := map[];
      overdue := false;
      Fresh(hash, slots[..], keyed);
      RestartWindow();
    }
  }

  // ---------------------------------------------------------------------
  // Whole runs
  // ---------------------------------------------------------------------

  datatype Op =
    | Put(k: Key, v: Val, keep: bool, mem: Memory)
    | Drop(k: Key, resize: bool)
    | Look(k: Key)
    | Clear(size: nat, alloc: bool)

  datatype Answer = Told(code: Code) | Seen(value: Option<Val>)

  /** The answer an ideal map with entries m may give to an operation. It is
      determined, except that an insert may fail for want of memory when the
      entries fill a table, and a reset to another size may report that failure. */
  ghost predicate Right(m: map<Key, Val>, op: Op, a: Answer) {
    match op
    case Put(k, v, keep, mem) =>
      && a.Told?
      && (k in m ==> a.code == KeyAlreadyPresent)
      && (k !in m && |m| == MAX_CAPACITY ==> a.code == ContainerFull)
      && (k !in m && |m| != MAX_CAPACITY ==> a.code == Success || (a.code == NotEnoughMemory && !mem.resize && Capacity(|m|)))
    case Drop(k, _) => a == Told(if k in m then Success else KeyNotFound)
    case Look(k) => a == Seen(if k in m then Some(m[k]) else None)
    case Clear(size, alloc) =>
      if size > MAX_CAPACITY then a == Told(NotEnoughMemory)
      else a == Told(Success) || (a == Told(NotEnoughMemory) && size != 0 && !alloc)
  }

  function After(m: map<Key, Val>, op: Op, a: Answer): map<Key, Val> {
    match op
    case Put(k, v, keep, _) => if a == Told(Success) || (a == Told(KeyAlreadyPresent) && !keep) then m[k := v] else m
    case Drop(k, _) => m - {k}
    case Look(_) => m
    case Clear(_, _) => map[]
  }

  /** The ideal map's entries after a run with these answers. */
  function Ideal(ops: seq<Op>, answers: seq<Answer>, i: nat): map<Key, Val>
    requires i <= |ops| && i <= |answers|
  {
    if i == 0 then map[] else After(Ideal(ops, answers, i - 1), ops[i - 1], answers[i - 1])
  }

  lemma {:induction false} IdealPrefix(ops: seq<Op>, answers: seq<Answer>, more: seq<Answer>, i: nat)
    requires i <= |ops| && i <= |answers|
    ensures Ideal(ops, answers, i) == Ideal(ops, answers + more, i)
  {
    if i > 0 { IdealPrefix(ops, answers, more, i - 1); }
  }

  method Perform(t: HashMap, op: Op) returns (a: Answer)
    requires t.Valid()
    modifies t, t.slots
    ensures t.Valid() && (t.slots == old(t.slots) || fresh(t.slots))
    ensures Right(old(t.contents), op, a) && t.contents == After(old(t.contents), op, a)
  {
    hide Layout, Count, ResetSize;
    t.ValidSize();
    match op {
      case Put(k, v, keep, mem) =>
        var code, _ := t.Insert(k, v, keep, mem);
        a := Told(code);
      case Drop(k, resize) =>
        var code := t.Delete(k, resize);
        a := Told(code);
      case Look(k) =>
        var r := t.Lookup(k);
        a := Seen(if r.Some? then Some(t.slots[r.value].v) else None);
      case Clear(size, alloc) =>
        ResetSizeOk(size);
        var code := t.Reset(ResetSize(size).0, alloc);
        a := Told(if ResetSize(size).1 then NotEnoughMemory else code);
    }
  }

  /** Any run of operations, under any hash and any allocation failures, is
      answered as the ideal map answers it. */
  method Run(hash: Hash, boundOf: (nat, nat) -> nat, capacity: nat, ops: seq<Op>) returns (answers: seq<Answer>)
    requires Capacity(capacity)
    ensures |answers| == |ops|
    ensures forall i :: 0 <= i < |ops| ==> Right(Ideal(ops, answers, i), ops[i], answers[i])
  {
    hide Right, After, Layout, Count, Capacity;
    var t := new HashMap(hash, boundOf, capacity);
    answers := [];
    for i := 0 to |ops|
      invariant t.Valid() && fresh(t) && fresh(t.slots) && |answers| == i
      invariant t.contents == Ideal(ops, answers, i)
      invariant forall j :: 0 <= j < i ==> Right(Ideal(ops, answers, j), ops[j], answers[j])
    {
      var a := Perform(t, ops[i]);
      forall j | 0 <= j <= i ensures Ideal(ops, answers, j) == Ideal(ops, answers + [a], j) {
        IdealPrefix(ops, answers, [a], j);
      }
      answers := answers + [a];
    }
  }

  /** A table can be full: inserts whose growths find no memory fill a table of any
      size to its last slot, and the growth that then succeeds quadruples it. */
  method FillThenGrow(hash: Hash, boundOf: (nat, nat) -> nat, capacity: nat, ks: seq<Key>, v: Val) returns (t: HashMap)
    requires Capacity(capacity) && 2 * capacity < MAX_CAPACITY && |ks| == capacity + 1
    requires forall i, j :: 0 <= i < j < |ks| ==> ks[i] != ks[j]
    ensures fresh(t) && t.Valid() && t.slots.Length == 4 * capacity && t.count == capacity + 1
  {
    hide Layout, Count, AboveGrowLoad, RehashCapacity;
    t := new HashMap(hash, boundOf, capacity);
    t.ValidSize();
    for i := 0 to capacity
      invariant t.Valid() && fresh(t) && fresh(t.slots) && t.slots.Length == capacity
      invariant t.count == |t.contents| == i && (forall k :: k in t.contents ==> exists j :: 0 <= j < i && ks[j] == k)
    {
      var code, _ := t.Insert(ks[i], v, false, Memory(false, false, false));
      t.ValidSize();
    }
    GrowthCapacity(capacity, capacity);
    var code, _ := t.Insert(ks[capacity], v, false, Memory(true, false, false));
    t.ValidSize();
  }
}
