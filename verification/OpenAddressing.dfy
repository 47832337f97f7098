// The open-addressing backend: a slot array that inserts, deletes, grows,
// shrinks and switches its hash, all in place.

module OpenAddressing {
  import opened Options
  import opened ProbeTable
  import opened Powers
  import opened MapTypes

  const DEEP_INSERT: nat := 32
  const ATTEMPT_SLACK: nat := 64

  function MinSpan(n: nat): nat { if n < DEEP_INSERT then n else DEEP_INSERT }

  /** The cap on one displacement in a fast table: 24 slots per doubling, up to
      4096 slots. */
  function InsertCap(n: nat): nat { 24 * (if Log2(n) < 12 then Log2(n) else 12) }

  lemma {:induction false} LogOfPow(e: nat)
    ensures Pow2(e) > 0 && Log2(Pow2(e)) == e
  {
    if e > 0 {
      LogOfPow(e - 1);
      HalfOfTwice(Pow2(e - 1));
    }
  }

  /** The cap for a table of 2^e slots. */
  lemma CapOfSize(e: nat)
    ensures InsertCap(Pow2(e)) == if e < 12 then 24 * e else 288
  {
    LogOfPow(e);
    hide Pow2, Log2;
  }

  function Max(a: nat, b: nat): nat { if a < b then b else a }

  /** The table holds m, keeps the probe invariant within span, and counts c. */
  ghost predicate Good(t: Table, h: Home, span: nat, m: map<Key, Val>) {
    InRange(h, |t|) && ProbeInv(t, h, span) && UniqueKeys(t) && Holds(t, m)
  }

  lemma GoodWider(t: Table, h: Home, span: nat, m: map<Key, Val>, span': nat)
    requires Good(t, h, span, m) && span <= span'
    ensures Good(t, h, span', m)
  {
  }

  lemma GoodWrite(t: Table, h: Home, span: nat, m: map<Key, Val>, i: nat, k: Key, v: Val)
    requires Good(t, h, span, m) && i < |t| && t[i].Empty? && k !in m && PathFull(t, h(k), i)
    ensures Good(t[i := Full(k, v)], h, Max(span, Dist(h(k), i, |t|) + 1), m[k := v])
    ensures Count(t[i := Full(k, v)]) == Count(t) + 1
  {
    hide ProbeInv, UniqueKeys, Holds;
    WriteHolds(t, m, i, k, v);
    WriteUnique(t, m, i, k, v);
    WriteProbe(t, h, span, i, k, v, Max(span, Dist(h(k), i, |t|) + 1));
    CountUpdate(t, i, Full(k, v));
  }

  /** A table of fresh slots. */
  lemma GoodEmpty(t: Table, h: Home)
    requires InRange(h, |t|) && forall i :: 0 <= i < |t| ==> t[i].Empty?
    ensures Good(t, h, 0, map[]) && Count(t) == 0
  {
    CountAllEmpty(t);
  }

  /** A table with no free slot is full. */
  lemma {:induction false} FullCount(t: Table)
    requires forall i :: 0 <= i < |t| ==> t[i].Full?
    ensures Count(t) == |t|
  {
    if t != [] { FullCount(t[..|t| - 1]); }
  }

  lemma PathStep(t: Table, home: nat, i: nat)
    requires home < |t| && i < |t| && PathFull(t, home, i) && t[i].Full? && Dist(home, i, |t|) + 1 < |t|
    ensures PathFull(t, home, Next(i, |t|)) && Dist(home, Next(i, |t|), |t|) == Dist(home, i, |t|) + 1
  {
  }

  // ---------------------------------------------------------------------
  // A fill, as a value
  // ---------------------------------------------------------------------

  /** How far the first free slot of a table lies from home, counted from s
      steps on; the last slot's distance when there is none. */
  function Walk(t: Table, home: nat, s: nat): (d: nat)
    requires home < |t| && s < |t|
    ensures s <= d < |t|
    decreases |t| - s
  {
    if t[Ahead(home, s, |t|)].Empty? || s + 1 == |t| then s else Walk(t, home, s + 1)
  }

  /** Where a run of occupied slots ends is where the walk ends. */
  lemma {:induction false} WalkOn(t: Table, home: nat, s: nat, i: nat)
    requires home < |t| && i < |t| && s <= Dist(home, i, |t|) && PathFull(t, home, i)
    ensures Walk(t, home, s) >= Dist(home, i, |t|)
    ensures t[i].Empty? ==> Walk(t, home, s) == Dist(home, i, |t|)
    ensures t[i].Full? && Dist(home, i, |t|) + 1 < |t| ==> Walk(t, home, s) > Dist(home, i, |t|)
    decreases Dist(home, i, |t|) - s
  {
    if s < Dist(home, i, |t|) { WalkOn(t, home, s + 1, i); }
  }

  datatype Filled = Filled(table: Table, largest: nat, sum: nat)

  /** The first i slots' entries placed one after the other in a table of n
      slots, with the largest displacement and the sum of all of them. */
  function Fill(t: Table, h: Home, n: nat, i: nat): (f: Filled)
    requires i <= |t| && n > 0 && forall k :: h(k) < n
    ensures |f.table| == n
  {
    if i == 0 then Filled(seq(n, _ => Empty), 0, 0)
    else
      var f := Fill(t, h, n, i - 1);
      match t[i - 1]
      case Empty => f
      case Full(k, v) =>
        var d := Walk(f.table, h(k), 0);
        Filled(f.table[Ahead(h(k), d, n) := t[i - 1]], Max(f.largest, d), f.sum + d)
  }

  lemma {:induction false} FillGrows(t: Table, h: Home, n: nat, i: nat, j: nat)
    requires i <= j <= |t| && n > 0 && forall k :: h(k) < n
    ensures Fill(t, h, n, i).largest <= Fill(t, h, n, j).largest && Fill(t, h, n, i).sum <= Fill(t, h, n, j).sum
    decreases j
  {
    hide Walk;
    if i < j { FillGrows(t, h, n, i, j - 1); }
  }

  /** The whole table refilled. */
  function Refill(t: Table, h: Home, n: nat): Filled
    requires n > 0 && forall k :: h(k) < n
  {
    Fill(t, h, n, |t|)
  }

  /** The fill the fast attempt accepts. */
  predicate Accepts(f: Filled, count: nat, n: nat) { f.largest <= InsertCap(n) && f.sum <= count + ATTEMPT_SLACK }

  // ---------------------------------------------------------------------
  // Filling a new block
  // ---------------------------------------------------------------------

  /** Walks from home to the first free slot, or to the slot limit steps on. */
  method FirstFree(a: array<Slot>, home: nat, limit: nat) returns (index: nat, walked: nat)
    requires home < a.Length
    ensures index < a.Length && walked == Dist(home, index, a.Length) && walked <= limit
    ensures PathFull(a[..], home, index)
    ensures a[index].Full? ==> walked == limit || Count(a[..]) == a.Length
    ensures a[index].Empty? ==> walked == Walk(a[..], home, 0)
    ensures a[index].Full? ==> Walk(a[..], home, 0) > limit || Count(a[..]) == a.Length
  {
    ghost var t := a[..];
    index := home;
    walked := 0;
    while a[index].Full? && walked < limit && walked + 1 < a.Length
      invariant index < a.Length && walked == Dist(home, index, a.Length) && walked <= limit
      invariant PathFull(t, home, index)
      decreases a.Length - walked
    {
      PathStep(t, home, index);
      index := Next(index, a.Length);
      walked := walked + 1;
    }
    WalkOn(t, home, 0, index);
    if a[index].Full? && walked + 1 == a.Length { FullCount(t); }
  }

  /** Writes a key the table does not hold into its first free slot, unless
      that lies more than limit steps from its home. */
  method PlaceOne(a: array<Slot>, h: Home, k: Key, v: Val, limit: nat, ghost span: nat, ghost m: map<Key, Val>)
    returns (placed: bool, displacement: nat)
    requires Good(a[..], h, span, m) && k !in m && Count(a[..]) < a.Length
    modifies a
    ensures displacement < a.Length && displacement <= limit
    ensures placed <==> Walk(old(a[..]), h(k), 0) <= limit
    ensures placed ==> displacement == Walk(old(a[..]), h(k), 0)
    ensures placed ==> Good(a[..], h, Max(span, displacement + 1), m[k := v]) && Count(a[..]) == old(Count(a[..])) + 1
    ensures placed ==> a[..] == old(a[..])[Ahead(h(k), displacement, a.Length) := Full(k, v)]
    ensures !placed ==> displacement == limit
  {
    ghost var t := a[..];
    var index;
    index, displacement := FirstFree(a, h(k), limit);
    hide ProbeInv, UniqueKeys, Holds, PathFull, Walk;
    placed := a[index].Empty?;
    if placed {
      GoodWrite(t, h, span, m, index, k, v);
      a[index] := Full(k, v);
      assert a[..] == t[index := Full(k, v)];
    }
  }

  /** The entries of the first i slots, and what the next slot adds. */
  lemma PrefixStep(t: Table, i: nat)
    requires i < |t| && UniqueKeys(t)
    ensures Count(t[..i + 1]) == Count(t[..i]) + Bit(t[i])
    ensures t[i].Full? ==> t[i].k !in MapOf(t[..i]) && MapOf(t[..i + 1]) == MapOf(t[..i])[t[i].k := t[i].v]
    ensures t[i].Empty? ==> MapOf(t[..i + 1]) == MapOf(t[..i])
  {
    assert t[..i + 1][..i] == t[..i];
    assert UniqueKeys(t[..i]);
    MapOfHolds(t[..i]);
  }

  lemma {:induction false} CountPrefix(t: Table, i: nat)
    requires i <= |t|
    ensures Count(t[..i]) <= Count(t)
    decreases |t| - i
  {
    if i < |t| {
      CountPrefix(t, i + 1);
      assert t[..i + 1][..i] == t[..i];
    } else {
      assert t[..i] == t;
    }
  }

  /** The new table u holds the first i slots' entries of t. */
  ghost predicate Partway(t: Table, u: Table, h: Home, i: nat, most: nat, sum: nat) {
    && i <= |t| && |u| > 0 && InRange(h, |u|)
    && Good(u, h, most + 1, MapOf(t[..i])) && Count(u) == Count(t[..i])
    && Fill(t, h, |u|, i) == Filled(u, most, sum) && most < |u|
  }

  ghost predicate AllEmpty(t: Table) { forall i :: 0 <= i < |t| ==> t[i].Empty? }

  lemma FillStart(t: Table, a: Table, h: Home)
    requires AllEmpty(a) && InRange(h, |a|) && |a| > 0
    ensures Partway(t, a, h, 0, 0, 0)
  {
    GoodEmpty(a, h);
    assert a == Fill(t, h, |a|, 0).table;
  }

  lemma FillEnd(t: Table, u: Table, h: Home, most: nat, sum: nat, m: map<Key, Val>)
    requires UniqueKeys(t) && Holds(t, m) && Partway(t, u, h, |t|, most, sum)
    ensures Good(u, h, most + 1, m) && Count(u) == Count(t) && Refill(t, h, |u|) == Filled(u, most, sum)
  {
    assert t[..|t|] == t;
    MapOfHolds(t);
    HoldsOnce(t, MapOf(t), m);
  }

  lemma SkipSlot(t: Table, u: Table, h: Home, i: nat, most: nat, sum: nat)
    requires i < |t| && t[i].Empty? && UniqueKeys(t) && Partway(t, u, h, i, most, sum)
    ensures Partway(t, u, h, i + 1, most, sum)
  {
    hide Good, Holds, UniqueKeys;
    PrefixStep(t, i);
  }

  lemma PlaceStep(t: Table, u: Table, h: Home, i: nat, most: nat, sum: nat, d: nat, u': Table)
    requires i < |t| && t[i].Full? && UniqueKeys(t) && Partway(t, u, h, i, most, sum) && d < |u|
    requires d == Walk(u, h(t[i].k), 0) && u' == u[Ahead(h(t[i].k), d, |u|) := t[i]]
    requires Good(u', h, Max(most + 1, d + 1), MapOf(t[..i])[t[i].k := t[i].v]) && Count(u') == Count(u) + 1
    ensures Partway(t, u', h, i + 1, Max(most, d), sum + d)
  {
    hide Good, Holds, UniqueKeys, Walk, Ahead, Fill, MapOf, Count;
    PrefixStep(t, i);
    FillStep(t, h, |u|, i);
  }

  lemma {:induction false} FillStep(t: Table, h: Home, n: nat, i: nat)
    requires i < |t| && t[i].Full? && n > 0 && forall k :: h(k) < n
    ensures var f := Fill(t, h, n, i);
      var d := Walk(f.table, h(t[i].k), 0);
      Fill(t, h, n, i + 1) == Filled(f.table[Ahead(h(t[i].k), d, n) := t[i]], Max(f.largest, d), f.sum + d)
  {
    hide Walk, Ahead;
  }

  lemma SlotReady(t: Table, u: Table, h: Home, i: nat, most: nat, sum: nat)
    requires i < |t| && t[i].Full? && UniqueKeys(t) && Partway(t, u, h, i, most, sum) && Count(t) <= |u|
    ensures t[i].k !in MapOf(t[..i]) && Count(u) < |u| && Count(t[..i + 1]) == Count(t[..i]) + 1
    ensures Good(u, h, most + 1, MapOf(t[..i]))
    ensures Fill(t, h, |u|, i + 1).largest == Max(most, Walk(u, h(t[i].k), 0))
  {
    hide Good, Holds, UniqueKeys, Walk;
    PrefixStep(t, i);
    CountPrefix(t, i + 1);
  }

  /** Places the entry of slot i, unless it would sit more than limit slots
      from its home. */
  method PlaceSlot(src: array<Slot>, i: nat, a: array<Slot>, h: Home, limit: nat, ghost most: nat, ghost sum: nat)
    returns (placed: bool, d: nat)
    requires src != a && i < src.Length && src[i].Full? && UniqueKeys(src[..]) && Count(src[..]) <= a.Length
    requires Partway(src[..], a[..], h, i, most, sum)
    modifies a
    ensures d < a.Length && d <= limit && Count(src[..i + 1]) == Count(src[..i]) + 1
    ensures placed ==> Partway(src[..], a[..], h, i + 1, Max(most, d), sum + d)
    ensures !placed ==> d == limit && InRange(h, a.Length) && Fill(src[..], h, a.Length, i + 1).largest > limit
  {
    ghost var t := src[..];
    ghost var u := a[..];
    SlotReady(t, u, h, i, most, sum);
    assert src[..i] == t[..i] && src[..i + 1] == t[..i + 1];
    hide Good, UniqueKeys, Holds, MapOf, Count, Walk, Fill, Ahead;
    placed, d := PlaceOne(a, h, src[i].k, src[i].v, limit, most + 1, MapOf(t[..i]));
    if placed { PlaceStep(t, u, h, i, most, sum, d, a[..]); }
  }

  /** Places every entry of the old table into an empty new one and gives the
      largest displacement. */
  method PlaceAll(src: array<Slot>, a: array<Slot>, h: Home, ghost m: map<Key, Val>) returns (largest: nat)
    requires src != a && InRange(h, a.Length) && Count(src[..]) <= a.Length && a.Length > 0
    requires UniqueKeys(src[..]) && Holds(src[..], m) && AllEmpty(a[..])
    modifies a
    ensures Good(a[..], h, largest + 1, m) && largest < a.Length && Count(a[..]) == Count(src[..])
    ensures a[..] == Refill(src[..], h, a.Length).table && largest == Refill(src[..], h, a.Length).largest
  {
    hide UniqueKeys, Holds, AllEmpty, Good, Fill, Count;
    ghost var t := src[..];
    ghost var sum: nat := 0;
    FillStart(t, a[..], h);
    largest := 0;
    var i := 0;
    while i < src.Length
      invariant 0 <= i <= src.Length && src[..] == t
      invariant Partway(t, a[..], h, i, largest, sum)
    {
      hide Partway;
      if src[i].Full? {
        var placed, d := PlaceSlot(src, i, a, h, a.Length, largest, sum);
        if d > largest { largest := d; }
        sum := sum + d;
      } else {
        SkipSlot(t, a[..], h, i, largest, sum);
      }
      i := i + 1;
    }
    FillEnd(t, a[..], h, largest, sum, m);
  }

  /** The fast attempt: like PlaceAll, but it gives up once an entry would sit
      more than the cap from its home, or once the displacements add up to more
      than the budget. `work` is the number of slots it looked at. */
  method FastAttempt(src: array<Slot>, count: nat, a: array<Slot>, h: Home, ghost m: map<Key, Val>)
    returns (largest: Option<nat>, work: nat)
    requires src != a && InRange(h, a.Length) && Count(src[..]) == count <= a.Length && a.Length > 0
    requires UniqueKeys(src[..]) && Holds(src[..], m) && AllEmpty(a[..])
    modifies a
    ensures var f := Refill(src[..], h, a.Length); largest.Some? <==> f.largest <= InsertCap(a.Length) && f.sum <= count + 64
    ensures largest.Some? ==> Good(a[..], h, largest.value + 1, m) && Count(a[..]) == count && largest.value < a.Length
    ensures largest.Some? ==> largest.value == Refill(src[..], h, a.Length).largest
    ensures largest.Some? ==> a[..] == Refill(src[..], h, a.Length).table
    ensures largest.Some? ==> work <= 2 * count + 64
    ensures largest.None? ==> work <= 2 * count + InsertCap(a.Length) + 65
  {
    hide UniqueKeys, Holds, AllEmpty, Good, Fill, Count, InsertCap;
    ghost var t := src[..];
    FillStart(t, a[..], h);
    CountPrefix(t, 0);
    var cap := InsertCap(a.Length);
    var budget := count + ATTEMPT_SLACK;
    var most: nat, sum: nat := 0, 0;
    work := 0;
    var i := 0;
    while i < src.Length
      invariant 0 <= i <= src.Length && src[..] == t && most <= cap
      invariant Partway(t, a[..], h, i, most, sum)
      invariant work == Count(t[..i]) + sum && sum <= budget
    {
      CountPrefix(t, i + 1);
      FillGrows(t, h, a.Length, i + 1, |t|);
      hide Partway;
      if src[i].Full? {
        var placed, d := PlaceSlot(src, i, a, h, cap, most, sum);
        work := work + d + 1;
        if !placed { return None, work; }
        if d > most { most := d; }
        sum := sum + d;
        if sum > budget { return None, work; }
      } else {
        SkipSlot(t, a[..], h, i, most, sum);
      }
      i := i + 1;
    }
    FillEnd(t, a[..], h, most, sum, m);
    largest := Some(most);
  }
}
