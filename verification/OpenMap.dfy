// The open-addressing map itself: one slot array that inserts, deletes, grows,
// shrinks and switches its hash in place, with every allocation free to fail.

module InsertWindow {
  const WORD: nat := 0x1_0000_0000
  const WINDOW_START: nat := 0x8000_0000
  const WINDOW_STEP: nat := 0x0080_0000
  const WINDOW_INSERTS: nat := 256

  /** 256 walks of at most this length stay below one step together. */
  const MAX_WALK: nat := 0x7FFF

  /** One 32-bit add, and whether it carries. */
  function WindowAdd(window: nat, walk: nat): (r: (nat, bool)) {
    var sum := window + (WINDOW_STEP + walk % WORD) % WORD;
    (sum % WORD, sum >= WORD)
  }

  function Sum(walks: seq<nat>): nat { if walks == [] then 0 else Sum(walks[..|walks| - 1]) + walks[|walks| - 1] }

  /** The window after a run of inserts, and how many inserts it took for the
      first carry, if any. */
  function Judge(walks: seq<nat>): (r: (nat, bool))
  {
    if walks == [] then (WINDOW_START, false)
    else
      var (w, ended) := Judge(walks[..|walks| - 1]);
      if ended then (w, true) else WindowAdd(w, walks[|walks| - 1])
  }

  /** Without the wrap-around. */
  lemma WindowAddIs(window: nat, walk: nat)
    requires window < WORD && walk < WINDOW_START
    ensures var s := window + WINDOW_STEP + walk; WindowAdd(window, walk) == if s < WORD then (s, false) else (s - WORD, true)
  {
    assert walk % WORD == walk;
  }

  /** While the walks add up to less than one step, a window ends with its
      256th insert and not before, and then holds exactly their sum. */
  lemma {:induction false} WindowEndsAt256(walks: seq<nat>)
    requires |walks| <= WINDOW_INSERTS && Sum(walks) < WINDOW_STEP
    ensures |walks| < WINDOW_INSERTS ==> Judge(walks) == (WINDOW_START + |walks| * WINDOW_STEP + Sum(walks), false)
    ensures |walks| == WINDOW_INSERTS ==> Judge(walks) == (Sum(walks), true)
  {
    hide WindowAdd;
    if walks != [] {
      var n := |walks| - 1;
      WindowEndsAt256(walks[..n]);
      WindowAddIs(WINDOW_START + n * WINDOW_STEP + Sum(walks[..n]), walks[n]);
    }
  }

  lemma {:induction false} SumBelow(walks: seq<nat>)
    requires forall i :: 0 <= i < |walks| ==> walks[i] <= MAX_WALK
    ensures Sum(walks) <= |walks| * MAX_WALK
  {
    if walks != [] { SumBelow(walks[..|walks| - 1]); }
  }

  /** Walks below 2^15 end a window with exactly the 256th insert. */
  lemma CappedWindowEnds(walks: seq<nat>, k: nat)
    requires |walks| == WINDOW_INSERTS && forall i :: 0 <= i < |walks| ==> walks[i] <= MAX_WALK
    ensures Judge(walks) == (Sum(walks), true)
    ensures k < WINDOW_INSERTS ==> !Judge(walks[..k]).1
  {
    hide Judge, Sum;
    SumBelow(walks);
    WindowEndsAt256(walks);
    if k < WINDOW_INSERTS {
      SumBelow(walks[..k]);
      WindowEndsAt256(walks[..k]);
    }
  }

  /** No walks at all can keep a window open past its 256th insert. */
  lemma {:induction false} WindowNeverLate(walks: seq<nat>)
    requires |walks| <= WINDOW_INSERTS && forall i :: 0 <= i < |walks| ==> walks[i] < WINDOW_START
    ensures Judge(walks).0 < WORD
    ensures !Judge(walks).1 ==> Judge(walks).0 == WINDOW_START + |walks| * WINDOW_STEP + Sum(walks)
    ensures |walks| == WINDOW_INSERTS ==> Judge(walks).1
  {
    hide WindowAdd;
    if walks != [] {
      var n := |walks| - 1;
      WindowNeverLate(walks[..n]);
      WindowAddIs(Judge(walks[..n]).0, walks[n]);
    }
  }
}

module OpenMap {
  import opened ProbeTable
  import opened Powers
  import opened MapTypes
  import opened OpenAddressing
  import opened InsertWindow

  /** The raw hash of a key in either mode, reduced to a slot. Any function. */
  type Hash = (bool, Key, nat) -> nat

  function HomeOf(hash: Hash, keyed: bool, n: nat): Home { k => if n == 0 then 0 else hash(keyed, k, n) % n }

  lemma HomeInRange(hash: Hash, keyed: bool, n: nat)
    requires n > 0
    ensures InRange(HomeOf(hash, keyed, n), n)
  {
  }

  // ---------------------------------------------------------------------
  // Sizing
  // ---------------------------------------------------------------------

  /** count / capacity above 0.70, in the form that fits the machine word. */
  function AboveGrowLoad(count: nat, capacity: nat): (r: bool)
    ensures r <==> 10 * count > 7 * capacity
  {
    if capacity <= 0xFFFF_FFFF_FFFF_FFFF / 10 then count * 10 > capacity * 7
    else count > (capacity / 10) * 7 + ((capacity % 10) * 7) / 10
  }

  function RehashCapacity(live: nat): nat {
    if live > MAX_CAPACITY / 2 then MAX_CAPACITY
    else
      var wanted := CeilPow2(2 * live, 1);
      if wanted < MIN_CAPACITY then MIN_CAPACITY else wanted
  }

  /** A growth gives a larger valid capacity that the entries fill to between
      a quarter and a half, so the next delete cannot shrink it back. It doubles
      the table exactly when the table still had a free slot or is one doubling
      below the largest; a table left full by failed growths is quadrupled. */
  lemma GrowthCapacity(count: nat, capacity: nat)
    requires Capacity(capacity) && capacity < MAX_CAPACITY && count <= capacity && AboveGrowLoad(count, capacity)
    ensures var n := RehashCapacity(count + 1);
      Capacity(n) && n > capacity && (count + 1 <= n / 2 || n == MAX_CAPACITY) && count >= n / 4
    ensures RehashCapacity(count + 1) == 2 * capacity <==> count < capacity || 2 * capacity == MAX_CAPACITY
    ensures RehashCapacity(count + 1) == if count < capacity || 2 * capacity == MAX_CAPACITY then 2 * capacity else 4 * capacity
  {
    hide IsPow2, CeilPow2;
    MaxIsPow2();
    var live := count + 1;
    Pow2Gap(capacity, MAX_CAPACITY);
    PowTwice(capacity);
    PowTwice(2 * capacity);
    assert 2 * (2 * capacity) == 4 * capacity;
    if live <= MAX_CAPACITY / 2 {
      OneIsPow2();
      CeilPow2Least(2 * live, 1);
      var r := CeilPow2(2 * live, 1);
      Pow2Gap(capacity, r);
      if 2 * capacity < r { Pow2Gap(2 * capacity, r); }
      if 4 * capacity < r { Pow2Gap(4 * capacity, r); }
      if r > MAX_CAPACITY { Pow2Gap(MAX_CAPACITY, r); }
    }
  }

  /** A fast table's walks stay within its cap, whatever its size, so its windows
      always end after 256 inserts and hold the exact sum. */
  lemma FastWindowEnds(walks: seq<nat>, n: nat, k: nat)
    requires |walks| == WINDOW_INSERTS && forall i :: 0 <= i < |walks| ==> walks[i] <= InsertCap(n)
    ensures Judge(walks) == (InsertWindow.Sum(walks), true)
    ensures k < WINDOW_INSERTS ==> !Judge(walks[..k]).1
  {
    assert InsertCap(n) <= 288;
    CappedWindowEnds(walks, k);
  }

  // ---------------------------------------------------------------------
  // Backward-shift deletion
  // ---------------------------------------------------------------------

  /** A table with one emptied slot, whose followers up to j have been visited. */
  ghost predicate Gap(t: Table, h: Home, span: nat, cap: nat, hole: nat, j: nat, m: map<Key, Val>) {
    && InRange(h, |t|) && hole < |t| && j < |t| && t[hole].Empty? && HoleInv(t, h, span, hole) && Scanned(t, h, hole, j)
    && UniqueKeys(t) && Holds(t, m) && Within(t, h, cap)
  }

  lemma GapScan(t: Table, h: Home, span: nat, cap: nat, hole: nat, j: nat, m: map<Key, Val>)
    requires Gap(t, h, span, cap, hole, j, m)
    requires var q := Next(j, |t|); t[q].Full? && Clear(t, h, hole, q)
    ensures Gap(t, h, span, cap, hole, Next(j, |t|), m)
    ensures Dist(hole, Next(j, |t|), |t|) == Dist(hole, j, |t|) + 1
  {
    hide HoleInv, UniqueKeys, Holds, Within;
  }

  lemma GapMove(t: Table, h: Home, span: nat, cap: nat, hole: nat, j: nat, m: map<Key, Val>, q: nat)
    requires Gap(t, h, span, cap, hole, j, m) && q < |t| && q != hole && t[q].Full? && !Clear(t, h, hole, q)
    ensures var u := t[hole := t[q]][q := Empty];
      Gap(u, h, span, cap, q, q, m) && Count(u) == Count(t) && Displaced(u, h, |t|) < Displaced(t, h, |t|)
  {
    hide HoleInv, UniqueKeys, Holds, Within, Scanned, Displaced, Count;
    ShiftBack(t, h, span, hole, q);
    ShiftShrinks(t, h, hole, q);
    MoveHolds(t, m, hole, q);
    MoveWithin(t, h, cap, hole, q);
  }

  lemma GapEnd(t: Table, h: Home, span: nat, cap: nat, hole: nat, j: nat, m: map<Key, Val>)
    requires Gap(t, h, span, cap, hole, j, m)
    requires var q := Next(j, |t|); t[q].Empty? || Dist(hole, q, |t|) >= span
    ensures Good(t, h, span, m) && Within(t, h, cap)
  {
    hide HoleInv, UniqueKeys, Holds, Within, Scanned, ProbeInv;
    GapClosed(t, h, span, hole, j, Next(j, |t|));
  }

  /** Closes the gap at hole: entries that may move into it do, and the walk
      ends at an empty slot or span slots past the hole. */
  method CloseGap(a: array<Slot>, h: Home, span: nat, start: nat, ghost cap: nat, ghost m: map<Key, Val>)
    requires Gap(a[..], h, span, cap, start, start, m)
    modifies a
    ensures Good(a[..], h, span, m) && Within(a[..], h, cap) && Count(a[..]) == old(Count(a[..]))
  {
    var hole, j := start, start;
    while true
      invariant Gap(a[..], h, span, cap, hole, j, m) && Count(a[..]) == old(Count(a[..]))
      decreases Displaced(a[..], h, a.Length), a.Length - Dist(hole, j, a.Length)
    {
      ghost var t := a[..];
      hide Displaced, HoleInv, UniqueKeys, Holds, Within, Scanned, Good, Count;
      var next := Next(j, a.Length);
      if a[next].Empty? {
        GapEnd(t, h, span, cap, hole, j, m);
        return;
      }
      var gap := Dist(hole, next, a.Length);
      if gap >= span {
        GapEnd(t, h, span, cap, hole, j, m);
        return;
      }
      if Dist(h(a[next].k), next, a.Length) >= gap {
        GapMove(t, h, span, cap, hole, j, m, next);
        a[hole] := a[next];
        a[next] := Empty;
        assert a[..] == t[hole := t[next]][next := Empty];
        hole := next;
      } else {
        GapScan(t, h, span, cap, hole, j, m);
      }
      j := next;
    }
  }

  // ---------------------------------------------------------------------
  // Probing for a key
  // ---------------------------------------------------------------------

  predicate IsKey(s: Slot, k: Key) { s.Full? && s.k == k }

  /** No slot before p on the way from home holds k. */
  ghost predicate NotBefore(t: Table, home: nat, p: nat, k: Key)
    requires home < |t| && p < |t|
  {
    forall q :: 0 <= q < |t| && Dist(home, q, |t|) < Dist(home, p, |t|) ==> !IsKey(t[q], k)
  }

  lemma NotBeforeStep(t: Table, home: nat, p: nat, k: Key)
    requires home < |t| && p < |t| && NotBefore(t, home, p, k) && !IsKey(t[p], k) && Dist(home, p, |t|) + 1 < |t|
    ensures NotBefore(t, home, Next(p, |t|), k)
  {
  }

  /** Walks from the key's home until it meets the key, an empty slot, or the
      last of limit slots. */
  method Probe(a: array<Slot>, h: Home, k: Key, limit: nat) returns (index: nat, walked: nat)
    requires h(k) < a.Length && 0 < limit <= a.Length
    ensures index < a.Length && walked == Dist(h(k), index, a.Length) && walked < limit
    ensures PathFull(a[..], h(k), index) && NotBefore(a[..], h(k), index, k)
    ensures a[index].Empty? || a[index].k == k || walked + 1 == limit
  {
    ghost var t := a[..];
    var home := h(k);
    index, walked := home, 0;
    while a[index].Full? && a[index].k != k && walked + 1 < limit
      invariant index < a.Length && walked == Dist(home, index, a.Length) && walked < limit
      invariant PathFull(t, home, index) && NotBefore(t, home, index, k)
      decreases limit - walked
    {
      hide PathFull, NotBefore;
      PathStep(t, home, index);
      NotBeforeStep(t, home, index, k);
      index := Next(index, a.Length);
      walked := walked + 1;
    }
  }

  /** Where a probe that met no key stops, there is no key. */
  lemma Missed(t: Table, h: Home, span: nat, m: map<Key, Val>, k: Key, p: nat)
    requires Good(t, h, span, m) && p < |t| && NotBefore(t, h(k), p, k) && !IsKey(t[p], k)
    requires t[p].Empty? || Dist(h(k), p, |t|) + 1 >= span
    ensures k !in m
  {
    hide UniqueKeys;
    assert k in m ==> HasKey(t, k);
  }

  lemma Met(t: Table, h: Home, span: nat, m: map<Key, Val>, p: nat)
    requires Good(t, h, span, m) && p < |t| && t[p].Full?
    ensures t[p].k in m && m[t[p].k] == t[p].v
  {
  }

  /** Overwriting a value moves nothing. */
  lemma Overwritten(t: Table, h: Home, span: nat, m: map<Key, Val>, p: nat, v: Val)
    requires Good(t, h, span, m) && p < |t| && t[p].Full?
    ensures var u := t[p := Full(t[p].k, v)]; Good(u, h, span, m[t[p].k := v]) && Count(u) == Count(t)
  {
    var u := t[p := Full(t[p].k, v)];
    var k := t[p].k;
    CountUpdate(t, p, Full(k, v));
    forall q | 0 <= q < |t| ensures u[q].Full? <==> t[q].Full? {}
    forall q | 0 <= q < |t| && u[q].Full? ensures u[q].k == t[q].k {}
    OverwrittenHolds(t, m, p, v);
    OverwrittenProbe(t, h, span, u);
  }

  lemma OverwrittenHolds(t: Table, m: map<Key, Val>, p: nat, v: Val)
    requires Holds(t, m) && UniqueKeys(t) && p < |t| && t[p].Full?
    ensures var u := t[p := Full(t[p].k, v)]; Holds(u, m[t[p].k := v]) && UniqueKeys(u)
  {
    var u := t[p := Full(t[p].k, v)];
    var k := t[p].k;
    forall j | j in m[k := v] ensures HasKey(u, j) {
      if j == k { assert u[p].k == k; }
      else {
        var q :| 0 <= q < |t| && t[q].Full? && t[q].k == j;
        assert u[q] == t[q];
      }
    }
    forall q | 0 <= q < |u| && u[q].Full? ensures u[q].k in m[k := v] && m[k := v][u[q].k] == u[q].v {
      if q != p { assert u[q] == t[q] && u[q].k != k; }
    }
  }

  lemma OverwrittenProbe(t: Table, h: Home, span: nat, u: Table)
    requires InRange(h, |t|) && ProbeInv(t, h, span) && |u| == |t|
    requires forall q :: 0 <= q < |t| ==> (u[q].Full? <==> t[q].Full?)
    requires forall q :: 0 <= q < |t| && u[q].Full? ==> u[q].k == t[q].k
    ensures ProbeInv(u, h, span)
  {
    forall p | 0 <= p < |u| && u[p].Full? ensures PathFull(u, h(u[p].k), p) && Dist(h(u[p].k), p, |u|) < span {
      assert PathFull(t, h(t[p].k), p);
    }
  }
}
