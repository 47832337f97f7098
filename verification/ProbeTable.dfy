// A linear-probing slot table as a sequence: positions on a ring, the probe
// invariant, what a table holds, and how one slot write changes each of them.

module ProbeTable {
  type Key(==, !new)
  type Val(==, !new)

  datatype Slot = Empty | Full(k: Key, v: Val)

  type Table = seq<Slot>

  /** The home slot of every key, for one capacity and one hash mode. */
  type Home = Key -> nat

  // ---------------------------------------------------------------------
  // The ring
  // ---------------------------------------------------------------------

  function Next(i: nat, n: nat): nat { if i + 1 >= n then 0 else i + 1 }

  /** How many probe steps lead from a to b. */
  function Dist(a: nat, b: nat, n: nat): nat
    requires a < n && b < n
  {
    if a <= b then b - a else b + n - a
  }

  /** The slot s probe steps after a. */
  function Ahead(a: nat, s: nat, n: nat): (r: nat)
    requires a < n && s < n
    ensures r < n && Dist(a, r, n) == s
  {
    if a + s < n then a + s else a + s - n
  }

  // ---------------------------------------------------------------------
  // Invariants
  // ---------------------------------------------------------------------

  ghost predicate InRange(h: Home, n: nat) { forall k :: h(k) < n }

  /** Every slot on the way from home to p is occupied. */
  ghost predicate PathFull(t: Table, home: nat, p: nat)
    requires home < |t| && p < |t|
  {
    forall q :: 0 <= q < |t| && Dist(home, q, |t|) < Dist(home, p, |t|) ==> t[q].Full?
  }

  /** Every entry is reachable from its home through occupied slots only, and
      sits less than span steps from it. */
  ghost predicate ProbeInv(t: Table, h: Home, span: nat)
    requires InRange(h, |t|)
  {
    forall p :: 0 <= p < |t| && t[p].Full? ==> PathFull(t, h(t[p].k), p) && Dist(h(t[p].k), p, |t|) < span
  }

  ghost predicate UniqueKeys(t: Table) {
    forall p, q :: 0 <= p < q < |t| && t[p].Full? && t[q].Full? ==> t[p].k != t[q].k
  }

  /** The table holds exactly the entries of m. */
  ghost predicate Holds(t: Table, m: map<Key, Val>) {
    && (forall p :: 0 <= p < |t| && t[p].Full? ==> t[p].k in m && m[t[p].k] == t[p].v)
    && (forall k :: k in m ==> HasKey(t, k))
  }

  ghost predicate HasKey(t: Table, k: Key) {
    exists p :: 0 <= p < |t| && t[p].Full? && t[p].k == k
  }

  /** The number of occupied slots. */
  function Count(t: Table): (c: nat)
    ensures c <= |t|
  {
    if t == [] then 0 else Count(t[..|t| - 1]) + (if t[|t| - 1].Full? then 1 else 0)
  }

  /** Later slots win, which no table with unique keys can tell. */
  function MapOf(t: Table): map<Key, Val> {
    if t == [] then map[]
    else
      var m := MapOf(t[..|t| - 1]);
      match t[|t| - 1] case Empty => m case Full(k, v) => m[k := v]
  }

  // ---------------------------------------------------------------------
  // Counting
  // ---------------------------------------------------------------------

  function Bit(s: Slot): nat { if s.Full? then 1 else 0 }

  lemma {:induction false} CountUpdate(t: Table, i: nat, s: Slot)
    requires i < |t|
    ensures Count(t[i := s]) + Bit(t[i]) == Count(t) + Bit(s)
  {
    var n := |t| - 1;
    if i == n {
      assert t[i := s][..n] == t[..n];
    } else {
      CountUpdate(t[..n], i, s);
      assert t[i := s][..n] == t[..n][i := s];
    }
  }

  lemma {:induction false} CountAllEmpty(t: Table)
    requires forall i :: 0 <= i < |t| ==> t[i].Empty?
    ensures Count(t) == 0
  {
    if t != [] { CountAllEmpty(t[..|t| - 1]); }
  }

  // ---------------------------------------------------------------------
  // What a table holds
  // ---------------------------------------------------------------------

  lemma HoldsOnce(t: Table, m: map<Key, Val>, m': map<Key, Val>)
    requires Holds(t, m) && Holds(t, m')
    ensures m == m'
  {
    forall k | k in m ensures k in m' && m'[k] == m[k] {
      var p :| 0 <= p < |t| && t[p].Full? && t[p].k == k;
    }
    forall k | k in m' ensures k in m {
      var p :| 0 <= p < |t| && t[p].Full? && t[p].k == k;
    }
  }

  lemma {:induction false} MapOfHolds(t: Table)
    requires UniqueKeys(t)
    ensures Holds(t, MapOf(t))
  {
    if t != [] {
      var n := |t| - 1;
      var s := t[..n];
      assert UniqueKeys(s);
      MapOfHolds(s);
      var m := MapOf(t);
      forall p | 0 <= p < |t| && t[p].Full? ensures t[p].k in m && m[t[p].k] == t[p].v {
        if p < n { assert s[p] == t[p]; }
      }
      forall k | k in m ensures HasKey(t, k) {
        if k in MapOf(s) {
          var p :| 0 <= p < |s| && s[p].Full? && s[p].k == k;
          assert t[p] == s[p];
        }
      }
    }
  }

  /** A table with unique keys has as many entries as occupied slots. */
  lemma {:induction false} MapOfSize(t: Table)
    requires UniqueKeys(t)
    ensures |MapOf(t)| == Count(t)
  {
    if t != [] {
      var s := t[..|t| - 1];
      assert UniqueKeys(s);
      MapOfSize(s);
      MapOfHolds(s);
    }
  }

  lemma WriteHolds(t: Table, m: map<Key, Val>, i: nat, k: Key, v: Val)
    requires Holds(t, m) && i < |t| && t[i].Empty? && k !in m
    ensures Holds(t[i := Full(k, v)], m[k := v])
  {
    var u := t[i := Full(k, v)];
    forall j | j in m[k := v] ensures HasKey(u, j) {
      if j == k { assert u[i].k == k; }
      else {
        var p :| 0 <= p < |t| && t[p].Full? && t[p].k == j;
        assert u[p] == t[p];
      }
    }
  }

  lemma WriteUnique(t: Table, m: map<Key, Val>, i: nat, k: Key, v: Val)
    requires Holds(t, m) && UniqueKeys(t) && i < |t| && t[i].Empty? && k !in m
    ensures UniqueKeys(t[i := Full(k, v)])
  {
  }

  /** An entry in the first empty slot of its probe sequence keeps the invariant. */
  lemma WriteProbe(t: Table, h: Home, span: nat, i: nat, k: Key, v: Val, span': nat)
    requires InRange(h, |t|) && ProbeInv(t, h, span) && i < |t| && t[i].Empty?
    requires PathFull(t, h(k), i) && Dist(h(k), i, |t|) < span' && span <= span'
    ensures ProbeInv(t[i := Full(k, v)], h, span')
  {
    var u := t[i := Full(k, v)];
    forall p | 0 <= p < |u| && u[p].Full? ensures PathFull(u, h(u[p].k), p) && Dist(h(u[p].k), p, |u|) < span' {
      if p != i { assert u[p] == t[p]; }
    }
  }

  // ---------------------------------------------------------------------
  // Backward-shift deletion
  // ---------------------------------------------------------------------

  /** The probe invariant, except that paths may cross the hole. */
  ghost predicate HoleInv(t: Table, h: Home, span: nat, hole: nat)
    requires InRange(h, |t|) && hole < |t|
  {
    forall p :: 0 <= p < |t| && t[p].Full? ==>
      Dist(h(t[p].k), p, |t|) < span && PathFullBut(t, h(t[p].k), p, hole)
  }

  ghost predicate PathFullBut(t: Table, home: nat, p: nat, hole: nat)
    requires home < |t| && p < |t|
  {
    forall q :: 0 <= q < |t| && Dist(home, q, |t|) < Dist(home, p, |t|) ==> t[q].Full? || q == hole
  }

  /** The path of the entry at p does not cross the hole. */
  predicate Clear(t: Table, h: Home, hole: nat, p: nat)
    requires p < |t| && hole < |t| && t[p].Full? && h(t[p].k) < |t|
  {
    Dist(h(t[p].k), p, |t|) < Dist(hole, p, |t|)
  }

  /** The slots after the hole up to j are occupied by entries that stay. */
  ghost predicate Scanned(t: Table, h: Home, hole: nat, j: nat)
    requires InRange(h, |t|) && hole < |t| && j < |t|
  {
    forall p :: 0 <= p < |t| && p != hole && Dist(hole, p, |t|) <= Dist(hole, j, |t|) ==> t[p].Full? && Clear(t, h, hole, p)
  }

  lemma Emptied(t: Table, h: Home, span: nat, i: nat)
    requires InRange(h, |t|) && ProbeInv(t, h, span) && i < |t| && t[i].Full?
    ensures HoleInv(t[i := Empty], h, span, i) && Scanned(t[i := Empty], h, i, i)
  {
    var u := t[i := Empty];
    forall p | 0 <= p < |u| && u[p].Full?
      ensures Dist(h(u[p].k), p, |u|) < span && PathFullBut(u, h(u[p].k), p, i)
    {
      assert u[p] == t[p];
      assert PathFull(t, h(t[p].k), p);
    }
  }

  /** Moving the entry at j into the hole makes j the hole. */
  lemma ShiftBack(t: Table, h: Home, span: nat, hole: nat, j: nat)
    requires InRange(h, |t|) && hole < |t| && j < |t| && hole != j && HoleInv(t, h, span, hole)
    requires t[hole].Empty? && t[j].Full? && !Clear(t, h, hole, j)
    ensures var u := t[hole := t[j]][j := Empty]; HoleInv(u, h, span, j) && Scanned(u, h, j, j)
  {
    var u := t[hole := t[j]][j := Empty];
    var n := |t|;
    forall p | 0 <= p < n && u[p].Full?
      ensures Dist(h(u[p].k), p, n) < span && PathFullBut(u, h(u[p].k), p, j)
    {
      if p == hole {
        var home := h(t[j].k);
        assert PathFullBut(t, home, j, hole);
      } else {
        assert u[p] == t[p];
        assert PathFullBut(t, h(t[p].k), p, hole);
      }
    }
  }

  /** The walk may stop at an empty slot, or span steps past the hole. */
  lemma GapClosed(t: Table, h: Home, span: nat, hole: nat, j: nat, next: nat)
    requires InRange(h, |t|) && hole < |t| && j < |t| && HoleInv(t, h, span, hole) && t[hole].Empty?
    requires Scanned(t, h, hole, j) && next == Next(j, |t|)
    requires t[next].Empty? || Dist(hole, next, |t|) >= span
    ensures ProbeInv(t, h, span)
  {
    var n := |t|;
    forall p | 0 <= p < n && t[p].Full? ensures PathFull(t, h(t[p].k), p) && Dist(h(t[p].k), p, n) < span {
      var home := h(t[p].k);
      assert PathFullBut(t, home, p, hole);
      assert Clear(t, h, hole, p);
    }
  }

  /** Every entry sits less than span steps from its home. */
  ghost predicate Within(t: Table, h: Home, span: nat)
    requires InRange(h, |t|)
  {
    forall p :: 0 <= p < |t| && t[p].Full? ==> Dist(h(t[p].k), p, |t|) < span
  }

  /** A move brings an entry nearer to its home. */
  lemma MoveWithin(t: Table, h: Home, span: nat, hole: nat, j: nat)
    requires InRange(h, |t|) && hole < |t| && j < |t| && hole != j && Within(t, h, span)
    requires t[j].Full? && !Clear(t, h, hole, j)
    ensures Within(t[hole := t[j]][j := Empty], h, span)
  {
    var u := t[hole := t[j]][j := Empty];
    forall p | 0 <= p < |u| && u[p].Full? ensures Dist(h(u[p].k), p, |u|) < span {
      if p == hole { assert Dist(h(t[j].k), j, |t|) < span; } else { assert u[p] == t[p]; }
    }
  }

  /** The sum of all displacements, which bounds the walk. */
  function Displaced(t: Table, h: Home, n: nat): nat
    requires |t| <= n && forall k :: h(k) < n
  {
    if t == [] then 0 else Displaced(t[..|t| - 1], h, n) + Weight(t[|t| - 1], h, |t| - 1, n)
  }

  function Weight(s: Slot, h: Home, i: nat, n: nat): nat
    requires i < n && forall k :: h(k) < n
  {
    match s case Empty => 0 case Full(k, _) => Dist(h(k), i, n)
  }

  lemma {:induction false} DisplacedUpdate(t: Table, h: Home, n: nat, i: nat, s: Slot)
    requires i < |t| <= n && forall k :: h(k) < n
    ensures Displaced(t[i := s], h, n) + Weight(t[i], h, i, n) == Displaced(t, h, n) + Weight(s, h, i, n)
  {
    var m := |t| - 1;
    if i == m {
      assert t[i := s][..m] == t[..m];
    } else {
      DisplacedUpdate(t[..m], h, n, i, s);
      assert t[i := s][..m] == t[..m][i := s];
    }
  }

  lemma ShiftShrinks(t: Table, h: Home, hole: nat, j: nat)
    requires InRange(h, |t|) && hole < |t| && j < |t| && hole != j
    requires t[hole].Empty? && t[j].Full? && !Clear(t, h, hole, j)
    ensures Displaced(t[hole := t[j]][j := Empty], h, |t|) < Displaced(t, h, |t|)
  {
    DisplacedUpdate(t, h, |t|, hole, t[j]);
    DisplacedUpdate(t[hole := t[j]], h, |t|, j, Empty);
  }

  /** A move keeps the entries: nothing is lost, nothing doubled. */
  lemma MoveHolds(t: Table, m: map<Key, Val>, hole: nat, j: nat)
    requires Holds(t, m) && UniqueKeys(t) && hole < |t| && j < |t| && hole != j && t[hole].Empty? && t[j].Full?
    ensures var u := t[hole := t[j]][j := Empty]; Holds(u, m) && UniqueKeys(u) && Count(u) == Count(t)
  {
    var u := t[hole := t[j]][j := Empty];
    forall k | k in m ensures HasKey(u, k) {
      var p :| 0 <= p < |t| && t[p].Full? && t[p].k == k;
      if p == j { assert u[hole].k == k; } else { assert u[p] == t[p]; }
    }
    CountUpdate(t, hole, t[j]);
    CountUpdate(t[hole := t[j]], j, Empty);
  }

  lemma RemoveHolds(t: Table, m: map<Key, Val>, i: nat)
    requires Holds(t, m) && UniqueKeys(t) && i < |t| && t[i].Full?
    ensures var u := t[i := Empty]; Holds(u, m - {t[i].k}) && UniqueKeys(u) && Count(u) + 1 == Count(t)
  {
    var u := t[i := Empty];
    forall k | k in m - {t[i].k} ensures HasKey(u, k) {
      var p :| 0 <= p < |t| && t[p].Full? && t[p].k == k;
      assert u[p] == t[p];
    }
    forall p | 0 <= p < |u| && u[p].Full? ensures u[p].k != t[i].k {
      assert u[p] == t[p];
    }
    CountUpdate(t, i, Empty);
  }
}
