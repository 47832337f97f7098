// The separate-chaining map object: bucket chains, one order list over all
// nodes with the newest first, and the adaptive hash, all updated in place.

module ChainMapObject {
  import opened Options
  import opened Powers
  import opened MapTypes
  import opened Orders
  import opened LinkedOrder
  import opened ChainLists
  import opened Chaining
  import opened InsertWindow

  type Val(==, !new)

  /** Which of an operation's allocations succeed. */
  datatype Memory = Memory(entry: bool, value: bool, resize: bool)

  /** The count at which the bucket array grows, computed without overflow. */
  function UpLimit(n: nat): (r: nat)
    ensures r == (n + 1) * 3 / 2
  {
    n + n / 2 + (if n % 2 == 0 then 1 else 2)
  }

  function DownLimit(n: nat): nat { (n + 1) / 8 }

  function ScaledDown(n: nat): nat { if n / SCALE_FACTOR < MIN_CAPACITY then MIN_CAPACITY else n / SCALE_FACTOR }

  lemma ScaledDownIs(n: nat)
    ensures ScaledDown(n) == if n < 64 then 16 else n / 4
  {
  }

  /** How many old buckets merge into one of a shrunk array. */
  function Ratio(n: nat): nat { n / ScaledDown(n) }

  lemma ScalingUp(n: nat)
    requires Buckets(n) && n <= MAX_CAPACITY / SCALE_FACTOR
    ensures Buckets(SCALE_FACTOR * n) && Buckets(2 * n)
  {
    hide IsPow2;
    PowTwice(n);
    PowTwice(2 * n);
    assert 2 * (2 * n) == SCALE_FACTOR * n;
  }

  lemma ScalingDown(n: nat)
    requires Buckets(n) && n > MIN_CAPACITY
    ensures Ratio(n) > 0 && Merges(n, ScaledDown(n), Ratio(n)) && Buckets(ScaledDown(n))
  {
    hide IsPow2;
    MaxIsPow2();
    Pow2Gap(MIN_CAPACITY, n);
    if n > 2 * MIN_CAPACITY {
      Quarter(n);
      DivUnique(n, n / 4, 4, 0);
    } else {
      DivUnique(n, MIN_CAPACITY, 2, 0);
    }
  }

  lemma Quarter(n: nat)
    requires IsPow2(n) && n > 2 * MIN_CAPACITY
    ensures n == 4 * (n / 4) && IsPow2(n / 4) && n / 4 >= MIN_CAPACITY
  {
    assert IsPow2(n / 2) && n / 2 % 2 == 0 && IsPow2(n / 2 / 2);
    assert n / 2 / 2 == n / 4;
    MaxIsPow2();
    hide IsPow2;
    Pow2Gap(MIN_CAPACITY, n);
    assert IsPow2(2 * MIN_CAPACITY) by { Pow2IsPow2(5); }
    Pow2Gap(2 * MIN_CAPACITY, n);
  }

  /** The chains hold the order list's nodes, each with the mode's hash, and a
      fast map has no chain longer than the cap. */
  ghost predicate Layout(hash: Hash, b: seq<seq<Key>>, order: seq<Key>, hashes: map<Key, nat>, keyed: bool) {
    && Buckets(|b|) && NoRepeat(order) && Linked(b, Keys(order), HomeOf(hash, keyed, |b|))
    && Stored(hashes, Keys(order), hash, keyed) && (!keyed ==> Short(b, CHAIN_CAP))
  }

  lemma BucketsOf(hash: Hash, b: seq<seq<Key>>, order: seq<Key>, hashes: map<Key, nat>, keyed: bool)
    requires Layout(hash, b, order, hashes, keyed)
    ensures Buckets(|b|) && |b| > 0
  {
    hide IsPow2, Linked, Short, Stored, NoRepeat;
  }

  lemma LayoutOfChains(hash: Hash, b: seq<seq<Key>>, order: seq<Key>, hashes: map<Key, nat>, keyed: bool)
    requires Buckets(|b|) && NoRepeat(order) && b == Chains(order, HomeOf(hash, keyed, |b|), |b|)
    requires Stored(hashes, Keys(order), hash, keyed) && (!keyed ==> Short(b, CHAIN_CAP - 1))
    ensures Layout(hash, b, order, hashes, keyed)
  {
    hide IsPow2, Chains, Stored, Linked, NoRepeat, HomeOf;
    forall k | k in order ensures HomeOf(hash, keyed, |b|)(k) < |b| { IndexBelow(hash, keyed, |b|, k); }
    ChainsLinked(order, HomeOf(hash, keyed, |b|), |b|);
  }

  lemma LayoutNone(hash: Hash, b: seq<seq<Key>>, keyed: bool)
    requires Buckets(|b|) && AllEmpty(b)
    ensures Layout(hash, b, [], map[], keyed) && Keys([]) == {}
  {
    hide IsPow2;
    LinkedEmpty(b, HomeOf(hash, keyed, |b|));
    assert Keys([]) == {};
  }

  /** A growth of a fast map splits chains, so none gets longer. */
  lemma GrowthKeepsShort(hash: Hash, b: seq<seq<Key>>, c: seq<seq<Key>>, keys: set<Key>, keyed: bool)
    requires Buckets(|b|) && Buckets(2 * |b|) && Buckets(|c|) && |c| == 4 * |b| && Short(b, CHAIN_CAP)
    requires Linked(b, keys, HomeOf(hash, keyed, |b|)) && Linked(c, keys, HomeOf(hash, keyed, |c|))
    ensures Short(c, CHAIN_CAP)
  {
    hide IsPow2;
    forall j | 0 <= j < |c| ensures |c[j]| <= CHAIN_CAP {
      forall k | k in c[j] ensures k in b[j / 4] {
        assert HomeOf(hash, keyed, |c|)(k) == j;
        IndexCoarser(HashOf(hash, keyed, k), |b|, 4);
        assert HomeOf(hash, keyed, |b|)(k) == j / 4;
      }
      ChainWithin(c[j], b[j / 4]);
    }
  }

  /** How long the chains are depends on the keys alone. */
  lemma ShortEither(hash: Hash, b: seq<seq<Key>>, order: seq<Key>, keyed: bool, n: nat)
    requires Buckets(|b|) && NoRepeat(order) && Linked(b, Keys(order), HomeOf(hash, keyed, |b|))
    ensures Short(b, n) <==> Short(Chains(order, HomeOf(hash, keyed, |b|), |b|), n)
  {
    hide IsPow2, Linked, Chains, NoRepeat, HomeOf;
    var f := HomeOf(hash, keyed, |b|);
    forall k | k in order ensures f(k) < |b| { IndexBelow(hash, keyed, |b|, k); }
    ChainsLinked(order, f, |b|);
    forall i | 0 <= i < |b| ensures |b[i]| == |Chains(order, f, |b|)[i]| {
      SameLengths(b, Chains(order, f, |b|), Keys(order), f, i);
    }
  }

  lemma AcceptedShort(order: seq<Key>, f: Home, n: nat)
    requires Accepts(order, f, n)
    ensures Short(Chains(order, f, n), CHAIN_CAP - 1)
  {
  }

  lemma RelinkedUp(hash: Hash, b: seq<seq<Key>>, c: seq<seq<Key>>, order: seq<Key>, hashes: map<Key, nat>, keyed: bool)
    requires Layout(hash, b, order, hashes, keyed) && Buckets(2 * |b|) && Buckets(|c|) && |c| == SCALE_FACTOR * |b|
    requires Linked(c, Keys(order), HomeOf(hash, keyed, |c|))
    ensures Layout(hash, c, order, hashes, keyed)
  {
    hide IsPow2, Linked, Stored, HomeOf, NoRepeat;
    if !keyed { GrowthKeepsShort(hash, b, c, Keys(order), keyed); }
  }

  /** The longest merged chain decides whether a fast map must switch. */
  lemma RelinkedDown(hash: Hash, c: seq<seq<Key>>, order: seq<Key>, hashes: map<Key, nat>, keyed: bool, longest: nat, w: nat)
    requires Buckets(|c|) && NoRepeat(order) && Linked(c, Keys(order), HomeOf(hash, keyed, |c|)) && Stored(hashes, Keys(order), hash, keyed)
    requires Short(c, longest) && w < |c| && |c[w]| == longest
    ensures keyed || longest < CHAIN_CAP ==> Layout(hash, c, order, hashes, keyed)
    ensures !keyed ==> (longest >= CHAIN_CAP <==> !Short(Chains(order, HomeOf(hash, false, |c|), |c|), CHAIN_CAP - 1))
  {
    hide IsPow2, Linked, Stored, HomeOf, NoRepeat, Chains;
    if !keyed { ShortEither(hash, c, order, false, CHAIN_CAP - 1); }
  }

  /** The mode after a resize to n buckets. */
  ghost predicate KeyedAfter(hash: Hash, order: seq<Key>, keyed: bool, up: bool, n: nat) {
    if up then keyed && !Accepts(order, HomeOf(hash, false, n), n)
    else keyed || !Short(Chains(order, HomeOf(hash, false, n), n), CHAIN_CAP - 1)
  }

  lemma KeyedAfterIs(hash: Hash, order: seq<Key>, keyed: bool, up: bool, n: nat)
    ensures var f := HomeOf(hash, false, n);
      KeyedAfter(hash, order, keyed, up, n) <==> if up then keyed && !(Short(Chains(order, f, n), 19) && Walks(order, f) <= |order| + 64)
                                                 else keyed || !Short(Chains(order, f, n), 19)
  {
    hide HomeOf, Short, Chains, Walks;
  }

  /** A new node at the front of the order list and of its chain. */
  lemma LayoutPush(hash: Hash, b: seq<seq<Key>>, order: seq<Key>, hashes: map<Key, nat>, keyed: bool, k: Key)
    requires Layout(hash, b, order, hashes, keyed) && k !in order
    ensures var h := HashOf(hash, keyed, k); var i := Index(h, |b|);
      && i < |b| && NoRepeat([k] + order)
      && (keyed || |b[i]| < CHAIN_CAP ==> Layout(hash, b[i := [k] + b[i]], [k] + order, hashes[k := h], keyed))
  {
    hide IsPow2, Linked;
    IndexBelow(hash, keyed, |b|, k);
    LinkedPush(b, Keys(order), HomeOf(hash, keyed, |b|), k);
    assert Keys([k] + order) == Keys(order) + {k};
  }

  /** The order without one key. */
  function Remove(order: seq<Key>, k: Key): seq<Key> {
    if order == [] then [] else if order[0] == k then order[1..] else [order[0]] + Remove(order[1..], k)
  }

  lemma {:induction false} RemoveKeys(order: seq<Key>, k: Key)
    requires NoRepeat(order)
    ensures NoRepeat(Remove(order, k)) && Keys(Remove(order, k)) == Keys(order) - {k}
    ensures k in order ==> |Remove(order, k)| + 1 == |order|
  {
    if order != [] {
      var t := order[1..];
      RemoveKeys(t, k);
      assert order == [order[0]] + t;
      if order[0] == k {
        assert Keys(order) == Keys(t) + {k} && k !in Keys(t);
      } else {
        assert Keys(Remove(order, k)) == Keys(Remove(t, k)) + {order[0]};
        assert Keys(order) == Keys(t) + {order[0]};
        assert forall j :: j in Remove(t, k) ==> j in Keys(Remove(t, k));
      }
    }
  }

  lemma LayoutDrop(hash: Hash, b: seq<seq<Key>>, order: seq<Key>, hashes: map<Key, nat>, keyed: bool, i: nat, p: nat)
    requires Layout(hash, b, order, hashes, keyed) && i < |b| && p < |b[i]|
    ensures Layout(hash, b[i := b[i][..p] + b[i][p + 1..]], Remove(order, b[i][p]), hashes - {b[i][p]}, keyed)
  {
    hide IsPow2, Linked, NoRepeat;
    LinkedDrop(b, Keys(order), HomeOf(hash, keyed, |b|), i, p);
    RemoveKeys(order, b[i][p]);
  }

  /** The node a search finds is the key's, and a search that finds none has
      shown the key absent. */
  lemma Searched(hash: Hash, b: seq<seq<Key>>, order: seq<Key>, hashes: map<Key, nat>, keyed: bool, k: Key)
    requires Layout(hash, b, order, hashes, keyed)
    ensures var h := HashOf(hash, keyed, k); var i := Index(h, |b|);
      && i < |b| && (k in order <==> k in b[i]) && (forall j :: j in b[i] ==> j in hashes)
      && (k in order ==> hashes[k] == h)
  {
    hide IsPow2;
    IndexBelow(hash, keyed, |b|, k);
    assert k in Keys(order) <==> k in order;
  }

  /** Walks a chain for a node with this hash and key. */
  method FindIn(chain: seq<Key>, hashes: map<Key, nat>, h: nat, k: Key) returns (p: nat)
    requires forall j :: j in chain ==> j in hashes
    ensures p <= |chain| && (p < |chain| ==> chain[p] == k && hashes[k] == h)
    ensures p == |chain| ==> k !in chain || hashes[k] != h
  {
    p := 0;
    while p < |chain| && !(hashes[chain[p]] == h && chain[p] == k)
      invariant p <= |chain|
      invariant forall j :: 0 <= j < p ==> !(hashes[chain[j]] == h && chain[j] == k)
    {
      p := p + 1;
    }
  }

  lemma KeysPush(order: seq<Key>, k: Key)
    ensures Keys([k] + order) == Keys(order) + {k}
  {
  }

  method ClearChains(a: array<seq<Key>>)
    modifies a
    ensures AllEmpty(a[..])
  {
    forall j | 0 <= j < a.Length { a[j] := []; }
    AllEmptied(a[..]);
  }

  method NewChains(n: nat) returns (a: array<seq<Key>>)
    ensures fresh(a) && a.Length == n && AllEmpty(a[..])
  {
    a := new seq<Key>[n](_ => []);
    AllEmptied(a[..]);
  }

  lemma {:induction false} RemoveStep(order: seq<Key>, k: Key)
    requires order != []
    ensures Remove(order, k) == if order[0] == k then order[1..] else [order[0]] + Remove(order[1..], k)
    ensures IndexOf(order, k) == if order[0] == k then 0 else 1 + IndexOf(order[1..], k)
  {
  }

  lemma RemoveLater(order: seq<Key>, q: nat)
    requires order != []
    ensures RemoveAt(order, 0) == order[1..]
    ensures q + 1 < |order| ==> [order[0]] + RemoveAt(order[1..], q) == RemoveAt(order, q + 1)
  {
  }

  lemma {:induction false} RemoveIs(order: seq<Key>, k: Key)
    requires k in order
    ensures IndexOf(order, k) < |order| && Remove(order, k) == RemoveAt(order, IndexOf(order, k))
  {
    hide Remove, RemoveAt, IndexOf;
    RemoveStep(order, k);
    if order[0] == k {
      RemoveLater(order, 0);
    } else {
      RemoveIs(order[1..], k);
      RemoveLater(order, IndexOf(order[1..], k));
    }
  }

  class ChainMap {
    const hash: Hash
    const boundOf: (nat, nat) -> nat
    var buckets: array<seq<Key>>
    var next: map<Node<Key>, Node<Key>>
    var prev: map<Node<Key>, Node<Key>>
    ghost var order: seq<Key>      // the order the links spell out, newest first
    var vals: map<Key, Val>
    var hashes: map<Key, nat>
    var count: nat
    var scaleUp: nat
    var scaleDown: nat
    var keyed: bool
    var window: nat
    var bound: nat

    ghost predicate Valid()
      reads this, buckets
    {
      && count == |order| && vals.Keys == Keys(order)
      && scaleUp == UpLimit(buckets.Length) && scaleDown == DownLimit(buckets.Length)
      && Layout(hash, buckets[..], order, hashes, keyed) && Spells(next, prev, order)
    }

    /** What the switch needs: it builds the chains from the order list alone. */
    ghost predicate Switchable()
      reads this
    {
      && count == |order| && vals.Keys == Keys(order) && Spells(next, prev, order) && Buckets(buckets.Length)
      && scaleUp == UpLimit(buckets.Length) && scaleDown == DownLimit(buckets.Length)
    }

    constructor (hash: Hash, boundOf: (nat, nat) -> nat, n: nat)
      requires Buckets(n)
      ensures Valid() && order == [] && !keyed && fresh(buckets) && buckets.Length == n
    {
      this.hash := hash;
      this.boundOf := boundOf;
      buckets := new seq<Key>[n](_ => []);
      next, prev := map[Head := Tail], map[Tail := Head];
      order, vals, hashes, count := [], map[], map[], 0;
      scaleUp, scaleDown := UpLimit(n), DownLimit(n);
      keyed := false;
      window, bound := WINDOW_START, boundOf(0, n);
      new;
      NoLinks<Key>();
      LayoutNone(hash, buckets[..], false);
    }

    /** Links a node between the head and what followed it. */
    method Attach(k: Key)
      requires Spells(next, prev, order) && k !in order
      modifies this`next, this`prev, this`order
      ensures Spells(next, prev, order) && order == [k] + old(order)
    {
      FirstNode(next, order);
      LinkedFirst(next, prev, order, k);
      hide Spells, NodeAt;
      var first := next[Head];
      prev := prev[At(k) := Head];
      next := next[At(k) := first];
      prev := prev[first := At(k)];
      next := next[Head := At(k)];
      order := [k] + order;
    }

    /** Leads a node's two neighbours past it. */
    method Detach(k: Key)
      requires Spells(next, prev, order) && k in order
      modifies this`next, this`prev, this`order
      ensures Spells(next, prev, order) && order == Remove(old(order), k)
    {
      ghost var q := IndexOf(order, k);
      Neighbours(next, prev, order, k);
      UnlinkedForward(next, order, q);
      UnlinkedBackward(prev, order, q);
      RemovedMembers(order, q);
      RemoveIs(order, k);
      hide Forward, Backward, NodeAt, RemoveAt, IndexOf;
      var after, before := next[At(k)], prev[At(k)];
      prev := prev[after := before] - {At(k)};
      next := next[before := after] - {At(k)};
      order := RemoveAt(order, q);
    }

    ghost predicate WindowBegins()
      reads this
    {
      window == WINDOW_START && bound == if keyed then 0xFFFF else boundOf(count, buckets.Length)
    }

    method RestartWindow()
      modifies this`window, this`bound
      ensures WindowBegins() && window == WINDOW_START
    {
      window := WINDOW_START;
      bound := if keyed then 0xFFFF else boundOf(count, buckets.Length);
    }

    /** Rehashes every node in place with the keyed hash. */
    method SwitchToKeyed()
      requires Switchable()
      modifies this, buckets
      ensures Valid() && order == old(order) && vals == old(vals) && count == old(count) && keyed && buckets == old(buckets)
    {
      hide IsPow2, Linked, Chains, Stored, HomeOf, Keys, AllEmpty, Forward, Backward, WindowBegins;
      keyed := true;
      ClearChains(buckets);
      hashes := RelinkKeyed(prev, Head, order, 0, buckets, hashes, hash);
      LayoutOfChains(hash, buckets[..], order, hashes, true);
      RestartWindow();
    }

    method NoteWindow(walk: nat)
      requires Valid()
      modifies this, buckets
      ensures Valid() && order == old(order) && vals == old(vals) && count == old(count) && buckets == old(buckets)
      ensures var ends := WindowAdd(old(window), walk); keyed <==> old(keyed) || (ends.1 && ends.0 > old(bound))
      ensures var ends := WindowAdd(old(window), walk);
        !keyed ==> if ends.1 then window == WINDOW_START && bound == boundOf(count, buckets.Length) else window == ends.0 && bound == old(bound)
    {
      hide Linked, Stored, IsPow2, NoRepeat, Short, WindowAdd;
      var (sum, ended) := WindowAdd(window, walk);
      window := sum;
      if ended {
        var switchNow := !keyed && window > bound;
        RestartWindow();
        if switchNow { SwitchToKeyed(); }
      }
    }

    /** Links every node into an empty array of another size: through the abortable
        attempt when a keyed map grows, by the stored hashes otherwise. */
    method Rebucket(a: array<seq<Key>>, up: bool, r: nat) returns (longest: nat)
      requires Valid() && a != buckets && AllEmpty(a[..]) && Buckets(a.Length)
      requires up ==> a.Length == SCALE_FACTOR * buckets.Length && Buckets(2 * buckets.Length)
      requires !up ==> r > 0 && Merges(buckets.Length, a.Length, r)
      modifies a, this`hashes, this`keyed
      ensures up || keyed || longest < CHAIN_CAP ==> Layout(hash, a[..], order, hashes, keyed)
      ensures up ==> (keyed <==> KeyedAfter(hash, order, old(keyed), true, a.Length))
      ensures !up ==> keyed == old(keyed) && (KeyedAfter(hash, order, keyed, false, a.Length) <==> keyed || longest >= CHAIN_CAP)
    {
      hide IsPow2, Linked, Chains, Walks, Stored, HomeOf, Short, NoRepeat, Keys, AllEmpty, UpLimit, DownLimit;
      var m := a.Length;
      longest := 0;
      if up && keyed {
        var ok, walked;
        ok, hashes, walked := FastAttempt(prev, count, order, a, hashes, hash);
        keyed := !ok;
        if ok { AcceptedShort(order, HomeOf(hash, false, m), m); }
        LayoutOfChains(hash, a[..], order, hashes, keyed);
      } else {
        ghost var b := buckets[..];
        ghost var w;
        longest, w := Relink(buckets, a, hashes, if up then 1 else r, Keys(order), hash, keyed);
        if up { RelinkedUp(hash, b, a[..], order, hashes, keyed); }
        else { RelinkedDown(hash, a[..], order, hashes, keyed, longest, w); }
      }
    }

    /** Resizes the bucket array. Where the memory is missing, or growth is past
        its limit, nothing happens at all. */
    method Scale(up: bool, alloc: bool)
      requires Valid() && (!up ==> buckets.Length > MIN_CAPACITY)
      modifies this, buckets
      ensures Valid() && order == old(order) && vals == old(vals) && count == old(count) && (buckets == old(buckets) || fresh(buckets))
      ensures var n := old(buckets.Length);
        var m := if up then 4 * n else if n < 64 then 16 else n / 4;
        if alloc && (up ==> n <= MAX_CAPACITY / 4) then
          && buckets.Length == m
          && var f := HomeOf(hash, false, m);
             keyed <==> if up then old(keyed) && !(Short(Chains(order, f, m), 19) && Walks(order, f) <= |order| + 64)
                        else old(keyed) || !Short(Chains(order, f, m), 19)
        else
          buckets == old(buckets) && keyed == old(keyed)
    {
      hide Layout, KeyedAfter, Buckets, NoRepeat, ScaledDown, Ratio, Keys, AllEmpty, UpLimit, DownLimit, Merges, Spells, Short, Chains, Walks, HomeOf, WindowBegins;
      ScaledDownIs(buckets.Length);
      BucketsOf(hash, buckets[..], order, hashes, keyed);
      NoDupOf(hash, buckets[..], order, hashes, keyed);
      var n := buckets.Length;
      if up && n > MAX_CAPACITY / SCALE_FACTOR { return; }
      if up { ScalingUp(n); } else { ScalingDown(n); }
      var m := if up then n * SCALE_FACTOR else ScaledDown(n);
      if !alloc { return; }
      var a := NewChains(m);
      var longest := Rebucket(a, up, if up then 1 else Ratio(n));
      buckets := a;
      scaleUp, scaleDown := UpLimit(m), DownLimit(m);
      RestartWindow();
      assert vals == old(vals) && order == old(order) && count == old(count);
      KeyedAfterIs(hash, order, old(keyed), up, m);
      if !up && longest >= CHAIN_CAP && !keyed { SwitchToKeyed(); }
    }

    /** The bucket of a key, and its node's place there or the chain's length. */
    method Locate(k: Key) returns (h: nat, i: nat, p: nat)
      requires Valid()
      ensures h == HashOf(hash, keyed, k) && i == Index(h, buckets.Length) < buckets.Length
      ensures p <= |buckets[i]| && (p < |buckets[i]| <==> k in order) && (p < |buckets[i]| ==> buckets[i][p] == k)
    {
      hide Layout, Index, HashOf;
      h := HashOf(hash, keyed, k);
      i := Index(h, buckets.Length);
      Searched(hash, buckets[..], order, hashes, keyed, k);
      p := FindIn(buckets[i], hashes, h, k);
    }

    method Get(k: Key) returns (r: Option<Val>)
      requires Valid()
      ensures r == if k in order then Some(vals[k]) else None
    {
      hide Layout;
      var h, i, p := Locate(k);
      r := if p < |buckets[i]| then Some(vals[k]) else None;
    }

    /** Links a new node at both fronts. Its chain may then be too long for a fast
        map. */
    method Hang(k: Key, v: Val, h: nat, i: nat)
      requires Valid() && k !in order && h == HashOf(hash, keyed, k) && i == Index(h, buckets.Length) < buckets.Length
      modifies this, buckets
      ensures Switchable() && (keyed || old(|buckets[i]|) < CHAIN_CAP ==> Valid())
      ensures order == [k] + old(order) && vals == old(vals)[k := v] && count == old(count) + 1 && buckets == old(buckets)
      ensures keyed == old(keyed) && window == old(window) && bound == old(bound)
    {
      hide Index, HashOf, Layout, UpLimit, DownLimit, Spells, Buckets, Keys;
      BucketsOf(hash, buckets[..], order, hashes, keyed);
      ghost var b := buckets[..];
      LayoutPush(hash, b, order, hashes, keyed, k);
      KeysPush(order, k);
      Attach(k);
      vals := vals[k := v];
      hashes := hashes[k := h];
      buckets[i] := [k] + buckets[i];
      assert buckets[..] == b[i := [k] + b[i]];
      count := count + 1;
    }

    /** Links a new node and lets the adaptive hash judge the chain it met. */
    method Link(k: Key, v: Val, h: nat, i: nat)
      requires Valid() && k !in order && h == HashOf(hash, keyed, k) && i == Index(h, buckets.Length) < buckets.Length
      modifies this, buckets
      ensures Valid() && order == [k] + old(order) && vals == old(vals)[k := v] && count == old(count) + 1
      ensures buckets == old(buckets)
      ensures var walk := old(|buckets[i]|); var ends := WindowAdd(old(window), walk);
        keyed <==> old(keyed) || walk >= CHAIN_CAP || (ends.1 && ends.0 > old(bound))
    {
      hide Index, HashOf, WindowAdd, Layout, UpLimit, DownLimit, Spells, Buckets;
      var walk := |buckets[i]|;
      Hang(k, v, h, i);
      if walk >= CHAIN_CAP && !keyed { SwitchToKeyed(); }
      NoteWindow(walk);
    }

    /** Inserts a new key at the front of the order, or updates (with keep:
        leaves) the value of a key already there, which keeps its place. */
    method Insert(k: Key, v: Val, keep: bool, mem: Memory) returns (code: Code)
      requires Valid()
      modifies this, buckets
      ensures Valid() && (buckets == old(buckets) || fresh(buckets))
      ensures code.KeyAlreadyPresent? <==> k in old(order) && (keep || mem.value)
      ensures code.ContainerFull? <==> k !in old(order) && old(count) == MAX_CAPACITY
      ensures code.Success? <==> k !in old(order) && old(count) != MAX_CAPACITY && mem.entry
      ensures !code.KeyNotFound? && count == old(count) + (if code.Success? then 1 else 0)
      ensures order == if code.Success? then [k] + old(order) else old(order)
      ensures vals == if code.Success? || (code.KeyAlreadyPresent? && !keep) then old(vals)[k := v] else old(vals)
      ensures var n := old(buckets.Length);
        buckets.Length == if code.Success? && old(count) + 1 >= (n + 1) * 3 / 2 && mem.resize && n <= MAX_CAPACITY / 4 then 4 * n else n
    {
      hide Layout, Index, HashOf, WindowAdd, KeyedAfter;
      var h, i, p := Locate(k);
      if p < |buckets[i]| {
        if keep { return KeyAlreadyPresent; }
        if !mem.value { return NotEnoughMemory; }
        vals := vals[k := v];
        return KeyAlreadyPresent;
      }
      if count == MAX_CAPACITY { return ContainerFull; }
      if !mem.entry { return NotEnoughMemory; }
      Link(k, v, h, i);
      if count >= scaleUp { Scale(true, mem.resize); }
      code := Success;
    }

    /** Unlinks a key's node from its chain and from the order list. */
    method Unlink(k: Key, i: nat, p: nat)
      requires Valid() && i < buckets.Length && p < |buckets[i]| && buckets[i][p] == k && k in order
      modifies this, buckets
      ensures Valid() && order == Remove(old(order), k) && vals == old(vals) - {k} && count + 1 == old(count)
      ensures buckets == old(buckets) && keyed == old(keyed)
    {
      hide Layout, Spells, UpLimit, DownLimit;
      ghost var b := buckets[..];
      LayoutDrop(hash, b, order, hashes, keyed, i, p);
      NoDupOf(hash, b, order, hashes, keyed);
      RemoveKeys(order, k);
      buckets[i] := buckets[i][..p] + buckets[i][p + 1..];
      assert buckets[..] == b[i := b[i][..p] + b[i][p + 1..]];
      Detach(k);
      vals := vals - {k};
      hashes := hashes - {k};
      count := count - 1;
    }

    method Delete(k: Key, resize: bool) returns (code: Code)
      requires Valid()
      modifies this, buckets
      ensures Valid() && (buckets == old(buckets) || fresh(buckets))
      ensures code == if k in old(order) then Success else KeyNotFound
      ensures order == (if k in old(order) then Remove(old(order), k) else old(order)) && vals == old(vals) - {k}
      ensures old(keyed) ==> keyed
      ensures var n := old(buckets.Length);
        buckets.Length == if k in old(order) && |order| < (n + 1) / 8 && n > 16 && resize then (if n < 64 then 16 else n / 4) else n
    {
      hide Layout, Index, HashOf;
      var h, i, p := Locate(k);
      if p == |buckets[i]| { return KeyNotFound; }
      Unlink(k, i, p);
      if count < scaleDown && buckets.Length > MIN_CAPACITY { Scale(false, resize); }
      code := Success;
    }

    /** The fields of an empty map, over buckets that are empty already. */
    method StartOver()
      requires Buckets(buckets.Length) && AllEmpty(buckets[..])
      modifies this
      ensures Valid() && order == [] && vals == map[] && keyed == old(keyed) && buckets == old(buckets)
    {
      hide Layout, AllEmpty, Buckets, UpLimit, DownLimit, Keys, Spells, WindowBegins;
      NoLinks<Key>();
      LayoutNone(hash, buckets[..], keyed);
      count := 0;
      RestartWindow();
      next, prev := map[Head := Tail], map[Tail := Head];
      order, vals, hashes := [], map[], map[];
      scaleUp, scaleDown := UpLimit(buckets.Length), DownLimit(buckets.Length);
    }

    /** Destroys every entry whatever becomes of the new bucket array. */
    method Reset(n: nat, alloc: bool) returns (code: Code)
      requires Valid() && (n == 0 || Buckets(n))
      modifies this, buckets
      ensures Valid() && order == [] && vals == map[] && keyed == old(keyed) && (buckets == old(buckets) || fresh(buckets))
      ensures code == if n == 0 || n == old(buckets.Length) || alloc then Success else NotEnoughMemory
      ensures buckets.Length == if n == 0 || !alloc then old(buckets.Length) else n
    {
      hide Layout, AllEmpty, Buckets, UpLimit, DownLimit, Keys, Spells;
      BucketsOf(hash, buckets[..], order, hashes, keyed);
      code := Success;
      if n == 0 || n == buckets.Length || !alloc {
        if n != 0 && n != buckets.Length { code := NotEnoughMemory; }
        ClearChains(buckets);
      } else {
        buckets := NewChains(n);
      }
      StartOver();
    }

    /** Follows the order list from its head. */
    method Iterate() returns (entries: seq<(Key, Val)>)
      requires Valid()
      ensures |entries| == |order| && forall i :: 0 <= i < |order| ==> entries[i] == (order[i], vals[order[i]])
    {
      hide Layout, NodeAt, Forward, Backward;
      entries := [];
      FirstNode(next, order);
      StepOn(next, order, 0);
      var t := next[Head];
      ghost var i := 0;
      while t != Tail
        invariant i <= |order| && t == NodeAt(order, i + 1) && (t == Tail <==> i == |order|)
        invariant |entries| == i && forall j :: 0 <= j < i ==> entries[j] == (order[j], vals[order[j]])
        decreases |order| - i
      {
        StepOn(next, order, i);
        StepOn(next, order, i + 1);
        assert order[i] in Keys(order);
        entries := entries + [(t.id, vals[t.id])];
        t, i := next[t], i + 1;
      }
    }
  }

  lemma NoDupOf(hash: Hash, b: seq<seq<Key>>, order: seq<Key>, hashes: map<Key, nat>, keyed: bool)
    requires Layout(hash, b, order, hashes, keyed)
    ensures NoRepeat(order)
  {
  }

  // ---------------------------------------------------------------------
  // Whole runs
  // ---------------------------------------------------------------------

  datatype Op =
    | Put(k: Key, v: Val, keep: bool, mem: Memory)
    | Drop(k: Key, resize: bool)
    | Look(k: Key)
    | Clear(size: nat, alloc: bool)

  datatype Answer = Told(code: Code) | Seen(value: Option<Val>)

  /** An ordered map without buckets, hashes or modes. */
  datatype Ordered = Ordered(order: seq<Key>, vals: map<Key, Val>)

  function Step(s: Ordered, op: Op): Ordered {
    match op
    case Put(k, v, keep, mem) =>
      if k in s.order then (if !keep && mem.value then s.(vals := s.vals[k := v]) else s)
      else if |s.order| != MAX_CAPACITY && mem.entry then Ordered([k] + s.order, s.vals[k := v])
      else s
    case Drop(k, _) => if k in s.order then Ordered(Remove(s.order, k), s.vals - {k}) else s
    case Look(_) => s
    case Clear(_, _) => Ordered([], map[])
  }

  /** The answer an ideal ordered map gives to an operation. It is determined,
      except that a reset to another size may report that the memory for it was
      not there. */
  predicate Right(s: Ordered, op: Op, a: Answer) {
    match op
    case Put(k, _, keep, mem) =>
      a == Told(if k in s.order then (if keep || mem.value then KeyAlreadyPresent else NotEnoughMemory)
                else if |s.order| == MAX_CAPACITY then ContainerFull
                else if mem.entry then Success
                else NotEnoughMemory)
    case Drop(k, _) => a == Told(if k in s.order then Success else KeyNotFound)
    case Look(k) => a == Seen(if k in s.order && k in s.vals then Some(s.vals[k]) else None)
    case Clear(size, alloc) =>
      if size > MAX_CAPACITY then a == Told(NotEnoughMemory)
      else a == Told(Success) || (a == Told(NotEnoughMemory) && size != 0 && !alloc)
  }

  /** Does the operation bring a new key into the ideal map? */
  predicate Brings(s: Ordered, op: Op) { op.Put? && op.k !in s.order && |s.order| != MAX_CAPACITY && op.mem.entry }

  function Ideal(ops: seq<Op>): Ordered {
    if ops == [] then Ordered([], map[]) else Step(Ideal(ops[..|ops| - 1]), ops[|ops| - 1])
  }

  /** The operation that brought k in, the last time it came. */
  function Born(ops: seq<Op>, k: Key): int {
    if ops == [] then -1
    else
      var n := |ops| - 1;
      if Brings(Ideal(ops[..n]), ops[n]) && ops[n].k == k then n else Born(ops[..n], k)
  }

  lemma {:induction false} BornBefore(ops: seq<Op>, k: Key)
    ensures -1 <= Born(ops, k) < |ops|
  {
    if ops != [] { BornBefore(ops[..|ops| - 1], k); }
  }

  lemma {:induction false} RemoveKeepsOrder(order: seq<Key>, k: Key, i: nat, j: nat) returns (p: nat, q: nat)
    requires i < j < |Remove(order, k)|
    ensures p < q < |order| && order[p] == Remove(order, k)[i] && order[q] == Remove(order, k)[j]
  {
    if order[0] == k {
      p, q := i + 1, j + 1;
    } else if i == 0 {
      p := 0;
      q := RemoveKeeps(order[1..], k, j - 1);
      q := q + 1;
    } else {
      p, q := RemoveKeepsOrder(order[1..], k, i - 1, j - 1);
      p, q := p + 1, q + 1;
    }
  }

  lemma {:induction false} RemoveKeeps(order: seq<Key>, k: Key, j: nat) returns (q: nat)
    requires j < |Remove(order, k)|
    ensures q < |order| && order[q] == Remove(order, k)[j]
  {
    if order[0] == k { q := j + 1; }
    else if j == 0 { q := 0; }
    else {
      q := RemoveKeeps(order[1..], k, j - 1);
      q := q + 1;
    }
  }

  /** The order list is the reverse insertion order over any run: of two keys,
      the one inserted later comes first. Updates do not move a key. */
  lemma {:induction false} NewestFirst(ops: seq<Op>, i: nat, j: nat)
    requires i < j < |Ideal(ops).order|
    ensures Born(ops, Ideal(ops).order[i]) > Born(ops, Ideal(ops).order[j]) >= 0
  {
    hide Remove, NoRepeat;
    var n := |ops| - 1;
    var s, op := Ideal(ops[..n]), ops[n];
    IdealNoDup(ops);
    if op.Put? {
      if Brings(s, op) {
        if i > 0 { NewestFirst(ops[..n], i - 1, j - 1); }
        else { BornBefore(ops[..n], s.order[j - 1]); WasBorn(ops[..n], s.order[j - 1]); }
      } else {
        NewestFirst(ops[..n], i, j);
      }
    } else if op.Drop? && op.k in s.order {
      var p, q := RemoveKeepsOrder(s.order, op.k, i, j);
      NewestFirst(ops[..n], p, q);
    } else {
      NewestFirst(ops[..n], i, j);
    }
  }

  lemma {:induction false} WasBorn(ops: seq<Op>, k: Key)
    requires k in Ideal(ops).order
    ensures Born(ops, k) >= 0
  {
    var n := |ops| - 1;
    var s, op := Ideal(ops[..n]), ops[n];
    if op.Drop? && op.k in s.order {
      var j :| 0 <= j < |Ideal(ops).order| && Ideal(ops).order[j] == k;
      var _ := RemoveKeeps(s.order, op.k, j);
    }
    if k in s.order { WasBorn(ops[..n], k); }
  }

  lemma {:induction false} IdealNoDup(ops: seq<Op>)
    ensures NoRepeat(Ideal(ops).order)
  {
    if ops != [] {
      var n := |ops| - 1;
      IdealNoDup(ops[..n]);
      if ops[n].Drop? { RemoveKeys(Ideal(ops[..n]).order, ops[n].k); }
    }
  }

  method Perform(t: ChainMap, op: Op) returns (a: Answer)
    requires t.Valid()
    modifies t, t.buckets
    ensures t.Valid() && (t.buckets == old(t.buckets) || fresh(t.buckets))
    ensures var s := Ordered(old(t.order), old(t.vals)); Right(s, op, a) && Ordered(t.order, t.vals) == Step(s, op)
  {
    hide Buckets, Layout, ResetSize, Remove;
    CountBound(t);
    match op {
      case Put(k, v, keep, mem) =>
        var code := t.Insert(k, v, keep, mem);
        a := Told(code);
      case Drop(k, resize) =>
        var code := t.Delete(k, resize);
        a := Told(code);
      case Look(k) =>
        var r := t.Get(k);
        a := Seen(r);
      case Clear(size, alloc) =>
        ResetBuckets(size);
        var code := t.Reset(ResetSize(size).0, alloc);
        a := Told(if ResetSize(size).1 then NotEnoughMemory else code);
    }
  }

  /** The count is the order's length, and exactly the keys in it have values. */
  lemma CountBound(t: ChainMap)
    requires t.Valid()
    ensures t.count == |t.order| && forall k :: k in t.vals <==> k in t.order
  {
    hide Layout, Spells;
  }

  lemma ResetBuckets(n: nat)
    ensures var r := ResetSize(n); (r.0 == 0 || Buckets(r.0)) && (r.1 <==> n > MAX_CAPACITY) && (r.0 == 0 <==> n == 0 || r.1)
  {
    hide ResetSize;
    ResetSizeOk(n);
  }

  /** Any run of inserts, deletes, lookups and resets, under any hash and any
      allocation failures, is answered as the ideal ordered map answers it and
      leaves that map's entries in that map's order. */
  method Run(hash: Hash, boundOf: (nat, nat) -> nat, n: nat, ops: seq<Op>)
    returns (answers: seq<Answer>, entries: seq<(Key, Val)>)
    requires Buckets(n)
    ensures |answers| == |ops| && forall i :: 0 <= i < |ops| ==> Right(Ideal(ops[..i]), ops[i], answers[i])
    ensures var s := Ideal(ops);
      && |entries| == |s.order|
      && forall i :: 0 <= i < |entries| ==> entries[i].0 == s.order[i] && s.order[i] in s.vals && entries[i].1 == s.vals[s.order[i]]
  {
    hide Buckets, Layout, Right, Step;
    var t := new ChainMap(hash, boundOf, n);
    answers := [];
    for i := 0 to |ops|
      invariant t.Valid() && fresh(t) && fresh(t.buckets) && Ideal(ops[..i]) == Ordered(t.order, t.vals)
      invariant |answers| == i && forall j :: 0 <= j < i ==> Right(Ideal(ops[..j]), ops[j], answers[j])
    {
      hide Ideal;
      IdealStep(ops, i);
      var a := Perform(t, ops[i]);
      answers := answers + [a];
    }
    assert ops[..|ops|] == ops;
    entries := t.Iterate();
    assert forall i :: 0 <= i < |t.order| ==> t.order[i] in Keys(t.order);
  }

  lemma IdealStep(ops: seq<Op>, i: nat)
    requires i < |ops|
    ensures Ideal(ops[..i + 1]) == Step(Ideal(ops[..i]), ops[i])
  {
    assert ops[..i + 1][..i] == ops[..i];
  }
}
