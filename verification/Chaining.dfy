// Relinking the nodes of a separate-chaining map: the reduction of a hash to a
// bucket, resizes up and down, the in-place switch and the fast attempt.

module Chaining {
  import opened Powers
  import opened MapTypes
  import opened Orders
  import opened LinkedOrder
  import opened ChainLists

  const WORD: nat := 0x1_0000_0000_0000_0000
  const CHAIN_CAP: nat := 20
  const ATTEMPT_SLACK: nat := 64
  const SCALE_FACTOR: nat := 4

  // ---------------------------------------------------------------------
  // Hash and bucket
  // ---------------------------------------------------------------------

  /** The hash of a key in either mode: any function to machine words. */
  type Hash = (bool, Key) -> nat

  function HashOf(hash: Hash, keyed: bool, k: Key): nat { hash(keyed, k) % WORD }

  /** The high bits of a hash. */
  function Index(h: nat, n: nat): nat { if 0 < n <= WORD then h / (WORD / n) else 0 }

  function HomeOf(hash: Hash, keyed: bool, n: nat): Home { k => Index(HashOf(hash, keyed, k), n) }

  ghost predicate Buckets(n: nat) { IsPow2(n) && 2 <= n <= MAX_CAPACITY }

  lemma MulSign(n: nat, d: int)
    requires n > 0
    ensures (d >= 1 ==> n * d >= n) && (d <= -1 ==> n * d + n <= 0)
  {
  }

  lemma DivUnique(m: nat, n: nat, q: nat, rest: nat)
    requires n > 0 && m == n * q + rest && rest < n
    ensures m / n == q
  {
    var x := m / n;
    assert m == n * x + m % n;
    assert n * (q - x) == n * q - n * x;
    MulSign(n, q - x);
  }

  lemma {:induction false} Divides(n: nat, k: nat)
    requires IsPow2(n) && n <= Pow2(k)
    ensures n * (Pow2(k) / n) == Pow2(k)
  {
    if n > 1 {
      Divides(n / 2, k - 1);
      var q := Pow2(k - 1) / (n / 2);
      assert n * q == 2 * (n / 2 * q);
      DivUnique(Pow2(k), n, q, 0);
    }
  }

  lemma WordSplits(n: nat)
    requires Buckets(n)
    ensures WORD / n >= 2 && n * (WORD / n) == WORD
  {
    hide IsPow2;
    Pow2Of63();
    assert Pow2(64) == WORD;
    hide Pow2;
    Divides(n, 64);
  }

  lemma DivBelow(h: nat, a: nat, n: nat)
    requires a > 0 && h < n * a
    ensures h / a < n
  {
    assert h == a * (h / a) + h % a;
    assert a * (n - h / a) == a * n - a * (h / a);
    MulSign(a, n - h / a);
  }

  lemma IndexBelow(hash: Hash, keyed: bool, n: nat, k: Key)
    requires Buckets(n)
    ensures HomeOf(hash, keyed, n)(k) < n
  {
    hide IsPow2;
    WordSplits(n);
    DivBelow(HashOf(hash, keyed, k), WORD / n, n);
  }

  lemma Halve(h: nat, a: nat)
    requires a > 0
    ensures h / (2 * a) == h / a / 2
  {
    var q, rest := h / a, h % a;
    HalfQuotient(h, a, q, rest, q / 2, q % 2);
  }

  lemma HalfQuotient(h: nat, a: nat, q: nat, rest: nat, x: nat, odd: nat)
    requires a > 0 && h == a * q + rest && rest < a && q == 2 * x + odd && odd < 2
    ensures h / (2 * a) == x
  {
    TwiceTimes(a, q, x, odd);
    DivUnique(h, 2 * a, x, (if odd == 1 then a else 0) + rest);
  }

  lemma TwiceTimes(a: nat, q: nat, x: nat, odd: nat)
    requires q == 2 * x + odd && odd < 2
    ensures a * q == 2 * a * x + (if odd == 1 then a else 0)
  {
  }

  /** Fewer buckets take fewer of the same high bits, so neighbours merge. */
  lemma IndexHalves(h: nat, n: nat)
    requires Buckets(n) && Buckets(2 * n)
    ensures Index(h, n) == Index(h, 2 * n) / 2
  {
    hide IsPow2;
    WordSplits(n);
    WordSplits(2 * n);
    var a := WORD / (2 * n);
    assert n * (2 * a) == (2 * n) * a;
    DivUnique(WORD, n, 2 * a, 0);
    Halve(h, a);
  }

  lemma IndexCoarser(h: nat, n: nat, r: nat)
    requires Buckets(n) && Buckets(r * n) && (r == 2 || r == 4)
    ensures Index(h, n) == Index(h, r * n) / r
  {
    IndexHalves(h, n);
    if r == 4 { IndexHalves(h, 2 * n); }
  }

  /** Every key's node stores the hash of the mode. */
  ghost predicate Stored(hashes: map<Key, nat>, keys: set<Key>, hash: Hash, keyed: bool) {
    forall k :: k in keys ==> k in hashes && hashes[k] == HashOf(hash, keyed, k)
  }

  // ---------------------------------------------------------------------
  // Linking nodes into a zeroed array
  // ---------------------------------------------------------------------

  /** Puts a node at the front of its bucket's chain. */
  method PushNode(a: array<seq<Key>>, i: nat, k: Key, ghost keys: set<Key>, ghost f: Home)
    requires Linked(a[..], keys, f) && k !in keys && i == f(k) < a.Length
    modifies a
    ensures a[..] == old(a[..])[i := [k] + old(a[i])] && Linked(a[..], keys + {k}, f)
  {
    hide Linked;
    LinkedPush(a[..], keys, f, k);
    ghost var b := a[..];
    a[i] := [k] + a[i];
    assert a[..] == b[i := [k] + b[i]];
  }

  lemma MoveReady(chain: seq<Key>, hashes: map<Key, nat>, keys: set<Key>, hash: Hash, keyed: bool, n: nat, j: nat)
    requires Buckets(n) && NoRepeat(chain) && (forall k :: k in chain ==> k !in keys) && j < |chain|
    requires Stored(hashes, Keys(chain), hash, keyed)
    ensures var k := chain[j];
      && k in hashes && HomeOf(hash, keyed, n)(k) == Index(hashes[k], n) < n && k !in keys + Keys(chain[..j])
      && keys + Keys(chain[..j]) + {k} == keys + Keys(chain[..j + 1])
  {
    hide IsPow2;
    IndexBelow(hash, keyed, n, chain[j]);
    assert chain[j] in Keys(chain);
    assert chain[..j + 1] == chain[..j] + [chain[j]];
  }

  /** Moves one old chain, node by node, to the fronts of the new chains. When
      the whole chain belongs to bucket g, that chain grows by its length. */
  method MoveChain(chain: seq<Key>, a: array<seq<Key>>, hashes: map<Key, nat>, ghost keys: set<Key>, ghost hash: Hash, ghost keyed: bool, ghost g: nat)
    requires Buckets(a.Length) && NoRepeat(chain) && (forall k :: k in chain ==> k !in keys)
    requires Stored(hashes, Keys(chain), hash, keyed) && Linked(a[..], keys, HomeOf(hash, keyed, a.Length)) && g < a.Length
    modifies a
    ensures Linked(a[..], keys + Keys(chain), HomeOf(hash, keyed, a.Length))
    ensures (forall k :: k in chain ==> HomeOf(hash, keyed, a.Length)(k) == g) ==>
      |a[g]| == |old(a[g])| + |chain| && forall i :: 0 <= i < a.Length && i != g ==> a[i] == old(a[i])
  {
    hide IsPow2, Linked, NoRepeat, Stored, HomeOf, Index, HashOf;
    ghost var f := HomeOf(hash, keyed, a.Length);
    ghost var one := forall k :: k in chain ==> f(k) == g;
    var j := 0;
    assert keys + Keys(chain[..0]) == keys;
    while j < |chain|
      invariant 0 <= j <= |chain| && Linked(a[..], keys + Keys(chain[..j]), f)
      invariant one ==> |a[g]| == |old(a[g])| + j
      invariant one ==> forall i :: 0 <= i < a.Length && i != g ==> a[i] == old(a[i])
    {
      var k := chain[j];
      MoveReady(chain, hashes, keys, hash, keyed, a.Length, j);
      PushNode(a, Index(hashes[k], a.Length), k, keys + Keys(chain[..j]), f);
      assert forall i :: 0 <= i < a.Length ==> a[i] == a[..][i];
      j := j + 1;
    }
    assert chain[..j] == chain;
  }

  /** The keys of the first i chains have been moved. */
  ghost predicate Moved(done: set<Key>, keys: set<Key>, f: Home, i: nat) { forall k :: k in done <==> k in keys && f(k) < i }

  lemma MovedStep(b: seq<seq<Key>>, done: set<Key>, keys: set<Key>, f: Home, i: nat)
    requires Linked(b, keys, f) && Moved(done, keys, f, i) && i < |b|
    ensures Moved(done + Keys(b[i]), keys, f, i + 1)
    ensures NoRepeat(b[i]) && (forall k :: k in b[i] ==> k !in done && k in keys && f(k) == i)
  {
  }

  lemma MovedAll(b: seq<seq<Key>>, done: set<Key>, keys: set<Key>, f: Home)
    requires Linked(b, keys, f) && Moved(done, keys, f, |b|)
    ensures done == keys
  {
  }

  /** A shrink by r merges r neighbouring chains. */
  ghost predicate Merges(old_n: nat, n: nat, r: nat) { (r == 2 || r == 4) && old_n == r * n && Buckets(n) && Buckets(old_n) }

  /** Where the chain of old bucket i goes when neighbours merge. */
  lemma GroupOf(chain: seq<Key>, hash: Hash, keyed: bool, n: nat, r: nat, i: nat)
    requires Merges(r * n, n, r) && i < r * n
    requires forall k :: k in chain ==> HomeOf(hash, keyed, r * n)(k) == i
    ensures i / r < n && forall k :: k in chain ==> HomeOf(hash, keyed, n)(k) == i / r
  {
    hide IsPow2;
    forall k | k in chain ensures HomeOf(hash, keyed, n)(k) == i / r {
      IndexCoarser(HashOf(hash, keyed, k), n, r);
    }
  }

  /** What the counting of merged chains has seen after i old buckets: the
      running group's chain, and the longest chain, at bucket w. */
  ghost predicate Counted(b: seq<seq<Key>>, r: nat, i: nat, merged: nat, longest: nat, w: nat) {
    && (r == 2 || r == 4) && w < |b| && |b[w]| == longest && Short(b, longest) && i <= r * |b|
    && (i % r != 0 ==> |b[i / r]| == merged)
    && (forall j :: (i + r - 1) / r <= j < |b| ==> b[j] == [])
  }

  lemma CountedStep(b: seq<seq<Key>>, c: seq<seq<Key>>, r: nat, i: nat, merged: nat, longest: nat, w: nat, n: nat)
    requires Counted(b, r, i, merged, longest, w) && i < r * |b| && |c| == |b|
    requires |c[i / r]| == |b[i / r]| + n && forall j :: 0 <= j < |b| && j != i / r ==> c[j] == b[j]
    ensures var m := (if i % r == 0 then 0 else merged) + n;
      Counted(c, r, i + 1, m, if m > longest then m else longest, if m > longest then i / r else w)
  {
    var m := (if i % r == 0 then 0 else merged) + n;
    assert |c[i / r]| == m;
    assert (i + 1) % r != 0 ==> (i + 1) / r == i / r;
  }

  /** Links every node of the old array into the zeroed new one by its stored
      hash. On a shrink it gives the length of the longest merged chain. */
  method Relink(old_arr: array<seq<Key>>, a: array<seq<Key>>, hashes: map<Key, nat>, r: nat,
                ghost keys: set<Key>, ghost hash: Hash, ghost keyed: bool)
    returns (longest: nat, ghost w: nat)
    requires old_arr != a && Buckets(old_arr.Length) && Buckets(a.Length) && r > 0 && AllEmpty(a[..])
    requires Linked(old_arr[..], keys, HomeOf(hash, keyed, old_arr.Length)) && Stored(hashes, keys, hash, keyed)
    modifies a
    ensures Linked(a[..], keys, HomeOf(hash, keyed, a.Length))
    ensures Merges(old_arr.Length, a.Length, r) ==> Short(a[..], longest) && w < a.Length && |a[w]| == longest
  {
    hide IsPow2, Linked, HomeOf, Index, AllEmpty, Counted, Moved, Stored;
    ghost var b := old_arr[..];
    ghost var f := HomeOf(hash, keyed, old_arr.Length);
    ghost var down := Merges(old_arr.Length, a.Length, r);
    ghost var done := {};
    longest, w := 0, 0;
    var merged: nat := 0;
    LinkedEmpty(a[..], HomeOf(hash, keyed, a.Length));
    MovedNone(keys, f);
    if down { CountedStart(a[..], r); }
    var i := 0;
    while i < old_arr.Length
      invariant 0 <= i <= old_arr.Length && old_arr[..] == b
      invariant Linked(a[..], done, HomeOf(hash, keyed, a.Length)) && Moved(done, keys, f, i)
      invariant down ==> Counted(a[..], r, i, merged, longest, w)
    {
      MovedStep(b, done, keys, f, i);
      ghost var was := a[..];
      ghost var g := if down then i / r else 0;
      if down { GroupOf(b[i], hash, keyed, a.Length, r, i); }
      StoredPart(hashes, keys, Keys(b[i]), hash, keyed);
      MoveChain(old_arr[i], a, hashes, done, hash, keyed, g);
      if down { CountedStep(was, a[..], r, i, merged, longest, w, |b[i]|); }
      if i % r == 0 { merged := 0; }
      merged := merged + |old_arr[i]|;
      if merged > longest { longest, w := merged, i / r; }
      done := done + Keys(b[i]);
      i := i + 1;
    }
    MovedAll(b, done, keys, f);
    if down { CountedShort(a[..], r, i, merged, longest, w); }
  }

  lemma CountedShort(b: seq<seq<Key>>, r: nat, i: nat, merged: nat, longest: nat, w: nat)
    requires Counted(b, r, i, merged, longest, w)
    ensures Short(b, longest) && w < |b| && |b[w]| == longest
  {
  }

  lemma MovedNone(keys: set<Key>, f: Home)
    ensures Moved({}, keys, f, 0)
  {
  }

  lemma CountedStart(b: seq<seq<Key>>, r: nat)
    requires AllEmpty(b) && |b| > 0 && (r == 2 || r == 4)
    ensures Counted(b, r, 0, 0, 0, 0)
  {
  }

  lemma StoredPart(hashes: map<Key, nat>, keys: set<Key>, part: set<Key>, hash: Hash, keyed: bool)
    requires Stored(hashes, keys, hash, keyed) && part <= keys
    ensures Stored(hashes, part, hash, keyed)
  {
  }

  // ---------------------------------------------------------------------
  // Relinking in the order list's order
  // ---------------------------------------------------------------------

  /** Puts the next older key's node at the front of its chain. */
  method PushInOrder(ghost order: seq<Key>, ghost i: nat, k: Key, a: array<seq<Key>>, index: nat, ghost f: Home)
    requires i < |order| && k == order[i] && a[..] == Chains(order[i + 1..], f, a.Length) && index == f(k) < a.Length
    modifies a
    ensures a[..] == Chains(order[i..], f, a.Length)
  {
    hide Chains;
    assert order[i..] == [order[i]] + order[i + 1..];
    ChainsPush(order[i + 1..], f, a.Length, order[i]);
    ghost var b := a[..];
    a[index] := [k] + a[index];
    assert a[..] == b[index := [k] + b[index]];
  }

  lemma ChainsNone(b: seq<seq<Key>>, order: seq<Key>, f: Home)
    requires AllEmpty(b)
    ensures b == Chains(order[|order|..], f, |b|) && Short(b, CHAIN_CAP - 1)
  {
  }

  /** The nodes before position i hold the hash of one mode, the rest of the
      other. */
  ghost predicate StoredSplit(hashes: map<Key, nat>, order: seq<Key>, i: nat, hash: Hash, front: bool, back: bool)
    requires i <= |order|
  {
    && (forall j :: 0 <= j < i ==> order[j] in hashes && hashes[order[j]] == HashOf(hash, front, order[j]))
    && (forall j :: i <= j < |order| ==> order[j] in hashes && hashes[order[j]] == HashOf(hash, back, order[j]))
  }

  lemma SplitStep(hashes: map<Key, nat>, order: seq<Key>, i: nat, hash: Hash, front: bool, back: bool)
    requires NoRepeat(order) && i < |order| && StoredSplit(hashes, order, i + 1, hash, front, back)
    ensures StoredSplit(hashes[order[i] := HashOf(hash, back, order[i])], order, i, hash, front, back)
  {
  }

  lemma SplitStored(hashes: map<Key, nat>, order: seq<Key>, hash: Hash, keyed: bool)
    ensures Stored(hashes, Keys(order), hash, keyed) <==> StoredSplit(hashes, order, |order|, hash, keyed, !keyed)
    ensures Stored(hashes, Keys(order), hash, keyed) <==> StoredSplit(hashes, order, 0, hash, !keyed, keyed)
  {
    forall j | 0 <= j < |order| ensures order[j] in Keys(order) {}
  }

  /** Walks the order list from its tail and links every node by the keyed hash,
      which it computes for the nodes up to and including stop (for all of them if
      stop is the head); the others hold it already. */
  method RelinkKeyed(prev: map<Node<Key>, Node<Key>>, stop: Node<Key>, ghost order: seq<Key>, ghost from: nat,
                     a: array<seq<Key>>, hashes0: map<Key, nat>, hash: Hash)
    returns (hashes: map<Key, nat>)
    requires NoRepeat(order) && Backward(prev, order) && from <= |order| && Buckets(a.Length) && AllEmpty(a[..])
    requires stop == (if from == 0 && stop == Head then Head else NodeAt(order, from + 1))
    requires forall j :: 0 <= j < from ==> order[j] in hashes0 && hashes0[order[j]] == HashOf(hash, true, order[j])
    modifies a
    ensures a[..] == Chains(order, HomeOf(hash, true, a.Length), a.Length) && Stored(hashes, Keys(order), hash, true)
  {
    hide IsPow2, Chains, AllEmpty, HashOf, Index, Backward, NodeAt;
    ghost var f := HomeOf(hash, true, a.Length);
    hashes := hashes0;
    ChainsNone(a[..], order, f);
    FromTail(prev, order);
    var t, holdsFast := prev[Tail], true;
    ghost var i := |order|;
    StepBack(prev, order, i);
    while t != Head
      invariant 0 <= i <= |order| && t == NodeAt(order, i) && a[..] == Chains(order[i..], f, a.Length)
      invariant (t == Head <==> i == 0) && (i > from ==> holdsFast)
      invariant forall j :: 0 <= j < from ==> order[j] in hashes && hashes[order[j]] == HashOf(hash, true, order[j])
      invariant forall j :: i <= j < |order| ==> order[j] in hashes && hashes[order[j]] == HashOf(hash, true, order[j])
      decreases i
    {
      StepBack(prev, order, i);
      var k := t.id;
      if holdsFast { hashes := hashes[k := HashOf(hash, true, k)]; }
      if t == stop {
        Apart(order, i, from + 1);
        holdsFast := false;
      }
      IndexBelow(hash, true, a.Length, k);
      i := i - 1;
      StepBack(prev, order, i);
      PushInOrder(order, i, k, a, Index(hashes[k], a.Length), f);
      t := prev[t];
    }
    assert order[0..] == order;
  }

  /** The keys spread well enough under f for the fast attempt. */
  ghost predicate Accepts(order: seq<Key>, f: Home, n: nat) {
    Short(Chains(order, f, n), CHAIN_CAP - 1) && Walks(order, f) <= |order| + ATTEMPT_SLACK
  }

  lemma AttemptStop(order: seq<Key>, f: Home, n: nat, i: nat)
    requires i < |order| && f(order[i]) < n
    requires |Chain(order[i + 1..], f, f(order[i]))| >= CHAIN_CAP - 1 || Walks(order[i..], f) > |order| + ATTEMPT_SLACK
    ensures !Accepts(order, f, n)
  {
    assert order[i..][1..] == order[i + 1..];
    ChainGrows(order, f, f(order[i]), i);
    WalksGrow(order, f, i);
    assert Chains(order, f, n)[f(order[i])] == Chain(order, f, f(order[i]));
  }

  lemma WalksStep(order: seq<Key>, f: Home, i: nat)
    requires i < |order|
    ensures Walks(order[i..], f) == Walks(order[i + 1..], f) + |Chain(order[i + 1..], f, f(order[i]))|
  {
    assert order[i..][1..] == order[i + 1..];
  }

  /** The fast attempt of a keyed map's growth: links every node by the fast
      hash, and gives up when a chain would reach the cap or the nodes met add
      up to more than the budget; then every node gets its keyed hash back and
      is linked by it into the same array. */
  method FastAttempt(prev: map<Node<Key>, Node<Key>>, count: nat, ghost order: seq<Key>, a: array<seq<Key>>,
                     hashes0: map<Key, nat>, hash: Hash)
    returns (ok: bool, hashes: map<Key, nat>, walked: nat)
    requires NoRepeat(order) && Backward(prev, order) && count == |order|
    requires Buckets(a.Length) && AllEmpty(a[..]) && Stored(hashes0, Keys(order), hash, true)
    modifies a
    ensures var f := HomeOf(hash, false, a.Length); ok <==> Short(Chains(order, f, a.Length), 19) && Walks(order, f) <= |order| + 64
    ensures a[..] == Chains(order, HomeOf(hash, !ok, a.Length), a.Length) && Stored(hashes, Keys(order), hash, !ok)
    ensures ok ==> walked <= |order| + 64
    ensures !ok ==> walked <= |order| + 83
  {
    hide IsPow2, Chains, Chain, AllEmpty, HashOf, Index, Stored, StoredSplit, Backward, NodeAt;
    ghost var f := HomeOf(hash, false, a.Length);
    ghost var n := a.Length;
    hashes, walked := hashes0, 0;
    ChainsNone(a[..], order, f);
    SplitStored(hashes, order, hash, true);
    FromTail(prev, order);
    var t := prev[Tail];
    ghost var i := |order|;
    StepBack(prev, order, i);
    while t != Head
      invariant 0 <= i <= |order| && t == NodeAt(order, i) && (t == Head <==> i == 0)
      invariant a[..] == Chains(order[i..], f, n) && Short(a[..], CHAIN_CAP - 1)
      invariant StoredSplit(hashes, order, i, hash, true, false)
      invariant walked == Walks(order[i..], f) <= |order| + ATTEMPT_SLACK
      decreases i
    {
      StepBack(prev, order, i);
      i := i - 1;
      var k := t.id;
      SplitStep(hashes, order, i, hash, true, false);
      hashes := hashes[k := HashOf(hash, false, k)];
      var index := Index(hashes[k], a.Length);
      IndexBelow(hash, false, n, k);
      WalksStep(order, f, i);
      ChainsAt(order[i + 1..], f, n, index);
      var chain := if |a[index]| < CHAIN_CAP - 1 then |a[index]| else CHAIN_CAP - 1;
      walked := walked + chain;
      if chain == CHAIN_CAP - 1 || walked > count + ATTEMPT_SLACK {
        AttemptStop(order, f, n, i);
        SplitFront(hashes, order, i, hash, true, false);
        forall j | 0 <= j < a.Length { a[j] := []; }
        AllEmptied(a[..]);
        hashes := RelinkKeyed(prev, t, order, i, a, hashes, hash);
        return false, hashes, walked;
      }
      ghost var b := a[..];
      PushInOrder(order, i, k, a, index, f);
      ChainsAfter(order, f, n, i, b, a[..]);
      StepBack(prev, order, i);
      t := prev[t];
    }
    assert order[0..] == order;
    SplitStored(hashes, order, hash, false);
    ok := true;
  }

  lemma AllEmptied(b: seq<seq<Key>>)
    requires forall i :: 0 <= i < |b| ==> b[i] == []
    ensures AllEmpty(b)
  {
  }

  lemma SplitFront(hashes: map<Key, nat>, order: seq<Key>, i: nat, hash: Hash, front: bool, back: bool)
    requires i <= |order| && StoredSplit(hashes, order, i, hash, front, back)
    ensures forall j :: 0 <= j < i ==> order[j] in hashes && hashes[order[j]] == HashOf(hash, front, order[j])
  {
  }

  lemma ChainsAt(ks: seq<Key>, f: Home, n: nat, i: nat)
    requires i < n
    ensures Chains(ks, f, n)[i] == Chain(ks, f, i)
  {
  }

  lemma ChainsAfter(order: seq<Key>, f: Home, n: nat, i: nat, b: seq<seq<Key>>, c: seq<seq<Key>>)
    requires i < |order| && f(order[i]) < n && b == Chains(order[i + 1..], f, n) && c == Chains(order[i..], f, n)
    requires Short(b, CHAIN_CAP - 1) && |b[f(order[i])]| < CHAIN_CAP - 1
    ensures Short(c, CHAIN_CAP - 1)
  {
    assert order[i..] == [order[i]] + order[i + 1..];
    ChainsPush(order[i + 1..], f, n, order[i]);
  }
}
