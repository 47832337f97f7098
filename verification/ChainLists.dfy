// Bucket chains over a set of keys: what it means for every node to hang in
// its bucket, and how linking, unlinking and relinking change the chains.

module ChainLists {
  import opened Orders

  type Key(==, !new)

  /** The bucket of every key, for one bucket count and one hash mode. */
  type Home = Key -> nat

  function Keys(s: seq<Key>): set<Key> { set k | k in s }

  /** Every key of `keys`, and no other, hangs exactly once, in its own bucket. */
  ghost predicate Linked(b: seq<seq<Key>>, keys: set<Key>, f: Home) {
    && (forall i :: 0 <= i < |b| ==> NoRepeat(b[i]))
    && (forall i, k :: 0 <= i < |b| && k in b[i] ==> k in keys && f(k) == i)
    && (forall k :: k in keys ==> f(k) < |b| && k in b[f(k)])
  }

  ghost predicate AllEmpty(b: seq<seq<Key>>) { forall i :: 0 <= i < |b| ==> b[i] == [] }

  lemma LinkedEmpty(b: seq<seq<Key>>, f: Home)
    requires AllEmpty(b)
    ensures Linked(b, {}, f)
  {
  }

  lemma LinkedPush(b: seq<seq<Key>>, keys: set<Key>, f: Home, k: Key)
    requires Linked(b, keys, f) && k !in keys && f(k) < |b|
    ensures Linked(b[f(k) := [k] + b[f(k)]], keys + {k}, f)
  {
    var c := b[f(k) := [k] + b[f(k)]];
    forall i | 0 <= i < |c| ensures NoRepeat(c[i]) {
      assert NoRepeat(b[i]);
    }
    forall j | j in keys + {k} ensures f(j) < |c| && j in c[f(j)] {
      if j == k { assert c[f(k)][0] == k; }
    }
  }

  /** Taking the node at position p out of its chain. */
  lemma LinkedDrop(b: seq<seq<Key>>, keys: set<Key>, f: Home, i: nat, p: nat)
    requires Linked(b, keys, f) && i < |b| && p < |b[i]|
    ensures Linked(b[i := b[i][..p] + b[i][p + 1..]], keys - {b[i][p]}, f)
  {
    var chain := b[i][..p] + b[i][p + 1..];
    var c := b[i := chain];
    var k := b[i][p];
    WithoutOne(b[i], p);
    assert k in b[i];
    forall j, q | 0 <= q < |c| && j in c[q] ensures j in keys - {k} && f(j) == q {
      if q == i { assert j in chain; }
      assert j in b[q] && f(j) == q && f(k) == i;
    }
  }

  lemma WithoutOne(s: seq<Key>, p: nat)
    requires NoRepeat(s) && p < |s|
    ensures var t := s[..p] + s[p + 1..]; NoRepeat(t) && forall k :: k in t <==> k in s && k != s[p]
  {
    var t := s[..p] + s[p + 1..];
    forall k | k in s && k != s[p] ensures k in t {
      var q :| 0 <= q < |s| && s[q] == k;
      assert q < p ==> t[q] == k;
      assert q > p ==> t[q - 1] == k;
    }
  }

  // ---------------------------------------------------------------------
  // Chain lengths
  // ---------------------------------------------------------------------

  lemma {:induction false} KeysSize(s: seq<Key>)
    requires NoRepeat(s)
    ensures |Keys(s)| == |s|
  {
    if s != [] {
      var t := s[1..];
      KeysSize(t);
      assert s == [s[0]] + t;
      assert Keys(s) == Keys(t) + {s[0]};
    }
  }

  lemma SubsetSize(a: set<Key>, b: set<Key>)
    requires a <= b
    ensures |a| <= |b|
  {
    assert b == a + (b - a);
  }

  /** A chain inside another is no longer than it. */
  lemma ChainWithin(s: seq<Key>, t: seq<Key>)
    requires NoRepeat(s) && NoRepeat(t) && forall k :: k in s ==> k in t
    ensures |s| <= |t|
  {
    KeysSize(s);
    KeysSize(t);
    SubsetSize(Keys(s), Keys(t));
  }

  /** The keys hang in chains of one length, however they were linked. */
  lemma SameLengths(b: seq<seq<Key>>, c: seq<seq<Key>>, keys: set<Key>, f: Home, i: nat)
    requires Linked(b, keys, f) && Linked(c, keys, f) && i < |b| && i < |c|
    ensures |b[i]| == |c[i]|
  {
    forall k | k in b[i] ensures k in c[i] { assert f(k) == i; }
    forall k | k in c[i] ensures k in b[i] { assert f(k) == i; }
    ChainWithin(b[i], c[i]);
    ChainWithin(c[i], b[i]);
  }

  /** No chain holds more than n nodes. */
  ghost predicate Short(b: seq<seq<Key>>, n: nat) { forall i :: 0 <= i < |b| ==> |b[i]| <= n }

  // ---------------------------------------------------------------------
  // The chains of an order list
  // ---------------------------------------------------------------------

  /** The keys of ks that belong to bucket i, in their order. */
  function Chain(ks: seq<Key>, f: Home, i: nat): (c: seq<Key>)
    ensures forall k :: k in c <==> k in ks && f(k) == i
  {
    if ks == [] then []
    else
      var rest := Chain(ks[1..], f, i);
      assert ks == [ks[0]] + ks[1..];
      if f(ks[0]) == i then [ks[0]] + rest else rest
  }

  function Chains(ks: seq<Key>, f: Home, n: nat): (b: seq<seq<Key>>)
    ensures |b| == n
  {
    seq(n, i requires 0 <= i < n => Chain(ks, f, i))
  }

  lemma {:induction false} ChainNoDup(ks: seq<Key>, f: Home, i: nat)
    requires NoRepeat(ks)
    ensures NoRepeat(Chain(ks, f, i))
  {
    if ks != [] { ChainNoDup(ks[1..], f, i); }
  }

  lemma ChainsLinked(ks: seq<Key>, f: Home, n: nat)
    requires NoRepeat(ks) && forall k :: k in ks ==> f(k) < n
    ensures Linked(Chains(ks, f, n), Keys(ks), f)
  {
    forall i | 0 <= i < n ensures NoRepeat(Chains(ks, f, n)[i]) { ChainNoDup(ks, f, i); }
  }

  /** Linking one more key at the front of the order and of its chain. */
  lemma ChainsPush(ks: seq<Key>, f: Home, n: nat, k: Key)
    requires f(k) < n
    ensures Chains([k] + ks, f, n) == Chains(ks, f, n)[f(k) := [k] + Chains(ks, f, n)[f(k)]]
  {
    assert ([k] + ks)[1..] == ks;
  }

  lemma {:induction false} ChainGrows(ks: seq<Key>, f: Home, i: nat, j: nat)
    requires j <= |ks|
    ensures |Chain(ks[j..], f, i)| <= |Chain(ks, f, i)|
  {
    if j > 0 {
      ChainGrows(ks[1..], f, i, j - 1);
      assert ks[1..][j - 1..] == ks[j..];
    } else {
      assert ks[j..] == ks;
    }
  }

  /** How many nodes all keys of the order meet, linked from last to first. */
  function Walks(ks: seq<Key>, f: Home): nat {
    if ks == [] then 0 else Walks(ks[1..], f) + |Chain(ks[1..], f, f(ks[0]))|
  }

  lemma {:induction false} WalksGrow(ks: seq<Key>, f: Home, j: nat)
    requires j <= |ks|
    ensures Walks(ks[j..], f) <= Walks(ks, f)
  {
    if j > 0 {
      WalksGrow(ks[1..], f, j - 1);
      assert ks[1..][j - 1..] == ks[j..];
    } else {
      assert ks[j..] == ks;
    }
  }
}
