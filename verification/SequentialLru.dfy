// The reference the cache is measured against: a sequential, bounded,
// least-recently-used list. It has no placeholders, no waiters, no flags and no
// threads; a key is either in the list with its value or it is not.

module SequentialLru {
  import opened Options
  import opened Orders

  type Key(==, !new)
  type Value(==, !new)

  /** The live items, most recently used first, and every item an insert pushed
      out, in the order they went. */
  datatype Lru = Lru(items: seq<(Key, Value)>, dropped: seq<(Key, Value)>)

  /** The operations of the sequential list. `Nothing` stands for a step of the
      concurrent cache that has no effect here. */
  datatype Op = Nothing | Use(k: Key) | Put(k: Key, v: Value)

  function Find(items: seq<(Key, Value)>, k: Key): (i: nat)
    ensures i <= |items|
    ensures i < |items| ==> items[i].0 == k
    ensures forall j :: 0 <= j < i ==> items[j].0 != k
  {
    if items == [] || items[0].0 == k then 0 else 1 + Find(items[1..], k)
  }

  function Lookup(items: seq<(Key, Value)>, k: Key): Option<Value> {
    var i := Find(items, k);
    if i < |items| then Some(items[i].1) else None
  }

  function Apply(l: Lru, cap: nat, op: Op): Lru
    requires cap > 0
  {
    match op
    case Nothing => l
    case Use(k) =>
      var i := Find(l.items, k);
      if i < |l.items| then l.(items := [l.items[i]] + RemoveAt(l.items, i)) else l
    case Put(k, v) =>
      var i := Find(l.items, k);
      if i < |l.items| then
        l.(items := [(k, v)] + RemoveAt(l.items, i))
      else if |l.items| < cap then
        l.(items := [(k, v)] + l.items)
      else
        var last := |l.items| - 1;
        Lru([(k, v)] + l.items[..last], l.dropped + [l.items[last]])
  }

  function ApplyAll(l: Lru, cap: nat, ops: seq<Op>): Lru
    requires cap > 0
  {
    if ops == [] then l else Apply(ApplyAll(l, cap, ops[..|ops| - 1]), cap, ops[|ops| - 1])
  }

  ghost predicate Distinct(items: seq<(Key, Value)>) {
    forall i, j :: 0 <= i < j < |items| ==> items[i].0 != items[j].0
  }

  lemma FindUnique(items: seq<(Key, Value)>, i: nat)
    requires Distinct(items) && i < |items|
    ensures Find(items, items[i].0) == i
  {
    var j := Find(items, items[i].0);
    assert j <= i;
  }
}
