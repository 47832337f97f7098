// Orders as the programs link them: every entry points to its two neighbours, and
// a sentinel stands at either end (where a program has a null reference, the
// sentinel stands for it).

module LinkedOrder {
  import opened Orders

  /** A place a link can point to: a sentinel or an entry. */
  datatype Node<T> = Head | Tail | At(id: T)

  /** The i-th node of the list, with the head before and the tail behind it. */
  function NodeAt<T>(order: seq<T>, i: nat): Node<T>
    requires i <= |order| + 1
  {
    if i == 0 then Head else if i <= |order| then At(order[i - 1]) else Tail
  }

  ghost predicate Forward<T>(next: map<Node<T>, Node<T>>, order: seq<T>) {
    && (forall i :: 0 <= i <= |order| ==> NodeAt(order, i) in next && next[NodeAt(order, i)] == NodeAt(order, i + 1))
    && Tail !in next && (forall d :: d in next && d.At? ==> d.id in order)
  }

  ghost predicate Backward<T>(prev: map<Node<T>, Node<T>>, order: seq<T>) {
    && (forall i :: 1 <= i <= |order| + 1 ==> NodeAt(order, i) in prev && prev[NodeAt(order, i)] == NodeAt(order, i - 1))
    && Head !in prev && (forall d :: d in prev && d.At? ==> d.id in order)
  }

  /** The links spell out the order in both directions, and nothing else. */
  ghost predicate Spells<T>(next: map<Node<T>, Node<T>>, prev: map<Node<T>, Node<T>>, order: seq<T>) {
    NoRepeat(order) && Forward(next, order) && Backward(prev, order)
  }

  lemma NodesApart<T>(order: seq<T>, i: nat, j: nat)
    requires NoRepeat(order) && i < j <= |order| + 1
    ensures NodeAt(order, i) != NodeAt(order, j)
  {
  }

  /** The links of an entry point to its neighbours. */
  lemma Neighbours<T>(next: map<Node<T>, Node<T>>, prev: map<Node<T>, Node<T>>, order: seq<T>, id: T)
    requires Spells(next, prev, order) && id in order
    ensures At(id) in next && At(id) in prev
    ensures var p := IndexOf(order, id) + 1; NodeAt(order, p) == At(id) && next[At(id)] == NodeAt(order, p + 1) && prev[At(id)] == NodeAt(order, p - 1)
  {
    var p := IndexOf(order, id) + 1;
    assert NodeAt(order, p) == At(id);
  }

  /** The links tell whether the order is empty, and which entry is last. */
  lemma LastNode<T>(prev: map<Node<T>, Node<T>>, order: seq<T>)
    requires Backward(prev, order)
    ensures Tail in prev && prev[Tail] == if order == [] then Head else At(order[|order| - 1])
  {
    assert prev[NodeAt(order, |order| + 1)] == NodeAt(order, |order|);
  }

  lemma FirstNode<T>(next: map<Node<T>, Node<T>>, order: seq<T>)
    requires Forward(next, order)
    ensures Head in next && next[Head] == NodeAt(order, 1)
  {
    assert NodeAt(order, 0) == Head;
  }

  /** Walking from the tail by the prev-links meets the entries last to first. */
  lemma StepBack<T>(prev: map<Node<T>, Node<T>>, order: seq<T>, i: nat)
    requires Backward(prev, order) && i <= |order|
    ensures NodeAt(order, i) == Head <==> i == 0
    ensures i > 0 ==> NodeAt(order, i) == At(order[i - 1]) && NodeAt(order, i) in prev && prev[NodeAt(order, i)] == NodeAt(order, i - 1)
  {
  }

  /** Walking from the head by the next-links meets them first to last. */
  lemma StepOn<T>(next: map<Node<T>, Node<T>>, order: seq<T>, i: nat)
    requires Forward(next, order) && i <= |order|
    ensures NodeAt(order, i + 1) == Tail <==> i == |order|
    ensures i < |order| ==> NodeAt(order, i + 1) == At(order[i]) && NodeAt(order, i + 1) in next && next[NodeAt(order, i + 1)] == NodeAt(order, i + 2)
  {
  }

  lemma FromTail<T>(prev: map<Node<T>, Node<T>>, order: seq<T>)
    requires Backward(prev, order)
    ensures Tail in prev && prev[Tail] == NodeAt(order, |order|)
  {
    assert prev[NodeAt(order, |order| + 1)] == NodeAt(order, |order|);
  }

  lemma NoLinks<T>()
    ensures Spells<T>(map[Head := Tail], map[Tail := Head], [])
  {
  }

  lemma RemovedNode<T>(order: seq<T>, q: nat, i: nat)
    requires q < |order| && i <= |order|
    ensures NodeAt(RemoveAt(order, q), i) == NodeAt(order, if i <= q then i else i + 1)
  {
  }

  lemma RemovedMembers<T>(order: seq<T>, q: nat)
    requires NoRepeat(order) && q < |order|
    ensures NoRepeat(RemoveAt(order, q))
    ensures forall y :: y in RemoveAt(order, q) <==> y in order && y != order[q]
  {
    assert order == order[..q] + [order[q]] + order[q + 1..];
  }

  /** Leading the two neighbours of an entry past it takes it out of the list. */
  lemma UnlinkedForward<T>(next: map<Node<T>, Node<T>>, order: seq<T>, q: nat)
    requires NoRepeat(order) && Forward(next, order) && q < |order|
    ensures Forward(next[NodeAt(order, q) := NodeAt(order, q + 2)] - {At(order[q])}, RemoveAt(order, q))
  {
    hide NodeAt, RemoveAt;
    var n, r := next[NodeAt(order, q) := NodeAt(order, q + 2)] - {At(order[q])}, RemoveAt(order, q);
    RemovedLength(order, q);
    NodeIs(order, q);
    forall i | 0 <= i <= |r| ensures NodeAt(r, i) in n && n[NodeAt(r, i)] == NodeAt(r, i + 1) {
      var o := if i <= q then i else i + 1;
      RemovedNode(order, q, i);
      RemovedNode(order, q, i + 1);
      Apart(order, o, q);
      Apart(order, o, q + 1);
      assert NodeAt(order, o) in next;
    }
    RemovedMembers(order, q);
    Apart(order, |order| + 1, q);
    NodeIs(order, |order|);
    assert Tail !in n;
    forall d | d in n && d.At? ensures d.id in r { NodeIn(order, q, d.id); }
  }

  lemma UnlinkedBackward<T>(prev: map<Node<T>, Node<T>>, order: seq<T>, q: nat)
    requires NoRepeat(order) && Backward(prev, order) && q < |order|
    ensures Backward(prev[NodeAt(order, q + 2) := NodeAt(order, q)] - {At(order[q])}, RemoveAt(order, q))
  {
    hide NodeAt, RemoveAt;
    var n, r := prev[NodeAt(order, q + 2) := NodeAt(order, q)] - {At(order[q])}, RemoveAt(order, q);
    RemovedLength(order, q);
    NodeIs(order, q);
    forall i | 1 <= i <= |r| + 1 ensures NodeAt(r, i) in n && n[NodeAt(r, i)] == NodeAt(r, i - 1) {
      var o := if i <= q then i else i + 1;
      RemovedNode(order, q, i);
      RemovedNode(order, q, i - 1);
      Apart(order, o, q + 1);
      Apart(order, o, q + 2);
      assert NodeAt(order, o) in prev;
    }
    RemovedMembers(order, q);
    Apart(order, 0, q + 2);
    NodeIs(order, q);
    assert Head !in n;
    forall d | d in n && d.At? ensures d.id in r { NodeIn(order, q, d.id); }
  }

  lemma RemovedLength<T>(order: seq<T>, q: nat)
    requires q < |order|
    ensures |RemoveAt(order, q)| == |order| - 1
  {
  }

  lemma NodeIs<T>(order: seq<T>, q: nat)
    requires q <= |order|
    ensures NodeAt(order, 0) == Head && NodeAt(order, |order| + 1) == Tail
    ensures q < |order| ==> NodeAt(order, q + 1) == At(order[q])
  {
  }

  /** An entry named by a node of the list is in the order. */
  lemma NodeIn<T>(order: seq<T>, q: nat, id: T)
    requires q < |order|
    ensures (NodeAt(order, q) == At(id) || NodeAt(order, q + 2) == At(id)) ==> id in order
  {
  }

  lemma Apart<T>(order: seq<T>, i: nat, j: nat)
    requires NoRepeat(order) && i <= |order| + 1 && j <= |order| + 1
    ensures NodeAt(order, i) == NodeAt(order, j) <==> i == j
  {
    if i < j { NodesApart(order, i, j); }
    if j < i { NodesApart(order, j, i); }
  }

  /** Linking an entry between the head and its successor puts it first. */
  lemma LinkedFirst<T>(next: map<Node<T>, Node<T>>, prev: map<Node<T>, Node<T>>, order: seq<T>, id: T)
    requires Spells(next, prev, order) && id !in order
    ensures var first := NodeAt(order, 1);
            Spells(next[At(id) := first][Head := At(id)], prev[At(id) := Head][first := At(id)], [id] + order)
  {
    hide NodeAt;
    FirstForward(next, order, id);
    FirstBackward(prev, order, id);
  }

  lemma FrontNode<T>(order: seq<T>, id: T, i: nat)
    requires i <= |order| + 2
    ensures NodeAt([id] + order, i) == if i == 0 then Head else if i == 1 then At(id) else NodeAt(order, i - 1)
  {
  }

  lemma NotNode<T>(order: seq<T>, id: T, i: nat)
    requires i <= |order| + 1 && id !in order
    ensures NodeAt(order, i) != At(id)
  {
  }

  lemma FirstForward<T>(next: map<Node<T>, Node<T>>, order: seq<T>, id: T)
    requires NoRepeat(order) && Forward(next, order) && id !in order
    ensures Forward(next[At(id) := NodeAt(order, 1)][Head := At(id)], [id] + order)
  {
    hide NodeAt;
    var n, r := next[At(id) := NodeAt(order, 1)][Head := At(id)], [id] + order;
    forall i | 0 <= i <= |r| ensures NodeAt(r, i) in n && n[NodeAt(r, i)] == NodeAt(r, i + 1) {
      FrontNode(order, id, i);
      FrontNode(order, id, i + 1);
      if i > 1 {
        NotNode(order, id, i - 1);
        Apart(order, 0, i - 1);
        NodeIs(order, 0);
        assert NodeAt(order, i - 1) in next;
      }
    }
  }

  lemma FirstBackward<T>(prev: map<Node<T>, Node<T>>, order: seq<T>, id: T)
    requires NoRepeat(order) && Backward(prev, order) && id !in order
    ensures Backward(prev[At(id) := Head][NodeAt(order, 1) := At(id)], [id] + order)
  {
    hide NodeAt;
    var n, r := prev[At(id) := Head][NodeAt(order, 1) := At(id)], [id] + order;
    NodeIs(order, 0);
    forall i | 1 <= i <= |r| + 1 ensures NodeAt(r, i) in n && n[NodeAt(r, i)] == NodeAt(r, i - 1) {
      FrontNode(order, id, i);
      FrontNode(order, id, i - 1);
      NotNode(order, id, i - 1);
      Apart(order, 1, i - 1);
      if i > 1 { assert NodeAt(order, i - 1) in prev; }
    }
    Apart(order, 0, 1);
    if |order| > 0 { NodeIs(order, 0); } else { NodeIs(order, |order|); }
  }
}
