// The parser, the serializer and the clone as the source runs them: one loop
// each over an explicit stack, proved to be the recursive definitions.

module JsonMachine {
  import opened Options
  import opened Utf8
  import opened JsonString
  import opened JsonValue
  import opened JsonParse
  import opened JsonRoundTrip

  // ---------------------------------------------------------------------
  // Parsing
  // ---------------------------------------------------------------------

  /** A complete value goes to the containers open around it, the innermost
      last. */
  function Deliver(frames: seq<Frame>, v: Json, s: Text): Parsed
    decreases |frames|, 0
  {
    if frames == [] then Some((v, s))
    else Resume(frames[..|frames| - 1], Add(frames[|frames| - 1], v), s)
  }

  /** The container f is read to its end and given to those around it. */
  function Resume(outer: seq<Frame>, f: Frame, s: Text): Parsed
    decreases |outer|, 1
  {
    match ParseRest(f, s, |outer| + 1)
    case None => None
    case Some((v, rest)) => Deliver(outer, v, rest)
  }

  /** A value is read and delivered. */
  function Await(frames: seq<Frame>, s: Text): Parsed {
    match ParseValue(s, |frames|)
    case None => None
    case Some((v, rest)) => Deliver(frames, v, rest)
  }

  lemma DeliverTop(outer: seq<Frame>, f: Frame, v: Json, s: Text)
    ensures Deliver(outer + [f], v, s) == Resume(outer, Add(f, v), s)
  {
    assert (outer + [f])[..|outer|] == outer;
  }

  /** Where the innermost container goes on. */
  lemma ResumeGoes(outer: seq<Frame>, f: Frame, s: Text)
    ensures Advance(f, s).Stop? ==> Resume(outer, f, s) == None
    ensures Advance(f, s).Closed? ==> Resume(outer, f, s) == Deliver(outer, f.node, Advance(f, s).rest)
    ensures Advance(f, s).Go? ==> Resume(outer, f, s) == Await(outer + [Advance(f, s).f], Advance(f, s).s)
  {
    hide Advance, ParseValue, Add;
    if Advance(f, s).Go? {
      var g, t := Advance(f, s).f, Advance(f, s).s;
      if ParseValue(t, |outer| + 1).Some? {
        var (v, u) := ParseValue(t, |outer| + 1).value;
        DeliverTop(outer, g, v, u);
      }
    }
  }

  lemma AwaitGoes(frames: seq<Frame>, s: Text)
    ensures var t := SkipWs(s);
      Await(frames, s) ==
        if t == [] then None
        else if t[0] == 0x5B || t[0] == 0x7B then
          (if |frames| >= MAX_DEPTH then None else Resume(frames, Opened(t[0]), t[1..]))
        else match ParseScalar(t) case None => None case Some((v, rest)) => Deliver(frames, v, rest)
  {
    hide ParseRest, ParseScalar, SkipWs;
  }

  datatype Mode = Value | Delivered(v: Json) | Next

  /** What the rest of the loop is to give. */
  function Meaning(mode: Mode, frames: seq<Frame>, s: Text): Parsed {
    match mode
    case Value => Await(frames, s)
    case Delivered(v) => Deliver(frames, v, s)
    case Next => if frames == [] then None else Resume(frames[..|frames| - 1], frames[|frames| - 1], s)
  }

  /** Parses a value with a loop over open containers, none deeper on the stack
      than the limit. */
  method ParseLoop(s0: Text) returns (r: Parsed)
    ensures r == ParseValue(s0, 0)
  {
    hide ParseValue, ParseRest, ParseScalar, Advance, Deliver, Resume, Await, Add, SkipWs;
    var mode, s := Value, s0;
    var frames: seq<Frame> := [];
    StartMeaning(s0);
    while true
      invariant Meaning(mode, frames, s) == ParseValue(s0, 0)
      invariant |frames| <= MAX_DEPTH && (mode.Next? ==> frames != [])
      decreases |s|, if mode.Delivered? then 2 else if mode.Next? then 1 else 0
    {
      match mode {
        case Value =>
          AwaitGoes(frames, s);
          var t := SkipWs(s);
          if t == [] { return None; }
          if t[0] == 0x5B || t[0] == 0x7B {
            if |frames| >= MAX_DEPTH { return None; }
            NextTop(frames, Opened(t[0]), t[1..]);
            frames, mode, s := frames + [Opened(t[0])], Next, t[1..];
          } else {
            var v := ParseScalar(t);
            if v.None? { return None; }
            mode, s := Delivered(v.value.0), v.value.1;
          }
        case Delivered(v) =>
          if frames == [] {
            DoneMeaning(v, s);
            return Some((v, s));
          }
          var n := |frames| - 1;
          assert frames == frames[..n] + [frames[n]];
          DeliverTop(frames[..n], frames[n], v, s);
          NextTop(frames[..n], Add(frames[n], v), s);
          frames, mode := frames[..n] + [Add(frames[n], v)], Next;
        case Next =>
          var n := |frames| - 1;
          ResumeGoes(frames[..n], frames[n], s);
          var move := Advance(frames[n], s);
          match move {
            case Stop => return None;
            case Closed(rest) => mode, frames, s := Delivered(frames[n].node), frames[..n], rest;
            case Go(f, t) => mode, frames, s := Value, frames[..n] + [f], t;
          }
      }
    }
  }

  lemma StartMeaning(s: Text)
    ensures Await([], s) == ParseValue(s, 0)
  {
    hide ParseValue;
  }

  lemma DoneMeaning(v: Json, s: Text)
    ensures Deliver([], v, s) == Some((v, s))
  {
  }

  lemma NextTop(outer: seq<Frame>, f: Frame, s: Text)
    ensures Meaning(Next, outer + [f], s) == Resume(outer, f, s)
  {
    hide Resume;
    assert (outer + [f])[..|outer|] == outer;
  }

  /** The parse of a whole document. */
  method Parse(s: Text) returns (r: Option<Json>)
    ensures r == ParseDocument(s)
  {
    hide ParseValue, SkipWs;
    var p := ParseLoop(s);
    if p.None? { return None; }
    r := if SkipWs(p.value.1) == [] then Some(p.value.0) else None;
  }

  // ---------------------------------------------------------------------
  // Serializing
  // ---------------------------------------------------------------------

  /** An open container and how many of its children have been taken; its depth
      is its place on the stack. */
  datatype Open = Open(node: Json, taken: nat)

  ghost predicate OpenOk(stack: seq<Open>) { forall i :: 0 <= i < |stack| ==> Container(stack[i].node) && stack[i].taken <= Arity(stack[i].node) }

  /** The text the open containers still need. */
  function Tail(stack: seq<Open>, indent: nat): Text
    requires OpenOk(stack)
  {
    if stack == [] then []
    else
      var n := |stack| - 1;
      PrintFrom(stack[n].node, indent, n, stack[n].taken) + Tail(stack[..n], indent)
  }

  /** Nothing the open containers have left is too deep. */
  predicate TailFits(stack: seq<Open>)
    requires OpenOk(stack)
  {
    stack != [] ==>
      var n := |stack| - 1;
      DepthFrom(stack[n].node, stack[n].taken) + n + 1 <= MAX_DEPTH && TailFits(stack[..n])
  }

  /** The steps a value takes, and a container from its k-th child on. */
  function Weight(j: Json): nat
    decreases j, Arity(j) + 1
  {
    2 + WeightFrom(j, 0)
  }

  function WeightFrom(j: Json, k: nat): nat
    requires k <= Arity(j)
    decreases j, Arity(j) - k
  {
    if k == Arity(j) then 0 else Weight(Child(j, k)) + 1 + WeightFrom(j, k + 1)
  }

  function StackWeight(stack: seq<Open>): nat
    requires OpenOk(stack)
  {
    if stack == [] then 0
    else
      var n := |stack| - 1;
      1 + WeightFrom(stack[n].node, stack[n].taken) + StackWeight(stack[..n])
  }

  /** What one more open container adds. */
  lemma StackPush(stack: seq<Open>, o: Open, indent: nat)
    requires OpenOk(stack) && Container(o.node) && o.taken <= Arity(o.node)
    ensures OpenOk(stack + [o])
    ensures Tail(stack + [o], indent) == PrintFrom(o.node, indent, |stack|, o.taken) + Tail(stack, indent)
    ensures TailFits(stack + [o]) <==> DepthFrom(o.node, o.taken) + |stack| + 1 <= MAX_DEPTH && TailFits(stack)
    ensures StackWeight(stack + [o]) == 1 + WeightFrom(o.node, o.taken) + StackWeight(stack)
  {
    assert (stack + [o])[..|stack|] == stack;
  }

  lemma ChildNext(j: Json, k: nat, indent: nat, depth: nat)
    requires Container(j) && k < Arity(j)
    ensures PrintFrom(j, indent, depth, k) == Lead(j, indent, depth, k) + Print(Child(j, k), indent, depth + 1) + PrintFrom(j, indent, depth, k + 1)
    ensures DepthFrom(j, k) == if Depth(Child(j, k)) < DepthFrom(j, k + 1) then DepthFrom(j, k + 1) else Depth(Child(j, k))
    ensures WeightFrom(j, k) == Weight(Child(j, k)) + 1 + WeightFrom(j, k + 1)
  {
  }

  lemma ContainerEnd(j: Json, indent: nat, depth: nat)
    requires Container(j)
    ensures PrintFrom(j, indent, depth, Arity(j)) == (if Arity(j) > 0 then Indent(indent, depth) else []) + [Closing(j)]
    ensures DepthFrom(j, Arity(j)) == 0 && WeightFrom(j, Arity(j)) == 0
  {
  }

  lemma ValueStarts(j: Json, indent: nat, depth: nat)
    ensures Container(j) ==> Print(j, indent, depth) == [Opening(j)] + PrintFrom(j, indent, depth, 0) && Depth(j) == 1 + DepthFrom(j, 0)
    ensures !Container(j) ==> Print(j, indent, depth) == PrintScalar(j) && Depth(j) == 0
    ensures Weight(j) == 2 + WeightFrom(j, 0)
  {
  }

  /** The text still to come, and whether it may. */
  function Coming(cur: Option<Json>, stack: seq<Open>, indent: nat): Text
    requires OpenOk(stack)
  {
    (if cur.Some? then Print(cur.value, indent, |stack|) else []) + Tail(stack, indent)
  }

  predicate ComingFits(cur: Option<Json>, stack: seq<Open>)
    requires OpenOk(stack)
  {
    (cur.Some? ==> Depth(cur.value) + |stack| <= MAX_DEPTH) && TailFits(stack)
  }

  function WorkLeft(cur: Option<Json>, stack: seq<Open>): nat
    requires OpenOk(stack)
  {
    (if cur.Some? then Weight(cur.value) else 0) + StackWeight(stack)
  }

  lemma OpenStep(v: Json, stack: seq<Open>, indent: nat)
    requires OpenOk(stack) && Container(v)
    ensures var more := stack + [Open(v, 0)];
      && OpenOk(more) && Coming(Some(v), stack, indent) == [Opening(v)] + Coming(None, more, indent)
      && (|stack| < MAX_DEPTH ==> (ComingFits(Some(v), stack) <==> ComingFits(None, more)))
      && (|stack| >= MAX_DEPTH ==> !ComingFits(Some(v), stack))
      && WorkLeft(None, more) < WorkLeft(Some(v), stack)
  {
    hide Print, PrintFrom, Depth, DepthFrom, Weight, WeightFrom, Tail, TailFits, StackWeight;
    ValueStarts(v, indent, |stack|);
    StackPush(stack, Open(v, 0), indent);
  }

  lemma ScalarStep(v: Json, stack: seq<Open>, indent: nat)
    requires OpenOk(stack) && !Container(v) && |stack| <= MAX_DEPTH
    ensures Coming(Some(v), stack, indent) == PrintScalar(v) + Coming(None, stack, indent)
    ensures (ComingFits(Some(v), stack) <==> ComingFits(None, stack)) && WorkLeft(None, stack) < WorkLeft(Some(v), stack)
  {
    hide Print, PrintScalar, Depth, Weight, WeightFrom, Tail, TailFits, StackWeight;
    ValueStarts(v, indent, |stack|);
  }

  lemma TakeStep(outer: seq<Open>, o: Open, indent: nat)
    requires OpenOk(outer + [o]) && o.taken < Arity(o.node) && Container(o.node)
    ensures var stack, more := outer + [o], outer + [Open(o.node, o.taken + 1)];
      var c := Some(Child(o.node, o.taken));
      && OpenOk(more) && Coming(None, stack, indent) == Lead(o.node, indent, |outer|, o.taken) + Coming(c, more, indent)
      && (ComingFits(None, stack) <==> ComingFits(c, more)) && WorkLeft(c, more) < WorkLeft(None, stack)
  {
    hide Print, PrintFrom, Depth, DepthFrom, Weight, WeightFrom, Tail, TailFits, StackWeight, Lead;
    OuterOk(outer, o);
    StackPush(outer, o, indent);
    StackPush(outer, Open(o.node, o.taken + 1), indent);
    ChildNext(o.node, o.taken, indent, |outer|);
  }

  lemma CloseStep(outer: seq<Open>, o: Open, indent: nat)
    requires OpenOk(outer + [o]) && o.taken == Arity(o.node) && Container(o.node) && |outer| < MAX_DEPTH
    ensures var stack := outer + [o];
      && OpenOk(outer)
      && Coming(None, stack, indent) == (if o.taken > 0 then Indent(indent, |outer|) else []) + [Closing(o.node)] + Coming(None, outer, indent)
      && (ComingFits(None, stack) <==> ComingFits(None, outer)) && WorkLeft(None, outer) < WorkLeft(None, stack)
  {
    hide Print, PrintFrom, Depth, DepthFrom, Weight, WeightFrom, Tail, TailFits, StackWeight, Indent;
    OuterOk(outer, o);
    StackPush(outer, o, indent);
    ContainerEnd(o.node, indent, |outer|);
  }

  lemma OuterOk(outer: seq<Open>, o: Open)
    requires OpenOk(outer + [o])
    ensures OpenOk(outer) && o.taken <= Arity(o.node) && Container(o.node)
  {
    var stack := outer + [o];
    assert stack[|outer|] == o;
    forall i | 0 <= i < |outer| ensures Container(outer[i].node) && outer[i].taken <= Arity(outer[i].node) { assert stack[i] == outer[i]; }
  }

  lemma WholeComing(j: Json, indent: nat)
    ensures Coming(Some(j), [], indent) == Print(j, indent, 0) && (ComingFits(Some(j), []) <==> Depth(j) <= MAX_DEPTH)
    ensures Coming(None, [], indent) == [] && ComingFits(None, [])
  {
    hide Print, Depth;
    assert Print(j, indent, 0) + [] == Print(j, indent, 0);
  }

  /** Writes a tree with a loop over open containers; a container in 500 others
      fails the whole. */
  method Serialize(j: Json, indent: nat) returns (r: Option<Text>)
    ensures r == if Depth(j) <= MAX_DEPTH then Some(Print(j, indent, 0)) else None
  {
    hide Print, Depth, Coming, ComingFits, WorkLeft, PrintScalar, Lead, Indent, OpenOk;
    var out: Text, cur, stack: seq<Open> := [], Some(j), [];
    OpenNone();
    WholeComing(j, indent);
    while true
      invariant OpenOk(stack) && |stack| <= MAX_DEPTH
      invariant out + Coming(cur, stack, indent) == Print(j, indent, 0)
      invariant Depth(j) <= MAX_DEPTH <==> ComingFits(cur, stack)
      decreases WorkLeft(cur, stack)
    {
      if cur.Some? {
        var v := cur.value;
        if Container(v) {
          OpenStep(v, stack, indent);
          if |stack| >= MAX_DEPTH { return None; }
          out := out + [Opening(v)];
          cur, stack := None, stack + [Open(v, 0)];
        } else {
          ScalarStep(v, stack, indent);
          out := out + PrintScalar(v);
          cur := None;
        }
      } else if stack == [] {
        assert out + [] == out;
        return Some(out);
      } else {
        var n := |stack| - 1;
        var outer, o := stack[..n], stack[n];
        assert stack == outer + [o];
        OuterOk(outer, o);
        if o.taken < Arity(o.node) {
          TakeStep(outer, o, indent);
          out := out + Lead(o.node, indent, n, o.taken);
          cur, stack := Some(Child(o.node, o.taken)), outer + [Open(o.node, o.taken + 1)];
        } else {
          CloseStep(outer, o, indent);
          out := out + ((if o.taken > 0 then Indent(indent, n) else []) + [Closing(o.node)]);
          stack := outer;
        }
      }
    }
  }

  lemma OpenNone()
    ensures OpenOk([])
  {
  }

  // ---------------------------------------------------------------------
  // Cloning
  // ---------------------------------------------------------------------

  /** The copy with one more child, under the key the source has for it. */
  function Attach(copy: Json, src: Json, k: nat, child: Json): Json
    requires k < Arity(src)
  {
    Add(Frame(copy, if src.Dict? then src.members[k].0 else [], true), child).node
  }

  lemma Attached(src: Json, k: nat)
    requires Container(src) && Tidy(src) && k < Arity(src)
    ensures Attach(Prefix(src, k), src, k, Child(src, k)) == Prefix(src, k + 1) && Tidy(Child(src, k))
  {
    if src.List? {
      assert Tidy(src.items[k]);
      assert src.items[..k] + [src.items[k]] == src.items[..k + 1];
    } else {
      assert Tidy(src.members[k].1);
      hide Put, Tidy;
      PutNew(src.members[..k], src.members[k].0, src.members[k].1);
      assert src.members[..k] + [src.members[k]] == src.members[..k + 1];
    }
  }

  /** Each open copy holds the children finished so far: all that were taken from
      the innermost container, and all but the one in progress from the others. */
  ghost predicate Building(j: Json, cur: Option<Json>, stack: seq<Open>, copies: seq<Json>) {
    && |copies| == |stack| && OpenOk(stack) && Tidy(j)
    && (stack == [] ==> cur == Some(j)) && (stack != [] ==> stack[0].node == j)
    && (forall i :: 0 <= i < |stack| ==> Tidy(stack[i].node))
    && (forall i :: 0 <= i < |stack| - 1 ==>
         stack[i].taken > 0 && Child(stack[i].node, stack[i].taken - 1) == stack[i + 1].node && copies[i] == Prefix(stack[i].node, stack[i].taken - 1))
    && (stack != [] ==>
         var n := |stack| - 1;
         var o := stack[n];
         if cur.Some? then o.taken > 0 && Child(o.node, o.taken - 1) == cur.value && copies[n] == Prefix(o.node, o.taken - 1)
         else copies[n] == Prefix(o.node, o.taken))
  }

  /** The value in hand is tidy, as a child of a tidy container. */
  lemma HandTidy(j: Json, v: Json, stack: seq<Open>, copies: seq<Json>)
    requires Building(j, Some(v), stack, copies)
    ensures Tidy(v)
  {
    hide Depth, Prefix, Tidy;
    if stack != [] {
      var o := stack[|stack| - 1];
      Attached(o.node, o.taken - 1);
    }
  }

  lemma OpenPush(stack: seq<Open>, v: Json)
    requires OpenOk(stack) && Container(v)
    ensures OpenOk(stack + [Open(v, 0)])
  {
  }

  lemma BuildOpen(j: Json, v: Json, stack: seq<Open>, copies: seq<Json>)
    requires Building(j, Some(v), stack, copies) && Container(v)
    ensures Building(j, None, stack + [Open(v, 0)], copies + [Prefix(v, 0)]) && Tidy(v)
  {
    hide Depth, Prefix, Tidy;
    HandTidy(j, v, stack, copies);
    OpenPush(stack, v);
    var st, cp := stack + [Open(v, 0)], copies + [Prefix(v, 0)];
    forall i | 0 <= i < |st| - 1
      ensures st[i].taken > 0 && st[i].taken - 1 < Arity(st[i].node) && Child(st[i].node, st[i].taken - 1) == st[i + 1].node
      ensures cp[i] == Prefix(st[i].node, st[i].taken - 1)
    {
      if i < |stack| - 1 { assert st[i] == stack[i] && st[i + 1] == stack[i + 1]; }
    }
  }

  lemma BuildScalar(j: Json, v: Json, stack: seq<Open>, copies: seq<Json>)
    requires Building(j, Some(v), stack, copies) && stack != []
    ensures var n := |stack| - 1; var o := stack[n];
      && o.taken > 0 && o.taken <= Arity(o.node)
      && Building(j, None, stack, copies[n := Attach(copies[n], o.node, o.taken - 1, v)])
  {
    hide Prefix, Tidy, Attach;
    var o := stack[|stack| - 1];
    Attached(o.node, o.taken - 1);
  }

  lemma BuildTake(j: Json, outer: seq<Open>, o: Open, copies: seq<Json>)
    requires Building(j, None, outer + [o], copies) && o.taken < Arity(o.node)
    ensures Building(j, Some(Child(o.node, o.taken)), outer + [Open(o.node, o.taken + 1)], copies)
  {
    hide Prefix, Tidy;
    var stack := outer + [o];
    assert stack[|outer|] == o;
    assert forall i :: 0 <= i < |outer| ==> stack[i] == outer[i];
  }

  /** A finished container is the value its parent waits for. */
  lemma BuildClose(j: Json, outer: seq<Open>, o: Open, copies: seq<Json>)
    requires Building(j, None, outer + [o], copies) && o.taken == Arity(o.node) && copies != []
    ensures copies[|outer|] == o.node
    ensures outer == [] ==> o.node == j
    ensures outer != [] ==> Building(j, Some(o.node), outer, copies[..|outer|])
  {
    hide Prefix, Tidy;
    var stack := outer + [o];
    assert stack[|outer|] == o;
    assert forall i :: 0 <= i < |outer| ==> stack[i] == outer[i];
    WholePrefix(o.node);
  }

  lemma WholePrefix(j: Json)
    ensures Prefix(j, Arity(j)) == j && Prefix(j, 0) == (if j.List? then List([]) else if j.Dict? then Dict([]) else j)
  {
    if j.List? { assert j.items[..|j.items|] == j.items; }
    else if j.Dict? { assert j.members[..|j.members|] == j.members; }
  }

  /** Copies a tree with a loop over open containers. The copy is the tree, order
      included, and a tree that is too deep has none. */
  method Clone(j: Json) returns (r: Option<Json>)
    requires Tidy(j)
    ensures r == if Depth(j) <= MAX_DEPTH then Some(j) else None
  {
    hide Print, Depth, Coming, ComingFits, WorkLeft, OpenOk, Building, Tidy, Attach;
    var cur, stack: seq<Open>, copies: seq<Json> := Some(j), [], [];
    BuildStart(j);
    WholeComing(j, 0);
    while true
      invariant Building(j, cur, stack, copies) && OpenOk(stack) && |stack| <= MAX_DEPTH && |copies| == |stack|
      invariant Depth(j) <= MAX_DEPTH <==> ComingFits(cur, stack)
      decreases WorkLeft(cur, stack)
    {
      if cur.Some? {
        var v := cur.value;
        if Container(v) {
          OpenStep(v, stack, 0);
          if |stack| >= MAX_DEPTH { return None; }
          BuildOpen(j, v, stack, copies);
          WholePrefix(v);
          copies := copies + [if v.List? then List([]) else Dict([])];
          cur, stack := None, stack + [Open(v, 0)];
        } else {
          ScalarStep(v, stack, 0);
          if stack == [] {
            BuildRoot(j, v, copies);
            WholeComing(j, 0);
            return Some(v);
          }
          BuildScalar(j, v, stack, copies);
          var n := |stack| - 1;
          copies := copies[n := Attach(copies[n], stack[n].node, stack[n].taken - 1, v)];
          cur := None;
        }
      } else {
        BuildNonempty(j, stack, copies);
        var n := |stack| - 1;
        var outer, o := stack[..n], stack[n];
        assert stack == outer + [o];
        OuterOk(outer, o);
        if o.taken < Arity(o.node) {
          TakeStep(outer, o, 0);
          BuildTake(j, outer, o, copies);
          cur, stack := Some(Child(o.node, o.taken)), outer + [Open(o.node, o.taken + 1)];
        } else {
          CloseStep(outer, o, 0);
          BuildClose(j, outer, o, copies);
          var done := copies[n];
          if outer == [] {
            WholeComing(j, 0);
            return Some(done);
          }
          BuildScalar(j, done, outer, copies[..n]);
          copies := copies[..n][n - 1 := Attach(copies[n - 1], outer[n - 1].node, outer[n - 1].taken - 1, done)];
          stack := outer;
        }
      }
    }
  }

  lemma BuildStart(j: Json)
    requires Tidy(j)
    ensures Building(j, Some(j), [], []) && OpenOk([])
  {
  }

  lemma BuildRoot(j: Json, v: Json, copies: seq<Json>)
    requires Building(j, Some(v), [], copies)
    ensures v == j
  {
  }

  lemma BuildNonempty(j: Json, stack: seq<Open>, copies: seq<Json>)
    requires Building(j, None, stack, copies)
    ensures stack != []
  {
  }
}
