// Printing and parsing undo each other, for every indentation.

module JsonRoundTrip {
  import opened Options
  import opened Utf8
  import opened JsonString
  import opened JsonValue
  import opened JsonParse

  // ---------------------------------------------------------------------
  // Scalars
  // ---------------------------------------------------------------------

  /** What may follow a number without becoming part of it. */
  predicate Boundary(rest: Text) { rest == [] || !(Digit(rest[0]) || rest[0] == 0x2E || rest[0] == 0x65 || rest[0] == 0x45) }

  lemma {:induction false} DigitRunIs(s: Text, n: nat)
    requires n <= |s| && (n < |s| ==> !Digit(s[n])) && forall i :: 0 <= i < n ==> Digit(s[i])
    ensures DigitRun(s) == n
  {
  }

  /** The digits of a number are read to their end and no further. */
  lemma WholeBack(u: nat, rest: Text)
    requires Boundary(rest)
    ensures var t := Digits(u) + rest; Whole(t) == |Digits(u)| && t[..|Digits(u)|] == Digits(u) && t[|Digits(u)|..] == rest
  {
    hide Digits;
    DigitsLead(u);
    var d := Digits(u);
    var t := d + rest;
    assert t[..|d|] == d && t[|d|..] == rest && t[0] == d[0];
    assert forall i :: 0 <= i < |d| ==> t[i] == d[i];
    DigitRunIs(t, |d|);
  }

  lemma NoMore(rest: Text)
    requires Boundary(rest)
    ensures Fraction(rest) == Some(0) && Exponent(rest) == Some(0)
  {
  }

  /** A number without fraction or exponent. */
  lemma NumberIs(s: Text, minus: nat, n: nat)
    requires s != [] && minus == (if s[0] == 0x2D then 1 else 0) && 0 < n == Whole(s[minus..])
    requires Fraction(s[minus..][n..]) == Some(0) && Exponent(s[minus..][n..]) == Some(0)
    requires INT_MIN <= Signed(minus == 1, s[minus..][..n]) <= INT_MAX
    ensures ParseNumber(s) == Some((Int(Signed(minus == 1, s[minus..][..n])), s[minus..][n..]))
  {
    hide Whole, Fraction, Exponent, Signed;
    var t := s[minus..];
    assert t[n + 0..] == t[n..];
  }

  lemma SignedBack(minus: bool, u: nat)
    ensures var v: int := u; Signed(minus, Digits(u)) == if minus then -v else v
  {
    hide Digits, ValueOf;
    DigitsBack(u);
  }

  lemma FirstDigit(u: nat)
    ensures Digits(u)[0] != 0x2D && |Digits(u)| > 0
  {
    hide Digits;
    assert Digit(Digits(u)[0]);
  }

  lemma IntBack(i: int, rest: Text)
    requires INT_MIN <= i <= INT_MAX && Boundary(rest)
    ensures ParseNumber(PrintInt(i) + rest) == Some((Int(i), rest))
  {
    hide Digits, Whole, Fraction, Exponent, Signed, ParseNumber, Boundary;
    var u: nat := if i < 0 then -i else i;
    var minus := if i < 0 then 1 else 0;
    var s := PrintInt(i) + rest;
    FirstDigit(u);
    assert s[minus..] == Digits(u) + rest;
    WholeBack(u, rest);
    NoMore(rest);
    SignedBack(i < 0, u);
    NumberIs(s, minus, |Digits(u)|);
  }

  /** Only a negative number has a sign, and no number but zero begins with a 0. */
  lemma IntForm(i: int)
    ensures var t := PrintInt(i); t != [] && (t[0] == '-' as int <==> i < 0)
    ensures i > 0 ==> PrintInt(i)[0] != '0' as int
    ensures PrintInt(0) == ['0' as int]
  {
    var u: nat := if i < 0 then -i else i;
    FirstDigit(u);
    DigitsLead(u);
  }

  /** A value's first byte is no white space and ends no container. */
  predicate Begins(t: Text) { t != [] && !Space(t[0]) && t[0] != 0x5D && t[0] != 0x7D && t[0] != 0x2C }

  lemma ScalarBack(j: Json, rest: Text)
    requires Writable(j) && !Container(j) && Boundary(rest)
    ensures Begins(PrintScalar(j)) && ParseScalar(PrintScalar(j) + rest) == Some((j, rest))
    ensures PrintScalar(j)[0] != 0x5B && PrintScalar(j)[0] != 0x7B
  {
    hide Digits, ParseNumber, Decode, Escaped;
    var s := PrintScalar(j) + rest;
    match j
    case Null => assert s[4..] == rest && s[..4] == [0x6E, 0x75, 0x6C, 0x6C];
    case Bool(b) =>
      if b { assert s[4..] == rest && s[..4] == [0x74, 0x72, 0x75, 0x65]; }
      else { assert s[5..] == rest && s[..5] == [0x66, 0x61, 0x6C, 0x73, 0x65]; }
    case Int(i) =>
      IntBack(i, rest);
      IntBegins(i);
      assert s[0] == PrintInt(i)[0];
    case Str(t) =>
      StringRoundTrip(t, rest);
      assert s[1..] == Escaped(t) + [QUOTE] + rest;
    case Float(_) =>
    case List(_) =>
    case Dict(_) =>
  }

  lemma IntBegins(i: int)
    ensures PrintInt(i) != [] && (PrintInt(i)[0] == 0x2D || Digit(PrintInt(i)[0]))
  {
    hide Digits;
    var d := Digits(if i < 0 then -i else i);
    assert Digit(d[0]);
  }

  // ---------------------------------------------------------------------
  // Between values
  // ---------------------------------------------------------------------

  lemma {:induction false} SkipSpaces(n: nat, t: Text)
    ensures SkipWs(Spaces(n) + t) == SkipWs(t)
  {
    if n > 0 {
      SkipSpaces(n - 1, t);
      assert (Spaces(n) + t)[1..] == Spaces(n - 1) + t;
    } else {
      assert Spaces(n) + t == t;
    }
  }

  lemma SkipIndent(indent: nat, depth: nat, t: Text)
    ensures SkipWs(Indent(indent, depth) + t) == SkipWs(t)
  {
    if indent > 0 {
      var w := Indent(indent, depth) + t;
      assert w[1..] == Spaces(depth * indent) + t;
      SkipSpaces(depth * indent, t);
    } else {
      assert Indent(indent, depth) + t == t;
    }
  }

  lemma {:induction false} SkipNothing(t: Text)
    requires t != [] && !Space(t[0])
    ensures SkipWs(t) == t
  {
  }

  // ---------------------------------------------------------------------
  // Trees as texts can write them
  // ---------------------------------------------------------------------

  /** A tree whose text the parser must take: 64-bit integers, clean strings and
      keys, no float. A dictionary may have a key more than once. */
  predicate Writable(j: Json) {
    && !j.Float?
    && (j.Int? ==> INT_MIN <= j.i <= INT_MAX)
    && (j.Str? ==> Clean(j.s))
    && (j.List? ==> forall k :: 0 <= k < |j.items| ==> Writable(j.items[k]))
    && (j.Dict? ==> forall k :: 0 <= k < |j.members| ==> Clean(j.members[k].0) && Writable(j.members[k].1))
  }

  /** The tree with repeated keys merged, at every level. */
  function Collapse(j: Json): Json
    decreases j, Arity(j) + 1
  {
    if Container(j) then CollapseTo(j, Arity(j)) else j
  }

  /** What the first k children make of a container, one after the other. */
  function CollapseTo(j: Json, k: nat): (r: Json)
    requires Container(j) && k <= Arity(j)
    ensures (r.List? <==> j.List?) && (r.Dict? <==> j.Dict?)
    decreases j, k
  {
    if k == 0 then (if j.List? then List([]) else Dict([]))
    else
      var r, c := CollapseTo(j, k - 1), Collapse(Child(j, k - 1));
      if j.List? then List(r.items + [c]) else Dict(Put(r.members, j.members[k - 1].0, c))
  }

  function FrameAt(j: Json, k: nat): Frame
    requires Container(j) && k <= Arity(j)
  {
    Frame(CollapseTo(j, k), [], k > 0)
  }

  /** The container with only its first k children. */
  function Prefix(j: Json, k: nat): Json
    requires k <= Arity(j)
  {
    match j case List(items) => List(items[..k]) case Dict(members) => Dict(members[..k]) case _ => j
  }

  lemma AdvanceClose(f: Frame, j: Json, indent: nat, depth: nat, rest: Text)
    requires Container(j) && Closing(f.node) == Closing(j)
    ensures Advance(f, PrintFrom(j, indent, depth, Arity(j)) + rest) == Closed(rest)
  {
    hide Indent, SkipWs;
    var k := Arity(j);
    var c := [Closing(j)] + rest;
    var s := PrintFrom(j, indent, depth, k) + rest;
    SkipNothing(c);
    if k > 0 {
      assert s == Indent(indent, depth) + c;
      SkipIndent(indent, depth, c);
    } else {
      assert s == c;
    }
    assert c[1..] == rest;
  }

  /** The key of a member, its colon and what white space follows. */
  lemma KeyBack(f: Frame, key: Text, indent: nat, t: Text)
    requires Clean(key) && Begins(t)
    ensures ReadKey(f, PrintString(key) + [0x3A] + (if indent > 0 then [0x20] else []) + t) == Go(f.(key := key, started := true), t)
  {
    hide Decode, Escaped, Clean;
    var gap := if indent > 0 then [0x20] else [];
    var tail := [0x3A] + gap + t;
    var s := PrintString(key) + [0x3A] + gap + t;
    assert s[1..] == Escaped(key) + [QUOTE] + tail;
    StringRoundTrip(key, tail);
    SkipNothing(tail);
    assert tail[1..] == gap + t;
    SkipNothing(t);
    if indent > 0 { assert (gap + t)[1..] == t; } else { assert gap + t == t; }
  }

  /** The frame when the k-th child's value is due. */
  function Due(f: Frame, j: Json, k: nat): Frame
    requires k < Arity(j)
  {
    f.(started := true, key := if j.Dict? then j.members[k].0 else f.key)
  }

  /** The text of the k-th child from its key on. */
  function Tagged(j: Json, indent: nat, k: nat, t: Text): Text
    requires k < Arity(j)
  {
    (if j.Dict? then PrintString(j.members[k].0) + [0x3A] + (if indent > 0 then [0x20] else []) else []) + t
  }

  lemma TaggedBegins(j: Json, indent: nat, k: nat, t: Text)
    requires Container(j) && k < Arity(j) && Begins(t)
    ensures var u := Tagged(j, indent, k, t); u != [] && !Space(u[0]) && u[0] != Closing(j) && (j.List? ==> u == t)
  {
    hide Escaped;
    if j.Dict? { assert Tagged(j, indent, k, t)[0] == QUOTE; }
    else { assert Tagged(j, indent, k, t) == t; }
  }

  lemma LeadIs(j: Json, indent: nat, depth: nat, k: nat, t: Text)
    requires k < Arity(j)
    ensures Lead(j, indent, depth, k) + t == (if k > 0 then [0x2C] else []) + (Indent(indent, depth + 1) + Tagged(j, indent, k, t))
  {
    hide Indent, Escaped;
  }

  /** White space and the comma before a child are skipped. */
  lemma SkipLead(j: Json, indent: nat, depth: nat, k: nat, t: Text)
    requires Container(j) && k < Arity(j) && Begins(t)
    ensures var w, u := SkipWs(Lead(j, indent, depth, k) + t), Tagged(j, indent, k, t);
      w != [] && w[0] != Closing(j) && (k > 0 ==> w[0] == 0x2C) && SkipWs(if k > 0 then w[1..] else w) == u
  {
    hide Indent, SkipWs, Escaped, Lead, Tagged, Begins;
    var u := Tagged(j, indent, k, t);
    var lines := Indent(indent, depth + 1) + u;
    TaggedBegins(j, indent, k, t);
    LeadIs(j, indent, depth, k, t);
    SkipNothing(u);
    SkipIndent(indent, depth + 1, u);
    if k > 0 {
      var s := [0x2C] + lines;
      SkipNothing(s);
      assert s[1..] == lines;
    } else {
      assert [] + lines == lines;
    }
  }

  lemma AdvanceChild(f: Frame, j: Json, indent: nat, depth: nat, k: nat, t: Text)
    requires Container(j) && k < Arity(j) && Begins(t) && (j.Dict? ==> Clean(j.members[k].0))
    requires (f.node.Dict? <==> j.Dict?) && (f.node.List? <==> j.List?) && (f.started <==> k > 0)
    ensures Advance(f, Lead(j, indent, depth, k) + t) == Go(Due(f, j, k), t)
  {
    hide Indent, SkipWs, Decode, Escaped, Clean, ReadKey, Lead, PrintString, Begins, Space;
    SkipLead(j, indent, depth, k, t);
    TaggedBegins(j, indent, k, t);
    if j.Dict? { KeyBack(f, j.members[k].0, indent, t); }
  }

  lemma PutNew(m: seq<(Text, Json)>, k: Text, v: Json)
    requires forall a :: 0 <= a < |m| ==> m[a].0 != k
    ensures Put(m, k, v) == m + [(k, v)]
  {
    hide Put, KeyAt;
    PutIs(m, k, v);
  }

  lemma AddChild(j: Json, k: nat)
    requires Container(j) && k < Arity(j)
    ensures Add(Due(FrameAt(j, k), j, k), Collapse(Child(j, k))) == FrameAt(j, k + 1)
  {
    hide Collapse;
  }

  // ---------------------------------------------------------------------
  // The round trip
  // ---------------------------------------------------------------------

  lemma {:induction false} PrintBegins(j: Json, indent: nat, depth: nat)
    requires Writable(j)
    ensures Begins(Print(j, indent, depth))
  {
    hide PrintScalar, PrintFrom;
    if !Container(j) { ScalarBack(j, []); }
  }

  /** What follows a child: a comma, white space or the closing bracket. */
  lemma FromIsBoundary(j: Json, indent: nat, depth: nat, k: nat, rest: Text)
    requires Container(j) && 0 < k <= Arity(j)
    ensures Boundary(PrintFrom(j, indent, depth, k) + rest)
  {
    hide Print;
    var s := PrintFrom(j, indent, depth, k);
    if k < Arity(j) { assert s[0] == 0x2C; }
    else if indent > 0 { assert s[0] == 0x0A; }
    else { assert s[0] == Closing(j); }
  }

  lemma WritableChild(j: Json, k: nat)
    requires Writable(j) && k < Arity(j)
    ensures Writable(Child(j, k)) && (j.Dict? ==> Clean(j.members[k].0))
  {
  }

  lemma FrameKind(j: Json, k: nat)
    requires Container(j) && k <= Arity(j)
    ensures var f := FrameAt(j, k); (f.node.Dict? <==> j.Dict?) && (f.node.List? <==> j.List?) && (f.started <==> k > 0)
  {
    hide CollapseTo;
  }

  lemma BeginsMore(t: Text, more: Text)
    requires Begins(t)
    ensures Begins(t + more)
  {
  }

  lemma PrintFromChild(j: Json, indent: nat, depth: nat, k: nat, rest: Text)
    requires Container(j) && k < Arity(j)
    ensures PrintFrom(j, indent, depth, k) + rest
      == Lead(j, indent, depth, k) + (Print(Child(j, k), indent, depth + 1) + (PrintFrom(j, indent, depth, k + 1) + rest))
  {
    hide Print, Lead;
  }

  /** From child k on, the parser goes to that child's value. */
  lemma AtChild(j: Json, indent: nat, depth: nat, k: nat, rest: Text)
    requires Writable(j) && Container(j) && k < Arity(j)
    ensures Advance(FrameAt(j, k), PrintFrom(j, indent, depth, k) + rest)
      == Go(Due(FrameAt(j, k), j, k), Print(Child(j, k), indent, depth + 1) + (PrintFrom(j, indent, depth, k + 1) + rest))
  {
    hide Writable, Print, PrintFrom, Advance, FrameAt, Due, Lead, Boundary, Begins;
    var more := PrintFrom(j, indent, depth, k + 1) + rest;
    WritableChild(j, k);
    PrintBegins(Child(j, k), indent, depth + 1);
    BeginsMore(Print(Child(j, k), indent, depth + 1), more);
    FrameKind(j, k);
    AdvanceChild(FrameAt(j, k), j, indent, depth, k, Print(Child(j, k), indent, depth + 1) + more);
    PrintFromChild(j, indent, depth, k, rest);
  }

  lemma {:induction false} RestGoes(f: Frame, s: Text, d: nat)
    requires Advance(f, s).Go?
    ensures var m := Advance(f, s);
      ParseRest(f, s, d) == match ParseValue(m.s, d) case None => None case Some((v, u)) => ParseRest(Add(m.f, v), u, d)
  {
    hide Advance, ParseValue, Add;
  }

  lemma {:induction false} RestCloses(f: Frame, s: Text, d: nat)
    requires Advance(f, s).Closed?
    ensures ParseRest(f, s, d) == Some((f.node, Advance(f, s).rest))
  {
    hide Advance, ParseValue, Add;
  }

  /** A container's text opens its frame. */
  lemma Opens(j: Json, indent: nat, depth: nat, rest: Text)
    requires Container(j)
    ensures ParseValue(Print(j, indent, depth) + rest, depth)
      == if depth >= MAX_DEPTH then None else ParseRest(FrameAt(j, 0), PrintFrom(j, indent, depth, 0) + rest, depth + 1)
  {
    hide ParseRest, PrintFrom, ParseScalar;
    var s := Print(j, indent, depth) + rest;
    assert s[0] == Opening(j);
    SkipNothing(s);
    assert s[1..] == PrintFrom(j, indent, depth, 0) + rest;
    assert Opened(s[0]) == FrameAt(j, 0);
  }

  lemma ScalarParses(j: Json, indent: nat, depth: nat, rest: Text)
    requires Writable(j) && !Container(j) && Boundary(rest)
    ensures ParseValue(Print(j, indent, depth) + rest, depth) == Some((j, rest))
  {
    hide PrintScalar, ParseScalar, Boundary, ParseRest;
    ScalarBack(j, rest);
    var s := PrintScalar(j) + rest;
    assert s[0] == PrintScalar(j)[0];
    SkipNothing(s);
  }

  lemma DepthIs(j: Json)
    requires Container(j)
    ensures Depth(j) == 1 + DepthFrom(j, 0)
  {
  }

  lemma CollapseIs(j: Json)
    ensures Collapse(j) == if Container(j) then FrameAt(j, Arity(j)).node else j
  {
    hide CollapseTo;
  }

  /** A printed tree parses back to itself with repeated keys merged, whatever
      follows it that could not be part of it. */
  lemma {:induction false} PrintParses(j: Json, indent: nat, depth: nat, rest: Text)
    requires Writable(j) && Boundary(rest) && Depth(j) + depth <= MAX_DEPTH
    ensures ParseValue(Print(j, indent, depth) + rest, depth) == Some((Collapse(j), rest))
    decreases j, Arity(j) + 1
  {
    hide Writable, ParseValue, ParseRest, Print, PrintFrom, Depth, Collapse, FrameAt, Boundary;
    CollapseIs(j);
    if Container(j) {
      DepthIs(j);
      Opens(j, indent, depth, rest);
      PrintParsesFrom(j, indent, depth, 0, rest);
    } else {
      ScalarParses(j, indent, depth, rest);
    }
  }

  lemma {:induction false} PrintParsesFrom(j: Json, indent: nat, depth: nat, k: nat, rest: Text)
    requires Writable(j) && Container(j) && k <= Arity(j) && Depth(j) + depth <= MAX_DEPTH
    ensures ParseRest(FrameAt(j, k), PrintFrom(j, indent, depth, k) + rest, depth + 1) == Some((Collapse(j), rest))
    decreases j, Arity(j) - k
  {
    hide Writable, ParseValue, ParseRest, Print, PrintFrom, Depth, DepthFrom, Collapse, FrameAt, Due, Boundary, Advance, Add;
    var s := PrintFrom(j, indent, depth, k) + rest;
    if k == Arity(j) {
      FrameKind(j, k);
      AdvanceClose(FrameAt(j, k), j, indent, depth, rest);
      RestCloses(FrameAt(j, k), s, depth + 1);
      CollapseIs(j);
    } else {
      WritableChild(j, k);
      DepthOfChild(j, k, 0);
      DepthIs(j);
      AtChild(j, indent, depth, k, rest);
      RestGoes(FrameAt(j, k), s, depth + 1);
      FromIsBoundary(j, indent, depth, k + 1, rest);
      PrintParses(Child(j, k), indent, depth + 1, PrintFrom(j, indent, depth, k + 1) + rest);
      AddChild(j, k);
      PrintParsesFrom(j, indent, depth, k + 1, rest);
    }
  }

  // ---------------------------------------------------------------------
  // The 501st level
  // ---------------------------------------------------------------------

  /** A printed tree that is too deep for where it stands is refused, however the
      extra level is hidden among other values. */
  lemma {:induction false} TooDeepRefused(j: Json, indent: nat, depth: nat, rest: Text)
    requires Writable(j) && Boundary(rest) && Container(j) && Depth(j) + depth > MAX_DEPTH
    ensures ParseValue(Print(j, indent, depth) + rest, depth) == None
    decreases j, Arity(j) + 1
  {
    hide Writable, ParseValue, ParseRest, Print, PrintFrom, Depth, FrameAt, Boundary;
    Opens(j, indent, depth, rest);
    if depth < MAX_DEPTH {
      DepthIs(j);
      TooDeepFrom(j, indent, depth, 0, rest);
    }
  }

  lemma {:induction false} TooDeepFrom(j: Json, indent: nat, depth: nat, k: nat, rest: Text)
    requires Writable(j) && Container(j) && k <= Arity(j) && depth < MAX_DEPTH && DepthFrom(j, k) + depth + 1 > MAX_DEPTH
    ensures ParseRest(FrameAt(j, k), PrintFrom(j, indent, depth, k) + rest, depth + 1) == None
    decreases j, Arity(j) - k
  {
    hide Writable, ParseValue, ParseRest, Print, PrintFrom, Depth, DepthFrom, Collapse, FrameAt, Due, Boundary, Advance, Add;
    DepthSplit(j, k);
    var more := PrintFrom(j, indent, depth, k + 1) + rest;
    WritableChild(j, k);
    AtChild(j, indent, depth, k, rest);
    RestGoes(FrameAt(j, k), PrintFrom(j, indent, depth, k) + rest, depth + 1);
    FromIsBoundary(j, indent, depth, k + 1, rest);
    if Depth(Child(j, k)) + depth + 1 > MAX_DEPTH {
      TooDeepRefused(Child(j, k), indent, depth + 1, more);
    } else {
      PrintParses(Child(j, k), indent, depth + 1, more);
      AddChild(j, k);
      TooDeepFrom(j, indent, depth, k + 1, rest);
    }
  }

  lemma DepthSplit(j: Json, k: nat)
    requires k <= Arity(j) && DepthFrom(j, k) > 0
    ensures k < Arity(j) && (DepthFrom(j, k) == Depth(Child(j, k)) || DepthFrom(j, k) == DepthFrom(j, k + 1))
    ensures Depth(Child(j, k)) > 0 ==> Container(Child(j, k))
  {
  }

  /** What becomes of any printed tree, keys repeated at any level or not: the
      merged tree within the limit, a refusal past it. */
  lemma DocumentCollapses(j: Json, indent: nat)
    requires Writable(j)
    ensures ParseDocument(Print(j, indent, 0)) == if Depth(j) <= MAX_DEPTH then Some(Collapse(j)) else None
  {
    hide Writable, Print, ParseValue, Depth, Collapse;
    assert Print(j, indent, 0) + [] == Print(j, indent, 0);
    if Depth(j) <= MAX_DEPTH { PrintParses(j, indent, 0, []); }
    else {
      ScalarDepth(j);
      TooDeepRefused(j, indent, 0, []);
    }
  }

  // ---------------------------------------------------------------------
  // Trees built through the library
  // ---------------------------------------------------------------------

  lemma {:induction false} TidyIsWritable(j: Json)
    requires Tidy(j) && FloatFree(j)
    ensures Writable(j)
    decreases j
  {
    hide Clean;
    forall k | 0 <= k < Arity(j) ensures Writable(Child(j, k)) { TidyIsWritable(Child(j, k)); }
    if j.List? { assert forall k :: 0 <= k < |j.items| ==> Child(j, k) == j.items[k]; }
    if j.Dict? { assert forall k :: 0 <= k < |j.members| ==> Child(j, k) == j.members[k].1; }
  }

  /** A tree without a repeated key is left alone. */
  lemma {:induction false} TidyStays(j: Json)
    requires Tidy(j)
    ensures Collapse(j) == j
    decreases j, Arity(j) + 1
  {
    hide Tidy, CollapseTo;
    if j.List? {
      ItemsStay(j, |j.items|);
      assert j.items[..|j.items|] == j.items;
    } else if j.Dict? {
      MembersStay(j, |j.members|);
      assert j.members[..|j.members|] == j.members;
    }
  }

  lemma {:induction false} ItemsStay(j: Json, k: nat)
    requires Tidy(j) && j.List? && k <= |j.items|
    ensures CollapseTo(j, k) == List(j.items[..k])
    decreases j, k
  {
    hide Collapse;
    if k > 0 {
      ItemsStay(j, k - 1);
      assert Tidy(j.items[k - 1]);
      TidyStays(Child(j, k - 1));
      assert j.items[..k] == j.items[..k - 1] + [j.items[k - 1]];
    }
  }

  lemma {:induction false} MembersStay(j: Json, k: nat)
    requires Tidy(j) && j.Dict? && k <= |j.members|
    ensures CollapseTo(j, k) == Dict(j.members[..k])
    decreases j, k
  {
    hide Collapse, Put;
    if k > 0 {
      MembersStay(j, k - 1);
      assert Tidy(j.members[k - 1].1);
      TidyStays(Child(j, k - 1));
      PutNew(j.members[..k - 1], j.members[k - 1].0, j.members[k - 1].1);
      assert j.members[..k] == j.members[..k - 1] + [j.members[k - 1]];
    }
  }

  /** parse(serialize(t)) == t for every float-free tree within the limit, compact
      or with any indentation, dictionary order included. */
  lemma RoundTrip(j: Json, indent: nat)
    requires Tidy(j) && FloatFree(j) && Depth(j) <= MAX_DEPTH
    ensures ParseDocument(Print(j, indent, 0)) == Some(j)
  {
    SameLimit(j, indent);
  }

  /** The limit is the same on both sides: a text the printer would write for a
      tree is accepted exactly when the tree is within it. */
  lemma SameLimit(j: Json, indent: nat)
    requires Tidy(j) && FloatFree(j)
    ensures ParseDocument(Print(j, indent, 0)) == if Depth(j) <= MAX_DEPTH then Some(j) else None
  {
    hide Writable, Print, ParseDocument, Depth, Collapse;
    TidyIsWritable(j);
    TidyStays(j);
    DocumentCollapses(j, indent);
  }

  /** What was parsed once prints and parses to the same tree again. */
  lemma ParsePrintParse(s: Text, indent: nat)
    requires ParseDocument(s).Some? && FloatFree(ParseDocument(s).value)
    ensures ParseDocument(Print(ParseDocument(s).value, indent, 0)) == ParseDocument(s)
  {
    hide ParseValue, Tidy, FloatFree, Depth, Print;
    ParsedIsTidy(s, 0);
    RoundTrip(ParseDocument(s).value, indent);
  }

  lemma ScalarDepth(j: Json)
    ensures !Container(j) ==> Depth(j) == 0
  {
  }

  // ---------------------------------------------------------------------
  // Repeated keys
  // ---------------------------------------------------------------------

  /** What a run of members makes of a dictionary, one after the other. */
  function Collapsed(m: seq<(Text, Json)>, k: nat): seq<(Text, Json)>
    requires k <= |m|
  {
    if k == 0 then [] else Put(Collapsed(m, k - 1), m[k - 1].0, m[k - 1].1)
  }

  lemma PutAt(m: seq<(Text, Json)>, a: nat, v: Json)
    requires a < |m| && forall b :: 0 <= b < a ==> m[b].0 != m[a].0
    ensures Put(m, m[a].0, v) == m[a := (m[a].0, v)]
  {
    hide Put, KeyAt;
    PutIs(m, m[a].0, v);
  }

  /** Where key first comes among the first k members, k if it does not. */
  function FirstOf(m: seq<(Text, Json)>, k: nat, key: Text): (i: nat)
    requires k <= |m|
    ensures i <= k
  {
    if k == 0 then 0
    else var i := FirstOf(m, k - 1, key); if i < k - 1 || m[k - 1].0 == key then i else k
  }

  /** Where key comes last among the first k members that have it. */
  function LastOf(m: seq<(Text, Json)>, k: nat, key: Text): (i: nat)
    requires k <= |m|
    ensures k > 0 ==> i < k
  {
    if k == 0 then 0 else if m[k - 1].0 == key then k - 1 else LastOf(m, k - 1, key)
  }

  /** e is among the first k members, and its value is its key's last. */
  predicate Latest(m: seq<(Text, Json)>, k: nat, e: (Text, Json))
    requires k <= |m|
  {
    FirstOf(m, k, e.0) < k && e == m[LastOf(m, k, e.0)]
  }

  ghost predicate AllLatest(m: seq<(Text, Json)>, k: nat, c: seq<(Text, Json)>)
    requires k <= |m|
  {
    forall a :: 0 <= a < |c| ==> Latest(m, k, c[a])
  }

  ghost predicate InFirstOrder(m: seq<(Text, Json)>, k: nat, c: seq<(Text, Json)>)
    requires k <= |m|
  {
    forall a, b :: 0 <= a < b < |c| ==> FirstOf(m, k, c[a].0) < FirstOf(m, k, c[b].0)
  }

  ghost predicate HasKey(c: seq<(Text, Json)>, key: Text) { exists a :: 0 <= a < |c| && c[a].0 == key }

  ghost predicate AllKeys(m: seq<(Text, Json)>, k: nat, c: seq<(Text, Json)>)
    requires k <= |m|
  {
    forall i :: 0 <= i < k ==> HasKey(c, m[i].0)
  }

  lemma FirstGrows(m: seq<(Text, Json)>, k: nat, key: Text)
    requires 0 < k <= |m|
    ensures FirstOf(m, k - 1, key) < k - 1 ==> FirstOf(m, k, key) == FirstOf(m, k - 1, key)
    ensures m[k - 1].0 == key ==> FirstOf(m, k, key) == FirstOf(m, k - 1, key) && LastOf(m, k, key) == k - 1
    ensures m[k - 1].0 != key ==> LastOf(m, k, key) == LastOf(m, k - 1, key)
  {
  }

  /** A key that is nowhere in c is nowhere before. */
  lemma {:induction false} FirstOfNew(m: seq<(Text, Json)>, k: nat, key: Text)
    requires k <= |m| && forall i :: 0 <= i < k ==> m[i].0 != key
    ensures FirstOf(m, k, key) == k
  {
    if k > 0 { FirstOfNew(m, k - 1, key); }
  }

  lemma StillLatest(m: seq<(Text, Json)>, k: nat, e: (Text, Json))
    requires 0 < k <= |m| && Latest(m, k - 1, e) && e.0 != m[k - 1].0
    ensures Latest(m, k, e) && FirstOf(m, k, e.0) == FirstOf(m, k - 1, e.0)
  {
    FirstGrows(m, k, e.0);
  }

  lemma ReplacedLatest(m: seq<(Text, Json)>, k: nat, c: seq<(Text, Json)>, a: nat)
    requires 0 < k <= |m| && a < |c| && c[a].0 == m[k - 1].0 && AllLatest(m, k - 1, c) && InFirstOrder(m, k - 1, c)
    ensures var p := c[a := m[k - 1]]; AllLatest(m, k, p) && InFirstOrder(m, k, p)
  {
    hide FirstOf, LastOf;
    var p := c[a := m[k - 1]];
    FirstGrows(m, k, m[k - 1].0);
    assert Latest(m, k - 1, c[a]);
    forall b | 0 <= b < |p| ensures Latest(m, k, p[b]) && FirstOf(m, k, p[b].0) == FirstOf(m, k - 1, c[b].0) {
      if b != a { StillLatest(m, k, c[b]); }
    }
  }

  lemma AppendedLatest(m: seq<(Text, Json)>, k: nat, c: seq<(Text, Json)>)
    requires 0 < k <= |m| && AllLatest(m, k - 1, c) && InFirstOrder(m, k - 1, c) && AllKeys(m, k - 1, c) && !HasKey(c, m[k - 1].0)
    ensures var p := c + [m[k - 1]]; AllLatest(m, k, p) && InFirstOrder(m, k, p)
  {
    hide FirstOf, LastOf;
    var p, key := c + [m[k - 1]], m[k - 1].0;
    FirstOfNew(m, k - 1, key);
    FirstGrows(m, k, key);
    forall b | 0 <= b < |c| ensures p[b] == c[b] && Latest(m, k, c[b]) && FirstOf(m, k, c[b].0) == FirstOf(m, k - 1, c[b].0) < k - 1 {
      assert Latest(m, k - 1, c[b]);
      StillLatest(m, k, c[b]);
    }
  }

  lemma KeysGrow(m: seq<(Text, Json)>, k: nat, c: seq<(Text, Json)>, p: seq<(Text, Json)>)
    requires 0 < k <= |m| && AllKeys(m, k - 1, c) && HasKey(p, m[k - 1].0)
    requires |c| <= |p| && forall a :: 0 <= a < |c| ==> p[a].0 == c[a].0
    ensures AllKeys(m, k, p)
  {
    forall i | 0 <= i < k - 1 ensures HasKey(p, m[i].0) {
      assert HasKey(c, m[i].0);
      var a :| 0 <= a < |c| && c[a].0 == m[i].0;
      assert p[a].0 == m[i].0;
    }
  }

  /** A repeated key keeps the place it first had and takes the value it last had;
      no key is lost. */
  lemma {:induction false} RepeatedKeys(m: seq<(Text, Json)>, k: nat)
    requires k <= |m|
    ensures var c := Collapsed(m, k); AllLatest(m, k, c) && InFirstOrder(m, k, c) && AllKeys(m, k, c)
  {
    hide AllLatest, InFirstOrder, AllKeys, Put;
    if k == 0 {
      NoMembers(m);
    } else {
      RepeatedKeys(m, k - 1);
      var c, key, v := Collapsed(m, k - 1), m[k - 1].0, m[k - 1].1;
      if HasKey(c, key) {
        var a: nat :| a < |c| && c[a].0 == key;
        OrderUnique(m, k - 1, c);
        PutAt(c, a, v);
        ReplacedLatest(m, k, c, a);
        var p := c[a := m[k - 1]];
        assert p[a].0 == key;
        KeysGrow(m, k, c, p);
      } else {
        PutNew(c, key, v);
        AppendedLatest(m, k, c);
        var p := c + [m[k - 1]];
        assert p[|c|].0 == key;
        KeysGrow(m, k, c, p);
      }
    }
  }

  lemma NoMembers(m: seq<(Text, Json)>)
    ensures AllLatest(m, 0, []) && InFirstOrder(m, 0, []) && AllKeys(m, 0, [])
  {
  }

  lemma OrderUnique(m: seq<(Text, Json)>, k: nat, c: seq<(Text, Json)>)
    requires k <= |m| && InFirstOrder(m, k, c)
    ensures UniqueKeys(c)
  {
  }

  /** A dictionary's members with each value merged. */
  function Deep(m: seq<(Text, Json)>): seq<(Text, Json)> { seq(|m|, i requires 0 <= i < |m| => (m[i].0, Collapse(m[i].1))) }

  /** At every level the merged dictionary is the one RepeatedKeys describes. */
  lemma {:induction false} CollapseIsCollapsed(m: seq<(Text, Json)>, k: nat)
    requires k <= |m|
    ensures CollapseTo(Dict(m), k) == Dict(Collapsed(Deep(m), k))
    decreases k
  {
    hide Collapse, Put;
    if k > 0 { CollapseIsCollapsed(m, k - 1); }
  }

  lemma MergedDict(m: seq<(Text, Json)>)
    ensures Collapse(Dict(m)) == Dict(Collapsed(Deep(m), |m|))
    ensures var c := Collapsed(Deep(m), |m|); AllLatest(Deep(m), |m|, c) && InFirstOrder(Deep(m), |m|, c) && AllKeys(Deep(m), |m|, c)
  {
    CollapseIsCollapsed(m, |m|);
    RepeatedKeys(Deep(m), |m|);
  }
}
