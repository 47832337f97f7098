// The JSON grammar as a recursive descent, and what every accepted text gives.

module JsonParse {
  import opened Options
  import opened Utf8
  import opened JsonString
  import opened JsonValue

  type Parsed = Option<(Json, Text)>

  // ---------------------------------------------------------------------
  // White space and scalars
  // ---------------------------------------------------------------------

  predicate Space(c: Byte) { c == 0x20 || c == 0x09 || c == 0x0A || c == 0x0D }

  function SkipWs(s: Text): (t: Text)
    ensures |t| <= |s| && (t != [] ==> !Space(t[0]))
  {
    if s != [] && Space(s[0]) then SkipWs(s[1..]) else s
  }

  function StartsWith(s: Text, w: Text): bool { |w| <= |s| && s[..|w|] == w }

  function Literal(s: Text, w: Text, j: Json): Parsed { if StartsWith(s, w) then Some((j, s[|w|..])) else None }

  /** The length of the run of digits at the front. */
  function DigitRun(s: Text): (n: nat)
    ensures n <= |s| && (n < |s| ==> !Digit(s[n])) && forall i :: 0 <= i < n ==> Digit(s[i])
  {
    if s == [] || !Digit(s[0]) then 0 else 1 + DigitRun(s[1..])
  }

  /** The digits before any fraction: a lone zero, or a run without one in front. */
  function Whole(s: Text): (n: nat)
    ensures n <= |s| && forall i :: 0 <= i < n ==> Digit(s[i])
  {
    if s == [] || !Digit(s[0]) then 0
    else if s[0] == 0x30 then (if |s| > 1 && Digit(s[1]) then 0 else 1)
    else DigitRun(s)
  }

  /** What a fraction or an exponent at the front takes; nothing when it is not
      there, no value when it is malformed. */
  function Fraction(s: Text): (r: Option<nat>)
    ensures r.Some? ==> r.value <= |s|
  {
    if s == [] || s[0] != 0x2E then Some(0)
    else var n := DigitRun(s[1..]); if n == 0 then None else Some(n + 1)
  }

  function Exponent(s: Text): (r: Option<nat>)
    ensures r.Some? ==> r.value <= |s|
  {
    if s == [] || (s[0] != 0x65 && s[0] != 0x45) then Some(0)
    else
      var k := if |s| > 1 && (s[1] == 0x2B || s[1] == 0x2D) then 2 else 1;
      var n := DigitRun(s[k..]);
      if n == 0 then None else Some(n + k)
  }

  function Signed(minus: bool, digits: Text): int
    requires forall i :: 0 <= i < |digits| ==> Digit(digits[i])
  {
    var u: int := ValueOf(digits);
    if minus then 0 - u else u
  }

  function ParseNumber(s: Text): (r: Parsed)
    requires s != []
    ensures r.Some? ==> |r.value.1| < |s|
  {
    var minus := if s[0] == 0x2D then 1 else 0;
    var t := s[minus..];
    var n := Whole(t);
    if n == 0 then None
    else
      match Fraction(t[n..])
      case None => None
      case Some(f) =>
        match Exponent(t[n + f..])
        case None => None
        case Some(e) =>
          var value := Signed(minus == 1, t[..n]);
          var j := if f == 0 && e == 0 && INT_MIN <= value <= INT_MAX then Int(value) else Float(s[..minus + n + f + e]);
          Some((j, t[n + f + e..]))
  }

  function ParseScalar(s: Text): (r: Parsed)
    requires s != []
    ensures r.Some? ==> |r.value.1| < |s|
  {
    var c := s[0];
    if c == 0x6E then Literal(s, [0x6E, 0x75, 0x6C, 0x6C], Null)
    else if c == 0x74 then Literal(s, [0x74, 0x72, 0x75, 0x65], Bool(true))
    else if c == 0x66 then Literal(s, [0x66, 0x61, 0x6C, 0x73, 0x65], Bool(false))
    else if c == QUOTE then match Decode(s[1..]) case None => None case Some((t, rest)) => Some((Str(t), rest))
    else if c == 0x2D || Digit(c) then ParseNumber(s)
    else None
  }

  // ---------------------------------------------------------------------
  // Containers
  // ---------------------------------------------------------------------

  /** An open container: what it holds so far, the key whose value comes next,
      and whether it has taken anything yet. */
  datatype Frame = Frame(node: Json, key: Text, started: bool)

  function Opened(c: Byte): Frame { Frame(if c == 0x7B then Dict([]) else List([]), [], false) }

  /** A key that is there keeps its place and takes the new value; a new key goes
      last. */
  function Put(m: seq<(Text, Json)>, k: Text, v: Json): seq<(Text, Json)> {
    if m == [] then [(k, v)] else if m[0].0 == k then [(k, v)] + m[1..] else [m[0]] + Put(m[1..], k, v)
  }

  /** A complete value goes into the innermost open container. */
  function Add(f: Frame, v: Json): Frame {
    match f.node
    case List(items) => f.(node := List(items + [v]), key := [])
    case Dict(members) => f.(node := Dict(Put(members, f.key, v)), key := [])
    case _ => f
  }

  /** What comes next inside a container: its end, or one more value. */
  datatype Move = Stop | Closed(rest: Text) | Go(f: Frame, s: Text)

  function ReadKey(f: Frame, s: Text): Move {
    if s == [] || s[0] != QUOTE then Stop
    else
      match Decode(s[1..])
      case None => Stop
      case Some((key, t)) =>
        var u := SkipWs(t);
        if u == [] || u[0] != 0x3A then Stop else Go(f.(key := key, started := true), SkipWs(u[1..]))
  }

  function Advance(f: Frame, s: Text): (m: Move)
    ensures m.Closed? ==> |m.rest| < |s|
    ensures m.Go? ==> |m.s| <= |s| && Container(m.f.node) == Container(f.node)
  {
    var t := SkipWs(s);
    if t == [] then Stop
    else if t[0] == Closing(f.node) then Closed(t[1..])
    else if f.started && t[0] != 0x2C then Stop
    else
      var u := SkipWs(if f.started then t[1..] else t);
      if f.node.Dict? then ReadKey(f, u) else Go(f.(started := true), u)
  }

  /** A value inside d open containers. */
  function ParseValue(s: Text, d: nat): (r: Parsed)
    ensures r.Some? ==> |r.value.1| < |s|
    decreases |s|, 0
  {
    var t := SkipWs(s);
    if t == [] then None
    else if t[0] == 0x5B || t[0] == 0x7B then
      if d >= MAX_DEPTH then None else ParseRest(Opened(t[0]), t[1..], d + 1)
    else ParseScalar(t)
  }

  /** The rest of a container that is open as the d-th. */
  function ParseRest(f: Frame, s: Text, d: nat): (r: Parsed)
    ensures r.Some? ==> |r.value.1| < |s|
    decreases |s|, 1
  {
    match Advance(f, s)
    case Stop => None
    case Closed(rest) => Some((f.node, rest))
    case Go(g, t) =>
      match ParseValue(t, d)
      case None => None
      case Some((v, u)) => ParseRest(Add(g, v), u, d)
  }

  /** A whole document: one value and nothing after it. */
  function ParseDocument(s: Text): Option<Json> {
    match ParseValue(s, 0)
    case None => None
    case Some((v, rest)) => if SkipWs(rest) == [] then Some(v) else None
  }

  // ---------------------------------------------------------------------
  // What an accepted text gives
  // ---------------------------------------------------------------------

  /** Where a key first is, the number of members if it is nowhere. */
  function KeyAt(m: seq<(Text, Json)>, k: Text): (i: nat)
    ensures i <= |m| && (i < |m| ==> m[i].0 == k) && forall j :: 0 <= j < i ==> m[j].0 != k
  {
    if m == [] || m[0].0 == k then 0 else 1 + KeyAt(m[1..], k)
  }

  lemma {:induction false} PutIs(m: seq<(Text, Json)>, k: Text, v: Json)
    ensures var i := KeyAt(m, k); Put(m, k, v) == if i < |m| then m[i := (k, v)] else m + [(k, v)]
  {
    hide KeyAt;
    KeyAtIs(m, k);
    if m == [] {
    } else if m[0].0 == k {
      assert [(k, v)] + m[1..] == m[0 := (k, v)];
    } else {
      hide Put;
      PutStep(m, k, v);
      PutIs(m[1..], k, v);
      Behind(m, KeyAt(m[1..], k), (k, v));
    }
  }

  lemma {:induction false} KeyAtIs(m: seq<(Text, Json)>, k: Text)
    ensures KeyAt(m, k) == if m == [] || m[0].0 == k then 0 else 1 + KeyAt(m[1..], k)
  {
  }

  lemma {:induction false} PutStep(m: seq<(Text, Json)>, k: Text, v: Json)
    requires m != [] && m[0].0 != k
    ensures Put(m, k, v) == [m[0]] + Put(m[1..], k, v)
  {
  }

  lemma Behind(m: seq<(Text, Json)>, i: nat, e: (Text, Json))
    requires m != [] && i < |m|
    ensures i < |m| - 1 ==> [m[0]] + m[1..][i := e] == m[i + 1 := e]
    ensures [m[0]] + (m[1..] + [e]) == m + [e]
  {
  }

  lemma PutKeeps(m: seq<(Text, Json)>, k: Text, v: Json)
    requires UniqueKeys(m)
    ensures UniqueKeys(Put(m, k, v))
    ensures forall a :: 0 <= a < |m| ==> a < |Put(m, k, v)| && Put(m, k, v)[a].0 == m[a].0
    ensures forall a :: 0 <= a < |Put(m, k, v)| ==> Put(m, k, v)[a] == (k, v) || (a < |m| && Put(m, k, v)[a] == m[a])
    ensures |Put(m, k, v)| == |m| || (|Put(m, k, v)| == |m| + 1 && forall a :: 0 <= a < |m| ==> m[a].0 != k)
  {
    hide Put, KeyAt;
    PutIs(m, k, v);
  }

  /** Every child is tidy and leaves the levels of the limit that d containers
      leave. */
  ghost predicate Children(j: Json, d: nat) {
    Container(j) && forall k :: 0 <= k < Arity(j) ==> Tidy(Child(j, k)) && Depth(Child(j, k)) + d <= MAX_DEPTH
  }

  ghost predicate FrameOk(f: Frame, d: nat) { Tidy(f.node) && Children(f.node, d) && Clean(f.key) }

  lemma {:induction false} DepthBelow(j: Json, k: nat, b: nat)
    requires k <= Arity(j) && forall i :: k <= i < Arity(j) ==> Depth(Child(j, i)) <= b
    ensures DepthFrom(j, k) <= b
    decreases Arity(j) - k
  {
    if k < Arity(j) { DepthBelow(j, k + 1, b); }
  }

  lemma ChildrenDepth(j: Json, d: nat)
    requires Children(j, d) && 0 < d <= MAX_DEPTH
    ensures Depth(j) + d - 1 <= MAX_DEPTH
  {
    DepthBelow(j, 0, MAX_DEPTH - d);
  }

  lemma ScalarTidy(s: Text)
    requires s != [] && ParseScalar(s).Some?
    ensures Tidy(ParseScalar(s).value.0) && Depth(ParseScalar(s).value.0) == 0
  {
    hide Clean, Fraction, Exponent, Whole, ValueOf;
    if s[0] == QUOTE { DecodeClean(s[1..]); }
  }

  lemma AddList(f: Frame, v: Json, d: nat)
    requires FrameOk(f, d) && f.node.List? && Tidy(v) && Depth(v) + d <= MAX_DEPTH
    ensures FrameOk(Add(f, v), d)
  {
    hide Depth;
    var j := Add(f, v).node;
    forall k | 0 <= k < Arity(j) ensures Tidy(Child(j, k)) && Depth(Child(j, k)) + d <= MAX_DEPTH {
      if k < Arity(f.node) { assert Child(j, k) == Child(f.node, k); }
    }
    CleanNone();
  }

  lemma CleanNone()
    ensures Clean([])
  {
  }

  lemma AddDict(f: Frame, v: Json, d: nat)
    requires FrameOk(f, d) && f.node.Dict? && Tidy(v) && Depth(v) + d <= MAX_DEPTH
    ensures FrameOk(Add(f, v), d)
  {
    hide Depth, Put, Clean;
    CleanNone();
    var m := f.node.members;
    PutKeeps(m, f.key, v);
    var p := Put(m, f.key, v);
    var j := Add(f, v).node;
    forall k | 0 <= k < |p| ensures Clean(p[k].0) && Tidy(p[k].1) && Depth(p[k].1) + d <= MAX_DEPTH {
      if p[k] != (f.key, v) { assert p[k] == m[k] && p[k].1 == Child(f.node, k); }
    }
    forall k | 0 <= k < Arity(j) ensures Tidy(Child(j, k)) && Depth(Child(j, k)) + d <= MAX_DEPTH { assert Child(j, k) == p[k].1; }
  }

  lemma AdvanceOk(f: Frame, s: Text, d: nat)
    requires FrameOk(f, d)
    ensures Advance(f, s).Go? ==> FrameOk(Advance(f, s).f, d)
  {
    hide Clean, Decode, SkipWs, Tidy, Children;
    var t := SkipWs(s);
    if Advance(f, s).Go? && f.node.Dict? {
      var u := SkipWs(if f.started then t[1..] else t);
      DecodeClean(u[1..]);
    }
  }

  lemma OpenedOk(c: Byte, d: nat)
    requires c == 0x5B || c == 0x7B
    ensures FrameOk(Opened(c), d)
  {
  }

  /** Whatever the parser accepts is a tidy tree within the depth limit: no text
      makes it build a 501st level, a string that is not UTF-8 or a key twice. */
  lemma {:induction false} ParsedIsTidy(s: Text, d: nat)
    requires ParseValue(s, d).Some?
    ensures Tidy(ParseValue(s, d).value.0) && (Container(ParseValue(s, d).value.0) || d <= MAX_DEPTH ==> Depth(ParseValue(s, d).value.0) + d <= MAX_DEPTH)
    decreases |s|, 0
  {
    hide Tidy, Depth, ParseScalar;
    var t := SkipWs(s);
    if t[0] == 0x5B || t[0] == 0x7B {
      OpenedOk(t[0], d + 1);
      RestIsTidy(Opened(t[0]), t[1..], d + 1);
    } else {
      ScalarTidy(t);
      ScalarFlat(t);
    }
  }

  lemma ScalarFlat(s: Text)
    requires s != [] && ParseScalar(s).Some?
    ensures !Container(ParseScalar(s).value.0)
  {
    hide Fraction, Exponent, Whole, ValueOf, Decode;
  }

  lemma {:induction false} RestIsTidy(f: Frame, s: Text, d: nat)
    requires ParseRest(f, s, d).Some? && FrameOk(f, d) && 0 < d <= MAX_DEPTH
    ensures var v := ParseRest(f, s, d).value.0; Container(v) && Tidy(v) && Depth(v) + d - 1 <= MAX_DEPTH
    decreases |s|, 1
  {
    hide Tidy, Depth, Advance, Children, Add;
    match Advance(f, s) {
      case Stop =>
      case Closed(_) => ClosedOk(f, d);
      case Go(g, t) =>
        AdvanceOk(f, s, d);
        ParsedIsTidy(t, d);
        var (v, u) := ParseValue(t, d).value;
        ChildrenKind(g, d);
        if g.node.List? { AddList(g, v, d); } else { AddDict(g, v, d); }
        RestIsTidy(Add(g, v), u, d);
    }
  }

  lemma ClosedOk(f: Frame, d: nat)
    requires FrameOk(f, d) && 0 < d <= MAX_DEPTH
    ensures Container(f.node) && Depth(f.node) + d - 1 <= MAX_DEPTH
  {
    ChildrenDepth(f.node, d);
  }

  lemma ChildrenKind(f: Frame, d: nat)
    requires FrameOk(f, d)
    ensures f.node.List? || f.node.Dict?
  {
  }
}
