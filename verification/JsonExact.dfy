// Whole documents against the grammar: the parser accepts exactly the texts the
// grammar writes within the depth limit, and gives exactly what they mean.

module JsonExact {
  import opened Options
  import opened Utf8
  import opened JsonString
  import opened JsonValue
  import opened JsonParse
  import opened JsonRoundTrip
  import opened JsonGrammar

  /** A value as written. */
  datatype Syn = Word(j: Json) | Num(n: Number) | Quoted(l: Lit) | Box(dict: bool, items: Items)

  /** The inside of a container: its members, each with the white space before its
      comma and after it, and the white space before the closing bracket. */
  datatype Items = End(last: Text) | More(comma: Text, before: Text, key: Option<KeyPart>, value: Syn, tail: Items)

  /** A key with the white space around its colon. */
  datatype KeyPart = KeyPart(l: Lit, gap1: Text, gap2: Text)

  predicate WsOk(t: Text) { forall i :: 0 <= i < |t| ==> OneOf(t[i], " \t\n\r") }

  predicate KeyOk(k: Option<KeyPart>) { k.Some? ==> LitOk(k.value.l) && WsOk(k.value.gap1) && WsOk(k.value.gap2) }

  predicate SynOk(x: Syn)
    decreases x
  {
    match x
    case Word(j) => j.Null? || j.Bool?
    case Num(n) => NumberOk(n)
    case Quoted(l) => LitOk(l)
    case Box(dict, items) => ItemsOk(dict, false, items)
  }

  predicate ItemsOk(dict: bool, started: bool, it: Items)
    decreases it
  {
    match it
    case End(last) => WsOk(last)
    case More(comma, before, key, value, tail) =>
      && WsOk(comma) && (started || comma == []) && WsOk(before) && (key.Some? <==> dict) && KeyOk(key)
      && SynOk(value) && ItemsOk(dict, true, tail)
  }

  function WordText(j: Json): Text {
    if j.Bool? then (if j.b then Ascii("true") else Ascii("false")) else Ascii("null")
  }

  function QuotedText(l: Lit): Text { Ascii("\"") + (LitText(l) + Ascii("\"")) }

  function KeyText(k: Option<KeyPart>): Text {
    match k
    case None => []
    case Some(p) => QuotedText(p.l) + (p.gap1 + (Ascii(":") + p.gap2))
  }

  function SynText(x: Syn): Text
    decreases x
  {
    match x
    case Word(j) => WordText(j)
    case Num(n) => NumberText(n)
    case Quoted(l) => QuotedText(l)
    case Box(dict, items) => Ascii(if dict then "{" else "[") + ItemsText(dict, false, items)
  }

  function ItemsText(dict: bool, started: bool, it: Items): Text
    decreases it
  {
    match it
    case End(last) => last + Ascii(if dict then "}" else "]")
    case More(comma, before, key, value, tail) =>
      (if started then comma + Ascii(",") else []) + (before + (KeyText(key) + (SynText(value) + ItemsText(dict, true, tail))))
  }

  function SynMeans(x: Syn): Json
    requires SynOk(x)
    decreases x
  {
    match x
    case Word(j) => j
    case Num(n) => NumberMeans(n)
    case Quoted(l) => Str(LitMeans(l))
    case Box(dict, items) => ItemsMean(if dict then Dict([]) else List([]), dict, false, items)
  }

  /** The container with one more child; a key that is there keeps its place. */
  function WithChild(node: Json, key: Option<KeyPart>, v: Json): Json
    requires KeyOk(key) && (node.List? || (node.Dict? && key.Some?))
  {
    match node
    case List(items) => List(items + [v])
    case Dict(members) => Dict(Put(members, LitMeans(key.value.l), v))
  }

  function ItemsMean(node: Json, dict: bool, started: bool, it: Items): Json
    requires ItemsOk(dict, started, it) && (if dict then node.Dict? else node.List?)
    decreases it
  {
    match it
    case End(_) => node
    case More(_, _, key, value, tail) => ItemsMean(WithChild(node, key, SynMeans(value)), dict, true, tail)
  }

  /** The levels of containers in the text, those of replaced members included. */
  function SynDepth(x: Syn): nat { if x.Box? then 1 + ItemsDepth(x.items) else 0 }

  function ItemsDepth(it: Items): nat {
    match it
    case End(_) => 0
    case More(_, _, _, value, tail) => if SynDepth(value) < ItemsDepth(tail) then ItemsDepth(tail) else SynDepth(value)
  }

  // ---------------------------------------------------------------------
  // Bytes
  // ---------------------------------------------------------------------

  lemma SpaceIs(c: Byte)
    ensures OneOf(c, " \t\n\r") <==> Space(c)
  {
    var t := Ascii(" \t\n\r");
    assert t == [0x20, 0x09, 0x0A, 0x0D];
  }

  lemma Marks()
    ensures Ascii("{") == [0x7B] && Ascii("[") == [0x5B] && Ascii("}") == [0x7D] && Ascii("]") == [0x5D]
    ensures Ascii(",") == [0x2C] && Ascii(":") == [0x3A] && Ascii("\"") == [QUOTE]
  {
  }

  lemma Words()
    ensures Ascii("null") == [0x6E, 0x75, 0x6C, 0x6C] && Ascii("true") == [0x74, 0x72, 0x75, 0x65]
    ensures Ascii("false") == [0x66, 0x61, 0x6C, 0x73, 0x65]
  {
  }

  lemma {:induction false} SkipAll(w: Text, t: Text)
    requires WsOk(w)
    ensures SkipWs(w + t) == SkipWs(t)
    decreases |w|
  {
    if w == [] {
      assert w + t == t;
    } else {
      SpaceIs(w[0]);
      assert (w + t)[1..] == w[1..] + t;
      SkipAll(w[1..], t);
    }
  }

  lemma SkipTo(w: Text, t: Text)
    requires WsOk(w) && t != [] && !Space(t[0])
    ensures SkipWs(w + t) == t
  {
    SkipAll(w, t);
    SkipNothing(t);
  }

  /** What skipping skips is white space. */
  lemma {:induction false} Skipped(s: Text) returns (w: Text)
    ensures WsOk(w) && s == w + SkipWs(s)
    decreases |s|
  {
    if s != [] && Space(s[0]) {
      SpaceIs(s[0]);
      var v := Skipped(s[1..]);
      w := [s[0]] + v;
      assert s == [s[0]] + s[1..];
    } else {
      w := [];
      assert s == w + s;
    }
  }

  // ---------------------------------------------------------------------
  // Every text of the grammar is accepted
  // ---------------------------------------------------------------------

  lemma SynBegins(x: Syn, rest: Text)
    requires SynOk(x)
    ensures Begins(SynText(x)) && Begins(SynText(x) + rest)
  {
    hide ItemsText, LitText, LitOk, ItemsOk;
    Marks();
    match x
    case Word(j) => Words();
    case Num(n) => NumberBegins(n);
    case Quoted(l) => hide Ascii;
    case Box(dict, items) => hide Ascii;
  }

  lemma NumberBegins(n: Number)
    requires NumberOk(n)
    ensures NumberText(n) != [] && (NumberText(n)[0] == 0x2D || Digit(NumberText(n)[0])) && Begins(NumberText(n))
  {
    hide FracOk, ExpOk;
    DigitsIs(n.whole);
  }

  lemma WordParses(j: Json, rest: Text)
    requires j.Null? || j.Bool?
    ensures ParseScalar(WordText(j) + rest) == Some((j, rest)) && Begins(WordText(j) + rest)
    ensures (WordText(j) + rest)[0] != 0x5B && (WordText(j) + rest)[0] != 0x7B
  {
    hide ParseNumber, Decode;
    Words();
    var s := WordText(j) + rest;
    var n := |WordText(j)|;
    assert s[..n] == WordText(j) && s[n..] == rest;
  }

  lemma NumParses(n: Number, rest: Text)
    requires NumberOk(n) && Boundary(rest)
    ensures ParseScalar(NumberText(n) + rest) == Some((NumberMeans(n), rest))
  {
    hide ParseNumber, Decode, NumberMeans, NumberText, NumberOk, NumberStops;
    NumberBegins(n);
    BoundaryStops(n, rest);
    NumberParses(n, rest);
    var s := NumberText(n) + rest;
    assert s[0] == NumberText(n)[0];
  }

  lemma BoundaryStops(n: Number, rest: Text)
    requires Boundary(rest)
    ensures NumberStops(n, rest)
  {
    if rest != [] { DigitIs(rest[0]); ExpLetterIs(rest[0]); }
  }

  lemma QuotedParses(l: Lit, rest: Text)
    requires LitOk(l)
    ensures var s := QuotedText(l) + rest; s != [] && s[0] == QUOTE && Decode(s[1..]) == Some((LitMeans(l), rest))
  {
    hide Decode, LitMeans, LitText, LitOk;
    Marks();
    hide Ascii;
    LitParses(l, rest);
    var s := QuotedText(l) + rest;
    assert s[1..] == LitText(l) + ([QUOTE] + rest);
  }

  lemma ScalarReads(x: Syn, rest: Text)
    requires SynOk(x) && !x.Box? && Boundary(rest)
    ensures ParseScalar(SynText(x) + rest) == Some((SynMeans(x), rest))
    ensures var c := (SynText(x) + rest)[0]; c != 0x5B && c != 0x7B
  {
    hide ParseNumber, Decode, NumberMeans, NumberText, NumberOk, LitOk, LitMeans, WordText, QuotedText;
    match x
    case Word(j) => WordParses(j, rest);
    case Num(n) => NumParses(n, rest); NumberBegins(n);
    case Quoted(l) => QuotedParses(l, rest);
  }

  /** After a child comes white space, a comma or the closing bracket. */
  lemma ItemsBoundary(dict: bool, it: Items, rest: Text)
    requires ItemsOk(dict, true, it)
    ensures Boundary(ItemsText(dict, true, it) + rest)
  {
    hide SynText, KeyText, SynOk, KeyOk;
    Marks();
    hide Ascii;
    var t := ItemsText(dict, true, it);
    var w := if it.End? then it.last else it.comma;
    if w != [] {
      SpaceIs(w[0]);
      assert t[0] == w[0];
    }
  }

  /** The text of a member from its key on. */
  function Body(dict: bool, it: Items, rest: Text): Text
    requires it.More?
  {
    KeyText(it.key) + (SynText(it.value) + (ItemsText(dict, true, it.tail) + rest))
  }

  lemma ItemsTextIs(dict: bool, started: bool, it: Items, rest: Text)
    ensures it.End? ==> ItemsText(dict, started, it) + rest == it.last + ([if dict then 0x7D else 0x5D] + rest)
    ensures it.More? && started ==> ItemsText(dict, started, it) + rest == it.comma + ([0x2C] + (it.before + Body(dict, it, rest)))
    ensures it.More? && !started ==> ItemsText(dict, started, it) + rest == it.before + Body(dict, it, rest)
  {
    hide SynText, KeyText;
    Marks();
    hide Ascii;
    if it.More? {
      var t := ItemsText(dict, true, it.tail);
      hide ItemsText;
      AssocFive(KeyText(it.key), SynText(it.value), t, rest);
    }
  }

  lemma AssocFive(a: Text, b: Text, c: Text, d: Text)
    ensures (a + (b + c)) + d == a + (b + (c + d))
  {
  }

  /** White space, and a comma where there must be one, lead to the member. */
  lemma MemberBegins(dict: bool, it: Items, rest: Text)
    requires it.More? && SynOk(it.value) && (it.key.Some? <==> dict)
    ensures var b := Body(dict, it, rest); b != [] && !Space(b[0]) && b[0] != 0x5D && b[0] != 0x7D && (dict ==> b[0] == QUOTE)
    ensures !dict ==> Body(dict, it, rest) == SynText(it.value) + (ItemsText(dict, true, it.tail) + rest)
  {
    var after := ItemsText(dict, true, it.tail) + rest;
    SynBegins(it.value, after);
    hide SynText, ItemsText, SynOk;
    Marks();
    hide Ascii;
    if dict {
      hide LitText;
      assert QuotedText(it.key.value.l)[0] == QUOTE;
    } else {
      assert KeyText(it.key) == [];
      assert [] + (SynText(it.value) + after) == SynText(it.value) + after;
    }
  }

  lemma KeyReads(f: Frame, k: KeyPart, t: Text)
    requires KeyOk(Some(k)) && t != [] && !Space(t[0])
    ensures ReadKey(f, KeyText(Some(k)) + t) == Go(f.(key := LitMeans(k.l), started := true), t)
  {
    hide Decode, LitMeans, LitOk, QuotedText, WsOk;
    Marks();
    hide Ascii;
    var colon := [0x3A] + (k.gap2 + t);
    QuotedParses(k.l, k.gap1 + colon);
    assert KeyText(Some(k)) + t == QuotedText(k.l) + (k.gap1 + colon);
    SkipTo(k.gap1, colon);
    assert colon[1..] == k.gap2 + t;
    SkipTo(k.gap2, t);
  }

  /** The frame when a member's value is due. */
  function Awaiting(f: Frame, key: Option<KeyPart>): Frame
    requires KeyOk(key)
  {
    if key.Some? then f.(key := LitMeans(key.value.l), started := true) else f.(started := true)
  }

  lemma MemberReads(f: Frame, dict: bool, it: Items, rest: Text)
    requires it.More? && ItemsOk(dict, f.started, it) && (if dict then f.node.Dict? else f.node.List?)
    ensures Advance(f, ItemsText(dict, f.started, it) + rest)
      == Go(Awaiting(f, it.key), SynText(it.value) + (ItemsText(dict, true, it.tail) + rest))
  {
    hide SynText, ItemsText, SynOk, KeyText, LitMeans, ReadKey, Body, SkipWs, WsOk, LitOk;
    var after := SynText(it.value) + (ItemsText(dict, true, it.tail) + rest);
    var b := Body(dict, it, rest);
    ItemsTextIs(dict, f.started, it, rest);
    MemberBegins(dict, it, rest);
    SynBegins(it.value, ItemsText(dict, true, it.tail) + rest);
    SkipTo(it.before, b);
    SkipNothing(b);
    if f.started {
      var s := [0x2C] + (it.before + b);
      SkipTo(it.comma, s);
      assert s[1..] == it.before + b;
    }
    if dict {
      BodyIs(it, rest);
      KeyReads(f, it.key.value, after);
    }
  }

  lemma BodyIs(it: Items, rest: Text)
    requires it.More?
    ensures Body(true, it, rest) == KeyText(it.key) + (SynText(it.value) + (ItemsText(true, true, it.tail) + rest))
  {
    hide KeyText, SynText, ItemsText;
  }

  lemma EndReads(f: Frame, dict: bool, last: Text, rest: Text)
    requires WsOk(last) && (if dict then f.node.Dict? else f.node.List?)
    ensures Advance(f, ItemsText(dict, f.started, End(last)) + rest) == Closed(rest)
  {
    hide SkipWs, WsOk;
    var c := [if dict then 0x7D else 0x5D] + rest;
    ItemsTextIs(dict, f.started, End(last), rest);
    SkipTo(last, c);
    assert c[1..] == rest;
  }

  lemma AddIs(f: Frame, key: Option<KeyPart>, v: Json)
    requires KeyOk(key) && (if key.Some? then f.node.Dict? else f.node.List?)
    ensures Add(Awaiting(f, key), v) == Frame(WithChild(f.node, key, v), [], true)
  {
    hide LitMeans, LitOk, Put;
  }

  lemma ChildKind(node: Json, key: Option<KeyPart>, v: Json)
    requires KeyOk(key) && (if key.Some? then node.Dict? else node.List?)
    ensures var r := WithChild(node, key, v); (r.Dict? <==> node.Dict?) && (r.List? <==> node.List?)
  {
    hide Put, LitMeans, LitOk;
  }

  lemma BoxOpens(dict: bool, items: Items, d: nat, rest: Text)
    ensures ParseValue(SynText(Box(dict, items)) + rest, d)
      == if d >= MAX_DEPTH then None
         else ParseRest(Frame(if dict then Dict([]) else List([]), [], false), ItemsText(dict, false, items) + rest, d + 1)
  {
    hide ParseRest, ItemsText, ParseScalar;
    Marks();
    hide Ascii;
    var s := SynText(Box(dict, items)) + rest;
    assert s[0] == if dict then 0x7B else 0x5B;
    SkipNothing(s);
    assert s[1..] == ItemsText(dict, false, items) + rest;
  }

  lemma ScalarValue(x: Syn, d: nat, rest: Text)
    requires SynOk(x) && !x.Box? && Boundary(rest)
    ensures ParseValue(SynText(x) + rest, d) == Some((SynMeans(x), rest))
  {
    hide SynText, SynMeans, ParseScalar, ParseRest, Boundary, SynOk;
    ScalarReads(x, rest);
    SynBegins(x, rest);
    SkipNothing(SynText(x) + rest);
  }

  lemma {:induction false} SynParses(x: Syn, d: nat, rest: Text)
    requires SynOk(x) && Boundary(rest) && SynDepth(x) + d <= MAX_DEPTH
    ensures ParseValue(SynText(x) + rest, d) == Some((SynMeans(x), rest))
    decreases x
  {
    hide ParseValue, ParseRest, SynText, ItemsText, Boundary, ItemsMean, ItemsOk, ItemsDepth, NumberMeans, LitMeans, LitOk;
    if x.Box? {
      BoxOpens(x.dict, x.items, d, rest);
      ItemsParse(Frame(if x.dict then Dict([]) else List([]), [], false), x.dict, x.items, d + 1, rest);
    } else {
      ScalarValue(x, d, rest);
    }
  }

  lemma {:induction false} ItemsParse(f: Frame, dict: bool, it: Items, d: nat, rest: Text)
    requires ItemsOk(dict, f.started, it) && (if dict then f.node.Dict? else f.node.List?) && ItemsDepth(it) + d <= MAX_DEPTH
    ensures ParseRest(f, ItemsText(dict, f.started, it) + rest, d) == Some((ItemsMean(f.node, dict, f.started, it), rest))
    decreases it
  {
    hide ParseValue, ParseRest, SynText, ItemsText, Boundary, Advance, Add, SynMeans, LitMeans, SynDepth, SynOk, KeyOk, WsOk, Awaiting;
    var s := ItemsText(dict, f.started, it) + rest;
    match it
    case End(last) =>
      EndReads(f, dict, last, rest);
      RestCloses(f, s, d);
    case More(comma, before, key, value, tail) =>
      MemberReads(f, dict, it, rest);
      RestGoes(f, s, d);
      ItemsBoundary(dict, tail, rest);
      SynParses(value, d, ItemsText(dict, true, tail) + rest);
      AddIs(f, key, SynMeans(value));
      ItemsParse(Frame(WithChild(f.node, key, SynMeans(value)), [], true), dict, tail, d, rest);
  }

  // ---------------------------------------------------------------------
  // Every accepted text is one of the grammar
  // ---------------------------------------------------------------------

  lemma LiteralFound(s: Text, w: Text, j: Json)
    ensures Literal(s, w, j).Some? ==> Literal(s, w, j) == Some((j, s[|w|..])) && s == w + s[|w|..]
  {
  }

  lemma WordFound(s: Text) returns (x: Syn, rest: Text)
    requires s != [] && ParseScalar(s).Some? && (s[0] == 0x6E || s[0] == 0x74 || s[0] == 0x66)
    ensures SynOk(x) && !x.Box? && s == SynText(x) + rest && ParseScalar(s) == Some((SynMeans(x), rest))
  {
    hide ParseNumber, Decode;
    Words();
    var j := ParseScalar(s).value.0;
    x, rest := Word(j), ParseScalar(s).value.1;
    LiteralFound(s, WordText(j), j);
  }

  lemma QuotedFound(s: Text) returns (x: Syn, rest: Text)
    requires s != [] && s[0] == QUOTE && Decode(s[1..]).Some?
    ensures SynOk(x) && x.Quoted? && s == SynText(x) + rest && Decode(s[1..]) == Some((SynMeans(x).s, rest))
  {
    hide Decode, LitText, LitOk, LitMeans;
    Marks();
    hide Ascii;
    var l;
    l, rest := LitFound(s[1..]);
    x := Quoted(l);
    assert s == [QUOTE] + s[1..];
    assert QuotedText(l) + rest == [QUOTE] + (LitText(l) + ([QUOTE] + rest));
  }

  lemma ScalarFound(s: Text) returns (x: Syn, rest: Text)
    requires s != [] && ParseScalar(s).Some?
    ensures SynOk(x) && !x.Box? && s == SynText(x) + rest && ParseScalar(s) == Some((SynMeans(x), rest))
  {
    if s[0] == 0x6E || s[0] == 0x74 || s[0] == 0x66 {
      x, rest := WordFound(s);
    } else if s[0] == QUOTE {
      hide ParseNumber, Decode;
      x, rest := QuotedFound(s);
    } else {
      hide ParseNumber, Decode, NumberOk, NumberText, NumberMeans;
      var n;
      n, rest := NumberFound(s);
      x := Num(n);
    }
  }

  /** How a parser's move through a container was written: white space and the
      bracket, or white space, a comma where there must be one, and a key in a
      dictionary. */
  lemma MoveClosed(f: Frame, s: Text) returns (last: Text)
    requires Advance(f, s).Closed? && (f.node.Dict? || f.node.List?)
    ensures WsOk(last) && s == ItemsText(f.node.Dict?, f.started, End(last)) + Advance(f, s).rest
  {
    last := Skipped(s);
    var t := SkipWs(s);
    hide SkipWs, WsOk, Decode;
    ItemsTextIs(f.node.Dict?, f.started, End(last), t[1..]);
    hide ItemsText;
    assert t == [t[0]] + t[1..];
    assert t[0] == if f.node.Dict? then 0x7D else 0x5D;
  }

  lemma KeyFound(f: Frame, u: Text) returns (k: KeyPart)
    requires ReadKey(f, u).Go?
    ensures KeyOk(Some(k)) && u == KeyText(Some(k)) + ReadKey(f, u).s
    ensures ReadKey(f, u).f == Awaiting(f, Some(k))
  {
    hide Decode, LitOk, LitMeans, LitText, SkipWs, WsOk;
    Marks();
    hide Ascii;
    var l, t := LitFound(u[1..]);
    var gap1 := Skipped(t);
    var v := SkipWs(t);
    var gap2 := Skipped(v[1..]);
    k := KeyPart(l, gap1, gap2);
    KeySplit(u, LitText(l), t, gap1, v, gap2, SkipWs(v[1..]));
  }

  lemma KeySplit(u: Text, lit: Text, t: Text, gap1: Text, v: Text, gap2: Text, rest: Text)
    requires u != [] && u[0] == QUOTE && u[1..] == lit + ([QUOTE] + t) && t == gap1 + v && v != [] && v[0] == 0x3A && v[1..] == gap2 + rest
    ensures u == ([QUOTE] + (lit + [QUOTE])) + (gap1 + ([0x3A] + gap2)) + rest
  {
    assert u == [QUOTE] + u[1..];
    assert v == [0x3A] + v[1..];
  }

  lemma MoveOn(f: Frame, s: Text) returns (comma: Text, before: Text, key: Option<KeyPart>)
    requires Advance(f, s).Go? && (f.node.Dict? || f.node.List?)
    ensures WsOk(comma) && (f.started || comma == []) && WsOk(before) && (key.Some? <==> f.node.Dict?) && KeyOk(key)
    ensures s == (if f.started then comma + [0x2C] else []) + (before + (KeyText(key) + Advance(f, s).s))
    ensures Advance(f, s).f == Awaiting(f, key)
  {
    assert WsOk([]);
    hide SkipWs, WsOk, ReadKey, KeyText, Awaiting, KeyOk;
    var w := Skipped(s);
    var t := SkipWs(s);
    var u := SkipWs(if f.started then t[1..] else t);
    if f.started {
      comma := w;
      before := Skipped(t[1..]);
      assert t == [0x2C] + t[1..];
    } else {
      comma := [];
      before := w;
      SkipAgain(s);
    }
    if f.node.Dict? {
      var k := KeyFound(f, u);
      key := Some(k);
    } else {
      key := None;
      NoKey(f, u);
    }
    MoveText(s, f.started, comma, before, t, u);
  }

  lemma SkipAgain(s: Text)
    ensures SkipWs(SkipWs(s)) == SkipWs(s)
  {
    if SkipWs(s) != [] { SkipNothing(SkipWs(s)); }
  }

  lemma NoKey(f: Frame, u: Text)
    ensures KeyOk(None) && KeyText(None) + u == u && Awaiting(f, None) == f.(started := true)
  {
  }

  lemma MoveText(s: Text, started: bool, comma: Text, before: Text, t: Text, u: Text)
    requires if started then s == comma + t && t != [] && t[0] == 0x2C && t[1..] == before + u else s == before + t && t == u
    ensures s == (if started then comma + [0x2C] else []) + (before + u)
  {
    if started { assert t == [0x2C] + t[1..]; }
  }

  lemma {:induction false} RestMoves(f: Frame, s: Text, d: nat)
    requires ParseRest(f, s, d).Some?
    ensures var m := Advance(f, s);
      && !m.Stop?
      && (m.Closed? ==> ParseRest(f, s, d) == Some((f.node, m.rest)))
      && (m.Go? ==> ParseValue(m.s, d).Some? && |m.s| <= |s|
                    && var (v, u) := ParseValue(m.s, d).value; |u| < |m.s| && ParseRest(f, s, d) == ParseRest(Add(m.f, v), u, d))
  {
    hide Advance, ParseValue, Add;
  }

  lemma {:induction false} ValueOpens(s: Text, d: nat)
    requires ParseValue(s, d).Some?
    ensures var t := SkipWs(s);
      && t != [] && |t| <= |s|
      && if t[0] == 0x5B || t[0] == 0x7B
         then d < MAX_DEPTH && ParseValue(s, d) == ParseRest(Frame(if t[0] == 0x7B then Dict([]) else List([]), [], false), t[1..], d + 1)
         else ParseValue(s, d) == ParseScalar(t)
  {
    hide ParseRest, ParseScalar;
  }

  lemma MoreText(dict: bool, started: bool, comma: Text, before: Text, key: Option<KeyPart>, value: Syn, tail: Items, rest: Text)
    ensures ItemsText(dict, started, More(comma, before, key, value, tail)) + rest
      == (if started then comma + [0x2C] else []) + (before + (KeyText(key) + (SynText(value) + (ItemsText(dict, true, tail) + rest))))
  {
    Marks();
    hide Ascii, KeyText, SynText;
    var t := ItemsText(dict, true, tail);
    var lead := if started then comma + [0x2C] else [];
    hide ItemsText;
    AssocFour(lead, before, KeyText(key), SynText(value), t, rest);
  }

  lemma AssocFour(l: Text, a: Text, b: Text, c: Text, d: Text, e: Text)
    ensures (l + (a + (b + (c + d)))) + e == l + (a + (b + (c + (d + e))))
  {
  }

  lemma {:induction false} ValueFound(s: Text, d: nat) returns (w: Text, x: Syn, rest: Text)
    requires ParseValue(s, d).Some?
    ensures WsOk(w) && SynOk(x) && s == w + (SynText(x) + rest) && ParseValue(s, d) == Some((SynMeans(x), rest))
    ensures x.Box? ==> SynDepth(x) + d <= MAX_DEPTH
    ensures |w| + |SkipWs(s)| == |s|
    decreases |s|, 0
  {
    hide ParseValue, ParseRest, ParseScalar, SynText, SynMeans, SynOk, WsOk, SkipWs, SynDepth;
    w := Skipped(s);
    ValueOpens(s, d);
    var t := SkipWs(s);
    if t[0] == 0x5B || t[0] == 0x7B {
      var dict := t[0] == 0x7B;
      var it;
      it, rest := ItemsFound(Frame(if dict then Dict([]) else List([]), [], false), dict, t[1..], d + 1);
      x := Box(dict, it);
      BoxFound(dict, it, rest, t);
    } else {
      x, rest := ScalarFound(t);
    }
  }

  lemma BoxFound(dict: bool, it: Items, rest: Text, t: Text)
    requires t != [] && t[0] == (if dict then 0x7B else 0x5B) && t[1..] == ItemsText(dict, false, it) + rest && ItemsOk(dict, false, it)
    ensures SynOk(Box(dict, it)) && t == SynText(Box(dict, it)) + rest && SynDepth(Box(dict, it)) == 1 + ItemsDepth(it)
    ensures SynMeans(Box(dict, it)) == ItemsMean(if dict then Dict([]) else List([]), dict, false, it)
  {
    Marks();
    hide Ascii, ItemsText, ItemsOk, ItemsMean, ItemsDepth;
    assert t == [t[0]] + t[1..];
  }

  lemma {:induction false} ItemsFound(f: Frame, dict: bool, s: Text, d: nat) returns (it: Items, rest: Text)
    requires ParseRest(f, s, d).Some? && (if dict then f.node.Dict? else f.node.List?) && d <= MAX_DEPTH
    ensures ItemsOk(dict, f.started, it) && s == ItemsText(dict, f.started, it) + rest
    ensures ParseRest(f, s, d) == Some((ItemsMean(f.node, dict, f.started, it), rest)) && ItemsDepth(it) + d <= MAX_DEPTH
    decreases |s|, 1
  {
    hide ParseValue, ParseRest, SynText, ItemsText, SynMeans, SynOk, WsOk, KeyOk, KeyText, Advance, Add, Awaiting, SynDepth, WithChild;
    RestMoves(f, s, d);
    var m := Advance(f, s);
    if m.Closed? {
      var last := MoveClosed(f, s);
      it, rest := End(last), m.rest;
    } else {
      var comma, before, key := MoveOn(f, s);
      var w, value, u := ValueFound(m.s, d);
      ScalarDepthNone(value);
      AddIs(f, key, SynMeans(value));
      ChildKind(f.node, key, SynMeans(value));
      var tail;
      tail, rest := ItemsFound(Frame(WithChild(f.node, key, SynMeans(value)), [], true), dict, u, d);
      it := More(comma, before, key, value, tail);
      GoTrimmed(f, s);
      assert w == [] && [] + (SynText(value) + u) == SynText(value) + u;
      MoreText(dict, f.started, comma, before, key, value, tail, rest);
      MoreOk(f.node, dict, f.started, it);
    }
  }

  lemma GoTrimmed(f: Frame, s: Text)
    requires Advance(f, s).Go?
    ensures SkipWs(Advance(f, s).s) == Advance(f, s).s
  {
    hide Decode;
    var t := SkipWs(s);
    var u := if f.started then t[1..] else t;
    SkipAgain(u);
    if f.node.Dict? { KeyTrimmed(f, SkipWs(u)); }
  }

  lemma KeyTrimmed(f: Frame, u: Text)
    requires ReadKey(f, u).Go?
    ensures SkipWs(ReadKey(f, u).s) == ReadKey(f, u).s
  {
    hide Decode;
    var t := Decode(u[1..]).value.1;
    SkipAgain(SkipWs(t)[1..]);
  }

  lemma MoreOk(node: Json, dict: bool, started: bool, it: Items)
    requires it.More? && WsOk(it.comma) && (started || it.comma == []) && WsOk(it.before) && (it.key.Some? <==> dict) && KeyOk(it.key)
    requires SynOk(it.value) && ItemsOk(dict, true, it.tail) && (if dict then node.Dict? else node.List?)
    ensures ItemsOk(dict, started, it)
    ensures ItemsMean(node, dict, started, it) == ItemsMean(WithChild(node, it.key, SynMeans(it.value)), dict, true, it.tail)
    ensures ItemsDepth(it) == SynDepth(it.value) || ItemsDepth(it) == ItemsDepth(it.tail)
  {
    hide SynMeans, SynOk, WsOk, KeyOk, SynDepth;
  }

  lemma ScalarDepthNone(x: Syn)
    ensures !x.Box? ==> SynDepth(x) == 0
  {
  }

  /** The whole parser, for every text: it gives j exactly when the text is white
      space, a written value that means j and has at most 500 levels of containers,
      and white space. Everything else is refused. */
  lemma DocumentExactly(s: Text, j: Json)
    ensures ParseDocument(s) == Some(j) <==>
      exists w: Text, x: Syn, v: Text ::
        WsOk(w) && WsOk(v) && SynOk(x) && SynDepth(x) <= 500 && s == w + (SynText(x) + v) && j == SynMeans(x)
  {
    hide ParseValue, SynText, SynMeans, SynOk, WsOk, SynDepth, SkipWs;
    if ParseDocument(s) == Some(j) {
      var w, x, v := ValueFound(s, 0);
      AllSpace(v);
      ScalarDepthNone(x);
      assert s == w + (SynText(x) + v);
    }
    if w: Text, x: Syn, v: Text :|
      WsOk(w) && WsOk(v) && SynOk(x) && SynDepth(x) <= 500 && s == w + (SynText(x) + v) && j == SynMeans(x)
    {
      SpaceBoundary(v);
      SynParses(x, 0, v);
      SkipsFront(w, SynText(x) + v, 0);
      AllSpace(v);
    }
  }

  lemma {:induction false} AllSpace(v: Text)
    ensures SkipWs(v) == [] <==> WsOk(v)
    decreases |v|
  {
    if v != [] {
      SpaceIs(v[0]);
      AllSpace(v[1..]);
      assert v == [v[0]] + v[1..];
      assert forall i :: 0 <= i < |v| - 1 ==> v[1..][i] == v[i + 1];
    }
  }

  lemma SpaceBoundary(v: Text)
    requires WsOk(v)
    ensures Boundary(v)
  {
    if v != [] { SpaceIs(v[0]); }
  }

  lemma {:induction false} SkipsFront(w: Text, t: Text, d: nat)
    requires WsOk(w)
    ensures ParseValue(w + t, d) == ParseValue(t, d)
  {
    hide ParseRest, ParseScalar;
    SkipAll(w, t);
  }
}
