// JSON values, scalars as text, and the recursive printer.

module JsonValue {
  import opened Utf8
  import opened JsonString

  /** A float is kept as the token it was read from. */
  datatype Json =
    | Null
    | Bool(b: bool)
    | Int(i: int)
    | Float(token: Text)
    | Str(s: Text)
    | List(items: seq<Json>)
    | Dict(members: seq<(Text, Json)>)

  const MAX_DEPTH: nat := 500
  const INT_MIN: int := -0x8000_0000_0000_0000
  const INT_MAX: int := 0x7FFF_FFFF_FFFF_FFFF

  predicate Container(j: Json) { j.List? || j.Dict? }

  function Arity(j: Json): nat { if j.List? then |j.items| else if j.Dict? then |j.members| else 0 }

  function Child(j: Json, k: nat): (c: Json)
    requires k < Arity(j)
    ensures c < j
  {
    if j.List? then j.items[k] else j.members[k].1
  }

  // ---------------------------------------------------------------------
  // Depth and tidiness
  // ---------------------------------------------------------------------

  /** How many containers the deepest chain has; a scalar adds none. */
  function Depth(j: Json): nat
    decreases j, Arity(j) + 1
  {
    if Container(j) then 1 + DepthFrom(j, 0) else 0
  }

  function DepthFrom(j: Json, k: nat): nat
    requires k <= Arity(j)
    decreases j, Arity(j) - k
  {
    if k == Arity(j) then 0
    else
      var a, b := Depth(Child(j, k)), DepthFrom(j, k + 1);
      if a < b then b else a
  }

  predicate UniqueKeys(m: seq<(Text, Json)>) { forall a, b :: 0 <= a < b < |m| ==> m[a].0 != m[b].0 }

  /** What a tree built through the library holds: 64-bit integers, clean
      strings and keys, and no key twice in a dictionary. */
  predicate Tidy(j: Json) {
    && (j.Int? ==> INT_MIN <= j.i <= INT_MAX)
    && (j.Str? ==> Clean(j.s))
    && (j.List? ==> forall k :: 0 <= k < |j.items| ==> Tidy(j.items[k]))
    && (j.Dict? ==> UniqueKeys(j.members) && forall k :: 0 <= k < |j.members| ==> Clean(j.members[k].0) && Tidy(j.members[k].1))
  }

  predicate FloatFree(j: Json) {
    && !j.Float?
    && (j.List? ==> forall k :: 0 <= k < |j.items| ==> FloatFree(j.items[k]))
    && (j.Dict? ==> forall k :: 0 <= k < |j.members| ==> FloatFree(j.members[k].1))
  }

  lemma {:induction false} DepthOfChild(j: Json, k: nat, from: nat)
    requires from <= k < Arity(j)
    ensures Depth(Child(j, k)) <= DepthFrom(j, from)
    decreases k - from
  {
    if from < k { DepthOfChild(j, k, from + 1); }
  }

  // ---------------------------------------------------------------------
  // Integers
  // ---------------------------------------------------------------------

  predicate Digit(c: Byte) { 0x30 <= c <= 0x39 }

  function Digits(u: nat): (t: Text)
    ensures t != [] && (forall i :: 0 <= i < |t| ==> Digit(t[i]))
  {
    if u < 10 then [0x30 + u] else Digits(u / 10) + [0x30 + u % 10]
  }

  lemma {:induction false} DigitsLead(u: nat)
    ensures u > 0 ==> Digits(u)[0] != 0x30
    ensures u == 0 ==> Digits(u) == [0x30]
    decreases u
  {
    if u >= 10 { DigitsLead(u / 10); }
  }

  /** The number a run of digits writes. */
  function ValueOf(t: Text): nat
    requires forall i :: 0 <= i < |t| ==> Digit(t[i])
  {
    if t == [] then 0
    else assert Digit(t[|t| - 1]); 10 * ValueOf(t[..|t| - 1]) + t[|t| - 1] - 0x30
  }

  lemma {:induction false} DigitsBack(u: nat)
    ensures ValueOf(Digits(u)) == u
  {
    if u >= 10 {
      DigitsBack(u / 10);
      assert Digits(u)[..|Digits(u)| - 1] == Digits(u / 10);
    }
  }

  function PrintInt(i: int): Text { if i < 0 then [0x2D] + Digits(-i) else Digits(i) }

  /** The digits still to write. */
  function DigitsLeft(u: nat): Text { if u > 0 then Digits(u) else [] }

  lemma {:induction false} DigitsStep(u: nat)
    ensures Digits(u) == DigitsLeft(u / 10) + [0x30 + u % 10]
  {
  }

  /** The digits, last first, into a buffer that is then reversed. */
  method PrintIntLoop(i: int) returns (t: Text)
    ensures t == PrintInt(i)
  {
    hide Digits, Reversed, DigitsLeft;
    var u: nat := if i < 0 then -i else i;
    ghost var all := Digits(u);
    OneMoreDigit(u, []);
    var rev: Text := [0x30 + u % 10];
    u := u / 10;
    while u > 0
      invariant all == DigitsLeft(u) + Reversed(rev)
    {
      OneMoreDigit(u, rev);
      rev := rev + [0x30 + u % 10];
      u := u / 10;
    }
    NoMoreDigits(rev);
    if i < 0 {
      ReversedSnoc(rev, 0x2D);
      rev := rev + [0x2D];
    }
    t := Reversed(rev);
  }

  lemma {:induction false} OneMoreDigit(u: nat, rev: Text)
    ensures Digits(u) + Reversed(rev) == DigitsLeft(u / 10) + Reversed(rev + [0x30 + u % 10])
    ensures u > 0 ==> DigitsLeft(u) == Digits(u)
    ensures rev == [] ==> Digits(u) == DigitsLeft(u / 10) + Reversed([0x30 + u % 10])
  {
    DigitsStep(u);
    var c := 0x30 + u % 10;
    ReversedSnoc(rev, c);
    hide Digits;
    if rev == [] {
      assert rev + [c] == [c];
      assert Digits(u) + Reversed(rev) == Digits(u);
    }
  }

  lemma NoMoreDigits(rev: Text)
    ensures DigitsLeft(0) + Reversed(rev) == Reversed(rev)
  {
  }

  function Reversed(s: Text): Text { if s == [] then [] else [s[|s| - 1]] + Reversed(s[..|s| - 1]) }

  lemma ReversedSnoc(s: Text, c: Byte)
    ensures Reversed(s + [c]) == [c] + Reversed(s)
  {
    assert (s + [c])[..|s|] == s;
  }

  // ---------------------------------------------------------------------
  // Printing
  // ---------------------------------------------------------------------

  function Spaces(n: nat): Text { if n == 0 then [] else [0x20] + Spaces(n - 1) }

  /** A new line and its indentation; nothing in compact output. */
  function Indent(indent: nat, depth: nat): Text { if indent == 0 then [] else [0x0A] + Spaces(depth * indent) }

  /** A line break and `indent` spaces for each level. */
  lemma {:induction false} IndentIs(indent: nat, depth: nat)
    ensures var t := Indent(indent, depth);
      if indent == 0 then t == []
      else |t| == 1 + depth * indent && t[0] == '\n' as int && forall i :: 0 < i < |t| ==> t[i] == ' ' as int
  {
    SpacesAre(depth * indent);
  }

  lemma {:induction false} SpacesAre(n: nat)
    ensures |Spaces(n)| == n && forall i :: 0 <= i < n ==> Spaces(n)[i] == ' ' as int
  {
    if n > 0 { SpacesAre(n - 1); }
  }

  function PrintScalar(j: Json): Text {
    match j
    case Bool(b) => if b then [0x74, 0x72, 0x75, 0x65] else [0x66, 0x61, 0x6C, 0x73, 0x65]
    case Int(i) => PrintInt(i)
    case Float(token) => token
    case Str(s) => PrintString(s)
    case _ => [0x6E, 0x75, 0x6C, 0x6C]
  }

  function Opening(j: Json): Byte { if j.List? then 0x5B else 0x7B }
  function Closing(j: Json): Byte { if j.List? then 0x5D else 0x7D }

  /** What stands before the k-th child's value: its comma, its line and its key. */
  function Lead(j: Json, indent: nat, depth: nat, k: nat): Text
    requires k < Arity(j)
  {
    (if k > 0 then [0x2C] else []) + Indent(indent, depth + 1)
    + (if j.Dict? then PrintString(j.members[k].0) + [0x3A] + (if indent > 0 then [0x20] else []) else [])
  }

  /** The text of a value nested in `depth` containers. */
  function Print(j: Json, indent: nat, depth: nat): Text
    decreases j, Arity(j) + 1
  {
    if Container(j) then [Opening(j)] + PrintFrom(j, indent, depth, 0) else PrintScalar(j)
  }

  /** A container's text from its k-th child on. */
  function PrintFrom(j: Json, indent: nat, depth: nat, k: nat): Text
    requires k <= Arity(j)
    decreases j, Arity(j) - k
  {
    if k == Arity(j) then (if k > 0 then Indent(indent, depth) else []) + [Closing(j)]
    else Lead(j, indent, depth, k) + Print(Child(j, k), indent, depth + 1) + PrintFrom(j, indent, depth, k + 1)
  }
}
