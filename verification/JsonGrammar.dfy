// The JSON texts, told apart from any parser: what a number, a string literal, a
// word and a container look like and mean (RFC 8259, sections 2 to 7). The parser
// accepts exactly these texts, up to the depth limit, and gives what they mean.

module JsonGrammar {
  import opened Options
  import opened Utf8
  import opened JsonString
  import opened JsonValue
  import opened JsonParse
  import opened JsonRoundTrip

  function Ascii(s: string): (t: Text)
    requires forall i :: 0 <= i < |s| ==> s[i] < 128 as char
  {
    seq(|s|, i requires 0 <= i < |s| => s[i] as int)
  }

  predicate OneOf(c: Byte, s: string)
    requires forall i :: 0 <= i < |s| ==> s[i] < 128 as char
  {
    c in Ascii(s)
  }

  // ---------------------------------------------------------------------
  // Numbers
  // ---------------------------------------------------------------------

  /** A number as written: its sign, its digits, and with their signs and points
      the fraction and the exponent, each empty where there is none. */
  datatype Number = Number(minus: bool, whole: Text, frac: Text, exp: Text)

  predicate Digits1(t: Text) { t != [] && forall i :: 0 <= i < |t| ==> OneOf(t[i], "0123456789") }

  predicate FracOk(t: Text) { t == [] || (t[0] == '.' as int && Digits1(t[1..])) }

  predicate ExpOk(t: Text) {
    || t == []
    || (OneOf(t[0], "eE") && (Digits1(t[1..]) || (|t| > 1 && OneOf(t[1], "+-") && Digits1(t[2..]))))
  }

  predicate NumberOk(n: Number) {
    && Digits1(n.whole) && (n.whole[0] == '0' as int ==> |n.whole| == 1)
    && FracOk(n.frac) && ExpOk(n.exp)
  }

  function NumberText(n: Number): Text { (if n.minus then ['-' as int] else []) + n.whole + n.frac + n.exp }

  /** The decimal value of digits. */
  function Decimal(t: Text): int {
    if t == [] then 0 else 10 * Decimal(t[..|t| - 1]) + (t[|t| - 1] as int - '0' as int)
  }

  /** An integer where there is neither fraction nor exponent and 64 bits hold it, a
      float of exactly the written token otherwise. */
  function NumberMeans(n: Number): Json {
    var u := Decimal(n.whole);
    var v := if n.minus then -u else u;
    if n.frac == [] && n.exp == [] && -0x8000_0000_0000_0000 <= v < 0x8000_0000_0000_0000 then Int(v) else Float(NumberText(n))
  }

  /** No byte at the front of rest belongs to the number. */
  predicate NumberStops(n: Number, rest: Text) {
    rest != [] ==>
      && !OneOf(rest[0], "0123456789")
      && (OneOf(rest[0], "eE") ==> n.exp != [])
      && (rest[0] == '.' as int ==> n.frac != [] || n.exp != [])
  }

  lemma DigitIs(c: Byte)
    ensures Digit(c) <==> OneOf(c, "0123456789")
  {
    var t := Ascii("0123456789");
    assert forall i :: 0 <= i < 10 ==> t[i] == 0x30 + i;
    if Digit(c) { assert t[c - 0x30] == c; }
  }

  lemma ExpLetterIs(c: Byte)
    ensures OneOf(c, "eE") <==> c == 0x65 || c == 0x45
    ensures OneOf(c, "+-") <==> c == 0x2B || c == 0x2D
  {
    var t, u := Ascii("eE"), Ascii("+-");
    assert t[0] == 0x65 && t[1] == 0x45 && u[0] == 0x2B && u[1] == 0x2D;
  }

  lemma DigitsIs(t: Text)
    ensures Digits1(t) <==> t != [] && forall i :: 0 <= i < |t| ==> Digit(t[i])
  {
    forall i | 0 <= i < |t| ensures Digit(t[i]) <==> OneOf(t[i], "0123456789") { DigitIs(t[i]); }
  }

  lemma {:induction false} DecimalIs(t: Text)
    requires forall i :: 0 <= i < |t| ==> Digit(t[i])
    ensures Decimal(t) == ValueOf(t)
  {
    if t != [] { DecimalIs(t[..|t| - 1]); }
  }

  /** A run of digits that a non-digit ends. */
  lemma DigitRunOf(t: Text, rest: Text)
    requires (forall i :: 0 <= i < |t| ==> Digit(t[i])) && (rest == [] || !Digit(rest[0]))
    ensures DigitRun(t + rest) == |t| && (t + rest)[|t|..] == rest
  {
    var w := t + rest;
    assert forall i :: 0 <= i < |t| ==> w[i] == t[i];
    DigitRunIs(w, |t|);
  }

  lemma WholeOf(n: Number, rest: Text)
    requires NumberOk(n) && (rest == [] || !Digit(rest[0]))
    ensures Whole(n.whole + rest) == |n.whole| && (n.whole + rest)[|n.whole|..] == rest && (n.whole + rest)[..|n.whole|] == n.whole
  {
    DigitsIs(n.whole);
    DigitRunOf(n.whole, rest);
    var w := n.whole + rest;
    assert w[0] == n.whole[0];
    if |w| > 1 && |n.whole| == 1 { assert w[1] == rest[0]; }
  }

  lemma FractionOf(frac: Text, rest: Text)
    requires FracOk(frac) && (rest == [] || (!Digit(rest[0]) && (frac == [] ==> rest[0] != 0x2E)))
    ensures Fraction(frac + rest) == Some(|frac|) && (frac + rest)[|frac|..] == rest
  {
    if frac == [] {
      assert frac + rest == rest;
    } else {
      DigitsIs(frac[1..]);
      DigitRunOf(frac[1..], rest);
      assert (frac + rest)[1..] == frac[1..] + rest;
    }
  }

  lemma ExponentOf(exp: Text, rest: Text)
    requires ExpOk(exp) && (rest == [] || (!Digit(rest[0]) && (exp == [] ==> rest[0] != 0x65 && rest[0] != 0x45)))
    ensures Exponent(exp + rest) == Some(|exp|) && (exp + rest)[|exp|..] == rest
  {
    var w := exp + rest;
    if exp == [] {
      assert w == rest;
    } else {
      ExpLetterIs(exp[0]);
      DigitsIs(exp[1..]);
      if Digits1(exp[1..]) {
        assert Digit(exp[1..][0]) && w[1] == exp[1];
        DigitRunOf(exp[1..], rest);
        assert w[1..] == exp[1..] + rest;
      } else {
        ExpLetterIs(exp[1]);
        DigitsIs(exp[2..]);
        DigitRunOf(exp[2..], rest);
        assert w[2..] == exp[2..] + rest && w[1] == exp[1];
      }
    }
  }

  /** The front of a fraction or exponent is none of what a shorter part could be
      continued by. */
  lemma PartFronts(n: Number, rest: Text)
    requires NumberOk(n) && NumberStops(n, rest)
    ensures rest != [] ==> !Digit(rest[0]) && (n.exp == [] ==> rest[0] != 0x65 && rest[0] != 0x45)
    ensures var t := n.exp + rest; t != [] ==> !Digit(t[0]) && (n.frac == [] ==> t[0] != 0x2E)
    ensures var t := n.frac + (n.exp + rest); t != [] ==> !Digit(t[0])
  {
    if rest != [] { DigitIs(rest[0]); ExpLetterIs(rest[0]); }
    if n.exp != [] { ExpLetterIs(n.exp[0]); }
  }

  lemma SignOf(n: Number, rest: Text)
    requires NumberOk(n)
    ensures var s := NumberText(n) + rest; var k := if n.minus then 1 else 0;
      && s != [] && (s[0] == 0x2D <==> n.minus) && s[k..] == n.whole + (n.frac + (n.exp + rest))
      && s[..k + |n.whole| + |n.frac| + |n.exp|] == NumberText(n)
  {
    hide FracOk, ExpOk, Digits1;
    DigitsIs(n.whole);
    var sign: Text := if n.minus then [0x2D] else [];
    SignText(sign, n.whole, n.frac, n.exp, rest);
    assert !n.minus ==> (NumberText(n) + rest)[0] == n.whole[0];
  }

  lemma SignText(sign: Text, a: Text, b: Text, c: Text, rest: Text)
    ensures (sign + a + b + c + rest)[|sign|..] == a + (b + (c + rest))
    ensures (sign + a + b + c + rest)[..|sign| + |a| + |b| + |c|] == sign + a + b + c
  {
  }

  /** What the parser makes of the lengths it finds. */
  lemma ParseIs(s: Text, k: nat, w: nat, f: nat, e: nat)
    requires s != [] && k == (if s[0] == 0x2D then 1 else 0) && Whole(s[k..]) == w > 0
    requires Fraction(s[k..][w..]) == Some(f) && Exponent(s[k..][w + f..]) == Some(e)
    ensures k + w + f + e <= |s|
    ensures var v := Signed(k == 1, s[k..][..w]);
      ParseNumber(s) == Some((if f == 0 && e == 0 && INT_MIN <= v <= INT_MAX then Int(v) else Float(s[..k + w + f + e]), s[k..][w + f + e..]))
  {
    hide Whole, Fraction, Exponent, Signed;
  }

  lemma MeansIs(n: Number)
    requires NumberOk(n)
    ensures forall i :: 0 <= i < |n.whole| ==> Digit(n.whole[i])
    ensures var v := Signed(n.minus, n.whole);
      NumberMeans(n) == if |n.frac| == 0 && |n.exp| == 0 && INT_MIN <= v <= INT_MAX then Int(v) else Float(NumberText(n))
  {
    hide Decimal, ValueOf, NumberText, FracOk, ExpOk;
    DigitsIs(n.whole);
    DecimalIs(n.whole);
  }

  lemma ThreeParts(a: Text, b: Text, c: Text, r: Text)
    ensures var t := a + (b + (c + r));
      t[..|a|] == a && t[|a|..] == b + (c + r) && t[|a| + |b|..] == c + r && t[|a| + |b| + |c|..] == r
  {
  }

  lemma PartsRead(n: Number, rest: Text, t: Text)
    requires NumberOk(n) && NumberStops(n, rest) && t == n.whole + (n.frac + (n.exp + rest))
    ensures var w, f, e := |n.whole|, |n.frac|, |n.exp|;
      && Whole(t) == w > 0 && Fraction(t[w..]) == Some(f) && Exponent(t[w + f..]) == Some(e)
      && t[..w] == n.whole && t[w + f + e..] == rest
  {
    hide Whole, Fraction, Exponent, NumberStops, FracOk, ExpOk, Digits1;
    ThreeParts(n.whole, n.frac, n.exp, rest);
    PartFronts(n, rest);
    DigitsIs(n.whole);
    PartWhole(n, n.frac + (n.exp + rest));
    PartFraction(n, n.exp + rest);
    PartExponent(n, rest);
  }

  lemma PartWhole(n: Number, rest: Text)
    requires NumberOk(n) && (rest != [] ==> !Digit(rest[0]))
    ensures Whole(n.whole + rest) == |n.whole| > 0
  {
    hide Whole, FracOk, ExpOk;
    WholeOf(n, rest);
  }

  lemma PartFraction(n: Number, rest: Text)
    requires NumberOk(n) && (rest != [] ==> !Digit(rest[0]) && (n.frac == [] ==> rest[0] != 0x2E))
    ensures Fraction(n.frac + rest) == Some(|n.frac|)
  {
    hide Fraction, FracOk, ExpOk, Digits1;
    FractionOf(n.frac, rest);
  }

  lemma PartExponent(n: Number, rest: Text)
    requires NumberOk(n) && (rest != [] ==> !Digit(rest[0]) && (n.exp == [] ==> rest[0] != 0x65 && rest[0] != 0x45))
    ensures Exponent(n.exp + rest) == Some(|n.exp|)
  {
    hide Exponent, FracOk, ExpOk, Digits1;
    ExponentOf(n.exp, rest);
  }

  /** Every number of the grammar is read whole, and means what the grammar says. */
  lemma NumberParses(n: Number, rest: Text)
    requires NumberOk(n) && NumberStops(n, rest)
    ensures NumberText(n) + rest != [] && ParseNumber(NumberText(n) + rest) == Some((NumberMeans(n), rest))
  {
    hide Whole, Fraction, Exponent, NumberText, NumberStops, NumberMeans, NumberOk, Signed, ParseNumber;
    var s, k := NumberText(n) + rest, if n.minus then 1 else 0;
    SignOf(n, rest);
    PartsRead(n, rest, s[k..]);
    MeansIs(n);
    ParseIs(s, k, |n.whole|, |n.frac|, |n.exp|);
  }

  lemma WholeFound(t: Text)
    requires Whole(t) > 0
    ensures var w := t[..Whole(t)]; Digits1(w) && (w[0] == 0x30 ==> |w| == 1)
    ensures var rest := t[Whole(t)..]; rest != [] ==> !Digit(rest[0])
  {
    DigitsIs(t[..Whole(t)]);
  }

  lemma FractionFound(t: Text)
    requires Fraction(t).Some? && (t != [] ==> !Digit(t[0]))
    ensures var f := Fraction(t).value; FracOk(t[..f])
    ensures var f := Fraction(t).value; t[f..] != [] ==> !Digit(t[f]) && (f == 0 ==> t[f] != 0x2E)
  {
    var f := Fraction(t).value;
    if f > 0 {
      DigitsIs(t[..f][1..]);
      assert forall i :: 0 <= i < f - 1 ==> t[..f][1..][i] == t[1..][i];
      assert t[f..] != [] ==> t[f] == t[1..][f - 1];
    }
  }

  lemma ExponentFound(t: Text)
    requires Exponent(t).Some? && (t != [] ==> !Digit(t[0]))
    ensures var e := Exponent(t).value; ExpOk(t[..e])
    ensures var e := Exponent(t).value; t[e..] != [] ==> !Digit(t[e]) && (e == 0 ==> t[e] != 0x65 && t[e] != 0x45)
  {
    var e := Exponent(t).value;
    if e > 0 {
      var x := t[..e];
      ExpLetterIs(x[0]);
      ExpLetterIs(t[1]);
      var k := if t[1] == 0x2B || t[1] == 0x2D then 2 else 1;
      DigitsIs(x[k..]);
      assert forall i :: 0 <= i < e - k ==> x[k..][i] == t[k..][i];
      assert t[e..] != [] ==> t[e] == t[k..][e - k];
      if k == 2 { assert x[1] == t[1]; }
    }
  }

  lemma Pieces(s: Text, k: nat, w: nat, f: nat, e: nat)
    requires k <= 1 && k + w + f + e <= |s| && (k == 1 ==> s[0] == 0x2D)
    ensures var t := s[k..];
      && t[w..][..f] == t[w..w + f] && t[w..][f..] == t[w + f..]
      && t[w + f..][..e] == t[w + f..w + f + e] && t[w + f..][e..] == t[w + f + e..]
      && s[..k + w + f + e] == (if k == 1 then [0x2D] else []) + t[..w] + t[w..w + f] + t[w + f..w + f + e]
      && s == s[..k + w + f + e] + t[w + f + e..]
  {
    var t := s[k..];
    FrontThen(s, k, w + f + e);
    FrontThen(t, w, f);
    FrontThen(t, w + f, e);
    FrontThen(t, 0, w + f + e);
    var sign: Text := if k == 1 then [0x2D] else [];
    assert s[..k] == sign;
    FourJoined(sign, t[..w], t[w..w + f], t[w + f..w + f + e]);
    assert s[k..k + (w + f + e)] == t[..w + f + e];
  }

  lemma FourJoined(a: Text, b: Text, c: Text, d: Text)
    ensures a + (b + c + d) == a + b + c + d
  {
  }

  lemma FrontThen(t: Text, a: nat, b: nat)
    requires a + b <= |t|
    ensures t[a..][..b] == t[a..a + b] && t[a..][b..] == t[a + b..] && t[..a + b] == t[..a] + t[a..a + b] && t == t[..a + b] + t[a + b..]
  {
  }

  /** The lengths found make up a number. */
  lemma FoundOk(t: Text, w: nat, f: nat, e: nat)
    requires Whole(t) == w > 0 && Fraction(t[w..]) == Some(f) && w + f <= |t| && Exponent(t[w + f..]) == Some(e) && w + f + e <= |t|
    ensures Digits1(t[..w]) && (t[..w][0] == 0x30 ==> w == 1) && FracOk(t[w..][..f]) && ExpOk(t[w + f..][..e])
    ensures var rest := t[w + f + e..];
      rest != [] ==> !Digit(rest[0]) && (e == 0 ==> rest[0] != 0x65 && rest[0] != 0x45) && (f == 0 && e == 0 ==> rest[0] != 0x2E)
  {
    hide Whole, Fraction, Exponent, FracOk, ExpOk, Digits1;
    WholeFound(t);
    FractionFound(t[w..]);
    assert t[w..][f..] == t[w + f..];
    ExponentFound(t[w + f..]);
    assert t[w + f..][e..] == t[w + f + e..];
  }

  lemma StopsIf(n: Number, rest: Text)
    requires rest != [] ==>
      !Digit(rest[0]) && (n.exp == [] ==> rest[0] != 0x65 && rest[0] != 0x45) && (n.frac == [] && n.exp == [] ==> rest[0] != 0x2E)
    ensures NumberStops(n, rest)
  {
    if rest != [] { DigitIs(rest[0]); ExpLetterIs(rest[0]); }
  }

  lemma {:induction false} LengthsFound(s: Text) returns (k: nat, w: nat, f: nat, e: nat)
    requires s != [] && ParseNumber(s).Some?
    ensures k == (if s[0] == 0x2D then 1 else 0) && Whole(s[k..]) == w > 0
    ensures Fraction(s[k..][w..]) == Some(f) && k + w + f <= |s| && Exponent(s[k..][w + f..]) == Some(e) && k + w + f + e <= |s|
  {
    hide Whole, Fraction, Exponent, Signed;
    k := if s[0] == 0x2D then 1 else 0;
    w := Whole(s[k..]);
    f := Fraction(s[k..][w..]).value;
    e := Exponent(s[k..][w + f..]).value;
  }

  /** Whatever the parser reads as a number is one of the grammar, and nothing that
      follows continues it. */
  lemma NumberFound(s: Text) returns (n: Number, rest: Text)
    requires s != [] && ParseNumber(s).Some?
    ensures NumberOk(n) && NumberStops(n, rest) && s == NumberText(n) + rest
    ensures ParseNumber(s) == Some((NumberMeans(n), rest))
  {
    hide Whole, Fraction, Exponent, NumberMeans, NumberStops, Signed, FracOk, ExpOk, Digits1, ParseNumber;
    var k, w, f, e := LengthsFound(s);
    ParseIs(s, k, w, f, e);
    var t := s[k..];
    FoundOk(t, w, f, e);
    Pieces(s, k, w, f, e);
    n, rest := Number(k == 1, t[..w], t[w..w + f], t[w + f..w + f + e]), t[w + f + e..];
    StopsIf(n, rest);
    MeansIs(n);
  }

  /** The number parser against the grammar, for every text: it reads n and leaves
      rest exactly when the text is n followed by rest, n is a number, and rest does
      not continue it. So a malformed fraction or exponent is refused. */
  lemma NumberExactly(s: Text, j: Json, rest: Text)
    requires s != []
    ensures ParseNumber(s) == Some((j, rest)) <==>
      exists n: Number :: NumberOk(n) && NumberStops(n, rest) && s == NumberText(n) + rest && j == NumberMeans(n)
  {
    hide ParseNumber, NumberOk, NumberStops, NumberText, NumberMeans;
    if ParseNumber(s) == Some((j, rest)) { var n, after := NumberFound(s); }
    if n: Number :| NumberOk(n) && NumberStops(n, rest) && s == NumberText(n) + rest && j == NumberMeans(n) {
      NumberParses(n, rest);
    }
  }

  // ---------------------------------------------------------------------
  // String literals
  // ---------------------------------------------------------------------

  /** An escape as written: a letter, four hexadecimal digits, or two times four
      for a pair of surrogates. */
  datatype Esc = Letter(c: Byte) | Unit(h: Text) | Pair(h: Text, l: Text)

  /** The inside of a literal: runs of raw text with escapes between them. */
  datatype Lit = Last(run: Text) | Then(run: Text, esc: Esc, more: Lit)

  predicate RunOk(t: Text) { Valid(t) && forall i :: 0 <= i < |t| ==> t[i] >= 0x20 && !OneOf(t[i], "\"\\") }

  /** The value of a hexadecimal digit, 16 for any other byte. */
  function Nibble(c: Byte): nat {
    if OneOf(c, "0123456789") then c - '0' as int
    else if OneOf(c, "abcdef") then c - 'a' as int + 10
    else if OneOf(c, "ABCDEF") then c - 'A' as int + 10
    else 16
  }

  predicate HexOk(h: Text) { |h| == 4 && forall i :: 0 <= i < 4 ==> Nibble(h[i]) < 16 }

  function HexValue(h: Text): nat
    requires |h| == 4
  {
    ((Nibble(h[0]) * 16 + Nibble(h[1])) * 16 + Nibble(h[2])) * 16 + Nibble(h[3])
  }

  /** No lone surrogate, and no zero character. */
  predicate EscOk(e: Esc) {
    match e
    case Letter(c) => OneOf(c, "\"\\/bfnrt")
    case Unit(h) => HexOk(h) && HexValue(h) != 0 && !(0xD800 <= HexValue(h) <= 0xDFFF)
    case Pair(h, l) => HexOk(h) && HexOk(l) && 0xD800 <= HexValue(h) <= 0xDBFF && 0xDC00 <= HexValue(l) <= 0xDFFF
  }

  /** The byte a letter stands for. */
  function LetterMeans(c: Byte): Byte {
    if c == 'b' as int then 8 else if c == 't' as int then 9 else if c == 'n' as int then 10
    else if c == 'f' as int then 12 else if c == 'r' as int then 13 else c
  }

  function EscMeans(e: Esc): Text
    requires EscOk(e)
  {
    match e
    case Letter(c) => [LetterMeans(c)]
    case Unit(h) => Encode(HexValue(h))
    case Pair(h, l) => Encode(0x10000 + (HexValue(h) - 0xD800) * 0x400 + (HexValue(l) - 0xDC00))
  }

  function EscText(e: Esc): Text {
    match e
    case Letter(c) => Ascii("\\") + [c]
    case Unit(h) => Ascii("\\u") + h
    case Pair(h, l) => Ascii("\\u") + h + Ascii("\\u") + l
  }

  predicate LitOk(l: Lit) {
    match l
    case Last(run) => RunOk(run)
    case Then(run, e, more) => RunOk(run) && EscOk(e) && LitOk(more)
  }

  function LitText(l: Lit): Text {
    match l
    case Last(run) => run
    case Then(run, e, more) => run + (EscText(e) + LitText(more))
  }

  function LitMeans(l: Lit): Text
    requires LitOk(l)
  {
    match l
    case Last(run) => run
    case Then(run, e, more) => run + EscMeans(e) + LitMeans(more)
  }

  lemma QuotesAre(c: Byte)
    ensures OneOf(c, "\"\\") <==> c == QUOTE || c == BACKSLASH
    ensures Ascii("\\") == [BACKSLASH] && Ascii("\\u") == [BACKSLASH, 0x75] && Ascii("\"") == [QUOTE]
  {
    var t := Ascii("\"\\");
    assert t[0] == QUOTE && t[1] == BACKSLASH;
  }

  lemma RunOkIs(t: Text)
    ensures RunOk(t) <==> Valid(t) && forall i :: 0 <= i < |t| ==> Plain(t[i])
  {
    hide Valid;
    forall i | 0 <= i < |t| ensures Plain(t[i]) <==> t[i] >= 0x20 && !OneOf(t[i], "\"\\") { QuotesAre(t[i]); }
  }

  lemma LettersAre(c: Byte)
    ensures OneOf(c, "\"\\/bfnrt") <==> ShortEscape(c).Some?
    ensures ShortEscape(c).Some? ==> ShortEscape(c) == Some(LetterMeans(c)) && c != 0x75
  {
    var t := Ascii("\"\\/bfnrt");
    assert t == [QUOTE, BACKSLASH, 0x2F, 0x62, 0x66, 0x6E, 0x72, 0x74];
  }

  lemma LowerHex(c: Byte)
    ensures OneOf(c, "abcdef") <==> 0x61 <= c <= 0x66
    ensures OneOf(c, "ABCDEF") <==> 0x41 <= c <= 0x46
  {
    var t, u := Ascii("abcdef"), Ascii("ABCDEF");
    assert t == [0x61, 0x62, 0x63, 0x64, 0x65, 0x66] && u == [0x41, 0x42, 0x43, 0x44, 0x45, 0x46];
  }

  lemma NibbleIs(c: Byte)
    ensures HexDigit(c).Some? <==> Nibble(c) < 16
    ensures HexDigit(c).Some? ==> HexDigit(c).value == Nibble(c)
  {
    DigitIs(c);
    LowerHex(c);
  }

  /** Four hexadecimal digits, read as the grammar values them. */
  lemma HexIs(s: Text)
    ensures Hex4(s).Some? <==> |s| >= 4 && HexOk(s[..4])
    ensures Hex4(s).Some? ==> Hex4(s).value == HexValue(s[..4])
  {
    hide Nibble, HexDigit;
    if |s| >= 4 {
      NibbleIs(s[0]);
      NibbleIs(s[1]);
      NibbleIs(s[2]);
      NibbleIs(s[3]);
    }
  }

  lemma LetterEscape(c: Byte, rest: Text)
    requires c != 0x75
    ensures ReadEscape([c] + rest) == match ShortEscape(c) case None => None case Some(b) => Some(([b], rest))
  {
    hide ShortEscape;
    assert ([c] + rest)[1..] == rest;
  }

  lemma UnitEscape(h: Text, rest: Text)
    requires |h| == 4 && Hex4(h + rest).Some?
    ensures var v := Hex4(h + rest).value;
      v != 0 && !(0xD800 <= v <= 0xDFFF) ==> ReadEscape([0x75] + (h + rest)) == Some((Encode(v), rest))
  {
    hide Hex4, Encode;
    assert ([0x75] + (h + rest))[1..] == h + rest && (h + rest)[4..] == rest;
  }

  lemma PairEscape(h: Text, l: Text, rest: Text)
    requires |h| == 4 && |l| == 4
    requires Hex4(h + ([BACKSLASH, 0x75] + (l + rest))).Some? && Hex4(l + rest).Some?
    ensures var v, w := Hex4(h + ([BACKSLASH, 0x75] + (l + rest))).value, Hex4(l + rest).value;
      0xD800 <= v <= 0xDBFF && 0xDC00 <= w <= 0xDFFF ==>
        ReadEscape([0x75] + (h + ([BACKSLASH, 0x75] + (l + rest)))) == Some((Encode(0x10000 + (v - 0xD800) * 1024 + (w - 0xDC00)), rest))
  {
    hide Hex4, Encode;
    var u := h + ([BACKSLASH, 0x75] + (l + rest));
    assert ([0x75] + u)[1..] == u;
    assert u[4] == BACKSLASH && u[5] == 0x75 && u[6..] == l + rest && u[10..] == rest;
  }

  lemma HexFront(h: Text, rest: Text)
    requires |h| == 4
    ensures Hex4(h + rest).Some? <==> HexOk(h)
    ensures HexOk(h) ==> Hex4(h + rest).value == HexValue(h)
  {
    hide Hex4, HexOk, HexValue;
    HexIs(h + rest);
    assert (h + rest)[..4] == h;
  }

  /** The text of an escape, its backslash apart. */
  function EscTail(e: Esc, rest: Text): Text {
    match e
    case Letter(c) => [c] + rest
    case Unit(h) => [0x75] + (h + rest)
    case Pair(h, l) => [0x75] + (h + ([BACKSLASH, 0x75] + (l + rest)))
  }

  lemma PairText(h: Text, l: Text, rest: Text)
    ensures [BACKSLASH, 0x75] + h + [BACKSLASH, 0x75] + l + rest == [BACKSLASH] + ([0x75] + (h + ([BACKSLASH, 0x75] + (l + rest))))
    ensures [BACKSLASH, 0x75] + h + rest == [BACKSLASH] + ([0x75] + (h + rest))
  {
  }

  lemma EscTextIs(e: Esc, rest: Text)
    ensures EscText(e) + rest == [BACKSLASH] + EscTail(e, rest)
    ensures (EscText(e) + rest)[0] == BACKSLASH && (EscText(e) + rest)[1..] == EscTail(e, rest)
  {
    QuotesAre(0);
    hide Ascii;
    match e
    case Letter(c) => assert [BACKSLASH] + [c] + rest == [BACKSLASH] + ([c] + rest);
    case Unit(h) => PairText(h, [], rest);
    case Pair(h, l) => PairText(h, l, rest);
  }

  lemma HexLong(h: Text)
    requires HexOk(h)
    ensures |h| == 4
  {
  }

  /** An escape of the grammar is read whole, and means what the grammar says. */
  lemma EscParses(e: Esc, rest: Text)
    requires EscOk(e)
    ensures var t := EscText(e) + rest; t != [] && t[0] == BACKSLASH && ReadEscape(t[1..]) == Some((EscMeans(e), rest))
  {
    hide Hex4, HexOk, HexValue, Encode, LetterMeans, ShortEscape, ReadEscape, EscText;
    EscTextIs(e, rest);
    match e
    case Letter(c) =>
      LettersAre(c);
      LetterEscape(c, rest);
    case Unit(h) =>
      HexLong(h);
      HexFront(h, rest);
      UnitEscape(h, rest);
    case Pair(h, l) =>
      HexLong(h);
      HexLong(l);
      HexFront(h, [BACKSLASH, 0x75] + (l + rest));
      HexFront(l, rest);
      PairEscape(h, l, rest);
  }

  lemma UnicodeParts(s: Text)
    requires s != [] && s[0] == 0x75 && ReadEscape(s).Some?
    ensures |s| >= 5 && Hex4(s[1..]).Some? && var v := Hex4(s[1..]).value;
      if 0xD800 <= v <= 0xDBFF then
        && |s| >= 11 && s[5] == BACKSLASH && s[6] == 0x75 && Hex4(s[7..]).Some? && 0xDC00 <= Hex4(s[7..]).value <= 0xDFFF
      else v != 0 && !(0xD800 <= v <= 0xDFFF)
  {
    hide Encode, Hex4;
    if |s| >= 7 { assert s[1..][6..] == s[7..] && s[1..][4] == s[5] && s[1..][5] == s[6]; }
    HexShort(s[1..]);
    if 0xD800 <= Hex4(s[1..]).value <= 0xDBFF { HexShort(s[7..]); }
  }

  lemma HexShort(s: Text)
    requires Hex4(s).Some?
    ensures |s| >= 4
  {
    hide HexDigit;
  }

  lemma FourAt(s: Text)
    requires |s| >= 5 && s[0] == 0x75
    ensures s == [0x75] + (s[1..][..4] + s[5..])
    ensures |s| >= 11 && s[5] == BACKSLASH && s[6] == 0x75 ==>
      s == [0x75] + (s[1..][..4] + ([BACKSLASH, 0x75] + (s[7..][..4] + s[11..])))
  {
  }

  /** Whatever the parser reads as an escape is one of the grammar. */
  lemma EscFound(s: Text) returns (e: Esc, rest: Text)
    requires ReadEscape(s).Some?
    ensures EscOk(e) && s == EscTail(e, rest) && ReadEscape(s) == Some((EscMeans(e), rest))
  {
    if s[0] == 0x75 {
      UnicodeParts(s);
      hide ReadEscape, EscText;
      var v := Hex4(s[1..]).value;
      HexIs(s[1..]);
      hide Hex4, HexOk, HexValue;
      FourAt(s);
      var h := s[1..][..4];
      if 0xD800 <= v <= 0xDBFF {
        HexIs(s[7..]);
        e, rest := Pair(h, s[7..][..4]), s[11..];
      } else {
        e, rest := Unit(h), s[5..];
      }
    } else {
      e, rest := LetterFound(s);
    }
    hide ReadEscape, EscText, EscMeans, Encode, ShortEscape;
    EscParses(e, rest);
    EscTextIs(e, rest);
  }

  lemma LetterFound(s: Text) returns (e: Esc, rest: Text)
    requires ReadEscape(s).Some? && s[0] != 0x75
    ensures EscOk(e) && s == EscTail(e, rest)
  {
    LettersAre(s[0]);
    e, rest := Letter(s[0]), s[1..];
    assert s == [s[0]] + s[1..];
  }

  lemma RunFirst(run: Text, t: Text)
    requires RunOk(run) && t != [] && (t[0] == QUOTE || t[0] == BACKSLASH)
    ensures var w := run + t; Run(w) == |run| && w[..|run|] == run && w[|run|..] == t && Valid(w[..|run|]) && w[|run| + 1..] == t[1..]
  {
    hide Valid;
    RunOkIs(run);
    var w := run + t;
    assert w[..|run|] == run && w[|run|] == t[0];
    assert forall i :: 0 <= i < |run| ==> w[i] == run[i];
    RunIs(w, |run|);
  }

  /** Every literal of the grammar is read to its closing quote, and means what the
      grammar says. */
  lemma {:induction false} LitParses(l: Lit, rest: Text)
    requires LitOk(l)
    ensures Decode(LitText(l) + ([QUOTE] + rest)) == Some((LitMeans(l), rest))
    decreases l
  {
    hide Decode, RunOk, ReadEscape, EscText, EscMeans, EscOk, Run, Valid;
    var tail := [QUOTE] + rest;
    match l
    case Last(run) =>
      RunFirst(run, tail);
      assert tail[1..] == rest;
      DecodeEnds(run + tail);
    case Then(run, e, more) =>
      LitParses(more, rest);
      EscParses(e, LitText(more) + tail);
      var t := EscText(e) + (LitText(more) + tail);
      RunFirst(run, t);
      assert LitText(l) + tail == run + t;
      DecodeStep(run + t);
  }

  lemma {:induction false} DecodeShape(s: Text)
    requires Decode(s).Some?
    ensures var n := Run(s);
      && n < |s| && Valid(s[..n]) && (s[n] == QUOTE || s[n] == BACKSLASH)
      && (s[n] == BACKSLASH ==> ReadEscape(s[n + 1..]).Some? && Decode(ReadEscape(s[n + 1..]).value.1).Some?)
  {
    hide Valid, ReadEscape;
  }

  lemma SplitAt(s: Text, n: nat)
    requires n < |s|
    ensures s == s[..n] + ([s[n]] + s[n + 1..])
  {
  }

  lemma ThenText(run: Text, e: Esc, more: Lit, rest: Text, t: Text)
    requires t == LitText(more) + ([QUOTE] + rest)
    ensures LitText(Then(run, e, more)) + ([QUOTE] + rest) == run + (EscText(e) + t)
  {
    hide EscText;
  }

  /** Whatever the parser reads as a literal is one of the grammar. */
  lemma {:induction false} LitFound(s: Text) returns (l: Lit, rest: Text)
    requires Decode(s).Some?
    ensures LitOk(l) && s == LitText(l) + ([QUOTE] + rest) && Decode(s) == Some((LitMeans(l), rest))
    decreases |s|
  {
    hide Decode, ReadEscape, EscText, EscMeans, EscOk, EscTail, Valid, Run, RunOk, LitText, LitMeans;
    DecodeShape(s);
    var n := Run(s);
    RunPlain(s);
    SplitAt(s, n);
    if s[n] == QUOTE {
      l, rest := Last(s[..n]), s[n + 1..];
      LastText(s[..n]);
    } else {
      var e, t := EscFound(s[n + 1..]);
      var more;
      more, rest := LitFound(t);
      l := Then(s[..n], e, more);
      EscTextIs(e, t);
      ThenText(s[..n], e, more, rest, t);
    }
    LitParses(l, rest);
  }

  lemma RunPlain(s: Text)
    requires Valid(s[..Run(s)])
    ensures RunOk(s[..Run(s)])
  {
    hide Valid;
    RunOkIs(s[..Run(s)]);
  }

  lemma LastText(run: Text)
    ensures LitText(Last(run)) == run
  {
  }

  /** The string parser against the grammar, for every text. */
  lemma LiteralExactly(s: Text, t: Text, rest: Text)
    ensures Decode(s) == Some((t, rest)) <==> exists l: Lit :: LitOk(l) && s == LitText(l) + ([QUOTE] + rest) && t == LitMeans(l)
  {
    hide Decode, LitOk, LitText, LitMeans;
    if Decode(s) == Some((t, rest)) { var l, after := LitFound(s); }
    if l: Lit :| LitOk(l) && s == LitText(l) + ([QUOTE] + rest) && t == LitMeans(l) { LitParses(l, rest); }
  }

  // ---------------------------------------------------------------------
  // Printing
  // ---------------------------------------------------------------------

  /** The letter b stands for c. */
  predicate LetterFor(b: Byte, c: Byte) { OneOf(b, "\"\\/bfnrt") && LetterMeans(b) == c }

  predicate NoCapitals(h: Text) { forall i :: 0 <= i < |h| ==> !OneOf(h[i], "ABCDEF") }

  /** A byte that cannot stand for itself and has a letter is printed with it. */
  lemma EscapeLetter(c: Byte, b: Byte)
    requires !Plain(c) && LetterFor(b, c)
    ensures Escape(c) == Ascii("\\") + [b]
  {
    LettersAre(b);
    QuotesAre(b);
    hide OneOf, Ascii;
  }

  /** One that has none is printed as the four hexadecimal digits of its value. */
  lemma EscapeHex(c: Byte) returns (h: Text)
    requires !Plain(c) && forall b: Byte :: !LetterFor(b, c)
    ensures Escape(c) == Ascii("\\u") + h && HexOk(h) && HexValue(h) == c && NoCapitals(h)
  {
    hide OneOf, Ascii, Nibble, HexOk, HexValue;
    NoLetter(c);
    QuotesAre(c);
    var x, y := HexChar(c / 16), HexChar(c % 16);
    h := [0x30, 0x30, x, y];
    assert Escape(c) == [BACKSLASH, 0x75] + h;
    HexCharBack(c / 16);
    HexCharBack(c % 16);
    LowDigits(c, x, y);
    hide HexChar;
    LowerHex(0x30);
    LowerHex(x);
    LowerHex(y);
  }

  lemma NoLetter(c: Byte)
    requires forall b: Byte :: !LetterFor(b, c)
    ensures c != QUOTE && c != BACKSLASH && c != 8 && c != 9 && c != 10 && c != 12 && c != 13
  {
    LettersAre(QUOTE);
    LettersAre(BACKSLASH);
    LettersAre('b' as int);
    LettersAre('t' as int);
    LettersAre('n' as int);
    LettersAre('f' as int);
    LettersAre('r' as int);
    hide OneOf, Ascii;
    assert !LetterFor(QUOTE, c) && !LetterFor(BACKSLASH, c) && !LetterFor('b' as int, c) && !LetterFor('t' as int, c);
    assert !LetterFor('n' as int, c) && !LetterFor('f' as int, c) && !LetterFor('r' as int, c);
  }

  lemma LowDigits(c: Byte, x: Byte, y: Byte)
    requires HexDigit(x) == Some(c / 16) && HexDigit(y) == Some(c % 16)
    ensures var h: Text := [0x30, 0x30, x, y]; HexOk(h) && HexValue(h) == c
  {
    hide HexOk, HexValue;
    var h: Text := [0x30, 0x30, x, y];
    assert Hex4(h) == Some(c);
    HexIs(h);
    assert h[..4] == h;
  }

  /** What comes before a child: a comma if it is not the first, its line, and in a
      dictionary its key with a colon, and a space where the output is indented. */
  lemma LeadIs(j: Json, indent: nat, depth: nat, k: nat)
    requires k < Arity(j)
    ensures j.List? ==> Lead(j, indent, depth, k) == Comma(k) + Indent(indent, depth + 1)
    ensures j.Dict? ==>
      Lead(j, indent, depth, k) == Comma(k) + Indent(indent, depth + 1) + (PrintString(j.members[k].0) + (if indent > 0 then Ascii(": ") else Ascii(":")))
  {
    hide Indent, PrintString;
    assert Ascii(",") == [0x2C] && Ascii(":") == [0x3A] && Ascii(": ") == [0x3A] + [0x20];
    if j.Dict? {
      var t, gap := PrintString(j.members[k].0), if indent > 0 then [0x20] else [];
      assert t + [0x3A] + gap == t + ([0x3A] + gap);
    }
  }

  function Comma(k: nat): Text { if k > 0 then Ascii(",") else [] }
}
