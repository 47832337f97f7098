// Base64 in its one canonical form (sections 3.5 and 4 of RFC 4648), and the
// Basic credentials built on it (section 2 of RFC 7617).

module Base64 {
  import opened Options

  type Byte = b: int | 0 <= b < 256
  type Bytes = seq<Byte>

  const PAD: Byte := 0x3D
  const COLON: Byte := 0x3A

  // ---------------------------------------------------------------------
  // The alphabet
  // ---------------------------------------------------------------------

  /** The letter of a six-bit value. */
  function Letter(v: nat): Byte
    requires v < 64
  {
    if v < 26 then 0x41 + v else if v < 52 then 0x61 + v - 26 else if v < 62 then 0x30 + v - 52 else if v == 62 then 0x2B else 0x2F
  }

  function Value(c: Byte): Option<nat> {
    if 0x41 <= c <= 0x5A then Some(c - 0x41)
    else if 0x61 <= c <= 0x7A then Some(c - 0x61 + 26)
    else if 0x30 <= c <= 0x39 then Some(c - 0x30 + 52)
    else if c == 0x2B then Some(62)
    else if c == 0x2F then Some(63)
    else None
  }

  /** The alphabet of table 1 of RFC 4648, in order. */
  function Alphabet(): string { "ABCDEFGHIJKLM" + "NOPQRSTUVWXYZ" + "abcdefghijklm" + "nopqrstuvwxyz" + "0123456789+/" }

  lemma LettersAreTheAlphabet(v: nat)
    requires v < 64
    ensures |Alphabet()| == 64 && Letter(v) == Alphabet()[v] as int
  {
    var a, b, c, d, e := "ABCDEFGHIJKLM", "NOPQRSTUVWXYZ", "abcdefghijklm", "nopqrstuvwxyz", "0123456789+/";
    assert Alphabet() == a + b + c + d + e;
    if v < 13 { assert Alphabet()[v] == a[v]; }
    else if v < 26 { assert Alphabet()[v] == b[v - 13]; }
    else if v < 39 { assert Alphabet()[v] == c[v - 26]; }
    else if v < 52 { assert Alphabet()[v] == d[v - 39]; }
    else { assert Alphabet()[v] == e[v - 52]; }
  }

  /** The text of one group, by the bits of its bytes: the k-th letter stands for
      bits 6 * k to 6 * k + 5 of the three bytes, the missing ones being zero. */
  lemma GroupBits(x: Bytes)
    requires 0 < |x| <= 3
    ensures var b := if |x| > 1 then x[1] else 0; var c := if |x| > 2 then x[2] else 0;
      var bits: nat := Bits(x[0], b, c);
      && EncodeGroup(x)[0] == Letter(bits / 262144)
      && EncodeGroup(x)[1] == Letter(bits / 4096 % 64)
      && EncodeGroup(x)[2] == (if |x| > 1 then Letter(bits / 64 % 64) else '=' as int)
      && EncodeGroup(x)[3] == (if |x| > 2 then Letter(bits % 64) else '=' as int)
  {
    var b := if |x| > 1 then x[1] else 0;
    var c := if |x| > 2 then x[2] else 0;
    Sextets(x[0], b, c);
    hide Letter;
  }

  /** Three bytes as one number. */
  function Bits(a: nat, b: nat, c: nat): nat { a * 65536 + b * 256 + c }

  lemma Sextets(a: Byte, b: Byte, c: Byte)
    ensures var bits := Bits(a, b, c);
      && bits / 262144 == a / 4 && bits / 4096 % 64 == a % 4 * 16 + b / 16
      && bits / 64 % 64 == b % 16 * 4 + c / 64 && bits % 64 == c % 64
  {
    var q := Taken(a, 4);
    var r := Taken(b, 16);
    var h := Taken(c, 64);
    var l, t, m := a % 4, b % 16, c % 64;
    var u := q * 64 + l * 16 + r;
    var w := u * 64 + t * 4 + h;
    SixBits(w * 64 + m, w, m);
    SixBits(w, u, t * 4 + h);
    SixBits(u, q, l * 16 + r);
    Sixths(w * 64 + m);
    assert Bits(a, b, c) == w * 64 + m;
  }

  /** The quotient as a number of its own. */
  lemma Taken(a: Byte, d: nat) returns (q: nat)
    requires d == 4 || d == 16 || d == 64
    ensures q == a / d && a == q * d + a % d && a % d < d && q < 256 / d
  {
    q := a / d;
  }

  lemma Sixths(n: nat)
    ensures n / 4096 == n / 64 / 64 && n / 262144 == n / 64 / 64 / 64
  {
  }

  lemma SixBits(v: nat, q: nat, r: nat)
    requires v == 64 * q + r && r < 64
    ensures v % 64 == r && v / 64 == q
  {
  }

  lemma LetterValue(v: nat)
    requires v < 64
    ensures Value(Letter(v)) == Some(v) && Letter(v) != PAD
  {
  }

  lemma ValueLetter(c: Byte)
    requires Value(c).Some?
    ensures Value(c).value < 64 && Letter(Value(c).value) == c && c != PAD
  {
  }

  // ---------------------------------------------------------------------
  // Encoding
  // ---------------------------------------------------------------------

  /** The four letters of a group of one to three bytes. */
  function EncodeGroup(x: Bytes): (t: Bytes)
    requires 0 < |x| <= 3
    ensures |t| == 4
  {
    if |x| == 1 then [Letter(x[0] / 4), Letter(x[0] % 4 * 16), PAD, PAD]
    else if |x| == 2 then [Letter(x[0] / 4), Letter(x[0] % 4 * 16 + x[1] / 16), Letter(x[1] % 16 * 4), PAD]
    else [Letter(x[0] / 4), Letter(x[0] % 4 * 16 + x[1] / 16), Letter(x[1] % 16 * 4 + x[2] / 64), Letter(x[2] % 64)]
  }

  /** The length of the text of n bytes. */
  function TextLength(n: nat): nat { (n + 2) / 3 * 4 }

  function Encode(x: Bytes): (t: Bytes)
    ensures |t| == TextLength(|x|)
  {
    if x == [] then [] else if |x| <= 3 then EncodeGroup(x) else EncodeGroup(x[..3]) + Encode(x[3..])
  }

  // ---------------------------------------------------------------------
  // Decoding
  // ---------------------------------------------------------------------

  /** One group of four characters. Padding may only end the last group, and the
      bits it leaves over must be zero. */
  function DecodeGroup(g: Bytes, last: bool): (r: Option<Bytes>)
    requires |g| == 4
    ensures r.Some? ==> 0 < |r.value| <= 3 && (!last ==> |r.value| == 3)
  {
    var a, b := Value(g[0]), Value(g[1]);
    if a.None? || b.None? then None
    else if g[2] == PAD then
      if !last || g[3] != PAD || b.value % 16 != 0 then None else Some([a.value * 4 + b.value / 16])
    else
      var c := Value(g[2]);
      if c.None? then None
      else if g[3] == PAD then
        if !last || c.value % 4 != 0 then None else Some([a.value * 4 + b.value / 16, b.value % 16 * 16 + c.value / 4])
      else
        var d := Value(g[3]);
        if d.None? then None
        else Some([a.value * 4 + b.value / 16, b.value % 16 * 16 + c.value / 4, c.value % 4 * 64 + d.value])
  }

  function Decode(s: Bytes): Option<Bytes> {
    if s == [] then Some([])
    else if |s| < 4 then None
    else if |s| == 4 then DecodeGroup(s, true)
    else
      match DecodeGroup(s[..4], false)
      case None => None
      case Some(x) =>
        match Decode(s[4..]) case None => None case Some(y) => Some(x + y)
  }

  // ---------------------------------------------------------------------
  // Each byte string has exactly one accepted text
  // ---------------------------------------------------------------------

  /** Two bits of one byte before four of the next, taken apart again. */
  lemma TwoAndFour(a: Byte, h: nat)
    requires h < 16
    ensures var v := a % 4 * 16 + h; v / 16 == a % 4 && v % 16 == h && a / 4 * 4 + v / 16 == a
  {
  }

  /** Four bits of one byte before two of the next. */
  lemma FourAndTwo(b: Byte, h: nat)
    requires h < 4
    ensures var v := b % 16 * 4 + h; v / 4 == b % 16 && v % 4 == h && b / 16 * 16 + v / 4 == b
  {
  }

  lemma OneBack(x: Bytes)
    requires |x| == 1
    ensures DecodeGroup(EncodeGroup(x), true) == Some(x)
  {
    hide Letter, Value;
    LetterValue(x[0] / 4);
    LetterValue(x[0] % 4 * 16);
    TwoAndFour(x[0], 0);
    assert x == [x[0]];
  }

  lemma TwoBack(x: Bytes)
    requires |x| == 2
    ensures DecodeGroup(EncodeGroup(x), true) == Some(x)
  {
    hide Letter, Value;
    LetterValue(x[0] / 4);
    LetterValue(x[0] % 4 * 16 + x[1] / 16);
    LetterValue(x[1] % 16 * 4);
    TwoAndFour(x[0], x[1] / 16);
    FourAndTwo(x[1], 0);
    assert x == [x[0], x[1]];
  }

  lemma ThreeBack(x: Bytes, last: bool)
    requires |x| == 3
    ensures DecodeGroup(EncodeGroup(x), last) == Some(x)
  {
    hide Letter, Value;
    LetterValue(x[0] / 4);
    LetterValue(x[0] % 4 * 16 + x[1] / 16);
    LetterValue(x[1] % 16 * 4 + x[2] / 64);
    LetterValue(x[2] % 64);
    TwoAndFour(x[0], x[1] / 16);
    FourAndTwo(x[1], x[2] / 64);
    assert x == [x[0], x[1], x[2]];
  }

  lemma GroupBack(x: Bytes, last: bool)
    requires 0 < |x| <= 3 && (last || |x| == 3)
    ensures DecodeGroup(EncodeGroup(x), last) == Some(x)
  {
    hide EncodeGroup, DecodeGroup;
    if |x| == 1 { OneBack(x); } else if |x| == 2 { TwoBack(x); } else { ThreeBack(x, last); }
  }

  lemma {:induction false} DecodeEncode(x: Bytes)
    ensures Decode(Encode(x)) == Some(x)
  {
    hide EncodeGroup, DecodeGroup, TextLength;
    if x == [] {}
    else if |x| <= 3 { GroupBack(x, true); }
    else {
      GroupBack(x[..3], false);
      DecodeEncode(x[3..]);
      var t := Encode(x);
      assert t[..4] == EncodeGroup(x[..3]) && t[4..] == Encode(x[3..]);
      assert x[..3] + x[3..] == x;
    }
  }

  /** The bytes of six-bit values, taken apart into those values again. */
  lemma SixAndTwo(a: nat, b: nat)
    requires a < 64 && b < 64
    ensures var v := a * 4 + b / 16; v < 256 && v / 4 == a && v % 4 * 16 + b % 16 == b && v % 4 == b / 16
  {
  }

  lemma FourAndFour(b: nat, c: nat)
    requires b < 64 && c < 64
    ensures var v := b % 16 * 16 + c / 4; v < 256 && v / 16 == b % 16 && v % 16 == c / 4 && v % 16 * 4 + c % 4 == c
  {
  }

  lemma TwoAndSix(c: nat, d: nat)
    requires c < 64 && d < 64
    ensures var v := c % 4 * 64 + d; v < 256 && v / 64 == c % 4 && v % 64 == d
  {
  }

  lemma PaddedTwice(g: Bytes)
    requires |g| == 4 && g[2] == PAD && DecodeGroup(g, true).Some?
    ensures EncodeGroup(DecodeGroup(g, true).value) == g
  {
    hide Letter, Value;
    ValueLetter(g[0]);
    ValueLetter(g[1]);
    SixAndTwo(Value(g[0]).value, Value(g[1]).value);
  }

  lemma PaddedOnce(g: Bytes)
    requires |g| == 4 && g[2] != PAD && g[3] == PAD && DecodeGroup(g, true).Some?
    ensures EncodeGroup(DecodeGroup(g, true).value) == g
  {
    hide Letter, Value;
    ValueLetter(g[0]);
    ValueLetter(g[1]);
    ValueLetter(g[2]);
    SixAndTwo(Value(g[0]).value, Value(g[1]).value);
    FourAndFour(Value(g[1]).value, Value(g[2]).value);
  }

  lemma Unpadded(g: Bytes, last: bool)
    requires |g| == 4 && g[2] != PAD && g[3] != PAD && DecodeGroup(g, last).Some?
    ensures EncodeGroup(DecodeGroup(g, last).value) == g
  {
    hide Letter, Value;
    ValueLetter(g[0]);
    ValueLetter(g[1]);
    ValueLetter(g[2]);
    ValueLetter(g[3]);
    SixAndTwo(Value(g[0]).value, Value(g[1]).value);
    FourAndFour(Value(g[1]).value, Value(g[2]).value);
    TwoAndSix(Value(g[2]).value, Value(g[3]).value);
  }

  lemma PaddingEnds(g: Bytes, last: bool)
    requires |g| == 4 && DecodeGroup(g, last).Some?
    ensures g[2] == PAD || g[3] == PAD ==> last
  {
    hide Value;
  }

  /** A group that is accepted is the one its bytes are written as. */
  lemma GroupCanonical(g: Bytes, last: bool)
    requires |g| == 4 && DecodeGroup(g, last).Some?
    ensures EncodeGroup(DecodeGroup(g, last).value) == g
  {
    hide EncodeGroup, DecodeGroup;
    PaddingEnds(g, last);
    if g[2] == PAD { PaddedTwice(g); } else if g[3] == PAD { PaddedOnce(g); } else { Unpadded(g, last); }
  }

  lemma {:induction false} EncodeDecode(s: Bytes)
    requires Decode(s).Some?
    ensures Encode(Decode(s).value) == s
  {
    hide EncodeGroup, DecodeGroup, TextLength;
    if s == [] {}
    else if |s| == 4 { GroupCanonical(s, true); }
    else {
      GroupCanonical(s[..4], false);
      EncodeDecode(s[4..]);
      var x, y := DecodeGroup(s[..4], false).value, Decode(s[4..]).value;
      if y == [] { EncodeNothing(); }
      assert (x + y)[..3] == x && (x + y)[3..] == y;
      assert s[..4] + s[4..] == s;
    }
  }

  lemma EncodeNothing()
    ensures Encode([]) == []
  {
  }

  /** Comparing texts is comparing bytes. */
  lemma OneTextEach(s: Bytes, t: Bytes)
    requires Decode(s).Some? && Decode(t).Some?
    ensures Decode(s) == Decode(t) <==> s == t
  {
    EncodeDecode(s);
    EncodeDecode(t);
  }

  // ---------------------------------------------------------------------
  // The loops over buffers
  // ---------------------------------------------------------------------

  /** The text of whole groups and then more is the texts one after the other. */
  lemma {:induction false} EncodeConcat(a: Bytes, b: Bytes, g: nat)
    requires |a| == 3 * g
    ensures Encode(a + b) == Encode(a) + Encode(b)
    decreases g
  {
    hide EncodeGroup, Encode, TextLength;
    if g == 0 {
      EncodeNothing();
      assert a + b == b && a == [] && [] + Encode(b) == Encode(b);
    } else {
      FirstGroup(a, b);
      EncodeConcat(a[3..], b, g - 1);
      EncodeStep(a + b);
      EncodeStep(a);
      Assoc(EncodeGroup(a[..3]), Encode(a[3..]), Encode(b));
    }
  }

  lemma FirstGroup(a: Bytes, b: Bytes)
    requires |a| >= 3
    ensures (a + b)[..3] == a[..3] && (a + b)[3..] == a[3..] + b
  {
  }

  lemma Assoc(a: Bytes, b: Bytes, c: Bytes)
    ensures a + (b + c) == (a + b) + c
  {
  }

  lemma EncodeOnly(g: Bytes)
    requires 0 < |g| <= 3
    ensures Encode([]) == [] && Encode(g) == EncodeGroup(g) && [] + EncodeGroup(g) == EncodeGroup(g)
  {
  }

  lemma {:induction false} EncodeStep(x: Bytes)
    requires |x| >= 3
    ensures Encode(x) == EncodeGroup(x[..3]) + Encode(x[3..])
  {
    if |x| == 3 { assert x[..3] == x && x[3..] == []; }
  }

  /** Writes a group's letters into the buffer. */
  method WriteFour(out: array<Byte>, at: nat, four: Bytes)
    requires |four| == 4 && at + 4 <= out.Length
    modifies out
    ensures out[..at + 4] == old(out[..at]) + four
  {
    out[at], out[at + 1], out[at + 2], out[at + 3] := four[0], four[1], four[2], four[3];
    assert forall k :: 0 <= k < at ==> out[k] == old(out[..at])[k];
  }

  /** Encodes the bytes from i to j, the group after the first g, behind the text
      of those before. */
  method PutGroup(x: Bytes, i: nat, j: nat, out: array<Byte>, at: nat, ghost g: nat)
    requires i == 3 * g && i < j <= |x| && j <= i + 3
    requires at + 4 <= out.Length && out[..at] == Encode(x[..i])
    modifies out
    ensures out[..at + 4] == Encode(x[..j])
  {
    hide EncodeGroup, Encode, TextLength;
    EncodeConcat(x[..i], x[i..j], g);
    EncodeOnly(x[i..j]);
    assert x[..j] == x[..i] + x[i..j];
    WriteFour(out, at, EncodeGroup(x[i..j]));
  }

  /** Every group has its place in the text, and the last one ends it. */
  lemma GroupsFit(n: nat, g: nat)
    ensures n == 3 * g ==> TextLength(n) == 4 * g
    ensures 3 * g < n ==> 4 * g + 4 <= TextLength(n)
    ensures 3 * g < n < 3 * g + 3 ==> 4 * g + 4 == TextLength(n)
  {
  }

  /** Encodes into a buffer of exactly the text's length. */
  method EncodeLoop(x: Bytes) returns (out: array<Byte>)
    ensures fresh(out) && out[..] == Encode(x)
  {
    hide Encode, TextLength;
    out := new Byte[TextLength(|x|)](_ => 0);
    var i, at := 0, 0;
    ghost var g := 0;
    NothingEncoded(x);
    GroupsFit(|x|, g);
    while i + 3 <= |x|
      invariant i == 3 * g <= |x| && at == 4 * g <= out.Length && out[..at] == Encode(x[..i])
    {
      GroupsFit(|x|, g);
      PutGroup(x, i, i + 3, out, at, g);
      i, at, g := i + 3, at + 4, g + 1;
    }
    GroupsFit(|x|, g);
    if i < |x| {
      PutGroup(x, i, |x|, out, at, g);
      at := at + 4;
    }
    assert x[..|x|] == x && out[..at] == out[..];
  }

  lemma NothingEncoded(x: Bytes)
    ensures Encode(x[..0]) == []
  {
  }

  /** Decodes group by group, giving up at the first that is not canonical. */
  method DecodeLoop(s: Bytes) returns (r: Option<Bytes>)
    ensures r == Decode(s)
  {
    hide DecodeGroup;
    if |s| % 4 != 0 {
      RaggedRefused(s);
      return None;
    }
    var out: Bytes, t := [], s;
    AfterNothing(Decode(s));
    while t != []
      invariant |t| % 4 == 0 && Decode(s) == After(out, Decode(t))
      decreases |t|
    {
      var g := DecodeGroup(t[..4], |t| == 4);
      DecodeOne(t);
      if g.None? { return None; }
      ghost var rest := Decode(t[4..]);
      assert rest.Some? ==> out + (g.value + rest.value) == out + g.value + rest.value;
      out, t := out + g.value, t[4..];
    }
    assert out + [] == out;
    r := Some(out);
  }

  /** Decoded bytes with more in front. */
  function After(out: Bytes, r: Option<Bytes>): Option<Bytes> { match r case None => None case Some(y) => Some(out + y) }

  lemma AfterNothing(r: Option<Bytes>)
    ensures After([], r) == r
  {
    if r.Some? { assert [] + r.value == r.value; }
  }

  lemma {:induction false} DecodeOne(t: Bytes)
    requires |t| >= 4
    ensures Decode(t) ==
      match DecodeGroup(t[..4], |t| == 4)
      case None => None
      case Some(x) => match Decode(t[4..]) case None => None case Some(y) => Some(x + y)
  {
    hide DecodeGroup;
    if |t| == 4 {
      assert t[..4] == t && t[4..] == [];
      if DecodeGroup(t, true).Some? { assert DecodeGroup(t, true).value + [] == DecodeGroup(t, true).value; }
    }
  }

  lemma {:induction false} RaggedRefused(s: Bytes)
    requires |s| % 4 != 0
    ensures Decode(s) == None
  {
    hide DecodeGroup;
    if |s| > 4 { RaggedRefused(s[4..]); }
  }

  // ---------------------------------------------------------------------
  // Basic credentials
  // ---------------------------------------------------------------------

  predicate HasControl(s: Bytes) { exists i :: 0 <= i < |s| && (s[i] < 0x20 || s[i] == 0x7F) }

  function Basic(): Bytes { [0x42, 0x61, 0x73, 0x69, 0x63, 0x20] }

  /** The header value for a user and a password, or nothing where no recipient
      could read them back. */
  function BasicAuth(user: Bytes, password: Bytes): Option<Bytes> {
    if COLON in user || HasControl(user) || HasControl(password) then None
    else Some(Basic() + Encode(user + [COLON] + password))
  }

  /** How a recipient cuts: at the first colon. */
  function CutAtColon(s: Bytes): Option<(Bytes, Bytes)> {
    if s == [] then None
    else if s[0] == COLON then Some(([], s[1..]))
    else match CutAtColon(s[1..]) case None => None case Some((u, p)) => Some(([s[0]] + u, p))
  }

  lemma {:induction false} CutBack(user: Bytes, password: Bytes)
    requires COLON !in user
    ensures CutAtColon(user + [COLON] + password) == Some((user, password))
  {
    var s := user + [COLON] + password;
    if user == [] {
      assert s[1..] == password;
    } else {
      CutBack(user[1..], password);
      assert s[1..] == user[1..] + [COLON] + password;
      assert [user[0]] + user[1..] == user;
    }
  }

  /** What the recipient of the header reads. */
  function ReadBasic(header: Bytes): Option<(Bytes, Bytes)> {
    if |header| < 6 || header[..6] != Basic() then None
    else match Decode(header[6..]) case None => None case Some(x) => CutAtColon(x)
  }

  /** The recipient reads back exactly the user and the password: the header is
      built when, and only when, that can be, and no two pairs share one. */
  lemma BasicRoundTrip(user: Bytes, password: Bytes)
    ensures BasicAuth(user, password).Some? <==>
      && ':' as int !in user
      && forall i :: 0 <= i < |user + password| ==> (user + password)[i] >= 0x20 && (user + password)[i] != 0x7F
    ensures BasicAuth(user, password).Some? ==>
      var h := BasicAuth(user, password).value;
      && |h| >= 6 && (forall i :: 0 <= i < 6 ==> h[i] == "Basic "[i] as int)
      && Decode(h[6..]) == Some(user + [':' as int] + password)
    ensures BasicAuth(user, password).Some? ==> ReadBasic(BasicAuth(user, password).value) == Some((user, password))
  {
    ControlsIn(user, password);
    if BasicAuth(user, password).Some? {
      var x := user + [COLON] + password;
      var h := Basic() + Encode(x);
      assert h[..6] == Basic() && h[6..] == Encode(x);
      DecodeEncode(x);
      CutBack(user, password);
    }
  }

  lemma ControlsIn(a: Bytes, b: Bytes)
    ensures !HasControl(a) && !HasControl(b) <==> forall i :: 0 <= i < |a + b| ==> (a + b)[i] >= 0x20 && (a + b)[i] != 0x7F
  {
    if !HasControl(a) && !HasControl(b) {
    } else if HasControl(a) {
      var i :| 0 <= i < |a| && (a[i] < 0x20 || a[i] == 0x7F);
      assert (a + b)[i] == a[i];
    } else {
      var i :| 0 <= i < |b| && (b[i] < 0x20 || b[i] == 0x7F);
      assert (a + b)[|a| + i] == b[i];
    }
  }

  /** Why a colon in the user is refused: it would name someone else. */
  lemma ColonWouldConfuse(a: Bytes, b: Bytes, c: Bytes)
    requires COLON !in a
    ensures CutAtColon((a + [COLON] + b) + [COLON] + c) == Some((a, b + [COLON] + c))
  {
    assert (a + [COLON] + b) + [COLON] + c == a + [COLON] + (b + [COLON] + c);
    CutBack(a, b + [COLON] + c);
  }
}
