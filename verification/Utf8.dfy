// Well-formed UTF-8 (Unicode 15.0, section 3.9), step by step.

module Utf8 {
  type Byte = b: int | 0 <= b < 256
  type Text = seq<Byte>

  /** How many bytes the well-formed sequence at the front has, 0 if none. */
  function Step(s: Text): (n: nat)
    requires s != []
    ensures n <= |s| && n <= 4
    ensures forall i :: 1 <= i < n ==> s[i] >= 0x80
  {
    var b := s[0];
    if b < 0x80 then 1
    else
      var trail := if 0xC2 <= b <= 0xDF then 1 else if 0xE0 <= b <= 0xEF then 2 else if 0xF0 <= b <= 0xF4 then 3 else 0;
      var lo := if b == 0xE0 then 0xA0 else if b == 0xF0 then 0x90 else 0x80;
      var hi := if b == 0xED then 0x9F else if b == 0xF4 then 0x8F else 0xBF;
      if trail == 0 || |s| <= trail || !(lo <= s[1] <= hi) then 0
      else if trail >= 2 && !(0x80 <= s[2] <= 0xBF) then 0
      else if trail == 3 && !(0x80 <= s[3] <= 0xBF) then 0
      else trail + 1
  }

  predicate Valid(s: Text) { s == [] || (Step(s) > 0 && Valid(s[Step(s)..])) }

  /** A sequence does not depend on what follows it. */
  lemma StepLocal(s: Text, t: Text)
    requires s != []
    ensures Step(s) > 0 ==> Step(s + t) == Step(s)
    ensures 0 < Step(s + t) <= |s| ==> Step(s) == Step(s + t)
  {
    var w := s + t;
    assert forall i :: 0 <= i < |s| ==> w[i] == s[i];
  }

  lemma {:induction false} ValidIs(s: Text)
    requires s != []
    ensures Valid(s) <==> Step(s) > 0 && Valid(s[Step(s)..])
  {
    hide Step;
  }

  lemma {:induction false} NoneValid()
    ensures Valid([])
  {
  }

  lemma ConcatFrom(a: Text, b: Text, n: nat)
    requires n <= |a|
    ensures (a + b)[n..] == a[n..] + b
  {
  }

  lemma {:induction false} ValidConcat(a: Text, b: Text)
    requires Valid(a) && Valid(b)
    ensures Valid(a + b)
    decreases |a|
  {
    hide Valid, Step;
    if a == [] { assert a + b == b; }
    else {
      StepLocal(a, b);
      var n := Step(a);
      ValidIs(a);
      ValidConcat(a[n..], b);
      ConcatFrom(a, b, n);
      ValidIs(a + b);
    }
  }

  /** An ASCII byte at a sequence's front is the sequence, and it is at no other
      place of one. */
  lemma StepToAscii(a: Text, c: Byte, b: Text)
    requires c < 0x80
    ensures a == [] ==> Step([c] + b) == 1
    ensures a != [] ==> Step(a + ([c] + b)) <= |a|
  {
    var w := a + ([c] + b);
    assert w[|a|] == c;
  }

  /** An ASCII byte is never inside a sequence. */
  lemma {:induction false} ValidSplit(a: Text, c: Byte, b: Text)
    requires c < 0x80 && Valid(a + [c] + b)
    ensures Valid(a) && Valid(b)
    decreases |a|
  {
    hide Valid, Step;
    var t := [c] + b;
    assert a + [c] + b == a + t;
    StepToAscii(a, c, b);
    ValidIs(a + t);
    if a == [] {
      assert a + t == t && t[1..] == b;
      NoneValid();
    } else {
      StepLocal(a, t);
      var n := Step(a);
      ConcatFrom(a, t, n);
      assert a[n..] + t == a[n..] + [c] + b;
      ValidSplit(a[n..], c, b);
      ValidIs(a);
    }
  }

  predicate Scalar(cp: nat) { 0 < cp <= 0x10FFFF && !(0xD800 <= cp <= 0xDFFF) }

  /** The encoding of a code point. */
  function Encode(cp: nat): (s: Text)
    requires Scalar(cp)
  {
    if cp <= 0x7F then [cp]
    else if cp <= 0x7FF then [0xC0 + cp / 64, 0x80 + cp % 64]
    else if cp <= 0xFFFF then [0xE0 + cp / 4096, 0x80 + cp / 64 % 64, 0x80 + cp % 64]
    else [0xF0 + cp / 262144, 0x80 + cp / 4096 % 64, 0x80 + cp / 64 % 64, 0x80 + cp % 64]
  }

  /** A sequence of two or three bytes, and one of four. */
  lemma ShortSequence(cp: nat)
    requires Scalar(cp) && cp <= 0xFFFF
    ensures Step(Encode(cp)) == |Encode(cp)| && forall i :: 0 <= i < |Encode(cp)| ==> Encode(cp)[i] != 0
  {
  }

  lemma LongSequence(cp: nat)
    requires Scalar(cp) && cp > 0xFFFF
    ensures Step(Encode(cp)) == |Encode(cp)| && forall i :: 0 <= i < |Encode(cp)| ==> Encode(cp)[i] != 0
  {
  }

  lemma EncodeValid(cp: nat)
    requires Scalar(cp)
    ensures Valid(Encode(cp)) && forall i :: 0 <= i < |Encode(cp)| ==> Encode(cp)[i] != 0
  {
    if cp <= 0xFFFF { ShortSequence(cp); } else { LongSequence(cp); }
    var s := Encode(cp);
    assert s != [];
    hide Encode, Step, Valid;
    ValidIs(s);
    assert s[|s|..] == [];
    NoneValid();
  }

  /** Every accepted sequence is the encoding of a code point: no overlong form, no
      surrogate, nothing past U+10FFFF. */
  lemma StepIsEncoding(s: Text) returns (cp: nat)
    requires s != [] && Step(s) > 0 && s[0] != 0
    ensures Scalar(cp) && s[..Step(s)] == Encode(cp)
  {
    var n := Step(s);
    if n == 1 { cp := s[0]; }
    else if n == 2 { cp := TwoBytes(s[0], s[1]); }
    else if n == 3 { cp := ThreeBytes(s[0], s[1], s[2]); }
    else { cp := FourBytes(s[0], s[1], s[2], s[3]); }
  }

  lemma TwoBytes(a: Byte, b: Byte) returns (cp: nat)
    requires 0xC2 <= a <= 0xDF && 0x80 <= b <= 0xBF
    ensures Scalar(cp) && Encode(cp) == [a, b]
  {
    cp := (a - 0xC0) * 64 + (b - 0x80);
    assert cp / 64 == a - 0xC0 && cp % 64 == b - 0x80;
  }

  lemma ThreeBytes(a: Byte, b: Byte, c: Byte) returns (cp: nat)
    requires 0xE0 <= a <= 0xEF && 0x80 <= b <= 0xBF && 0x80 <= c <= 0xBF && (a == 0xE0 ==> b >= 0xA0) && (a == 0xED ==> b <= 0x9F)
    ensures Scalar(cp) && Encode(cp) == [a, b, c]
  {
    var v := (a - 0xE0) * 64 + (b - 0x80);
    cp := v * 64 + (c - 0x80);
    assert cp / 64 == v && cp % 64 == c - 0x80 && v / 64 == a - 0xE0 && v % 64 == b - 0x80;
    assert cp / 4096 == v / 64;
  }

  lemma FourBytes(a: Byte, b: Byte, c: Byte, d: Byte) returns (cp: nat)
    requires 0xF0 <= a <= 0xF4 && 0x80 <= b <= 0xBF && 0x80 <= c <= 0xBF && 0x80 <= d <= 0xBF
    requires (a == 0xF0 ==> b >= 0x90) && (a == 0xF4 ==> b <= 0x8F)
    ensures Scalar(cp) && Encode(cp) == [a, b, c, d]
  {
    var u := (a - 0xF0) * 64 + (b - 0x80);
    var v := u * 64 + (c - 0x80);
    cp := v * 64 + (d - 0x80);
    assert cp / 64 == v && cp % 64 == d - 0x80 && v / 64 == u && v % 64 == c - 0x80 && u / 64 == a - 0xF0 && u % 64 == b - 0x80;
    assert cp / 4096 == v / 64 && cp / 262144 == cp / 4096 / 64;
  }

  /** The number whose bits are those of first and, six from each, those of tail. */
  function Joined(first: nat, tail: Text): nat {
    if tail == [] then first else Joined(first, tail[..|tail| - 1]) * 0x40 + tail[|tail| - 1] % 0x40
  }

  /** The bits of an encoding are those of its code point, six in each byte after
      the first. */
  lemma EncodingBits(cp: nat)
    requires Scalar(cp)
    ensures var s := Encode(cp);
      && |s| == (if cp < 0x80 then 1 else if cp < 0x800 then 2 else if cp < 0x10000 then 3 else 4)
      && (forall i :: 1 <= i < |s| ==> 0x80 <= s[i] < 0xC0)
      && s[0] >= (if |s| == 1 then 0 else if |s| == 2 then 0xC0 else if |s| == 3 then 0xE0 else 0xF0)
      && cp == Joined(if |s| == 1 then s[0] else if |s| == 2 then s[0] % 0x20 else if |s| == 3 then s[0] % 0x10 else s[0] % 8, s[1..])
  {
    if cp < 0x80 { assert Joined(cp, []) == cp; }
    else if cp < 0x800 { JoinedTwo(cp); }
    else if cp < 0x10000 { JoinedThree(cp); }
    else { JoinedFour(cp); }
  }

  lemma LastJoined(first: nat, t: Text, b: Byte)
    ensures Joined(first, t + [b]) == Joined(first, t) * 0x40 + b % 0x40
  {
    assert (t + [b])[..|t|] == t;
  }

  lemma JoinedTwo(cp: nat)
    requires 0x80 <= cp < 0x800
    ensures var s := Encode(cp); |s| == 2 && cp == Joined(s[0] % 0x20, s[1..])
  {
    var s := Encode(cp);
    LastJoined(s[0] % 0x20, [], s[1]);
    assert s[1..] == [] + [s[1]];
  }

  lemma JoinedThree(cp: nat)
    requires 0x800 <= cp < 0x10000 && Scalar(cp)
    ensures var s := Encode(cp); |s| == 3 && cp == Joined(s[0] % 0x10, s[1..])
  {
    var a := cp / 4096;
    var s: Text := [0xE0 + a, 0x80 + cp / 64 % 64, 0x80 + cp % 64];
    assert Encode(cp) == s;
    JoinedOf(a, s[1], s[2]);
    assert s[1..] == [s[1], s[2]];
    Sixths(cp);
    LastSix(cp / 64 % 64);
    LastSix(cp % 64);
    FirstBits(a);
    hide *;
  }

  lemma JoinedFour(cp: nat)
    requires 0x10000 <= cp <= 0x10FFFF
    ensures var s := Encode(cp); |s| == 4 && cp == Joined(s[0] % 8, s[1..])
  {
    var a := cp / 262144;
    var s: Text := [0xF0 + a, 0x80 + cp / 4096 % 64, 0x80 + cp / 64 % 64, 0x80 + cp % 64];
    assert a <= 4 && Encode(cp) == s;
    hide *;
    JoinedOf(a, s[1], s[2]);
    LastJoined(a, [s[1], s[2]], s[3]);
    assert s[1..] == [s[1], s[2]] + [s[3]];
    Sixths(cp);
    LastSix(cp / 4096 % 64);
    LastSix(cp / 64 % 64);
    LastSix(cp % 64);
    FirstBits(a);
  }

  lemma JoinedOf(first: nat, b: Byte, c: Byte)
    ensures Joined(first, [b, c]) == (first * 0x40 + b % 0x40) * 0x40 + c % 0x40
  {
    LastJoined(first, [], b);
    LastJoined(first, [b], c);
    assert [] + [b] == [b] && [b] + [c] == [b, c];
  }

  lemma FirstBits(a: nat)
    requires a < 16
    ensures (0xE0 + a) % 0x10 == a && (a < 8 ==> (0xF0 + a) % 8 == a)
  {
  }

  lemma LastSix(v: nat)
    requires v < 64
    ensures (0x80 + v) % 0x40 == v
  {
  }

  lemma Sixths(n: nat)
    ensures n / 4096 == n / 64 / 64 && n / 262144 == n / 4096 / 64
    ensures n == n / 64 * 64 + n % 64 && n / 64 == n / 4096 * 64 + n / 64 % 64 && n / 4096 == n / 262144 * 64 + n / 4096 % 64
  {
  }

  lemma {:induction false} AsciiValid(s: Text)
    requires forall i :: 0 <= i < |s| ==> s[i] < 0x80
    ensures Valid(s)
    decreases |s|
  {
    if s != [] { AsciiValid(s[1..]); }
  }
}
