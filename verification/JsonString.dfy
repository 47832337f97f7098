// JSON string literals: decoding with escapes, the two-pass parser, printing,
// and the round trip.

module JsonString {
  import opened Options
  import opened Utf8

  const QUOTE: Byte := 0x22
  const BACKSLASH: Byte := 0x5C

  /** A byte that stands for itself inside a literal. */
  predicate Plain(c: Byte) { c != QUOTE && c != BACKSLASH && c >= 0x20 }

  /** The length of the run of plain bytes at the front. */
  function Run(s: Text): (n: nat)
    ensures n <= |s| && (n < |s| ==> !Plain(s[n]))
    ensures forall i :: 0 <= i < n ==> Plain(s[i])
  {
    if s == [] || !Plain(s[0]) then 0 else 1 + Run(s[1..])
  }

  lemma {:induction false} RunIs(s: Text, n: nat)
    requires n <= |s| && (n < |s| ==> !Plain(s[n])) && forall i :: 0 <= i < n ==> Plain(s[i])
    ensures Run(s) == n
  {
  }

  // ---------------------------------------------------------------------
  // Escapes
  // ---------------------------------------------------------------------

  function HexDigit(c: Byte): Option<nat> {
    if 0x30 <= c <= 0x39 then Some(c - 0x30)
    else if 0x61 <= c <= 0x66 then Some(c - 0x61 + 10)
    else if 0x41 <= c <= 0x46 then Some(c - 0x41 + 10)
    else None
  }

  /** Four hex digits at the front. */
  function Hex4(s: Text): (r: Option<nat>)
    ensures r.Some? ==> |s| >= 4 && r.value < 65536
  {
    if |s| < 4 then None
    else
      var a, b, c, d := HexDigit(s[0]), HexDigit(s[1]), HexDigit(s[2]), HexDigit(s[3]);
      if a.None? || b.None? || c.None? || d.None? then None
      else Some(4096 * a.value + 256 * b.value + 16 * c.value + d.value)
  }

  /** A \u escape after its u, a surrogate only as one half of a pair. Gives the
      code point's bytes and what follows. */
  function UnicodeEscape(s: Text): (r: Option<(Text, Text)>)
    ensures r.Some? ==> |r.value.1| < |s|
  {
    match Hex4(s)
    case None => None
    case Some(hi) =>
      if 0xD800 <= hi <= 0xDBFF then
        if |s| >= 6 && s[4] == BACKSLASH && s[5] == 0x75 then
          match Hex4(s[6..])
          case None => None
          case Some(lo) =>
            if 0xDC00 <= lo <= 0xDFFF then Some((Encode(0x10000 + (hi - 0xD800) * 1024 + (lo - 0xDC00)), s[10..])) else None
        else None
      else if 0xDC00 <= hi <= 0xDFFF || hi == 0 then None
      else Some((Encode(hi), s[4..]))
  }

  /** The byte a one-letter escape stands for. */
  function ShortEscape(c: Byte): Option<Byte> {
    if c == QUOTE then Some(QUOTE) else if c == BACKSLASH then Some(BACKSLASH) else if c == 0x2F then Some(0x2F)
    else if c == 0x62 then Some(8) else if c == 0x66 then Some(12) else if c == 0x6E then Some(10)
    else if c == 0x72 then Some(13) else if c == 0x74 then Some(9) else None
  }

  /** An escape after its backslash. */
  function ReadEscape(s: Text): (r: Option<(Text, Text)>)
    ensures r.Some? ==> |r.value.1| < |s|
  {
    if s == [] then None
    else if s[0] == 0x75 then UnicodeEscape(s[1..])
    else match ShortEscape(s[0]) case None => None case Some(c) => Some(([c], s[1..]))
  }

  /** A literal after its opening quote: the decoded bytes and what follows the
      closing quote. Every run of raw bytes must be UTF-8. */
  function Decode(s: Text): (r: Option<(Text, Text)>)
    ensures r.Some? ==> |r.value.1| < |s|
    decreases |s|
  {
    var n := Run(s);
    if n == |s| || !Valid(s[..n]) then None
    else if s[n] == QUOTE then Some((s[..n], s[n + 1..]))
    else if s[n] == BACKSLASH then
      match ReadEscape(s[n + 1..])
      case None => None
      case Some((e, t)) =>
        match Decode(t)
        case None => None
        case Some((more, u)) => Some((s[..n] + e + more, u))
    else None
  }

  /** A decoded literal with more in front. */
  function Prefixed(out: Text, r: Option<(Text, Text)>): Option<(Text, Text)> {
    match r case None => None case Some((more, u)) => Some((out + more, u))
  }

  lemma PrefixedTwice(a: Text, b: Text, r: Option<(Text, Text)>)
    ensures Prefixed(a, Prefixed(b, r)) == Prefixed(a + b, r) && Prefixed([], r) == r
  {
    if r.Some? {
      assert a + (b + r.value.0) == a + b + r.value.0;
      assert [] + r.value.0 == r.value.0;
    }
  }

  /** How a literal decodes over its first run and escape. */
  lemma {:induction false} DecodeStep(t: Text)
    requires Run(t) < |t| && Valid(t[..Run(t)]) && t[Run(t)] == BACKSLASH
    ensures var n := Run(t);
      Decode(t) == match ReadEscape(t[n + 1..]) case None => None case Some((e, u)) => Prefixed(t[..n] + e, Decode(u))
  {
  }

  lemma {:induction false} DecodeEnds(t: Text)
    ensures var n := Run(t);
      && (n == |t| || !Valid(t[..n]) || (t[n] != QUOTE && t[n] != BACKSLASH) ==> Decode(t) == None)
      && (n < |t| && Valid(t[..n]) && t[n] == QUOTE ==> Decode(t) == Some((t[..n], t[n + 1..])))
  {
  }

  /** UTF-8 without a zero byte: what a string node may hold. */
  predicate Clean(s: Text) { Valid(s) && forall i :: 0 <= i < |s| ==> s[i] != 0 }

  lemma CleanConcat(a: Text, b: Text)
    requires Clean(a) && Clean(b)
    ensures Clean(a + b)
  {
    ValidConcat(a, b);
  }

  lemma EscapeClean(s: Text)
    ensures ReadEscape(s).Some? ==> Clean(ReadEscape(s).value.0)
  {
    hide Valid, Hex4;
    if ReadEscape(s).Some? {
      if s[0] == 0x75 {
        var hi := Hex4(s[1..]).value;
        if 0xD800 <= hi <= 0xDBFF {
          EncodeValid(0x10000 + (hi - 0xD800) * 1024 + (Hex4(s[1..][6..]).value - 0xDC00));
        } else {
          EncodeValid(hi);
        }
      } else {
        AsciiValid(ReadEscape(s).value.0);
      }
    }
  }

  /** Whatever a literal decodes to is clean. */
  lemma {:induction false} DecodeClean(s: Text)
    requires Decode(s).Some?
    ensures Clean(Decode(s).value.0)
    decreases |s|
  {
    hide Valid, ReadEscape;
    var n := Run(s);
    assert Clean(s[..n]);
    if s[n] == BACKSLASH {
      EscapeClean(s[n + 1..]);
      var (e, t) := ReadEscape(s[n + 1..]).value;
      DecodeClean(t);
      CleanConcat(s[..n], e);
      CleanConcat(s[..n] + e, Decode(t).value.0);
    }
  }

  // ---------------------------------------------------------------------
  // The two-pass parser
  // ---------------------------------------------------------------------

  /** The first pass: the closing quote's place, skipping escapes. */
  function Scan(s: Text): (r: Option<nat>)
    ensures r.Some? ==> r.value < |s| && s[r.value] == QUOTE
    decreases |s|
  {
    if s == [] then None
    else if s[0] == QUOTE then Some(0)
    else
      var k := if s[0] == BACKSLASH then 2 else 1;
      if k > |s| then None else match Scan(s[k..]) case None => None case Some(i) => Some(i + k)
  }

  lemma {:induction false} ScanRun(s: Text, n: nat)
    requires n <= |s| && forall i :: 0 <= i < n ==> Plain(s[i])
    ensures Scan(s).Some? <==> Scan(s[n..]).Some?
    ensures Scan(s).Some? ==> Scan(s).value == Scan(s[n..]).value + n
    decreases n
  {
    if n > 0 {
      ScanRun(s[1..], n - 1);
      assert s[1..][n - 1..] == s[n..];
    } else {
      assert s[0..] == s;
    }
  }

  lemma HexPlain(s: Text)
    requires Hex4(s).Some?
    ensures forall i :: 0 <= i < 4 ==> Plain(s[i])
  {
    assert HexDigit(s[0]).Some? && HexDigit(s[1]).Some? && HexDigit(s[2]).Some? && HexDigit(s[3]).Some?;
  }

  /** The scan passes over an escape that decodes. */
  lemma ScanEscape(s: Text, e: Text, t: Text)
    requires ReadEscape(s) == Some((e, t)) && Scan(t).Some?
    ensures Scan([BACKSLASH] + s).Some?
  {
    hide Scan;
    var w := [BACKSLASH] + s;
    ScanOver(w);
    assert w[2..] == s[1..];
    if s[0] == 0x75 {
      var u := s[1..];
      HexPlain(u);
      ScanRun(u, 4);
      var hi := Hex4(u).value;
      if 0xD800 <= hi <= 0xDBFF {
        var v := u[4..];
        ScanOver(v);
        assert v[2..] == u[6..];
        HexPlain(u[6..]);
        ScanRun(u[6..], 4);
        assert u[6..][4..] == u[10..];
      }
    }
  }

  lemma ScanOver(w: Text)
    requires |w| >= 2 && w[0] == BACKSLASH
    ensures Scan(w).Some? <==> Scan(w[2..]).Some?
  {
  }

  /** The scan finds the end of every literal that decodes, so refusing what it
      cannot close refuses nothing more. */
  lemma {:induction false} ScanFinds(s: Text)
    requires Decode(s).Some?
    ensures Scan(s).Some?
    decreases |s|
  {
    hide ReadEscape, Valid;
    var n := Run(s);
    ScanRun(s, n);
    if s[n] == BACKSLASH {
      var (e, t) := ReadEscape(s[n + 1..]).value;
      ScanFinds(t);
      ScanEscape(s[n + 1..], e, t);
      assert s[n..] == [BACKSLASH] + s[n + 1..];
    }
  }

  /** Without an escape or a control byte the literal is its raw bytes. */
  lemma FastPath(s: Text, end: nat)
    requires end < |s| && s[end] == QUOTE && forall i :: 0 <= i < end ==> Plain(s[i])
    ensures Decode(s) == if Valid(s[..end]) then Some((s[..end], s[end + 1..])) else None
  {
    RunIs(s, end);
  }

  /** Parses a literal after its opening quote in two passes. */
  method ParseLiteral(s: Text) returns (r: Option<(Text, Text)>)
    ensures r == Decode(s)
  {
    var scan, slow := 0, false;
    while scan < |s| && s[scan] != QUOTE
      invariant 0 <= scan
      invariant scan <= |s| ==> (Scan(s).Some? <==> Scan(s[scan..]).Some?)
      invariant scan > |s| ==> Scan(s).None?
      invariant !slow ==> scan <= |s| && forall i :: 0 <= i < scan ==> Plain(s[i])
      decreases |s| - scan
    {
      if s[scan] == BACKSLASH {
        if scan + 2 <= |s| { assert s[scan..][2..] == s[scan + 2..]; }
        slow, scan := true, scan + 2;
      } else {
        assert s[scan..][1..] == s[scan + 1..];
        if s[scan] < 0x20 { slow := true; }
        scan := scan + 1;
      }
    }
    if scan >= |s| {
      if Decode(s).Some? { ScanFinds(s); }
      return None;
    }
    if !slow {
      FastPath(s, scan);
      r := if Valid(s[..scan]) then Some((s[..scan], s[scan + 1..])) else None;
    } else {
      r := DecodeLoop(s);
    }
  }

  /** The second pass, for a literal with an escape or a control byte. */
  method DecodeLoop(s: Text) returns (r: Option<(Text, Text)>)
    ensures r == Decode(s)
  {
    hide Decode, Valid, ReadEscape;
    var out: Text, t := [], s;
    PrefixedTwice([], [], Decode(s));
    while true
      invariant Decode(s) == Prefixed(out, Decode(t))
      decreases |t|
    {
      var n := Run(t);
      DecodeEnds(t);
      if n == |t| || !Valid(t[..n]) { return None; }
      if t[n] == QUOTE { return Some((out + t[..n], t[n + 1..])); }
      if t[n] != BACKSLASH { return None; }
      DecodeStep(t);
      var e := ReadEscape(t[n + 1..]);
      if e.None? { return None; }
      PrefixedTwice(out, t[..n] + e.value.0, Decode(e.value.1));
      out, t := out + (t[..n] + e.value.0), e.value.1;
    }
  }

  // ---------------------------------------------------------------------
  // Printing
  // ---------------------------------------------------------------------

  function HexChar(d: nat): Byte
    requires d < 16
  {
    if d < 10 then 0x30 + d else 0x61 + d - 10
  }

  /** The escape printed for a byte that is not plain. */
  function Escape(c: Byte): Text {
    if c == QUOTE then [BACKSLASH, QUOTE] else if c == BACKSLASH then [BACKSLASH, BACKSLASH]
    else if c == 8 then [BACKSLASH, 0x62] else if c == 12 then [BACKSLASH, 0x66] else if c == 10 then [BACKSLASH, 0x6E]
    else if c == 13 then [BACKSLASH, 0x72] else if c == 9 then [BACKSLASH, 0x74]
    else [BACKSLASH, 0x75, 0x30, 0x30, HexChar(c / 16), HexChar(c % 16)]
  }

  /** The inside of a printed literal. */
  function Escaped(s: Text): Text {
    if s == [] then [] else (if Plain(s[0]) then [s[0]] else Escape(s[0])) + Escaped(s[1..])
  }

  function PrintString(s: Text): Text { [QUOTE] + Escaped(s) + [QUOTE] }

  lemma {:induction false} EscapedHead(s: Text)
    requires s != []
    ensures Escaped(s) == (if Plain(s[0]) then [s[0]] else Escape(s[0])) + Escaped(s[1..])
  {
  }

  lemma {:induction false} EscapedRun(s: Text, n: nat)
    requires n <= |s| && forall i :: 0 <= i < n ==> Plain(s[i])
    ensures Escaped(s) == s[..n] + Escaped(s[n..])
    decreases n
  {
    hide Escaped, Escape;
    if n > 0 {
      EscapedHead(s);
      EscapedRun(s[1..], n - 1);
      assert s[1..][n - 1..] == s[n..];
      assert [s[0]] + s[1..][..n - 1] == s[..n];
    } else {
      assert s[0..] == s;
    }
  }

  lemma HexCharBack(d: nat)
    requires d < 16
    ensures HexDigit(HexChar(d)) == Some(d)
  {
  }

  /** Every printed escape reads back as its byte. */
  lemma EscapeBack(c: Byte, rest: Text)
    requires !Plain(c) && c != 0
    ensures |Escape(c)| >= 2 && Escape(c)[0] == BACKSLASH && ReadEscape(Escape(c)[1..] + rest) == Some(([c], rest))
  {
    var e := Escape(c);
    var s := e[1..] + rest;
    if |e| == 2 {
      assert s[1..] == rest;
    } else {
      HexCharBack(c / 16);
      HexCharBack(c % 16);
      var u := s[1..];
      assert u[0] == 0x30 && u[1] == 0x30 && u[2] == HexChar(c / 16) && u[3] == HexChar(c % 16);
      assert Hex4(u) == Some(c);
      assert u[4..] == rest;
    }
  }

  /** A printed string parses back to itself. */
  lemma {:induction false} StringRoundTrip(s: Text, rest: Text)
    requires Clean(s)
    ensures Decode(Escaped(s) + [QUOTE] + rest) == Some((s, rest))
    decreases |s|
  {
    hide Valid, ReadEscape, Escape, Escaped, Decode;
    var n := Run(s);
    EscapedRun(s, n);
    if n == |s| {
      EscapedNone(s[n..]);
      assert Escaped(s) == s;
      PlainBack(s, rest);
    } else {
      var c, t := s[n], s[n + 1..];
      CleanParts(s, n);
      assert s[n..][1..] == t;
      EscapedHead(s[n..]);
      var tail := Escaped(t) + [QUOTE] + rest;
      assert Escaped(s) + [QUOTE] + rest == s[..n] + (Escape(c) + tail);
      StringRoundTrip(t, rest);
      EscapeBack(c, tail);
      RunThenEscape(s[..n], c, tail);
      assert s[..n] + [c] + t == s;
    }
  }

  lemma {:induction false} EscapedNone(s: Text)
    requires s == []
    ensures Escaped(s) == []
  {
  }

  lemma {:induction false} PlainBack(s: Text, rest: Text)
    requires Valid(s) && forall i :: 0 <= i < |s| ==> Plain(s[i])
    ensures Decode(s + [QUOTE] + rest) == Some((s, rest))
  {
    hide Decode, Valid;
    var w := s + [QUOTE] + rest;
    assert w[..|s|] == s && w[|s| + 1..] == rest && w[|s|] == QUOTE;
    RunIs(w, |s|);
    DecodeEnds(w);
  }

  /** A run and an escape in front of a tail. */
  lemma {:induction false} RunThenEscape(run: Text, c: Byte, tail: Text)
    requires Valid(run) && (forall i :: 0 <= i < |run| ==> Plain(run[i])) && !Plain(c) && c != 0
    ensures Decode(run + (Escape(c) + tail)) == Prefixed(run + [c], Decode(tail))
  {
    hide Decode, Valid, Escape, ReadEscape;
    EscapeBack(c, tail);
    var w, n := run + (Escape(c) + tail), |run|;
    assert w[..n] == run && w[n] == BACKSLASH && w[n + 1..] == Escape(c)[1..] + tail;
    RunIs(w, n);
    DecodeStep(w);
  }

  lemma CleanParts(s: Text, n: nat)
    requires Clean(s) && n < |s| && s[n] < 0x80
    ensures Clean(s[..n]) && Clean(s[n + 1..])
  {
    assert s == s[..n] + [s[n]] + s[n + 1..];
    ValidSplit(s[..n], s[n], s[n + 1..]);
  }
}
