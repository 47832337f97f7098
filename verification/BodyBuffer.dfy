// How a request body's buffer grows, and what it reserves before each growth.

module BodyBuffer {
  import opened Options

  const SIZE_MAX: nat := 0xFFFF_FFFF_FFFF_FFFF
  const WINDOW: nat := 8192
  const FIRST_CAP: nat := 16384

  /** Doubles c until it reaches m; past half the word it takes m itself. */
  function Double(c: nat, m: nat): (r: nat)
    requires c > 0
    ensures r >= m && r >= c
    decreases m - c
  {
    if c >= m then c else if c > SIZE_MAX / 2 then m else Double(2 * c, m)
  }

  /** The capacity a buffer of cap bytes grows to when it must hold m. limit is
      the largest body (0 for none), declared the Content-Length if any, and
      free says that the body holds no reservation. */
  function GrowTarget(limit: nat, declared: Option<nat>, free: bool, cap: nat, m: nat): nat {
    if m <= cap then cap
    else if declared.Some? && declared.value >= m && free then declared.value
    else
      var known := declared.Some? && declared.value >= m;
      var ceiling := if known && (limit == 0 || declared.value < limit) then declared.value else limit;
      var start := if known then FIRST_CAP else WINDOW;
      var grown := Double(if cap > 0 then cap else start, m);
      if ceiling > 0 && grown > ceiling && m <= ceiling then ceiling else grown
  }

  /** What a Content-Length body reserves before its first read. */
  function FirstReserve(declared: nat, carry: nat): nat {
    var most := if carry > SIZE_MAX - WINDOW then SIZE_MAX else carry + WINDOW;
    var need := if most > declared then declared else most;
    var first := Double(FIRST_CAP, need);
    if first < declared then first else declared
  }

  /** A body being received. */
  datatype Body = Body(declared: Option<nat>, len: nat, cap: nat, ready: nat, managed: bool)

  /** No body grows past this many bytes. */
  function Ceiling(limit: nat, declared: Option<nat>): nat { if declared.Some? then declared.value else limit }

  /** The bytes a read may bring, and no more than the body can have. */
  function ReadNeed(limit: nat, b: Body): nat {
    var most := if b.len + WINDOW > SIZE_MAX then SIZE_MAX else b.len + WINDOW;
    var need := if limit > 0 && most > limit then (if limit < b.cap then b.cap else limit) else most;
    if b.declared.Some? && b.declared.value < need then (if b.declared.value < b.cap then b.cap else b.declared.value)
    else need
  }

  /** What the body must have reserved before the read: its buffer, and while
      that grows the old and the new block together. */
  function ReadWant(limit: nat, b: Body, free: bool): nat {
    var target := GrowTarget(limit, b.declared, free, b.cap, ReadNeed(limit, b));
    if target <= b.cap then b.cap
    else if target > SIZE_MAX - b.cap then SIZE_MAX
    else target + b.cap
  }

  /** The body as the parser hands over n bytes of it. */
  function Fed(limit: nat, b: Body, free: bool, n: nat): Body
    requires n <= b.ready || !b.managed
  {
    b.(len := b.len + n, cap := GrowTarget(limit, b.declared, free, b.cap, b.len + n), ready := if b.managed then b.ready - n else 0)
  }

  // ---------------------------------------------------------------------
  // Bounds
  // ---------------------------------------------------------------------

  /** t is s doubled some number of times. */
  ghost predicate Doubled(s: nat, t: nat)
    requires s > 0
  {
    t == s || (t > s && t % 2 == 0 && Doubled(s, t / 2))
  }

  lemma {:induction false} DoubledOnce(s: nat, t: nat, c: nat)
    requires s > 0 && c == 2 * s && Doubled(c, t)
    ensures Doubled(s, t)
  {
    if t != c { DoubledOnce(s, t / 2, c); }
  }

  /** The doubling ends at the first power that is enough. */
  lemma {:induction false} DoubleIsLeast(c: nat, m: nat)
    requires 0 < c && m <= SIZE_MAX / 2
    ensures var t := Double(c, m); t >= m && Doubled(c, t) && (t == c || t / 2 < m)
    decreases m - c
  {
    if c < m {
      DoubleIsLeast(2 * c, m);
      DoubledOnce(c, Double(2 * c, m), 2 * c);
    }
  }

  /** A buffer under a reservation doubles, from the 16 KiB of a Content-Length
      body or the 8 KiB of a chunked one, no further than it must to hold m bytes,
      and never past the largest body. */
  lemma GrowthIsLeast(limit: nat, top: nat, declared: Option<nat>, cap: nat, m: nat)
    requires Fits(limit, top, declared) && cap < m <= Ceiling(limit, declared) <= SIZE_MAX / 2
    ensures var t := GrowTarget(limit, declared, false, cap, m);
      var s := if cap > 0 then cap else if declared.Some? then 16384 else 8192;
      && m <= t <= Ceiling(limit, declared)
      && (t == Ceiling(limit, declared) || (Doubled(s, t) && (t == s || t / 2 < m)))
      && (t == Ceiling(limit, declared) ==> exists d: nat :: d >= t && Doubled(s, d) && (d == s || d / 2 < m))
  {
    var s := if cap > 0 then cap else if declared.Some? then 16384 else 8192;
    DoubleIsLeast(s, m);
    hide Double, Doubled;
    assert Double(s, m) >= m;
  }

  /** The first reservation of a Content-Length body is 16 KiB, or the body where
      that is smaller. */
  lemma FirstReserveIs(declared: nat, carry: nat)
    requires carry <= 8192
    ensures FirstReserve(declared, carry) == if declared < 16384 then declared else 16384
  {
    assert Double(FIRST_CAP, 16384) == 16384;
  }

  /** What a read asks for: its buffer where the window's bytes fit in, and the old
      and the new block where they do not. */
  lemma ReadWantIs(limit: nat, top: nat, b: Body)
    requires BodyOk(limit, top, b) && Ceiling(limit, b.declared) <= SIZE_MAX / 2
    ensures var most := Ceiling(limit, b.declared);
      var need := if b.len + 8192 <= most then b.len + 8192 else most;
      ReadWant(limit, b, false) == if need <= b.cap then b.cap else b.cap + GrowTarget(limit, b.declared, false, b.cap, need)
  {
    ReadNeedBounds(limit, top, b);
    if ReadNeed(limit, b) > b.cap { GrowBounds(limit, top, b.declared, false, b.cap, ReadNeed(limit, b)); }
    hide ReadNeed, Double;
  }

  /** A body that a server with this limit accepts: at most top bytes. */
  predicate Fits(limit: nat, top: nat, declared: Option<nat>) {
    && 0 < Ceiling(limit, declared) <= top
    && (limit > 0 ==> Ceiling(limit, declared) <= limit)
  }

  predicate BodyOk(limit: nat, top: nat, b: Body) {
    && Fits(limit, top, b.declared)
    && b.len <= b.cap <= Ceiling(limit, b.declared)
    && (b.cap == 0 || b.cap >= WINDOW || b.cap == Ceiling(limit, b.declared))
    && b.ready <= WINDOW
  }

  /** A growth ends between what is needed and the largest body. */
  lemma GrowBounds(limit: nat, top: nat, declared: Option<nat>, free: bool, cap: nat, m: nat)
    requires Fits(limit, top, declared) && cap < m <= Ceiling(limit, declared)
    ensures m <= GrowTarget(limit, declared, free, cap, m) <= Ceiling(limit, declared)
  {
  }

  lemma GrowShape(limit: nat, top: nat, declared: Option<nat>, free: bool, cap: nat, m: nat)
    requires Fits(limit, top, declared) && cap < m <= Ceiling(limit, declared) && (cap == 0 || cap >= WINDOW)
    ensures var t := GrowTarget(limit, declared, free, cap, m); t >= WINDOW || t == Ceiling(limit, declared)
  {
  }

  lemma FirstReserveBounds(declared: nat, carry: nat)
    requires declared > 0
    ensures 0 < FirstReserve(declared, carry) <= declared
  {
  }

  /** The first reservation is the first buffer. */
  lemma FirstReserveIsFirstBuffer(limit: nat, declared: nat, carry: nat, m: nat)
    requires Fits(limit, declared, Some(declared)) && carry <= WINDOW && 0 < m <= declared && m <= FIRST_CAP
    ensures GrowTarget(limit, Some(declared), false, 0, m) == FirstReserve(declared, carry)
  {
  }

  lemma ReadNeedBounds(limit: nat, top: nat, b: Body)
    requires BodyOk(limit, top, b)
    ensures ReadNeed(limit, b) <= Ceiling(limit, b.declared)
    ensures ReadNeed(limit, b) == if b.len + WINDOW <= Ceiling(limit, b.declared) && b.len + WINDOW <= SIZE_MAX then b.len + WINDOW
                                  else if Ceiling(limit, b.declared) <= SIZE_MAX then Ceiling(limit, b.declared) else SIZE_MAX
  {
  }

  /** Less than two bodies. */
  lemma WantBounds(limit: nat, top: nat, b: Body, free: bool)
    requires BodyOk(limit, top, b)
    ensures ReadWant(limit, b, free) < 2 * top
  {
    ReadNeedBounds(limit, top, b);
    if ReadNeed(limit, b) > b.cap { GrowBounds(limit, top, b.declared, free, b.cap, ReadNeed(limit, b)); }
  }

  // ---------------------------------------------------------------------
  // The reservation covers the buffer
  // ---------------------------------------------------------------------

  /** The most the bytes at hand make the buffer hold. */
  function Reach(limit: nat, b: Body): nat {
    if b.len + b.ready <= Ceiling(limit, b.declared) then b.len + b.ready else Ceiling(limit, b.declared)
  }

  /** Enough is reserved for the buffer and for any growth the bytes at hand
      can cause. */
  predicate Covered(limit: nat, b: Body, free: bool, charged: nat) {
    && charged >= b.cap
    && (Reach(limit, b) > b.cap ==> charged >= b.cap + GrowTarget(limit, b.declared, free, b.cap, Reach(limit, b)))
  }

  lemma DoubleOnce(c: nat, m: nat)
    requires 0 < c < m <= 2 * c && c <= SIZE_MAX / 2
    ensures Double(c, m) == 2 * c
  {
    assert Double(2 * c, m) == 2 * c;
  }

  /** Within one window every growth ends at the same capacity, and that holds
      the whole window. */
  lemma OneGrowth(limit: nat, top: nat, declared: Option<nat>, free: bool, cap: nat, m: nat, w: nat)
    requires Fits(limit, top, declared) && cap <= SIZE_MAX / 2 && (cap == 0 || cap >= WINDOW)
    requires cap < m <= w <= Ceiling(limit, declared) && w <= cap + WINDOW
    ensures GrowTarget(limit, declared, free, cap, m) == GrowTarget(limit, declared, free, cap, w) >= w
  {
    if cap > 0 {
      DoubleOnce(cap, m);
      DoubleOnce(cap, w);
    }
  }

  /** A granted read is covered. */
  lemma ReadCovered(limit: nat, top: nat, b: Body, free: bool, charged: nat)
    requires BodyOk(limit, top, b) && b.cap <= SIZE_MAX / 2 && charged >= ReadWant(limit, b, free)
    requires Ceiling(limit, b.declared) <= SIZE_MAX / 2
    ensures Covered(limit, b.(ready := WINDOW), free, charged)
  {
    ReadNeedBounds(limit, top, b);
    var m := ReadNeed(limit, b);
    if m > b.cap { GrowBounds(limit, top, b.declared, free, b.cap, m); }
  }

  /** Handing over bytes at hand needs no more than is reserved, the old and the
      new block included, and what the trim then leaves still covers the rest. */
  lemma FeedCovered(limit: nat, top: nat, b: Body, free: bool, charged: nat, n: nat)
    requires BodyOk(limit, top, b) && b.managed && n <= b.ready && b.len + n <= Ceiling(limit, b.declared)
    requires Covered(limit, b, free, charged) && b.cap <= SIZE_MAX / 2
    ensures var f := Fed(limit, b, free, n);
      && BodyOk(limit, top, f)
      && (f.cap > b.cap ==> b.cap + f.cap <= charged)
      && Covered(limit, f, free, if f.cap > b.cap && charged > f.cap then f.cap else charged)
  {
    var m := b.len + n;
    if m > b.cap {
      OneGrowth(limit, top, b.declared, free, b.cap, m, Reach(limit, b));
      GrowBounds(limit, top, b.declared, free, b.cap, m);
      GrowShape(limit, top, b.declared, free, b.cap, m);
    }
  }
}
