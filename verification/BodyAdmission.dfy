// What every step of the admission of request bodies keeps, and what follows
// for every reachable state.

module BodyAdmission {
  import opened Options
  import opened BodyBuffer
  import opened BodyMemory

  // ---------------------------------------------------------------------
  // One connection changes
  // ---------------------------------------------------------------------

  /** The counters of t are those of s after connection i became c. */
  ghost predicate Moved(s: Server, t: Server, i: nat, c: Conn)
    requires i < |s.conns|
  {
    var o := s.conns[i];
    && t.conns == s.conns[i := c]
    && t.inUse + o.charged == s.inUse + c.charged
    && t.holders + Holder(o) == s.holders + Holder(c)
    && t.blocked + Blocked(o) == s.blocked + Blocked(c)
    && (if t.exemptActive then 1 else 0) + Exempt(o) == (if s.exemptActive then 1 else 0) + Exempt(c)
  }

  lemma MovedAccounts(s: Server, t: Server, i: nat, c: Conn)
    requires i < |s.conns| && Accounts(s) && Moved(s, t, i, c)
    ensures Accounts(t) && Sum(t.conns, Ordinary) + Ordinary(s.conns[i]) == Sum(s.conns, Ordinary) + Ordinary(c)
  {
    hide Sum;
    SumUpdate(s.conns, Charged, i, c);
    SumUpdate(s.conns, Holder, i, c);
    SumUpdate(s.conns, Blocked, i, c);
    SumUpdate(s.conns, Exempt, i, c);
    SumUpdate(s.conns, Ordinary, i, c);
  }

  lemma OrdinaryWithin(s: Server)
    requires Accounts(s)
    ensures Sum(s.conns, Ordinary) <= s.inUse
  {
    SumBelow(s.conns, Ordinary, Charged);
  }

  /** A connection that keeps its place outside (or inside) the list. */
  lemma QueueSame(conns: seq<Conn>, q: seq<nat>, i: nat, c: Conn)
    requires QueueOk(conns, q) && i < |conns| && (c.phase.Waiting? <==> conns[i].phase.Waiting?)
    ensures QueueOk(conns[i := c], q)
  {
  }

  lemma QueuePush(conns: seq<Conn>, q: seq<nat>, i: nat, c: Conn)
    requires QueueOk(conns, q) && i < |conns| && !conns[i].phase.Waiting? && c.phase.Waiting?
    ensures QueueOk(conns[i := c], q + [i])
  {
    assert i in q + [i] by { assert (q + [i])[|q|] == i; }
    forall j | 0 <= j < |conns| && conns[i := c][j].phase.Waiting? ensures j in q + [i] {}
  }

  lemma {:induction false} WithoutIs(q: seq<nat>, i: nat)
    requires forall j, k :: 0 <= j < k < |q| ==> q[j] != q[k]
    ensures var r := Without(q, i); (forall j, k :: 0 <= j < k < |r| ==> r[j] != r[k]) && (forall j :: j in r <==> j in q && j != i)
  {
    if q != [] {
      var t := q[1..];
      WithoutIs(t, i);
      assert q == [q[0]] + t;
      assert q[0] !in t by { assert forall k :: 0 <= k < |t| ==> t[k] == q[k + 1]; }
      if q[0] != i {
        var u := Without(t, i);
        forall k | 0 <= k < |u| ensures u[k] != q[0] { assert u[k] in u; }
      }
    }
  }

  lemma QueueDrop(conns: seq<Conn>, q: seq<nat>, i: nat, c: Conn)
    requires QueueOk(conns, q) && i < |conns| && conns[i].phase.Waiting? && !c.phase.Waiting?
    ensures QueueOk(conns[i := c], Without(q, i))
  {
    WithoutIs(q, i);
    var r := Without(q, i);
    forall k | 0 <= k < |r| ensures r[k] < |conns| && conns[i := c][r[k]].phase.Waiting? { assert r[k] in r; }
    forall j | 0 <= j < |conns| && conns[i := c][j].phase.Waiting? ensures j in r {}
  }

  /** The whole invariant after one connection changed. */
  lemma OneConn(cfg: Config, s: Server, t: Server, i: nat, c: Conn)
    requires Inv(cfg, s) && i < |s.conns| && Moved(s, t, i, c) && ConnOk(cfg, c) && QueueOk(t.conns, t.queue)
    requires Ordinary(c) <= Ordinary(s.conns[i]) || s.inUse + c.charged <= cfg.memCap + s.conns[i].charged
    requires t.inUse <= SIZE_MAX
    ensures Inv(cfg, t)
  {
    hide QueueOk, Sum, ConnOk;
    MovedAccounts(s, t, i, c);
    OrdinaryWithin(t);
  }

  lemma HolderCounted(s: Server, i: nat)
    requires Accounts(s) && i < |s.conns|
    ensures s.conns[i].charged <= s.inUse
    ensures s.conns[i].charged > 0 ==> s.holders > 0
    ensures s.conns[i].charged > 0 && s.conns[i].phase.Waiting? ==> s.blocked > 0
    ensures s.conns[i].exempt ==> s.exemptActive
  {
    SumAtLeast(s.conns, Charged, i);
    SumAtLeast(s.conns, Holder, i);
    SumAtLeast(s.conns, Blocked, i);
    SumAtLeast(s.conns, Exempt, i);
  }

  // ---------------------------------------------------------------------
  // Each region keeps the invariant
  // ---------------------------------------------------------------------

  /** What a change of a body and a phase leaves: same charge, same exemption. */
  lemma BodyChanges(cfg: Config, s: Server, i: nat, b: Body, p: Phase)
    requires Inv(cfg, s) && i < |s.conns| && !s.conns[i].phase.Waiting? && !p.Waiting?
    requires ConnOk(cfg, s.conns[i].(body := b, phase := p))
    ensures Inv(cfg, SetPhase(SetBody(s, i, b), i, p))
  {
    hide QueueOk, Sum, ConnOk;
    var t := SetPhase(SetBody(s, i, b), i, p);
    var c := s.conns[i].(body := b, phase := p);
    assert t.conns == s.conns[i := c];
    QueueSame(s.conns, s.queue, i, c);
    OneConn(cfg, s, t, i, c);
  }

  /** What a connection must be to ask for more: an exempt one is always granted
      it, any other may have to wait with it. */
  predicate AskOk(cfg: Config, o: Conn, b: Body, need: nat) {
    && o.charged + need < 2 * cfg.top
    && ConnOk(cfg, o.(body := b, phase := if o.exempt then Reading else Refused(need)))
  }

  /** The body as it is once it has what it needs. */
  lemma GrantedOk(cfg: Config, c: Conn)
    requires ConnOk(cfg, c) && (c.phase.Refused? || c.phase.Waiting?)
    ensures ConnOk(cfg, c.(phase := Reading, charged := c.charged + c.phase.need))
  {
  }

  /** An exempt connection's charge is bound by nothing but two bodies. */
  lemma ExemptOk(cfg: Config, c: Conn, n: nat)
    requires ConnOk(cfg, c.(phase := Reading, exempt := true)) && n < 2 * cfg.top
    ensures ConnOk(cfg, c.(phase := Reading, exempt := true, charged := n))
  {
    hide BodyOk;
  }

  /** A reservation, granted or refused: the connection then holds or needs all
      that it asked for. */
  /** What a reservation, granted or refused, leaves alone. */
  lemma AskMoves(cfg: Config, s: Server, i: nat, b: Body, need: nat)
    requires Inv(cfg, s) && i < |s.conns|
    ensures var t := Ask(cfg, SetBody(s, i, b), i, need);
      && t.queue == s.queue && t.calls == s.calls && (t.conns[i].phase == Reading || t.conns[i].phase == Refused(need))
      && t.inUse + s.conns[i].charged == s.inUse + t.conns[i].charged
  {
    hide Inv, Charge;
  }

  lemma AskKeeps(cfg: Config, s: Server, i: nat, b: Body, need: nat)
    requires Inv(cfg, s) && i < |s.conns| && (s.conns[i].phase.Reading? || s.conns[i].phase.Idle?) && need > 0
    requires AskOk(cfg, s.conns[i], b, need)
    ensures Inv(cfg, Ask(cfg, SetBody(s, i, b), i, need))
  {
    hide QueueOk, Sum, ConnOk;
    var o := s.conns[i];
    var s1 := SetBody(s, i, b);
    var n := Charge(cfg, s1, need);
    var t := Ask(cfg, s1, i, need);
    if o.exempt || (s.queue == [] && FitsNow(cfg, s, need)) {
      var c := o.(body := b, phase := Reading, charged := o.charged + n);
      assert t.conns == s.conns[i := c];
      if o.exempt { ExemptOk(cfg, o.(body := b), o.charged + n); }
      else { GrantedOk(cfg, o.(body := b, phase := Refused(need))); }
      QueueSame(s.conns, s.queue, i, c);
      OneConn(cfg, s, t, i, c);
    } else {
      BodyChanges(cfg, s, i, b, Refused(need));
      assert t == SetPhase(s1, i, Refused(need));
    }
  }

  /** A trim, and then maybe the end of the body. */
  lemma TrimKeeps(cfg: Config, s: Server, i: nat, b: Body, keep: nat, p: Phase)
    requires Inv(cfg, s) && i < |s.conns| && s.conns[i].phase.Reading? && s.conns[i].charged <= s.inUse && !p.Waiting?
    requires ConnOk(cfg, s.conns[i].(body := b, phase := p, charged := Min(s.conns[i].charged, keep)))
    ensures Inv(cfg, SetPhase(Trim(SetBody(s, i, b), i, keep), i, p))
    ensures var t, c := SetPhase(Trim(SetBody(s, i, b), i, keep), i, p), s.conns[i];
      && t.conns == s.conns[i := Conn(if c.charged < keep then c.charged else keep, c.exempt, p, b)] && t.queue == s.queue
      && t.inUse + c.charged == s.inUse + t.conns[i].charged && (c.charged > keep && s.queue != [] ==> t.calls > 0)
  {
    hide QueueOk, Sum, ConnOk;
    var o := s.conns[i];
    var t := SetPhase(Trim(SetBody(s, i, b), i, keep), i, p);
    var c := o.(body := b, phase := p, charged := Min(o.charged, keep));
    assert t.conns == s.conns[i := c];
    HolderCounted(s, i);
    QueueSame(s.conns, s.queue, i, c);
    OneConn(cfg, s, t, i, c);
  }

  lemma ReleaseKeeps(cfg: Config, s: Server, i: nat)
    requires Inv(cfg, s) && i < |s.conns| && !s.conns[i].phase.Waiting? && s.conns[i].charged <= s.inUse
    ensures Inv(cfg, Release(s, i))
    ensures var t := Release(s, i);
      && t.conns == s.conns[i := Conn(0, false, Idle, NoBody())] && t.inUse == s.inUse - s.conns[i].charged
      && t.queue == s.queue && (s.queue != [] ==> t.calls > 0)
  {
    hide QueueOk, Sum;
    var c := Conn(0, false, Idle, NoBody());
    HolderCounted(s, i);
    QueueSame(s.conns, s.queue, i, c);
    ExemptOnce(s, i);
    OneConn(cfg, s, Release(s, i), i, c);
  }

  lemma ExemptOnce(s: Server, i: nat)
    requires Accounts(s) && i < |s.conns|
    ensures s.conns[i].exempt ==> s.exemptActive
  {
    HolderCounted(s, i);
  }

  lemma EnqueueKeeps(cfg: Config, s: Server, i: nat)
    requires Inv(cfg, s) && i < |s.conns| && s.conns[i].phase.Refused?
    ensures Inv(cfg, Enqueue(s, i))
    ensures var t, c := Enqueue(s, i), s.conns[i];
      && t.conns == s.conns[i := Conn(c.charged, c.exempt, Waiting(c.phase.need), c.body)] && t.inUse == s.inUse
      && t.queue == s.queue + [i] && t.calls > 0
  {
    hide QueueOk, Sum, Covered, BodyOk;
    var o := s.conns[i];
    var c := o.(phase := Waiting(o.phase.need));
    QueuePush(s.conns, s.queue, i, c);
    OneConn(cfg, s, Enqueue(s, i), i, c);
  }

  lemma {:induction false} TakenOut(q: seq<nat>, i: nat)
    requires i in q
    ensures exists k :: 0 <= k < |q| && q[k] == i && Without(q, i) == q[..k] + q[k + 1..]
  {
    if q[0] == i {
      assert Without(q, i) == q[..0] + q[0 + 1..];
    } else {
      TakenOut(q[1..], i);
      var k :| 0 <= k < |q| - 1 && q[1..][k] == i && Without(q[1..], i) == q[1..][..k] + q[1..][k + 1..];
      assert [q[0]] + q[1..][..k] == q[..k + 1] && q[1..][k + 1..] == q[k + 2..];
      assert q[k + 1] == i && Without(q, i) == q[..k + 1] + q[(k + 1) + 1..];
    }
  }

  lemma ExpireKeeps(cfg: Config, s: Server, i: nat)
    requires Inv(cfg, s) && i < |s.conns| && s.conns[i].phase.Waiting?
    ensures Inv(cfg, Unlink(s, i, Dropped).(calls := s.calls + 1))
  {
    hide QueueOk, Sum, Covered, BodyOk;
    var c := s.conns[i].(phase := Dropped);
    HolderCounted(s, i);
    QueueDrop(s.conns, s.queue, i, c);
    OneConn(cfg, s, Unlink(s, i, Dropped).(calls := s.calls + 1), i, c);
  }

  /** A waiter whose deadline has passed leaves the list to the others, in their
      order, and is dropped. */
  lemma ExpireMoves(cfg: Config, s: Server, i: nat)
    requires Inv(cfg, s) && i < |s.conns| && s.conns[i].phase.Waiting?
    ensures var t, c := Next(cfg, s, Expire(i)), s.conns[i];
      && t.conns == s.conns[i := Conn(c.charged, c.exempt, Dropped, c.body)] && t.inUse == s.inUse && t.calls > 0
      && exists k :: 0 <= k < |s.queue| && s.queue[k] == i && t.queue == s.queue[..k] + s.queue[k + 1..]
  {
    assert i in s.queue;
    hide Inv, Without;
    TakenOut(s.queue, i);
  }

  /** A waiter is not exempt yet, and may become so. */
  lemma WaitingExempt(cfg: Config, c: Conn)
    requires ConnOk(cfg, c) && c.phase.Waiting?
    ensures !c.exempt && c.charged + c.phase.need < 2 * cfg.top
    ensures ConnOk(cfg, c.(phase := Reading, exempt := true))
  {
  }

  /** The head's admission, by fitting or past the limit. */
  lemma AdmitKeeps(cfg: Config, s: Server)
    requires Inv(cfg, s) && CanGo(cfg, s)
    ensures Inv(cfg, AdmitHead(cfg, s)) && |AdmitHead(cfg, s).queue| + 1 == |s.queue|
    ensures AdmitHead(cfg, s).queue == s.queue[1..]
  {
    hide QueueOk, Sum, ConnOk;
    var i := s.queue[0];
    var o := s.conns[i];
    var need := o.phase.need;
    var u := Unlink(s, i, Reading);
    var n := Charge(cfg, u, need);
    var t := AdmitHead(cfg, s);
    var c := o.(phase := Reading, charged := o.charged + n, exempt := Ahead(cfg, s, need));
    WaitingExempt(cfg, o);
    HolderCounted(s, i);
    assert t.conns == s.conns[i := c];
    QueueDrop(s.conns, s.queue, i, c);
    GrantedOk(cfg, o);
    if c.exempt { ExemptOk(cfg, o, c.charged); }
    OneConn(cfg, s, t, i, c);
  }

  lemma {:induction false} BatchKeeps(cfg: Config, s: Server, n: nat)
    requires Inv(cfg, s)
    ensures Inv(cfg, Batch(cfg, s, n))
    decreases n
  {
    hide Inv, AdmitHead, HeadGoes;
    if n > 0 && CanGo(cfg, s) {
      AdmitKeeps(cfg, s);
      BatchKeeps(cfg, AdmitHead(cfg, s), n - 1);
    }
  }

  /** Whether a chunked body holds a reservation does not change its growth. */
  lemma FreeIrrelevant(limit: nat, declared: Option<nat>, free: bool, cap: nat, m: nat)
    requires free ==> declared.None?
    ensures GrowTarget(limit, declared, free, cap, m) == GrowTarget(limit, declared, false, cap, m)
  {
  }

  lemma BeginSizedOk(cfg: Config, declared: nat, carry: nat)
    requires ConfigOk(cfg) && Fits(cfg.limit, cfg.top, Some(declared)) && carry < declared && carry <= WINDOW
    ensures var need := FirstReserve(declared, carry);
      need > 0 && AskOk(cfg, Conn(0, false, Idle, NoBody()), Body(Some(declared), 0, 0, carry, true), need)
  {
    FirstReserveBounds(declared, carry);
    if carry > 0 { FirstReserveIsFirstBuffer(cfg.limit, declared, carry, carry); }
  }

  lemma BeginChunkedOk(cfg: Config, carry: nat)
    requires ConfigOk(cfg) && Fits(cfg.limit, cfg.top, None) && carry <= Ceiling(cfg.limit, None) && carry <= WINDOW
    ensures ConnOk(cfg, Conn(0, false, Reading, Body(None, carry, GrowTarget(cfg.limit, None, true, 0, carry), 0, false)))
  {
    if carry > 0 {
      GrowBounds(cfg.limit, cfg.top, None, true, 0, carry);
      GrowShape(cfg.limit, cfg.top, None, true, 0, carry);
    }
  }

  lemma ReadOk(cfg: Config, c: Conn)
    requires ConfigOk(cfg) && ConnOk(cfg, c) && c.phase.Reading?
    ensures var want := ReadWant(cfg.limit, c.body, Free(c));
      var b := c.body.(ready := WINDOW, managed := true);
      if c.charged < want then AskOk(cfg, c, b, want - c.charged)
      else ConnOk(cfg, c.(body := b))
  {
    hide ReadWant, ReadNeed, Covered;
    WantBounds(cfg.limit, cfg.top, c.body, Free(c));
    WantFree(cfg.limit, c.body, Free(c));
    if cfg.top <= SIZE_MAX / 2 {
      var want := ReadWant(cfg.limit, c.body, false);
      ReadCovered(cfg.limit, cfg.top, c.body, false, if c.charged < want then want else c.charged);
      CoveredManaged(cfg.limit, c.body.(ready := WINDOW), if c.charged < want then want else c.charged);
    }
  }

  lemma WantFree(limit: nat, b: Body, free: bool)
    requires free ==> b.declared.None?
    ensures ReadWant(limit, b, free) == ReadWant(limit, b, false)
  {
    FreeIrrelevant(limit, b.declared, free, b.cap, ReadNeed(limit, b));
  }

  lemma CoveredManaged(limit: nat, b: Body, charged: nat)
    requires Covered(limit, b, false, charged)
    ensures Covered(limit, b.(managed := true), false, charged)
  {
  }

  lemma FeedOk(cfg: Config, c: Conn, n: nat)
    requires ConfigOk(cfg) && ConnOk(cfg, c) && c.phase.Reading? && c.body.managed && n <= c.body.ready
    requires c.body.len + n <= Ceiling(cfg.limit, c.body.declared)
    ensures var b := Fed(cfg.limit, c.body, Free(c), n);
      ConnOk(cfg, c.(body := b, charged := if b.cap > c.body.cap then Min(c.charged, b.cap) else c.charged))
  {
    hide Covered, GrowTarget;
    FreeIrrelevant(cfg.limit, c.body.declared, Free(c), c.body.cap, c.body.len + n);
    var m := c.body.len + n;
    if m > c.body.cap {
      GrowBounds(cfg.limit, cfg.top, c.body.declared, false, c.body.cap, m);
      GrowShape(cfg.limit, cfg.top, c.body.declared, false, c.body.cap, m);
    } else {
      GrowNothing(cfg.limit, c.body.declared, c.body.cap, m);
    }
    if cfg.top <= SIZE_MAX / 2 && !c.exempt { FeedCovered(cfg.limit, cfg.top, c.body, false, c.charged, n); }
  }

  lemma GrowNothing(limit: nat, declared: Option<nat>, cap: nat, m: nat)
    requires m <= cap
    ensures GrowTarget(limit, declared, false, cap, m) == cap
  {
  }

  lemma ParkOk(cfg: Config, c: Conn)
    requires ConfigOk(cfg) && ConnOk(cfg, c) && c.phase.Reading?
    ensures c.body.cap > 0 ==> ConnOk(cfg, c.(body := c.body.(ready := 0), charged := Min(c.charged, c.body.cap)))
    ensures ConnOk(cfg, c.(phase := Ended, charged := Min(c.charged, c.body.cap)))
  {
  }

  // ---------------------------------------------------------------------
  // Every step
  // ---------------------------------------------------------------------

  lemma InitialOk(cfg: Config, n: nat)
    requires ConfigOk(cfg)
    ensures Inv(cfg, Initial(n)) && NoStall(cfg, Initial(n))
  {
    var conns := Initial(n).conns;
    SumNothing(conns, Charged);
    SumNothing(conns, Holder);
    SumNothing(conns, Blocked);
    SumNothing(conns, Exempt);
    SumNothing(conns, Ordinary);
  }

  lemma {:induction false} SumNothing(conns: seq<Conn>, f: Conn -> nat)
    requires forall i :: 0 <= i < |conns| ==> f(conns[i]) == 0
    ensures Sum(conns, f) == 0
  {
    if conns != [] { SumNothing(conns[..|conns| - 1], f); }
  }

  lemma LookKeeps(cfg: Config, s: Server)
    requires Inv(cfg, s)
    ensures Inv(cfg, Look(cfg, s)) && NoStall(cfg, Look(cfg, s))
  {
    hide Batch, QueueOk, ConnsOk, Sum;
    BatchKeeps(cfg, s, BATCH);
    CanGoFields(cfg, s);
  }

  /** The flags of the admission loop decide nothing about who goes. */
  lemma CanGoFields(cfg: Config, s: Server)
    ensures forall a: bool, n: nat :: CanGo(cfg, s.(admitting := a, calls := n)) == CanGo(cfg, s)
  {
  }

  lemma InvFields(cfg: Config, s: Server, a: bool, n: nat)
    requires Inv(cfg, s)
    ensures Inv(cfg, s.(admitting := a, calls := n))
  {
  }

  lemma ReadKeeps(cfg: Config, s: Server, i: nat)
    requires Inv(cfg, s) && Guard(cfg, s, Read(i))
    ensures Inv(cfg, Next(cfg, s, Read(i)))
  {
    hide ConnOk, AskOk, QueueOk, Accounts, Limited, Fed, Look, ReadWant, FirstReserve, GrowTarget, Fits, Ceiling;
    var c := s.conns[i];
    ReadOk(cfg, c);
    var b := c.body.(ready := WINDOW, managed := true);
    var want := ReadWant(cfg.limit, c.body, Free(c));
    if c.charged < want { AskKeeps(cfg, s, i, b, want - c.charged); }
    else { BodyChanges(cfg, s, i, b, Reading); SetReading(SetBody(s, i, b), i); }
  }

  lemma FeedKeeps(cfg: Config, s: Server, i: nat, n: nat)
    requires Inv(cfg, s) && Guard(cfg, s, Feed(i, n))
    ensures Inv(cfg, Next(cfg, s, Feed(i, n)))
  {
    hide ConnOk, AskOk, QueueOk, Accounts, Limited, Fed, Look, ReadWant, FirstReserve, GrowTarget, Fits, Ceiling;
    var c := s.conns[i];
    FeedOk(cfg, c, n);
    var b := Fed(cfg.limit, c.body, Free(c), n);
    if b.cap > c.body.cap {
      TrimKeeps(cfg, s, i, b, b.cap, Reading);
      SetReading(Trim(SetBody(s, i, b), i, b.cap), i);
    } else {
      BodyChanges(cfg, s, i, b, Reading);
      SetReading(SetBody(s, i, b), i);
    }
  }

  lemma StepKeepsInv(cfg: Config, s: Server, st: Step)
    requires Inv(cfg, s) && Guard(cfg, s, st)
    ensures Inv(cfg, Next(cfg, s, st))
  {
    hide ConnOk, AskOk, QueueOk, Accounts, Limited, Fed, Look, ReadWant, FirstReserve, GrowTarget, Fits, Ceiling;
    match st
    case BeginSized(i, declared, carry) =>
      BeginSizedOk(cfg, declared, carry);
      IdleIs(cfg, s, i);
      AskKeeps(cfg, s, i, Body(Some(declared), 0, 0, carry, true), FirstReserve(declared, carry));
    case BeginChunked(i, carry) =>
      BeginChunkedOk(cfg, carry);
      IdleIs(cfg, s, i);
      BodyChanges(cfg, s, i, Body(None, carry, GrowTarget(cfg.limit, None, true, 0, carry), 0, false), Reading);
    case Read(i) => ReadKeeps(cfg, s, i);
    case Feed(i, n) => FeedKeeps(cfg, s, i, n);
    case Park(i) =>
      var c := s.conns[i];
      ParkOk(cfg, c);
      TrimKeeps(cfg, s, i, c.body.(ready := 0), c.body.cap, Reading);
      SetReading(Trim(SetBody(s, i, c.body.(ready := 0)), i, c.body.cap), i);
    case End(i) =>
      var c := s.conns[i];
      ParkOk(cfg, c);
      TrimKeeps(cfg, s, i, c.body, c.body.cap, Ended);
      assert SetBody(s, i, c.body) == s;
    case Finish(i) => ReleaseKeeps(cfg, s, i);
    case Wait(i) => EnqueueKeeps(cfg, s, i);
    case Expire(i) => ExpireKeeps(cfg, s, i);
    case Call =>
      InvFields(cfg, s, s.admitting, s.calls - 1);
      LookKeeps(cfg, s.(calls := s.calls - 1));
    case Loop => LookKeeps(cfg, s);
  }

  lemma IdleIs(cfg: Config, s: Server, i: nat)
    requires Inv(cfg, s) && i < |s.conns| && s.conns[i].phase.Idle?
    ensures s.conns[i] == Conn(0, false, Idle, NoBody())
  {
  }

  lemma SetReading(s: Server, i: nat)
    requires i < |s.conns| && s.conns[i].phase.Reading?
    ensures SetPhase(s, i, Reading) == s
  {
    assert s.conns[i := s.conns[i].(phase := Reading)] == s.conns;
  }

  // ---------------------------------------------------------------------
  // No stall
  // ---------------------------------------------------------------------

  /** A change to a connection outside the list that leaves the counters alone
      leaves the head where it stood. */
  lemma SameHead(cfg: Config, s: Server, t: Server, i: nat)
    requires QueueOk(s.conns, s.queue) && i < |s.conns| && !s.conns[i].phase.Waiting? && t.queue == s.queue
    requires |t.conns| == |s.conns| && forall j :: 0 <= j < |s.conns| && j != i ==> t.conns[j] == s.conns[j]
    ensures t.inUse == s.inUse && t.holders == s.holders && t.blocked == s.blocked && t.exemptActive == s.exemptActive ==>
      CanGo(cfg, t) == CanGo(cfg, s)
    ensures t.inUse >= s.inUse && t.exemptActive && !CanGo(cfg, s) ==> !CanGo(cfg, t) || s.queue == []
  {
  }

  lemma AskNoStall(cfg: Config, s: Server, i: nat, b: Body, need: nat)
    requires Inv(cfg, s) && NoStall(cfg, s) && i < |s.conns| && !s.conns[i].phase.Waiting?
    ensures NoStall(cfg, Ask(cfg, SetBody(s, i, b), i, need))
  {
    hide ConnsOk, Sum, CanGo;
    var t := Ask(cfg, SetBody(s, i, b), i, need);
    SameHead(cfg, s, t, i);
    HolderCounted(s, i);
  }

  lemma TrimNoStall(cfg: Config, s: Server, i: nat, b: Body, keep: nat, p: Phase)
    requires Inv(cfg, s) && NoStall(cfg, s) && i < |s.conns| && !s.conns[i].phase.Waiting? && s.conns[i].charged <= s.inUse
    ensures NoStall(cfg, SetPhase(Trim(SetBody(s, i, b), i, keep), i, p))
    ensures NoStall(cfg, SetPhase(SetBody(s, i, b), i, p))
  {
    hide ConnsOk, Accounts, CanGo;
    SameHead(cfg, s, SetPhase(Trim(SetBody(s, i, b), i, keep), i, p), i);
    SameHead(cfg, s, SetPhase(SetBody(s, i, b), i, p), i);
  }

  lemma StepKeepsNoStall(cfg: Config, s: Server, st: Step)
    requires Inv(cfg, s) && NoStall(cfg, s) && Guard(cfg, s, st)
    ensures NoStall(cfg, Next(cfg, s, st))
  {
    hide ConnOk, QueueOk, Accounts, Limited, Fed, ReadWant, FirstReserve, GrowTarget, Fits, Ceiling, CanGo, Look, NoStall;
    match st
    case BeginSized(i, declared, carry) =>
      AskNoStall(cfg, s, i, Body(Some(declared), 0, 0, carry, true), FirstReserve(declared, carry));
    case BeginChunked(i, carry) =>
      IdleIs(cfg, s, i);
      TrimNoStall(cfg, s, i, Body(None, carry, GrowTarget(cfg.limit, None, true, 0, carry), 0, false), 0, Reading);
    case Read(i) =>
      var c := s.conns[i];
      var b := c.body.(ready := WINDOW, managed := true);
      HolderCounted(s, i);
      if c.charged < ReadWant(cfg.limit, c.body, Free(c)) { AskNoStall(cfg, s, i, b, ReadWant(cfg.limit, c.body, Free(c)) - c.charged); }
      else { TrimNoStall(cfg, s, i, b, 0, Reading); SetReading(SetBody(s, i, b), i); }
    case Feed(i, n) =>
      var c := s.conns[i];
      var b := Fed(cfg.limit, c.body, Free(c), n);
      TrimNoStall(cfg, s, i, b, b.cap, Reading);
      if b.cap > c.body.cap { SetReading(Trim(SetBody(s, i, b), i, b.cap), i); }
      else { SetReading(SetBody(s, i, b), i); }
    case Park(i) =>
      var c := s.conns[i];
      TrimNoStall(cfg, s, i, c.body.(ready := 0), c.body.cap, Reading);
      SetReading(Trim(SetBody(s, i, c.body.(ready := 0)), i, c.body.cap), i);
    case End(i) =>
      var c := s.conns[i];
      TrimNoStall(cfg, s, i, c.body, c.body.cap, Ended);
      assert SetBody(s, i, c.body) == s;
    case Finish(i) => CallsPending(cfg, Release(s, i));
    case Wait(i) => CallsPending(cfg, Enqueue(s, i));
    case Expire(i) => CallsPending(cfg, Unlink(s, i, Dropped).(calls := s.calls + 1));
    case Call =>
      InvFields(cfg, s, s.admitting, s.calls - 1);
      LookKeeps(cfg, s.(calls := s.calls - 1));
      CallsPending(cfg, s.(calls := s.calls - 1));
    case Loop => LookKeeps(cfg, s);
  }

  lemma CallsPending(cfg: Config, s: Server)
    ensures s.calls > 0 || s.admitting || s.queue == [] ==> NoStall(cfg, s)
  {
  }
}
