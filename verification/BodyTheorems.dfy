// What the admission of request bodies promises, for every reachable state and
// every run.

module BodyTheorems {
  import opened Options
  import opened BodyBuffer
  import opened BodyMemory
  import opened BodyAdmission

  /** The state after a run of steps, each allowed where it happens. */
  ghost predicate Runs(cfg: Config, s: Server, steps: seq<Step>, t: Server)
    decreases |steps|
  {
    if steps == [] then s == t else Guard(cfg, s, steps[0]) && Runs(cfg, Next(cfg, s, steps[0]), steps[1..], t)
  }

  lemma {:induction false} RunsKeep(cfg: Config, s: Server, steps: seq<Step>, t: Server)
    requires Inv(cfg, s) && NoStall(cfg, s) && Runs(cfg, s, steps, t)
    ensures Inv(cfg, t) && NoStall(cfg, t)
    decreases |steps|
  {
    hide Inv, NoStall, Guard, Next;
    if steps != [] {
      StepKeepsInv(cfg, s, steps[0]);
      StepKeepsNoStall(cfg, s, steps[0]);
      RunsKeep(cfg, Next(cfg, s, steps[0]), steps[1..], t);
    }
  }

  ghost predicate Reachable(cfg: Config, s: Server) { exists n: nat, steps: seq<Step> :: Runs(cfg, Initial(n), steps, s) }

  lemma ReachableOk(cfg: Config, s: Server)
    requires ConfigOk(cfg) && Reachable(cfg, s)
    ensures Inv(cfg, s) && NoStall(cfg, s)
  {
    var n: nat, steps: seq<Step> :| Runs(cfg, Initial(n), steps, s);
    InitialOk(cfg, n);
    RunsKeep(cfg, Initial(n), steps, s);
  }

  // ---------------------------------------------------------------------
  // The bound
  // ---------------------------------------------------------------------

  lemma {:induction false} SumSplit(conns: seq<Conn>)
    ensures Sum(conns, Charged) == Sum(conns, Ordinary) + Sum(conns, Past)
  {
    if conns != [] { SumSplit(conns[..|conns| - 1]); }
  }

  lemma {:induction false} PastBound(conns: seq<Conn>, b: nat)
    requires Sum(conns, Exempt) <= 1 && forall i :: 0 <= i < |conns| ==> conns[i].charged <= b
    ensures Sum(conns, Past) <= b && (Sum(conns, Exempt) == 0 ==> Sum(conns, Past) == 0)
  {
    if conns != [] { PastBound(conns[..|conns| - 1], b); }
  }

  /** The reservations never reach the limit plus two largest bodies; without an
      exemption they never pass the limit; and the counter is their sum. */
  lemma MemoryBound(cfg: Config, s: Server)
    requires ConfigOk(cfg) && Reachable(cfg, s)
    ensures s.inUse == Sum(s.conns, Charged) < cfg.memCap + 2 * cfg.top
    ensures !s.exemptActive ==> s.inUse <= cfg.memCap
    ensures s.inUse <= cfg.memCap || exists i :: 0 <= i < |s.conns| && s.conns[i].exempt
  {
    ReachableOk(cfg, s);
    SumSplit(s.conns);
    PastBound(s.conns, 2 * cfg.top - 1);
    if s.exemptActive { var i := SumWitness(s.conns, Exempt, _ => 0) by { SumNothing(s.conns, _ => 0); } }
  }

  lemma {:induction false} OneOnly(conns: seq<Conn>, i: nat, j: nat)
    requires i < j < |conns| && conns[i].exempt && conns[j].exempt
    ensures Sum(conns, Exempt) >= 2
  {
    var n := |conns| - 1;
    if j == n { SumAtLeast(conns[..n], Exempt, i); } else { OneOnly(conns[..n], i, j); }
  }

  /** One request at most runs past the limit, and it never waits again. */
  lemma OneExemption(cfg: Config, s: Server, i: nat, j: nat)
    requires ConfigOk(cfg) && Reachable(cfg, s) && i < |s.conns| && j < |s.conns| && s.conns[i].exempt && s.conns[j].exempt
    ensures i == j && i !in s.queue
  {
    ReachableOk(cfg, s);
    if i < j { OneOnly(s.conns, i, j); }
    if j < i { OneOnly(s.conns, j, i); }
  }

  // ---------------------------------------------------------------------
  // When a reservation is granted
  // ---------------------------------------------------------------------

  /** A new Content-Length body is read at once exactly when nobody waits and its
      first buffer fits; otherwise it is left to wait for that much. */
  lemma SizedGrantedWhen(cfg: Config, s: Server, i: nat, declared: nat, carry: nat)
    requires ConfigOk(cfg) && Reachable(cfg, s) && Guard(cfg, s, BeginSized(i, declared, carry))
    ensures var t := Next(cfg, s, BeginSized(i, declared, carry));
      var first := if declared < 16384 then declared else 16384;
      if s.queue == [] && s.inUse + first <= cfg.memCap
      then t.conns[i].phase == Reading && t.conns[i].charged == first && t.inUse == s.inUse + first
      else t.conns[i].phase == Refused(first) && t.conns[i].charged == 0 && t.inUse == s.inUse
  {
    ReachableOk(cfg, s);
    IdleIs(cfg, s, i);
    FirstReserveIs(declared, carry);
    hide Inv, NoStall, Fits, FirstReserve;
  }

  /** A read waits exactly when its body has not reserved enough for it, is not
      exempt, and somebody waits already or the rest does not fit. */
  lemma ReadGrantedWhen(cfg: Config, s: Server, i: nat)
    requires ConfigOk(cfg) && Reachable(cfg, s) && Guard(cfg, s, Read(i))
    ensures var t, c := Next(cfg, s, Read(i)), s.conns[i];
      var want := ReadWant(cfg.limit, c.body, Free(c));
      && (t.conns[i].phase.Refused? <==>
            c.charged < want && !c.exempt && (s.queue != [] || s.inUse + (want - c.charged) > cfg.memCap))
      && (t.conns[i].phase.Refused? ==> t.conns[i].phase.need == want - c.charged && t.conns[i].charged == c.charged && t.inUse == s.inUse)
      && (!t.conns[i].phase.Refused? ==> t.conns[i].phase.Reading? && t.conns[i].body == c.body.(ready := 8192, managed := true))
      && (!t.conns[i].phase.Refused? && !c.exempt ==> t.conns[i].charged == if c.charged < want then want else c.charged)
  {
    ReachableOk(cfg, s);
    hide ReadWant;
  }

  /** A body that waits for its client, or has ended, holds no more than its buffer,
      and so does one whose buffer has just grown. */
  lemma HoldsOnlyItsBuffer(cfg: Config, s: Server, st: Step)
    requires ConfigOk(cfg) && Reachable(cfg, s) && Guard(cfg, s, st) && (st.Park? || st.End? || st.Feed?)
    ensures var t := Next(cfg, s, st);
      && (st.Park? || st.End? || t.conns[st.i].body.cap > s.conns[st.i].body.cap ==> t.conns[st.i].charged <= t.conns[st.i].body.cap)
      && t.inUse + s.conns[st.i].charged == s.inUse + t.conns[st.i].charged
  {
    hide Fed, Inv;
  }

  // ---------------------------------------------------------------------
  // The memory behind the reservations
  // ---------------------------------------------------------------------

  /** The buffer of a body, in whatever phase. */
  function Buffered(c: Conn): nat { c.body.cap }

  /** A body that holds a buffer without a reservation, and may. */
  function Uncharged(c: Conn): nat { if !c.exempt && c.charged == 0 && c.body.cap > 0 then 1 else 0 }

  /** A buffer is within its reservation, is one window of a chunked body that has
      reserved nothing yet, or is the exempt body's, of at most most bytes. */
  predicate BufferOk(c: Conn, most: nat) {
    if c.exempt then c.body.cap <= most else c.body.cap <= c.charged || CarriedOnly(c)
  }

  ghost predicate AllBuffersOk(conns: seq<Conn>, most: nat) { forall i :: 0 <= i < |conns| ==> BufferOk(conns[i], most) }

  lemma BufferPart(c: Conn, most: nat)
    requires BufferOk(c, most)
    ensures Buffered(c) <= Ordinary(c) + WINDOW * Uncharged(c) + (if c.exempt then most else 0)
  {
  }

  lemma {:induction false} BufferSums(conns: seq<Conn>, most: nat)
    requires Sum(conns, Exempt) <= 1 && AllBuffersOk(conns, most)
    ensures Sum(conns, Buffered) <= Sum(conns, Ordinary) + WINDOW * Sum(conns, Uncharged) + (if Sum(conns, Exempt) == 1 then most else 0)
  {
    hide Buffered, Ordinary, Uncharged, BufferOk;
    if conns != [] {
      var n := |conns| - 1;
      BufferSums(conns[..n], most);
      BufferPart(conns[n], most);
    }
  }

  lemma BuffersOk(cfg: Config, s: Server)
    requires Inv(cfg, s) && cfg.top <= SIZE_MAX / 2
    ensures AllBuffersOk(s.conns, cfg.top)
  {
    forall i | 0 <= i < |s.conns| ensures BufferOk(s.conns[i], cfg.top) { assert ConnOk(cfg, s.conns[i]); }
  }

  /** The limit bounds memory, not only reservations. In every phase a buffer is
      within its body's reservation, but for two kinds of bodies: chunked ones that
      have reserved nothing yet keep at most one window that came with the headers,
      and the one exempt body may hold more than it reserved, up to a largest body.
      So all buffers together fit under the limit, one window for each uncharged
      body and one largest body while somebody is exempt. */
  lemma BuffersFit(cfg: Config, s: Server)
    requires ConfigOk(cfg) && Reachable(cfg, s) && cfg.top <= SIZE_MAX / 2
    ensures forall i :: 0 <= i < |s.conns| ==> var c := s.conns[i];
              if c.exempt then c.body.cap <= cfg.top
              else c.body.cap <= c.charged || (c.charged == 0 && c.body.declared.None? && c.body.cap <= WINDOW)
    ensures Sum(s.conns, Buffered) <= cfg.memCap + WINDOW * Sum(s.conns, Uncharged) + (if s.exemptActive then cfg.top else 0)
  {
    hide Sum;
    ReachableOk(cfg, s);
    BuffersOk(cfg, s);
    BufferSums(s.conns, cfg.top);
  }

  /** The capacity feeding n bytes to the body at i leads to. */
  function Grown(cfg: Config, s: Server, i: nat, n: nat): nat
    requires i < |s.conns| && (n <= s.conns[i].body.ready || !s.conns[i].body.managed)
  {
    Fed(cfg.limit, s.conns[i].body, Free(s.conns[i]), n).cap
  }

  /** The connection while its old and its new block are both there. */
  function WithBoth(c: Conn, new_: nat): Conn { c.(body := c.body.(cap := c.body.cap + new_)) }

  lemma BothSum(c: Conn, new_: nat)
    ensures Buffered(WithBoth(c, new_)) == Buffered(c) + new_
    ensures Ordinary(WithBoth(c, new_)) == Ordinary(c) && Exempt(WithBoth(c, new_)) == Exempt(c)
  {
  }

  lemma BothOk(cfg: Config, s: Server, i: nat, n: nat)
    requires Inv(cfg, s) && cfg.top <= SIZE_MAX / 2 && Guard(cfg, s, Feed(i, n)) && Grown(cfg, s, i, n) > s.conns[i].body.cap
    ensures BufferOk(WithBoth(s.conns[i], Grown(cfg, s, i, n)), 2 * cfg.top - 1)
    ensures Uncharged(WithBoth(s.conns[i], Grown(cfg, s, i, n))) == Uncharged(s.conns[i])
  {
    var c := s.conns[i];
    assert ConnOk(cfg, c);
    FreeIrrelevant(cfg.limit, c.body.declared, Free(c), c.body.cap, c.body.len + n);
    GrowBounds(cfg.limit, cfg.top, c.body.declared, false, c.body.cap, c.body.len + n);
    if !c.exempt { FeedCovered(cfg.limit, cfg.top, c.body, false, c.charged, n); }
  }

  lemma OneReplaced(conns: seq<Conn>, i: nat, c: Conn, most: nat, more: nat)
    requires i < |conns| && AllBuffersOk(conns, most) && most <= more && BufferOk(c, more)
    ensures AllBuffersOk(conns[i := c], more)
  {
  }

  /** While a buffer grows, its old and its new block are there together. Then too
      the limit is exceeded by less than twice the largest body, and not at all
      while nobody is exempt, one window for each uncharged body aside. */
  lemma GrowthFits(cfg: Config, s: Server, i: nat, n: nat)
    requires ConfigOk(cfg) && Reachable(cfg, s) && cfg.top <= SIZE_MAX / 2
    requires Guard(cfg, s, Feed(i, n)) && Grown(cfg, s, i, n) > s.conns[i].body.cap
    ensures Sum(s.conns, Buffered) + Grown(cfg, s, i, n) < cfg.memCap + 2 * cfg.top + WINDOW * Sum(s.conns, Uncharged)
    ensures !s.exemptActive ==> Sum(s.conns, Buffered) + Grown(cfg, s, i, n) <= cfg.memCap + WINDOW * Sum(s.conns, Uncharged)
  {
    ReachableOk(cfg, s);
    hide Sum, Guard, Grown, ConnsOk, QueueOk, AllBuffersOk, BufferOk, WithBoth;
    BothSum(s.conns[i], Grown(cfg, s, i, n));
    var c := WithBoth(s.conns[i], Grown(cfg, s, i, n));
    BothOk(cfg, s, i, n);
    BuffersOk(cfg, s);
    OneReplaced(s.conns, i, c, cfg.top, 2 * cfg.top - 1);
    SumUpdate(s.conns, Buffered, i, c);
    SumUpdate(s.conns, Ordinary, i, c);
    SumUpdate(s.conns, Uncharged, i, c);
    SumUpdate(s.conns, Exempt, i, c);
    BufferSums(s.conns[i := c], 2 * cfg.top - 1);
  }

  /** The windows are needed: one chunked body whose first bytes came with its
      headers already passes a limit smaller than its buffer. */
  lemma CarriedPastLimit(cfg: Config)
    requires ConfigOk(cfg) && cfg.limit >= WINDOW > cfg.memCap
    ensures Reachable(cfg, Next(cfg, Initial(1), BeginChunked(0, 1)))
    ensures Sum(Next(cfg, Initial(1), BeginChunked(0, 1)).conns, Buffered) == WINDOW > cfg.memCap
  {
    var s, st := Initial(1), BeginChunked(0, 1);
    var t := Next(cfg, s, st);
    assert Runs(cfg, t, [], t);
    assert [st][1..] == [];
    assert Runs(cfg, s, [st], t);
    assert Double(WINDOW, 1) == WINDOW;
    assert t.conns[..0] == [];
  }

  // ---------------------------------------------------------------------
  // Progress
  // ---------------------------------------------------------------------

  /** Every body that holds memory is itself waiting for more. */
  ghost predicate AllHoldersWait(s: Server) { forall i :: 0 <= i < |s.conns| && s.conns[i].charged > 0 ==> s.conns[i].phase.Waiting? }

  ghost predicate NobodyExempt(s: Server) { forall i :: 0 <= i < |s.conns| ==> !s.conns[i].exempt }

  lemma {:induction false} AllWaitCounts(conns: seq<Conn>)
    requires forall i :: 0 <= i < |conns| && conns[i].charged > 0 ==> conns[i].phase.Waiting?
    ensures Sum(conns, Holder) == Sum(conns, Blocked)
  {
    if conns != [] { AllWaitCounts(conns[..|conns| - 1]); }
  }

  lemma {:induction false} CountsAllWait(conns: seq<Conn>, i: nat)
    requires i < |conns| && conns[i].charged > 0 && !conns[i].phase.Waiting?
    ensures Sum(conns, Holder) > Sum(conns, Blocked)
  {
    var n := |conns| - 1;
    if i < n { CountsAllWait(conns[..n], i); } else { SumBelow(conns[..n], Blocked, Holder); }
  }

  /** The oldest waiter goes exactly when it fits, or when every holder is itself
      waiting and nobody runs past the limit already. */
  lemma HeadGoesWhen(cfg: Config, s: Server)
    requires Inv(cfg, s) && s.queue != []
    ensures CanGo(cfg, s) <==> FitsNow(cfg, s, Need(s.conns[s.queue[0]].phase)) || (AllHoldersWait(s) && NobodyExempt(s))
  {
    hide ConnsOk, Limited;
    if AllHoldersWait(s) { AllWaitCounts(s.conns); }
    else {
      var i :| 0 <= i < |s.conns| && s.conns[i].charged > 0 && !s.conns[i].phase.Waiting?;
      CountsAllWait(s.conns, i);
    }
    if NobodyExempt(s) { SumNothing(s.conns, Exempt); }
    else {
      var i :| 0 <= i < |s.conns| && s.conns[i].exempt;
      SumAtLeast(s.conns, Exempt, i);
    }
  }

  /** Whenever requests wait and no admission is under way or due, some request
      outside the list holds memory or the exemption, and its end, or its joining
      the list where it was just refused more, starts an admission. */
  lemma SomeoneElseHolds(cfg: Config, s: Server) returns (i: nat)
    requires ConfigOk(cfg) && Reachable(cfg, s) && s.queue != [] && !s.admitting && s.calls == 0
    ensures i < |s.conns| && !s.conns[i].phase.Waiting? && (s.conns[i].charged > 0 || s.conns[i].exempt)
    ensures s.conns[i].phase in {Reading, Ended, Dropped} ==> Guard(cfg, s, Finish(i)) && Next(cfg, s, Finish(i)).calls > 0
    ensures s.conns[i].phase.Refused? ==> Guard(cfg, s, Wait(i)) && Next(cfg, s, Wait(i)).calls > 0
    ensures !s.conns[i].phase.Idle?
  {
    ReachableOk(cfg, s);
    HeadGoesWhen(cfg, s);
    if !AllHoldersWait(s) {
      i :| 0 <= i < |s.conns| && s.conns[i].charged > 0 && !s.conns[i].phase.Waiting?;
    } else {
      i :| 0 <= i < |s.conns| && s.conns[i].exempt;
      assert ConnOk(cfg, s.conns[i]);
    }
    HolderCounted(s, i);
  }

  /** Two connections, the first of which has been given the exemption. */
  function Pair(first: Conn, second: Conn, used: nat, held: nat, exempt: bool, queue: seq<nat>, admitting: bool, calls: nat): Server {
    Server([first, second], used, held, 0, exempt, queue, admitting, calls)
  }

  function Tiny(): Config { Config(10, 20, 20) }
  function Twenty(): Body { Body(Some(20), 0, 0, 0, true) }
  function Nobody(): Conn { Conn(0, false, Idle, NoBody()) }
  function Asked(): Conn { Conn(0, false, Refused(20), Twenty()) }
  function Waits(): Conn { Conn(0, false, Waiting(20), Twenty()) }
  function Gone(): Conn { Conn(0, true, Ended, Twenty()) }

  lemma FirstAsks(second: bool)
    ensures var s := if second then Pair(Gone(), Nobody(), 0, 0, true, [], true, 0) else Pair(Nobody(), Nobody(), 0, 0, false, [], false, 0);
      var st := BeginSized(if second then 1 else 0, 20, 0);
      && Guard(Tiny(), s, st)
      && Next(Tiny(), s, st) == if second then Pair(Gone(), Asked(), 0, 0, true, [], true, 0) else Pair(Asked(), Nobody(), 0, 0, false, [], false, 0)
  {
    assert FirstReserve(20, 0) == 20;
  }

  lemma ThenWaits(second: bool)
    ensures var s := if second then Pair(Gone(), Asked(), 0, 0, true, [], true, 0) else Pair(Asked(), Nobody(), 0, 0, false, [], false, 0);
      var st := Wait(if second then 1 else 0);
      && Guard(Tiny(), s, st)
      && Next(Tiny(), s, st) == if second then Pair(Gone(), Waits(), 0, 0, true, [1], true, 1) else Pair(Waits(), Nobody(), 0, 0, false, [0], false, 1)
  {
  }

  lemma GoesPast()
    ensures var s := Pair(Waits(), Nobody(), 0, 0, false, [0], false, 1);
      Guard(Tiny(), s, Call) && Next(Tiny(), s, Call) == Pair(Conn(10, true, Reading, Twenty()), Nobody(), 10, 1, true, [], true, 0)
  {
    AdmitsOne(Tiny(), Pair(Waits(), Nobody(), 0, 0, false, [0], false, 0), Pair(Conn(10, true, Reading, Twenty()), Nobody(), 10, 1, true, [], false, 0));
  }

  lemma LosesBody()
    ensures var s := Pair(Conn(10, true, Reading, Twenty()), Nobody(), 10, 1, true, [], true, 0);
      Guard(Tiny(), s, End(0)) && Next(Tiny(), s, End(0)) == Pair(Gone(), Nobody(), 0, 0, true, [], true, 0)
  {
  }

  /** The exemption clause is needed: a request that went past the limit and lost
      its body before the first byte holds nothing, and still keeps the next
      waiter out until it ends. */
  lemma HolderlessExemption() returns (cfg: Config, steps: seq<Step>, s: Server)
    ensures ConfigOk(cfg) && Runs(cfg, Initial(2), steps, s) && s.queue != [] && AllHoldersWait(s) && !CanGo(cfg, s)
  {
    hide Guard, Next;
    cfg := Tiny();
    steps := [BeginSized(0, 20, 0), Wait(0), Call, End(0), BeginSized(1, 20, 0), Wait(1)];
    s := Pair(Gone(), Waits(), 0, 0, true, [1], true, 1);
    var states := [
      Pair(Nobody(), Nobody(), 0, 0, false, [], false, 0), Pair(Asked(), Nobody(), 0, 0, false, [], false, 0),
      Pair(Waits(), Nobody(), 0, 0, false, [0], false, 1), Pair(Conn(10, true, Reading, Twenty()), Nobody(), 10, 1, true, [], true, 0),
      Pair(Gone(), Nobody(), 0, 0, true, [], true, 0), Pair(Gone(), Asked(), 0, 0, true, [], true, 0), s];
    FirstAsks(false);
    ThenWaits(false);
    GoesPast();
    LosesBody();
    FirstAsks(true);
    ThenWaits(true);
    assert Initial(2) == states[0];
    RunsThrough(cfg, steps, states);
  }

  lemma AdmitsOne(cfg: Config, s: Server, t: Server)
    requires CanGo(cfg, s) && AdmitHead(cfg, s) == t && t.queue == []
    ensures Look(cfg, s) == t.(admitting := true)
  {
    assert !CanGo(cfg, t);
    assert Batch(cfg, t, BATCH - 1) == t;
  }

  /** A run given state by state. */
  lemma RunsThrough(cfg: Config, steps: seq<Step>, states: seq<Server>)
    requires |states| == |steps| + 1
    requires forall i :: 0 <= i < |steps| ==> Guard(cfg, states[i], steps[i]) && Next(cfg, states[i], steps[i]) == states[i + 1]
    ensures Runs(cfg, states[0], steps, states[|steps|])
    decreases |steps|
  {
    hide Guard, Next;
    if steps != [] {
      var rest, later := steps[1..], states[1..];
      forall i | 0 <= i < |rest| ensures Guard(cfg, later[i], rest[i]) && Next(cfg, later[i], rest[i]) == later[i + 1] {
        assert rest[i] == steps[i + 1] && later[i] == states[i + 1] && later[i + 1] == states[i + 2];
      }
      RunsThrough(cfg, rest, later);
    }
  }

  // The run of a single request that goes past the limit and reads its body.

  function Small(): Config { Config(10, 30, 30) }
  function Thirty(len: nat, ready: nat): Body { Body(Some(30), len, len, ready, true) }
  function Alone(c: Conn, used: nat, queue: seq<nat>, admitting: bool, calls: nat): Server {
    Server([c], used, if used > 0 then 1 else 0, 0, c.exempt, queue, admitting, calls)
  }

  lemma AsksAndWaits()
    ensures var s, t := Alone(Nobody(), 0, [], false, 0), Alone(Conn(0, false, Refused(30), Thirty(0, 0)), 0, [], false, 0);
      Guard(Small(), s, BeginSized(0, 30, 0)) && Next(Small(), s, BeginSized(0, 30, 0)) == t
    ensures var s, t := Alone(Conn(0, false, Refused(30), Thirty(0, 0)), 0, [], false, 0), Alone(Conn(0, false, Waiting(30), Thirty(0, 0)), 0, [0], false, 1);
      Guard(Small(), s, Wait(0)) && Next(Small(), s, Wait(0)) == t
  {
    assert FirstReserve(30, 0) == 30;
  }

  lemma IsLetPast()
    ensures var s, t := Alone(Conn(0, false, Waiting(30), Thirty(0, 0)), 0, [0], false, 1), Alone(Conn(10, true, Reading, Thirty(0, 0)), 10, [], true, 0);
      Guard(Small(), s, Call) && Next(Small(), s, Call) == t
  {
    AdmitsOne(Small(), Alone(Conn(0, false, Waiting(30), Thirty(0, 0)), 0, [0], false, 0), Alone(Conn(10, true, Reading, Thirty(0, 0)), 10, [], false, 0));
  }

  lemma ReadsAndGrows()
    ensures var s, t := Alone(Conn(10, true, Reading, Thirty(0, 0)), 10, [], true, 0), Alone(Conn(20, true, Reading, Thirty(0, WINDOW)), 20, [], true, 0);
      Guard(Small(), s, Read(0)) && Next(Small(), s, Read(0)) == t
    ensures var s, t := Alone(Conn(20, true, Reading, Thirty(0, WINDOW)), 20, [], true, 0), Alone(Conn(20, true, Reading, Thirty(30, WINDOW - 30)), 20, [], true, 0);
      Guard(Small(), s, Feed(0, 30)) && Next(Small(), s, Feed(0, 30)) == t
  {
    assert Double(FIRST_CAP, 30) == FIRST_CAP;
    assert GrowTarget(30, Some(30), false, 0, 30) == 30;
  }

  /** The largest body is needed too: each charge is capped at the limit, so the
      exempt body can come to hold a buffer larger than all it reserved. */
  lemma ExemptPastReservation() returns (cfg: Config, steps: seq<Step>, s: Server)
    ensures ConfigOk(cfg) && Runs(cfg, Initial(1), steps, s) && |s.conns| == 1 && s.conns[0].exempt && s.conns[0].body.declared.Some?
    ensures cfg.memCap < s.conns[0].charged < s.conns[0].body.cap == cfg.top
  {
    hide Guard, Next;
    cfg := Small();
    steps := [BeginSized(0, 30, 0), Wait(0), Call, Read(0), Feed(0, 30)];
    s := Alone(Conn(20, true, Reading, Thirty(30, WINDOW - 30)), 20, [], true, 0);
    var states := [
      Alone(Nobody(), 0, [], false, 0), Alone(Conn(0, false, Refused(30), Thirty(0, 0)), 0, [], false, 0),
      Alone(Conn(0, false, Waiting(30), Thirty(0, 0)), 0, [0], false, 1), Alone(Conn(10, true, Reading, Thirty(0, 0)), 10, [], true, 0),
      Alone(Conn(20, true, Reading, Thirty(0, WINDOW)), 20, [], true, 0), s];
    AsksAndWaits();
    IsLetPast();
    ReadsAndGrows();
    assert Initial(1) == states[0];
    RunsThrough(cfg, steps, states);
  }

  // ---------------------------------------------------------------------
  // First come, first served
  // ---------------------------------------------------------------------

  ghost predicate Before(q: seq<nat>, a: nat, b: nat) { exists i, j :: 0 <= i < j < |q| && q[i] == a && q[j] == b }

  lemma {:induction false} BatchQueue(cfg: Config, s: Server, n: nat) returns (k: nat)
    requires Inv(cfg, s)
    ensures k <= |s.queue| && Batch(cfg, s, n).queue == s.queue[k..]
    decreases n
  {
    hide Inv, AdmitHead, HeadGoes;
    if n > 0 && CanGo(cfg, s) {
      AdmitKeeps(cfg, s);
      var j := BatchQueue(cfg, AdmitHead(cfg, s), n - 1);
      k := j + 1;
    } else {
      k := 0;
    }
  }

  lemma {:induction false} WithoutKeepsOrder(q: seq<nat>, i: nat, a: nat, b: nat)
    requires Before(q, a, b) && a != i && b != i
    ensures Before(Without(q, i), a, b)
  {
    var x, y :| 0 <= x < y < |q| && q[x] == a && q[y] == b;
    var x' := WithoutAt(q, i, x);
    var y' := WithoutAt(q, i, y);
    WithoutMonotone(q, i, x, y);
    assert Without(q, i)[Place(q, i, x)] == a && Without(q, i)[Place(q, i, y)] == b;
  }

  /** Where position x of q ends up when i leaves. */
  function Place(q: seq<nat>, i: nat, x: nat): nat
    requires x < |q|
  {
    if x == 0 then 0 else if q[0] == i then x - 1 else 1 + Place(q[1..], i, x - 1)
  }

  lemma {:induction false} WithoutAt(q: seq<nat>, i: nat, x: nat) returns (p: nat)
    requires x < |q| && q[x] != i
    ensures p == Place(q, i, x) < |Without(q, i)| && Without(q, i)[p] == q[x]
  {
    p := Place(q, i, x);
    if x > 0 && q[0] != i { var r := WithoutAt(q[1..], i, x - 1); }
  }

  lemma {:induction false} WithoutMonotone(q: seq<nat>, i: nat, x: nat, y: nat)
    requires x < y < |q| && q[x] != i && q[y] != i
    ensures Place(q, i, x) < Place(q, i, y)
  {
    if x > 0 && q[0] != i { WithoutMonotone(q[1..], i, x - 1, y - 1); }
  }

  /** Only waiting, giving up and admission change the list. */
  lemma OtherSteps(cfg: Config, s: Server, st: Step)
    requires Guard(cfg, s, st) && !st.Wait? && !st.Expire? && !st.Call? && !st.Loop?
    ensures Next(cfg, s, st).queue == s.queue
  {
    hide Fed, ReadWant, FirstReserve, GrowTarget, Fits, Ceiling, Charge, FitsNow;
  }

  /** Nobody is admitted while somebody who came earlier still waits. */
  lemma FirstComeFirstServed(cfg: Config, s: Server, st: Step, a: nat, b: nat)
    requires Inv(cfg, s) && Guard(cfg, s, st) && Before(s.queue, a, b)
    ensures var t := Next(cfg, s, st); a in t.queue && st != Expire(b) ==> b in t.queue && Before(t.queue, a, b)
  {
    BeforeIn(s.queue, a, b);
    if st.Wait? { BeforeAppend(s.queue, st.i, a, b); }
    else if st.Expire? { ExpireOrder(s.conns, s.queue, st.i, a, b); }
    else if st.Loop? { LookOrder(cfg, s, a, b); }
    else if st.Call? {
      hide Look, Inv, Before;
      InvFields(cfg, s, s.admitting, s.calls - 1);
      if !s.admitting { LookOrder(cfg, s.(calls := s.calls - 1), a, b); }
    } else {
      hide Next, Inv, Before;
      OtherSteps(cfg, s, st);
    }
  }

  lemma BeforeIn(q: seq<nat>, a: nat, b: nat)
    requires Before(q, a, b)
    ensures a in q && b in q
  {
  }

  lemma ExpireOrder(conns: seq<Conn>, q: seq<nat>, i: nat, a: nat, b: nat)
    requires QueueOk(conns, q) && Before(q, a, b)
    ensures a in Without(q, i) && i != b ==> b in Without(q, i) && Before(Without(q, i), a, b)
  {
    WithoutIs(q, i);
    if i != a && i != b {
      WithoutKeepsOrder(q, i, a, b);
      BeforeIn(Without(q, i), a, b);
    }
  }

  lemma BeforeAppend(q: seq<nat>, i: nat, a: nat, b: nat)
    requires Before(q, a, b)
    ensures Before(q + [i], a, b) && b in q + [i]
  {
    var x, y :| 0 <= x < y < |q| && q[x] == a && q[y] == b;
    assert (q + [i])[x] == a && (q + [i])[y] == b;
  }

  lemma SuffixOrder(q: seq<nat>, k: nat, a: nat, b: nat)
    requires k <= |q| && Before(q, a, b) && forall i, j :: 0 <= i < j < |q| ==> q[i] != q[j]
    ensures a in q[k..] ==> b in q[k..] && Before(q[k..], a, b)
  {
    var x, y :| 0 <= x < y < |q| && q[x] == a && q[y] == b;
    var r := q[k..];
    if a in r {
      var z :| 0 <= z < |r| && r[z] == a;
      assert q[k + z] == a;
      assert x == k + z;
      assert r[x - k] == a && r[y - k] == b;
    }
  }

  lemma LookOrder(cfg: Config, s: Server, a: nat, b: nat)
    requires Inv(cfg, s) && Before(s.queue, a, b)
    ensures var t := Look(cfg, s); a in t.queue ==> b in t.queue && Before(t.queue, a, b)
  {
    hide Batch, CanGo, Before, ConnsOk, Accounts, Limited;
    var k := BatchQueue(cfg, s, BATCH);
    SuffixOrder(s.queue, k, a, b);
    SuffixOrder(s.queue, 0, a, b);
    assert s.queue[0..] == s.queue;
  }

  /** Over a whole run: while a keeps waiting, b, who came later, is not admitted
      before it; it can only give up. */
  lemma {:induction false} NoOvertaking(cfg: Config, s: Server, steps: seq<Step>, t: Server, a: nat, b: nat)
    requires Inv(cfg, s) && Runs(cfg, s, steps, t) && Before(s.queue, a, b) && Expire(b) !in steps
    requires StillWaits(cfg, s, steps, a)
    ensures b in t.queue && Before(t.queue, a, b)
    decreases |steps|
  {
    hide Inv, Guard, Next;
    if steps != [] {
      FirstComeFirstServed(cfg, s, steps[0], a, b);
      StepKeepsInv(cfg, s, steps[0]);
      NoOvertaking(cfg, Next(cfg, s, steps[0]), steps[1..], t, a, b);
    } else {
      var x, y :| 0 <= x < y < |s.queue| && s.queue[x] == a && s.queue[y] == b;
    }
  }

  /** a is in the list after every step of the run. */
  ghost predicate StillWaits(cfg: Config, s: Server, steps: seq<Step>, a: nat)
    decreases |steps|
  {
    a in s.queue && (steps != [] && Guard(cfg, s, steps[0]) ==> StillWaits(cfg, Next(cfg, s, steps[0]), steps[1..], a))
  }

  // ---------------------------------------------------------------------
  // The oldest waiter can always still be served
  // ---------------------------------------------------------------------

  lemma RunsOne(cfg: Config, s: Server, st: Step, rest: seq<Step>, t: Server)
    requires Guard(cfg, s, st) && Runs(cfg, Next(cfg, s, st), rest, t)
    ensures Runs(cfg, s, [st] + rest, t)
  {
    hide Guard, Next;
    assert ([st] + rest)[1..] == rest;
  }

  lemma {:induction false} RunsThen(cfg: Config, s: Server, first: seq<Step>, t: Server, st: Step)
    requires Runs(cfg, s, first, t) && Guard(cfg, t, st)
    ensures Runs(cfg, s, first + [st], Next(cfg, t, st))
    decreases |first|
  {
    hide Guard, Next;
    if first == [] {
      assert first + [st] == [st] + [];
      assert Runs(cfg, Next(cfg, t, st), [], Next(cfg, t, st));
      RunsOne(cfg, s, st, [], Next(cfg, t, st));
    } else {
      RunsThen(cfg, Next(cfg, s, first[0]), first[1..], t, st);
      assert first + [st] == [first[0]] + (first[1..] + [st]);
      RunsOne(cfg, s, first[0], first[1..] + [st], Next(cfg, t, st));
    }
  }

  /** Everyone before i is idle or in the list. */
  ghost predicate SettledTo(s: Server, i: nat) {
    i <= |s.conns| && forall j :: 0 <= j < i ==> s.conns[j].phase.Idle? || s.conns[j].phase.Waiting?
  }

  /** The step by which connection i stops running: it ends, or joins the list. */
  function Stops(s: Server, i: nat): Step
    requires i < |s.conns|
  {
    if s.conns[i].phase.Refused? then Wait(i) else Finish(i)
  }

  lemma StopsOne(cfg: Config, s: Server, i: nat)
    requires Inv(cfg, s) && s.queue != [] && SettledTo(s, i) && i < |s.conns|
    requires !s.conns[i].phase.Idle? && !s.conns[i].phase.Waiting?
    ensures Guard(cfg, s, Stops(s, i))
    ensures var t := Next(cfg, s, Stops(s, i)); |t.conns| == |s.conns| && SettledTo(t, i + 1) && t.queue != [] && t.queue[0] == s.queue[0]
  {
    hide QueueOk, ConnsOk, Limited;
    HolderCounted(s, i);
  }

  lemma {:induction false} EveryoneStops(cfg: Config, s: Server, i: nat) returns (steps: seq<Step>, t: Server)
    requires Inv(cfg, s) && NoStall(cfg, s) && s.queue != [] && SettledTo(s, i)
    ensures Runs(cfg, s, steps, t) && Inv(cfg, t) && NoStall(cfg, t) && SettledTo(t, |t.conns|)
    ensures t.queue != [] && t.queue[0] == s.queue[0] && forall st :: st in steps ==> st.Finish? || st.Wait?
    decreases |s.conns| - i
  {
    hide Inv, NoStall, Guard, Next;
    if i == |s.conns| {
      steps, t := [], s;
    } else if s.conns[i].phase.Idle? || s.conns[i].phase.Waiting? {
      steps, t := EveryoneStops(cfg, s, i + 1);
    } else {
      StopsOne(cfg, s, i);
      var st := Stops(s, i);
      StepKeepsInv(cfg, s, st);
      StepKeepsNoStall(cfg, s, st);
      var rest;
      rest, t := EveryoneStops(cfg, Next(cfg, s, st), i + 1);
      RunsOne(cfg, s, st, rest, t);
      steps := [st] + rest;
    }
  }

  lemma SettledGoes(cfg: Config, s: Server)
    requires Inv(cfg, s) && NoStall(cfg, s) && s.queue != [] && SettledTo(s, |s.conns|)
    ensures CanGo(cfg, s) && (s.admitting || s.calls > 0)
  {
    hide QueueOk, Accounts, Limited, CanGo;
    HeadGoesWhen(cfg, s);
    forall i | 0 <= i < |s.conns| ensures !s.conns[i].exempt && (s.conns[i].charged > 0 ==> s.conns[i].phase.Waiting?) {
      assert ConnOk(cfg, s.conns[i]);
    }
  }

  lemma {:induction false} BatchOthers(cfg: Config, s: Server, n: nat, i: nat)
    requires Inv(cfg, s) && i < |s.conns| && !s.conns[i].phase.Waiting?
    ensures i < |Batch(cfg, s, n).conns| && Batch(cfg, s, n).conns[i] == s.conns[i]
    decreases n
  {
    hide Inv, AdmitHead, HeadGoes;
    if n > 0 && CanGo(cfg, s) {
      AdmitKeeps(cfg, s);
      AdmitOthers(cfg, s, i);
      BatchOthers(cfg, AdmitHead(cfg, s), n - 1, i);
    }
  }

  lemma AdmitOthers(cfg: Config, s: Server, i: nat)
    requires CanGo(cfg, s) && i < |s.conns|
    ensures |AdmitHead(cfg, s).conns| == |s.conns|
    ensures i != s.queue[0] ==> AdmitHead(cfg, s).conns[i] == s.conns[i]
    ensures i == s.queue[0] ==> AdmitHead(cfg, s).conns[i].phase.Reading?
  {
  }

  lemma LookAdmits(cfg: Config, s: Server)
    requires Inv(cfg, s) && CanGo(cfg, s)
    ensures var i := s.queue[0]; i < |Look(cfg, s).conns| && Look(cfg, s).conns[i].phase.Reading?
  {
    AdmitKeeps(cfg, s);
    AdmitOthers(cfg, s, s.queue[0]);
    hide Inv, AdmitHead, HeadGoes;
    BatchOthers(cfg, AdmitHead(cfg, s), BATCH - 1, s.queue[0]);
    assert Batch(cfg, s, BATCH) == Batch(cfg, AdmitHead(cfg, s), BATCH - 1);
  }

  /** No reachable state is a dead end for the oldest waiter: once the running
      requests end, each in one step of its own, the next turn of the admission
      takes it, whatever it asked for. No deadline and no later arrival is
      needed. */
  lemma OldestCanProceed(cfg: Config, s: Server) returns (steps: seq<Step>, t: Server)
    requires ConfigOk(cfg) && Reachable(cfg, s) && s.queue != []
    ensures Runs(cfg, s, steps, t) && s.queue[0] < |t.conns| && t.conns[s.queue[0]].phase.Reading?
    ensures forall st :: st in steps ==> st.Finish? || st.Wait? || st.Call? || st.Loop?
  {
    hide Inv, NoStall, Next, CanGo, Look;
    ReachableOk(cfg, s);
    var first, u := EveryoneStops(cfg, s, 0);
    SettledGoes(cfg, u);
    var st := if u.admitting then Loop else Call;
    RunsThen(cfg, s, first, u, st);
    steps, t := first + [st], Next(cfg, u, st);
    TurnAdmits(cfg, u);
  }

  lemma TurnAdmits(cfg: Config, s: Server)
    requires Inv(cfg, s) && CanGo(cfg, s) && (s.admitting || s.calls > 0)
    ensures var t := Next(cfg, s, if s.admitting then Loop else Call); s.queue[0] < |t.conns| && t.conns[s.queue[0]].phase.Reading?
  {
    hide Inv, Look, HeadGoes;
    if s.admitting { LookAdmits(cfg, s); }
    else {
      var u := s.(calls := s.calls - 1);
      InvFields(cfg, s, s.admitting, s.calls - 1);
      CanGoFields(cfg, s);
      assert CanGo(cfg, u);
      LookAdmits(cfg, u);
    }
  }
}
