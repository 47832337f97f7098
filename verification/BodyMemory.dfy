// Admission of request bodies to a limited amount of memory: reservations, the
// first-come waiting list and the rule that lets one request go past the limit.

module BodyMemory {
  import opened Options
  import opened BodyBuffer

  const BATCH: nat := 64

  /** The memory limit, the largest body a request may have (0 for none) and a
      bound on every body, which is the largest body where there is one. */
  datatype Config = Config(memCap: nat, limit: nat, top: nat)

  predicate ConfigOk(cfg: Config) { 0 < cfg.memCap < SIZE_MAX && cfg.top > 0 && (cfg.limit > 0 ==> cfg.top == cfg.limit) }

  /** Who has the connection: nobody's request, a body being read, a handler
      after the body ended, a refusal after too long a wait, its owner about to
      wait, or the list. */
  datatype Phase = Idle | Reading | Ended | Dropped | Refused(need: nat) | Waiting(need: nat)

  datatype Conn = Conn(charged: nat, exempt: bool, phase: Phase, body: Body)

  function NoBody(): Body { Body(None, 0, 0, 0, false) }

  /** The fields one mutex guards, and `calls`, the admissions that some thread
      has left the mutex to start. */
  datatype Server = Server(
    conns: seq<Conn>, inUse: nat, holders: nat, blocked: nat, exemptActive: bool,
    queue: seq<nat>, admitting: bool, calls: nat)

  function Free(c: Conn): bool { c.charged == 0 && !c.exempt }

  // ---------------------------------------------------------------------
  // The locked regions
  // ---------------------------------------------------------------------

  predicate FitsNow(cfg: Config, s: Server, need: nat) { s.inUse <= cfg.memCap && need <= cfg.memCap - s.inUse }

  function Min(a: nat, b: nat): nat { if a < b then a else b }

  /** How much of a need is charged: never more than the whole limit, and never
      so much that the sum wraps. */
  function Charge(cfg: Config, s: Server, need: nat): nat {
    Min(Min(need, cfg.memCap), if s.inUse <= SIZE_MAX then SIZE_MAX - s.inUse else 0)
  }

  function Grant(cfg: Config, s: Server, i: nat, need: nat): Server
    requires i < |s.conns|
  {
    var c := s.conns[i];
    var n := Charge(cfg, s, need);
    if n == 0 then s
    else s.(conns := s.conns[i := c.(charged := c.charged + n)], inUse := s.inUse + n,
            holders := if c.charged == 0 then s.holders + 1 else s.holders)
  }

  /** Reserves at once or not at all. */
  function TryReserve(cfg: Config, s: Server, i: nat, need: nat): (Server, bool)
    requires i < |s.conns|
  {
    if s.conns[i].exempt || (s.queue == [] && FitsNow(cfg, s, need)) then (Grant(cfg, s, i, need), true) else (s, false)
  }

  function SetPhase(s: Server, i: nat, p: Phase): Server
    requires i < |s.conns|
  {
    s.(conns := s.conns[i := s.conns[i].(phase := p)])
  }

  /** A reservation the connection waits for if it cannot have it. */
  function Ask(cfg: Config, s: Server, i: nat, need: nat): Server
    requires i < |s.conns|
  {
    var (t, ok) := TryReserve(cfg, s, i, need);
    if ok then SetPhase(t, i, Reading) else SetPhase(s, i, Refused(need))
  }

  /** The tail of the list. */
  function Enqueue(s: Server, i: nat): Server
    requires i < |s.conns| && s.conns[i].phase.Refused?
  {
    var c := s.conns[i];
    SetPhase(s, i, Waiting(c.phase.need)).(
      queue := s.queue + [i], blocked := if c.charged > 0 then s.blocked + 1 else s.blocked, calls := s.calls + 1)
  }

  function Without(q: seq<nat>, i: nat): seq<nat> { if q == [] then [] else if q[0] == i then q[1..] else [q[0]] + Without(q[1..], i) }

  /** Out of the list, which is what claims the connection. */
  function Unlink(s: Server, i: nat, p: Phase): Server
    requires i < |s.conns|
  {
    var c := s.conns[i];
    SetPhase(s, i, p).(queue := Without(s.queue, i), blocked := if c.charged > 0 && s.blocked > 0 then s.blocked - 1 else s.blocked)
  }

  /** The body is gone, and the whole reservation and the exemption with it. */
  function Release(s: Server, i: nat): Server
    requires i < |s.conns| && s.conns[i].charged <= s.inUse
  {
    var c := s.conns[i];
    s.(conns := s.conns[i := Conn(0, false, Idle, NoBody())], inUse := s.inUse - c.charged,
       holders := if c.charged > 0 && s.holders > 0 then s.holders - 1 else s.holders,
       exemptActive := s.exemptActive && !c.exempt,
       calls := if s.queue != [] then s.calls + 1 else s.calls)
  }

  /** The part of a reservation above keep goes back. */
  function Trim(s: Server, i: nat, keep: nat): Server
    requires i < |s.conns| && s.conns[i].charged <= s.inUse
  {
    var c := s.conns[i];
    if c.charged <= keep then s
    else s.(conns := s.conns[i := c.(charged := keep)], inUse := s.inUse - (c.charged - keep),
            holders := if keep == 0 && s.holders > 0 then s.holders - 1 else s.holders,
            calls := if s.queue != [] then s.calls + 1 else s.calls)
  }

  /** May the head go ahead past the limit? */
  predicate Ahead(cfg: Config, s: Server, need: nat) { !FitsNow(cfg, s, need) && !s.exemptActive && s.holders == s.blocked }

  predicate HeadGoes(cfg: Config, s: Server)
    requires s.queue != [] && s.queue[0] < |s.conns| && s.conns[s.queue[0]].phase.Waiting?
  {
    var need := s.conns[s.queue[0]].phase.need;
    FitsNow(cfg, s, need) || Ahead(cfg, s, need)
  }

  function AdmitHead(cfg: Config, s: Server): Server
    requires s.queue != [] && s.queue[0] < |s.conns| && s.conns[s.queue[0]].phase.Waiting?
  {
    var i := s.queue[0];
    var need := s.conns[i].phase.need;
    var ahead := Ahead(cfg, s, need);
    var t := Grant(cfg, Unlink(s, i, Reading), i, need);
    if ahead then t.(conns := t.conns[i := t.conns[i].(exempt := true)], exemptActive := true) else t
  }

  /** Every queued number names a waiting connection, once. */
  ghost predicate QueueOk(conns: seq<Conn>, q: seq<nat>) {
    && (forall k :: 0 <= k < |q| ==> q[k] < |conns| && conns[q[k]].phase.Waiting?)
    && (forall j, k :: 0 <= j < k < |q| ==> q[j] != q[k])
    && (forall i :: 0 <= i < |conns| && conns[i].phase.Waiting? ==> i in q)
  }

  // ---------------------------------------------------------------------
  // Sums over connections
  // ---------------------------------------------------------------------

  function Sum(conns: seq<Conn>, f: Conn -> nat): nat {
    if conns == [] then 0 else Sum(conns[..|conns| - 1], f) + f(conns[|conns| - 1])
  }

  lemma {:induction false} SumUpdate(conns: seq<Conn>, f: Conn -> nat, i: nat, c: Conn)
    requires i < |conns|
    ensures Sum(conns[i := c], f) + f(conns[i]) == Sum(conns, f) + f(c)
  {
    var n := |conns| - 1;
    if i == n { assert conns[i := c][..n] == conns[..n]; }
    else {
      SumUpdate(conns[..n], f, i, c);
      assert conns[i := c][..n] == conns[..n][i := c];
    }
  }

  lemma {:induction false} SumAtLeast(conns: seq<Conn>, f: Conn -> nat, i: nat)
    requires i < |conns|
    ensures f(conns[i]) <= Sum(conns, f)
  {
    var n := |conns| - 1;
    if i < n { SumAtLeast(conns[..n], f, i); }
  }

  lemma {:induction false} SumBelow(conns: seq<Conn>, f: Conn -> nat, g: Conn -> nat)
    requires forall i :: 0 <= i < |conns| ==> f(conns[i]) <= g(conns[i])
    ensures Sum(conns, f) <= Sum(conns, g)
  {
    if conns != [] { SumBelow(conns[..|conns| - 1], f, g); }
  }

  /** Where one sum is larger, some connection's part is. */
  lemma {:induction false} SumWitness(conns: seq<Conn>, f: Conn -> nat, g: Conn -> nat) returns (i: nat)
    requires Sum(conns, f) > Sum(conns, g)
    ensures i < |conns| && f(conns[i]) > g(conns[i])
  {
    var n := |conns| - 1;
    if f(conns[n]) > g(conns[n]) { i := n; } else { i := SumWitness(conns[..n], f, g); }
  }

  function Charged(c: Conn): nat { c.charged }
  function Holder(c: Conn): nat { if c.charged > 0 then 1 else 0 }
  function Blocked(c: Conn): nat { if c.charged > 0 && c.phase.Waiting? then 1 else 0 }
  function Exempt(c: Conn): nat { if c.exempt then 1 else 0 }
  function Ordinary(c: Conn): nat { if c.exempt then 0 else c.charged }
  function Past(c: Conn): nat { if c.exempt then c.charged else 0 }

  // ---------------------------------------------------------------------
  // Steps
  // ---------------------------------------------------------------------

  /** Everything that happens under the mutex, or to a body between two such
      regions. */
  datatype Step =
    | BeginSized(i: nat, declared: nat, carry: nat)
    | BeginChunked(i: nat, carry: nat)
    | Read(i: nat)
    | Feed(i: nat, n: nat)
    | Park(i: nat)
    | End(i: nat)
    | Finish(i: nat)
    | Wait(i: nat)
    | Expire(i: nat)
    | Call
    | Loop

  function SetBody(s: Server, i: nat, b: Body): Server
    requires i < |s.conns|
  {
    s.(conns := s.conns[i := s.conns[i].(body := b)])
  }

  /** Does the head of the list go, by fitting or past the limit? */
  predicate CanGo(cfg: Config, s: Server) {
    s.queue != [] && s.queue[0] < |s.conns| && s.conns[s.queue[0]].phase.Waiting? && HeadGoes(cfg, s)
  }

  /** Admits from the head while the head goes, at most n at once. */
  function Batch(cfg: Config, s: Server, n: nat): Server
    decreases n
  {
    if n == 0 || !CanGo(cfg, s) then s else Batch(cfg, AdmitHead(cfg, s), n - 1)
  }

  /** One turn of the admission loop; a turn that admits nobody ends it. */
  function Look(cfg: Config, s: Server): Server {
    if CanGo(cfg, s) then Batch(cfg, s, BATCH).(admitting := true) else s.(admitting := false)
  }

  ghost predicate Guard(cfg: Config, s: Server, st: Step) {
    match st
    case BeginSized(i, declared, carry) =>
      i < |s.conns| && s.conns[i].phase.Idle? && Fits(cfg.limit, cfg.top, Some(declared)) && carry < declared && carry <= WINDOW
    case BeginChunked(i, carry) =>
      i < |s.conns| && s.conns[i].phase.Idle? && Fits(cfg.limit, cfg.top, None) && carry <= Ceiling(cfg.limit, None) && carry <= WINDOW
    case Read(i) => i < |s.conns| && s.conns[i].phase.Reading?
    case Feed(i, n) =>
      && i < |s.conns| && s.conns[i].phase.Reading? && s.conns[i].body.managed && n <= s.conns[i].body.ready
      && s.conns[i].body.len + n <= Ceiling(cfg.limit, s.conns[i].body.declared)
      && s.conns[i].charged <= s.inUse
    case Park(i) => i < |s.conns| && s.conns[i].phase.Reading? && s.conns[i].body.cap > 0 && s.conns[i].charged <= s.inUse
    case End(i) => i < |s.conns| && s.conns[i].phase.Reading? && s.conns[i].charged <= s.inUse
    case Finish(i) => i < |s.conns| && s.conns[i].phase in {Reading, Ended, Dropped} && s.conns[i].charged <= s.inUse
    case Wait(i) => i < |s.conns| && s.conns[i].phase.Refused?
    case Expire(i) => i < |s.conns| && s.conns[i].phase.Waiting?
    case Call => s.calls > 0
    case Loop => s.admitting
  }

  function Next(cfg: Config, s: Server, st: Step): Server
    requires Guard(cfg, s, st)
  {
    match st
    case BeginSized(i, declared, carry) =>
      Ask(cfg, SetBody(s, i, Body(Some(declared), 0, 0, carry, true)), i, FirstReserve(declared, carry))
    case BeginChunked(i, carry) =>
      SetPhase(SetBody(s, i, Body(None, carry, GrowTarget(cfg.limit, None, true, 0, carry), 0, false)), i, Reading)
    case Read(i) =>
      var c := s.conns[i];
      var want := ReadWant(cfg.limit, c.body, Free(c));
      var t := SetBody(s, i, c.body.(ready := WINDOW, managed := true));
      if c.charged < want then Ask(cfg, t, i, want - c.charged) else t
    case Feed(i, n) =>
      var c := s.conns[i];
      var b := Fed(cfg.limit, c.body, Free(c), n);
      var t := SetBody(s, i, b);
      if b.cap > c.body.cap then Trim(t, i, b.cap) else t
    case Park(i) =>
      var c := s.conns[i];
      Trim(SetBody(s, i, c.body.(ready := 0)), i, c.body.cap)
    case End(i) => SetPhase(Trim(s, i, s.conns[i].body.cap), i, Ended)
    case Finish(i) => Release(s, i)
    case Wait(i) => Enqueue(s, i)
    case Expire(i) => Unlink(s, i, Dropped).(calls := s.calls + 1)
    case Call => if s.admitting then s.(calls := s.calls - 1) else Look(cfg, s.(calls := s.calls - 1))
    case Loop => Look(cfg, s)
  }

  function Initial(n: nat): Server { Server(seq(n, _ => Conn(0, false, Idle, NoBody())), 0, 0, 0, false, [], false, 0) }

  // ---------------------------------------------------------------------
  // The invariant
  // ---------------------------------------------------------------------

  function Need(p: Phase): nat { match p case Refused(n) => n case Waiting(n) => n case _ => 0 }

  predicate ConnOk(cfg: Config, c: Conn) {
    && (c.exempt ==> c.phase.Reading? || c.phase.Ended?)
    && c.body.cap <= cfg.top
    && (c.phase.Idle? ==> c == Conn(0, false, Idle, NoBody()))
    && (c.phase.Refused? || c.phase.Waiting? ==> Need(c.phase) > 0 && c.body.managed)
    && (c.phase.Reading? || c.phase.Refused? || c.phase.Waiting? ==> ReadingOk(cfg, c))
    && (cfg.top <= SIZE_MAX / 2 && !c.exempt ==> c.charged >= c.body.cap || CarriedOnly(c))
    && c.charged + Need(c.phase) < 2 * cfg.top
  }

  /** A chunked body that has reserved nothing yet: its buffer holds what came
      with the headers. */
  predicate CarriedOnly(c: Conn) { c.charged == 0 && c.body.declared.None? && c.body.cap <= WINDOW }

  predicate ReadingOk(cfg: Config, c: Conn) {
    && BodyOk(cfg.limit, cfg.top, c.body)
    && (c.body.declared.Some? && !c.exempt ==> c.body.managed && c.charged + Need(c.phase) > 0)
    && (cfg.top <= SIZE_MAX / 2 && c.body.managed && !c.exempt ==> Covered(cfg.limit, c.body, false, c.charged + Need(c.phase)))
  }

  ghost predicate ConnsOk(cfg: Config, conns: seq<Conn>) { forall i :: 0 <= i < |conns| ==> ConnOk(cfg, conns[i]) }

  /** The counters say what they stand for, and one exemption at most is out. */
  ghost predicate Accounts(s: Server) {
    && s.inUse == Sum(s.conns, Charged) && s.holders == Sum(s.conns, Holder) && s.blocked == Sum(s.conns, Blocked)
    && Sum(s.conns, Exempt) == (if s.exemptActive then 1 else 0)
  }

  /** All reservations but the exempted one fit under the limit. */
  ghost predicate Limited(cfg: Config, s: Server) { Sum(s.conns, Ordinary) <= cfg.memCap && s.inUse <= SIZE_MAX }

  /** A list that can move is being moved, or about to be. */
  predicate NoStall(cfg: Config, s: Server) { s.queue != [] ==> s.admitting || s.calls > 0 || !CanGo(cfg, s) }

  ghost predicate Inv(cfg: Config, s: Server) {
    && ConfigOk(cfg) && ConnsOk(cfg, s.conns) && QueueOk(s.conns, s.queue) && Accounts(s) && Limited(cfg, s)
  }
}
