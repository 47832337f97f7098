// The server's body-memory fields as the object they are. Each locked region is
// a method that keeps the accounts right and the waiting list moving, and is the
// region of the step machine, so what holds of every run holds of these fields.

module BodyAccounts {
  import opened BodyBuffer
  import opened BodyMemory
  import opened BodyAdmission

  /** The doubling loop of the buffer's growth. */
  method GrowLoop(start: nat, minCap: nat) returns (cap: nat)
    requires start > 0
    ensures cap == Double(start, minCap)
  {
    cap := start;
    while cap < minCap
      invariant cap > 0 && Double(cap, minCap) == Double(start, minCap)
      decreases minCap - cap
    {
      if cap > SIZE_MAX / 2 {
        cap := minCap;
        break;
      }
      cap := 2 * cap;
    }
  }

  class MemoryAccounts {
    const cfg: Config
    var conns: seq<Conn>
    var inUse: nat
    var holders: nat
    var blocked: nat
    var exemptActive: bool
    var queue: seq<nat>
    var admitting: bool
    var calls: nat

    ghost function View(): Server
      reads this
    {
      Server(conns, inUse, holders, blocked, exemptActive, queue, admitting, calls)
    }

    ghost predicate Valid()
      reads this
    {
      Inv(cfg, View())
    }

    /** What holds whenever the mutex is free: right accounts within the limit,
        and a list that can move is being moved or about to be. */
    ghost predicate Steady()
      reads this
    {
      Valid() && NoStall(cfg, View())
    }

    constructor (cfg: Config, n: nat)
      requires ConfigOk(cfg)
      ensures View() == Initial(n) && this.cfg == cfg && Steady()
    {
      this.cfg := cfg;
      conns := seq(n, _ => Conn(0, false, Idle, NoBody()));
      inUse, holders, blocked, calls := 0, 0, 0, 0;
      exemptActive, admitting := false, false;
      queue := [];
      new;
      InitialOk(cfg, n);
    }

    /** Charges a need, or as much of it as the limit is and the counter takes. */
    method GrantTo(i: nat, need: nat)
      requires i < |conns| && inUse <= SIZE_MAX
      modifies this
      ensures View() == Grant(cfg, old(View()), i, need)
      ensures inUse - old(inUse) == conns[i].charged - old(conns[i].charged) && old(inUse) <= inUse <= SIZE_MAX
      ensures var n := if need <= cfg.memCap then need else cfg.memCap;
        inUse == if old(inUse) + n <= SIZE_MAX then old(inUse) + n else SIZE_MAX
    {
      var n := if need > cfg.memCap then cfg.memCap else need;
      if n > SIZE_MAX - inUse { n := SIZE_MAX - inUse; }
      if n == 0 { return; }
      if conns[i].charged == 0 { holders := holders + 1; }
      conns := conns[i := conns[i].(charged := conns[i].charged + n)];
      inUse := inUse + n;
    }

    /** Reserves at once or not at all, and then the connection is left to wait.
        Nobody gets memory past a waiter or past the limit but the exempt one. */
    method Reserve(i: nat, need: nat) returns (ok: bool)
      requires Steady() && i < |conns| && need > 0 && AskOk(cfg, conns[i], conns[i].body, need)
      requires conns[i].phase.Reading? || conns[i].phase.Idle?
      modifies this
      ensures Steady() && View() == Ask(cfg, old(View()), i, need)
      ensures ok <==> old(conns[i].exempt) || (old(queue) == [] && old(inUse) + need <= cfg.memCap)
      ensures ok ==> conns[i].phase.Reading? && conns[i].charged >= old(conns[i].charged)
      ensures !ok ==> inUse == old(inUse) && conns[i] == old(conns[i]).(phase := Refused(need))
      ensures ok && !conns[i].exempt ==> queue == [] && inUse == old(inUse) + need <= cfg.memCap
    {
      hide Inv, NoStall, AskOk;
      AskHere(cfg, View(), i, need);
      ok := conns[i].exempt || (queue == [] && inUse <= cfg.memCap && need <= cfg.memCap - inUse);
      if ok { GrantTo(i, need); }
      conns := conns[i := conns[i].(phase := if ok then Reading else Refused(need))];
    }

    /** The last place in the list; an admission is then due. */
    method EnterList(i: nat)
      requires Steady() && i < |conns| && conns[i].phase.Refused?
      modifies this
      ensures Steady() && View() == Enqueue(old(View()), i)
      ensures queue == old(queue) + [i] && calls == old(calls) + 1
      ensures conns == old(conns)[i := old(conns)[i].(phase := Waiting(old(conns)[i].phase.need))]
    {
      hide Inv;
      EnqueueKeeps(cfg, View(), i);
      var c := conns[i];
      conns := conns[i := c.(phase := Waiting(c.phase.need))];
      queue := queue + [i];
      if c.charged > 0 { blocked := blocked + 1; }
      calls := calls + 1;
    }

    /** Takes the oldest waiter out of the list, charges it, and exempts it when
        it goes past the limit. */
    method TakeHead(past: bool)
      requires Valid() && CanGo(cfg, View()) && past == Ahead(cfg, View(), conns[queue[0]].phase.need)
      modifies this
      ensures Valid() && View() == AdmitHead(cfg, old(View())) && queue == old(queue)[1..]
      ensures Admitted(old(conns), conns, old(queue[0]), past)
    {
      hide Inv, Charge, HeadGoes, Admitted;
      ghost var s := View();
      AdmitKeeps(cfg, s);
      AdmittedHead(cfg, s);
      HeadWaits(cfg, s);
      var i := queue[0];
      var c := conns[i];
      conns := conns[i := c.(phase := Reading)];
      queue := queue[1..];
      if c.charged > 0 && blocked > 0 { blocked := blocked - 1; }
      assert View() == Unlink(s, i, Reading);
      GrantTo(i, c.phase.need);
      if past {
        conns := conns[i := conns[i].(exempt := true)];
        exemptActive := true;
      }
    }

    /** One turn of the admission: the oldest waiters leave the list in order, and
        the turn ends at a head that cannot go or at the size of a batch. */
    method AdmitTurn() returns (admitted: nat)
      requires Valid()
      modifies this
      ensures Steady() && View() == Look(cfg, old(View()))
      ensures admitted <= |old(queue)| && queue == old(queue)[admitted..]
      ensures admitted == 64 || (admitted < 64 && !CanGo(cfg, View()))
      ensures admitted == 0 <==> !CanGo(cfg, old(View()))
      ensures admitting <==> admitted > 0
    {
      hide Inv, AdmitHead, Batch, CanGo, NoStall;
      ghost var s := View();
      admitted := 0;
      while queue != [] && admitted < BATCH
        invariant Inv(cfg, View()) && admitted <= BATCH
        invariant Batch(cfg, s, BATCH) == Batch(cfg, View(), BATCH - admitted)
        invariant admitted == 0 ==> View() == s
        invariant admitted <= |s.queue| && queue == s.queue[admitted..]
        invariant admitted > 0 ==> CanGo(cfg, s)
        decreases BATCH - admitted
      {
        HeadWaits(cfg, View());
        var need := conns[queue[0]].phase.need;
        var fits := inUse <= cfg.memCap && need <= cfg.memCap - inUse;
        var ahead := !fits && !exemptActive && holders == blocked;
        BatchTurn(cfg, View(), BATCH - admitted);
        if !fits && !ahead { break; }
        assert queue[1..] == s.queue[admitted + 1..];
        TakeHead(ahead);
        admitted := admitted + 1;
      }
      BatchEnds(cfg, View(), BATCH - admitted);
      LookKeeps(cfg, s);
      CanGoFields(cfg, View());
      admitting := admitted > 0;
    }

    /** Gives a reservation back with its exemption; waiters are then looked at. */
    method GiveBack(i: nat)
      requires Steady() && i < |conns| && !conns[i].phase.Waiting?
      modifies this
      ensures Steady() && old(conns[i].charged <= inUse) && View() == Release(old(View()), i)
      ensures inUse == old(inUse) - old(conns[i].charged) && conns[i].charged == 0 && !conns[i].exempt
    {
      hide Inv;
      ChargedWithin(cfg, View(), i);
      ReleaseKeeps(cfg, View(), i);
      var c := conns[i];
      if c.charged > 0 {
        inUse := inUse - c.charged;
        if holders > 0 { holders := holders - 1; }
      }
      if c.exempt { exemptActive := false; }
      conns := conns[i := Conn(0, false, Idle, NoBody())];
      if queue != [] { calls := calls + 1; }
    }

    /** Gives the part of a reservation above keep back; waiters are then looked
        at. */
    method GiveBackAbove(i: nat, keep: nat)
      requires Steady() && i < |conns| && conns[i].phase.Reading?
      requires ConnOk(cfg, conns[i].(charged := Min(conns[i].charged, keep)))
      modifies this
      ensures Steady() && old(conns[i].charged <= inUse) && View() == Trim(old(View()), i, keep)
      ensures conns[i].charged == Min(old(conns[i].charged), keep)
      ensures inUse == old(inUse) - (old(conns[i].charged) - conns[i].charged)
    {
      hide Inv, NoStall, ConnOk;
      ChargedWithin(cfg, View(), i);
      TrimHere(cfg, View(), i, keep);
      var c := conns[i];
      if c.charged > keep {
        inUse := inUse - (c.charged - keep);
        if keep == 0 && holders > 0 { holders := holders - 1; }
        conns := conns[i := c.(charged := keep)];
        if queue != [] { calls := calls + 1; }
      }
    }
  }

  /** The waiter i reads again, with all it needed, or past the limit with what the
      limit allows; nobody else is touched. */
  ghost predicate Admitted(before: seq<Conn>, after: seq<Conn>, i: nat, past: bool) {
    && |after| == |before| && i < |before| && before[i].phase.Waiting?
    && after[i].phase.Reading? && after[i].exempt == past && after[i].body == before[i].body
    && (!past ==> after[i].charged == before[i].charged + before[i].phase.need)
    && forall j :: 0 <= j < |before| && j != i ==> after[j] == before[j]
  }

  lemma AdmittedHead(cfg: Config, s: Server)
    requires Inv(cfg, s) && CanGo(cfg, s)
    ensures Admitted(s.conns, AdmitHead(cfg, s).conns, s.queue[0], Ahead(cfg, s, s.conns[s.queue[0]].phase.need))
  {
    hide QueueOk, Sum, BodyOk, Covered;
    assert ConnOk(cfg, s.conns[s.queue[0]]);
  }

  lemma ChargedWithin(cfg: Config, s: Server, i: nat)
    requires Inv(cfg, s) && i < |s.conns|
    ensures s.conns[i].charged <= s.inUse <= SIZE_MAX
  {
    HolderCounted(s, i);
  }

  lemma AskHere(cfg: Config, s: Server, i: nat, need: nat)
    requires Inv(cfg, s) && NoStall(cfg, s) && i < |s.conns| && need > 0 && AskOk(cfg, s.conns[i], s.conns[i].body, need)
    requires s.conns[i].phase.Reading? || s.conns[i].phase.Idle?
    ensures Inv(cfg, Ask(cfg, s, i, need)) && NoStall(cfg, Ask(cfg, s, i, need))
    ensures s.inUse <= SIZE_MAX && cfg.memCap < SIZE_MAX
  {
    assert SetBody(s, i, s.conns[i].body) == s;
    AskKeeps(cfg, s, i, s.conns[i].body, need);
    AskNoStall(cfg, s, i, s.conns[i].body, need);
  }

  lemma TrimHere(cfg: Config, s: Server, i: nat, keep: nat)
    requires Inv(cfg, s) && NoStall(cfg, s) && i < |s.conns| && s.conns[i].phase.Reading? && s.conns[i].charged <= s.inUse
    requires ConnOk(cfg, s.conns[i].(charged := Min(s.conns[i].charged, keep)))
    ensures Inv(cfg, Trim(s, i, keep)) && NoStall(cfg, Trim(s, i, keep))
  {
    hide Inv, NoStall, ConnOk;
    var b := s.conns[i].body;
    assert SetBody(s, i, b) == s;
    TrimKeeps(cfg, s, i, b, keep, Reading);
    TrimNoStall(cfg, s, i, b, keep, Reading);
    SetReading(Trim(s, i, keep), i);
  }

  lemma HeadWaits(cfg: Config, s: Server)
    requires Inv(cfg, s) && s.queue != []
    ensures s.queue[0] < |s.conns| && s.conns[s.queue[0]].phase.Waiting? && s.inUse <= SIZE_MAX
  {
  }

  lemma BatchTurn(cfg: Config, s: Server, n: nat)
    requires Inv(cfg, s) && s.queue != [] && n > 0
    ensures s.queue[0] < |s.conns| && s.conns[s.queue[0]].phase.Waiting?
    ensures var need := s.conns[s.queue[0]].phase.need; CanGo(cfg, s) <==> FitsNow(cfg, s, need) || Ahead(cfg, s, need)
    ensures Batch(cfg, s, n) == if CanGo(cfg, s) then Batch(cfg, AdmitHead(cfg, s), n - 1) else s
  {
    hide AdmitHead;
  }

  lemma BatchEnds(cfg: Config, s: Server, n: nat)
    ensures n == 0 || !CanGo(cfg, s) ==> Batch(cfg, s, n) == s
    ensures s.queue == [] ==> !CanGo(cfg, s)
  {
  }
}
