// The order in which benchmark workers are pinned to CPUs: one thread of every
// core first, the fastest first, then the cores' other threads.

module CpuTopology {
  const MAX_CPUS: nat := 256

  datatype Cpu = Cpu(cpu: nat, khz: int)

  /** What the system says of its CPUs. sibling is the first CPU of a CPU's core,
      or negative where the system does not say. */
  datatype Machine = Machine(allowed: set<nat>, perf: set<nat>, havePerf: bool, sibling: nat -> int, khz: nat -> int)

  predicate Eligible(m: Machine, cpu: nat) { cpu < MAX_CPUS && cpu in m.allowed && (m.havePerf ==> cpu in m.perf) }

  predicate Leader(m: Machine, cpu: nat) { m.sibling(cpu) == cpu }

  // ---------------------------------------------------------------------
  // Sorting
  // ---------------------------------------------------------------------

  /** The faster first; of equal ones the lower number. */
  predicate Before(x: Cpu, y: Cpu) { x.khz > y.khz || (x.khz == y.khz && x.cpu < y.cpu) }

  ghost predicate Sorted(s: seq<Cpu>) { forall i, j :: 0 <= i < j < |s| ==> Before(s[i], s[j]) || s[i] == s[j] }

  function Insert(s: seq<Cpu>, x: Cpu): seq<Cpu> {
    if s == [] || Before(x, s[0]) || x == s[0] then [x] + s else [s[0]] + Insert(s[1..], x)
  }

  function Sort(s: seq<Cpu>): seq<Cpu> { if s == [] then [] else Insert(Sort(s[1..]), s[0]) }

  lemma {:induction false} InsertIs(s: seq<Cpu>, x: Cpu)
    requires Sorted(s)
    ensures Sorted(Insert(s, x)) && multiset(Insert(s, x)) == multiset(s) + multiset{x}
  {
    hide Sorted;
    if s == [] || Before(x, s[0]) || x == s[0] {
      FrontSorted(s, x);
    } else {
      var t := s[1..];
      assert s == [s[0]] + t;
      TailSorted(s);
      InsertIs(t, x);
      LaterSorted(s, x, Insert(t, x));
    }
  }

  lemma TailSorted(s: seq<Cpu>)
    requires Sorted(s) && s != []
    ensures Sorted(s[1..])
  {
  }

  lemma FrontSorted(s: seq<Cpu>, x: Cpu)
    requires Sorted(s) && (s == [] || Before(x, s[0]) || x == s[0])
    ensures Sorted([x] + s)
  {
  }

  lemma LaterSorted(s: seq<Cpu>, x: Cpu, u: seq<Cpu>)
    requires Sorted(s) && s != [] && !Before(x, s[0]) && x != s[0] && Sorted(u) && multiset(u) == multiset(s[1..]) + multiset{x}
    ensures Sorted([s[0]] + u)
  {
    forall i | 0 <= i < |u| ensures Before(s[0], u[i]) || s[0] == u[i] {
      assert u[i] in multiset(u);
      if u[i] != x {
        assert u[i] in s[1..];
        var j :| 0 <= j < |s| - 1 && s[1..][j] == u[i];
        assert s[j + 1] == u[i];
      }
    }
  }

  lemma {:induction false} SortIs(s: seq<Cpu>)
    ensures Sorted(Sort(s)) && multiset(Sort(s)) == multiset(s)
    ensures var r := Sort(s); forall i, j :: 0 <= i < j < |r| ==> r[i].khz > r[j].khz || (r[i].khz == r[j].khz && r[i].cpu <= r[j].cpu)
  {
    if s != [] {
      SortIs(s[1..]);
      InsertIs(Sort(s[1..]), s[0]);
      assert s == [s[0]] + s[1..];
    }
  }

  // ---------------------------------------------------------------------
  // The two sweeps
  // ---------------------------------------------------------------------

  /** The CPUs below n that a sweep takes, in the order it meets them. */
  function Sweep(m: Machine, leaders: bool, n: nat): seq<Cpu> {
    if n == 0 then []
    else if Eligible(m, n - 1) && Leader(m, n - 1) == leaders then Sweep(m, leaders, n - 1) + [Cpu(n - 1, m.khz(n - 1))]
    else Sweep(m, leaders, n - 1)
  }

  predicate Taken(m: Machine, leaders: bool, n: nat, c: Cpu) {
    c.cpu < n && Eligible(m, c.cpu) && Leader(m, c.cpu) == leaders && c.khz == m.khz(c.cpu)
  }

  /** What a sweep takes: each eligible CPU of its kind once, and no other. */
  lemma {:induction false} SweepIs(m: Machine, leaders: bool, n: nat)
    requires n <= MAX_CPUS
    ensures |Sweep(m, leaders, n)| <= n
    ensures forall c :: multiset(Sweep(m, leaders, n))[c] == (if Taken(m, leaders, n, c) then 1 else 0)
  {
    hide Sweep, Taken;
    if n == 0 {
      SweepNone(m, leaders);
    } else {
      SweepIs(m, leaders, n - 1);
      SweepStep(m, leaders, n);
      forall c ensures multiset(Sweep(m, leaders, n))[c] == (if Taken(m, leaders, n, c) then 1 else 0) { TakenStep(m, leaders, n, c); }
    }
  }

  lemma {:induction false} SweepNone(m: Machine, leaders: bool)
    ensures Sweep(m, leaders, 0) == [] && forall c :: !Taken(m, leaders, 0, c)
  {
  }

  /** One more CPU is taken, or not, at the end. */
  lemma {:induction false} SweepStep(m: Machine, leaders: bool, n: nat)
    requires n > 0
    ensures var s, x := Sweep(m, leaders, n - 1), Cpu(n - 1, m.khz(n - 1));
      if Taken(m, leaders, n, x)
      then |Sweep(m, leaders, n)| == |s| + 1 && multiset(Sweep(m, leaders, n)) == multiset(s) + multiset{x}
      else Sweep(m, leaders, n) == s
  {
    hide Eligible, Leader;
  }

  lemma TakenStep(m: Machine, leaders: bool, n: nat, c: Cpu)
    requires n > 0
    ensures Taken(m, leaders, n - 1, c) ==> c.cpu != n - 1
    ensures Taken(m, leaders, n, c) <==> Taken(m, leaders, n - 1, c) || (c == Cpu(n - 1, m.khz(n - 1)) && Taken(m, leaders, n, c))
  {
    hide Eligible, Leader;
  }

  /** Both sweeps together take no CPU twice, so the array never fills early. */
  lemma {:induction false} SweepsFit(m: Machine, n: nat)
    ensures |Sweep(m, true, n)| + |Sweep(m, false, n)| <= n
  {
    if n > 0 { SweepsFit(m, n - 1); }
  }

  lemma {:induction false} SweepGrows(m: Machine, leaders: bool, i: nat, n: nat)
    requires i <= n
    ensures |Sweep(m, leaders, i)| <= |Sweep(m, leaders, n)|
  {
    if i < n { SweepGrows(m, leaders, i, n - 1); }
  }

  /** One sweep over the CPUs, appending to what the list holds. The bound of the
      array is never what stops it. */
  method SweepLoop(m: Machine, leaders: bool, before: seq<Cpu>) returns (order: seq<Cpu>)
    requires before == [] || (!leaders && |before| == |Sweep(m, true, MAX_CPUS)|)
    ensures order == before + Sweep(m, leaders, MAX_CPUS) && |order| <= MAX_CPUS
  {
    hide Eligible, Leader;
    order := before;
    assert before + [] == before;
    SweepsFit(m, MAX_CPUS);
    var cpu := 0;
    while cpu < MAX_CPUS
      invariant cpu <= MAX_CPUS && order == before + Sweep(m, leaders, cpu)
    {
      SweepGrows(m, leaders, cpu + 1, MAX_CPUS);
      SweepGrows(m, !leaders, 0, MAX_CPUS);
      if Eligible(m, cpu) && Leader(m, cpu) == leaders {
        assert |order| < MAX_CPUS;
        order := order + [Cpu(cpu, m.khz(cpu))];
      }
      cpu := cpu + 1;
    }
  }

  /** How many entries lead their core, counted again from the list. */
  function CountLeaders(m: Machine, s: seq<Cpu>): nat {
    if s == [] then 0 else CountLeaders(m, s[..|s| - 1]) + (if Leader(m, s[|s| - 1].cpu) then 1 else 0)
  }

  lemma {:induction false} CountSplit(m: Machine, a: seq<Cpu>, b: seq<Cpu>)
    requires (forall i :: 0 <= i < |a| ==> Leader(m, a[i].cpu)) && forall i :: 0 <= i < |b| ==> !Leader(m, b[i].cpu)
    ensures CountLeaders(m, a + b) == |a|
    decreases |a| + |b|
  {
    hide Leader;
    var s := a + b;
    if b != [] {
      assert s[..|s| - 1] == a + b[..|b| - 1] && s[|s| - 1] == b[|b| - 1];
      CountSplit(m, a, b[..|b| - 1]);
    } else if a != [] {
      assert s[..|s| - 1] == a[..|a| - 1] + [] && s[|s| - 1] == a[|a| - 1];
      CountSplit(m, a[..|a| - 1], []);
    }
  }

  lemma PartKind(m: Machine, leaders: bool, s: seq<Cpu>)
    requires multiset(s) == multiset(Sweep(m, leaders, MAX_CPUS))
    ensures forall i :: 0 <= i < |s| ==> Leader(m, s[i].cpu) == leaders && Eligible(m, s[i].cpu)
  {
    SweepIs(m, leaders, MAX_CPUS);
    forall i | 0 <= i < |s| ensures Leader(m, s[i].cpu) == leaders && Eligible(m, s[i].cpu) { assert multiset(s)[s[i]] > 0; }
  }

  /** The pinning order and how many core leaders it starts with. */
  method TopologyInit(m: Machine) returns (order: seq<Cpu>, base: nat)
    ensures base <= |order| <= MAX_CPUS && Sorted(order[..base]) && Sorted(order[base..])
    ensures multiset(order[..base]) == multiset(Sweep(m, true, MAX_CPUS))
    ensures multiset(order[base..]) == multiset(Sweep(m, false, MAX_CPUS))
  {
    hide Sweep, Sort, Sorted;
    order := SweepLoop(m, true, []);
    ghost var first, second := Sweep(m, true, MAX_CPUS), Sweep(m, false, MAX_CPUS);
    assert [] + first == first;
    SortIs(order);
    order := Sort(order);
    ghost var lead := order;
    SameLength(lead, first);
    order := SweepLoop(m, false, order);
    PartKind(m, true, lead);
    PartKind(m, false, second);
    CountSplit(m, lead, second);
    base := CountLeaders(m, order);
    assert order[..base] == lead && order[base..] == second;
    SortIs(order[base..]);
    ghost var tail := Sort(order[base..]);
    order := order[..base] + Sort(order[base..]);
    assert order[..base] == lead && order[base..] == tail;
    SameLength(tail, second);
  }

  lemma SameLength(a: seq<Cpu>, b: seq<Cpu>)
    requires multiset(a) == multiset(b)
    ensures |a| == |b|
  {
    assert |multiset(a)| == |a| && |multiset(b)| == |b|;
  }

  // ---------------------------------------------------------------------
  // What the order promises
  // ---------------------------------------------------------------------

  /** An order as the initialisation leaves it. */
  ghost predicate Order(m: Machine, order: seq<Cpu>, base: nat) {
    && base <= |order| && Sorted(order[..base]) && Sorted(order[base..])
    && multiset(order[..base]) == multiset(Sweep(m, true, MAX_CPUS))
    && multiset(order[base..]) == multiset(Sweep(m, false, MAX_CPUS))
  }

  /** The threads that come first are those that lead their core. */
  lemma Kinds(m: Machine, order: seq<Cpu>, base: nat, i: nat)
    requires Order(m, order, base) && i < |order|
    ensures Eligible(m, order[i].cpu) && (Leader(m, order[i].cpu) <==> i < base)
    ensures m.sibling(order[i].cpu) == order[i].cpu <==> i < base
  {
    hide Sweep, Sorted, Eligible;
    PartKind(m, true, order[..base]);
    PartKind(m, false, order[base..]);
    if i < base { assert order[..base][i] == order[i]; } else { assert order[base..][i - base] == order[i]; }
  }

  /** Every eligible CPU is in the order exactly once, and nothing else is. */
  lemma OncePerCpu(m: Machine, order: seq<Cpu>, base: nat, c: Cpu)
    requires Order(m, order, base)
    ensures multiset(order)[c] == if c.cpu < 256 && c.cpu in m.allowed && (m.havePerf ==> c.cpu in m.perf) && c.khz == m.khz(c.cpu) then 1 else 0
  {
    SweepIs(m, true, MAX_CPUS);
    SweepIs(m, false, MAX_CPUS);
    assert order == order[..base] + order[base..];
  }

  /** The CPU of a worker. */
  function Pin(order: seq<Cpu>, slot: nat): nat
    requires order != []
  {
    order[slot % |order|].cpu
  }

  lemma PinSmall(order: seq<Cpu>, slot: nat)
    requires slot < |order|
    ensures Pin(order, slot) == order[slot].cpu
  {
  }

  /** As many workers as there are core leaders never share a core. */
  lemma DistinctCores(m: Machine, order: seq<Cpu>, base: nat, t: nat, i: nat, j: nat)
    requires Order(m, order, base) && i < j < t <= base
    ensures var a, b := Pin(order, i), Pin(order, j); a != b && m.sibling(a) != m.sibling(b)
  {
    hide Sweep, Sorted, Eligible, Pin;
    PinSmall(order, i);
    PinSmall(order, j);
    Kinds(m, order, base, i);
    Kinds(m, order, base, j);
    OncePerCpu(m, order, base, order[i]);
    if order[i].cpu == order[j].cpu {
      SpeedIs(m, order, base, i);
      SpeedIs(m, order, base, j);
      TwiceCounted(order, i, j);
    }
  }

  lemma SpeedIs(m: Machine, order: seq<Cpu>, base: nat, i: nat)
    requires Order(m, order, base) && i < |order|
    ensures order[i].khz == m.khz(order[i].cpu)
  {
    hide Sweep, Sorted, Eligible;
    OncePerCpu(m, order, base, order[i]);
    assert multiset(order)[order[i]] > 0;
  }

  lemma TwiceCounted(s: seq<Cpu>, i: nat, j: nat)
    requires i < j < |s| && s[i] == s[j]
    ensures multiset(s)[s[i]] >= 2
  {
    assert s == s[..i] + [s[i]] + s[i + 1..j] + [s[j]] + s[j + 1..];
  }
}
