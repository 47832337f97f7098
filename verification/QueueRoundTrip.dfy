// Threads that each send a buffer into one shared queue and then receive one,
// over and over, in any interleaving.

module QueueRoundTrip {
  type Buffer(==, !new)

  /** A thread between its receive and its next send, or between a send and its
      receive; `left` is how many round trips it still has to start or finish. */
  datatype Thread = Holding(buffer: Buffer, left: nat) | Owed(left: nat)

  datatype System = System(threads: seq<Thread>, queue: seq<Buffer>, capacity: nat)

  datatype Step = Send(i: nat) | Receive(i: nat)

  /** The thread's next call returns: it has not finished, and the queue has room
      or a message. */
  predicate Enabled(s: System, st: Step) {
    st.i < |s.threads| &&
    match st
    case Send(i) => s.threads[i].Holding? && s.threads[i].left > 0 && |s.queue| < s.capacity
    case Receive(i) => s.threads[i].Owed? && s.threads[i].left > 0 && s.queue != []
  }

  function Next(s: System, st: Step): System
    requires Enabled(s, st)
  {
    match st
    case Send(i) => s.(threads := s.threads[i := Owed(s.threads[i].left)], queue := s.queue + [s.threads[i].buffer])
    case Receive(i) => s.(threads := s.threads[i := Holding(s.queue[0], s.threads[i].left - 1)], queue := s.queue[1..])
  }

  ghost predicate Runs(s: System, steps: seq<Step>, t: System)
    decreases |steps|
  {
    if steps == [] then s == t else Enabled(s, steps[0]) && Runs(Next(s, steps[0]), steps[1..], t)
  }

  /** Each thread starts with a buffer of its own and n round trips to make. */
  function Start(buffers: seq<Buffer>, n: nat, capacity: nat): System {
    System(seq(|buffers|, i requires 0 <= i < |buffers| => Holding(buffers[i], n)), [], capacity)
  }

  // ---------------------------------------------------------------------
  // Counting
  // ---------------------------------------------------------------------

  function Bit(t: Thread): nat { if t.Owed? then 1 else 0 }
  function Own(t: Thread): multiset<Buffer> { if t.Holding? then multiset{t.buffer} else multiset{} }
  function Calls(t: Thread): nat { if t.Holding? then 2 * t.left else if t.left > 0 then 2 * t.left - 1 else 0 }

  /** How many threads have sent and not yet received. */
  function Owing(threads: seq<Thread>): (c: nat)
    ensures c <= |threads|
  {
    if threads == [] then 0 else Bit(threads[0]) + Owing(threads[1..])
  }

  function Held(threads: seq<Thread>): multiset<Buffer> {
    if threads == [] then multiset{} else Own(threads[0]) + Held(threads[1..])
  }

  /** The calls still to be made. */
  function CallsLeft(threads: seq<Thread>): nat {
    if threads == [] then 0 else Calls(threads[0]) + CallsLeft(threads[1..])
  }

  lemma {:induction false} OwingUpdate(threads: seq<Thread>, i: nat, t: Thread)
    requires i < |threads|
    ensures Owing(threads[i := t]) + Bit(threads[i]) == Owing(threads) + Bit(t)
  {
    hide Bit;
    if i == 0 { assert threads[i := t][1..] == threads[1..]; }
    else {
      OwingUpdate(threads[1..], i - 1, t);
      assert threads[i := t][1..] == threads[1..][i - 1 := t];
    }
  }

  lemma {:induction false} HeldUpdate(threads: seq<Thread>, i: nat, t: Thread)
    requires i < |threads|
    ensures Held(threads[i := t]) + Own(threads[i]) == Held(threads) + Own(t)
  {
    hide Own;
    if i == 0 { assert threads[i := t][1..] == threads[1..]; }
    else {
      var r := threads[1..];
      HeldUpdate(r, i - 1, t);
      assert threads[i := t][1..] == r[i - 1 := t];
      var a := Own(threads[0]);
      assert a + Held(r[i - 1 := t]) + Own(threads[i]) == a + (Held(r[i - 1 := t]) + Own(threads[i]));
      assert a + Held(r) + Own(t) == a + (Held(r) + Own(t));
    }
  }

  lemma {:induction false} CallsUpdate(threads: seq<Thread>, i: nat, t: Thread)
    requires i < |threads|
    ensures CallsLeft(threads[i := t]) + Calls(threads[i]) == CallsLeft(threads) + Calls(t)
  {
    hide Calls;
    if i == 0 { assert threads[i := t][1..] == threads[1..]; }
    else {
      CallsUpdate(threads[1..], i - 1, t);
      assert threads[i := t][1..] == threads[1..][i - 1 := t];
    }
  }

  lemma {:induction false} OwingSome(threads: seq<Thread>, i: nat)
    requires i < |threads|
    ensures threads[i].Owed? ==> Owing(threads) > 0
    ensures !threads[i].Owed? ==> Owing(threads) < |threads|
  {
    if i > 0 { OwingSome(threads[1..], i - 1); }
  }

  // ---------------------------------------------------------------------
  // The invariant
  // ---------------------------------------------------------------------

  /** The queue holds one message for each thread that owes a receive, no buffer is
      lost or doubled, and no thread owes one beyond its last round trip. */
  ghost predicate Inv(s: System, buffers: seq<Buffer>) {
    && |s.threads| == |buffers|
    && |s.queue| == Owing(s.threads)
    && Held(s.threads) + multiset(s.queue) == multiset(buffers)
    && forall i :: 0 <= i < |s.threads| && s.threads[i].Owed? ==> s.threads[i].left > 0
  }

  lemma StartRest(buffers: seq<Buffer>, n: nat, capacity: nat)
    requires buffers != []
    ensures var t := Start(buffers, n, capacity).threads;
      t != [] && t[0] == Holding(buffers[0], n) && t[1..] == Start(buffers[1..], n, capacity).threads
  {
    assert Start(buffers, n, capacity).threads[1..] == Start(buffers[1..], n, capacity).threads;
  }

  lemma {:induction false} HeldFirst(t: seq<Thread>, b: Buffer, n: nat)
    requires t != [] && t[0] == Holding(b, n)
    ensures Held(t) == multiset{b} + Held(t[1..])
  {
  }

  lemma {:induction false} HeldNone(n: nat, capacity: nat)
    ensures Held(Start([], n, capacity).threads) == multiset{}
  {
  }

  lemma {:induction false} StartHeld(buffers: seq<Buffer>, n: nat, capacity: nat)
    ensures Held(Start(buffers, n, capacity).threads) == multiset(buffers)
  {
    hide Held, Start;
    if buffers == [] {
      HeldNone(n, capacity);
    } else {
      StartHeld(buffers[1..], n, capacity);
      StartRest(buffers, n, capacity);
      HeldFirst(Start(buffers, n, capacity).threads, buffers[0], n);
      assert buffers == [buffers[0]] + buffers[1..];
    }
  }

  lemma {:induction false} StartCalls(buffers: seq<Buffer>, n: nat, capacity: nat)
    ensures CallsLeft(Start(buffers, n, capacity).threads) == 2 * n * |buffers|
  {
    if buffers != [] {
      var rest := buffers[1..];
      StartCalls(rest, n, capacity);
      var t := Start(buffers, n, capacity).threads;
      assert t[0] == Holding(buffers[0], n) && t[1..] == Start(rest, n, capacity).threads;
      assert 2 * n * |buffers| == 2 * n * |rest| + 2 * n;
    }
  }

  lemma StepKeeps(s: System, st: Step, buffers: seq<Buffer>)
    requires Inv(s, buffers) && Enabled(s, st)
    ensures Inv(Next(s, st), buffers) && CallsLeft(Next(s, st).threads) + 1 == CallsLeft(s.threads)
  {
    hide Owing, Held, CallsLeft;
    var i := st.i;
    var t := Next(s, st);
    OwingUpdate(s.threads, i, t.threads[i]);
    HeldUpdate(s.threads, i, t.threads[i]);
    CallsUpdate(s.threads, i, t.threads[i]);
    assert t.threads == s.threads[i := t.threads[i]];
    assert Held(t.threads) + multiset(t.queue) == Held(s.threads) + multiset(s.queue) by {
      if st.Send? { MovedIn(Held(s.threads), Held(t.threads), s.threads[i].buffer, s.queue); }
      else { MovedOut(Held(s.threads), Held(t.threads), s.queue); }
    }
  }

  /** A buffer goes from its thread to the end of the queue. */
  lemma MovedIn(before: multiset<Buffer>, after: multiset<Buffer>, b: Buffer, queue: seq<Buffer>)
    requires after + multiset{b} == before
    ensures after + multiset(queue + [b]) == before + multiset(queue)
  {
    assert multiset(queue + [b]) == multiset(queue) + multiset{b};
  }

  lemma MovedOut(before: multiset<Buffer>, after: multiset<Buffer>, queue: seq<Buffer>)
    requires queue != [] && after == before + multiset{queue[0]}
    ensures after + multiset(queue[1..]) == before + multiset(queue)
  {
    assert queue == [queue[0]] + queue[1..];
  }

  lemma {:induction false} RunsKeep(s: System, steps: seq<Step>, t: System, buffers: seq<Buffer>)
    requires Inv(s, buffers) && Runs(s, steps, t)
    ensures Inv(t, buffers) && CallsLeft(t.threads) + |steps| == CallsLeft(s.threads) && t.capacity == s.capacity
    decreases |steps|
  {
    hide Inv, Enabled;
    if steps != [] {
      StepKeeps(s, steps[0], buffers);
      RunsKeep(Next(s, steps[0]), steps[1..], t, buffers);
    }
  }

  // ---------------------------------------------------------------------
  // What the round trip relies on
  // ---------------------------------------------------------------------

  predicate Finished(t: Thread) { t.Holding? && t.left == 0 }

  function Call(s: System, i: nat): Step
    requires i < |s.threads|
  {
    if s.threads[i].Holding? then Send(i) else Receive(i)
  }

  /** In every interleaving the queue is exactly as long as there are threads
      between their send and their receive. With room for one message per thread
      no call ever blocks: each unfinished thread can always make its next one. */
  lemma NeverBlocks(buffers: seq<Buffer>, n: nat, capacity: nat, steps: seq<Step>, s: System, i: nat)
    requires capacity >= |buffers| && Runs(Start(buffers, n, capacity), steps, s) && i < |s.threads|
    ensures |s.queue| == Owing(s.threads)
    ensures !Finished(s.threads[i]) ==> Enabled(s, Call(s, i))
  {
    StartHeld(buffers, n, capacity);
    NoneOwed(Start(buffers, n, capacity).threads);
    RunsKeep(Start(buffers, n, capacity), steps, s, buffers);
    OwingSome(s.threads, i);
  }

  /** With less room, down to a single message, some thread can still go on. */
  lemma NeverStuck(buffers: seq<Buffer>, n: nat, capacity: nat, steps: seq<Step>, s: System, i: nat) returns (j: nat)
    requires capacity > 0 && Runs(Start(buffers, n, capacity), steps, s) && i < |s.threads| && !Finished(s.threads[i])
    ensures j < |s.threads| && Enabled(s, Call(s, j))
  {
    StartHeld(buffers, n, capacity);
    NoneOwed(Start(buffers, n, capacity).threads);
    RunsKeep(Start(buffers, n, capacity), steps, s, buffers);
    OwingSome(s.threads, i);
    if s.queue == [] { j := i; } else { j := SomeOwed(s.threads); }
  }

  lemma {:induction false} SomeOwed(threads: seq<Thread>) returns (j: nat)
    requires Owing(threads) > 0
    ensures j < |threads| && threads[j].Owed?
  {
    if threads[0].Owed? { j := 0; }
    else {
      j := SomeOwed(threads[1..]);
      j := j + 1;
    }
  }

  lemma {:induction false} AllFinished(threads: seq<Thread>)
    requires CallsLeft(threads) == 0
    ensures forall i :: 0 <= i < |threads| ==> Calls(threads[i]) == 0
  {
    if threads != [] {
      AllFinished(threads[1..]);
      forall i | 0 <= i < |threads| ensures Calls(threads[i]) == 0 {
        if i > 0 { assert threads[i] == threads[1..][i - 1]; }
      }
    }
  }

  /** The buffers the threads hold at the end, in the order of their slots. */
  function Slots(threads: seq<Thread>): seq<Buffer>
    requires forall i :: 0 <= i < |threads| ==> threads[i].Holding?
  {
    seq(|threads|, i requires 0 <= i < |threads| => threads[i].buffer)
  }

  lemma {:induction false} SlotsHeld(threads: seq<Thread>)
    requires forall i :: 0 <= i < |threads| ==> threads[i].Holding?
    ensures multiset(Slots(threads)) == Held(threads)
  {
    if threads != [] {
      SlotsHeld(threads[1..]);
      assert Slots(threads) == [threads[0].buffer] + Slots(threads[1..]);
    }
  }

  /** No run is longer than all threads' calls together, and one that is as long
      leaves every thread finished, the queue empty and in the slots each buffer
      of the start exactly once: the teardown frees all and none twice. */
  lemma BuffersComeBack(buffers: seq<Buffer>, n: nat, capacity: nat, steps: seq<Step>, s: System)
    requires Runs(Start(buffers, n, capacity), steps, s)
    ensures |steps| <= 2 * n * |buffers|
    ensures |steps| == 2 * n * |buffers| ==>
      && s.queue == [] && (forall i :: 0 <= i < |s.threads| ==> Finished(s.threads[i]))
      && multiset(Slots(s.threads)) == multiset(buffers)
  {
    hide Held, Owing, CallsLeft, Runs;
    StartHeld(buffers, n, capacity);
    NoneOwed(Start(buffers, n, capacity).threads);
    StartCalls(buffers, n, capacity);
    RunsKeep(Start(buffers, n, capacity), steps, s, buffers);
    if |steps| == 2 * n * |buffers| {
      AllFinished(s.threads);
      forall i | 0 <= i < |s.threads| ensures Finished(s.threads[i]) { assert Calls(s.threads[i]) == 0; }
      NoneOwed(s.threads);
      SlotsHeld(s.threads);
      assert multiset(s.queue) == multiset{};
    }
  }

  lemma {:induction false} NoneOwed(threads: seq<Thread>)
    requires forall i :: 0 <= i < |threads| ==> threads[i].Holding?
    ensures Owing(threads) == 0
  {
    if threads != [] { NoneOwed(threads[1..]); }
  }
}
