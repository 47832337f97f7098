// What the calls answer, told by the sequential list and by which calls work on a
// key, for every step and for whole sets.

module CacheAnswers {
  import opened Options
  import opened SequentialLru
  import opened CacheSegment
  import opened CacheInvariant
  import opened CacheRegions
  import opened CacheProtocol
  import opened CacheTheorems

  /** Some call fetches or sets the key. */
  ghost predicate WorkedOn(a: System, k: Key) { exists c :: c in a.calls && Owns(a.calls[c]) && a.calls[c].k == k }

  /** The index against the calls and the list: a key that a call works on has a
      busy entry, any other indexed key is in the list. */
  lemma IndexTells(a: System, k: Key)
    requires Inv(a)
    ensures k in a.seg.index ==> a.seg.index[k] in a.seg.entries
    ensures WorkedOn(a, k) <==> k in a.seg.index && Busy(a.seg.entries[a.seg.index[k]])
    ensures !WorkedOn(a, k) && k in a.seg.index ==>
      Lookup(View(a.seg).items, k).Some? && Lookup(View(a.seg).items, k) == a.seg.entries[a.seg.index[k]].value
    ensures k !in a.seg.index ==> Lookup(View(a.seg).items, k) == None
  {
    hide OrderInv, CountInv, View;
    if k in a.seg.index {
      var x := a.seg.index[k];
      assert x in a.seg.entries && a.seg.entries[x].key == k;
      if Busy(a.seg.entries[x]) { OwnerIs(a, x); }
      else { LookupIn(a, x); }
    } else {
      LookupUnindexed(a.seg, k);
    }
    if WorkedOn(a, k) {
      var c :| c in a.calls && Owns(a.calls[c]) && a.calls[c].k == k;
      OwnEntry(a, c);
    }
  }

  lemma OwnerIs(a: System, x: Id)
    requires Inv(a) && x in a.seg.entries && Busy(a.seg.entries[x])
    ensures WorkedOn(a, a.seg.entries[x].key)
  {
    hide SegInv, CountInv;
    assert FetchingOf(a.seg, x) || SettingOf(a.seg, x);
    var c :| OwnerOf(a.calls, c, x);
    OwnEntry(a, c);
  }

  // ---------------------------------------------------------------------
  // Gets
  // ---------------------------------------------------------------------

  /** A get that comes to its key waits exactly while another call works on it,
      reads what the list holds, and otherwise is the one to fetch. */
  lemma GetAnswers(a: System, l: Step, b: System)
    requires Inv(a) && Next(a, l, b) && l.GetLock? && l.c in a.calls && a.calls[l.c].GetStart?
    ensures l.c in b.calls
    ensures var k, pc := a.calls[l.c].k, b.calls[l.c];
      var found := Lookup(View(a.seg).items, k);
      if WorkedOn(a, k) then pc.GetWait? && pc.k == k
      else if found.Some? then pc == Done(if l.oom then NotEnoughMemory else Success(found))
      else if !a.seg.hasGetter then pc == Done(KeyNotFound)
      else if l.alloc.Some? then pc == Done(l.alloc.value)
      else pc == Fetching(k, l.id)
  {
    IndexTells(a, a.calls[l.c].k);
    hide Inv, View, WorkedOn;
  }

  /** A get whose remote call has returned answers what that call answered. */
  lemma FetchAnswers(a: System, l: Step, b: System)
    requires Next(a, l, b) && l.FetchReturn? && l.c in a.calls && a.calls[l.c].Fetched?
    ensures l.c in b.calls
    ensures var r := a.calls[l.c].r;
      b.calls[l.c] == Done(if r.None? then KeyNotFound else if l.oom then NotEnoughMemory else Success(r))
  {
    hide Store, Retire;
  }

  // ---------------------------------------------------------------------
  // Sets, step by step
  // ---------------------------------------------------------------------

  lemma FinishCode(s: Seg, x: Id, v: Value, ok: bool)
    requires OwnReady(s, x)
    ensures SetFinish(s, x, v, ok).1 == Done(if ok then Success(None) else UnexpectedFailure)
  {
    hide Store, Retire;
  }

  lemma OwnCode(s: Seg, k: Key, v: Value, x: Id)
    requires OwnReady(s, x)
    ensures Own(s, k, v, x).1 == if s.hasSetter then Setting(k, v, x) else Done(Success(None))
  {
    hide SetFinish;
    if !s.hasSetter { FinishCode(s.(entries := s.entries[x := s.entries[x].(setting := true)]), x, v, true); }
  }

  /** The point a set goes to when it takes its key. */
  predicate Takes(hasSetter: bool, k: Key, v: Value, pc: Pc) {
    if hasSetter then pc.Setting? && pc.k == k && pc.v == v else pc == Done(Success(None))
  }

  /** A set that comes to its key waits exactly while another call works on it, and
      otherwise takes it, unless there is no memory for its value or its entry. */
  lemma SetAnswers(a: System, l: Step, b: System)
    requires Inv(a) && Next(a, l, b) && l.SetLock? && l.c in a.calls && a.calls[l.c].SetStart?
    ensures l.c in b.calls
    ensures var k, v, pc := a.calls[l.c].k, a.calls[l.c].v, b.calls[l.c];
      var found := Lookup(View(a.seg).items, k);
      if !l.copied then pc == Done(NotEnoughMemory)
      else if WorkedOn(a, k) then pc.SetWait? && pc.k == k && pc.v == v
      else if found.None? && l.alloc.Some? then pc == Done(l.alloc.value)
      else Takes(a.seg.hasSetter, k, v, pc)
  {
    var s, pc := a.seg, a.calls[l.c];
    IndexTells(a, pc.k);
    hide Inv, View, WorkedOn, Own, OwnReady;
    if l.copied {
      if pc.k in s.index {
        if !Busy(s.entries[s.index[pc.k]]) { OwnCode(s, pc.k, pc.v, s.index[pc.k]); }
      } else if l.alloc.None? {
        TakesNew(s, pc.k, pc.v, l.id);
      }
    }
  }

  lemma TakesNew(s: Seg, k: Key, v: Value, x: Id)
    requires SetReady(s, k, x) && k !in s.index
    ensures var m := s.(index := s.index[k := x], entries := s.entries[x := Entry(k, None, false, false, false, false, false, 0)]);
      OwnReady(m, x) && Own(m, k, v, x).1 == if s.hasSetter then Setting(k, v, x) else Done(Success(None))
  {
    hide Own;
    var m := s.(index := s.index[k := x], entries := s.entries[x := Entry(k, None, false, false, false, false, false, 0)]);
    OwnCode(m, k, v, x);
  }

  /** A set that waited takes its key, or looks it up again when its entry died. */
  lemma SetWakes(a: System, l: Step, b: System)
    requires Next(a, l, b) && l.SetWake? && l.c in a.calls && a.calls[l.c].SetWait?
    ensures l.c in b.calls && a.calls[l.c].id in a.seg.entries
    ensures var k, v, pc := a.calls[l.c].k, a.calls[l.c].v, b.calls[l.c];
      if a.seg.entries[a.calls[l.c].id].evicted then pc == SetStart(k, v) else Takes(a.seg.hasSetter, k, v, pc)
  {
    hide Own;
    var s, pc := a.seg, a.calls[l.c];
    var e := s.entries[pc.id];
    if !e.evicted { OwnCode(s.(entries := s.entries[pc.id := e.(waiters := e.waiters - 1)]), pc.k, pc.v, pc.id); }
  }

  /** A set answers what its remote setter answered. */
  lemma SetReturns(a: System, l: Step, b: System)
    requires Next(a, l, b) && l.SetReturn? && l.c in a.calls && a.calls[l.c].SetReplied?
    ensures l.c in b.calls && b.calls[l.c] == Done(if a.calls[l.c].ok then Success(None) else UnexpectedFailure)
  {
    hide SetFinish;
    var s, pc := a.seg, a.calls[l.c];
    var e := s.entries[pc.id];
    FinishCode(s.(entries := s.entries[pc.id := e.(waiters := e.waiters - 1)]), pc.id, pc.v, pc.ok);
  }

  // ---------------------------------------------------------------------
  // Whole sets
  // ---------------------------------------------------------------------

  /** An unfinished set of v under k. */
  predicate SetCall(pc: Pc, k: Key, v: Value) {
    (pc.SetStart? || pc.SetWait? || pc.Setting? || pc.SetReplied?) && pc.k == k && pc.v == v
  }

  /** What a step of a set's own call does: while the set goes on, nothing to the
      list; when it ends, one put if it succeeds and nothing if it does not. */
  ghost predicate SetStepOk(a: System, l: Step, b: System, k: Key, v: Value)
    requires Guard(a, l)
  {
    && l.c in a.calls && l.c in b.calls
    && var pc, pc2 := a.calls[l.c], b.calls[l.c];
       && (pc2.SetReplied? <==> l.RemoteWrite?) && (l.RemoteWrite? ==> pc2.ok == l.ok)
       && if pc2.Done? then
            && (pc2.code == Success(None) ==> OpOf(a, l) == Put(k, v) && (a.seg.hasSetter ==> pc.SetReplied? && pc.ok))
            && (pc2.code != Success(None) ==> OpOf(a, l) == Nothing)
            && (pc2.code == UnexpectedFailure <==> pc.SetReplied? && !pc.ok)
            && (pc2.code == NotEnoughMemory ==> l.SetLock? && (!l.copied || l.alloc == Some(NotEnoughMemory)))
            && (pc2.code == ContainerFull ==> l.SetLock? && l.alloc == Some(ContainerFull))
            && pc2.code in {Success(None), UnexpectedFailure, NotEnoughMemory, ContainerFull}
            && (pc.SetReplied? ==> pc2.code == if pc.ok then Success(None) else UnexpectedFailure)
          else
            SetCall(pc2, k, v) && OpOf(a, l) == Nothing && !pc.SetReplied?
  }

  lemma OneSetStep(a: System, l: Step, b: System, k: Key, v: Value)
    requires Inv(a) && Next(a, l, b) && Guard(a, l) && l.c in a.calls && SetCall(a.calls[l.c], k, v)
    ensures SetStepOk(a, l, b, k, v)
  {
    if l.SetLock? { LockStep(a, l, b, k, v); }
    else if l.SetWake? { WakeStep(a, l, b, k, v); }
    else if l.SetReturn? { ReturnStep(a, l, b, k, v); }
    else { hide Inv; }
  }

  lemma LockStep(a: System, l: Step, b: System, k: Key, v: Value)
    requires Inv(a) && Next(a, l, b) && Guard(a, l) && l.SetLock? && l.c in a.calls && SetCall(a.calls[l.c], k, v)
    ensures SetStepOk(a, l, b, k, v)
  {
    hide Inv, View, WorkedOn, SetBegin, SetReady;
    SetAnswers(a, l, b);
    IndexTells(a, k);
  }

  lemma WakeStep(a: System, l: Step, b: System, k: Key, v: Value)
    requires Next(a, l, b) && Guard(a, l) && l.SetWake? && l.c in a.calls && SetCall(a.calls[l.c], k, v)
    ensures SetStepOk(a, l, b, k, v)
  {
    hide SetResume, SetWakeReady;
    SetWakes(a, l, b);
  }

  lemma ReturnStep(a: System, l: Step, b: System, k: Key, v: Value)
    requires Next(a, l, b) && Guard(a, l) && l.SetReturn? && l.c in a.calls && SetCall(a.calls[l.c], k, v)
    ensures SetStepOk(a, l, b, k, v)
  {
    hide SetEnd, SetEndReady;
    SetReturns(a, l, b);
  }

  lemma OtherStep(a: System, l: Step, b: System, c: Call)
    requires Next(a, l, b) && c in a.calls && l.c != c
    ensures c in b.calls && b.calls[c] == a.calls[c]
  {
  }

  /** The put a step of call c makes, if it is one of c's steps and makes any. */
  ghost predicate PutsAt(b: seq<System>, l: seq<Step>, c: Call, m: nat)
    requires Execution(b, l) && m < |l|
  {
    l[m].c == c && Guard(b[m], l[m]) && OpOf(b[m], l[m]) != Nothing
  }

  /** The remote setter answered ok to call c between the states i and j. */
  ghost predicate Wrote(l: seq<Step>, c: Call, ok: bool, i: nat, j: nat)
    requires j <= |l|
  {
    exists m :: i <= m < j && l[m] == RemoteWrite(c, ok)
  }

  /** The call is an unfinished set at every state from i to j. */
  ghost predicate UnderWay(b: seq<System>, c: Call, k: Key, v: Value, i: nat, j: nat)
    requires j < |b|
  {
    forall m :: i <= m <= j ==> c in b[m].calls && SetCall(b[m].calls[c], k, v)
  }

  lemma {:induction false} SetSoFar(b: seq<System>, l: seq<Step>, c: Call, k: Key, v: Value, i: nat, j: nat)
    requires Execution(b, l) && i <= j <= |l| && UnderWay(b, c, k, v, i, j) && b[i].calls[c] == SetStart(k, v)
    ensures forall m :: i <= m < j ==> !PutsAt(b, l, c, m)
    ensures forall ok :: Wrote(l, c, ok, i, j) <==> b[j].calls[c].SetReplied? && b[j].calls[c].ok == ok
    decreases j
  {
    hide Next, Inv, Guard, OpOf;
    if i < j {
      SetSoFar(b, l, c, k, v, i, j - 1);
      Reachable(b, l, j - 1);
      if l[j - 1].c == c {
        OneSetStep(b[j - 1], l[j - 1], b[j], k, v);
        WroteStep(l, c, i, j);
      } else {
        OtherStep(b[j - 1], l[j - 1], b[j], c);
        WroteStep(l, c, i, j);
      }
    }
  }

  lemma WroteStep(l: seq<Step>, c: Call, i: nat, j: nat)
    requires i < j <= |l|
    ensures forall ok :: Wrote(l, c, ok, i, j) <==> Wrote(l, c, ok, i, j - 1) || l[j - 1] == RemoteWrite(c, ok)
  {
  }

  /** What a set answers, over every execution. A set that succeeds has put its
      value into the sequential list exactly once, with its last step, and after
      its remote setter said yes if there is one. A set that fails has done nothing
      to the list. It reports an unexpected failure exactly when its remote setter
      said no, and a lack of memory or room only when an allocation failed. */
  lemma SetExplained(b: seq<System>, l: seq<Step>, c: Call, k: Key, v: Value, i: nat, n: nat)
    requires Execution(b, l) && i <= n < |l| && UnderWay(b, c, k, v, i, n) && b[i].calls[c] == SetStart(k, v)
    requires c in b[n + 1].calls && b[n + 1].calls[c].Done?
    ensures forall m :: i <= m < n ==> !PutsAt(b, l, c, m)
    ensures l[n].c == c && Guard(b[n], l[n])
    ensures var code := b[n + 1].calls[c].code;
      && code in {Success(None), UnexpectedFailure, NotEnoughMemory, ContainerFull}
      && OpOf(b[n], l[n]) == (if code == Success(None) then Put(k, v) else Nothing)
      && (code == Success(None) && b[0].seg.hasSetter ==> Wrote(l, c, true, i, n))
      && (code == UnexpectedFailure <==> Wrote(l, c, false, i, n))
      && (Wrote(l, c, true, i, n) ==> code == Success(None))
      && (code == NotEnoughMemory ==> l[n].SetLock? && (!l[n].copied || l[n].alloc == Some(NotEnoughMemory)))
      && (code == ContainerFull ==> l[n].SetLock? && l[n].alloc == Some(ContainerFull))
  {
    hide Next, Inv, Guard, OpOf, PutsAt, Wrote;
    Reachable(b, l, n);
    SetSoFar(b, l, c, k, v, i, n);
    if l[n].c != c { OtherStep(b[n], l[n], b[n + 1], c); }
    OneSetStep(b[n], l[n], b[n + 1], k, v);
  }
}
