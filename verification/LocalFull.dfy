/** When an allocation that runs out of indexes is right: exactly when every index given back during it was taken again. */
module LocalFull {
  import opened LocalSlots
  import opened LocalInvariant
  import opened LocalSteps
  import opened LocalCalls
  import opened LocalGuarantees
  import opened LocalLinear

  // The exact condition

  /** Event j ends a free of the index: from now on it can be taken again. */
  ghost predicate GivenBack(run: seq<State>, events: seq<Event>, x: nat, j: nat) {
    && j < |events| && j < |run| && events[j].Proceed? && events[j].thread < |run[j].threads|
    && run[j].threads[events[j].thread].pc == FreePublish(x)
  }

  /** Event c takes the index for an allocation. */
  ghost predicate Taking(run: seq<State>, events: seq<Event>, x: nat, c: nat) {
    && c < |events| && c < |run| && events[c].Proceed? && events[c].thread < |run[c].threads|
    && run[c].threads[events[c].thread].pc.AllocScan? && run[c].threads[events[c].thread].pc.index == x && !TakenAt(run[c], x)
  }

  /** The index given back at event j is not taken again before event m. */
  ghost predicate LeftFree(run: seq<State>, events: seq<Event>, x: nat, j: nat, m: nat) {
    GivenBack(run, events, x, j) && forall c: nat :: j < c < m ==> !Taking(run, events, x, c)
  }

  /** Whatever is given back after event a is taken again before event b. */
  ghost predicate AllRetaken(run: seq<State>, events: seq<Event>, a: nat, b: nat) {
    forall x: nat, j: nat :: x < SLOT_COUNT && a < j < b ==> !LeftFree(run, events, x, j, b)
  }

  lemma StepTakes(s: State, i: nat, x: nat)
    requires WellShaped(s) && i < |s.threads| && x < SLOT_COUNT
    ensures TakenAt(s, x) && s.threads[i].pc != FreePublish(x) ==> TakenAt(Next(s, i), x)
    ensures s.threads[i].pc == FreePublish(x) ==> !TakenAt(Next(s, i), x)
    ensures !TakenAt(s, x) && TakenAt(Next(s, i), x) && !Holds(s.threads[i].pc, x) ==>
              s.threads[i].pc.AllocScan? && s.threads[i].pc.index == x
  {
  }

  /** One event: an index is given up at the end of a free only, and taken by a scan that meets it free only. */
  lemma EventTakes(run: seq<State>, events: seq<Event>, k: nat, x: nat)
    requires IsRun(run, events) && k < |events| && x < SLOT_COUNT
    ensures TakenAt(run[k], x) && !GivenBack(run, events, x, k) ==> TakenAt(run[k + 1], x)
    ensures GivenBack(run, events, x, k) ==> !TakenAt(run[k + 1], x)
    ensures !TakenAt(run[k], x) && TakenAt(run[k + 1], x) ==> Taking(run, events, x, k)
  {
    hide Initial, Next, HoldersOk, Orderly, SlotOk, ThreadOk;
    var s, e := run[k], events[k];
    assert Enabled(s, e) && run[k + 1] == Apply(s, e);
    RunKeepsInv(run, events, k);
    if e.Proceed? {
      StepTakes(s, e.thread, x);
      HolderHasTaken(s, e.thread, x);
    }
  }

  lemma HolderHasTaken(s: State, i: nat, x: nat)
    requires Inv(s) && i < |s.threads| && x < SLOT_COUNT
    ensures Holds(s.threads[i].pc, x) ==> TakenAt(s, x)
  {
    hide Orderly, SlotOk, ThreadOk;
  }

  /** An index taken once is taken later on unless it was given back and left free. */
  lemma {:induction false} TakenUnlessLeftFree(run: seq<State>, events: seq<Event>, k: nat, m: nat, x: nat)
    requires IsRun(run, events) && k <= m < |run| && x < SLOT_COUNT && TakenAt(run[k], x)
    ensures TakenAt(run[m], x) || exists j: nat :: k <= j < m && LeftFree(run, events, x, j, m)
    decreases m
  {
    hide IsRun, TakenAt, GivenBack, Taking;
    if k < m {
      TakenUnlessLeftFree(run, events, k, m - 1, x);
      RunLength(run, events);
      EventTakes(run, events, m - 1, x);
      if !TakenAt(run[m], x) {
        if TakenAt(run[m - 1], x) {
          assert LeftFree(run, events, x, m - 1, m);
        } else {
          var j: nat :| k <= j < m - 1 && LeftFree(run, events, x, j, m - 1);
          NotTaking(run, events, m - 1, x);
          assert LeftFree(run, events, x, j, m);
        }
      }
    }
  }

  lemma RunLength(run: seq<State>, events: seq<Event>)
    requires IsRun(run, events)
    ensures |run| == |events| + 1
  {
  }

  lemma NotTaking(run: seq<State>, events: seq<Event>, k: nat, x: nat)
    requires IsRun(run, events) && k < |events| && x < SLOT_COUNT && !TakenAt(run[k + 1], x)
    ensures !Taking(run, events, x, k)
  {
    var s, e := run[k], events[k];
    assert Enabled(s, e) && run[k + 1] == Apply(s, e);
  }

  /** And one left free is free. */
  lemma {:induction false} LeftFreeIsFree(run: seq<State>, events: seq<Event>, j: nat, m: nat, x: nat)
    requires IsRun(run, events) && j < m < |run| && x < SLOT_COUNT && LeftFree(run, events, x, j, m)
    ensures !TakenAt(run[m], x)
    decreases m
  {
    hide IsRun, TakenAt, GivenBack, Taking;
    RunLength(run, events);
    EventTakes(run, events, m - 1, x);
    if j + 1 < m {
      LeftFreeIsFree(run, events, j, m - 1, x);
    }
  }

  /**
   * An allocation that runs out of indexes ends with every index taken if and only if
   * each index given back during it was taken again.
   */
  lemma ExhaustedIffRetaken(run: seq<State>, events: seq<Event>, i: nat, a: nat, b: nat)
    requires Scanning(run, events, i, a, b) && Returns(run, events, i, b) && run[b + 1].log[|run[b].log|] == OutOfIndexes(i)
    ensures AllTaken(run[b]) <==> AllRetaken(run, events, a, b)
  {
    hide IsRun, TakenAt, LeftFree;
    if AllRetaken(run, events, a, b) {
      forall y: nat | y < SLOT_COUNT
        ensures TakenAt(run[b], y)
      {
        FullMeansTaken(run, events, i, a, b, y);
        var k :| a < k < b + 1 && k < |run| && TakenAt(run[k], y);
        TakenUnlessLeftFree(run, events, k, b, y);
      }
    }
    if AllTaken(run[b]) {
      forall x: nat, j: nat | x < SLOT_COUNT && a < j < b
        ensures !LeftFree(run, events, x, j, b)
      {
        if LeftFree(run, events, x, j, b) {
          LeftFreeIsFree(run, events, j, b, x);
        }
      }
    }
  }

  /** So it is right, and takes its place in the linear order, whenever no index is given back during the call. */
  lemma UndisturbedIsRight(run: seq<State>, events: seq<Event>, i: nat, a: nat, b: nat)
    requires Scanning(run, events, i, a, b) && Returns(run, events, i, b) && run[b + 1].log[|run[b].log|] == OutOfIndexes(i)
    requires forall x: nat, j: nat :: x < SLOT_COUNT && a < j < b ==> !GivenBack(run, events, x, j)
    ensures AllTaken(run[b]) && MetFull(run, events, i, b)
  {
    hide IsRun, GivenBack, Taking, AllTaken;
    ExhaustedIffRetaken(run, events, i, a, b);
    assert FullAt(run, events, i, a, b, b);
  }

  lemma {:induction false} ScanBegan(run: seq<State>, events: seq<Event>, i: nat, b: nat) returns (a: nat)
    requires IsRun(run, events) && b < |run| && i < |run[b].threads| && run[b].threads[i].pc.AllocScan?
    ensures Scanning(run, events, i, a, b)
  {
    hide Initial, Next;
    if b == 0 {
      NobodyCalls(run);
    } else {
      var s, e := run[b - 1], events[b - 1];
      assert Enabled(s, e) && run[b] == Apply(s, e);
      ScansOrStarts(s, e, i);
      if s.threads[i].pc.AllocScan? {
        a := ScanBegan(run, events, i, b - 1);
      } else {
        a := b - 1;
      }
    }
  }

  lemma ScansOrStarts(s: State, e: Event, i: nat)
    requires Enabled(s, e) && i < |Apply(s, e).threads| && Apply(s, e).threads[i].pc.AllocScan?
    ensures i < |s.threads|
    ensures s.threads[i].pc.AllocScan? || (e.Begin? && e.thread == i && e.call.Alloc?)
  {
    hide Live;
    if e.Proceed? {
      NextAdds(s, e.thread);
      if e.thread != i {
        OthersUntouched(s, e.thread, i);
      }
    }
  }

  // Runs put together from stretches

  /** From s the events can happen one after another, and some index is free all along. */
  ghost predicate Spares(s: State, es: seq<Event>)
    decreases |es|
  {
    !AllTaken(s) && (es == [] || (Enabled(s, es[0]) && Spares(Apply(s, es[0]), es[1..])))
  }

  ghost function After(s: State, es: seq<Event>): State
    requires Spares(s, es)
    decreases |es|
  {
    if es == [] then s else After(Apply(s, es[0]), es[1..])
  }

  lemma {:induction false} SparesOn(s: State, es: seq<Event>, more: seq<Event>)
    requires Spares(s, es) && Spares(After(s, es), more)
    ensures Spares(s, es + more) && After(s, es + more) == After(After(s, es), more)
    decreases |es|
  {
    hide Apply, Enabled, AllTaken;
    if es == [] {
      assert es + more == more;
    } else {
      assert (es + more)[1..] == es[1..] + more;
      SparesOn(Apply(s, es[0]), es[1..], more);
    }
  }

  lemma OneEvent(s: State, e: Event)
    requires !AllTaken(s) && Enabled(s, e) && !AllTaken(Apply(s, e))
    ensures Spares(s, [e]) && After(s, [e]) == Apply(s, e)
  {
    hide Apply, Enabled, AllTaken;
    assert [e][1..] == [];
    assert Spares(Apply(s, e), []);
  }

  /** The states passed through. */
  ghost function Trace(s: State, es: seq<Event>): (r: seq<State>)
    requires Spares(s, es)
    ensures |r| == |es| + 1 && r[0] == s && r[|es|] == After(s, es)
    decreases |es|
  {
    if es == [] then [s] else [s] + Trace(Apply(s, es[0]), es[1..])
  }

  lemma {:induction false} TraceSteps(s: State, es: seq<Event>)
    requires Spares(s, es)
    ensures forall k :: 0 <= k < |es| ==> Enabled(Trace(s, es)[k], es[k]) && Trace(s, es)[k + 1] == Apply(Trace(s, es)[k], es[k])
    ensures forall k :: 0 <= k <= |es| ==> !AllTaken(Trace(s, es)[k])
    decreases |es|
  {
    hide Apply, Enabled, AllTaken;
    if es != [] {
      var rest := Trace(Apply(s, es[0]), es[1..]);
      TraceSteps(Apply(s, es[0]), es[1..]);
      var all := Trace(s, es);
      forall k | 0 <= k < |es|
        ensures Enabled(all[k], es[k]) && all[k + 1] == Apply(all[k], es[k])
      {
        if k > 0 {
          assert all[k] == rest[k - 1] && es[k] == es[1..][k - 1];
        }
      }
      forall k | 0 <= k <= |es|
        ensures !AllTaken(all[k])
      {
        if k > 0 {
          assert all[k] == rest[k - 1];
        }
      }
    }
  }

  // Three threads, and the interval of indexes that are taken

  predicate Between(from: nat, y: nat, end: nat) {
    from <= y < end
  }

  ghost predicate Stands(s: State, pcs: seq<Pc>, from: nat, end: nat) {
    && WellShaped(s) && |s.threads| == 3 == |pcs|
    && (forall j :: 0 <= j < 3 ==> s.threads[j].pc == pcs[j])
    && (forall y: nat :: y < SLOT_COUNT ==> (TakenAt(s, y) <==> Between(from, y, end)))
  }

  lemma NotAll(s: State, pcs: seq<Pc>, from: nat, end: nat)
    requires Stands(s, pcs, from, end) && (from > 0 || end < SLOT_COUNT)
    ensures !AllTaken(s)
  {
    if from > 0 {
      assert !TakenAt(s, 0);
    } else {
      assert !TakenAt(s, end);
    }
  }

  /** Nothing the observers note changes what a state looks like from here. */
  lemma Observed(s: State, pcs: seq<Pc>, from: nat, end: nat)
    requires Stands(s, pcs, from, end)
    ensures Stands(Observe(s), pcs, from, end) && Observe(s).slots == s.slots && Observe(s).log == s.log
  {
    hide Live, TakenAt;
    var u := Observe(s);
    SameSlotsTaken(s, u);
    assert forall j :: 0 <= j < 3 ==> u.threads[j] == Watch(s.slots, s.threads[j]);
  }

  lemma Begins(s: State, pcs: seq<Pc>, from: nat, end: nat, i: nat, call: Call) returns (t: State)
    requires Stands(s, pcs, from, end) && i < 3 && pcs[i].Idle? && (call.Alloc? || call.index < SLOT_COUNT)
    ensures Enabled(s, Begin(i, call)) && t == Apply(s, Begin(i, call)) && t.slots == s.slots
    ensures Stands(t, pcs[i := match call case Alloc(c) => AllocScan(0, c)
                                          case FreeIndex(x, n) => FreeClaim(x, n)
                                          case AccessIndex(x, a) => ReadBefore(x, a)], from, end)
  {
    hide Observe, TakenAt;
    var u := Start(s, i, call);
    t := Observe(u);
    assert forall y: nat :: TakenAt(u, y) == TakenAt(s, y) by { SameSlotsTaken(s, u); }
    Observed(u, pcs[i := u.threads[i].pc], from, end);
  }

  lemma SameSlotsTaken(s: State, u: State)
    requires s.slots == u.slots
    ensures forall y: nat :: TakenAt(u, y) == TakenAt(s, y)
  {
  }

  /** A step that leaves the slots alone. */
  lemma Walks(s: State, pcs: seq<Pc>, from: nat, end: nat, i: nat) returns (t: State)
    requires Stands(s, pcs, from, end) && i < 3
    requires Next(s, i).slots == s.slots && Next(s, i).threads == s.threads[i := Next(s, i).threads[i]] && WellShaped(Next(s, i))
    ensures Enabled(s, Proceed(i)) && t == Apply(s, Proceed(i)) && t.slots == s.slots && t.log == Next(s, i).log
    ensures Stands(t, pcs[i := Next(s, i).threads[i].pc], from, end)
  {
    hide Observe, TakenAt, Next;
    var u := Next(s, i);
    t := Observe(u);
    SameSlotsTaken(s, u);
    Observed(u, pcs[i := u.threads[i].pc], from, end);
  }

  /** A step that writes one slot. */
  lemma Writes(s: State, pcs: seq<Pc>, from: nat, end: nat, i: nat, x: nat, from': nat, end': nat) returns (t: State)
    requires Stands(s, pcs, from, end) && i < 3 && x < SLOT_COUNT
    requires Next(s, i).threads == s.threads[i := Next(s, i).threads[i]] && WellShaped(Next(s, i))
    requires forall y: nat :: y < SLOT_COUNT && y != x ==> Next(s, i).slots[y] == s.slots[y]
    requires forall y: nat :: y < SLOT_COUNT && y != x ==> Between(from, y, end) == Between(from', y, end')
    requires Between(from', x, end') <==> !Next(s, i).slots[x].phase.Free?
    ensures Enabled(s, Proceed(i)) && t == Apply(s, Proceed(i)) && t.slots == Next(s, i).slots && t.log == Next(s, i).log
    ensures Stands(t, pcs[i := Next(s, i).threads[i].pc], from', end')
  {
    hide Observe, Next;
    var u := Next(s, i);
    t := Observe(u);
    forall y: nat | y < SLOT_COUNT
      ensures TakenAt(u, y) <==> Between(from', y, end')
    {
      if y != x {
        assert u.slots[y] == s.slots[y];
        assert TakenAt(u, y) == TakenAt(s, y);
      }
    }
    Observed(u, pcs[i := u.threads[i].pc], from', end');
  }

  /** Thread i scans on over taken indexes. */
  lemma {:induction false} ScansTo(s: State, pcs: seq<Pc>, end: nat, i: nat, x: nat, goal: nat) returns (es: seq<Event>)
    requires Stands(s, pcs, 0, end) && i < 3 && pcs[i] == AllocScan(x, 0) && x <= goal <= end < SLOT_COUNT
    ensures Spares(s, es) && Stands(After(s, es), pcs[i := AllocScan(goal, 0)], 0, end) && After(s, es).slots == s.slots
    decreases goal - x
  {
    hide Apply, Enabled, AllTaken, Stands;
    NotAll(s, pcs, 0, end);
    if x == goal {
      es := [];
      assert pcs[i := AllocScan(goal, 0)] == pcs by { StandsCount(s, pcs, 0, end); }
    } else {
      ScanStep(s, pcs, end, i, x);
      var t := Walks(s, pcs, 0, end, i);
      NotAll(t, pcs[i := AllocScan(x + 1, 0)], 0, end);
      OneEvent(s, Proceed(i));
      var more := ScansTo(t, pcs[i := AllocScan(x + 1, 0)], end, i, x + 1, goal);
      SparesOn(s, [Proceed(i)], more);
      es := [Proceed(i)] + more;
      assert pcs[i := AllocScan(x + 1, 0)][i := AllocScan(goal, 0)] == pcs[i := AllocScan(goal, 0)];
    }
  }

  lemma StandsCount(s: State, pcs: seq<Pc>, from: nat, end: nat)
    requires Stands(s, pcs, from, end)
    ensures WellShaped(s) && |s.threads| == 3 == |pcs| && forall j :: 0 <= j < 3 ==> s.threads[j].pc == pcs[j]
  {
  }

  lemma ScanStep(s: State, pcs: seq<Pc>, end: nat, i: nat, x: nat)
    requires Stands(s, pcs, 0, end) && i < 3 && pcs[i] == AllocScan(x, 0) && x < end < SLOT_COUNT
    ensures WellShaped(s) && i < |s.threads| && Next(s, i) == At(s, i, AllocScan(x + 1, 0)) && WellShaped(Next(s, i))
    ensures i < |pcs| && pcs[i := AllocScan(x + 1, 0)][i] == AllocScan(x + 1, 0)
  {
    assert TakenAt(s, x);
  }

  lemma Then(s: State, es: seq<Event>, e: Event)
    requires Spares(s, es) && Enabled(After(s, es), e) && !AllTaken(After(s, es)) && !AllTaken(Apply(After(s, es), e))
    ensures Spares(s, es + [e]) && After(s, es + [e]) == Apply(After(s, es), e)
  {
    hide Apply, Enabled, AllTaken;
    OneEvent(After(s, es), e);
    SparesOn(s, es, [e]);
  }

  /** Thread i takes the next index. */
  lemma Claims(s: State, pcs: seq<Pc>, from: nat, end: nat, i: nat) returns (t: State)
    requires Stands(s, pcs, from, end) && i < 3 && pcs[i] == AllocScan(end, 0) && from <= end < SLOT_COUNT
    ensures Enabled(s, Proceed(i)) && t == Apply(s, Proceed(i)) && Stands(t, pcs[i := AllocGeneration(end, 0)], from, end + 1)
    ensures forall y: nat :: y < end ==> t.slots[y] == s.slots[y]
  {
    assert !TakenAt(s, end);
    t := Writes(s, pcs, from, end, i, end, from, end + 1);
  }

  /** One write of an allocation that has its index. */
  lemma Settles(s: State, pcs: seq<Pc>, end: nat, i: nat) returns (t: State)
    requires Stands(s, pcs, 0, end) && i < 3 && 0 < end && (pcs[i].AllocGeneration? || pcs[i].AllocCallback? || pcs[i].AllocPublish?)
    requires pcs[i].index == end - 1 < SLOT_COUNT && pcs[i].callback == 0
    ensures Enabled(s, Proceed(i)) && t == Apply(s, Proceed(i)) && i < |t.threads|
    ensures Stands(t, pcs[i := t.threads[i].pc], 0, end)
    ensures forall y: nat :: y < end - 1 ==> t.slots[y] == s.slots[y]
    ensures var pc := t.threads[i].pc;
            match pcs[i]
            case AllocGeneration(x, _) => pc.AllocCallback? && pc.index == x && pc.callback == 0
            case AllocCallback(x, _, _) => pc.AllocPublish? && pc.index == x && pc.callback == 0
            case AllocPublish(x, _, _) => pc.Idle? && t.slots[x].phase.Allocated?
  {
    assert TakenAt(s, end - 1);
    t := Writes(s, pcs, 0, end, i, end - 1, 0, end);
  }

  /** The rest of an allocation. */
  lemma Publishes(s: State, pcs: seq<Pc>, end: nat, i: nat) returns (es: seq<Event>)
    requires Stands(s, pcs, 0, end) && i < 3 && 0 < end < SLOT_COUNT && pcs[i] == AllocGeneration(end - 1, 0)
    ensures Spares(s, es) && Stands(After(s, es), pcs[i := Idle], 0, end)
    ensures After(s, es).slots[end - 1].phase.Allocated?
    ensures forall y: nat :: y < end - 1 ==> After(s, es).slots[y] == s.slots[y]
  {
    hide Apply, Enabled, AllTaken, Spares, TakenAt;
    var a := Settles(s, pcs, end, i);
    var one := pcs[i := a.threads[i].pc];
    var b := Settles(a, one, end, i);
    var two := one[i := b.threads[i].pc];
    var c := Settles(b, two, end, i);
    NotAll(s, pcs, 0, end);
    NotAll(a, one, 0, end);
    NotAll(b, two, 0, end);
    NotAll(c, two[i := c.threads[i].pc], 0, end);
    OneEvent(s, Proceed(i));
    Then(s, [Proceed(i)], Proceed(i));
    Then(s, [Proceed(i)] + [Proceed(i)], Proceed(i));
    es := [Proceed(i)] + [Proceed(i)] + [Proceed(i)];
    assert two[i := c.threads[i].pc] == pcs[i := Idle];
  }

  /** Thread 1 allocates the next index. */
  lemma AllocatesNext(s: State, end: nat) returns (es: seq<Event>)
    requires Stands(s, [Idle, Idle, Idle], 0, end) && end + 1 < SLOT_COUNT && (end > 0 ==> s.slots[0].phase.Allocated?)
    ensures Spares(s, es) && Stands(After(s, es), [Idle, Idle, Idle], 0, end + 1) && After(s, es).slots[0].phase.Allocated?
  {
    hide Apply, Enabled, AllTaken, Spares, TakenAt, Stands;
    var pcs := [Idle, Idle, Idle];
    NotAll(s, pcs, 0, end);
    var a := Begins(s, pcs, 0, end, 1, Alloc(0));
    var scanning := pcs[1 := AllocScan(0, 0)];
    NotAll(a, scanning, 0, end);
    OneEvent(s, Begin(1, Alloc(0)));
    var scan := ScansTo(a, scanning, end, 1, 0, end);
    SparesOn(s, [Begin(1, Alloc(0))], scan);
    es := [Begin(1, Alloc(0))] + scan;
    var b := After(s, es);
    var there := scanning[1 := AllocScan(end, 0)];
    NotAll(b, there, 0, end);
    var c := Claims(b, there, 0, end, 1);
    var claimed := there[1 := AllocGeneration(end, 0)];
    NotAll(c, claimed, 0, end + 1);
    Then(s, es, Proceed(1));
    es := es + [Proceed(1)];
    var publish := Publishes(c, claimed, end + 1, 1);
    SparesOn(s, es, publish);
    es := es + publish;
    assert claimed[1 := Idle] == pcs;
    StandsShape(b, there, 0, end);
    StandsShape(After(s, es), claimed[1 := Idle], 0, end + 1);
  }

  lemma StandsShape(s: State, pcs: seq<Pc>, from: nat, end: nat)
    requires Stands(s, pcs, from, end)
    ensures WellShaped(s) && |s.threads| == 3
  {
  }

  lemma {:induction false} Fills(s: State, end: nat, goal: nat) returns (es: seq<Event>)
    requires Stands(s, [Idle, Idle, Idle], 0, end) && 0 < goal && end <= goal < SLOT_COUNT && (end > 0 ==> s.slots[0].phase.Allocated?)
    ensures Spares(s, es) && Stands(After(s, es), [Idle, Idle, Idle], 0, goal) && After(s, es).slots[0].phase.Allocated?
    decreases goal - end
  {
    hide Apply, Enabled, AllTaken, TakenAt, Stands;
    if end == goal {
      es := [];
      NotAll(s, [Idle, Idle, Idle], 0, end);
    } else {
      var first := AllocatesNext(s, end);
      var more := Fills(After(s, first), end + 1, goal);
      SparesOn(s, first, more);
      es := first + more;
    }
  }

  /** Thread i begins an allocation and comes to the last index, the only free one. */
  lemma Approaches(s: State, pcs: seq<Pc>, i: nat) returns (es: seq<Event>)
    requires Stands(s, pcs, 0, SLOT_COUNT - 1) && i < 3 && pcs[i] == Idle
    ensures Spares(s, es) && Stands(After(s, es), pcs[i := AllocScan(SLOT_COUNT - 1, 0)], 0, SLOT_COUNT - 1)
    ensures After(s, es).slots == s.slots
  {
    hide Apply, Enabled, AllTaken, TakenAt;
    var end := SLOT_COUNT - 1;
    NotAll(s, pcs, 0, end);
    var a := Begins(s, pcs, 0, end, i, Alloc(0));
    NotAll(a, pcs[i := AllocScan(0, 0)], 0, end);
    OneEvent(s, Begin(i, Alloc(0)));
    var scan := ScansTo(a, pcs[i := AllocScan(0, 0)], end, i, 0, end);
    SparesOn(s, [Begin(i, Alloc(0))], scan);
    es := [Begin(i, Alloc(0))] + scan;
    assert pcs[i := AllocScan(0, 0)][i := AllocScan(end, 0)] == pcs[i := AllocScan(end, 0)];
  }

  predicate FreesFirst(pc: Pc) {
    && (pc.FreeGeneration? || pc.FreeCallback? || pc.FreeClear? || pc.FreeNotify? || pc.FreePublish?)
    && pc.index == 0 && (!pc.FreePublish? ==> !pc.notify)
  }

  function StepsLeft(pc: Pc): nat {
    match pc
    case FreeGeneration(_, _) => 5
    case FreeCallback(_, _, _, _) => 4
    case FreeClear(_, _, _, _, _) => 3
    case FreeNotify(_, _, _, _, _) => 2
    case FreePublish(_) => 1
    case _ => 0
  }

  /** One step of the free of index 0: the index is given up at the last one only. */
  lemma FreeGoesOn(s: State, pcs: seq<Pc>, end: nat) returns (t: State)
    requires Stands(s, pcs, 0, end) && 0 < end && FreesFirst(pcs[1])
    ensures Enabled(s, Proceed(1)) && t == Apply(s, Proceed(1)) && 1 < |t.threads|
    ensures Stands(t, pcs[1 := t.threads[1].pc], if pcs[1].FreePublish? then 1 else 0, end)
    ensures if pcs[1].FreePublish? then t.threads[1].pc.Idle?
            else FreesFirst(t.threads[1].pc) && StepsLeft(t.threads[1].pc) == StepsLeft(pcs[1]) - 1
  {
    assert TakenAt(s, 0);
    t := Writes(s, pcs, 0, end, 1, 0, if pcs[1].FreePublish? then 1 else 0, end);
  }

  lemma {:induction false} FreesOn(s: State, pcs: seq<Pc>, end: nat) returns (es: seq<Event>)
    requires Stands(s, pcs, 0, end) && 0 < end < SLOT_COUNT && FreesFirst(pcs[1])
    ensures Spares(s, es) && Stands(After(s, es), pcs[1 := Idle], 1, end)
    decreases StepsLeft(pcs[1])
  {
    hide Apply, Enabled, AllTaken, TakenAt;
    NotAll(s, pcs, 0, end);
    var t := FreeGoesOn(s, pcs, end);
    var next := pcs[1 := t.threads[1].pc];
    if pcs[1].FreePublish? {
      NotAll(t, next, 1, end);
      OneEvent(s, Proceed(1));
      es := [Proceed(1)];
    } else {
      NotAll(t, next, 0, end);
      OneEvent(s, Proceed(1));
      var more := FreesOn(t, next, end);
      SparesOn(s, [Proceed(1)], more);
      es := [Proceed(1)] + more;
      assert next[1 := Idle] == pcs[1 := Idle];
    }
  }

  lemma FreeStarts(s: State, pcs: seq<Pc>, end: nat) returns (t: State)
    requires Stands(s, pcs, 0, end) && 0 < end && pcs[1] == FreeClaim(0, false) && s.slots[0].phase.Allocated?
    ensures Enabled(s, Proceed(1)) && t == Apply(s, Proceed(1)) && Stands(t, pcs[1 := FreeGeneration(0, false)], 0, end)
  {
    t := Writes(s, pcs, 0, end, 1, 0, 0, end);
  }

  /** Thread 1 frees index 0. */
  lemma FreesFirstIndex(s: State, pcs: seq<Pc>, end: nat) returns (es: seq<Event>)
    requires Stands(s, pcs, 0, end) && 0 < end < SLOT_COUNT && pcs[1] == Idle && s.slots[0].phase.Allocated?
    ensures Spares(s, es) && Stands(After(s, es), pcs, 1, end)
  {
    hide Apply, Enabled, AllTaken, TakenAt;
    var call := FreeIndex(0, false);
    NotAll(s, pcs, 0, end);
    var a := Begins(s, pcs, 0, end, 1, call);
    var one := pcs[1 := FreeClaim(0, false)];
    NotAll(a, one, 0, end);
    OneEvent(s, Begin(1, call));
    var b := FreeStarts(a, one, end);
    var two := one[1 := FreeGeneration(0, false)];
    NotAll(b, two, 0, end);
    Then(s, [Begin(1, call)], Proceed(1));
    var more := FreesOn(b, two, end);
    SparesOn(s, [Begin(1, call)] + [Proceed(1)], more);
    es := [Begin(1, call)] + [Proceed(1)] + more;
    assert two[1 := Idle] == pcs;
  }

  /** The scan that finds the last index taken gives up. */
  lemma GivesUp(s: State, pcs: seq<Pc>) returns (t: State)
    requires Stands(s, pcs, 1, SLOT_COUNT) && pcs[0] == AllocScan(SLOT_COUNT - 1, 0)
    ensures Enabled(s, Proceed(0)) && t == Apply(s, Proceed(0)) && Stands(t, pcs[0 := Idle], 1, SLOT_COUNT)
    ensures t.log == s.log + [OutOfIndexes(0)]
  {
    assert TakenAt(s, SLOT_COUNT - 1);
    t := Walks(s, pcs, 1, SLOT_COUNT, 0);
  }

  lemma StartsFree() returns (s: State)
    ensures s == Initial(3) && Stands(s, [Idle, Idle, Idle], 0, 0)
  {
    s := Initial(3);
  }

  /**
   * Thread 1 allocates every index but the last; threads 0 and 2 scan up to that one;
   * thread 1 frees index 0; thread 2 takes the last index and thread 0 gives up.
   */
  lemma GivingUp() returns (es: seq<Event>, s: State)
    ensures Spares(Initial(3), es) && s == After(Initial(3), es)
    ensures Enabled(s, Proceed(0)) && !AllTaken(Apply(s, Proceed(0))) && Apply(s, Proceed(0)).log == s.log + [OutOfIndexes(0)]
    ensures |s.threads| == 3 && s.threads[0].pc.AllocScan?
  {
    hide Apply, Enabled, AllTaken, TakenAt, Stands, Initial, Spares;
    var idle, last := [Idle, Idle, Idle], SLOT_COUNT - 1;
    var start := StartsFree();
    es := Fills(start, 0, last);
    var full := After(start, es);
    var zero := Approaches(full, idle, 0);
    SparesOn(start, es, zero);
    es := es + zero;
    var one := idle[0 := AllocScan(last, 0)];
    var two := Approaches(After(start, es), one, 2);
    SparesOn(start, es, two);
    es := es + two;
    var both := one[2 := AllocScan(last, 0)];
    var free := FreesFirstIndex(After(start, es), both, last);
    SparesOn(start, es, free);
    es := es + free;
    s := After(start, es);
    NotAll(s, both, 1, last);
    var taken := Claims(s, both, 1, last, 2);
    var three := both[2 := AllocGeneration(last, 0)];
    NotAll(taken, three, 1, SLOT_COUNT);
    Then(start, es, Proceed(2));
    es := es + [Proceed(2)];
    s := After(start, es);
    var done := GivesUp(s, three);
    StandsCount(s, three, 1, SLOT_COUNT);
    NotAll(done, three[0 := Idle], 1, SLOT_COUNT);
  }

  /**
   * And it can be wrong: in this run the allocation fails though at every instant some
   * index is free, because one given back during the call was left free.
   */
  lemma FullWithoutBeingFull() returns (run: seq<State>, events: seq<Event>, a: nat, b: nat)
    ensures Scanning(run, events, 0, a, b) && Returns(run, events, 0, b) && run[b + 1].log == run[b].log + [OutOfIndexes(0)]
    ensures forall k :: 0 <= k < |run| ==> !AllTaken(run[k])
    ensures !AllRetaken(run, events, a, b) && !MetFull(run, events, 0, b)
  {
    hide Apply, Enabled, AllTaken, Initial, Spares, AllRetaken;
    var es, s := GivingUp();
    assert !AllTaken(s) by { LastSpares(Initial(3), es); }
    Then(Initial(3), es, Proceed(0));
    events, b := es + [Proceed(0)], |es|;
    run := Trace(Initial(3), events);
    TraceSteps(Initial(3), events);
    TraceAppend(Initial(3), es, Proceed(0));
    a := ScanBegan(run, events, 0, b);
    ExhaustedIffRetaken(run, events, 0, a, b);
  }

  lemma {:induction false} LastSpares(s: State, es: seq<Event>)
    requires Spares(s, es)
    ensures !AllTaken(After(s, es))
    decreases |es|
  {
    hide Apply, Enabled, AllTaken;
    if es != [] {
      LastSpares(Apply(s, es[0]), es[1..]);
    }
  }

  lemma {:induction false} TraceAppend(s: State, es: seq<Event>, e: Event)
    requires Spares(s, es) && Spares(s, es + [e])
    ensures Trace(s, es + [e])[|es|] == After(s, es) && Trace(s, es + [e])[|es| + 1] == After(s, es + [e])
    decreases |es|
  {
    hide Apply, Enabled, AllTaken;
    if es == [] {
      assert es + [e] == [e];
      assert [e][1..] == [];
    } else {
      assert (es + [e])[1..] == es[1..] + [e];
      TraceAppend(Apply(s, es[0]), es[1..], e);
    }
  }
}
