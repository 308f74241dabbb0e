/** Every step of the slot protocol keeps its invariant, and what that means for every run. */
module LocalSteps {
  import opened Bytes
  import opened LocalSlots
  import opened LocalInvariant

  // Steps that touch only the thread itself

  lemma QuietStep(s: State, u: State, i: nat, x: nat)
    requires Inv(s) && WellShaped(u) && i < |s.threads| == |u.threads| && x < SLOT_COUNT
    requires u == s.(threads := s.threads[i := u.threads[i]])
    requires forall y :: 0 <= y < SLOT_COUNT && y != x ==> u.threads[i].values[y] == s.threads[i].values[y]
    requires forall y: nat :: y != x ==> !Storing(s.threads[i].pc, y)
    requires forall y: nat :: Holds(u.threads[i].pc, y) ==> Holds(s.threads[i].pc, y) && y == x
    requires PcOk(u, i, Watch(u.slots, u.threads[i])) && SeenOk(u, Watch(u.slots, u.threads[i])) && ValueOk(u, i, x)
    ensures Inv(Observe(u))
  {
    hide PcOk, SeenOk, ValueOk, SlotOk, Orderly, ThreadOk, Latest, Held;
    forall j: nat | j < |s.threads| && j != i
      ensures Rely(s, u, j, x)
    {
    }
    assert SlotOk(s.slots, s.log, x);
    StepKeepsInv(s, u, i, x);
  }

  lemma AllocScanOn(s: State, i: nat)
    requires Inv(s) && i < |s.threads| && s.threads[i].pc.AllocScan? && !s.slots[s.threads[i].pc.index].phase.Free?
    requires s.threads[i].pc.index + 1 < SLOT_COUNT
    ensures Inv(Observe(Next(s, i)))
  {
    hide SlotOk, HoldersOk, Orderly, Latest, Held;
    var x := s.threads[i].pc.index;
    assert ThreadOk(s, i) && ValueOk(s, i, x);
    QuietStep(s, Next(s, i), i, x);
  }

  lemma FreeGenerationStep(s: State, i: nat)
    requires Inv(s) && i < |s.threads| && s.threads[i].pc.FreeGeneration?
    ensures Inv(Observe(Next(s, i)))
  {
    hide SlotOk, HoldersOk, Orderly, Latest, Held;
    var x := s.threads[i].pc.index;
    assert ThreadOk(s, i) && ValueOk(s, i, x);
    QuietStep(s, Next(s, i), i, x);
  }

  lemma FreeCallbackStep(s: State, i: nat)
    requires Inv(s) && i < |s.threads| && s.threads[i].pc.FreeCallback?
    ensures Inv(Observe(Next(s, i)))
  {
    hide SlotOk, Orderly, Latest, Held;
    var x := s.threads[i].pc.index;
    assert ThreadOk(s, i) && ValueOk(s, i, x);
    assert Holds(s.threads[i].pc, x);
    QuietStep(s, Next(s, i), i, x);
  }

  lemma ReadBeforeStep(s: State, i: nat)
    requires Inv(s) && i < |s.threads| && s.threads[i].pc.ReadBefore?
    ensures Inv(Observe(Next(s, i)))
  {
    hide HoldersOk, Orderly, Latest, Held, Owned;
    var x := s.threads[i].pc.index;
    assert ThreadOk(s, i) && ValueOk(s, i, x) && SlotOk(s.slots, s.log, x);
    QuietStep(s, Next(s, i), i, x);
  }

  lemma ReadPhaseOn(s: State, i: nat)
    requires Inv(s) && i < |s.threads| && s.threads[i].pc.ReadPhase? && s.slots[s.threads[i].pc.index].phase.Allocated?
    ensures Inv(Observe(Next(s, i)))
  {
    hide HoldersOk, Orderly, Latest, Held, Owned, SetsUpTo;
    var x := s.threads[i].pc.index;
    assert ThreadOk(s, i) && ValueOk(s, i, x) && SlotOk(s.slots, s.log, x);
    QuietStep(s, Next(s, i), i, x);
  }

  lemma ReadAfterStep(s: State, i: nat)
    requires Inv(s) && i < |s.threads| && s.threads[i].pc.ReadAfter?
    ensures Inv(Observe(Next(s, i)))
  {
    hide HoldersOk, Orderly, Latest, Held, Owned, SetsUpTo;
    var x := s.threads[i].pc.index;
    assert ThreadOk(s, i) && ValueOk(s, i, x) && SlotOk(s.slots, s.log, x);
    QuietStep(s, Next(s, i), i, x);
  }

  lemma ClaimOn(s: State, i: nat)
    requires Inv(s) && i < |s.threads| && s.threads[i].pc.Claim? && s.slots[s.threads[i].pc.index].phase.Allocated?
    ensures Inv(Observe(Next(s, i)))
  {
    hide HoldersOk, Orderly, Latest, Held, Owned, SetsUpTo;
    var x := s.threads[i].pc.index;
    assert ThreadOk(s, i) && ValueOk(s, i, x) && SlotOk(s.slots, s.log, x);
    QuietStep(s, Next(s, i), i, x);
  }

  // Steps that only add an entry to the log

  lemma EntryRely(s: State, u: State, i: nat, x: nat, e: Entry)
    requires WellShaped(s) && WellShaped(u) && i < |s.threads| && x < SLOT_COUNT && SlotOk(s.slots, s.log, x)
    requires u.slots == s.slots && u.log == s.log + [e] && e.thread == i && !e.DidAlloc? && !e.DidFree?
    requires e.DidSet? && e.index == x ==> e.generation <= Latest(s.log, x).generation
    ensures forall j: nat :: j < |s.threads| && j != i ==> Rely(s, u, j, x)
    ensures SlotOk(u.slots, u.log, x)
  {
    hide Latest, Held, Owned, SetsUpTo, AllSetsUpTo;
    Appended(s.log, e);
    AppendedSets(s.log, e);
    forall j: nat | j < |s.threads| && j != i
      ensures Rely(s, u, j, x)
    {
    }
  }

  lemma EntryStep(s: State, u: State, i: nat, x: nat, e: Entry)
    requires Inv(s) && WellShaped(u) && i < |s.threads| == |u.threads| && x < SLOT_COUNT
    requires u == s.(threads := s.threads[i := u.threads[i]], log := s.log + [e]) && e.thread == i && !e.DidAlloc? && !e.DidFree?
    requires About(e, x) && Fits(s.log, e)
    requires e.DidSet? && e.index == x ==> e.generation <= Latest(s.log, x).generation
    requires forall y :: 0 <= y < SLOT_COUNT && y != x ==> u.threads[i].values[y] == s.threads[i].values[y]
    requires forall y: nat :: y != x ==> !Storing(s.threads[i].pc, y)
    requires forall y: nat :: Holds(u.threads[i].pc, y) ==> Holds(s.threads[i].pc, y) && y == x
    requires PcOk(u, i, Watch(u.slots, u.threads[i])) && SeenOk(u, Watch(u.slots, u.threads[i])) && ValueOk(u, i, x)
    ensures Inv(Observe(u))
  {
    hide PcOk, SeenOk, ValueOk, SlotOk, Orderly, ThreadOk, Latest, Held, Fits;
    assert SlotOk(s.slots, s.log, x);
    EntryRely(s, u, i, x, e);
    StepKeepsInv(s, u, i, x);
  }

  lemma OutOfIndexesStep(s: State, i: nat)
    requires Inv(s) && i < |s.threads| && s.threads[i].pc.AllocScan? && !s.slots[s.threads[i].pc.index].phase.Free?
    requires s.threads[i].pc.index + 1 >= SLOT_COUNT
    ensures Inv(Observe(Next(s, i)))
  {
    hide SlotOk, HoldersOk, Orderly, Latest, Held;
    var x := s.threads[i].pc.index;
    assert ThreadOk(s, i) && ValueOk(s, i, x);
    Appended(s.log, OutOfIndexes(i));
    EntryStep(s, Next(s, i), i, x, OutOfIndexes(i));
  }

  lemma RefusedStep(s: State, i: nat)
    requires Inv(s) && i < |s.threads| && (s.threads[i].pc.FreeClaim? || s.threads[i].pc.ReadPhase?)
    requires !s.slots[s.threads[i].pc.index].phase.Allocated?
    ensures Inv(Observe(Next(s, i)))
  {
    hide SlotOk, HoldersOk, Orderly, Latest, Held;
    var x := s.threads[i].pc.index;
    assert ThreadOk(s, i) && ValueOk(s, i, x);
    Appended(s.log, Refused(i, x, s.threads[i].seen));
    EntryStep(s, Next(s, i), i, x, Refused(i, x, s.threads[i].seen));
  }

  /** A final check that fails: the index was dead at some instant, and a stored value is taken back. */
  lemma FailStep(s: State, i: nat)
    requires Inv(s) && i < |s.threads|
    requires var pc := s.threads[i].pc;
             || (pc.Claim? && !s.slots[pc.index].phase.Allocated?)
             || (pc.Confirm? && s.slots[pc.index].generation != pc.generation)
    ensures Inv(Observe(Next(s, i)))
  {
    hide HoldersOk, Orderly, Latest, Held, Owned, AllSetsUpTo;
    var pc, e := s.threads[i].pc, Refused(i, s.threads[i].pc.index, s.threads[i].seen);
    var x, u := pc.index, Next(s, i);
    assert ThreadOk(s, i) && ValueOk(s, i, x) && SlotOk(s.slots, s.log, x);
    Appended(s.log, e);
    if pc.access.Setting? && s.slots[x].phase.Allocated? {
      NothingHeldBeyond(s.log, i, x, pc.generation, s.slots[x].generation);
    }
    EntryStep(s, u, i, x, e);
  }

  lemma GotStep(s: State, i: nat)
    requires Inv(s) && i < |s.threads| && s.threads[i].pc.Confirm? && s.threads[i].pc.access.Getting?
    requires s.slots[s.threads[i].pc.index].generation == s.threads[i].pc.generation
    ensures Inv(Observe(Next(s, i)))
  {
    hide HoldersOk, Orderly, Latest, Held, Owned, AllSetsUpTo, SlotOk;
    var pc := s.threads[i].pc;
    var x, e := pc.index, DidGet(i, pc.index, pc.live, pc.value, s.threads[i].seen);
    assert ThreadOk(s, i) && ValueOk(s, i, x);
    Appended(s.log, e);
    EntryStep(s, Next(s, i), i, x, e);
  }

  lemma SetStep(s: State, i: nat)
    requires Inv(s) && i < |s.threads| && s.threads[i].pc.Confirm? && s.threads[i].pc.access.Setting?
    requires s.slots[s.threads[i].pc.index].generation == s.threads[i].pc.generation
    ensures Inv(Observe(Next(s, i)))
  {
    hide HoldersOk, Orderly, Latest, Held, Owned, AllSetsUpTo, SlotOk;
    var pc := s.threads[i].pc;
    var x, e := pc.index, DidSet(i, pc.index, pc.live, pc.value, s.threads[i].seen);
    assert ThreadOk(s, i);
    Appended(s.log, e);
    EntryStep(s, Next(s, i), i, x, e);
  }

  lemma FreeNotifyStep(s: State, i: nat)
    requires Inv(s) && i < |s.threads| && s.threads[i].pc.FreeNotify?
    ensures Inv(Observe(Next(s, i)))
  {
    hide Orderly, Latest, Held, Owned, AllSetsUpTo;
    var pc := s.threads[i].pc;
    var x, e := pc.index, DidNotify(i, pc.index, pc.generation, pc.callback, pc.value);
    assert ThreadOk(s, i) && ValueOk(s, i, x) && SlotOk(s.slots, s.log, x);
    assert Holds(pc, x);
    if pc.notify && pc.callback != 0 && pc.value != NULL {
      Appended(s.log, e);
      EntryStep(s, Next(s, i), i, x, e);
    } else {
      QuietStep(s, Next(s, i), i, x);
    }
  }

  // Steps that write a slot no thread sees as allocated

  lemma HiddenWrite(s: State, u: State, i: nat, x: nat)
    requires Inv(s) && WellShaped(u) && i < |s.threads| == |u.threads| && x < SLOT_COUNT
    requires u == s.(threads := s.threads[i := s.threads[i].(pc := u.threads[i].pc)], slots := s.slots[x := u.slots[x]])
    requires !s.slots[x].phase.Allocated? && !u.slots[x].phase.Allocated? && s.slots[x].generation <= u.slots[x].generation
    requires !Accesses(u.threads[i].pc)
    requires forall y: nat :: y != x ==> !Storing(s.threads[i].pc, y) && !Holds(u.threads[i].pc, y)
    requires Holds(u.threads[i].pc, x) ==> u.slots[x].phase.Initializing?
    requires Holds(s.threads[i].pc, x) || s.slots[x].phase.Free?
    requires PcOk(u, i, u.threads[i])
    ensures Inv(Observe(u))
  {
    hide PcOk, Orderly, Latest, Held;
    assert SlotOk(s.slots, s.log, x);
    assert ThreadOk(s, i) && ValueOk(s, i, x);
    forall j: nat | j < |s.threads| && j != i
      ensures Rely(s, u, j, x) && !Holds(s.threads[j].pc, x)
    {
    }
    StepKeepsInv(s, u, i, x);
  }

  lemma AllocClaims(s: State, i: nat)
    requires Inv(s) && i < |s.threads| && s.threads[i].pc.AllocScan? && s.slots[s.threads[i].pc.index].phase.Free?
    ensures Inv(Observe(Next(s, i)))
  {
    hide HoldersOk, Orderly, Latest, Held, SlotOk;
    HiddenWrite(s, Next(s, i), i, s.threads[i].pc.index);
  }

  lemma AllocWrites(s: State, i: nat)
    requires Inv(s) && i < |s.threads| && (s.threads[i].pc.AllocGeneration? || s.threads[i].pc.AllocCallback?)
    ensures Inv(Observe(Next(s, i)))
  {
    hide Orderly, Latest, Held;
    var x := s.threads[i].pc.index;
    assert Holds(s.threads[i].pc, x) && SlotOk(s.slots, s.log, x) && ThreadOk(s, i);
    HiddenWrite(s, Next(s, i), i, x);
  }

  lemma FreeWrites(s: State, i: nat)
    requires Inv(s) && i < |s.threads| && (s.threads[i].pc.FreeClear? || s.threads[i].pc.FreePublish?)
    ensures Inv(Observe(Next(s, i)))
  {
    hide Orderly, Latest, Held;
    var x := s.threads[i].pc.index;
    assert Holds(s.threads[i].pc, x) && ThreadOk(s, i);
    HiddenWrite(s, Next(s, i), i, x);
  }

  // Steps that give out or take back an index

  lemma PublishRely(s: State, u: State, i: nat, x: nat, e: Entry)
    requires WellShaped(s) && WellShaped(u) && i < |s.threads| && x < SLOT_COUNT && SlotOk(s.slots, s.log, x)
    requires e.DidAlloc? && e.thread == i && e.index == x && Latest(s.log, x).generation < e.generation == s.slots[x].generation
    requires !s.slots[x].phase.Allocated? && e.callback == s.slots[x].callback
    requires u.slots == s.slots[x := s.slots[x].(phase := Allocated)] && u.log == s.log + [e]
    requires forall j: nat :: j < |s.threads| && j != i ==> !Holds(s.threads[j].pc, x)
    ensures forall j: nat :: j < |s.threads| && j != i ==> Rely(s, u, j, x)
    ensures SlotOk(u.slots, u.log, x) && Fits(s.log, e)
  {
    hide Latest, Held, Owned;
    Appended(s.log, e);
    AppendedSets(s.log, e);
    forall t: nat
      ensures Held(s.log, t, x, e.generation) == NULL
    {
      NothingHeldBeyond(s.log, t, x, Latest(s.log, x).generation, e.generation);
    }
  }

  lemma PublishStep(s: State, i: nat)
    requires Inv(s) && i < |s.threads| && s.threads[i].pc.AllocPublish?
    ensures Inv(Observe(Next(s, i)))
  {
    hide Orderly, Latest, Held, Owned, AllSetsUpTo, SetsUpTo, Fits;
    var pc, u := s.threads[i].pc, Next(s, i);
    var x, e := pc.index, DidAlloc(i, pc.index, pc.generation, pc.callback);
    assert Holds(pc, x) && ThreadOk(s, i) && ValueOk(s, i, x) && SlotOk(s.slots, s.log, x);
    PublishRely(s, u, i, x, e);
    Appended(s.log, e);
    assert ValueOk(u, i, x) by {
      assert Held(s.log, i, x, e.generation) == NULL by { FitsFresh(s.log, e, i); }
    }
    assert LogStep(s.log, u.log, i, x);
    StepKeepsInv(s, u, i, x);
  }

  lemma FitsFresh(log: seq<Entry>, e: Entry, t: nat)
    requires e.DidAlloc? && Fits(log, e)
    ensures Held(log, t, e.index, e.generation) == NULL
  {
  }

  lemma FreeRely(s: State, u: State, i: nat, x: nat, e: Entry)
    requires WellShaped(s) && WellShaped(u) && i < |s.threads| && x < SLOT_COUNT && SlotOk(s.slots, s.log, x)
    requires e == DidFree(i, x, s.slots[x].generation) && s.slots[x].phase.Allocated?
    requires u.slots == s.slots[x := s.slots[x].(phase := Initializing)] && u.log == s.log + [e]
    requires forall j: nat :: j < |s.threads| && j != i ==> !Holds(s.threads[j].pc, x)
    ensures forall j: nat :: j < |s.threads| && j != i ==> Rely(s, u, j, x)
    ensures SlotOk(u.slots, u.log, x) && Fits(s.log, e)
  {
    hide Latest, Held, Owned;
    Appended(s.log, e);
    AppendedSets(s.log, e);
  }

  lemma FreeClaimStep(s: State, i: nat)
    requires Inv(s) && i < |s.threads| && s.threads[i].pc.FreeClaim? && s.slots[s.threads[i].pc.index].phase.Allocated?
    ensures Inv(Observe(Next(s, i)))
  {
    hide Orderly, Latest, Held, Owned, AllSetsUpTo, SetsUpTo, Fits;
    var x, u := s.threads[i].pc.index, Next(s, i);
    var e := DidFree(i, x, s.slots[x].generation);
    assert ThreadOk(s, i) && ValueOk(s, i, x) && SlotOk(s.slots, s.log, x);
    FreeRely(s, u, i, x, e);
    Appended(s.log, e);
    assert LogStep(s.log, u.log, i, x);
    StepKeepsInv(s, u, i, x);
  }

  // All steps

  lemma IdleStep(s: State, i: nat)
    requires Inv(s) && i < |s.threads| && s.threads[i].pc.Idle?
    ensures Inv(Observe(s))
  {
    hide HoldersOk, Orderly, Latest, Held;
    assert ThreadOk(s, i) && ValueOk(s, i, 0);
    QuietStep(s, s, i, 0);
  }

  lemma NextKeepsInv(s: State, i: nat)
    requires Inv(s) && i < |s.threads|
    ensures Inv(Observe(Next(s, i)))
  {
    hide Inv, Next, Observe, Orderly, ThreadOk, SlotOk, HoldersOk;
    var pc := s.threads[i].pc;
    InvShape(s);
    match pc
    case Idle => NextOfIdle(s, i); IdleStep(s, i);
    case AllocScan(x, _) =>
      if s.slots[x].phase.Free? {
        AllocClaims(s, i);
      } else if x + 1 < SLOT_COUNT {
        AllocScanOn(s, i);
      } else {
        OutOfIndexesStep(s, i);
      }
    case AllocGeneration(_, _) => AllocWrites(s, i);
    case AllocCallback(_, _, _) => AllocWrites(s, i);
    case AllocPublish(_, _, _) => PublishStep(s, i);
    case FreeClaim(x, _) =>
      if s.slots[x].phase.Allocated? {
        FreeClaimStep(s, i);
      } else {
        RefusedStep(s, i);
      }
    case FreeGeneration(_, _) => FreeGenerationStep(s, i);
    case FreeCallback(_, _, _, _) => FreeCallbackStep(s, i);
    case FreeClear(_, _, _, _, _) => FreeWrites(s, i);
    case FreeNotify(_, _, _, _, _) => FreeNotifyStep(s, i);
    case FreePublish(_) => FreeWrites(s, i);
    case ReadBefore(_, _) => ReadBeforeStep(s, i);
    case ReadPhase(x, _, _) =>
      if s.slots[x].phase.Allocated? {
        ReadPhaseOn(s, i);
      } else {
        RefusedStep(s, i);
      }
    case ReadAfter(_, _, _) => ReadAfterStep(s, i);
    case Claim(x, _, _, _) =>
      if s.slots[x].phase.Allocated? {
        ClaimOn(s, i);
      } else {
        FailStep(s, i);
      }
    case Confirm(x, access, g, _, _) =>
      if s.slots[x].generation != g {
        FailStep(s, i);
      } else if access.Getting? {
        GotStep(s, i);
      } else {
        SetStep(s, i);
      }
  }

  lemma InvShape(s: State)
    requires Inv(s)
    ensures WellShaped(s)
  {
  }

  lemma NextOfIdle(s: State, i: nat)
    requires WellShaped(s) && i < |s.threads| && s.threads[i].pc.Idle?
    ensures Next(s, i) == s
  {
  }

  lemma StartKeepsInv(s: State, i: nat, call: Call)
    requires Inv(s) && i < |s.threads| && s.threads[i].pc.Idle?
    ensures Inv(Observe(Start(s, i, call)))
  {
    hide HoldersOk, Orderly, Latest, Held, Owned, SetsUpTo, AllSetsUpTo;
    var u := Start(s, i, call);
    assert ThreadOk(s, i);
    if call.Alloc? {
      assert ValueOk(s, i, 0);
      QuietStep(s, u, i, 0);
    } else if call.index < SLOT_COUNT {
      assert ValueOk(s, i, call.index) && SlotOk(s.slots, s.log, call.index);
      QuietStep(s, u, i, call.index);
    } else {
      assert ValueOk(s, i, 0);
      Appended(s.log, Refused(i, call.index, {None}));
      EntryStep(s, u, i, 0, Refused(i, call.index, {None}));
    }
  }

  lemma InitialInv(threads: nat)
    ensures Inv(Initial(threads))
  {
  }

  lemma {:induction false} RunKeepsInv(run: seq<State>, events: seq<Event>, k: nat)
    requires IsRun(run, events) && k < |run|
    ensures Inv(run[k])
  {
    hide Inv, Next, Start, Observe, Initial;
    if k == 0 {
      var threads: nat :| run[0] == Initial(threads);
      InitialInv(threads);
    } else {
      RunKeepsInv(run, events, k - 1);
      match events[k - 1]
      case Proceed(i) => NextKeepsInv(run[k - 1], i);
      case Begin(i, call) => StartKeepsInv(run[k - 1], i, call);
    }
  }
}
