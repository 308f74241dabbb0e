/** What every thread of the slot protocol may rely on, and how one step of one thread keeps it. */
module LocalInvariant {
  import opened Bytes
  import opened LocalSlots

  /** Between claiming an index and giving it up again: the slot is this thread's. */
  predicate Holds(pc: Pc, x: nat) {
    && (|| pc.AllocGeneration? || pc.AllocCallback? || pc.AllocPublish? || pc.FreeGeneration? || pc.FreeCallback? || pc.FreeClear?
        || pc.FreeNotify? || pc.FreePublish?)
    && pc.index == x
  }

  /** A set has stored its value and not yet made its final check. */
  predicate Storing(pc: Pc, x: nat) {
    (pc.Claim? || pc.Confirm?) && pc.access.Setting? && pc.index == x
  }

  /** The generations a thread has set an index under do not exceed g. */
  ghost predicate SetsUpTo(log: seq<Entry>, thread: nat, x: nat, g: nat) {
    forall k :: 0 <= k < |log| && log[k].DidSet? && log[k].thread == thread && log[k].index == x ==> log[k].generation <= g
  }

  ghost predicate AllSetsUpTo(log: seq<Entry>, x: nat, g: nat) {
    forall k :: 0 <= k < |log| && log[k].DidSet? && log[k].index == x ==> log[k].generation <= g
  }

  ghost predicate HoldersOk(s: State) {
    && |s.slots| == SLOT_COUNT
    && (forall j, x: nat :: 0 <= j < |s.threads| && x < SLOT_COUNT && Holds(s.threads[j].pc, x) ==> s.slots[x].phase.Initializing?)
    && (forall j, k, x: nat :: 0 <= j < k < |s.threads| && Holds(s.threads[j].pc, x) ==> !Holds(s.threads[k].pc, x))
  }

  ghost predicate SlotOk(slots: seq<LocalSlot>, log: seq<Entry>, x: nat)
    requires x < |slots|
  {
    && (Owned(log, x) <==> slots[x].phase.Allocated?)
    && Latest(log, x).generation <= slots[x].generation
    && (slots[x].phase.Allocated? ==> Latest(log, x) == Allocation(slots[x].generation, slots[x].callback))
    && AllSetsUpTo(log, x, Latest(log, x).generation)
  }

  /** A thread's stored value at an index it is not storing to is what it last set under the live generation. */
  ghost predicate ValueOk(s: State, j: nat, x: nat)
    requires WellShaped(s) && j < |s.threads| && x < SLOT_COUNT
  {
    var th := s.threads[j];
    && th.values[x].generation <= Latest(s.log, x).generation
    && (!Storing(th.pc, x) && s.slots[x].phase.Allocated? ==>
          Visible(th.values[x], s.slots[x].generation) == Held(s.log, j, x, s.slots[x].generation))
  }

  ghost predicate SeenOk(s: State, th: Thread) {
    Accesses(th.pc) ==>
      && Live(s.slots, th.pc.index) in th.seen
      && forall g :: Some(g) in th.seen ==> g <= Latest(s.log, th.pc.index).generation
  }

  /** What an access knows once both reads of the generation agreed. */
  ghost predicate AgreedOk(s: State, j: nat, th: Thread, x: nat, access: Access, g: nat, value: nat)
    requires WellShaped(s) && x < SLOT_COUNT && |th.values| == SLOT_COUNT
  {
    && g <= s.slots[x].generation && SetsUpTo(s.log, j, x, g)
    && Some(g) in th.seen && (Live(s.slots, x) == Some(g) || None in th.seen)
    && (access.Setting? ==> value == access.value && th.values[x] == LocalValue(value, g))
  }

  ghost predicate PcOk(s: State, j: nat, th: Thread)
    requires WellShaped(s) && |th.values| == SLOT_COUNT && (th.pc.Idle? || th.pc.index < SLOT_COUNT)
  {
    match th.pc
    case AllocCallback(x, _, g) => s.slots[x].generation == g && Latest(s.log, x).generation < g
    case AllocPublish(x, callback, g) => s.slots[x].generation == g && Latest(s.log, x).generation < g && s.slots[x].callback == callback
    case FreeGeneration(x, _) =>
      && Latest(s.log, x) == Allocation(s.slots[x].generation, s.slots[x].callback)
      && Visible(th.values[x], s.slots[x].generation) == Held(s.log, j, x, s.slots[x].generation)
    case FreeCallback(x, _, g, value) => Latest(s.log, x) == Allocation(g, s.slots[x].callback) && value == Held(s.log, j, x, g)
    case FreeClear(x, _, g, value, callback) => Latest(s.log, x) == Allocation(g, callback) && value == Held(s.log, j, x, g)
    case FreeNotify(x, _, g, value, callback) => Latest(s.log, x) == Allocation(g, callback) && value == Held(s.log, j, x, g)
    case ReadPhase(x, _, before) => before <= s.slots[x].generation && SetsUpTo(s.log, j, x, before)
    case ReadAfter(x, _, before) =>
      && before <= s.slots[x].generation && SetsUpTo(s.log, j, x, before)
      && (before == s.slots[x].generation ==> Some(before) in th.seen)
    case Claim(x, access, g, value) =>
      && AgreedOk(s, j, th, x, access, g, value)
      && (access.Getting? && Live(s.slots, x) == Some(g) ==> value == Held(s.log, j, x, g))
    case Confirm(x, access, g, value, live) =>
      && AgreedOk(s, j, th, x, access, g, value)
      && g <= live <= s.slots[x].generation && Some(live) in th.seen
      && (access.Getting? && live == g ==> value == Held(s.log, j, x, g))
    case _ => true
  }

  ghost predicate ThreadOk(s: State, j: nat)
    requires WellShaped(s) && j < |s.threads|
  {
    && PcOk(s, j, s.threads[j]) && SeenOk(s, s.threads[j])
    && forall x: nat :: x < SLOT_COUNT ==> ValueOk(s, j, x)
  }

  ghost predicate Inv(s: State) {
    && WellShaped(s) && HoldersOk(s) && Orderly(s.log)
    && (forall x: nat :: x < SLOT_COUNT ==> SlotOk(s.slots, s.log, x))
    && (forall j: nat :: j < |s.threads| ==> ThreadOk(s, j))
  }

  // The log after one more entry

  predicate About(e: Entry, x: nat) {
    e.OutOfIndexes? || e.index == x || e.index >= SLOT_COUNT
  }

  lemma Appended(log: seq<Entry>, e: Entry)
    ensures forall y: nat :: Latest(log + [e], y) ==
                             if e.DidAlloc? && e.index == y then Allocation(e.generation, e.callback) else Latest(log, y)
    ensures forall y: nat :: Owned(log + [e], y) <==>
                             (if e.DidAlloc? && e.index == y then true else if e.DidFree? && e.index == y then false else Owned(log, y))
    ensures forall t: nat, y: nat, g: nat ::
              Held(log + [e], t, y, g) ==
              if e.DidSet? && e.thread == t && e.index == y && e.generation == g then e.value else Held(log, t, y, g)
  {
    assert (log + [e])[..|log|] == log;
  }

  lemma AppendedSets(log: seq<Entry>, e: Entry)
    ensures forall t: nat, y: nat, g: nat ::
              SetsUpTo(log + [e], t, y, g) <==>
              SetsUpTo(log, t, y, g) && (e.DidSet? && e.thread == t && e.index == y ==> e.generation <= g)
    ensures forall y: nat, g: nat ::
              AllSetsUpTo(log + [e], y, g) <==> AllSetsUpTo(log, y, g) && (e.DidSet? && e.index == y ==> e.generation <= g)
  {
    assert (log + [e])[|log|] == e && forall k :: 0 <= k < |log| ==> (log + [e])[k] == log[k];
  }

  lemma AppendedOrderly(log: seq<Entry>, e: Entry)
    requires Orderly(log) && Fits(log, e)
    ensures Orderly(log + [e])
  {
    hide Fits;
    forall k | 0 <= k < |log + [e]|
      ensures Fits((log + [e])[..k], (log + [e])[k])
    {
      if k < |log| {
        assert (log + [e])[..k] == log[..k];
      } else {
        assert (log + [e])[..k] == log;
      }
    }
  }

  lemma {:induction false} NothingHeldBeyond(log: seq<Entry>, t: nat, x: nat, g: nat, h: nat)
    requires SetsUpTo(log, t, x, g) && g < h
    ensures Held(log, t, x, h) == NULL
  {
    if log != [] {
      var rest := log[..|log| - 1];
      assert forall k :: 0 <= k < |rest| ==> rest[k] == log[k];
      NothingHeldBeyond(rest, t, x, g, h);
    }
  }

  // What a step of one thread leaves to another

  ghost predicate Rely(s: State, t: State, j: nat, x: nat)
    requires j < |s.threads| && x < |s.slots| && x < |t.slots|
  {
    && s.slots[x].generation <= t.slots[x].generation
    && Latest(s.log, x).generation <= Latest(t.log, x).generation
    && (forall g: nat :: Held(t.log, j, x, g) == Held(s.log, j, x, g))
    && (forall g: nat :: SetsUpTo(s.log, j, x, g) ==> SetsUpTo(t.log, j, x, g))
    && (Live(t.slots, x) == Live(s.slots, x) || Live(t.slots, x) == None
        || (Live(s.slots, x) == None && Latest(s.log, x).generation < Live(t.slots, x).value))
    && (Holds(s.threads[j].pc, x) ==> t.slots[x] == s.slots[x] && Latest(t.log, x) == Latest(s.log, x))
  }

  lemma ValueKept(s: State, t: State, j: nat, x: nat)
    requires WellShaped(s) && WellShaped(t) && j < |s.threads| && j < |t.threads| && x < SLOT_COUNT
    requires ValueOk(s, j, x) && SlotOk(s.slots, s.log, x) && SlotOk(t.slots, t.log, x) && Rely(s, t, j, x)
    requires t.threads[j].values[x] == s.threads[j].values[x]
    requires Storing(s.threads[j].pc, x) ==> Storing(t.threads[j].pc, x)
    ensures ValueOk(t, j, x)
  {
    hide Latest, Held, Owned;
    var latest := Latest(s.log, x).generation;
    assert SetsUpTo(s.log, j, x, latest);
    if t.slots[x].phase.Allocated? && Live(s.slots, x) != Live(t.slots, x) {
      NothingHeldBeyond(s.log, j, x, latest, t.slots[x].generation);
    }
  }

  lemma PcKept(s: State, t: State, j: nat, th: Thread, seen: set<Option<nat>>)
    requires WellShaped(s) && WellShaped(t) && j < |s.threads| && s.threads[j] == th && !th.pc.Idle?
    requires PcOk(s, j, th) && SeenOk(s, th) && Rely(s, t, j, th.pc.index) && SlotOk(s.slots, s.log, th.pc.index)
    requires th.seen <= seen && (Accesses(th.pc) ==> Live(t.slots, th.pc.index) in seen)
    ensures PcOk(t, j, th.(seen := seen))
  {
    hide Latest, Held, Owned, SetsUpTo;
  }

  lemma SeenKept(s: State, t: State, j: nat, th: Thread)
    requires WellShaped(s) && WellShaped(t) && j < |s.threads| && s.threads[j] == th && !th.pc.Idle?
    requires SeenOk(s, th) && Rely(s, t, j, th.pc.index) && SlotOk(t.slots, t.log, th.pc.index)
    ensures SeenOk(t, Watch(t.slots, th))
  {
    hide Latest, Held, Owned, SetsUpTo;
  }

  // One step of thread i, at index x

  ghost predicate LogStep(before: seq<Entry>, after: seq<Entry>, i: nat, x: nat) {
    || after == before
    || (exists e: Entry :: after == before + [e] && e.thread == i && About(e, x) && Fits(before, e))
  }

  ghost predicate LocalStep(s: State, u: State, i: nat, x: nat) {
    && WellShaped(s) && WellShaped(u) && |s.threads| == |u.threads| && i < |s.threads| && x < SLOT_COUNT
    && (forall j :: 0 <= j < |s.threads| && j != i ==> u.threads[j] == s.threads[j])
    && (forall y :: 0 <= y < SLOT_COUNT && y != x ==> u.slots[y] == s.slots[y])
    && (forall y :: 0 <= y < SLOT_COUNT && y != x ==> u.threads[i].values[y] == s.threads[i].values[y])
    && (forall y: nat :: y != x ==> !Storing(s.threads[i].pc, y) && !Holds(u.threads[i].pc, y))
    && LogStep(s.log, u.log, i, x)
  }

  /** The index, if it changes hands or content, is no other thread's. */
  ghost predicate Exclusive(s: State, u: State, i: nat, x: nat)
    requires LocalStep(s, u, i, x)
  {
    && (Holds(u.threads[i].pc, x) ==> u.slots[x].phase.Initializing?)
    && (u.slots[x] == s.slots[x] || forall j: nat :: j < |s.threads| && j != i ==> !Holds(s.threads[j].pc, x))
    && (Holds(u.threads[i].pc, x) ==> forall j: nat :: j < |s.threads| && j != i ==> !Holds(s.threads[j].pc, x))
  }

  lemma RelyElsewhere(s: State, u: State, i: nat, x: nat, j: nat, y: nat)
    requires LocalStep(s, u, i, x) && j < |s.threads| && y < SLOT_COUNT && y != x
    ensures Rely(s, u, j, y) && Latest(s.log, y) == Latest(u.log, y) && Owned(s.log, y) == Owned(u.log, y)
    ensures forall g: nat :: AllSetsUpTo(s.log, y, g) ==> AllSetsUpTo(u.log, y, g)
  {
    hide Fits, Latest, Owned, Held, SetsUpTo, AllSetsUpTo;
    if u.log != s.log {
      var e: Entry :| u.log == s.log + [e] && e.thread == i && About(e, x) && Fits(s.log, e);
      Appended(s.log, e);
      AppendedSets(s.log, e);
    }
  }

  lemma HoldersStep(s: State, u: State, i: nat, x: nat)
    requires LocalStep(s, u, i, x) && HoldersOk(s) && Exclusive(s, u, i, x)
    ensures HoldersOk(u)
  {
    hide LogStep;
    forall j, y: nat | 0 <= j < |u.threads| && y < SLOT_COUNT && Holds(u.threads[j].pc, y)
      ensures u.slots[y].phase.Initializing?
    {
      if j != i {
        assert Holds(s.threads[j].pc, y);
      }
    }
    forall j, k, y: nat | 0 <= j < k < |u.threads| && Holds(u.threads[j].pc, y)
      ensures !Holds(u.threads[k].pc, y)
    {
      if j == i {
        assert y == x && u.threads[k] == s.threads[k];
      } else {
        assert Holds(s.threads[j].pc, y);
      }
    }
  }

  lemma OrderlyStep(s: State, u: State, i: nat, x: nat)
    requires LocalStep(s, u, i, x) && Orderly(s.log)
    ensures Orderly(u.log)
  {
    hide Fits, Orderly;
    if u.log != s.log {
      var e: Entry :| u.log == s.log + [e] && e.thread == i && About(e, x) && Fits(s.log, e);
      AppendedOrderly(s.log, e);
    }
  }

  lemma SlotsStep(s: State, u: State, i: nat, x: nat)
    requires LocalStep(s, u, i, x) && SlotOk(u.slots, u.log, x)
    requires forall y: nat :: y < SLOT_COUNT ==> SlotOk(s.slots, s.log, y)
    ensures forall y: nat :: y < SLOT_COUNT ==> SlotOk(u.slots, u.log, y)
  {
    hide LogStep, Latest, Owned, AllSetsUpTo;
    forall y: nat | y < SLOT_COUNT
      ensures SlotOk(u.slots, u.log, y)
    {
      if y != x {
        RelyElsewhere(s, u, i, x, i, y);
        assert SlotOk(s.slots, s.log, y);
      }
    }
  }

  lemma OtherStep(s: State, u: State, i: nat, x: nat, j: nat)
    requires LocalStep(s, u, i, x) && j < |s.threads| && j != i && ThreadOk(s, j) && Rely(s, u, j, x)
    requires forall y: nat :: y < SLOT_COUNT ==> SlotOk(s.slots, s.log, y) && SlotOk(u.slots, u.log, y)
    ensures WellShaped(Observe(u)) && ThreadOk(Observe(u), j)
  {
    hide LogStep, Rely, PcOk, SeenOk, ValueOk, SlotOk;
    var th, t := s.threads[j], Observe(u);
    forall y: nat | y < SLOT_COUNT
      ensures Rely(s, u, j, y) && ValueOk(u, j, y)
    {
      if y != x {
        RelyElsewhere(s, u, i, x, j, y);
      }
      ValueKept(s, u, j, y);
    }
    if th.pc.Idle? {
      IdleOk(u, j, th);
    } else {
      SeenKept(s, u, j, th);
      PcKept(s, u, j, th, Watch(u.slots, th).seen);
    }
    ObservedThread(u, j);
  }

  lemma IdleOk(u: State, j: nat, th: Thread)
    requires WellShaped(u) && |th.values| == SLOT_COUNT && th.pc.Idle?
    ensures PcOk(u, j, th) && SeenOk(u, th)
  {
  }

  lemma ObservedThread(u: State, j: nat)
    requires WellShaped(u) && j < |u.threads|
    requires PcOk(u, j, Watch(u.slots, u.threads[j])) && SeenOk(u, Watch(u.slots, u.threads[j]))
    requires forall y: nat :: y < SLOT_COUNT ==> ValueOk(u, j, y)
    ensures WellShaped(Observe(u)) && ThreadOk(Observe(u), j)
  {
    hide Latest, Held, SetsUpTo;
    var t := Observe(u);
    assert t.threads[j] == Watch(u.slots, u.threads[j]);
    forall y: nat | y < SLOT_COUNT
      ensures ValueOk(t, j, y)
    {
      assert ValueOk(u, j, y);
    }
  }

  lemma OwnValues(s: State, u: State, i: nat, x: nat)
    requires LocalStep(s, u, i, x) && ThreadOk(s, i) && ValueOk(u, i, x)
    requires forall y: nat :: y < SLOT_COUNT ==> SlotOk(s.slots, s.log, y) && SlotOk(u.slots, u.log, y)
    ensures forall y: nat :: y < SLOT_COUNT ==> ValueOk(u, i, y)
  {
    hide LogStep, Rely, PcOk, SeenOk, ValueOk, SlotOk;
    forall y: nat | y < SLOT_COUNT
      ensures ValueOk(u, i, y)
    {
      if y != x {
        RelyElsewhere(s, u, i, x, i, y);
        ValueKept(s, u, i, y);
      }
    }
  }

  /** A step of thread i at index x keeps the invariant if the others may rely on it and the thread's own claims hold after it. */
  lemma StepKeepsInv(s: State, u: State, i: nat, x: nat)
    requires Inv(s) && LocalStep(s, u, i, x) && Exclusive(s, u, i, x) && SlotOk(u.slots, u.log, x)
    requires forall j: nat :: j < |s.threads| && j != i ==> Rely(s, u, j, x)
    requires PcOk(u, i, Watch(u.slots, u.threads[i])) && SeenOk(u, Watch(u.slots, u.threads[i])) && ValueOk(u, i, x)
    ensures Inv(Observe(u))
  {
    hide LocalStep, Exclusive, Rely, PcOk, SeenOk, ValueOk, SlotOk, HoldersOk, Orderly, ThreadOk, Latest, Held;
    var t := Observe(u);
    assert i < |u.threads| && |s.threads| == |u.threads| && WellShaped(u) by { StepShape(s, u, i, x); }
    HoldersStep(s, u, i, x);
    OrderlyStep(s, u, i, x);
    SlotsStep(s, u, i, x);
    OwnValues(s, u, i, x);
    forall j: nat | j < |t.threads|
      ensures WellShaped(t) && ThreadOk(t, j)
    {
      if j == i {
        ObservedThread(u, i);
      } else {
        OtherStep(s, u, i, x, j);
      }
    }
    ObservedHolders(u);
  }

  lemma StepShape(s: State, u: State, i: nat, x: nat)
    requires LocalStep(s, u, i, x)
    ensures i < |u.threads| && |s.threads| == |u.threads| && WellShaped(u) && WellShaped(s)
  {
  }

  lemma ObservedHolders(u: State)
    requires HoldersOk(u) && WellShaped(u)
    ensures HoldersOk(Observe(u)) && WellShaped(Observe(u))
  {
    assert forall j :: 0 <= j < |u.threads| ==> Observe(u).threads[j].pc == u.threads[j].pc;
  }
}
