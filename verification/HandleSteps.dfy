/** Every step of every thread keeps the invariant, so no step ever faults. */
module HandleSteps {
  import opened Bytes
  import opened HandleTokens
  import opened HandleTable
  import opened HandleInvariant

  // The parts of the invariant, carried over a step by what the step changes

  lemma LockMoves(s: State, t: State, i: nat, pc: Pc)
    requires LockOk(s) && i < |s.threads| && Moved(s, t, i, pc)
    requires One(t.locked) + Weigh(Locks, s.threads[i]) == One(s.locked) + Weigh(Locks, pc)
    ensures LockOk(t)
  {
  }

  lemma DestroyMoves(s: State, t: State, i: nat, pc: Pc)
    requires DestroyOk(s) && i < |s.threads| && Moved(s, t, i, pc)
    requires s.closing == t.closing && s.destroying == t.destroying && s.tableFreed == t.tableFreed && s.tableReleased == t.tableReleased
    requires Weigh(Destroyers, s.threads[i]) == Weigh(Destroyers, pc)
    ensures DestroyOk(t)
  {
  }

  lemma RefsMove(s: State, t: State, i: nat, pc: Pc)
    requires RefsOk(s) && i < |s.threads| && Moved(s, t, i, pc) && s.records == t.records
    requires forall r: RecordId ::
               SlotCount(t.slots, r) + t.leases[r] + Weigh(Refs(r), pc) == SlotCount(s.slots, r) + s.leases[r] + Weigh(Refs(r), s.threads[i])
    ensures RefsOk(t)
  {
    hide Weigh, Sum, SlotCount;
    forall r: RecordId
      ensures RefShare(t, r) == RefShare(s, r)
    {
    }
  }

  /** References and activities the state itself accounts for, threads apart. */
  function OwnReferences(s: State): nat {
    One(!s.tableReleased) + |s.records| + |s.leases|
  }

  lemma TrackerMoves(s: State, t: State, i: nat, pc: Pc)
    requires TrackerOk(s) && i < |s.threads| && Moved(s, t, i, pc)
    requires Activities(t.tracker) - Activities(s.tracker) == |t.leases| - |s.leases| + Weigh(Acts, pc) - Weigh(Acts, s.threads[i])
    requires References(t.tracker) - References(s.tracker) ==
             OwnReferences(t) - OwnReferences(s) + Weigh(Acts, pc) - Weigh(Acts, s.threads[i]) + Weigh(Extra, pc) - Weigh(Extra, s.threads[i])
    requires t.trackerFreed <==> References(t.tracker) == 0
    ensures TrackerOk(t)
  {
    hide Weigh, Sum, References, Activities;
  }

  lemma AddsToTracker(tracker: uint64, references: nat, activities: nat)
    requires References(tracker) + references < TWO_32 && Activities(tracker) + activities < TWO_32
    ensures var added := (tracker + references + activities * ACTIVITY_ONE) % TWO_64;
            References(added) == References(tracker) + references && Activities(added) == Activities(tracker) + activities
  {
    var low, high := References(tracker) + references, Activities(tracker) + activities;
    assert tracker + references + activities * ACTIVITY_ONE == high * TWO_32 + low;
    assert high * TWO_32 + low < TWO_64;
  }

  lemma TakesFromTracker(tracker: uint64, activities: nat)
    requires References(tracker) >= 1 && Activities(tracker) >= activities
    ensures var taken := (tracker - REFERENCE_ONE - activities * ACTIVITY_ONE) % TWO_64;
            References(taken) == References(tracker) - 1 && Activities(taken) == Activities(tracker) - activities
  {
    var low, high := References(tracker) - 1, Activities(tracker) - activities;
    assert tracker - REFERENCE_ONE - activities * ACTIVITY_ONE == high * TWO_32 + low;
    assert 0 <= high * TWO_32 + low < TWO_64;
  }

  /** A thread working on the table: the table, and with it the tracker, still exists. */
  lemma TableAlive(s: State, i: nat)
    requires Inv(s) && i < |s.threads| && !OffTable(s.threads[i])
    ensures s.threads[i].FinalRelease? || !s.tableFreed
    ensures !s.tableReleased && !s.trackerFreed && References(s.tracker) > 0
  {
    hide Sum, LifeOk, RefsOk, SlotsOk, IssuedOk, LockOk, SlotCount, Checked;
    assert Phased(s, s.threads[i]);
    if IsDestroyer(s.threads[i]) {
      SumCovers(s.threads, i, Destroyers);
    }
  }

  // The program counters after a reference is dropped

  lemma ContinueWeighs(cont: Cont)
    ensures forall r: RecordId :: Weigh(Refs(r), Continue(cont)) == ContRefs(cont, r) && Weigh(Destructors(r), Continue(cont)) == 0
    ensures Weigh(Acts, Continue(cont)) == One(cont.EndActivity?)
    ensures Weigh(Extra, Continue(cont)) == 0 && Weigh(Locks, Continue(cont)) == 0
    ensures Weigh(Destroyers, Continue(cont)) == One(cont.Rest?)
  {
    if cont.Rest? && cont.todo != [] {
      var todo := cont.todo;
      assert todo == [todo[0]] + todo[1..];
      assert multiset(todo) == multiset{todo[0]} + multiset(todo[1..]);
    }
  }

  // Steps that move a thread and change nothing else

  lemma Answered(s: State, i: nat)
    requires Inv(s) && i < |s.threads| && !s.closing && HoldsLock(s.threads[i])
    requires forall m: Measure :: Weigh(m, s.threads[i]) == Weigh(m, Unlocking(Return(Success)))
    ensures forall answer: Answer :: Inv(At(s, i, Unlocking(Return(answer))))
  {
    hide Inv;
    forall answer: Answer
      ensures Inv(At(s, i, Unlocking(Return(answer))))
    {
      MoveOnly(s, i, Unlocking(Return(answer)));
    }
  }

  lemma InsertScanSteps(s: State, i: nat, kind: Kind, item: nat)
    requires Inv(s) && i < |s.threads| && s.threads[i] == InsertScan(kind, item)
    ensures Inv(Next(s, i))
  {
    hide LockOk, DestroyOk, RefsOk, TrackerOk, LifeOk, IssuedOk, Activities;
    TableAlive(s, i);
    assert Phased(s, s.threads[i]);
    Answered(s, i);
    var empty := FindEmpty(s.slots, 0);
    if empty.Some? && References(s.tracker) != UINT32_MAX {
      MoveOnly(s, i, InsertRetain(kind, item, empty.value));
    }
  }

  lemma ResolvesToRecord(s: State, place: Place)
    requires Inv(s) && Resolves(s, place)
    ensures s.slots[place.slot].record.value in s.records
  {
    hide LockOk, DestroyOk, TrackerOk, LifeOk, IssuedOk, ChecksOk;
    var r := s.slots[place.slot].record.value;
    SlotCountCovers(s.slots, place.slot, r);
    assert RefShare(s, r) >= 1;
  }

  lemma AcquireCheckSteps(s: State, i: nat, place: Place, kind: Kind)
    requires Inv(s) && i < |s.threads| && s.threads[i] == AcquireCheck(place, kind)
    ensures Inv(Next(s, i))
  {
    hide LockOk, DestroyOk, RefsOk, TrackerOk, LifeOk, IssuedOk, SlotsOk, Activities, References;
    TableAlive(s, i);
    assert Phased(s, s.threads[i]);
    Answered(s, i);
    if Resolves(s, place) {
      ResolvesToRecord(s, place);
      var r := s.slots[place.slot].record.value;
      if s.records[r].refs != UINT32_MAX {
        MoveOnly(s, i, AcquireBegin(r, place.slot));
      }
    }
  }

  lemma AcquireBeginSteps(s: State, i: nat, r: RecordId, slot: nat)
    requires Inv(s) && i < |s.threads| && s.threads[i] == AcquireBegin(r, slot)
    ensures Inv(Next(s, i))
  {
    hide LockOk, DestroyOk, RefsOk, TrackerOk, LifeOk, IssuedOk, SlotsOk;
    TableAlive(s, i);
    assert Phased(s, s.threads[i]) && Checked(s, s.threads[i]);
    Answered(s, i);
    if References(s.tracker) != UINT32_MAX && Activities(s.tracker) != UINT32_MAX {
      assert Activities(s.tracker) <= UINT32_MAX;
      MoveOnly(s, i, AcquireAdd(r, slot));
    }
  }

  lemma CloseCheckSteps(s: State, i: nat, place: Place, kind: Kind)
    requires Inv(s) && i < |s.threads| && s.threads[i] == CloseCheck(place, kind)
    ensures Inv(Next(s, i))
  {
    hide LockOk, DestroyOk, RefsOk, TrackerOk, LifeOk, IssuedOk, SlotsOk;
    TableAlive(s, i);
    assert Phased(s, s.threads[i]);
    Answered(s, i);
    if Resolves(s, place) {
      ResolvesToRecord(s, place);
      if References(s.tracker) != UINT32_MAX && Activities(s.tracker) != UINT32_MAX {
        assert Activities(s.tracker) <= UINT32_MAX;
        MoveOnly(s, i, CloseAdd(s.slots[place.slot].record.value, place.slot));
      }
    }
  }

  lemma PrepareCheckSteps(s: State, i: nat)
    requires Inv(s) && i < |s.threads| && s.threads[i] == PrepareCheck
    ensures Inv(Next(s, i))
  {
    hide LockOk, DestroyOk, RefsOk, TrackerOk, LifeOk, IssuedOk, SlotsOk, References, Activities;
    TableAlive(s, i);
    assert Phased(s, s.threads[i]);
    Answered(s, i);
    if !s.destroying && Activities(s.tracker) == 0 {
      MoveOnly(s, i, Frozen);
    }
  }

  // The lock

  lemma TakeLockSteps(s: State, i: nat, pc: Pc)
    requires Inv(s) && i < |s.threads| && !OffTable(s.threads[i])
    requires !HoldsLock(s.threads[i]) && HoldsLock(pc) && !s.threads[i].FinalRelease?
    requires forall m: Measure :: m == Locks || Weigh(m, s.threads[i]) == Weigh(m, pc)
    requires Checked(s, pc) && Phased(s, pc)
    ensures Inv(TakeLock(s, i, pc))
  {
    hide Weigh, Sum, Checked, Phased, LockOk, DestroyOk, RefsOk, TrackerOk, LifeOk, ChecksOk, References, Activities, SlotsOk, IssuedOk;
    TableAlive(s, i);
    if !s.locked {
      var t := TakeLock(s, i, pc);
      Moves(s, t, i, pc);
      assert LockOk(t) by {
        LocksWeigh(s.threads[i]);
        LocksWeigh(pc);
        LockMoves(s, t, i, pc);
      }
      assert DestroyOk(t) by { DestroyMoves(s, t, i, pc); }
      assert RefsOk(t) by { RefsMove(s, t, i, pc); }
      assert TrackerOk(t) by { TrackerMoves(s, t, i, pc); }
      assert LifeOk(t) by { LifeMoves(s, t, i, pc); }
      assert SlotsOk(t) && IssuedOk(t) by { SlotsKept(s, t); }
      assert ChecksOk(t) by {
        CheckedKept(s, t, pc);
        PhasedKept(s, t, pc);
        ChecksCarry(s, t, i, pc);
      }
    }
  }

  lemma LocksWeigh(pc: Pc)
    ensures Weigh(Locks, pc) == One(HoldsLock(pc))
  {
  }

  // Increments of the tracker, under the lock

  lemma TrackerAddSteps(s: State, i: nat, pc: Pc, activities: nat)
    requires Inv(s) && i < |s.threads| && HoldsLock(s.threads[i]) && HoldsLock(pc) && !OffTable(s.threads[i]) && activities <= 1
    requires TrackerHasRoom(s) && Activities(s.tracker) + activities < TWO_32
    requires Weigh(Acts, pc) == Weigh(Acts, s.threads[i]) + activities
    requires Weigh(Acts, pc) + Weigh(Extra, pc) == Weigh(Acts, s.threads[i]) + Weigh(Extra, s.threads[i]) + 1
    requires forall m: Measure :: m == Acts || m == Extra || Weigh(m, s.threads[i]) == Weigh(m, pc)
    requires forall t: State :: s.slots == t.slots && s.records == t.records ==> Checked(t, pc)
    requires Phased(s, pc)
    ensures Inv(TrackerAdd(s, i, REFERENCE_ONE + activities * ACTIVITY_ONE, pc))
  {
    hide Weigh, Sum, Checked, Phased, LockOk, DestroyOk, RefsOk, TrackerOk, LifeOk, ChecksOk, References, Activities, SlotsOk, IssuedOk;
    TableAlive(s, i);
    var t := TrackerAdd(s, i, REFERENCE_ONE + activities * ACTIVITY_ONE, pc);
    AddsToTracker(s.tracker, 1, activities);
    Moves(s, t, i, pc);
    assert LockOk(t) by { LockMoves(s, t, i, pc); }
    assert DestroyOk(t) by { DestroyMoves(s, t, i, pc); }
    assert RefsOk(t) by { RefsMove(s, t, i, pc); }
    assert TrackerOk(t) by { TrackerMoves(s, t, i, pc); }
    assert LifeOk(t) by { LifeMoves(s, t, i, pc); }
    assert SlotsOk(t) && IssuedOk(t) by { SlotsKept(s, t); }
    assert ChecksOk(t) by {
      PhasedKept(s, t, pc);
      ChecksOfHolder(s, t, i, pc);
    }
  }

  lemma InsertRetainSteps(s: State, i: nat, kind: Kind, item: nat, slot: nat)
    requires Inv(s) && i < |s.threads| && s.threads[i] == InsertRetain(kind, item, slot)
    ensures Inv(Next(s, i))
  {
    hide LockOk, DestroyOk, RefsOk, TrackerOk, LifeOk, IssuedOk, SlotsOk;
    assert Checked(s, s.threads[i]) && Phased(s, s.threads[i]);
    assert Activities(s.tracker) < TWO_32;
    TrackerAddSteps(s, i, InsertPublish(kind, item, slot), 0);
  }

  lemma AcquireAddSteps(s: State, i: nat, r: RecordId, slot: nat)
    requires Inv(s) && i < |s.threads| && s.threads[i] == AcquireAdd(r, slot)
    ensures Inv(Next(s, i))
  {
    hide LockOk, DestroyOk, RefsOk, TrackerOk, LifeOk, IssuedOk, SlotsOk;
    assert Checked(s, s.threads[i]) && Phased(s, s.threads[i]);
    TrackerAddSteps(s, i, AcquireRef(r, slot), 1);
  }

  lemma CloseAddSteps(s: State, i: nat, r: RecordId, slot: nat)
    requires Inv(s) && i < |s.threads| && s.threads[i] == CloseAdd(r, slot)
    ensures Inv(Next(s, i))
  {
    hide LockOk, DestroyOk, RefsOk, TrackerOk, LifeOk, IssuedOk, SlotsOk;
    assert Checked(s, s.threads[i]) && Phased(s, s.threads[i]);
    TrackerAddSteps(s, i, CloseInvalidate(r, slot), 1);
  }

  // Decrements of the tracker

  /** The checks in tracker_drop pass. */
  predicate DropPasses(s: State, activities: nat) {
    && !s.trackerFreed && References(s.tracker) > 0 && Activities(s.tracker) >= activities
    && (References(s.tracker) == 1 ==> Activities(s.tracker) == activities)
  }

  lemma TrackerDropSteps(s: State, i: nat, activities: nat, pc: Pc)
    requires Inv(s) && i < |s.threads| && activities <= 1 && !HoldsLock(s.threads[i]) && s.threads[i] != FinalRelease
    requires Weigh(Acts, s.threads[i]) == Weigh(Acts, pc) + activities
    requires Weigh(Acts, s.threads[i]) + Weigh(Extra, s.threads[i]) == Weigh(Acts, pc) + Weigh(Extra, pc) + 1
    requires forall m: Measure :: m == Acts || m == Extra || Weigh(m, s.threads[i]) == Weigh(m, pc)
    requires DropPasses(s, activities)
    requires Checked(s, pc) && Phased(s, pc)
    ensures Inv(TrackerDrop(s, i, activities, pc))
  {
    hide Weigh, Sum, Checked, Phased, LockOk, DestroyOk, RefsOk, TrackerOk, LifeOk, ChecksOk, References, Activities, SlotsOk, IssuedOk;
    var t := TrackerDrop(s, i, activities, pc);
    TakesFromTracker(s.tracker, activities);
    Moves(s, t, i, pc);
    assert LockOk(t) by { LockMoves(s, t, i, pc); }
    assert DestroyOk(t) by { DestroyMoves(s, t, i, pc); }
    assert RefsOk(t) by { RefsMove(s, t, i, pc); }
    assert TrackerOk(t) by { TrackerMoves(s, t, i, pc); }
    assert LifeOk(t) by { LifeMoves(s, t, i, pc); }
    assert SlotsOk(t) && IssuedOk(t) by { SlotsKept(s, t); }
    assert ChecksOk(t) by {
      CheckedKept(s, t, pc);
      PhasedKept(s, t, pc);
      ChecksCarry(s, t, i, pc);
    }
  }

  /** What a thread about to drop still holds is counted. */
  lemma TrackerDropPasses(s: State, i: nat, activities: nat)
    requires Inv(s) && i < |s.threads| && activities <= 1
    requires var weight := Weigh(Acts, s.threads[i]);
             weight + Weigh(Extra, s.threads[i]) + One(IsDestroyer(s.threads[i])) > 0 && activities <= weight &&
             (activities < weight ==> weight + Weigh(Extra, s.threads[i]) > 1)
    ensures DropPasses(s, activities)
  {
    hide LockOk, RefsOk, LifeOk, SlotsOk, IssuedOk, ChecksOk, References, Activities;
    SumCovers(s.threads, i, Acts);
    SumCovers(s.threads, i, Extra);
    SumCovers(s.threads, i, Destroyers);
  }

  lemma ReleasingTrackerSteps(s: State, i: nat, cont: Cont)
    requires Inv(s) && i < |s.threads| && s.threads[i] == ReleasingTracker(cont)
    ensures Inv(Next(s, i))
  {
    hide LockOk, DestroyOk, RefsOk, TrackerOk, LifeOk, IssuedOk, SlotsOk;
    assert Phased(s, s.threads[i]);
    ContinueWeighs(cont);
    TrackerDropPasses(s, i, 0);
    TrackerDropSteps(s, i, 0, Continue(cont));
  }

  lemma EndingActivitySteps(s: State, i: nat)
    requires Inv(s) && i < |s.threads| && s.threads[i] == EndingActivity
    ensures Inv(Next(s, i))
  {
    hide LockOk, DestroyOk, RefsOk, TrackerOk, LifeOk, IssuedOk, SlotsOk;
    TrackerDropPasses(s, i, 1);
    TrackerDropSteps(s, i, 1, Idle);
  }

  lemma FinalReleaseWeighs()
    ensures forall m: Measure :: Weigh(m, Idle) == 0
    ensures forall m: Measure :: Weigh(m, FinalRelease) == One(m == Destroyers)
  {
  }

  lemma FinalReleaseSteps(s: State, i: nat)
    requires Inv(s) && i < |s.threads| && s.threads[i] == FinalRelease
    ensures Inv(Next(s, i))
  {
    hide LockOk, DestroyOk, RefsOk, TrackerOk, LifeOk, IssuedOk;
    assert Phased(s, s.threads[i]);
    TrackerDropPasses(s, i, 0);
    TakesFromTracker(s.tracker, 0);
    TableReleased(s, Next(s, i), i);
  }

  lemma TableReleased(s: State, t: State, i: nat)
    requires Inv(s) && i < |s.threads| && s.threads[i] == FinalRelease && s.tableFreed
    requires t == At(s, i, Idle).(tracker := t.tracker, trackerFreed := t.trackerFreed, tableReleased := true)
    requires References(s.tracker) > 0 && References(t.tracker) == References(s.tracker) - 1 && Activities(t.tracker) == Activities(s.tracker)
    requires t.trackerFreed <==> References(t.tracker) == 0
    ensures Inv(t)
  {
    hide Checked, SlotCount, SlotsOk, IssuedOk, References, Activities, Sum, Weigh, Phased;
    FinalReleaseWeighs();
    TableAlive(s, i);
    Moves(s, t, i, Idle);
    assert LockOk(t) by { LockMoves(s, t, i, Idle); }
    assert DestroyOk(t) by {
      assert Sum(t.threads, Destroyers) + 1 == Sum(s.threads, Destroyers);
    }
    assert RefsOk(t) by { RefsMove(s, t, i, Idle); }
    assert TrackerOk(t) by { TrackerMoves(s, t, i, Idle); }
    assert LifeOk(t) by { LifeMoves(s, t, i, Idle); }
    assert SlotsOk(t) && IssuedOk(t) by { SlotsKept(s, t); }
    assert ChecksOk(t) by {
      IdleChecked(t);
      ChecksCarry(s, t, i, Idle);
    }
  }

  lemma IdleChecked(t: State)
    ensures Checked(t, Idle) && Phased(t, Idle)
  {
  }

  // Records: published, referenced, dropped

  lemma RecountedKeys(records: map<RecordId, Record>, r: RecordId, record: Record)
    requires r in records
    ensures records[r := record].Keys == records.Keys && |records[r := record]| == |records|
  {
    assert |records[r := record].Keys| == |records.Keys|;
  }

  lemma RefsRecount(s: State, t: State, i: nat, pc: Pc, r: RecordId)
    requires RefsOk(s) && i < |s.threads| && Moved(s, t, i, pc) && s.slots == t.slots && s.leases == t.leases
    requires r in s.records && r in t.records && t.records == s.records[r := t.records[r]] && t.records[r].refs > 0
    requires t.records[r].refs - s.records[r].refs == Weigh(Refs(r), pc) - Weigh(Refs(r), s.threads[i])
    requires forall x: RecordId :: x != r ==> Weigh(Refs(x), s.threads[i]) == Weigh(Refs(x), pc)
    ensures RefsOk(t)
  {
    hide Weigh, Sum, SlotCount;
    RefShareMoves(s, t, i, pc);
  }

  lemma AcquireRefSteps(s: State, i: nat, r: RecordId, slot: nat)
    requires Inv(s) && i < |s.threads| && s.threads[i] == AcquireRef(r, slot)
    ensures Inv(Next(s, i))
  {
    hide LockOk, DestroyOk, RefsOk, TrackerOk, LifeOk, IssuedOk;
    assert Checked(s, s.threads[i]) && Phased(s, s.threads[i]);
    RecordReferenced(s, Next(s, i), i, r);
  }

  lemma LeasingWeighs(pc: Pc)
    requires pc.AcquireRef?
    ensures forall m: Measure :: Weigh(m, Unlocking(GiveLease(pc.record))) == Weigh(m, pc) + One(m == Refs(pc.record))
  {
  }

  lemma UnlockingChecked(t: State, after: After)
    requires !after.DropAll? && !t.closing
    ensures Checked(t, Unlocking(after)) && Phased(t, Unlocking(after))
  {
  }

  lemma RecordReferenced(s: State, t: State, i: nat, r: RecordId)
    requires Inv(s) && i < |s.threads| && s.threads[i].AcquireRef? && s.threads[i].record == r && RecordHasRoom(s, r) && !s.closing
    requires t == At(s, i, Unlocking(GiveLease(r))).(records := s.records[r := s.records[r].(refs := s.records[r].refs + 1)])
    ensures Inv(t)
  {
    hide Weigh, Sum, Checked, Phased, LockOk, DestroyOk, RefsOk, LifeOk, ChecksOk, References, Activities, SlotsOk, IssuedOk;
    var pc := Unlocking(GiveLease(r));
    LeasingWeighs(s.threads[i]);
    UnlockingChecked(t, GiveLease(r));
    Moves(s, t, i, pc);
    RecountedKeys(s.records, r, t.records[r]);
    assert LockOk(t) by { LockMoves(s, t, i, pc); }
    assert DestroyOk(t) by { DestroyMoves(s, t, i, pc); }
    assert RefsOk(t) by { RefsRecount(s, t, i, pc, r); }
    assert TrackerOk(t) by { TrackerMoves(s, t, i, pc); }
    assert LifeOk(t) by { LifeMoves(s, t, i, pc); }
    assert SlotsOk(t) && IssuedOk(t) by { SlotsKept(s, t); }
    assert ChecksOk(t) by { ChecksOfHolder(s, t, i, pc); }
  }

  /** A dropped reference that is not the last. */
  lemma DropSteps(s: State, i: nat, r: RecordId, cont: Cont)
    requires Inv(s) && i < |s.threads| && s.threads[i] == Dropping(r, cont)
    ensures r in s.records && s.records[r].refs > 0
    ensures s.records[r].refs > 1 ==> Inv(Next(s, i))
  {
    assert r in s.records && s.records[r].refs > 0 by {
      hide LockOk, DestroyOk, TrackerOk, LifeOk, IssuedOk, SlotsOk, ChecksOk;
      SumCovers(s.threads, i, Refs(r));
      assert RefShare(s, r) >= 1;
    }
    if s.records[r].refs > 1 {
      hide LockOk, DestroyOk, RefsOk, TrackerOk, LifeOk, IssuedOk;
      assert Phased(s, s.threads[i]);
      RecordKept(s, Next(s, i), i, r, cont);
    }
  }

  lemma ContinueChecked(s: State, t: State, pc: Pc, cont: Cont)
    requires (pc.Dropping? || pc.ReleasingTracker?) && pc.cont == cont && Phased(s, pc)
    requires s.closing == t.closing && s.tableFreed == t.tableFreed && s.destroying == t.destroying
    ensures Checked(t, Continue(cont)) && Phased(t, Continue(cont))
  {
  }

  lemma RecordKept(s: State, t: State, i: nat, r: RecordId, cont: Cont)
    requires Inv(s) && i < |s.threads| && s.threads[i] == Dropping(r, cont) && r in s.records && s.records[r].refs > 1
    requires Phased(s, s.threads[i])
    requires t == At(s, i, Continue(cont)).(records := s.records[r := s.records[r].(refs := s.records[r].refs - 1)])
    ensures Inv(t)
  {
    hide Weigh, Sum, Checked, Phased, LockOk, DestroyOk, RefsOk, LifeOk, ChecksOk, References, Activities, SlotsOk, IssuedOk, Continue, ContRefs;
    var pc := Continue(cont);
    ContinueWeighs(cont);
    DroppingWeighs(r, cont);
    ContinueChecked(s, t, s.threads[i], cont);
    Moves(s, t, i, pc);
    RecountedKeys(s.records, r, t.records[r]);
    assert LockOk(t) by { LockMoves(s, t, i, pc); }
    assert DestroyOk(t) by { DestroyMoves(s, t, i, pc); }
    assert RefsOk(t) by { RefsRecount(s, t, i, pc, r); }
    assert TrackerOk(t) by { TrackerMoves(s, t, i, pc); }
    assert LifeOk(t) by { LifeMoves(s, t, i, pc); }
    assert SlotsOk(t) && IssuedOk(t) by { SlotsKept(s, t); }
    assert ChecksOk(t) by { ChecksCarry(s, t, i, pc); }
  }

  lemma DroppingWeighs(r: RecordId, cont: Cont)
    ensures forall x: RecordId :: Weigh(Refs(x), Dropping(r, cont)) == One(x == r) + ContRefs(cont, x)
    ensures forall x: RecordId :: Weigh(Destructors(x), Dropping(r, cont)) == 0
    ensures Weigh(Acts, Dropping(r, cont)) == One(cont.EndActivity?)
    ensures Weigh(Extra, Dropping(r, cont)) == 0 && Weigh(Locks, Dropping(r, cont)) == 0
    ensures Weigh(Destroyers, Dropping(r, cont)) == One(cont.Rest?)
  {
  }

  /** The last reference: the record is freed, and its destructor is next. */
  lemma LastDropSteps(s: State, i: nat, r: RecordId, cont: Cont)
    requires Inv(s) && i < |s.threads| && s.threads[i] == Dropping(r, cont) && r in s.records && s.records[r].refs == 1
    ensures Inv(Next(s, i))
  {
    hide LockOk, DestroyOk, RefsOk, TrackerOk, LifeOk, IssuedOk;
    assert Phased(s, s.threads[i]);
    RecordFreed(s, Next(s, i), i, r, cont);
  }

  lemma RecordFreed(s: State, t: State, i: nat, r: RecordId, cont: Cont)
    requires Inv(s) && i < |s.threads| && s.threads[i] == Dropping(r, cont) && r in s.records && s.records[r].refs == 1
    requires Phased(s, s.threads[i])
    requires t == At(s, i, Destructing(r, cont)).(records := s.records - {r})
    ensures Inv(t)
  {
    hide Weigh, Sum, Checked, Phased, LockOk, DestroyOk, RefsOk, LifeOk, ChecksOk, References, Activities, SlotsOk, IssuedOk;
    var pc := Destructing(r, cont);
    DroppingWeighs(r, cont);
    DestructingWeighs(r, cont);
    DestructingChecked(s, t, r, cont);
    Moves(s, t, i, pc);
    assert t.records.Keys == s.records.Keys - {r} && |t.records.Keys| == |s.records.Keys| - 1;
    assert LockOk(t) by { LockMoves(s, t, i, pc); }
    assert DestroyOk(t) by { DestroyMoves(s, t, i, pc); }
    assert RefsOk(t) by { RefsFreed(s, t, i, r, cont); }
    assert TrackerOk(t) by { TrackerMoves(s, t, i, pc); }
    assert LifeOk(t) by { LifeFreed(s, t, i, r, cont); }
    assert SlotsOk(t) && IssuedOk(t) by { SlotsKept(s, t); }
    assert ChecksOk(t) by {
      FreedHasNoSlot(s, i, r, cont);
      ChecksCarry(s, t, i, pc);
    }
  }

  lemma DestructingWeighs(r: RecordId, cont: Cont)
    ensures forall x: RecordId :: Weigh(Refs(x), Destructing(r, cont)) == ContRefs(cont, x)
    ensures forall x: RecordId :: Weigh(Destructors(x), Destructing(r, cont)) == One(x == r)
    ensures Weigh(Acts, Destructing(r, cont)) == One(cont.EndActivity?)
    ensures Weigh(Extra, Destructing(r, cont)) == 1 && Weigh(Locks, Destructing(r, cont)) == 0
    ensures Weigh(Destroyers, Destructing(r, cont)) == One(cont.Rest?)
  {
  }

  lemma DestructingChecked(s: State, t: State, r: RecordId, cont: Cont)
    requires Phased(s, Dropping(r, cont))
    requires s.closing == t.closing && s.tableFreed == t.tableFreed && s.destroying == t.destroying
    ensures Checked(t, Destructing(r, cont)) && Phased(t, Destructing(r, cont))
  {
  }

  lemma RefsFreed(s: State, t: State, i: nat, r: RecordId, cont: Cont)
    requires RefsOk(s) && i < |s.threads| && s.threads[i] == Dropping(r, cont) && r in s.records && s.records[r].refs == 1
    requires Moved(s, t, i, Destructing(r, cont)) && s.slots == t.slots && s.leases == t.leases && t.records == s.records - {r}
    ensures RefsOk(t)
  {
    hide Weigh, Sum, SlotCount;
    DroppingWeighs(r, cont);
    DestructingWeighs(r, cont);
    RefShareMoves(s, t, i, Destructing(r, cont));
    assert RefShare(s, r) == 1;
  }

  lemma LifeFreed(s: State, t: State, i: nat, r: RecordId, cont: Cont)
    requires LifeOk(s) && i < |s.threads| && s.threads[i] == Dropping(r, cont) && r in s.records
    requires Moved(s, t, i, Destructing(r, cont)) && t.records == s.records - {r}
    requires s.destructed == t.destructed && s.nextRecord == t.nextRecord
    ensures LifeOk(t)
  {
    hide Weigh, Sum;
    DroppingWeighs(r, cont);
    DestructingWeighs(r, cont);
    forall x: RecordId
      ensures One(x in t.records) + Sum(t.threads, Destructors(x)) + multiset(t.destructed)[x] == One(x < t.nextRecord)
    {
      assert Sum(t.threads, Destructors(x)) == Sum(s.threads, Destructors(x)) + One(x == r);
    }
  }

  /** A thread dropping the only reference leaves none for a slot. */
  lemma FreedHasNoSlot(s: State, i: nat, r: RecordId, cont: Cont)
    requires RefsOk(s) && i < |s.threads| && s.threads[i] == Dropping(r, cont) && r in s.records && s.records[r].refs == 1
    ensures forall k: nat :: !SlotHolds(s, k, r)
  {
    SumCovers(s.threads, i, Refs(r));
    assert RefShare(s, r) == 1;
    forall k: nat
      ensures !SlotHolds(s, k, r)
    {
      if SlotHolds(s, k, r) {
        SlotCountCovers(s.slots, k, r);
      }
    }
  }

  lemma DestructingSteps(s: State, i: nat, r: RecordId, cont: Cont)
    requires Inv(s) && i < |s.threads| && s.threads[i] == Destructing(r, cont)
    ensures Inv(Next(s, i))
  {
    hide LockOk, DestroyOk, RefsOk, TrackerOk, LifeOk, IssuedOk;
    assert Phased(s, s.threads[i]);
    RecordDestructed(s, Next(s, i), i, r, cont);
  }

  lemma RecordDestructed(s: State, t: State, i: nat, r: RecordId, cont: Cont)
    requires Inv(s) && i < |s.threads| && s.threads[i] == Destructing(r, cont) && Phased(s, s.threads[i])
    requires t == At(s, i, ReleasingTracker(cont)).(destructed := s.destructed + [r])
    ensures Inv(t)
  {
    hide Weigh, Sum, Checked, Phased, LockOk, DestroyOk, RefsOk, LifeOk, ChecksOk, References, Activities, SlotsOk, IssuedOk;
    var pc := ReleasingTracker(cont);
    DestructingWeighs(r, cont);
    ReleasingWeighs(s, t, r, cont);
    Moves(s, t, i, pc);
    assert LockOk(t) by { LockMoves(s, t, i, pc); }
    assert DestroyOk(t) by { DestroyMoves(s, t, i, pc); }
    assert RefsOk(t) by { RefsMove(s, t, i, pc); }
    assert TrackerOk(t) by { TrackerMoves(s, t, i, pc); }
    assert LifeOk(t) by { LifeDestructed(s, t, i, r, cont); }
    assert SlotsOk(t) && IssuedOk(t) by { SlotsKept(s, t); }
    assert ChecksOk(t) by { ChecksCarry(s, t, i, pc); }
  }

  lemma ReleasingWeighs(s: State, t: State, r: RecordId, cont: Cont)
    requires Phased(s, Destructing(r, cont))
    requires s.closing == t.closing && s.tableFreed == t.tableFreed && s.destroying == t.destroying
    ensures forall x: RecordId :: Weigh(Refs(x), ReleasingTracker(cont)) == ContRefs(cont, x)
    ensures forall x: RecordId :: Weigh(Destructors(x), ReleasingTracker(cont)) == 0
    ensures Weigh(Acts, ReleasingTracker(cont)) == One(cont.EndActivity?)
    ensures Weigh(Extra, ReleasingTracker(cont)) == 1 && Weigh(Locks, ReleasingTracker(cont)) == 0
    ensures Weigh(Destroyers, ReleasingTracker(cont)) == One(cont.Rest?)
    ensures Checked(t, ReleasingTracker(cont)) && Phased(t, ReleasingTracker(cont))
  {
  }

  lemma LifeDestructed(s: State, t: State, i: nat, r: RecordId, cont: Cont)
    requires LifeOk(s) && i < |s.threads| && s.threads[i] == Destructing(r, cont)
    requires Moved(s, t, i, ReleasingTracker(cont)) && t.records == s.records
    requires t.destructed == s.destructed + [r] && s.nextRecord == t.nextRecord
    requires forall x: RecordId :: Weigh(Destructors(x), ReleasingTracker(cont)) == 0
    ensures LifeOk(t)
  {
    hide Weigh, Sum;
    DestructingWeighs(r, cont);
    forall x: RecordId
      ensures One(x in t.records) + Sum(t.threads, Destructors(x)) + multiset(t.destructed)[x] == One(x < t.nextRecord)
    {
      assert multiset(s.destructed + [r]) == multiset(s.destructed) + multiset{r};
      assert Sum(t.threads, Destructors(x)) + One(x == r) == Sum(s.threads, Destructors(x));
    }
  }

  // Slots: published, invalidated, taken by destruction

  lemma InsertPublishSteps(s: State, i: nat, kind: Kind, item: nat, slot: nat)
    requires Inv(s) && i < |s.threads| && s.threads[i] == InsertPublish(kind, item, slot)
    ensures Inv(Next(s, i))
  {
    hide LockOk, DestroyOk, RefsOk, TrackerOk, LifeOk, IssuedOk;
    assert Checked(s, s.threads[i]) && Phased(s, s.threads[i]);
    TableAlive(s, i);
    RecordPublished(s, i, kind, item, slot);
  }

  lemma PublishingWeighs(s: State, kind: Kind, item: nat, slot: nat)
    requires !s.closing
    ensures forall m: Measure :: Weigh(m, InsertPublish(kind, item, slot)) == Weigh(m, Unlocking(Return(Success))) + One(m == Extra)
    ensures Checked(s, Unlocking(Return(Success))) && Phased(s, Unlocking(Return(Success)))
  {
  }

  lemma RecordPublished(s: State, i: nat, kind: Kind, item: nat, slot: nat)
    requires Inv(s) && i < |s.threads| && s.threads[i] == InsertPublish(kind, item, slot)
    requires SlotEmpty(s, slot) && !s.closing
    ensures Inv(Publish(s, i, kind, item, slot))
  {
    hide Weigh, Sum, Checked, Phased, LockOk, RefsOk, LifeOk, ChecksOk, References, Activities, SlotsOk, IssuedOk;
    var pc, t := Unlocking(Return(Success)), Publish(s, i, kind, item, slot);
    PublishingWeighs(t, kind, item, slot);
    Moves(s, t, i, pc);
    NextRecordIsNew(s);
    assert t.records.Keys == s.records.Keys + {s.nextRecord} && |t.records.Keys| == |s.records.Keys| + 1;
    assert LockOk(t) by { LockMoves(s, t, i, pc); }
    assert DestroyOk(t) by { DestroyMoves(s, t, i, pc); }
    assert RefsOk(t) by { RefsPublished(s, t, i, kind, item, slot); }
    assert TrackerOk(t) by { TrackerMoves(s, t, i, pc); }
    assert LifeOk(t) by { LifePublished(s, t, i); }
    assert SlotsOk(t) by { SlotsPublished(s, t, slot); }
    assert IssuedOk(t) by { IssuedPublished(s, t, slot); }
    assert ChecksOk(t) by { ChecksOfHolder(s, t, i, pc); }
  }

  lemma NextRecordIsNew(s: State)
    requires LifeOk(s)
    ensures s.nextRecord !in s.records
  {
  }

  lemma RefsPublished(s: State, t: State, i: nat, kind: Kind, item: nat, slot: nat)
    requires RefsOk(s) && i < |s.threads| && s.threads[i] == InsertPublish(kind, item, slot) && SlotEmpty(s, slot)
    requires Moved(s, t, i, Unlocking(Return(Success))) && !s.closing && s.leases == t.leases
    requires s.nextRecord !in s.records && t.records == s.records[s.nextRecord := Record(1, kind, item)]
    requires t.slots == s.slots[slot := s.slots[slot].(record := Some(s.nextRecord))]
    ensures RefsOk(t)
  {
    hide Weigh, Sum, SlotCount;
    PublishingWeighs(s, kind, item, slot);
    SlotCountUpdates(s.slots, slot, t.slots[slot]);
    forall r: RecordId
      ensures RefShare(t, r) == RefShare(s, r) + One(r == s.nextRecord)
    {
    }
  }

  lemma LifePublished(s: State, t: State, i: nat)
    requires LifeOk(s) && i < |s.threads| && s.threads[i].InsertPublish? && Moved(s, t, i, Unlocking(Return(Success))) && !s.closing
    requires t.records.Keys == s.records.Keys + {s.nextRecord} && s.nextRecord !in s.records
    requires t.nextRecord == s.nextRecord + 1 && s.destructed == t.destructed
    ensures LifeOk(t)
  {
    hide Weigh, Sum;
    var pc := s.threads[i];
    PublishingWeighs(s, pc.kind, pc.item, pc.slot);
    forall x: RecordId
      ensures One(x in t.records) + Sum(t.threads, Destructors(x)) + multiset(t.destructed)[x] == One(x < t.nextRecord)
    {
      assert Sum(t.threads, Destructors(x)) == Sum(s.threads, Destructors(x));
    }
  }

  lemma SlotsPublished(s: State, t: State, slot: nat)
    requires SlotsOk(s) && SlotEmpty(s, slot) && !s.destroying && !t.destroying
    requires t.slots == s.slots[slot := s.slots[slot].(record := Some(s.nextRecord))]
    ensures SlotsOk(t)
  {
  }

  /** An empty slot's generation was never issued: every handle of the slot is stale. */
  lemma IssuedPublished(s: State, t: State, slot: nat)
    requires SlotsOk(s) && IssuedOk(s) && SlotEmpty(s, slot)
    requires t.slots == s.slots[slot := s.slots[slot].(record := Some(s.nextRecord))]
    requires t.issued == s.issued + [Place(slot, s.slots[slot].generation)]
    ensures IssuedOk(t)
  {
    var n := |s.issued|;
    assert forall k :: 0 <= k < n ==> t.issued[k] == s.issued[k];
    forall k | 0 <= k < n
      ensures (Stale(t.slots, t.issued[k]) || Current(t.slots, t.issued[k])) && t.issued[k] != t.issued[n]
    {
      assert Stale(s.slots, s.issued[k]) || Current(s.slots, s.issued[k]);
    }
  }

  lemma CloseInvalidateSteps(s: State, i: nat, r: RecordId, slot: nat)
    requires Inv(s) && i < |s.threads| && s.threads[i] == CloseInvalidate(r, slot)
    ensures Inv(Next(s, i))
  {
    hide LockOk, DestroyOk, RefsOk, TrackerOk, LifeOk, IssuedOk;
    assert Checked(s, s.threads[i]) && Phased(s, s.threads[i]);
    TableAlive(s, i);
    SlotInvalidated(s, Next(s, i), i, r, slot);
  }

  lemma InvalidatingWeighs(s: State, r: RecordId, slot: nat)
    requires !s.closing
    ensures forall m: Measure :: Weigh(m, Unlocking(DropClosed(r))) == Weigh(m, CloseInvalidate(r, slot)) + One(m == Refs(r))
    ensures Checked(s, Unlocking(DropClosed(r))) && Phased(s, Unlocking(DropClosed(r)))
  {
  }

  lemma SlotInvalidated(s: State, t: State, i: nat, r: RecordId, slot: nat)
    requires Inv(s) && i < |s.threads| && s.threads[i] == CloseInvalidate(r, slot) && SlotHolds(s, slot, r) && !s.closing
    requires t == At(s, i, Unlocking(DropClosed(r))).(slots := s.slots[slot := InvalidateSlot(s.slots[slot])])
    ensures Inv(t)
  {
    hide Weigh, Sum, Checked, Phased, LockOk, RefsOk, LifeOk, ChecksOk, References, Activities, SlotsOk, IssuedOk;
    var pc := Unlocking(DropClosed(r));
    InvalidatingWeighs(t, r, slot);
    Moves(s, t, i, pc);
    assert LockOk(t) by { LockMoves(s, t, i, pc); }
    assert DestroyOk(t) by { DestroyMoves(s, t, i, pc); }
    assert RefsOk(t) by {
      SlotCountUpdates(s.slots, slot, t.slots[slot]);
      RefsMove(s, t, i, pc);
    }
    assert TrackerOk(t) by { TrackerMoves(s, t, i, pc); }
    assert LifeOk(t) by { LifeMoves(s, t, i, pc); }
    assert SlotsOk(t) && IssuedOk(t) by { SlotsInvalidated(s, t); }
    assert ChecksOk(t) by { ChecksOfHolder(s, t, i, pc); }
  }

  /** Invalidating slots that hold records keeps the slots in order and makes their handles stale. */
  lemma SlotsInvalidated(s: State, t: State)
    requires SlotsOk(s) && IssuedOk(s) && |t.slots| == |s.slots| && s.issued == t.issued
    requires forall k :: 0 <= k < |s.slots| ==> t.slots[k] == s.slots[k] || (s.slots[k].record.Some? && t.slots[k] == InvalidateSlot(s.slots[k]))
    requires t.destroying ==> forall k :: 0 <= k < |t.slots| ==> t.slots[k].record.None?
    ensures SlotsOk(t) && IssuedOk(t)
  {
    forall k | 0 <= k < |s.issued|
      ensures Stale(t.slots, t.issued[k]) || Current(t.slots, t.issued[k])
    {
      assert Issuable(s.issued[k]);
      assert SlotOk(s.slots[s.issued[k].slot]);
      assert Stale(s.slots, s.issued[k]) || Current(s.slots, s.issued[k]);
    }
  }

  lemma DestroyTakeSteps(s: State, i: nat)
    requires Inv(s) && i < |s.threads| && s.threads[i] == DestroyTake
    ensures Inv(Next(s, i))
  {
    hide LockOk, RefsOk, TrackerOk, LifeOk, IssuedOk;
    assert Phased(s, s.threads[i]);
    SlotsTaken(s, Next(s, i), i);
  }

  lemma TakingWeighs(s: State, all: seq<RecordId>)
    requires s.closing && s.destroying && !s.tableFreed
    ensures forall r: RecordId :: Weigh(Refs(r), Unlocking(DropAll(all))) == multiset(all)[r] && Weigh(Refs(r), DestroyTake) == 0
    ensures forall m: Measure :: m.Refs? || Weigh(m, Unlocking(DropAll(all))) == Weigh(m, DestroyTake)
    ensures Checked(s, Unlocking(DropAll(all))) && Phased(s, Unlocking(DropAll(all)))
  {
  }

  lemma SlotsTaken(s: State, t: State, i: nat)
    requires Inv(s) && i < |s.threads| && s.threads[i] == DestroyTake && s.closing && !s.tableFreed
    requires t == At(s, i, Unlocking(DropAll(Taken(s.slots)))).(destroying := true, slots := InvalidateAll(s.slots))
    ensures Inv(t)
  {
    hide Weigh, Sum, Checked, Phased, LockOk, DestroyOk, RefsOk, LifeOk, ChecksOk, References, Activities, SlotsOk, IssuedOk;
    var pc := Unlocking(DropAll(Taken(s.slots)));
    TakingWeighs(t, Taken(s.slots));
    Moves(s, t, i, pc);
    assert LockOk(t) by { LockMoves(s, t, i, pc); }
    assert DestroyOk(t) by { DestroyTaken(s, t, i, pc); }
    assert RefsOk(t) by {
      forall r: RecordId
        ensures multiset(Taken(s.slots))[r] == SlotCount(s.slots, r) && SlotCount(t.slots, r) == 0
      {
        TakenCounts(s.slots, r);
        EmptySlotsCount(t.slots, r);
      }
      RefsMove(s, t, i, pc);
    }
    assert TrackerOk(t) by { TrackerMoves(s, t, i, pc); }
    assert LifeOk(t) by { LifeMoves(s, t, i, pc); }
    assert SlotsOk(t) && IssuedOk(t) by { SlotsInvalidated(s, t); }
    assert ChecksOk(t) by { ChecksTaken(s, t, i, pc); }
  }

  lemma DestroyTaken(s: State, t: State, i: nat, pc: Pc)
    requires DestroyOk(s) && i < |s.threads| && Moved(s, t, i, pc) && Weigh(Destroyers, s.threads[i]) == Weigh(Destroyers, pc)
    requires s.closing && s.closing == t.closing && t.destroying && s.tableFreed == t.tableFreed && s.tableReleased == t.tableReleased
    ensures DestroyOk(t)
  {
  }

  lemma ChecksTaken(s: State, t: State, i: nat, pc: Pc)
    requires ChecksOk(s) && LockOk(s) && DestroyOk(s) && i < |s.threads| && t.threads == s.threads[i := pc]
    requires s.threads[i] == DestroyTake && s.closing == t.closing && s.tableFreed == t.tableFreed
    requires Checked(t, pc) && Phased(t, pc)
    ensures ChecksOk(t)
  {
    forall j | 0 <= j < |t.threads|
      ensures Checked(t, t.threads[j]) && Phased(t, t.threads[j])
    {
      if j != i {
        OnlyHolder(s, i, j);
        OnlyDestroyer(s, i, j);
      }
    }
  }

  // Leaving the lock

  lemma UnlockSteps(s: State, i: nat, after: After)
    requires Inv(s) && i < |s.threads| && s.threads[i] == Unlocking(after)
    ensures Inv(Next(s, i))
  {
    hide LockOk, DestroyOk, RefsOk, TrackerOk, LifeOk, IssuedOk;
    TableAlive(s, i);
    assert Phased(s, s.threads[i]);
    var t := Next(s, i);
    UnlockingWeighs(s, t, after);
    LockLeft(s, t, i, after);
  }

  function Unlocked(after: After): Pc {
    match after
    case Return(_) => Idle
    case GiveLease(_) => Idle
    case DropClosed(r) => Dropping(r, EndActivity)
    case DropAll(all) => Continue(Rest(all))
  }

  function NewLeases(after: After): multiset<RecordId> {
    if after.GiveLease? then multiset{after.leased} else multiset{}
  }

  /** A reference handed out as a lease stays counted; everything else stays with the thread. */
  lemma UnlockingWeighs(s: State, t: State, after: After)
    requires Phased(s, Unlocking(after)) && s.closing == t.closing && s.tableFreed == t.tableFreed && s.destroying == t.destroying
    requires !s.tableFreed
    ensures Weigh(Locks, Unlocking(after)) == 1 && Weigh(Locks, Unlocked(after)) == 0
    ensures forall r: RecordId :: Weigh(Refs(r), Unlocked(after)) + NewLeases(after)[r] == Weigh(Refs(r), Unlocking(after))
    ensures Weigh(Acts, Unlocked(after)) + |NewLeases(after)| == Weigh(Acts, Unlocking(after))
    ensures Weigh(Extra, Unlocked(after)) == Weigh(Extra, Unlocking(after)) == 0
    ensures Weigh(Destroyers, Unlocked(after)) == Weigh(Destroyers, Unlocking(after))
    ensures forall r: RecordId :: Weigh(Destructors(r), Unlocked(after)) == Weigh(Destructors(r), Unlocking(after))
    ensures Checked(t, Unlocked(after)) && Phased(t, Unlocked(after))
  {
    if after.DropAll? {
      ContinueWeighs(Rest(after.all));
    }
  }

  lemma LockLeft(s: State, t: State, i: nat, after: After)
    requires Inv(s) && i < |s.threads| && s.threads[i] == Unlocking(after) && Phased(s, s.threads[i]) && !s.tableFreed
    requires t == At(s, i, Unlocked(after)).(locked := false, leases := s.leases + NewLeases(after))
    ensures Inv(t)
  {
    hide Weigh, Sum, Checked, Phased, DestroyOk, RefsOk, LifeOk, ChecksOk, References, Activities, SlotsOk, IssuedOk, Unlocked, NewLeases;
    var pc := Unlocked(after);
    UnlockingWeighs(s, t, after);
    Moves(s, t, i, pc);
    assert LockOk(t);
    assert DestroyOk(t) by { DestroyMoves(s, t, i, pc); }
    assert RefsOk(t) by { RefsMove(s, t, i, pc); }
    assert TrackerOk(t) by { TrackerMoves(s, t, i, pc); }
    assert LifeOk(t) by { LifeMoves(s, t, i, pc); }
    assert SlotsOk(t) && IssuedOk(t) by { SlotsKept(s, t); }
    assert ChecksOk(t) by { ChecksCarry(s, t, i, pc); }
  }

  // The end of the table

  lemma FreeingTableSteps(s: State, i: nat)
    requires Inv(s) && i < |s.threads| && s.threads[i] == FreeingTable
    ensures Inv(Next(s, i))
  {
    hide LockOk, RefsOk, TrackerOk, LifeOk, IssuedOk;
    assert Phased(s, s.threads[i]);
    TableFreed(s, Next(s, i), i);
  }

  lemma FreeingWeighs(t: State)
    requires t.closing && t.tableFreed && t.destroying
    ensures forall m: Measure :: Weigh(m, FreeingTable) == Weigh(m, FinalRelease)
    ensures Checked(t, FinalRelease) && Phased(t, FinalRelease)
  {
  }

  lemma TableFreed(s: State, t: State, i: nat)
    requires Inv(s) && i < |s.threads| && s.threads[i] == FreeingTable && s.destroying && s.closing
    requires t == At(s, i, FinalRelease).(tableFreed := true)
    ensures Inv(t)
  {
    hide Weigh, Sum, Checked, Phased, LockOk, RefsOk, LifeOk, ChecksOk, References, Activities, SlotsOk, IssuedOk;
    FreeingWeighs(t);
    Moves(s, t, i, FinalRelease);
    assert LockOk(t) by { LockMoves(s, t, i, FinalRelease); }
    assert RefsOk(t) by { RefsMove(s, t, i, FinalRelease); }
    assert TrackerOk(t) by { TrackerMoves(s, t, i, FinalRelease); }
    assert LifeOk(t) by { LifeMoves(s, t, i, FinalRelease); }
    assert SlotsOk(t) && IssuedOk(t) by { SlotsKept(s, t); }
    assert ChecksOk(t) by { ChecksFreed(s, t, i); }
  }

  lemma ChecksFreed(s: State, t: State, i: nat)
    requires ChecksOk(s) && DestroyOk(s) && i < |s.threads| && s.threads[i] == FreeingTable
    requires t == At(s, i, FinalRelease).(tableFreed := true) && Checked(t, FinalRelease) && Phased(t, FinalRelease)
    ensures ChecksOk(t)
  {
    forall j | 0 <= j < |t.threads|
      ensures Checked(t, t.threads[j]) && Phased(t, t.threads[j])
    {
      if j != i {
        OnlyDestroyer(s, i, j);
        CheckedKept(s, t, s.threads[j]);
      }
    }
  }

  // Calls

  lemma ReleaseStarts(s: State, i: nat, r: RecordId)
    requires Inv(s) && i < |s.threads| && MayCall(s, i, ReleaseLease(r))
    ensures Inv(Start(s, i, ReleaseLease(r)))
  {
    hide Weigh, Sum, Checked, Phased, LockOk, DestroyOk, RefsOk, LifeOk, ChecksOk, References, Activities, SlotsOk, IssuedOk;
    var pc, t := Dropping(r, EndActivity), Start(s, i, ReleaseLease(r));
    DroppingWeighs(r, EndActivity);
    IdleWeighs(t, pc);
    Moves(s, t, i, pc);
    assert s.leases == t.leases + multiset{r};
    assert LockOk(t) by { LockMoves(s, t, i, pc); }
    assert DestroyOk(t) by { DestroyMoves(s, t, i, pc); }
    assert RefsOk(t) by { RefsMove(s, t, i, pc); }
    assert TrackerOk(t) by { TrackerMoves(s, t, i, pc); }
    assert LifeOk(t) by { LifeMoves(s, t, i, pc); }
    assert SlotsOk(t) && IssuedOk(t) by { SlotsKept(s, t); }
    assert ChecksOk(t) by { ChecksCarry(s, t, i, pc); }
  }

  lemma IdleWeighs(t: State, pc: Pc)
    requires pc.Dropping? && pc.cont.EndActivity?
    ensures forall m: Measure :: Weigh(m, Idle) == 0
    ensures forall r: RecordId :: ContRefs(pc.cont, r) == 0
    ensures Checked(t, pc) && Phased(t, pc)
  {
  }

  lemma DestroyStarts(s: State, i: nat)
    requires Inv(s) && i < |s.threads| && MayCall(s, i, DestroyTable)
    ensures Inv(Start(s, i, DestroyTable))
  {
    var t := Start(s, i, DestroyTable);
    DestructionBegun(s, t, i);
  }

  lemma StartingWeighs(s: State, t: State)
    requires DestroyOk(s) && !s.closing && t.closing && t.tableFreed == s.tableFreed && t.destroying == s.destroying
    ensures !s.tableFreed && !s.destroying && !s.tableReleased
    ensures forall m: Measure :: Weigh(m, DestroyWait) == Weigh(m, Idle) + One(m == Destroyers)
    ensures Checked(t, DestroyWait) && Phased(t, DestroyWait)
  {
  }

  lemma DestructionBegun(s: State, t: State, i: nat)
    requires Inv(s) && i < |s.threads| && MayCall(s, i, DestroyTable)
    requires t == At(s, i, DestroyWait).(closing := true)
    ensures Inv(t)
  {
    hide Weigh, Sum, Checked, Phased, LockOk, RefsOk, LifeOk, ChecksOk, References, Activities, SlotsOk, IssuedOk;
    var pc := DestroyWait;
    StartingWeighs(s, t);
    Moves(s, t, i, pc);
    assert LockOk(t) by { LockMoves(s, t, i, pc); }
    assert RefsOk(t) by { RefsMove(s, t, i, pc); }
    assert TrackerOk(t) by { TrackerMoves(s, t, i, pc); }
    assert LifeOk(t) by { LifeMoves(s, t, i, pc); }
    assert SlotsOk(t) && IssuedOk(t) by { SlotsKept(s, t); }
    assert ChecksOk(t) by { ChecksBegun(s, t, i); }
  }

  lemma ChecksBegun(s: State, t: State, i: nat)
    requires ChecksOk(s) && i < |s.threads| && MayCall(s, i, DestroyTable)
    requires t == At(s, i, DestroyWait).(closing := true)
    requires Checked(t, DestroyWait) && Phased(t, DestroyWait)
    ensures ChecksOk(t)
  {
    hide Checked;
    forall j | 0 <= j < |t.threads|
      ensures Checked(t, t.threads[j]) && Phased(t, t.threads[j])
    {
      if j != i {
        assert OffTable(s.threads[j]);
        CheckedKept(s, t, s.threads[j]);
      }
    }
  }
}
