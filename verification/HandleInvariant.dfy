/** The counting invariant of the handle table, kept by every atomic step of every thread. */
module HandleInvariant {
  import opened Bytes
  import opened HandleTokens
  import opened HandleTable

  // Weights: what a thread's program counter accounts for

  datatype Measure =
    | Locks                            // holders of the table lock
    | Refs(record: RecordId)           // references to one record
    | Acts                             // activities, each with a tracker reference of its own
    | Extra                            // tracker references taken for a record not yet or no longer published
    | Destroyers                       // threads inside sl_handle_table_destroy
    | Destructors(destructing: RecordId)

  predicate HoldsLock(pc: Pc) {
    pc.InsertScan? || pc.InsertRetain? || pc.InsertPublish? || pc.AcquireCheck? || pc.AcquireBegin? || pc.AcquireAdd? || pc.AcquireRef? ||
    pc.CloseCheck? || pc.CloseAdd? || pc.CloseInvalidate? || pc.DestroyTake? || pc.PrepareCheck? || pc.Frozen? || pc.Unlocking?
  }

  predicate IsDestroyer(pc: Pc) {
    match pc
    case DestroyWait => true
    case DestroyTake => true
    case Unlocking(after) => after.DropAll?
    case Dropping(_, cont) => cont.Rest?
    case Destructing(_, cont) => cont.Rest?
    case ReleasingTracker(cont) => cont.Rest?
    case FreeingTable => true
    case FinalRelease => true
    case _ => false
  }

  function ContRefs(cont: Cont, r: RecordId): nat {
    match cont
    case EndActivity => 0
    case Rest(todo) => multiset(todo)[r]
  }

  function AfterRefs(after: After, r: RecordId): nat {
    match after
    case Return(_) => 0
    case GiveLease(x) => One(x == r)
    case DropClosed(x) => One(x == r)
    case DropAll(all) => multiset(all)[r]
  }

  function Weigh(m: Measure, pc: Pc): nat {
    match m
    case Locks => One(HoldsLock(pc))
    case Refs(r) =>
      (match pc
       case Unlocking(after) => AfterRefs(after, r)
       case Dropping(x, cont) => One(x == r) + ContRefs(cont, r)
       case Destructing(_, cont) => ContRefs(cont, r)
       case ReleasingTracker(cont) => ContRefs(cont, r)
       case _ => 0)
    case Acts =>
      (match pc
       case AcquireRef(_, _) => 1
       case CloseInvalidate(_, _) => 1
       case Unlocking(after) => One(after.GiveLease? || after.DropClosed?)
       case Dropping(_, cont) => One(cont.EndActivity?)
       case Destructing(_, cont) => One(cont.EndActivity?)
       case ReleasingTracker(cont) => One(cont.EndActivity?)
       case EndingActivity => 1
       case _ => 0)
    case Extra => One(pc.InsertPublish? || pc.Destructing? || pc.ReleasingTracker?)
    case Destroyers => One(IsDestroyer(pc))
    case Destructors(r) => One(pc.Destructing? && pc.record == r)
  }

  function Sum(threads: seq<Pc>, m: Measure): nat {
    if threads == [] then 0 else Weigh(m, threads[0]) + Sum(threads[1..], m)
  }

  lemma {:induction false} SumUpdate(threads: seq<Pc>, i: nat, pc: Pc, m: Measure)
    requires i < |threads|
    ensures Sum(threads[i := pc], m) + Weigh(m, threads[i]) == Sum(threads, m) + Weigh(m, pc)
  {
    if i == 0 {
      assert threads[i := pc][1..] == threads[1..];
    } else {
      assert threads[i := pc][1..] == threads[1..][i - 1 := pc];
      SumUpdate(threads[1..], i - 1, pc, m);
    }
  }

  lemma SumUpdates(threads: seq<Pc>, i: nat, pc: Pc)
    requires i < |threads|
    ensures forall m: Measure {:trigger Sum(threads[i := pc], m)} ::
              Sum(threads[i := pc], m) + Weigh(m, threads[i]) == Sum(threads, m) + Weigh(m, pc)
  {
    forall m: Measure
      ensures Sum(threads[i := pc], m) + Weigh(m, threads[i]) == Sum(threads, m) + Weigh(m, pc)
    {
      SumUpdate(threads, i, pc, m);
    }
  }

  lemma {:induction false} SumCovers(threads: seq<Pc>, i: nat, m: Measure)
    requires i < |threads|
    ensures Sum(threads, m) >= Weigh(m, threads[i])
  {
    if i > 0 {
      SumCovers(threads[1..], i - 1, m);
    }
  }

  lemma {:induction false} SumCoversBoth(threads: seq<Pc>, i: nat, j: nat, m: Measure)
    requires i < j < |threads|
    ensures Sum(threads, m) >= Weigh(m, threads[i]) + Weigh(m, threads[j])
  {
    if i == 0 {
      SumCovers(threads[1..], j - 1, m);
    } else {
      SumCoversBoth(threads[1..], i - 1, j - 1, m);
    }
  }

  lemma {:induction false} SumOfIdle(n: nat, m: Measure)
    ensures Sum(seq(n, _ => Idle), m) == 0
  {
    if n > 0 {
      assert seq(n, _ => Idle)[1..] == seq(n - 1, _ => Idle);
      SumOfIdle(n - 1, m);
    }
  }

  // References from slots

  function SlotCount(slots: seq<Slot>, r: RecordId): nat {
    if slots == [] then 0 else One(slots[0].record == Some(r)) + SlotCount(slots[1..], r)
  }

  lemma {:induction false} SlotCountUpdate(slots: seq<Slot>, i: nat, slot: Slot, r: RecordId)
    requires i < |slots|
    ensures SlotCount(slots[i := slot], r) + One(slots[i].record == Some(r)) == SlotCount(slots, r) + One(slot.record == Some(r))
  {
    if i == 0 {
      assert slots[i := slot][1..] == slots[1..];
    } else {
      assert slots[i := slot][1..] == slots[1..][i - 1 := slot];
      SlotCountUpdate(slots[1..], i - 1, slot, r);
    }
  }

  lemma SlotCountUpdates(slots: seq<Slot>, i: nat, slot: Slot)
    requires i < |slots|
    ensures forall r: RecordId {:trigger SlotCount(slots[i := slot], r)} ::
              SlotCount(slots[i := slot], r) + One(slots[i].record == Some(r)) == SlotCount(slots, r) + One(slot.record == Some(r))
  {
    forall r: RecordId
      ensures SlotCount(slots[i := slot], r) + One(slots[i].record == Some(r)) == SlotCount(slots, r) + One(slot.record == Some(r))
    {
      SlotCountUpdate(slots, i, slot, r);
    }
  }

  lemma {:induction false} SlotCountCovers(slots: seq<Slot>, i: nat, r: RecordId)
    requires i < |slots| && slots[i].record == Some(r)
    ensures SlotCount(slots, r) >= 1
  {
    if i > 0 {
      SlotCountCovers(slots[1..], i - 1, r);
    }
  }

  lemma {:induction false} TakenCounts(slots: seq<Slot>, r: RecordId)
    ensures multiset(Taken(slots))[r] == SlotCount(slots, r)
  {
    if slots != [] {
      TakenCounts(slots[1..], r);
      var head := if slots[0].record.Some? then [slots[0].record.value] else [];
      assert multiset(head + Taken(slots[1..])) == multiset(head) + multiset(Taken(slots[1..]));
    }
  }

  lemma {:induction false} EmptySlotsCount(slots: seq<Slot>, r: RecordId)
    requires forall k :: 0 <= k < |slots| ==> slots[k].record.None?
    ensures SlotCount(slots, r) == 0
  {
    if slots != [] {
      EmptySlotsCount(slots[1..], r);
    }
  }

  // The invariant

  /** At most one thread holds the lock, and then it is taken. */
  ghost predicate LockOk(s: State) {
    Sum(s.threads, Locks) == One(s.locked)
  }

  ghost predicate DestroyOk(s: State) {
    && Sum(s.threads, Destroyers) == One(s.closing && !s.tableReleased)
    && (s.tableReleased ==> s.tableFreed) && (s.tableFreed ==> s.destroying) && (s.destroying ==> s.closing)
  }

  function RefShare(s: State, r: RecordId): nat {
    SlotCount(s.slots, r) + s.leases[r] + Sum(s.threads, Refs(r))
  }

  /** A record's count is its slot share, its leases and the threads holding it; without any it is gone. */
  ghost predicate RefsOk(s: State) {
    forall r: RecordId :: RefShare(s, r) == (if r in s.records then s.records[r].refs else 0) && (r in s.records ==> s.records[r].refs > 0)
  }

  function TrackerShare(s: State): nat {
    One(!s.tableReleased) + |s.records| + |s.leases| + Sum(s.threads, Acts) + Sum(s.threads, Extra)
  }

  /** The tracker counts the table, the live records and the activities; with the last reference it is freed. */
  ghost predicate TrackerOk(s: State) {
    && Activities(s.tracker) == |s.leases| + Sum(s.threads, Acts)
    && References(s.tracker) == TrackerShare(s)
    && (s.trackerFreed <==> References(s.tracker) == 0)
  }

  /** Every record ever published is live, in its destructor or destructed, and in exactly one of these once. */
  ghost predicate LifeOk(s: State) {
    forall r: RecordId ::
      One(r in s.records) + Sum(s.threads, Destructors(r)) + multiset(s.destructed)[r] == One(r < s.nextRecord)
  }

  predicate SlotOk(slot: Slot) {
    && (slot.retired <==> slot.generation == 0)
    && (slot.record.Some? ==> !slot.retired)
  }

  ghost predicate SlotsOk(s: State) {
    && |s.slots| == CAPACITY
    && (forall k :: 0 <= k < |s.slots| ==> SlotOk(s.slots[k]))
    && (s.destroying ==> forall k :: 0 <= k < |s.slots| ==> s.slots[k].record.None?)
  }

  /** The place can no longer resolve: its slot has moved past the generation. */
  predicate Stale(slots: seq<Slot>, p: Place)
    requires p.slot < |slots|
  {
    slots[p.slot].retired || p.generation < slots[p.slot].generation
  }

  /** The place names the record its slot holds. */
  predicate Current(slots: seq<Slot>, p: Place)
    requires p.slot < |slots|
  {
    slots[p.slot].record.Some? && slots[p.slot].generation == p.generation
  }

  /** Handles are pairwise distinct; each is stale or names the record its slot holds. */
  ghost predicate IssuedOk(s: State) {
    && |s.slots| == CAPACITY
    && (forall k :: 0 <= k < |s.issued| ==> Issuable(s.issued[k]))
    && (forall k :: 0 <= k < |s.issued| ==> Stale(s.slots, s.issued[k]) || Current(s.slots, s.issued[k]))
    && (forall j, k :: 0 <= j < k < |s.issued| ==> s.issued[j] != s.issued[k])
  }

  predicate SlotHolds(s: State, slot: nat, r: RecordId) {
    slot < |s.slots| && s.slots[slot].record == Some(r)
  }

  predicate SlotEmpty(s: State, slot: nat) {
    slot < |s.slots| && s.slots[slot].record.None? && !s.slots[slot].retired
  }

  predicate TrackerHasRoom(s: State) {
    References(s.tracker) < UINT32_MAX
  }

  predicate RecordHasRoom(s: State, r: RecordId) {
    r in s.records && s.records[r].refs < UINT32_MAX
  }

  /** What the lock holder has checked stays true while it holds the lock. */
  predicate Checked(s: State, pc: Pc) {
    match pc
    case InsertRetain(_, _, slot) => SlotEmpty(s, slot) && TrackerHasRoom(s)
    case InsertPublish(_, _, slot) => SlotEmpty(s, slot)
    case AcquireBegin(r, slot) => SlotHolds(s, slot, r) && RecordHasRoom(s, r)
    case AcquireAdd(r, slot) => SlotHolds(s, slot, r) && RecordHasRoom(s, r) && TrackerHasRoom(s) && Activities(s.tracker) < UINT32_MAX
    case AcquireRef(r, slot) => SlotHolds(s, slot, r) && RecordHasRoom(s, r)
    case CloseAdd(r, slot) => SlotHolds(s, slot, r) && TrackerHasRoom(s) && Activities(s.tracker) < UINT32_MAX
    case CloseInvalidate(r, slot) => SlotHolds(s, slot, r)
    case Frozen => Activities(s.tracker) == 0 && !s.destroying
    case _ => true
  }

  /** Where the table's destruction stands, as each thread's position shows it. */
  predicate Phased(s: State, pc: Pc) {
    if IsDestroyer(pc) then
      && s.closing
      && (s.tableFreed <==> pc.FinalRelease?)
      && (s.destroying <==> !pc.DestroyWait? && !pc.DestroyTake?)
    else OffTable(pc) || !s.closing
  }

  ghost predicate ChecksOk(s: State) {
    forall j :: 0 <= j < |s.threads| ==> Checked(s, s.threads[j]) && Phased(s, s.threads[j])
  }

  ghost predicate Inv(s: State) {
    && !s.faulted
    && LockOk(s) && DestroyOk(s) && RefsOk(s) && TrackerOk(s) && LifeOk(s) && SlotsOk(s) && IssuedOk(s) && ChecksOk(s)
  }

  lemma InitialInv(threads: nat)
    ensures Inv(Initial(threads))
  {
    var s := Initial(threads);
    forall m: Measure
      ensures Sum(s.threads, m) == 0
    {
      SumOfIdle(threads, m);
    }
    forall r: RecordId
      ensures SlotCount(s.slots, r) == 0
    {
      EmptySlotsCount(s.slots, r);
    }
  }

  // Consequences used by the steps

  lemma OnlyHolder(s: State, i: nat, j: nat)
    requires LockOk(s) && i < |s.threads| && j < |s.threads| && i != j && HoldsLock(s.threads[i])
    ensures s.locked && !HoldsLock(s.threads[j])
  {
    if i < j {
      SumCoversBoth(s.threads, i, j, Locks);
    } else {
      SumCoversBoth(s.threads, j, i, Locks);
    }
  }

  lemma OnlyDestroyer(s: State, i: nat, j: nat)
    requires DestroyOk(s) && i < |s.threads| && j < |s.threads| && i != j && IsDestroyer(s.threads[i])
    ensures s.closing && !s.tableReleased && !IsDestroyer(s.threads[j])
  {
    if i < j {
      SumCoversBoth(s.threads, i, j, Destroyers);
    } else {
      SumCoversBoth(s.threads, j, i, Destroyers);
    }
  }

  /** t has the thread i at pc, and its sums differ by the difference of the two weights. */
  ghost predicate Moved(s: State, t: State, i: nat, pc: Pc)
    requires i < |s.threads|
  {
    && t.threads == s.threads[i := pc]
    && forall m: Measure :: Sum(t.threads, m) + Weigh(m, s.threads[i]) == Sum(s.threads, m) + Weigh(m, pc)
  }

  lemma Moves(s: State, t: State, i: nat, pc: Pc)
    requires i < |s.threads| && t.threads == s.threads[i := pc]
    ensures Moved(s, t, i, pc)
  {
    SumUpdates(s.threads, i, pc);
  }

  /** What another thread has checked is still true. */
  lemma CheckedKept(s: State, t: State, pc: Pc)
    requires Checked(s, pc) && s.slots == t.slots && s.destroying == t.destroying
    requires References(t.tracker) <= References(s.tracker) && Activities(t.tracker) <= Activities(s.tracker)
    requires forall k, r :: SlotHolds(s, k, r) && RecordHasRoom(s, r) ==> RecordHasRoom(t, r)
    ensures Checked(t, pc)
  {
  }

  lemma PhasedKept(s: State, t: State, pc: Pc)
    requires Phased(s, pc)
    requires s.closing == t.closing && s.tableFreed == t.tableFreed && s.destroying == t.destroying
    ensures Phased(t, pc)
  {
  }

  /** Nothing any thread relies on has changed, and the stepping thread's own checks hold. */
  lemma ChecksCarry(s: State, t: State, i: nat, pc: Pc)
    requires ChecksOk(s) && i < |s.threads| && t.threads == s.threads[i := pc]
    requires s.slots == t.slots && s.destroying == t.destroying && s.closing == t.closing && s.tableFreed == t.tableFreed
    requires References(t.tracker) <= References(s.tracker) && Activities(t.tracker) <= Activities(s.tracker)
    requires forall k, r :: SlotHolds(s, k, r) && RecordHasRoom(s, r) ==> RecordHasRoom(t, r)
    requires Checked(t, pc) && Phased(t, pc)
    ensures ChecksOk(t)
  {
    hide Checked, Phased;
    forall j | 0 <= j < |t.threads|
      ensures Checked(t, t.threads[j]) && Phased(t, t.threads[j])
    {
      if j != i {
        CheckedKept(s, t, s.threads[j]);
        PhasedKept(s, t, s.threads[j]);
      }
    }
  }

  /** While one thread holds the lock, no other thread has checks to keep. */
  lemma ChecksOfHolder(s: State, t: State, i: nat, pc: Pc)
    requires ChecksOk(s) && LockOk(s) && i < |s.threads| && t.threads == s.threads[i := pc]
    requires HoldsLock(s.threads[i])
    requires s.destroying == t.destroying && s.closing == t.closing && s.tableFreed == t.tableFreed
    requires Checked(t, pc) && Phased(t, pc)
    ensures ChecksOk(t)
  {
    forall j | 0 <= j < |t.threads|
      ensures Checked(t, t.threads[j]) && Phased(t, t.threads[j])
    {
      if j != i {
        OnlyHolder(s, i, j);
        PhasedKept(s, t, s.threads[j]);
      }
    }
  }

  lemma RefShareMoves(s: State, t: State, i: nat, pc: Pc)
    requires i < |s.threads| && Moved(s, t, i, pc) && s.slots == t.slots && s.leases == t.leases
    ensures forall r: RecordId :: RefShare(t, r) + Weigh(Refs(r), s.threads[i]) == RefShare(s, r) + Weigh(Refs(r), pc)
  {
  }

  /** Only the program counter changes, and to one that accounts for the same. */
  lemma MoveOnly(s: State, i: nat, pc: Pc)
    requires Inv(s) && i < |s.threads|
    requires forall m: Measure :: Weigh(m, s.threads[i]) == Weigh(m, pc)
    requires Checked(s, pc) && Phased(s, pc)
    ensures Inv(At(s, i, pc))
  {
    hide Weigh, Checked, Phased, Sum, SlotCount, SlotsOk, IssuedOk;
    var t := At(s, i, pc);
    Moves(s, t, i, pc);
    CheckedKept(s, t, pc);
    PhasedKept(s, t, pc);
    RefShareMoves(s, t, i, pc);
    SlotsKept(s, t);
    assert LifeOk(t) by { LifeMoves(s, t, i, pc); }
    ChecksCarry(s, t, i, pc);
  }

  lemma SlotsKept(s: State, t: State)
    requires SlotsOk(s) && IssuedOk(s)
    requires s.slots == t.slots && s.issued == t.issued && s.destroying == t.destroying
    ensures SlotsOk(t) && IssuedOk(t)
  {
  }

  lemma LifeMoves(s: State, t: State, i: nat, pc: Pc)
    requires LifeOk(s) && i < |s.threads| && Moved(s, t, i, pc)
    requires s.records.Keys == t.records.Keys && s.destructed == t.destructed && s.nextRecord == t.nextRecord
    requires forall r: RecordId :: Weigh(Destructors(r), s.threads[i]) == Weigh(Destructors(r), pc)
    ensures LifeOk(t)
  {
    hide Weigh, Sum;
    forall r: RecordId
      ensures One(r in t.records) + Sum(t.threads, Destructors(r)) + multiset(t.destructed)[r] == One(r < t.nextRecord)
    {
      assert Sum(t.threads, Destructors(r)) == Sum(s.threads, Destructors(r));
    }
  }
}
