/** What clients of the handle table may rely on in every run. */
module HandleGuarantees {
  import opened Bytes
  import opened HandleTokens
  import opened HandleTable
  import opened HandleSlots
  import opened HandleInvariant
  import opened HandleSteps
  import opened HandleRuns

  // Objects

  /** A leased object, or one a slot still names, has not been destructed and is not being destructed. */
  lemma LeasedIsLive(run: seq<State>, events: seq<Event>, k: nat, r: RecordId)
    requires IsRun(run, events) && k < |run|
    requires run[k].leases[r] > 0 || exists slot: nat :: SlotHolds(run[k], slot, r)
    ensures r in run[k].records && r !in run[k].destructed
    ensures forall j :: 0 <= j < |run[k].threads| ==> !(run[k].threads[j].Destructing? && run[k].threads[j].record == r)
  {
    hide IsRun, LockOk, DestroyOk, TrackerOk, IssuedOk, ChecksOk, SlotsOk, Sum, SlotCount;
    RunKeepsInv(run, events, k);
    var s := run[k];
    if s.leases[r] == 0 {
      var slot: nat :| SlotHolds(s, slot, r);
      SlotCountCovers(s.slots, slot, r);
    }
    assert RefShare(s, r) > 0;
    forall j | 0 <= j < |s.threads|
      ensures !(s.threads[j].Destructing? && s.threads[j].record == r)
    {
      SumCovers(s.threads, j, Destructors(r));
    }
  }

  /** No object is destructed twice, and only published objects are. */
  lemma DestructedOnce(run: seq<State>, events: seq<Event>, k: nat, r: RecordId)
    requires IsRun(run, events) && k < |run|
    ensures multiset(run[k].destructed)[r] <= 1
    ensures r in run[k].destructed ==> r < run[k].nextRecord && r !in run[k].records
  {
    hide IsRun, LockOk, DestroyOk, RefsOk, TrackerOk, IssuedOk, ChecksOk, SlotsOk, Sum;
    RunKeepsInv(run, events, k);
  }

  predicate Quiet(s: State) {
    s.leases == multiset{} && forall j :: 0 <= j < |s.threads| ==> s.threads[j] == Idle
  }

  lemma {:induction false} QuietSums(threads: seq<Pc>, m: Measure)
    requires forall j :: 0 <= j < |threads| ==> threads[j] == Idle
    ensures Sum(threads, m) == 0
  {
    if threads != [] {
      QuietSums(threads[1..], m);
    }
  }

  /** Nothing leaks: once the table is destroyed and every lease released, each object was destructed once and the tracker freed. */
  lemma NothingLeaks(run: seq<State>, events: seq<Event>, k: nat)
    requires IsRun(run, events) && k < |run| && Quiet(run[k]) && run[k].closing
    ensures run[k].trackerFreed && run[k].tableFreed
    ensures run[k].records == map[] && multiset(run[k].destructed) == multiset(seq(run[k].nextRecord, r => r))
  {
    hide IsRun, LockOk, IssuedOk, ChecksOk, Sum, SlotCount;
    RunKeepsInv(run, events, k);
    var s := run[k];
    forall m: Measure
      ensures Sum(s.threads, m) == 0
    {
      QuietSums(s.threads, m);
    }
    forall r: RecordId
      ensures r !in s.records
    {
      EmptySlotsCount(s.slots, r);
      assert RefShare(s, r) == 0;
    }
    forall r: RecordId
      ensures multiset(s.destructed)[r] == multiset(seq(s.nextRecord, x => x))[r]
    {
      CountUp(s.nextRecord, r);
    }
  }

  lemma {:induction false} CountUp(n: nat, r: RecordId)
    ensures multiset(seq<RecordId>(n, x => x))[r] == One(r < n)
  {
    if n > 0 {
      CountUp(n - 1, r);
      assert seq<RecordId>(n, x => x) == seq<RecordId>(n - 1, x => x) + [n - 1];
    }
  }

  /** The tracker is freed only after the table let go of it, with every object destructed and every lease released. */
  lemma TrackerFreedLast(run: seq<State>, events: seq<Event>, k: nat)
    requires IsRun(run, events) && k < |run| && run[k].trackerFreed
    ensures run[k].tableReleased && run[k].tableFreed && run[k].records == map[] && run[k].leases == multiset{}
    ensures forall j :: 0 <= j < |run[k].threads| ==> run[k].threads[j] == Idle
  {
    hide IsRun, LockOk, RefsOk, LifeOk, IssuedOk, SlotsOk, Sum, SlotCount;
    RunKeepsInv(run, events, k);
    var s := run[k];
    assert TrackerShare(s) == 0;
    forall j | 0 <= j < |s.threads|
      ensures s.threads[j] == Idle
    {
      SumCovers(s.threads, j, Acts);
      SumCovers(s.threads, j, Extra);
      SumCovers(s.threads, j, Destroyers);
      assert Phased(s, s.threads[j]);
    }
  }

  /** Nothing can happen after the tracker is freed: it is freed at most once and never used again. */
  lemma TrackerFreedOnce(run: seq<State>, events: seq<Event>, k: nat)
    requires IsRun(run, events) && k < |events| && run[k].trackerFreed
    ensures run[k + 1] == run[k]
  {
    hide Inv, Initial;
    TrackerFreedLast(run, events, k);
    RunKeepsInv(run, events, k);
    TrackerFreedClosing(run[k]);
    assert Enabled(run[k], events[k]) && run[k + 1] == Apply(run[k], events[k]);
  }

  lemma TrackerFreedClosing(s: State)
    requires Inv(s) && s.tableReleased
    ensures s.closing
  {
  }

  // Handles

  /** What a step can do to slots and handles: invalidate slots that hold records, or fill an empty one and issue its place. */
  ghost predicate SlotsStep(s: State, t: State) {
    && |s.slots| == |t.slots| && (s.destroying ==> t.destroying) && |s.issued| <= |t.issued|
    && (|| (t.issued == s.issued && forall k :: 0 <= k < |s.slots| ==> SlotInvalidates(s.slots[k], t.slots[k]))
        || (exists slot :: SlotEmpty(s, slot) && SlotFills(s, t, slot)))
  }

  predicate SlotInvalidates(before: Slot, after: Slot) {
    after == before || (before.record.Some? && after == InvalidateSlot(before))
  }

  predicate SlotFills(s: State, t: State, slot: nat)
    requires slot < |s.slots|
  {
    && t.slots == s.slots[slot := s.slots[slot].(record := Some(s.nextRecord))]
    && t.issued == s.issued + [Place(slot, s.slots[slot].generation)]
  }

  lemma ApplyIsSlotsStep(s: State, e: Event)
    requires Inv(s) && Enabled(s, e)
    ensures SlotsStep(s, Apply(s, e))
  {
    hide LockOk, DestroyOk, RefsOk, TrackerOk, LifeOk, IssuedOk, SlotsOk, ChecksOk, Next, Start;
    var i := e.thread;
    match e
    case Begin(_, call) => StartsKeepSlots(s, i, call);
    case Proceed(_) =>
      if !WritesSlots(s.threads[i]) {
        OthersKeepSlots(s, i);
      } else {
        WritersStepSlots(s, i);
      }
  }

  lemma WritersStepSlots(s: State, i: nat)
    requires Inv(s) && i < |s.threads| && WritesSlots(s.threads[i])
    ensures SlotsStep(s, Next(s, i))
  {
    hide LockOk, DestroyOk, RefsOk, TrackerOk, LifeOk, IssuedOk, Phased;
    assert Checked(s, s.threads[i]);
    match s.threads[i]
    case InsertPublish(kind, item, slot) =>
      TableAlive(s, i);
      assert SlotEmpty(s, slot) && SlotFills(s, Next(s, i), slot);
    case CloseInvalidate(r, slot) =>
    case DestroyTake =>
  }

  /** A slot that lost its record in the step before is invalidated: its handle no longer resolves. */
  lemma CloseEndsHandle(s: State, i: nat)
    requires Inv(s) && i < |s.threads| && s.threads[i].CloseInvalidate?
    requires s.threads[i].slot < |s.slots|
    ensures !Resolves(Next(s, i), Place(s.threads[i].slot, s.slots[s.threads[i].slot].generation))
    ensures Stale(Next(s, i).slots, Place(s.threads[i].slot, s.slots[s.threads[i].slot].generation))
  {
    hide LockOk, DestroyOk, RefsOk, TrackerOk, LifeOk, IssuedOk, Phased;
    assert Checked(s, s.threads[i]);
    TableAlive(s, i);
    assert SlotOk(s.slots[s.threads[i].slot]);
  }

  lemma StaleNeverResolves(s: State, p: Place)
    requires SlotsOk(s) && p.slot < |s.slots| && Stale(s.slots, p)
    ensures !Resolves(s, p)
  {
  }

  lemma {:induction false} SlotsOverRun(run: seq<State>, events: seq<Event>, j: nat, k: nat, p: Place)
    requires IsRun(run, events) && j <= k < |run| && p.slot < CAPACITY
    ensures Inv(run[j]) && Inv(run[k]) && |run[j].slots| == |run[k].slots| == CAPACITY
    ensures run[j].issued <= run[k].issued && (run[j].destroying ==> run[k].destroying)
    ensures Stale(run[j].slots, p) ==> Stale(run[k].slots, p)
    ensures run[j].slots[p.slot].retired ==> run[k].slots[p.slot].retired
  {
    hide LockOk, DestroyOk, RefsOk, TrackerOk, LifeOk, IssuedOk, ChecksOk, Apply, Enabled, Initial, Stale, SlotsStep;
    RunKeepsInv(run, events, j);
    if j < k {
      SlotsOverRun(run, events, j, k - 1, p);
      RunKeepsInv(run, events, k);
      ApplyIsSlotsStep(run[k - 1], events[k - 1]);
      StepKeepsSlots(run[k - 1], run[k], p);
    }
  }

  lemma StepKeepsSlots(s: State, t: State, p: Place)
    requires SlotsOk(s) && SlotsStep(s, t) && p.slot < |s.slots|
    ensures s.issued <= t.issued && (s.destroying ==> t.destroying)
    ensures Stale(s.slots, p) ==> Stale(t.slots, p)
    ensures s.slots[p.slot].retired ==> t.slots[p.slot].retired
  {
    assert SlotOk(s.slots[p.slot]);
  }

  /** No handle value is issued twice over the table's whole life. */
  lemma HandlesDistinct(run: seq<State>, events: seq<Event>, k: nat, a: nat, b: nat)
    requires IsRun(run, events) && k < |run| && a < b < |run[k].issued|
    ensures Issuable(run[k].issued[a]) && Issuable(run[k].issued[b])
    ensures Encode(run[k].issued[a]) != Encode(run[k].issued[b])
  {
    hide IsRun, LockOk, DestroyOk, RefsOk, TrackerOk, LifeOk, ChecksOk, Encode;
    RunKeepsInv(run, events, k);
    if Encode(run[k].issued[a]) == Encode(run[k].issued[b]) {
      EncodeInjective(run[k].issued[a], run[k].issued[b]);
    }
  }

  /** A handle that was given out and no longer resolves never resolves again. */
  lemma ClosedNeverResolves(run: seq<State>, events: seq<Event>, j: nat, k: nat, p: Place)
    requires IsRun(run, events) && j <= k < |run| && p in run[j].issued && !Resolves(run[j], p)
    ensures !Resolves(run[k], p)
  {
    hide IsRun, LockOk, DestroyOk, RefsOk, TrackerOk, LifeOk, ChecksOk;
    RunKeepsInv(run, events, j);
    SlotsOverRun(run, events, j, k, p);
    if !run[j].destroying {
      assert SlotOk(run[j].slots[p.slot]);
      assert Stale(run[j].slots, p) || Current(run[j].slots, p);
      StaleNeverResolves(run[k], p);
    }
  }

  /** While a handle resolves it names one and the same record. */
  lemma {:induction false} HandleNamesOneRecord(run: seq<State>, events: seq<Event>, j: nat, k: nat, p: Place)
    requires IsRun(run, events) && j <= k < |run| && p in run[j].issued && Resolves(run[j], p) && Resolves(run[k], p)
    ensures run[j].slots[p.slot].record == run[k].slots[p.slot].record
  {
    hide Inv, Apply, Enabled, Initial, Resolves, SlotsStep;
    if j < k {
      RunKeepsInv(run, events, j);
      IssuedPlace(run[j], p);
      SlotsOverRun(run, events, j, k - 1, p);
      IssuedIn(run[j].issued, run[k - 1].issued, p);
      if !Resolves(run[k - 1], p) {
        ClosedNeverResolves(run, events, k - 1, k, p);
      }
      HandleNamesOneRecord(run, events, j, k - 1, p);
      ApplyIsSlotsStep(run[k - 1], events[k - 1]);
      StepKeepsRecord(run[k - 1], run[k], p);
    }
  }

  lemma IssuedPlace(s: State, p: Place)
    requires Inv(s) && p in s.issued
    ensures Issuable(p)
  {
  }

  lemma IssuedIn(before: seq<Place>, after: seq<Place>, p: Place)
    requires before <= after && p in before
    ensures p in after
  {
  }

  lemma StepKeepsRecord(s: State, t: State, p: Place)
    requires SlotsStep(s, t) && Resolves(s, p) && Resolves(t, p)
    ensures s.slots[p.slot].record == t.slots[p.slot].record
  {
  }

  /** A retired slot stays retired; none of its handles resolves and no further one is issued. */
  lemma {:induction false} RetiredForever(run: seq<State>, events: seq<Event>, j: nat, k: nat, p: Place)
    requires IsRun(run, events) && j <= k < |run| && p.slot < CAPACITY && |run[j].slots| == CAPACITY && run[j].slots[p.slot].retired
    ensures !Resolves(run[k], p)
    ensures |run[j].issued| <= |run[k].issued|
    ensures forall m :: |run[j].issued| <= m < |run[k].issued| ==> run[k].issued[m].slot != p.slot
  {
    hide Inv, Apply, Enabled, Initial, SlotsStep;
    SlotsOverRun(run, events, j, k, p);
    if j < k {
      SlotsOverRun(run, events, j, k - 1, p);
      RetiredForever(run, events, j, k - 1, p);
      ApplyIsSlotsStep(run[k - 1], events[k - 1]);
      RetiredNotIssued(run[k - 1], run[k], p);
    }
  }

  lemma RetiredNotIssued(s: State, t: State, p: Place)
    requires SlotsStep(s, t) && p.slot < |s.slots| && s.slots[p.slot].retired
    ensures s.issued <= t.issued
    ensures forall m :: |s.issued| <= m < |t.issued| ==> t.issued[m].slot != p.slot
  {
  }
}
