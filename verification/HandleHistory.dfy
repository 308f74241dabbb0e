/** What a handle stands for from its insert on, and when a slot is given up. */
module HandleHistory {
  import opened Bytes
  import opened HandleTokens
  import opened HandleTable
  import opened HandleSlots
  import opened HandleInvariant
  import opened HandleSteps
  import opened HandleRuns
  import opened HandleGuarantees
  import opened HandleCalls

  // A published record keeps its kind and object

  ghost predicate RecordsStep(s: State, t: State) {
    && s.nextRecord <= t.nextRecord
    && (forall r :: r in t.records && r < s.nextRecord ==> r in s.records)
    && (forall r :: r in t.records && r in s.records ==>
          t.records[r].kind == s.records[r].kind && t.records[r].item == s.records[r].item)
  }

  predicate WritesRecords(pc: Pc) {
    pc.InsertPublish? || pc.AcquireRef? || pc.Dropping?
  }

  lemma MovesKeepRecords(s: State, i: nat)
    requires i < |s.threads|
    ensures forall u: State, pc: Pc :: u.threads == s.threads && u.records == s.records ==> Same(s.records, At(u, i, pc).records)
    ensures forall u: State, pc: Pc :: u.threads == s.threads && u.nextRecord == s.nextRecord ==> Same(s.nextRecord, At(u, i, pc).nextRecord)
    ensures Same(s.records, Fault(s).records) && Same(s.records, s.records)
    ensures Same(s.nextRecord, Fault(s).nextRecord) && Same(s.nextRecord, s.nextRecord)
  {
  }

  lemma WorkKeepsRecords(s: State, i: nat)
    requires |s.slots| == CAPACITY && i < |s.threads| && !WritesRecords(s.threads[i]) && !Leaving(s.threads[i])
    ensures var t := Next(s, i); Same(s.records, t.records) && Same(s.nextRecord, t.nextRecord)
  {
    hide At, Fault, Same, References, Activities, FindEmpty, Taken, InvalidateAll, InvalidateSlot, Unlock, DropRecord, TrackerDrop;
    MovesKeepRecords(s, i);
  }

  lemma UnlockKeepsRecords(s: State, i: nat)
    requires i < |s.threads|
    ensures forall after: After :: Same(s.records, Unlock(s, i, after).records) && Same(s.nextRecord, Unlock(s, i, after).nextRecord)
  {
    hide At, Same, Continue;
    MovesKeepRecords(s, i);
  }

  lemma DropsKeepRecords(s: State, i: nat)
    requires i < |s.threads|
    ensures forall activities: nat, next: Pc :: activities <= 1 ==>
              Same(s.records, TrackerDrop(s, i, activities, next).records) && Same(s.nextRecord, TrackerDrop(s, i, activities, next).nextRecord)
  {
    hide At, Same, References, Activities;
    MovesKeepRecords(s, i);
  }

  lemma LeavingKeepsRecords(s: State, i: nat)
    requires |s.slots| == CAPACITY && i < |s.threads| && !WritesRecords(s.threads[i]) && Leaving(s.threads[i])
    ensures var t := Next(s, i); Same(s.records, t.records) && Same(s.nextRecord, t.nextRecord)
  {
    hide At, Fault, Same, References, Activities, Continue, TakeLock, TrackerAdd, Publish, DropRecord, Unlock, TrackerDrop;
    MovesKeepRecords(s, i);
    UnlockKeepsRecords(s, i);
    DropsKeepRecords(s, i);
  }

  lemma OthersKeepRecords(s: State, i: nat)
    requires |s.slots| == CAPACITY && i < |s.threads| && !WritesRecords(s.threads[i])
    ensures Next(s, i).records == s.records && Next(s, i).nextRecord == s.nextRecord
  {
    hide Next;
    if Leaving(s.threads[i]) {
      LeavingKeepsRecords(s, i);
    } else {
      WorkKeepsRecords(s, i);
    }
  }

  lemma PublishesRecord(s: State, i: nat)
    requires |s.slots| == CAPACITY && i < |s.threads| && s.threads[i].InsertPublish? && s.nextRecord !in s.records
    ensures RecordsStep(s, Next(s, i))
  {
  }

  lemma TakesReference(s: State, i: nat)
    requires |s.slots| == CAPACITY && i < |s.threads| && s.threads[i].AcquireRef?
    ensures RecordsStep(s, Next(s, i))
  {
    hide At, TakeLock, TrackerAdd, TrackerDrop, DropRecord, Unlock, Publish, FindEmpty, Resolves, Taken, InvalidateAll, InvalidateSlot,
         References, Activities, Continue;
    MovesKeepRecords(s, i);
  }

  lemma DropsReference(s: State, i: nat, r: RecordId, cont: Cont)
    requires i < |s.threads|
    ensures RecordsStep(s, DropRecord(s, i, r, cont))
  {
    hide At, Continue;
    MovesKeepRecords(s, i);
  }

  lemma DroppingDrops(s: State, i: nat, r: RecordId, cont: Cont)
    requires |s.slots| == CAPACITY && i < |s.threads| && s.threads[i] == Dropping(r, cont)
    ensures Next(s, i) == DropRecord(s, i, r, cont)
  {
    hide At, TakeLock, TrackerAdd, TrackerDrop, DropRecord, Unlock, Publish, FindEmpty, Resolves, Taken, InvalidateAll, InvalidateSlot,
         References, Activities, Continue;
  }

  lemma NextIsRecordsStep(s: State, i: nat)
    requires Inv(s) && i < |s.threads|
    ensures RecordsStep(s, Next(s, i))
  {
    hide LockOk, DestroyOk, RefsOk, TrackerOk, IssuedOk, ChecksOk, Next;
    NextIsNew(s);
    if s.threads[i].InsertPublish? {
      PublishesRecord(s, i);
    } else if s.threads[i].AcquireRef? {
      TakesReference(s, i);
    } else if s.threads[i].Dropping? {
      var r, cont := s.threads[i].record, s.threads[i].cont;
      DropsReference(s, i, r, cont);
      DroppingDrops(s, i, r, cont);
    } else {
      OthersKeepRecords(s, i);
    }
  }

  lemma RecordsKnown(s: State)
    requires LifeOk(s)
    ensures forall r :: r in s.records ==> r < s.nextRecord
  {
    hide Sum;
    forall r | r in s.records
      ensures r < s.nextRecord
    {
      assert One(r in s.records) + Sum(s.threads, Destructors(r)) + multiset(s.destructed)[r] == One(r < s.nextRecord);
    }
  }

  lemma ApplyIsRecordsStep(s: State, e: Event)
    requires Inv(s) && Enabled(s, e)
    ensures RecordsStep(s, Apply(s, e))
  {
    hide LockOk, DestroyOk, RefsOk, TrackerOk, LifeOk, IssuedOk, ChecksOk, Next, Start;
    match e
    case Proceed(i) => NextIsRecordsStep(s, i);
    case Begin(i, call) => StartKeepsRecords(s, i, call);
  }

  lemma StartKeepsRecords(s: State, i: nat, call: Call)
    requires i < |s.threads| && MayCall(s, i, call)
    ensures var t := Start(s, i, call); Same(s.records, t.records) && Same(s.nextRecord, t.nextRecord)
  {
    hide At, Decode, Same;
    MovesKeepRecords(s, i);
  }

  /** While a record lives, from its publication to its release, its kind and object stay. */
  lemma {:induction false} RecordStays(run: seq<State>, events: seq<Event>, j: nat, k: nat, r: RecordId)
    requires IsRun(run, events) && j <= k < |run| && r < run[j].nextRecord && r in run[k].records
    ensures r in run[j].records
    ensures run[k].records[r].kind == run[j].records[r].kind && run[k].records[r].item == run[j].records[r].item
    ensures run[j].nextRecord <= run[k].nextRecord
  {
    hide Inv, Apply, Enabled, Initial;
    if j < k {
      NextOverRun(run, events, j, k - 1);
      RunKeepsInv(run, events, k - 1);
      ApplyIsRecordsStep(run[k - 1], events[k - 1]);
      RecordStays(run, events, j, k - 1, r);
    }
  }

  lemma {:induction false} NextOverRun(run: seq<State>, events: seq<Event>, j: nat, k: nat)
    requires IsRun(run, events) && j <= k < |run|
    ensures run[j].nextRecord <= run[k].nextRecord
  {
    hide Inv, Apply, Enabled, Initial;
    if j < k {
      NextOverRun(run, events, j, k - 1);
      RunKeepsInv(run, events, k - 1);
      ApplyIsRecordsStep(run[k - 1], events[k - 1]);
    }
  }

  // From insert to acquire

  /** At this step a call of insert published its record under this place. */
  ghost predicate Published(run: seq<State>, events: seq<Event>, i: nat, a: nat, b: nat, kind: Kind, item: nat, place: Place) {
    && Inside(run, events, i, a, b, Insert(kind, item), InInsert)
    && b < |events| && events[b] == Proceed(i) && run[b].threads[i].InsertPublish?
    && run[b].threads[i].slot < |run[b].slots|
    && place == Place(run[b].threads[i].slot, run[b].slots[run[b].threads[i].slot].generation)
  }

  lemma InsertedIsKnown(run: seq<State>, events: seq<Event>, i: nat, a: nat, b: nat, kind: Kind, item: nat, place: Place)
    requires Published(run, events, i, a, b, kind, item, place)
    ensures b + 1 < |run| && run[b].nextRecord in run[b + 1].records && run[b].nextRecord < run[b + 1].nextRecord
    ensures run[b + 1].records[run[b].nextRecord] == Record(1, kind, item)
  {
    hide Initial, Inv, InInsert, Apply, Enabled;
    InsertPublishesItsArguments(run, events, i, a, b, kind, item);
    RunKeepsInv(run, events, b + 1);
    KnowsLife(run[b + 1]);
    RecordsKnown(run[b + 1]);
  }

  /** Whenever the handle resolves after that, it is to the record of that insert. */
  lemma ServesInserted(run: seq<State>, events: seq<Event>, i: nat, a: nat, b: nat, kind: Kind, item: nat, place: Place, k: nat, asked: Kind, r: RecordId)
    requires Published(run, events, i, a, b, kind, item, place) && b < k < |run| && Serves(run[k], place, asked, r)
    ensures r == run[b].nextRecord && asked == kind && run[k].records[r].item == item
  {
    hide Initial, Inv, Resolves, InInsert, Apply, Enabled;
    InsertPublishesItsArguments(run, events, i, a, b, kind, item);
    InsertedIsKnown(run, events, i, a, b, kind, item, place);
    assert place == run[b + 1].issued[|run[b].issued|];
    HandleNamesOneRecord(run, events, b + 1, k, place);
    RecordStays(run, events, b + 1, k, r);
  }

  lemma KnowsLife(s: State)
    requires Inv(s)
    ensures LifeOk(s)
  {
  }

  /**
   * The whole way: a lease acquired through the handle an insert gave out is of the
   * record with the very object that was inserted, and only the kind inserted gets it.
   */
  lemma AcquireLeasesInserted(run: seq<State>, events: seq<Event>, i: nat, a: nat, b: nat, kind: Kind, item: nat, place: Place,
                              j: nat, c: nat, d: nat, handle: uint64, asked: Kind, r: RecordId)
    requires Published(run, events, i, a, b, kind, item, place) && Decode(handle) == Some(place) && b < c
    requires Inside(run, events, j, c, d, Acquire(handle, asked), InAcquire)
    requires d < |events| && events[d] == Proceed(j) && run[d].threads[j] == Unlocking(GiveLease(r))
    ensures asked == kind && r == run[b].nextRecord && run[d + 1].leases == run[d].leases + multiset{r}
    ensures r in run[d + 1].records && run[d + 1].records[r].kind == kind && run[d + 1].records[r].item == item
  {
    hide Initial, Inv, Decode, InAcquire, InInsert, Serves, Apply, Enabled;
    AcquireLeasesItsRecord(run, events, j, c, d, handle, asked);
    var k :| c < k < d && k < |run| && Serves(run[k], place, asked, r);
    ServesInserted(run, events, i, a, b, kind, item, place, k, asked, r);
    assert run[d + 1].leases[r] > 0;
    LeasedIsLive(run, events, d + 1, r);
    InsertPublishesItsArguments(run, events, i, a, b, kind, item);
    InsertedIsKnown(run, events, i, a, b, kind, item, place);
    RecordStays(run, events, b + 1, d + 1, r);
  }

  // When a slot is retired

  /** Every generation up to the last has been given out in this slot. */
  predicate Exhausted(s: State, slot: nat) {
    forall g: nat :: 1 <= g <= 0xffff_ffff ==> Place(slot, g) in s.issued
  }

  /** A slot's earlier generations, and that of its record, have been given out. */
  predicate Spent(s: State, slot: nat)
    requires slot < |s.slots|
  {
    if s.slots[slot].retired then Exhausted(s, slot)
    else
      && (forall g: nat :: 1 <= g < s.slots[slot].generation && g <= 0xffff_ffff ==> Place(slot, g) in s.issued)
      && (s.slots[slot].record.Some? ==> Place(slot, s.slots[slot].generation) in s.issued)
  }

  lemma SpentOn(s: State, t: State, slot: nat)
    requires SlotsStep(s, t) && slot < |s.slots| && SlotOk(s.slots[slot]) && Spent(s, slot)
    ensures Spent(t, slot)
  {
    assert s.issued <= t.issued;
    assert forall p :: p in s.issued ==> p in t.issued;
    var before, after := s.slots[slot], t.slots[slot];
    if t.issued == s.issued {
      assert SlotInvalidates(before, after);
    } else {
      var filled: nat :| filled < |s.slots| && SlotEmpty(s, filled) && SlotFills(s, t, filled);
      assert t.issued[|s.issued|] == Place(filled, s.slots[filled].generation);
    }
  }

  /** A slot is retired only after a handle was given out in it for every one of its generations. */
  lemma {:induction false} RetiredWhenExhausted(run: seq<State>, events: seq<Event>, k: nat, slot: nat)
    requires IsRun(run, events) && k < |run| && slot < CAPACITY
    ensures |run[k].slots| == CAPACITY && Spent(run[k], slot)
    ensures run[k].slots[slot].retired ==> Exhausted(run[k], slot)
  {
    hide Inv, Apply, Enabled, SlotsStep;
    if k == 0 {
    } else {
      RetiredWhenExhausted(run, events, k - 1, slot);
      RunKeepsInv(run, events, k - 1);
      RunKeepsInv(run, events, k);
      ApplyIsSlotsStep(run[k - 1], events[k - 1]);
      SlotIsOk(run[k - 1], slot);
      SlotIsOk(run[k], slot);
      SpentOn(run[k - 1], run[k], slot);
    }
  }

  lemma SlotIsOk(s: State, slot: nat)
    requires Inv(s) && slot < CAPACITY
    ensures |s.slots| == CAPACITY && SlotOk(s.slots[slot])
  {
  }

  predicate AllEmpty(slots: seq<Slot>) {
    forall k :: 0 <= k < |slots| ==> slots[k].record.None?
  }

  /** The step that takes the slots for destruction leaves no handle that resolves, and none ever resolves again. */
  lemma DestroyedNeverResolves(run: seq<State>, events: seq<Event>, j: nat, k: nat, i: nat, p: Place)
    requires IsRun(run, events) && j < k < |run| && events[j] == Proceed(i) && i < |run[j].threads| && run[j].threads[i].DestroyTake?
    ensures run[j + 1].destroying && !Resolves(run[k], p)
    ensures AllEmpty(run[j + 1].slots)
  {
    hide Initial, Inv, Next;
    RunKeepsInv(run, events, j);
    assert Enabled(run[j], events[j]) && run[j + 1] == Apply(run[j], events[j]);
    TakesAll(run[j], i);
    SlotsOverRun(run, events, j + 1, k, Place(0, 1));
  }

  lemma TakesAll(s: State, i: nat)
    requires Inv(s) && i < |s.threads| && s.threads[i].DestroyTake?
    ensures Next(s, i).destroying && AllEmpty(Next(s, i).slots)
  {
    hide LockOk, DestroyOk, RefsOk, TrackerOk, LifeOk, IssuedOk, ChecksOk, Taken;
    TableAlive(s, i);
  }
}
