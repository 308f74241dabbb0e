/** What single calls on the handle table do: which record an insert publishes, an acquire leases and a close takes. */
module HandleCalls {
  import opened Bytes
  import opened HandleTokens
  import opened HandleTable
  import opened HandleInvariant
  import opened HandleSteps
  import opened HandleRuns

  /** The place resolves to this record, and the record is of the kind. */
  predicate Serves(s: State, place: Place, kind: Kind, r: RecordId) {
    && Resolves(s, place) && s.slots[place.slot].record == Some(r)
    && r in s.records && s.records[r].kind == kind
  }

  /** An insert's handle resolves at once, to a record with the kind and object inserted and one reference. */
  lemma InsertPublishes(s: State, i: nat)
    requires Inv(s) && i < |s.threads| && s.threads[i].InsertPublish?
    ensures var t, pc := Next(s, i), s.threads[i];
            && |t.issued| == |s.issued| + 1 && t.issued[..|s.issued|] == s.issued
            && var p := t.issued[|s.issued|];
               && p.slot == pc.slot && Serves(t, p, pc.kind, s.nextRecord)
               && t.records[s.nextRecord] == Record(1, pc.kind, pc.item)
  {
    hide LockOk, RefsOk, TrackerOk, LifeOk, IssuedOk;
    assert Checked(s, s.threads[i]) && Phased(s, s.threads[i]);
    TableAlive(s, i);
    assert SlotOk(s.slots[s.threads[i].slot]);
  }

  predicate InAcquire(pc: Pc) {
    pc.AcquireWait? || pc.AcquireCheck? || pc.AcquireBegin? || pc.AcquireAdd? || pc.AcquireRef? || (pc.Unlocking? && pc.after.GiveLease?)
  }

  predicate InClose(pc: Pc) {
    pc.CloseWait? || pc.CloseCheck? || pc.CloseAdd? || pc.CloseInvalidate? || (pc.Unlocking? && pc.after.DropClosed?)
  }

  predicate OthersSame(before: seq<Pc>, after: seq<Pc>, j: nat) {
    |after| == |before| && forall i :: 0 <= i < |before| && i != j ==> after[i] == before[i]
  }

  lemma AtMovesOne(s: State, j: nat)
    requires j < |s.threads|
    ensures forall u: State, pc: Pc :: u.threads == s.threads ==> OthersSame(s.threads, At(u, j, pc).threads, j)
    ensures forall u: State :: u.threads == s.threads ==> OthersSame(s.threads, Fault(u).threads, j)
    ensures OthersSame(s.threads, s.threads, j)
  {
  }

  /** A step moves only the thread that takes it. */
  lemma NextMovesOne(s: State, j: nat)
    requires |s.slots| == CAPACITY && j < |s.threads|
    ensures OthersSame(s.threads, Next(s, j).threads, j)
  {
    hide At, Fault, OthersSame, References, Activities, FindEmpty, Taken, InvalidateAll, InvalidateSlot, Continue;
    AtMovesOne(s, j);
  }

  lemma StartMovesOne(s: State, j: nat, call: Call)
    requires j < |s.threads| && MayCall(s, j, call)
    ensures OthersSame(s.threads, Start(s, j, call).threads, j)
  {
    hide At, OthersSame;
    AtMovesOne(s, j);
  }

  lemma EventMovesOne(s: State, e: Event, i: nat)
    requires Enabled(s, e) && i < |s.threads| && e.thread != i
    ensures i < |Apply(s, e).threads| && Apply(s, e).threads[i] == s.threads[i]
  {
    hide Next, Start;
    match e
    case Proceed(j) => NextMovesOne(s, j);
    case Begin(j, call) => StartMovesOne(s, j, call);
  }

  // Acquire

  predicate AcquireMove(s: State, was: Pc, pc: Pc) {
    || pc == was
    || (was.AcquireWait? && pc == AcquireCheck(was.place, was.kind))
    || (was.AcquireCheck? && pc.AcquireBegin? && Serves(s, was.place, was.kind, pc.record))
    || (was.AcquireBegin? && pc == AcquireAdd(was.record, was.slot))
    || (was.AcquireAdd? && pc == AcquireRef(was.record, was.slot))
    || (was.AcquireRef? && pc == Unlocking(GiveLease(was.record)))
  }

  lemma AcquireMoves(s: State, i: nat)
    requires |s.slots| == CAPACITY && i < |s.threads| && InAcquire(s.threads[i])
    requires |Next(s, i).threads| == |s.threads| && InAcquire(Next(s, i).threads[i])
    ensures AcquireMove(s, s.threads[i], Next(s, i).threads[i])
  {
    hide At, Fault, References, Activities, FindEmpty, Taken, InvalidateAll, InvalidateSlot, Continue, Publish, DropRecord, TrackerDrop;
    AtLands(s, i);
  }

  lemma AtLands(s: State, i: nat)
    requires i < |s.threads|
    ensures forall u: State, pc: Pc :: u.threads == s.threads ==> |At(u, i, pc).threads| == |s.threads| && At(u, i, pc).threads[i] == pc
    ensures forall u: State :: Fault(u).threads == u.threads
  {
  }

  /** From event a, the call, up to state b, thread i is inside one successful acquire or close. */
  ghost predicate Inside(run: seq<State>, events: seq<Event>, i: nat, a: nat, b: nat, call: Call, within: Pc -> bool) {
    && IsRun(run, events) && a < b < |run| && events[a] == Begin(i, call)
    && forall k :: a < k <= b ==> i < |run[k].threads| && within(run[k].threads[i])
  }

  /** The record was the handle's, and of the kind asked for, at an instant of the call. */
  ghost predicate Served(run: seq<State>, place: Place, kind: Kind, r: RecordId, a: nat, b: nat) {
    exists k :: a < k < b && k < |run| && Serves(run[k], place, kind, r)
  }

  ghost predicate AcquireKnows(run: seq<State>, place: Place, kind: Kind, a: nat, b: nat, pc: Pc) {
    match pc
    case AcquireWait(p, k) => p == place && k == kind
    case AcquireCheck(p, k) => p == place && k == kind
    case AcquireBegin(r, _) => Served(run, place, kind, r, a, b)
    case AcquireAdd(r, _) => Served(run, place, kind, r, a, b)
    case AcquireRef(r, _) => Served(run, place, kind, r, a, b)
    case Unlocking(after) => after.GiveLease? && Served(run, place, kind, after.leased, a, b)
    case _ => false
  }

  lemma AcquireKnowsOn(run: seq<State>, place: Place, kind: Kind, a: nat, b: nat, was: Pc, pc: Pc)
    requires a < b < |run| && AcquireKnows(run, place, kind, a, b, was)
    requires AcquireMove(run[b], was, pc)
    ensures AcquireKnows(run, place, kind, a, b + 1, pc)
  {
    hide Serves;
  }

  lemma {:induction false} AcquireTraces(run: seq<State>, events: seq<Event>, i: nat, a: nat, b: nat, handle: uint64, kind: Kind)
    requires Inside(run, events, i, a, b, Acquire(handle, kind), InAcquire) && Decode(handle).Some?
    ensures AcquireKnows(run, Decode(handle).value, kind, a, b, run[b].threads[i])
  {
    hide Initial, Next, Decode, AcquireKnows, InAcquire;
    var place, e, s := Decode(handle).value, events[b - 1], run[b - 1];
    assert Enabled(s, e) && run[b] == Apply(s, e);
    if b == a + 1 {
      AcquireStarts(run, s, i, a, handle, kind);
    } else {
      AcquireTraces(run, events, i, a, b - 1, handle, kind);
      if e.thread != i {
        EventMovesOne(s, e, i);
      } else {
        NotIdleInside(s.threads[i]);
        NextMovesOne(s, i);
        AcquireMoves(s, i);
      }
      AcquireKnowsOn(run, place, kind, a, b - 1, s.threads[i], run[b].threads[i]);
    }
  }

  lemma AcquireStarts(run: seq<State>, s: State, i: nat, a: nat, handle: uint64, kind: Kind)
    requires i < |s.threads| && MayCall(s, i, Acquire(handle, kind)) && Decode(handle).Some?
    ensures AcquireKnows(run, Decode(handle).value, kind, a, a + 1, Start(s, i, Acquire(handle, kind)).threads[i])
  {
    hide Decode;
  }

  lemma NotIdleInside(pc: Pc)
    requires InAcquire(pc) || InClose(pc)
    ensures !pc.Idle? && !pc.Frozen?
  {
  }

  /** The lease an acquire hands out is of the record its handle named, of the kind asked for, at an instant of the call. */
  lemma AcquireLeasesItsRecord(run: seq<State>, events: seq<Event>, i: nat, a: nat, b: nat, handle: uint64, kind: Kind)
    requires Inside(run, events, i, a, b, Acquire(handle, kind), InAcquire) && Decode(handle).Some?
    requires b < |events| && events[b] == Proceed(i) && run[b].threads[i].Unlocking?
    ensures var r := run[b].threads[i].after.leased;
            run[b + 1].leases == run[b].leases + multiset{r} && Served(run, Decode(handle).value, kind, r, a, b)
  {
    hide Initial, Decode, Inv;
    AcquireTraces(run, events, i, a, b, handle, kind);
    RunKeepsInv(run, events, b);
    LeaseGiven(run[b], i);
  }

  lemma LeaseGiven(s: State, i: nat)
    requires Inv(s) && i < |s.threads| && s.threads[i].Unlocking? && s.threads[i].after.GiveLease?
    ensures Next(s, i).leases == s.leases + multiset{s.threads[i].after.leased}
  {
    hide LockOk, DestroyOk, RefsOk, TrackerOk, LifeOk, IssuedOk, ChecksOk;
    TableAlive(s, i);
  }

  // Close

  predicate CloseMove(s: State, was: Pc, pc: Pc) {
    || pc == was
    || (was.CloseWait? && pc == CloseCheck(was.place, was.kind))
    || (was.CloseCheck? && pc.CloseAdd? && pc.slot == was.place.slot && Serves(s, was.place, was.kind, pc.record))
    || (was.CloseAdd? && pc == CloseInvalidate(was.record, was.slot))
    || (was.CloseInvalidate? && pc == Unlocking(DropClosed(was.record)))
  }

  lemma CloseMoves(s: State, i: nat)
    requires |s.slots| == CAPACITY && i < |s.threads| && InClose(s.threads[i])
    requires |Next(s, i).threads| == |s.threads| && InClose(Next(s, i).threads[i])
    ensures CloseMove(s, s.threads[i], Next(s, i).threads[i])
  {
    hide At, Fault, References, Activities, FindEmpty, Taken, InvalidateAll, InvalidateSlot, Continue, Publish, DropRecord, TrackerDrop;
    AtLands(s, i);
  }

  ghost predicate CloseKnows(run: seq<State>, place: Place, kind: Kind, a: nat, b: nat, pc: Pc) {
    match pc
    case CloseWait(p, k) => p == place && k == kind
    case CloseCheck(p, k) => p == place && k == kind
    case CloseAdd(r, slot) => slot == place.slot && Served(run, place, kind, r, a, b)
    case CloseInvalidate(r, slot) => slot == place.slot && Served(run, place, kind, r, a, b)
    case Unlocking(after) => after.DropClosed? && Served(run, place, kind, after.closed, a, b)
    case _ => false
  }

  lemma CloseKnowsOn(run: seq<State>, place: Place, kind: Kind, a: nat, b: nat, was: Pc, pc: Pc)
    requires a < b < |run| && CloseKnows(run, place, kind, a, b, was) && CloseMove(run[b], was, pc)
    ensures CloseKnows(run, place, kind, a, b + 1, pc)
  {
    hide Serves;
  }

  lemma {:induction false} CloseTraces(run: seq<State>, events: seq<Event>, i: nat, a: nat, b: nat, handle: uint64, kind: Kind)
    requires Inside(run, events, i, a, b, Close(handle, kind), InClose) && Decode(handle).Some?
    ensures CloseKnows(run, Decode(handle).value, kind, a, b, run[b].threads[i])
  {
    hide Initial, Next, Decode, CloseKnows, InClose, CloseMove;
    var place, e, s := Decode(handle).value, events[b - 1], run[b - 1];
    assert Enabled(s, e) && run[b] == Apply(s, e);
    if b == a + 1 {
      CloseStarts(run, s, i, a, handle, kind);
    } else {
      CloseTraces(run, events, i, a, b - 1, handle, kind);
      if e.thread != i {
        EventMovesOne(s, e, i);
        StaysClose(s, s.threads[i]);
      } else {
        NotIdleInside(s.threads[i]);
        NextMovesOne(s, i);
        CloseMoves(s, i);
      }
      CloseKnowsOn(run, place, kind, a, b - 1, s.threads[i], run[b].threads[i]);
    }
  }

  lemma StaysClose(s: State, pc: Pc)
    ensures CloseMove(s, pc, pc)
  {
  }

  lemma CloseStarts(run: seq<State>, s: State, i: nat, a: nat, handle: uint64, kind: Kind)
    requires i < |s.threads| && MayCall(s, i, Close(handle, kind)) && Decode(handle).Some?
    ensures CloseKnows(run, Decode(handle).value, kind, a, a + 1, Start(s, i, Close(handle, kind)).threads[i])
  {
    hide Decode;
  }

  /** The slot a close empties is its handle's, and the record it drops was that handle's, of the kind asked for. */
  lemma CloseTakesItsRecord(run: seq<State>, events: seq<Event>, i: nat, a: nat, b: nat, handle: uint64, kind: Kind)
    requires Inside(run, events, i, a, b, Close(handle, kind), InClose) && Decode(handle).Some?
    requires b < |events| && events[b] == Proceed(i) && run[b].threads[i].CloseInvalidate?
    ensures var pc, place := run[b].threads[i], Decode(handle).value;
            && pc.slot == place.slot < |run[b].slots| && Served(run, place, kind, pc.record, a, b)
            && run[b].slots[place.slot].record == Some(pc.record)
            && run[b + 1].slots == run[b].slots[place.slot := InvalidateSlot(run[b].slots[place.slot])]
  {
    hide Initial, Decode, Inv;
    CloseTraces(run, events, i, a, b, handle, kind);
    RunKeepsInv(run, events, b);
    SlotEmptied(run[b], i);
  }

  lemma SlotEmptied(s: State, i: nat)
    requires Inv(s) && i < |s.threads| && s.threads[i].CloseInvalidate?
    ensures var slot := s.threads[i].slot;
            && slot < |s.slots| && s.slots[slot].record == Some(s.threads[i].record)
            && Next(s, i).slots == s.slots[slot := InvalidateSlot(s.slots[slot])]
  {
    hide LockOk, DestroyOk, RefsOk, TrackerOk, LifeOk, IssuedOk;
    assert Checked(s, s.threads[i]);
    TableAlive(s, i);
  }

  // Insert

  predicate InInsert(pc: Pc) {
    pc.InsertWait? || pc.InsertScan? || pc.InsertRetain? || pc.InsertPublish?
  }

  /** The first slot that can take a record. */
  predicate FirstEmpty(s: State, slot: nat) {
    && slot < |s.slots| && SlotEmpty(s, slot)
    && forall k :: 0 <= k < slot ==> !SlotEmpty(s, k)
  }

  predicate InsertMove(s: State, was: Pc, pc: Pc) {
    || pc == was
    || (was.InsertWait? && pc == InsertScan(was.kind, was.item))
    || (was.InsertScan? && pc.InsertRetain? && pc.kind == was.kind && pc.item == was.item && FirstEmpty(s, pc.slot))
    || (was.InsertRetain? && pc == InsertPublish(was.kind, was.item, was.slot))
  }

  lemma {:induction false} FindEmptyIsFirst(s: State, from: nat)
    requires from <= |s.slots|
    ensures var r := FindEmpty(s.slots, from);
            r.Some? ==> SlotEmpty(s, r.value) && forall k :: from <= k < r.value ==> !SlotEmpty(s, k)
    decreases |s.slots| - from
  {
    if from < |s.slots| && !SlotEmpty(s, from) {
      FindEmptyIsFirst(s, from + 1);
    }
  }

  lemma InsertMoves(s: State, i: nat)
    requires |s.slots| == CAPACITY && i < |s.threads| && InInsert(s.threads[i])
    requires |Next(s, i).threads| == |s.threads| && InInsert(Next(s, i).threads[i])
    ensures InsertMove(s, s.threads[i], Next(s, i).threads[i])
  {
    hide At, Fault, References, Activities, SlotEmpty, FindEmpty;
    AtLands(s, i);
    FindEmptyIsFirst(s, 0);
  }

  /** The slot was the first empty one when the call scanned. */
  ghost predicate WasFirst(run: seq<State>, slot: nat, a: nat, b: nat) {
    exists k :: a < k < b && k < |run| && FirstEmpty(run[k], slot)
  }

  ghost predicate InsertKnows(run: seq<State>, kind: Kind, item: nat, a: nat, b: nat, pc: Pc) {
    match pc
    case InsertWait(k, it) => k == kind && it == item
    case InsertScan(k, it) => k == kind && it == item
    case InsertRetain(k, it, slot) => k == kind && it == item && WasFirst(run, slot, a, b)
    case InsertPublish(k, it, slot) => k == kind && it == item && WasFirst(run, slot, a, b)
    case _ => false
  }

  lemma InsertKnowsOn(run: seq<State>, kind: Kind, item: nat, a: nat, b: nat, was: Pc, pc: Pc)
    requires a < b < |run| && InsertKnows(run, kind, item, a, b, was) && InsertMove(run[b], was, pc)
    ensures InsertKnows(run, kind, item, a, b + 1, pc)
  {
    hide FirstEmpty;
  }

  lemma {:induction false} InsertTraces(run: seq<State>, events: seq<Event>, i: nat, a: nat, b: nat, kind: Kind, item: nat)
    requires Inside(run, events, i, a, b, Insert(kind, item), InInsert)
    ensures InsertKnows(run, kind, item, a, b, run[b].threads[i])
  {
    hide Initial, Next, InsertKnows, InInsert, InsertMove;
    var e, s := events[b - 1], run[b - 1];
    assert Enabled(s, e) && run[b] == Apply(s, e);
    if b == a + 1 {
      InsertStarts(run, s, i, a, kind, item);
    } else {
      InsertTraces(run, events, i, a, b - 1, kind, item);
      InsertNotIdle(s.threads[i]);
      if e.thread != i {
        EventMovesOne(s, e, i);
        StaysInsert(s, s.threads[i]);
      } else {
        NextMovesOne(s, i);
        InsertMoves(s, i);
      }
      InsertKnowsOn(run, kind, item, a, b - 1, s.threads[i], run[b].threads[i]);
    }
  }

  lemma InsertNotIdle(pc: Pc)
    requires InInsert(pc)
    ensures !pc.Idle? && !pc.Frozen?
  {
  }

  lemma StaysInsert(s: State, pc: Pc)
    ensures InsertMove(s, pc, pc)
  {
  }

  lemma InsertStarts(run: seq<State>, s: State, i: nat, a: nat, kind: Kind, item: nat)
    requires i < |s.threads| && MayCall(s, i, Insert(kind, item))
    ensures InsertKnows(run, kind, item, a, a + 1, Start(s, i, Insert(kind, item)).threads[i])
  {
  }

  /**
   * From the call to the publication, in every interleaving: what an insert publishes is
   * a new record of its own kind and object with one reference, in the slot that was the
   * first empty one when it scanned and still is empty; the handle is that slot's.
   */
  lemma InsertPublishesItsArguments(run: seq<State>, events: seq<Event>, i: nat, a: nat, b: nat, kind: Kind, item: nat)
    requires Inside(run, events, i, a, b, Insert(kind, item), InInsert)
    requires b < |events| && events[b] == Proceed(i) && run[b].threads[i].InsertPublish?
    ensures var s, t, slot := run[b], run[b + 1], run[b].threads[i].slot;
            && WasFirst(run, slot, a, b) && slot < |s.slots| && SlotEmpty(s, slot) && s.nextRecord !in s.records
            && t.records == s.records[s.nextRecord := Record(1, kind, item)]
            && t.slots == s.slots[slot := s.slots[slot].(record := Some(s.nextRecord))]
            && t.issued == s.issued + [Place(slot, s.slots[slot].generation)]
            && Serves(t, Place(slot, s.slots[slot].generation), kind, s.nextRecord)
  {
    hide Initial, Inv, InInsert, Serves, Next, SlotEmpty;
    InsertTraces(run, events, i, a, b, kind, item);
    RunKeepsInv(run, events, b);
    assert Enabled(run[b], events[b]) && run[b + 1] == Apply(run[b], events[b]);
    RecordAppears(run[b], i);
    InsertPublishes(run[b], i);
  }

  lemma RecordAppears(s: State, i: nat)
    requires Inv(s) && i < |s.threads| && s.threads[i].InsertPublish?
    ensures var t, pc := Next(s, i), s.threads[i];
            && pc.slot < |s.slots| && SlotEmpty(s, pc.slot) && s.nextRecord !in s.records
            && t.records == s.records[s.nextRecord := Record(1, pc.kind, pc.item)]
            && t.slots == s.slots[pc.slot := s.slots[pc.slot].(record := Some(s.nextRecord))]
            && t.issued == s.issued + [Place(pc.slot, s.slots[pc.slot].generation)]
  {
    hide LockOk, TrackerOk, LifeOk, IssuedOk, RefsOk;
    NextIsNew(s);
    assert Checked(s, s.threads[i]);
    TableAlive(s, i);
  }

  lemma NextIsNew(s: State)
    requires LifeOk(s)
    ensures s.nextRecord !in s.records
  {
    hide Sum;
    assert One(s.nextRecord in s.records) + Sum(s.threads, Destructors(s.nextRecord)) + multiset(s.destructed)[s.nextRecord] == 0;
  }

  // Refusals

  predicate HasRoom(s: State) {
    exists slot: nat :: slot < |s.slots| && SlotEmpty(s, slot)
  }

  predicate Saturated(s: State) {
    References(s.tracker) == UINT32_MAX || Activities(s.tracker) == UINT32_MAX
  }

  /**
   * Under the lock an insert goes on exactly when there is room; destruction under way
   * and a tracker out of references are answered apart from a full table.
   */
  lemma InsertRefusedIff(s: State, i: nat)
    requires Inv(s) && i < |s.threads| && s.threads[i].InsertScan?
    ensures var pc := Next(s, i).threads[i];
            && (pc.InsertRetain? <==> !s.destroying && HasRoom(s) && References(s.tracker) != UINT32_MAX)
            && (pc == Unlocking(Return(TableFull)) <==> !s.destroying && !HasRoom(s))
            && (pc == Unlocking(Return(InvalidState)) <==> s.destroying || (HasRoom(s) && References(s.tracker) == UINT32_MAX))
  {
    hide LockOk, DestroyOk, RefsOk, TrackerOk, LifeOk, IssuedOk, ChecksOk, References;
    TableAlive(s, i);
    var empty := FindEmpty(s.slots, 0);
    if empty.Some? {
      assert SlotEmpty(s, empty.value);
    }
  }

  ghost predicate ServesSome(s: State, place: Place, kind: Kind) {
    exists r: RecordId :: Serves(s, place, kind, r)
  }

  lemma ServesIff(s: State, place: Place, kind: Kind)
    requires Inv(s)
    ensures Resolves(s, place) ==> s.slots[place.slot].record.value in s.records
    ensures ServesSome(s, place, kind) <==> Resolves(s, place) && s.records[s.slots[place.slot].record.value].kind == kind
  {
    hide Inv;
    if Resolves(s, place) {
      ResolvesToRecord(s, place);
      var r := s.slots[place.slot].record.value;
      assert s.records[r].kind == kind ==> Serves(s, place, kind, r);
    }
  }

  /** The handle serves a record, of whatever kind. */
  ghost predicate ServesAny(s: State, place: Place) {
    ServesSome(s, place, FileKind) || ServesSome(s, place, SearchKind)
  }

  lemma ServesAnyIff(s: State, place: Place)
    requires Inv(s)
    ensures ServesAny(s, place) <==> Resolves(s, place)
  {
    hide Inv, ServesSome, Resolves;
    ServesIff(s, place, FileKind);
    ServesIff(s, place, SearchKind);
  }

  /** A close goes on exactly when its handle serves a record of the kind and the tracker has room, and tells why not. */
  lemma CloseRefusedIff(s: State, i: nat)
    requires Inv(s) && i < |s.threads| && s.threads[i].CloseCheck?
    ensures var pc, place, kind := Next(s, i).threads[i], s.threads[i].place, s.threads[i].kind;
            && (pc.CloseAdd? <==> ServesSome(s, place, kind) && !Saturated(s))
            && (pc == Unlocking(Return(NotFound)) <==> !ServesAny(s, place))
            && (pc == Unlocking(Return(TypeMismatch)) <==> ServesAny(s, place) && !ServesSome(s, place, kind))
            && (pc == Unlocking(Return(InvalidState)) <==> ServesSome(s, place, kind) && Saturated(s))
  {
    hide LockOk, DestroyOk, RefsOk, TrackerOk, LifeOk, IssuedOk, ChecksOk, References, Activities, ServesSome, ServesAny;
    TableAlive(s, i);
    ServesIff(s, s.threads[i].place, s.threads[i].kind);
    ServesAnyIff(s, s.threads[i].place);
  }

  /** The first check of an acquire: the handle serves a record of the kind whose count has room, and why not. */
  lemma AcquireRefusedIff(s: State, i: nat)
    requires Inv(s) && i < |s.threads| && s.threads[i].AcquireCheck?
    ensures var pc, place, kind := Next(s, i).threads[i], s.threads[i].place, s.threads[i].kind;
            && (pc == Unlocking(Return(NotFound)) <==> !ServesAny(s, place))
            && (pc == Unlocking(Return(TypeMismatch)) <==> ServesAny(s, place) && !ServesSome(s, place, kind))
            && (pc.AcquireBegin? <==> ServesSome(s, place, kind) && RecordHasRoom(s, s.slots[place.slot].record.value))
            && (pc == Unlocking(Return(InvalidState)) <==>
                  ServesSome(s, place, kind) && !RecordHasRoom(s, s.slots[place.slot].record.value))
  {
    hide LockOk, DestroyOk, RefsOk, TrackerOk, LifeOk, IssuedOk, ChecksOk, References, Activities, ServesSome, ServesAny;
    TableAlive(s, i);
    ServesIff(s, s.threads[i].place, s.threads[i].kind);
    ServesAnyIff(s, s.threads[i].place);
  }

  /** The second check of an acquire: room for one more activity and its reference in the tracker. */
  lemma AcquireActivityRefusedIff(s: State, i: nat)
    requires Inv(s) && i < |s.threads| && s.threads[i].AcquireBegin?
    ensures Next(s, i).threads[i] ==
            if Saturated(s) then Unlocking(Return(InvalidState)) else AcquireAdd(s.threads[i].record, s.threads[i].slot)
    ensures Next(s, i).slots == s.slots && Next(s, i).records == s.records && Next(s, i).tracker == s.tracker
  {
    hide LockOk, DestroyOk, RefsOk, TrackerOk, LifeOk, IssuedOk, ChecksOk, References, Activities;
    TableAlive(s, i);
  }

  /** Clone preparation is refused exactly when the table is being destroyed or some activity is under way. */
  lemma PrepareRefusedIff(s: State, i: nat)
    requires Inv(s) && i < |s.threads| && s.threads[i].PrepareCheck?
    ensures Next(s, i).threads[i] == Frozen || Next(s, i).threads[i] == Unlocking(Return(InvalidState))
    ensures Next(s, i).threads[i] == Frozen <==>
            !s.destroying && s.leases == multiset{} && forall j :: 0 <= j < |s.threads| ==> Weigh(Acts, s.threads[j]) == 0
  {
    hide LockOk, DestroyOk, RefsOk, LifeOk, IssuedOk, ChecksOk, Weigh, References;
    TableAlive(s, i);
    NoActivityIff(s.threads);
  }

  lemma {:induction false} NoActivityIff(threads: seq<Pc>)
    ensures Sum(threads, Acts) == 0 <==> forall j :: 0 <= j < |threads| ==> Weigh(Acts, threads[j]) == 0
  {
    hide Weigh;
    if threads != [] {
      NoActivityIff(threads[1..]);
      assert forall j :: 0 < j < |threads| ==> threads[j] == threads[1..][j - 1];
    }
  }
}
