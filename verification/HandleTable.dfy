/**
 * The handle table as a concurrent protocol: any number of threads take atomic steps
 * in any order. Every atomic access of the C code is a step of its own; what runs
 * under the table lock and touches only lock-protected data shares a step with the
 * access before it. A step that would abort, or touch freed memory, sets faulted.
 */
module HandleTable {
  import opened Bytes
  import opened HandleTokens

  datatype Kind = FileKind | SearchKind

  type RecordId = nat

  /** A published record; refs is its atomic reference count. */
  datatype Record = Record(refs: uint32, kind: Kind, item: nat)

  datatype Slot = Slot(record: Option<RecordId>, generation: uint32, retired: bool)

  /** What a thread does after dropping its reference to a record. */
  datatype Cont =
    | EndActivity                 // a close or a lease release
    | Rest(todo: seq<RecordId>)   // table destruction, with the records still to drop

  /** What a call that leaves nothing to do answers. */
  datatype Answer = Success | InvalidState | TableFull | NotFound | TypeMismatch

  datatype After = Return(answer: Answer) | GiveLease(leased: RecordId) | DropClosed(closed: RecordId) | DropAll(all: seq<RecordId>)

  /** Where a thread is. Pcs from InsertScan to Unlocking, and Frozen, hold the lock. */
  datatype Pc =
    | Idle
    | InsertWait(kind: Kind, item: nat)
    | InsertScan(kind: Kind, item: nat)
    | InsertRetain(kind: Kind, item: nat, slot: nat)
    | InsertPublish(kind: Kind, item: nat, slot: nat)
    | AcquireWait(place: Place, kind: Kind)
    | AcquireCheck(place: Place, kind: Kind)
    | AcquireBegin(record: RecordId, slot: nat)
    | AcquireAdd(record: RecordId, slot: nat)
    | AcquireRef(record: RecordId, slot: nat)
    | CloseWait(place: Place, kind: Kind)
    | CloseCheck(place: Place, kind: Kind)
    | CloseAdd(record: RecordId, slot: nat)
    | CloseInvalidate(record: RecordId, slot: nat)
    | DestroyWait
    | DestroyTake
    | PrepareWait
    | PrepareCheck
    | Frozen
    | Unlocking(after: After)
    | Dropping(record: RecordId, cont: Cont)
    | Destructing(record: RecordId, cont: Cont)
    | ReleasingTracker(cont: Cont)
    | EndingActivity
    | FreeingTable
    | FinalRelease

  datatype State = State(
    locked: bool,
    destroying: bool,
    closing: bool,                  // a caller has begun sl_handle_table_destroy
    tableFreed: bool,
    tableReleased: bool,            // the table's own tracker reference is gone
    slots: seq<Slot>,
    records: map<RecordId, Record>, // published and not yet freed
    tracker: uint64,                // references in the low half, activities in the high half
    trackerFreed: bool,
    leases: multiset<RecordId>,     // held by clients
    threads: seq<Pc>,
    nextRecord: RecordId,
    destructed: seq<RecordId>,      // destructor calls, in order
    issued: seq<Place>,             // handles given out, in order
    faulted: bool)

  const REFERENCE_ONE: int := 1
  const ACTIVITY_ONE: int := TWO_32

  function References(tracker: uint64): nat { tracker % TWO_32 }
  function Activities(tracker: uint64): nat { tracker / TWO_32 }

  function Initial(threads: nat): State {
    State(false, false, false, false, false, seq(CAPACITY, _ => Slot(None, 1, false)), map[], 1, false, multiset{},
          seq(threads, _ => Idle), 0, [], [], false)
  }

  // Helpers of the steps

  function At(s: State, i: nat, pc: Pc): State
    requires i < |s.threads|
  {
    s.(threads := s.threads[i := pc])
  }

  function Fault(s: State): State {
    s.(faulted := true)
  }

  function InvalidateSlot(slot: Slot): Slot {
    if slot.generation == UINT32_MAX then Slot(None, 0, true) else Slot(None, slot.generation + 1, slot.retired)
  }

  /** The first slot that is empty and not retired, from an index on. */
  function FindEmpty(slots: seq<Slot>, from: nat): (r: Option<nat>)
    requires from <= |slots|
    ensures r.Some? ==> from <= r.value < |slots| && slots[r.value].record.None? && !slots[r.value].retired
    ensures r.None? ==> forall k :: from <= k < |slots| ==> slots[k].record.Some? || slots[k].retired
    decreases |slots| - from
  {
    if from == |slots| then None
    else if slots[from].record.None? && !slots[from].retired then Some(from)
    else FindEmpty(slots, from + 1)
  }

  /** The handle names the slot's present record. */
  predicate Resolves(s: State, p: Place) {
    && p.slot < |s.slots|
    && !s.destroying && s.slots[p.slot].record.Some? && !s.slots[p.slot].retired
    && s.slots[p.slot].generation == p.generation
  }

  /** The records in the slots, in slot order. */
  function Taken(slots: seq<Slot>): seq<RecordId> {
    if slots == [] then [] else (if slots[0].record.Some? then [slots[0].record.value] else []) + Taken(slots[1..])
  }

  function InvalidateAll(slots: seq<Slot>): (r: seq<Slot>)
    ensures |r| == |slots|
  {
    seq(|slots|, k requires 0 <= k < |slots| => if slots[k].record.Some? then InvalidateSlot(slots[k]) else slots[k])
  }

  function Continue(cont: Cont): Pc {
    match cont
    case EndActivity => EndingActivity
    case Rest(todo) => if todo == [] then FreeingTable else Dropping(todo[0], Rest(todo[1..]))
  }

  function TakeLock(s: State, i: nat, pc: Pc): State
    requires i < |s.threads|
  {
    if s.tableFreed then Fault(s) else if s.locked then s else At(s, i, pc).(locked := true)
  }

  /** tracker_drop: subtract, then free the tracker with the last reference. */
  function TrackerDrop(s: State, i: nat, activities: nat, next: Pc): State
    requires i < |s.threads| && activities <= 1
  {
    var references, active := References(s.tracker), Activities(s.tracker);
    if s.trackerFreed || references == 0 || active < activities then Fault(s)
    else if references == 1 && active != activities then Fault(s)
    else At(s, i, next).(tracker := (s.tracker - REFERENCE_ONE - activities * ACTIVITY_ONE) % TWO_64, trackerFreed := references == 1)
  }

  /** tracker_activity_begin's fetch_add, after its checks. */
  function TrackerAdd(s: State, i: nat, amount: int, next: Pc): State
    requires i < |s.threads|
  {
    if s.trackerFreed then Fault(s) else At(s, i, next).(tracker := (s.tracker + amount) % TWO_64)
  }

  /** record_release's fetch_sub; the last reference frees the record. */
  function DropRecord(s: State, i: nat, r: RecordId, cont: Cont): State
    requires i < |s.threads|
  {
    if r !in s.records || s.records[r].refs == 0 then Fault(s)
    else if s.records[r].refs == 1 then At(s, i, Destructing(r, cont)).(records := s.records - {r})
    else At(s, i, Continue(cont)).(records := s.records[r := s.records[r].(refs := s.records[r].refs - 1)])
  }

  function Unlock(s: State, i: nat, after: After): State
    requires i < |s.threads|
  {
    if s.tableFreed then Fault(s)
    else
      var open := s.(locked := false);
      match after
      case Return(_) => At(open, i, Idle)
      case GiveLease(r) => At(open, i, Idle).(leases := s.leases + multiset{r})
      case DropClosed(r) => At(open, i, Dropping(r, EndActivity))
      case DropAll(all) => At(open, i, Continue(Rest(all)))
  }

  /** Publication: the slot takes the record, and the handle is given out. */
  function Publish(s: State, i: nat, kind: Kind, item: nat, slot: nat): State
    requires i < |s.threads| && slot < |s.slots|
  {
    At(s, i, Unlocking(Return(Success))).(
      slots := s.slots[slot := s.slots[slot].(record := Some(s.nextRecord))],
      records := s.records[s.nextRecord := Record(1, kind, item)],
      nextRecord := s.nextRecord + 1,
      issued := s.issued + [Place(slot, s.slots[slot].generation)])
  }

  // The next step of a thread inside an operation

  function Next(s: State, i: nat): State
    requires i < |s.threads| && |s.slots| == CAPACITY
  {
    match s.threads[i]
    case Idle => s
    case Frozen => s
    case InsertWait(kind, item) => TakeLock(s, i, InsertScan(kind, item))
    case AcquireWait(place, kind) => TakeLock(s, i, AcquireCheck(place, kind))
    case CloseWait(place, kind) => TakeLock(s, i, CloseCheck(place, kind))
    case DestroyWait => TakeLock(s, i, DestroyTake)
    case PrepareWait => TakeLock(s, i, PrepareCheck)
    case InsertScan(kind, item) =>
      if s.tableFreed || s.trackerFreed then Fault(s)
      else if s.destroying then At(s, i, Unlocking(Return(InvalidState)))
      else
        var empty := FindEmpty(s.slots, 0);
        if empty.None? then At(s, i, Unlocking(Return(TableFull)))
        else if References(s.tracker) == UINT32_MAX then At(s, i, Unlocking(Return(InvalidState)))
        else At(s, i, InsertRetain(kind, item, empty.value))
    case InsertRetain(kind, item, slot) => TrackerAdd(s, i, REFERENCE_ONE, InsertPublish(kind, item, slot))
    case InsertPublish(kind, item, slot) => if s.tableFreed || slot >= |s.slots| then Fault(s) else Publish(s, i, kind, item, slot)
    case AcquireCheck(place, kind) =>
      if s.tableFreed then Fault(s)
      else if !Resolves(s, place) then At(s, i, Unlocking(Return(NotFound)))
      else
        var r := s.slots[place.slot].record.value;
        if r !in s.records then Fault(s)
        else if s.records[r].kind != kind then At(s, i, Unlocking(Return(TypeMismatch)))
        else if s.records[r].refs == UINT32_MAX then At(s, i, Unlocking(Return(InvalidState)))
        else At(s, i, AcquireBegin(r, place.slot))
    case AcquireBegin(r, slot) =>
      if s.trackerFreed then Fault(s)
      else if References(s.tracker) == UINT32_MAX || Activities(s.tracker) == UINT32_MAX then At(s, i, Unlocking(Return(InvalidState)))
      else At(s, i, AcquireAdd(r, slot))
    case AcquireAdd(r, slot) => TrackerAdd(s, i, REFERENCE_ONE + ACTIVITY_ONE, AcquireRef(r, slot))
    case AcquireRef(r, slot) =>
      if r !in s.records then Fault(s)
      else At(s, i, Unlocking(GiveLease(r))).(records := s.records[r := s.records[r].(refs := (s.records[r].refs + 1) % TWO_32)])
    case CloseCheck(place, kind) =>
      if s.tableFreed || s.trackerFreed then Fault(s)
      else if !Resolves(s, place) then At(s, i, Unlocking(Return(NotFound)))
      else
        var r := s.slots[place.slot].record.value;
        if r !in s.records then Fault(s)
        else if s.records[r].kind != kind then At(s, i, Unlocking(Return(TypeMismatch)))
        else if References(s.tracker) == UINT32_MAX || Activities(s.tracker) == UINT32_MAX then
          At(s, i, Unlocking(Return(InvalidState)))
        else At(s, i, CloseAdd(r, place.slot))
    case CloseAdd(r, slot) => TrackerAdd(s, i, REFERENCE_ONE + ACTIVITY_ONE, CloseInvalidate(r, slot))
    case CloseInvalidate(r, slot) =>
      if s.tableFreed || slot >= |s.slots| then Fault(s)
      else At(s, i, Unlocking(DropClosed(r))).(slots := s.slots[slot := InvalidateSlot(s.slots[slot])])
    case DestroyTake =>
      if s.tableFreed then Fault(s)
      else At(s, i, Unlocking(DropAll(Taken(s.slots)))).(destroying := true, slots := InvalidateAll(s.slots))
    case PrepareCheck =>
      if s.tableFreed || s.trackerFreed then Fault(s)
      else if s.destroying || Activities(s.tracker) != 0 then At(s, i, Unlocking(Return(InvalidState)))
      else At(s, i, Frozen)
    case Unlocking(after) => Unlock(s, i, after)
    case Dropping(r, cont) => DropRecord(s, i, r, cont)
    case Destructing(r, cont) => At(s, i, ReleasingTracker(cont)).(destructed := s.destructed + [r])
    case ReleasingTracker(cont) => TrackerDrop(s, i, 0, Continue(cont))
    case EndingActivity => TrackerDrop(s, i, 1, Idle)
    case FreeingTable => if s.tableFreed then Fault(s) else At(s, i, FinalRelease).(tableFreed := true)
    case FinalRelease => TrackerDrop(s, i, 0, Idle).(tableReleased := true)
  }

  // Calls by clients

  datatype Call =
    | Insert(kind: Kind, item: nat)
    | Acquire(handle: uint64, kind: Kind)
    | Close(handle: uint64, kind: Kind)
    | ReleaseLease(record: RecordId)
    | DestroyTable
    | PrepareClone
    | CompleteClone

  /** A thread that touches nothing of the table itself: idle, or past the lock of a close or release. */
  predicate OffTable(pc: Pc) {
    match pc
    case Idle => true
    case Dropping(_, cont) => cont.EndActivity?
    case Destructing(_, cont) => cont.EndActivity?
    case ReleasingTracker(cont) => cont.EndActivity?
    case EndingActivity => true
    case _ => false
  }

  /**
   * What the interface asks of callers: no operation begins once destruction has begun,
   * none is under way on the table when it begins, and a lease is released by its holder.
   */
  predicate MayCall(s: State, i: nat, call: Call)
    requires i < |s.threads|
  {
    match call
    case CompleteClone => s.threads[i].Frozen?
    case ReleaseLease(r) => s.threads[i].Idle? && s.leases[r] > 0
    case DestroyTable => s.threads[i].Idle? && !s.closing && forall k :: 0 <= k < |s.threads| ==> OffTable(s.threads[k])
    case _ => s.threads[i].Idle? && !s.closing
  }

  function Start(s: State, i: nat, call: Call): State
    requires i < |s.threads| && MayCall(s, i, call)
  {
    match call
    case Insert(kind, item) => At(s, i, InsertWait(kind, item))
    case Acquire(handle, kind) =>
      (match Decode(handle)
       case None => s
       case Some(place) => At(s, i, AcquireWait(place, kind)))
    case Close(handle, kind) =>
      (match Decode(handle)
       case None => s
       case Some(place) => At(s, i, CloseWait(place, kind)))
    case ReleaseLease(r) => At(s, i, Dropping(r, EndActivity)).(leases := s.leases - multiset{r})
    case DestroyTable => At(s, i, DestroyWait).(closing := true)
    case PrepareClone => At(s, i, PrepareWait)
    case CompleteClone => At(s, i, Unlocking(Return(Success)))
  }

  datatype Event = Proceed(thread: nat) | Begin(thread: nat, call: Call)

  /** An event is possible; an allocation failure in insert is the event that never happens. */
  predicate Enabled(s: State, e: Event) {
    && |s.slots| == CAPACITY
    && e.thread < |s.threads|
    && (e.Begin? ==> MayCall(s, e.thread, e.call))
  }

  function Apply(s: State, e: Event): State
    requires Enabled(s, e)
  {
    match e
    case Proceed(i) => Next(s, i)
    case Begin(i, call) => Start(s, i, call)
  }

  /** A run: any number of threads, any interleaving. */
  ghost predicate IsRun(run: seq<State>, events: seq<Event>) {
    && |run| == |events| + 1
    && (exists threads: nat :: run[0] == Initial(threads))
    && forall k :: 0 <= k < |events| ==> Enabled(run[k], events[k]) && run[k + 1] == Apply(run[k], events[k])
  }
}
