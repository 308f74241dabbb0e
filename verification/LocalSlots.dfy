/**
 * TLS and FLS slots as a concurrent protocol. Every atomic access is a step of its
 * own; each thread's values array is its own, so its accesses join the step before.
 */
module LocalSlots {
  import opened Bytes

  const SLOT_COUNT: nat := 256
  const NULL: nat := 0

  datatype Phase = Free | Initializing | Allocated

  /** Generations are unbounded here. */
  datatype LocalSlot = LocalSlot(phase: Phase, generation: nat, callback: nat)

  datatype LocalValue = LocalValue(value: nat, generation: nat)

  datatype Access = Getting | Setting(value: nat)

  datatype Pc =
    | Idle
    // local_alloc
    | AllocScan(index: nat, callback: nat)
    | AllocGeneration(index: nat, callback: nat)
    | AllocCallback(index: nat, callback: nat, generation: nat)
    | AllocPublish(index: nat, callback: nat, generation: nat)
    // local_free
    | FreeClaim(index: nat, notify: bool)
    | FreeGeneration(index: nat, notify: bool)
    | FreeCallback(index: nat, notify: bool, generation: nat, value: nat)
    | FreeClear(index: nat, notify: bool, generation: nat, value: nat, callback: nat)
    | FreeNotify(index: nat, notify: bool, generation: nat, value: nat, callback: nat)
    | FreePublish(index: nat)
    // local_generation, then the final check of local_get and local_set
    | ReadBefore(index: nat, access: Access)
    | ReadPhase(index: nat, access: Access, before: nat)
    | ReadAfter(index: nat, access: Access, before: nat)
    | Claim(index: nat, access: Access, generation: nat, value: nat)
    | Confirm(index: nat, access: Access, generation: nat, value: nat, live: nat)   // live is not read by the code

  /** seen holds every status the index has had since the call began; the code does not read it. */
  datatype Thread = Thread(pc: Pc, values: seq<LocalValue>, seen: set<Option<nat>>)

  /** What calls did and returned, in order. */
  datatype Entry =
    | DidAlloc(thread: nat, index: nat, generation: nat, callback: nat)   // at the store that publishes
    | DidFree(thread: nat, index: nat, generation: nat)                   // at the exchange that claims
    | DidNotify(thread: nat, index: nat, generation: nat, callback: nat, value: nat)
    | DidSet(thread: nat, index: nat, generation: nat, value: nat, seen: set<Option<nat>>)
    | DidGet(thread: nat, index: nat, generation: nat, value: nat, seen: set<Option<nat>>)
    | Refused(thread: nat, index: nat, seen: set<Option<nat>>)
    | OutOfIndexes(thread: nat)

  datatype State = State(slots: seq<LocalSlot>, threads: seq<Thread>, log: seq<Entry>)

  /** The generation an index is allocated under, if it is. */
  function Live(slots: seq<LocalSlot>, index: nat): Option<nat> {
    if index < |slots| && slots[index].phase.Allocated? then Some(slots[index].generation) else None
  }

  /** A value counts only under the generation it was stored for. */
  function Visible(value: LocalValue, generation: nat): nat {
    if value.generation == generation then value.value else NULL
  }

  predicate Accesses(pc: Pc) {
    pc.ReadBefore? || pc.ReadPhase? || pc.ReadAfter? || pc.Claim? || pc.Confirm? || pc.FreeClaim?
  }

  predicate WellShaped(s: State) {
    && |s.slots| == SLOT_COUNT
    && forall j :: 0 <= j < |s.threads| ==>
         |s.threads[j].values| == SLOT_COUNT && (s.threads[j].pc.Idle? || s.threads[j].pc.index < SLOT_COUNT)
  }

  function Initial(threads: nat): State {
    State(seq(SLOT_COUNT, _ => LocalSlot(Free, 0, 0)),
          seq(threads, _ => Thread(Idle, seq(SLOT_COUNT, _ => LocalValue(NULL, 0)), {})), [])
  }

  function At(s: State, i: nat, pc: Pc): State
    requires i < |s.threads|
  {
    s.(threads := s.threads[i := s.threads[i].(pc := pc)])
  }

  function Store(s: State, i: nat, pc: Pc, value: LocalValue): State
    requires i < |s.threads| && !pc.Idle? && pc.index < |s.threads[i].values|
  {
    var th := s.threads[i];
    s.(threads := s.threads[i := th.(pc := pc, values := th.values[pc.index := value])])
  }

  /** The call returns, and says so in the log. */
  function Return(s: State, i: nat, entry: Entry): State
    requires i < |s.threads|
  {
    At(s, i, Idle).(log := s.log + [entry])
  }

  function WriteSlot(s: State, i: nat, pc: Pc, index: nat, slot: LocalSlot): State
    requires i < |s.threads| && index < |s.slots|
  {
    At(s, i, pc).(slots := s.slots[index := slot])
  }

  /** A set that fails takes back what it stored. */
  function Fail(s: State, i: nat): State
    requires WellShaped(s) && i < |s.threads| && (s.threads[i].pc.Claim? || s.threads[i].pc.Confirm?)
  {
    var th, pc := s.threads[i], s.threads[i].pc;
    var back := if pc.access.Setting? then th.(pc := Idle, values := th.values[pc.index := LocalValue(NULL, 0)]) else th.(pc := Idle);
    s.(threads := s.threads[i := back], log := s.log + [Refused(i, pc.index, th.seen)])
  }

  function Next(s: State, i: nat): State
    requires WellShaped(s) && i < |s.threads|
  {
    var th := s.threads[i];
    match th.pc
    case Idle => s
    case AllocScan(x, callback) =>
      if s.slots[x].phase.Free? then WriteSlot(s, i, AllocGeneration(x, callback), x, s.slots[x].(phase := Initializing))
      else if x + 1 < SLOT_COUNT then At(s, i, AllocScan(x + 1, callback))
      else Return(s, i, OutOfIndexes(i))
    case AllocGeneration(x, callback) =>
      var generation := s.slots[x].generation + 1;
      WriteSlot(s, i, AllocCallback(x, callback, generation), x, s.slots[x].(generation := generation))
    case AllocCallback(x, callback, generation) =>
      WriteSlot(s, i, AllocPublish(x, callback, generation), x, s.slots[x].(callback := callback))
    case AllocPublish(x, callback, generation) =>
      WriteSlot(s, i, Idle, x, s.slots[x].(phase := Allocated)).(log := s.log + [DidAlloc(i, x, generation, callback)])
    case FreeClaim(x, notify) =>
      if !s.slots[x].phase.Allocated? then Return(s, i, Refused(i, x, th.seen))
      else
        WriteSlot(s, i, FreeGeneration(x, notify), x, s.slots[x].(phase := Initializing)).(
          log := s.log + [DidFree(i, x, s.slots[x].generation)])
    case FreeGeneration(x, notify) =>
      var generation := s.slots[x].generation;
      At(s, i, FreeCallback(x, notify, generation, Visible(th.values[x], generation)))
    case FreeCallback(x, notify, generation, value) =>
      Store(s, i, FreeClear(x, notify, generation, value, s.slots[x].callback), LocalValue(NULL, 0))
    case FreeClear(x, notify, generation, value, callback) =>
      WriteSlot(s, i, FreeNotify(x, notify, generation, value, callback), x, s.slots[x].(callback := 0))
    case FreeNotify(x, notify, generation, value, callback) =>
      if notify && callback != 0 && value != NULL then
        At(s, i, FreePublish(x)).(log := s.log + [DidNotify(i, x, generation, callback, value)])
      else At(s, i, FreePublish(x))
    case FreePublish(x) => WriteSlot(s, i, Idle, x, s.slots[x].(phase := Free))
    case ReadBefore(x, access) => At(s, i, ReadPhase(x, access, s.slots[x].generation))
    case ReadPhase(x, access, before) =>
      if !s.slots[x].phase.Allocated? then Return(s, i, Refused(i, x, th.seen)) else At(s, i, ReadAfter(x, access, before))
    case ReadAfter(x, access, before) =>
      if s.slots[x].generation != before then At(s, i, ReadBefore(x, access))
      else
        (match access
         case Getting => At(s, i, Claim(x, access, before, Visible(th.values[x], before)))
         case Setting(value) => Store(s, i, Claim(x, access, before, value), LocalValue(value, before)))
    case Claim(x, access, generation, value) =>
      if !s.slots[x].phase.Allocated? then Fail(s, i)
      else At(s, i, Confirm(x, access, generation, value, s.slots[x].generation))
    case Confirm(x, access, generation, value, live) =>
      if s.slots[x].generation != generation then Fail(s, i)
      else Return(s, i, if access.Getting? then DidGet(i, x, live, value, th.seen) else DidSet(i, x, live, value, th.seen))
  }

  datatype Call = Alloc(callback: nat) | FreeIndex(index: nat, notify: bool) | AccessIndex(index: nat, access: Access)

  function Start(s: State, i: nat, call: Call): State
    requires i < |s.threads|
  {
    match call
    case Alloc(callback) => At(s, i, AllocScan(0, callback))
    case FreeIndex(x, notify) => Enter(s, i, x, FreeClaim(x, notify))
    case AccessIndex(x, access) => Enter(s, i, x, ReadBefore(x, access))
  }

  function Enter(s: State, i: nat, index: nat, pc: Pc): State
    requires i < |s.threads|
  {
    if index >= SLOT_COUNT then s.(log := s.log + [Refused(i, index, {None})])
    else s.(threads := s.threads[i := s.threads[i].(pc := pc, seen := {})])
  }

  /** After every step, each thread inside a call notes the status of the index it works on. */
  function Watch(slots: seq<LocalSlot>, th: Thread): Thread {
    if Accesses(th.pc) then th.(seen := th.seen + {Live(slots, th.pc.index)}) else th
  }

  function Observe(s: State): State {
    s.(threads := seq(|s.threads|, j requires 0 <= j < |s.threads| => Watch(s.slots, s.threads[j])))
  }

  datatype Event = Proceed(thread: nat) | Begin(thread: nat, call: Call)

  predicate Enabled(s: State, e: Event) {
    WellShaped(s) && e.thread < |s.threads| && (e.Begin? ==> s.threads[e.thread].pc.Idle?)
  }

  function Apply(s: State, e: Event): State
    requires Enabled(s, e)
  {
    match e
    case Proceed(i) => Observe(Next(s, i))
    case Begin(i, call) => Observe(Start(s, i, call))
  }

  ghost predicate IsRun(run: seq<State>, events: seq<Event>) {
    && |run| == |events| + 1
    && (exists threads: nat :: run[0] == Initial(threads))
    && forall k :: 0 <= k < |events| ==> Enabled(run[k], events[k]) && run[k + 1] == Apply(run[k], events[k])
  }

  // What the log says

  datatype Allocation = Allocation(generation: nat, callback: nat)

  /** The latest allocation of an index, freed or not. */
  function Latest(log: seq<Entry>, index: nat): Allocation {
    if log == [] then Allocation(0, 0)
    else
      var e := log[|log| - 1];
      if e.DidAlloc? && e.index == index then Allocation(e.generation, e.callback) else Latest(log[..|log| - 1], index)
  }

  /** The index is allocated and not yet freed. */
  predicate Owned(log: seq<Entry>, index: nat) {
    if log == [] then false
    else
      var e := log[|log| - 1];
      if e.DidAlloc? && e.index == index then true
      else if e.DidFree? && e.index == index then false
      else Owned(log[..|log| - 1], index)
  }

  /** What a thread last set at an index under a generation. */
  function Held(log: seq<Entry>, thread: nat, index: nat, generation: nat): nat {
    if log == [] then NULL
    else
      var e := log[|log| - 1];
      if e.DidSet? && e.thread == thread && e.index == index && e.generation == generation then e.value
      else Held(log[..|log| - 1], thread, index, generation)
  }

  /** What the log before an entry says of it, at the step that logs it. */
  ghost predicate Fits(log: seq<Entry>, e: Entry) {
    match e
    case DidAlloc(_, x, g, _) =>
      !Owned(log, x) && Latest(log, x).generation < g && forall t: nat :: Held(log, t, x, g) == NULL
    case DidFree(_, x, g) => Owned(log, x) && Latest(log, x).generation == g
    case DidNotify(t, x, g, callback, v) =>
      !Owned(log, x) && Latest(log, x) == Allocation(g, callback) && callback != 0 && v != NULL && v == Held(log, t, x, g)
    case DidSet(_, _, g, _, seen) => Some(g) in seen
    case DidGet(t, x, g, v, seen) => Some(g) in seen && v == Held(log, t, x, g)
    case Refused(_, _, seen) => None in seen
    case OutOfIndexes(_) => true
  }

  ghost predicate Orderly(log: seq<Entry>) {
    forall k :: 0 <= k < |log| ==> Fits(log[..k], log[k])
  }
}
