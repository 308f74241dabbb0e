/**
 * What the second pass does and answers, stated on the frames it met and on what their
 * handlers answered.
 */
module UnwindPass {
  import opened Bytes
  import opened Context
  import opened UnwindImage
  import opened UnwindFrame
  import opened UnwindWalk
  import opened SearchPass
  import Table = FunctionTable

  /** One frame of the table unwound, with the handler it has for unwinding. */
  function LeftFrom(e: Unwind, context: Cpu, memory: Memory): Outcome<Unwinding> {
    match LookupFunction(e.registry, context.rip)
    case Found(module_, index) =>
      if module_ < |e.registry| then VirtualUnwind(e.registry[module_], 2, context.rip, index, context, e.stack, memory)
      else Fail(InvalidArgument)
    case _ => Fail(InvalidArgument)
  }

  /** A valid frame address, and a PC in a module. */
  ghost predicate OnStack(e: Unwind, context: Cpu) {
    OnFrame(e.stack, context.Rsp()) && ResolveAddress(e.registry, context.rip).Some?
  }

  /** It unwinds upwards to a frame on the stack. */
  ghost predicate UnwindsUp(e: Unwind, context: Cpu, memory: Memory) {
    var u := LeftFrom(e, context, memory);
    u.Ok? && context.Rsp() < u.value.cpu.Rsp() && OnFrame(e.stack, u.value.establisher)
  }

  ghost predicate Beyond(e: Unwind, context: Cpu, memory: Memory) {
    UnwindsUp(e, context, memory) && e.target != 0 && LeftFrom(e, context, memory).value.establisher > e.target
  }

  ghost predicate CanLeave(e: Unwind, context: Cpu, memory: Memory) {
    && OnStack(e, context)
    && (LookupFunction(e.registry, context.rip).NoEntry? ||
        (UnwindsUp(e, context, memory) && !Beyond(e, context, memory)))
  }

  /**
   * The frame is the context's own. Its handler, if it has one for unwinding, is called
   * with the unwind flags, those of the target frame marked, with the frame's PC, table
   * entry and establisher, the target address, and the frame's own context in which RAX
   * already holds the return value.
   */
  ghost predicate Left(e: Unwind, visit: Visit, memory: Memory) {
    && CanLeave(e, visit.context, memory)
    && var found := LookupFunction(e.registry, visit.context.rip);
       match visit
       case LeafVisit(_) => found.NoEntry?
       case TableVisit(context, establisher, call) =>
         && found.Found?
         && var u := LeftFrom(e, context, memory).value;
            var own := context.WithInteger(RAX, e.returnValue);
            && establisher == u.establisher
            && call == if u.handler.None? then None
                       else Some(HandlerCall(e.flags + (if e.target != 0 && establisher == e.target then 32 else 0), establisher, own, own,
                                             context.rip, found.moduleIndex, found.entryIndex, e.targetIp, u.handler.value, memory))
  }

  /** The frame's own caller, whatever its handler did to its context. */
  function Above(e: Unwind, visit: Visit, memory: Memory): Outcome<Cpu> {
    if visit.LeafVisit? then UnwindLeaf(visit.context, e.stack, memory)
    else
      var u :- LeftFrom(e, visit.context, memory);
      Ok(u.cpu)
  }

  predicate SearchesOn(e: Unwind, visit: Visit) {
    CallOf(visit).None? || e.handlers(CallOf(visit).value).disposition == 1
  }

  predicate AtItsTarget(e: Unwind, visit: Visit) {
    e.target != 0 && visit.Frame() == e.target
  }

  /** The walk goes past the frame: it is not the target, its handler agrees, and it has a caller further up. */
  predicate GoesPast(e: Unwind, visit: Visit, memory: Memory) {
    && !AtItsTarget(e, visit) && SearchesOn(e, visit)
    && Above(e, visit, memory).Ok? && visit.context.Rsp() < Above(e, visit, memory).value.Rsp()
  }

  predicate Chained(e: Unwind, visit: Visit, next: Cpu, memory: Memory) {
    GoesPast(e, visit, memory) && Above(e, visit, memory) == Ok(next)
  }

  ghost predicate Unwound(e: Unwind, walking: Cpu, memory: Memory, visits: seq<Visit>) {
    && (visits != [] ==> visits[0].context == walking)
    && (forall k :: 0 <= k < |visits| ==> Left(e, visits[k], MemoryBefore(e.handlers, memory, visits, k)))
    && (forall k :: 0 <= k < |visits| - 1 ==> Chained(e, visits[k], visits[k + 1].context, MemoryBefore(e.handlers, memory, visits, k)))
  }

  predicate AllPast(e: Unwind, memory: Memory, visits: seq<Visit>) {
    visits == [] || GoesPast(e, visits[|visits| - 1], MemoryBefore(e.handlers, memory, visits, |visits| - 1))
  }

  function Ahead2(e: Unwind, walking: Cpu, memory: Memory, visits: seq<Visit>): Outcome<Cpu> {
    if visits == [] then Ok(walking) else Above(e, visits[|visits| - 1], MemoryBefore(e.handlers, memory, visits, |visits| - 1))
  }

  /** The frame's context as its handler left it, with the return value in RAX and the target address in RIP. */
  predicate ResumesAt(e: Unwind, visit: Visit, result: Cpu) {
    var left := if CallOf(visit).None? then visit.context else e.handlers(CallOf(visit).value).context;
    && result.rip == e.targetIp && result.integer[RAX] == e.returnValue
    && (forall r: nat :: r < 16 && r != RAX ==> result.integer[r] == left.integer[r])
    && result.xmm == left.xmm && result.eFlags == left.eFlags && result.segCs == left.segCs && result.segSs == left.segSs
  }

  /** Why a frame that no visit could be paid to ends the walk. */
  ghost predicate EndsAhead(e: Unwind, context: Cpu, memory: Memory, status: Status) {
    && !CanLeave(e, context, memory)
    && match status
       case NotImplemented => OnFrame(e.stack, context.Rsp()) && ResolveAddress(e.registry, context.rip).None? && e.target == 0
       case InvalidState =>
         && OnFrame(e.stack, context.Rsp())
         && if ResolveAddress(e.registry, context.rip).None? then e.target != 0 else Beyond(e, context, memory)
       case LimitReached => OnStack(e, context) && LeftFrom(e, context, memory) == Fail(ChainTooLong)
       case BadArgument => OnStack(e, context) && LookupFunction(e.registry, context.rip).Found? && LeftFrom(e, context, memory) == Fail(InvalidArgument)
       case InvalidImage =>
         || !OnFrame(e.stack, context.Rsp())
         || (OnStack(e, context) && !Beyond(e, context, memory) &&
             (LookupFunction(e.registry, context.rip).BadTable? ||
              (LeftFrom(e, context, memory) != Fail(ChainTooLong) && LeftFrom(e, context, memory) != Fail(InvalidArgument))))
       case _ => false
  }

  /** Why the last frame met ends the walk. */
  predicate EndsHere(e: Unwind, visit: Visit, memory: Memory, status: Status) {
    && !GoesPast(e, visit, memory)
    && match status
       case Reached => AtItsTarget(e, visit) && SearchesOn(e, visit)
       case NotImplemented => !SearchesOn(e, visit) && e.handlers(CallOf(visit).value).disposition == 3
       case InvalidState => !SearchesOn(e, visit) && e.handlers(CallOf(visit).value).disposition != 3
       case InvalidImage => !AtItsTarget(e, visit) && SearchesOn(e, visit)
       case _ => false
  }

  /** The answer, told by what was met. */
  ghost predicate EndsFor(e: Unwind, walking: Cpu, memory: Memory, limit: nat, w: Walked) {
    var n := |w.visits|;
    var left := MemoryBefore(e.handlers, memory, w.visits, n);
    && n <= limit && w.memory == left
    && (if !AllPast(e, memory, w.visits) then
          EndsHere(e, w.visits[n - 1], MemoryBefore(e.handlers, memory, w.visits, n - 1), w.status)
        else if n == limit then w.status == LimitReached
        else Ahead2(e, walking, memory, w.visits).Ok? && EndsAhead(e, Ahead2(e, walking, memory, w.visits).value, left, w.status))
    && (w.result.Some? <==> w.status == Reached)
    && (w.status == Reached ==> n > 0 && ResumesAt(e, w.visits[n - 1], w.result.value))
  }

  // One frame

  ghost predicate Steps(e: Unwind, walking: Cpu, memory: Memory, step: Step) {
    if step.Next? then
      && step.visit.context == walking && Left(e, step.visit, memory) && Chained(e, step.visit, step.caller, memory)
      && step.memory == MemoryBefore(e.handlers, memory, [step.visit], 1)
    else if step.visits == [] then EndsAhead(e, walking, memory, step.status) && step.result == None && step.memory == memory
    else
      && |step.visits| == 1 && step.visits[0].context == walking && Left(e, step.visits[0], memory)
      && EndsHere(e, step.visits[0], memory, step.status)
      && step.memory == MemoryBefore(e.handlers, memory, step.visits, 1)
      && (step.result.Some? <==> step.status == Reached)
      && (step.result.Some? ==> ResumesAt(e, step.visits[0], step.result.value))
  }

  lemma ResumesInPlace(e: Unwind, context: Cpu, visit: Visit)
    requires context == if CallOf(visit).None? then visit.context else e.handlers(CallOf(visit).value).context
    ensures ResumesAt(e, visit, AtTarget(e, context))
  {
  }

  lemma LeafLeaves(e: Unwind, walking: Cpu, memory: Memory)
    requires OnFrame(e.stack, walking.Rsp()) && ResolveAddress(e.registry, walking.rip).Some?
    requires LookupFunction(e.registry, walking.rip).NoEntry?
    ensures Steps(e, walking, memory, LeafStep(e, walking, memory))
  {
    hide ResolveAddress, LookupFunction, VirtualUnwind, UnwindLeaf, MemoryBefore, ResumesAt, AtTarget;
    BeforeOne(e.handlers, walking, memory, [LeafVisit(walking)]);
    ResumesInPlace(e, walking, LeafVisit(walking));
  }

  lemma TableLeaves(e: Unwind, walking: Cpu, memory: Memory, containing: nat, found: Lookup)
    requires OnFrame(e.stack, walking.Rsp()) && ResolveAddress(e.registry, walking.rip) == Some(containing) && containing < |e.registry|
    requires found.Found? && found == LookupFunction(e.registry, walking.rip) && found.moduleIndex == containing
    ensures Steps(e, walking, memory, TableStep(e, walking, containing, found, memory))
  {
    hide ResolveAddress, LookupFunction, VirtualUnwind, UnwindLeaf, MemoryBefore, ResumesAt, AtTarget;
    var step := TableStep(e, walking, containing, found, memory);
    assert LeftFrom(e, walking, memory) ==
           VirtualUnwind(e.registry[containing], UHANDLER, walking.rip, found.entryIndex, walking, e.stack, memory);
    if step.Next? {
      BeforeOne(e.handlers, walking, memory, [step.visit]);
    } else if step.visits != [] {
      BeforeOne(e.handlers, walking, memory, step.visits);
      var call := CallOf(step.visits[0]);
      ResumesInPlace(e, if call.None? then walking else e.handlers(call.value).context, step.visits[0]);
    }
  }

  lemma StepLeaves(e: Unwind, walking: Cpu, memory: Memory)
    ensures Steps(e, walking, memory, SecondStep(e, walking, memory))
  {
    hide ResolveAddress, LookupFunction, VirtualUnwind, LeafStep, TableStep;
    var containing, found := ResolveAddress(e.registry, walking.rip), LookupFunction(e.registry, walking.rip);
    if OnFrame(e.stack, walking.Rsp()) && containing.Some? {
      if found.NoEntry? {
        LeafLeaves(e, walking, memory);
      } else if found.Found? {
        FoundEntryContains(e.registry, walking.rip);
        FoundWhereResolved(e.registry, walking.rip);
        TableLeaves(e, walking, memory, containing.value, found);
      }
    }
  }

  lemma FoundWhereResolved(registry: Registry, pc: uint64)
    requires LookupFunction(registry, pc).Found?
    ensures ResolveAddress(registry, pc) == Some(LookupFunction(registry, pc).moduleIndex)
  {
    hide ResolveAddress, ScanTable, ExceptionTable;
  }

  // The whole walk

  lemma UnwoundOn(e: Unwind, memory: Memory, visit: Visit, caller: Cpu, rest: seq<Visit>)
    requires Left(e, visit, memory) && Chained(e, visit, caller, memory)
    requires Unwound(e, caller, MemoryBefore(e.handlers, memory, [visit], 1), rest)
    ensures Unwound(e, visit.context, memory, [visit] + rest)
  {
    hide Left, Chained, MemoryBefore;
    var all, context := [visit] + rest, visit.context;
    BeforeStarts(e.handlers, context, memory, all);
    forall k | 0 <= k < |all|
      ensures Left(e, all[k], MemoryBefore(e.handlers, memory, all, k))
    {
      if k > 0 {
        BeforeShifts(e.handlers, context, memory, visit, rest, k - 1);
        assert all[k] == rest[k - 1];
      }
    }
    forall k | 0 <= k < |all| - 1
      ensures Chained(e, all[k], all[k + 1].context, MemoryBefore(e.handlers, memory, all, k))
    {
      if k > 0 {
        BeforeShifts(e.handlers, context, memory, visit, rest, k - 1);
        assert all[k] == rest[k - 1] && all[k + 1] == rest[k];
      } else {
        assert all[1] == rest[0];
      }
    }
  }

  lemma EndsOn(e: Unwind, memory: Memory, visit: Visit, caller: Cpu, limit: nat, w: Walked)
    requires limit > 0 && Chained(e, visit, caller, memory)
    requires EndsFor(e, caller, MemoryBefore(e.handlers, memory, [visit], 1), limit - 1, w)
    ensures EndsFor(e, visit.context, memory, limit, w.(visits := [visit] + w.visits))
  {
    hide GoesPast, Above, MemoryBefore, EndsAhead, EndsHere, ResumesAt;
    var all, n, context := [visit] + w.visits, |w.visits|, visit.context;
    BeforeShifts(e.handlers, context, memory, visit, w.visits, n);
    if n == 0 {
      BeforeStarts(e.handlers, context, memory, all);
      BeforeStarts(e.handlers, context, MemoryBefore(e.handlers, memory, [visit], 1), w.visits);
      assert all[|all| - 1] == visit;
    } else {
      BeforeShifts(e.handlers, context, memory, visit, w.visits, n - 1);
      assert all[|all| - 1] == w.visits[n - 1];
    }
  }

  lemma StopEnds(e: Unwind, walking: Cpu, memory: Memory, limit: nat, step: Step)
    requires limit > 0 && step.Stop? && Steps(e, walking, memory, step)
    ensures var w := Walked(step.status, step.result, step.visits, step.memory);
            Unwound(e, walking, memory, w.visits) && EndsFor(e, walking, memory, limit, w)
  {
    hide GoesPast, Above, CanLeave, OnStack, Beyond, ResolveAddress, LookupFunction, LeftFrom, MemoryBefore, ResumesAt,
         Left, AtItsTarget, SearchesOn;
    BeforeStarts(e.handlers, walking, memory, step.visits);
  }

  lemma LimitEnds(e: Unwind, walking: Cpu, memory: Memory)
    ensures var w := Walked(LimitReached, None, [], memory);
            Unwound(e, walking, memory, w.visits) && EndsFor(e, walking, memory, 0, w)
  {
    BeforeStarts(e.handlers, walking, memory, []);
  }

  lemma {:induction false} UnwindFrom(e: Unwind, depth: nat, walking: Cpu, memory: Memory)
    requires depth <= MAX_FRAMES
    ensures var w := SecondPass(e, depth, walking, memory);
            Unwound(e, walking, memory, w.visits) && EndsFor(e, walking, memory, MAX_FRAMES - depth, w)
    decreases MAX_FRAMES - depth
  {
    hide SecondStep, Steps, Unwound, EndsFor, Left, Chained, MemoryBefore, ResumesAt;
    if depth == MAX_FRAMES {
      LimitEnds(e, walking, memory);
    } else {
      StepLeaves(e, walking, memory);
      var step := SecondStep(e, walking, memory);
      if step.Stop? {
        StopEnds(e, walking, memory, MAX_FRAMES - depth, step);
      } else {
        var rest := SecondPass(e, depth + 1, step.caller, step.memory);
        UnwindFrom(e, depth + 1, step.caller, step.memory);
        NextLeaves(e, walking, memory, step);
        UnwoundOn(e, memory, step.visit, step.caller, rest.visits);
        EndsOn(e, memory, step.visit, step.caller, MAX_FRAMES - depth, rest);
      }
    }
  }

  lemma NextLeaves(e: Unwind, walking: Cpu, memory: Memory, step: Step)
    requires step.Next? && Steps(e, walking, memory, step)
    ensures step.visit.context == walking && Left(e, step.visit, memory) && Chained(e, step.visit, step.caller, memory)
    ensures step.memory == MemoryBefore(e.handlers, memory, [step.visit], 1)
  {
    hide Left, Chained, MemoryBefore;
  }

  /**
   * Every run of the second pass, whatever the handlers do. It leaves frame after frame
   * by the frames' own callers, with each frame's own data given to its handler. It
   * succeeds exactly at the target frame, once that frame's handler agrees, with that
   * frame's context as the handler left it but for RAX and RIP; every other status has
   * its exact cause.
   */
  lemma UnwindAnswers(e: Unwind, context: Cpu, memory: Memory)
    ensures var w := SecondPass(e, 0, context, memory);
            Unwound(e, context, memory, w.visits) && EndsFor(e, context, memory, 256, w)
  {
    UnwindFrom(e, 0, context, memory);
  }

  // The whole call

  /** The address is in the mapping of some PE module. */
  ghost predicate InModule(registry: Registry, address: uint64) {
    exists k :: 0 <= k < |registry| && Table.Holds(registry[k], address)
  }

  /** A target that may be unwound to: a frame not below the context's, and an address in a module. */
  ghost predicate IsTargetable(e: Unwind, context: Cpu) {
    OnFrame(e.stack, e.target) && context.integer[4] <= e.target && e.targetIp != 0 && InModule(e.registry, e.targetIp)
  }

  /**
   * sl_win64_unwind_to_frame as a whole. It walks exactly when the context's RSP may
   * name a frame and the target, if there is one, may be unwound to; the flags then say
   * that this is an unwind, that it has no target, and whether the exception was
   * continuable. Otherwise nothing is walked, and an address outside every module is
   * told from every other bad argument.
   */
  lemma UnwindCallAnswers(e: Unwind, flags: nat, context: Cpu)
    requires e.flags == UnwindFlags(flags, e.target)
    ensures Refused(e, context) == None <==> OnFrame(e.stack, context.integer[4]) && (e.target != 0 ==> IsTargetable(e, context))
    ensures Refused(e, context) == Some(OutOfRange) <==>
            && OnFrame(e.stack, context.integer[4]) && e.target != 0
            && OnFrame(e.stack, e.target) && context.integer[4] <= e.target && e.targetIp != 0 && !InModule(e.registry, e.targetIp)
    ensures Refused(e, context).Some? ==> Refused(e, context).value in {OutOfRange, BadArgument}
    ensures e.flags == (if flags % 2 == 1 then 1 else 0) + 2 + (if e.target == 0 then 4 else 0)
  {
    hide ResolveAddress;
    Table.OwnerIsFirst(e.registry, e.targetIp);
    assert ResolveAddress(e.registry, e.targetIp).Some? ==> InModule(e.registry, e.targetIp);
  }
}
