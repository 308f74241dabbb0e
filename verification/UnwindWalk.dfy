/** The two passes of exception handling: dispatch to handlers, then unwind to the target frame. */
module UnwindWalk {
  import opened Bytes
  import opened Context
  import opened UnwindApply
  import opened UnwindImage
  import opened UnwindFrame

  const MAX_FRAMES: nat := 256
  const CONTINUE_EXECUTION: int := 0
  const CONTINUE_SEARCH: int := 1
  const COLLIDED_UNWIND: int := 3
  const FILTER_CONTINUE_EXECUTION: int := -1
  const NONCONTINUABLE: nat := 1
  const UNWINDING: nat := 2
  const EXIT_UNWIND: nat := 4
  const TARGET_UNWIND: nat := 32

  datatype Status = Reached | BadArgument | OutOfRange | InvalidImage | NotImplemented | InvalidState | LimitReached

  function StatusOf(reason: Reason): Status {
    if reason.InvalidArgument? then BadArgument else if reason.ChainTooLong? then LimitReached else InvalidImage
  }

  /** Everything a language handler is given. */
  datatype HandlerCall = HandlerCall(flags: nat, establisher: uint64, context: Cpu, dispatcherContext: Cpu, controlPc: uint64,
                                     moduleIndex: nat, entryIndex: nat, targetIp: uint64, handler: Handler, memory: Memory)

  /** Everything it may change. */
  datatype HandlerOutcome = HandlerOutcome(disposition: int, context: Cpu, dispatcherContext: Cpu, memory: Memory)

  type Handlers = HandlerCall -> HandlerOutcome

  /** A frame met by a pass: the context it was met with, and the handler call made for it. */
  datatype Visit =
    | LeafVisit(context: Cpu)
    | TableVisit(context: Cpu, establisher: uint64, call: Option<HandlerCall>)
  {
    function Frame(): uint64 { if LeafVisit? then context.Rsp() else establisher }
  }

  predicate SameVisit(a: Visit, b: Visit) {
    a.LeafVisit? == b.LeafVisit? && a.context == b.context && a.Frame() == b.Frame()
  }

  // The second pass

  datatype Unwind = Unwind(registry: Registry, target: uint64, targetIp: uint64, returnValue: uint64, flags: nat,
                           stack: Bounds, handlers: Handlers)

  /** One frame of the second pass: an end of the walk, or the caller to go on with. */
  datatype Step =
    | Stop(status: Status, result: Option<Cpu>, visits: seq<Visit>, memory: Memory)
    | Next(visit: Visit, caller: Cpu, memory: Memory)

  datatype Walked = Walked(status: Status, result: Option<Cpu>, visits: seq<Visit>, memory: Memory)

  function AtTarget(e: Unwind, context: Cpu): Cpu {
    context.WithInteger(RAX, e.returnValue).(rip := e.targetIp)
  }

  predicate IsTarget(e: Unwind, establisher: uint64) {
    e.target != 0 && establisher == e.target
  }

  function CallFor(e: Unwind, walking: Cpu, found: Lookup, u: Unwinding, memory: Memory): HandlerCall
    requires found.Found? && u.handler.Some?
  {
    var context := walking.WithInteger(RAX, e.returnValue);
    HandlerCall(e.flags + (if IsTarget(e, u.establisher) then TARGET_UNWIND else 0), u.establisher, context, context, walking.rip,
                found.moduleIndex, found.entryIndex, e.targetIp, u.handler.value, memory)
  }

  function LeafStep(e: Unwind, walking: Cpu, memory: Memory): Step {
    var visit := LeafVisit(walking);
    if IsTarget(e, walking.Rsp()) then Stop(Reached, Some(AtTarget(e, walking)), [visit], memory)
    else
      match UnwindLeaf(walking, e.stack, memory)
      case Fail(_) => Stop(InvalidImage, None, [visit], memory)
      case Ok(caller) =>
        if caller.Rsp() <= walking.Rsp() then Stop(InvalidImage, None, [visit], memory) else Next(visit, caller, memory)
  }

  /** A table frame at or below the target: run its handler, then stop or go on. */
  function HandlerStep(e: Unwind, walking: Cpu, found: Lookup, u: Unwinding, memory: Memory): Step
    requires found.Found?
  {
    if u.handler.None? then
      var visit := TableVisit(walking, u.establisher, None);
      if IsTarget(e, u.establisher) then Stop(Reached, Some(AtTarget(e, walking)), [visit], memory) else Next(visit, u.cpu, memory)
    else
      var call := CallFor(e, walking, found, u, memory);
      var outcome := e.handlers(call);
      var visit := TableVisit(walking, u.establisher, Some(call));
      if outcome.disposition != CONTINUE_SEARCH then
        Stop(if outcome.disposition == COLLIDED_UNWIND then NotImplemented else InvalidState, None, [visit], outcome.memory)
      else if IsTarget(e, u.establisher) then Stop(Reached, Some(AtTarget(e, outcome.context)), [visit], outcome.memory)
      else Next(visit, u.cpu, outcome.memory)
  }

  function TableStep(e: Unwind, walking: Cpu, containing: nat, found: Lookup, memory: Memory): Step
    requires found.Found? && containing < |e.registry|
  {
    if found.moduleIndex != containing then Stop(Reached, None, [], memory)
    else
      match VirtualUnwind(e.registry[containing], UHANDLER, walking.rip, found.entryIndex, walking, e.stack, memory)
      case Fail(reason) => Stop(StatusOf(reason), None, [], memory)
      case Ok(u) =>
        if u.cpu.Rsp() <= walking.Rsp() || !e.stack.FrameIsValid(u.establisher) then Stop(InvalidImage, None, [], memory)
        else if e.target != 0 && u.establisher > e.target then Stop(InvalidState, None, [], memory)
        else HandlerStep(e, walking, found, u, memory)
  }

  function SecondStep(e: Unwind, walking: Cpu, memory: Memory): Step {
    if !e.stack.FrameIsValid(walking.Rsp()) then Stop(InvalidImage, None, [], memory)
    else
      match ResolveAddress(e.registry, walking.rip)
      case None => Stop(if e.target == 0 then NotImplemented else InvalidState, None, [], memory)
      case Some(containing) =>
        var found := LookupFunction(e.registry, walking.rip);
        if found.BadTable? then Stop(InvalidImage, None, [], memory)
        else if found.NoEntry? then LeafStep(e, walking, memory)
        else TableStep(e, walking, containing, found, memory)
  }

  function SecondPass(e: Unwind, depth: nat, walking: Cpu, memory: Memory): Walked
    requires depth <= MAX_FRAMES
    decreases MAX_FRAMES - depth
  {
    if depth == MAX_FRAMES then Walked(LimitReached, None, [], memory)
    else
      match SecondStep(e, walking, memory)
      case Stop(status, result, visits, memory') => Walked(status, result, visits, memory')
      case Next(visit, caller, memory') =>
        var rest := SecondPass(e, depth + 1, caller, memory');
        rest.(visits := [visit] + rest.visits)
  }

  function UnwindFlags(flags: nat, target: uint64): nat {
    flags % 2 * NONCONTINUABLE + UNWINDING + (if target == 0 then EXIT_UNWIND else 0)
  }

  /** The argument checks before the walk. */
  function Refused(e: Unwind, context: Cpu): Option<Status> {
    if !e.stack.FrameIsValid(context.Rsp()) then Some(BadArgument)
    else if e.target != 0 && (!e.stack.FrameIsValid(e.target) || e.target < context.Rsp() || e.targetIp == 0) then Some(BadArgument)
    else if e.target != 0 && ResolveAddress(e.registry, e.targetIp).None? then Some(OutOfRange)
    else None
  }

  /** The exception record; only its flags take part here. */
  class ExceptionRecord {
    var flags: nat

    constructor (flags: nat)
      ensures this.flags == flags
    {
      this.flags := flags;
    }
  }

  /** The end of one frame: the state a method leaves matches the step of the specification. */
  ghost predicate Took(step: Step, done: Option<Status>, memory: Memory, visits: seq<Visit>, walking: Cpu, targetBefore: Cpu, targetAfter: Cpu) {
    match step
    case Stop(status, result, v, m) =>
      && done == Some(status) && memory == m && visits == v
      && targetAfter == if result.Some? then result.value else targetBefore
    case Next(v, caller, m) =>
      && done == None && memory == m && visits == [v] && walking == caller
      && targetAfter == targetBefore
  }

  method Arrive(e: Unwind, walking: ContextRecord, targetContext: ContextRecord)
    requires walking != targetContext
    modifies targetContext
    ensures targetContext.Value() == AtTarget(e, walking.Value())
  {
    targetContext.Assign(walking.Value());
    targetContext.integer := targetContext.integer[RAX := e.returnValue];
    targetContext.rip := e.targetIp;
  }

  method UnwindLeafStep(e: Unwind, walking: ContextRecord, memory: Memory, targetContext: ContextRecord)
    returns (done: Option<Status>, ghost visits: seq<Visit>)
    requires walking != targetContext
    modifies walking, targetContext
    ensures Took(LeafStep(e, old(walking.Value()), memory), done, memory, visits, walking.Value(), old(targetContext.Value()), targetContext.Value())
  {
    hide UnwindLeaf;
    visits := [LeafVisit(walking.Value())];
    if e.target != 0 && walking.integer[RSP] == e.target {
      Arrive(e, walking, targetContext);
      return Some(Reached), visits;
    }
    var previousRsp := walking.integer[RSP];
    var failure := UnwindLeafFrame(walking, e.stack, memory);
    if failure.Some? || walking.integer[RSP] <= previousRsp {
      return Some(InvalidImage), visits;
    }
    done := None;
  }

  method RunTerminationHandler(e: Unwind, walking: ContextRecord, caller: ContextRecord, found: Lookup, establisher: uint64,
                               handler: Option<Handler>, memoryBefore: Memory, record: ExceptionRecord, targetContext: ContextRecord)
    returns (done: Option<Status>, memory: Memory, ghost visits: seq<Visit>)
    requires found.Found? && record.flags == e.flags
    requires walking != targetContext && caller != targetContext && caller != walking
    modifies record, walking, targetContext
    ensures record.flags == e.flags
    ensures Took(HandlerStep(e, old(walking.Value()), found, Unwinding(old(caller.Value()), establisher, handler), memoryBefore),
                 done, memory, visits, walking.Value(), old(targetContext.Value()), targetContext.Value())
  {
    var atTarget := e.target != 0 && establisher == e.target;
    memory := memoryBefore;
    ghost var u := Unwinding(caller.Value(), establisher, handler);
    if handler.None? {
      visits := [TableVisit(walking.Value(), establisher, None)];
    } else {
      visits := [TableVisit(walking.Value(), establisher, Some(CallFor(e, walking.Value(), found, u, memory)))];
      if atTarget {
        record.flags := record.flags + TARGET_UNWIND;
      }
      walking.integer := walking.integer[RAX := e.returnValue];
      var outcome := e.handlers(HandlerCall(record.flags, establisher, walking.Value(), walking.Value(), walking.rip, found.moduleIndex,
                                            found.entryIndex, e.targetIp, handler.value, memory));
      walking.Assign(outcome.context);
      memory := outcome.memory;
      record.flags := e.flags;
      if outcome.disposition != CONTINUE_SEARCH {
        return Some(if outcome.disposition == COLLIDED_UNWIND then NotImplemented else InvalidState), memory, visits;
      }
    }
    if atTarget {
      Arrive(e, walking, targetContext);
      return Some(Reached), memory, visits;
    }
    walking.Assign(caller.Value());
    done := None;
  }

  method UnwindOneFrame(e: Unwind, walking: ContextRecord, memoryBefore: Memory, record: ExceptionRecord, targetContext: ContextRecord)
    returns (done: Option<Status>, memory: Memory, ghost visits: seq<Visit>)
    requires walking != targetContext && record.flags == e.flags
    modifies record, walking, targetContext
    ensures record.flags == e.flags
    ensures Took(SecondStep(e, old(walking.Value()), memoryBefore), done, memory, visits, walking.Value(), old(targetContext.Value()), targetContext.Value())
  {
    hide ResolveAddress, LookupFunction, VirtualUnwind, LeafStep, HandlerStep;
    memory, visits := memoryBefore, [];
    if !e.stack.FrameIsValid(walking.integer[RSP]) {
      return Some(InvalidImage), memory, visits;
    }
    var containing := ResolveModuleAddress(e.registry, walking.rip);
    if containing.None? {
      return Some(if e.target == 0 then NotImplemented else InvalidState), memory, visits;
    }
    var found := LookupFunctionEntry(e.registry, walking.rip);
    if found.NoEntry? {
      done, visits := UnwindLeafStep(e, walking, memory, targetContext);
      return;
    }
    if found.BadTable? {
      return Some(InvalidImage), memory, visits;
    }
    if found.moduleIndex != containing.value {
      return Some(Reached), memory, visits;
    }
    var caller := new ContextRecord(walking.Value());
    var failure, establisher, handler := VirtualUnwindFrame(e.registry[containing.value], UHANDLER, walking.rip, found.entryIndex,
                                                            caller, e.stack, memory);
    if failure.Some? {
      return Some(StatusOf(failure.value)), memory, visits;
    }
    if caller.integer[RSP] <= walking.integer[RSP] || !e.stack.FrameIsValid(establisher) {
      return Some(InvalidImage), memory, visits;
    }
    if e.target != 0 && establisher > e.target {
      return Some(InvalidState), memory, visits;
    }
    done, memory, visits := RunTerminationHandler(e, walking, caller, found, establisher, handler, memory, record, targetContext);
  }

  method UnwindToFrame(registry: Registry, target: uint64, targetIp: uint64, record: ExceptionRecord, returnValue: uint64,
                       context: ContextRecord, stack: Bounds, memoryBefore: Memory, handlers: Handlers, targetContext: ContextRecord)
    returns (status: Status, memory: Memory, ghost visits: seq<Visit>)
    requires context != targetContext
    modifies record, targetContext
    ensures var e := Unwind(registry, target, targetIp, returnValue, UnwindFlags(old(record.flags), target), stack, handlers);
            var refused := Refused(e, context.Value());
            if refused.Some? then
              status == refused.value && record.flags == old(record.flags) && visits == [] && memory == memoryBefore
              && targetContext.Value() == old(targetContext.Value())
            else
              var walked := SecondPass(e, 0, context.Value(), memoryBefore);
              && status == walked.status && memory == walked.memory && visits == walked.visits
              && record.flags == e.flags
              && targetContext.Value() == if walked.result.Some? then walked.result.value else old(targetContext.Value())
  {
    hide ResolveAddress, SecondStep;
    memory, visits := memoryBefore, [];
    if !stack.FrameIsValid(context.integer[RSP]) ||
       (target != 0 && (!stack.FrameIsValid(target) || target < context.integer[RSP] || targetIp == 0))
    {
      return BadArgument, memory, visits;
    }
    if target != 0 {
      var targetModule := ResolveModuleAddress(registry, targetIp);
      if targetModule.None? {
        return OutOfRange, memory, visits;
      }
    }
    var e := Unwind(registry, target, targetIp, returnValue, UnwindFlags(record.flags, target), stack, handlers);
    record.flags := e.flags;
    var walking := new ContextRecord(context.Value());
    var depth := 0;
    ghost var goal := SecondPass(e, depth, walking.Value(), memory);
    while depth < MAX_FRAMES
      invariant depth <= MAX_FRAMES
      invariant record.flags == e.flags && targetContext.Value() == old(targetContext.Value())
      invariant context.Value() == old(context.Value())
      invariant var rest := SecondPass(e, depth, walking.Value(), memory);
                goal == rest.(visits := visits + rest.visits)
    {
      label before:
      ghost var step := SecondStep(e, walking.Value(), memory);
      var done;
      ghost var seen;
      done, memory, seen := UnwindOneFrame(e, walking, memory, record, targetContext);
      if done.Some? {
        visits := visits + seen;
        return done.value, memory, visits;
      }
      ghost var rest := SecondPass(e, depth + 1, walking.Value(), memory);
      assert visits + ([step.visit] + rest.visits) == (visits + seen) + rest.visits;
      visits := visits + seen;
      depth := depth + 1;
    }
    status := LimitReached;
  }

  // What every run of the second pass keeps

  /** Walked RSPs strictly increase, and each is a valid frame address. */
  predicate Climbs(stack: Bounds, visits: seq<Visit>) {
    && (forall i :: 0 <= i < |visits| ==> stack.FrameIsValid(visits[i].context.Rsp()))
    && (forall i, j :: 0 <= i < j < |visits| ==> visits[i].context.Rsp() < visits[j].context.Rsp())
  }

  /**
   * Handlers see the unwind flags, with TARGET_UNWIND added only at the target; none
   * runs for an establisher beyond a non-zero target, and after the target none runs.
   */
  predicate CallsAreProper(e: Unwind, visits: seq<Visit>) {
    forall i :: 0 <= i < |visits| && visits[i].TableVisit? && visits[i].call.Some? ==>
      var call := visits[i].call.value;
      && call.establisher == visits[i].establisher
      && call.flags == e.flags + (if IsTarget(e, visits[i].establisher) then TARGET_UNWIND else 0)
      && (e.target != 0 ==> call.establisher <= e.target)
      && (IsTarget(e, call.establisher) ==> i == |visits| - 1)
  }

  /** Success means a non-zero target, the last frame met, and a context that resumes at the target. */
  predicate EndsProperly(e: Unwind, w: Walked) {
    && (w.status == Reached <==> w.result.Some?)
    && (w.result.Some? ==>
          && w.result.value.rip == e.targetIp && w.result.value.integer[RAX] == e.returnValue
          && e.target != 0 && w.visits != [] && w.visits[|w.visits| - 1].Frame() == e.target)
  }

  lemma StepIsProper(e: Unwind, walking: Cpu, memory: Memory)
    ensures match SecondStep(e, walking, memory)
            case Stop(status, result, visits, memory') =>
              && |visits| <= 1
              && (visits != [] ==> visits[0].context == walking && e.stack.FrameIsValid(walking.Rsp()))
              && CallsAreProper(e, visits) && EndsProperly(e, Walked(status, result, visits, memory'))
            case Next(visit, caller, memory') =>
              && visit.context == walking && e.stack.FrameIsValid(walking.Rsp())
              && caller.Rsp() > walking.Rsp() && !IsTarget(e, visit.Frame())
              && CallsAreProper(e, [visit])
  {
    hide ResolveAddress, LookupFunction, VirtualUnwind, UnwindLeaf, ExceptionTable, EntryFromPointer;
    var found := LookupFunction(e.registry, walking.rip);
    if found.Found? {
      FoundEntryContains(e.registry, walking.rip);
    }
  }

  lemma {:induction false} SecondPassIsProper(e: Unwind, depth: nat, walking: Cpu, memory: Memory)
    requires depth <= MAX_FRAMES
    ensures var w := SecondPass(e, depth, walking, memory);
            && |w.visits| <= MAX_FRAMES - depth
            && (w.visits != [] ==> w.visits[0].context == walking)
            && Climbs(e.stack, w.visits) && CallsAreProper(e, w.visits) && EndsProperly(e, w)
            && (forall i :: 0 <= i < |w.visits| - 1 ==> !IsTarget(e, w.visits[i].Frame()))
    decreases MAX_FRAMES - depth
  {
    hide SecondStep, Bounds.FrameIsValid, IsTarget;
    if depth < MAX_FRAMES {
      StepIsProper(e, walking, memory);
      match SecondStep(e, walking, memory)
      case Stop(_, _, _, _) =>
      case Next(visit, caller, memory') =>
        SecondPassIsProper(e, depth + 1, caller, memory');
        var rest := SecondPass(e, depth + 1, caller, memory').visits;
        VisitsExtend(e, visit, caller, rest);
    }
  }

  lemma VisitsExtend(e: Unwind, visit: Visit, caller: Cpu, rest: seq<Visit>)
    requires e.stack.FrameIsValid(visit.context.Rsp()) && visit.context.Rsp() < caller.Rsp() && !IsTarget(e, visit.Frame())
    requires CallsAreProper(e, [visit]) && CallsAreProper(e, rest) && Climbs(e.stack, rest)
    requires rest != [] ==> rest[0].context == caller
    requires forall i :: 0 <= i < |rest| - 1 ==> !IsTarget(e, rest[i].Frame())
    ensures CallsAreProper(e, [visit] + rest) && Climbs(e.stack, [visit] + rest)
    ensures forall i :: 0 <= i < |[visit] + rest| - 1 ==> !IsTarget(e, ([visit] + rest)[i].Frame())
  {
    var all := [visit] + rest;
    assert forall i :: 0 < i < |all| ==> all[i] == rest[i - 1];
    assert all[0] == [visit][0];
  }

  /**
   * Every run of sl_win64_unwind_to_frame, whatever the handlers do to the context
   * and to memory. With the method's contract this is about its calls and its output.
   */
  lemma UnwindToFrameIsProper(e: Unwind, context: Cpu, memory: Memory)
    ensures var w := SecondPass(e, 0, context, memory);
            && Climbs(e.stack, w.visits) && CallsAreProper(e, w.visits) && EndsProperly(e, w)
            && |w.visits| <= MAX_FRAMES
  {
    SecondPassIsProper(e, 0, context, memory);
  }

  lemma FlagsOfUnwind(flags: nat, target: uint64)
    ensures UnwindFlags(flags, target) < TARGET_UNWIND
    ensures UnwindFlags(flags, target) % 2 == flags % 2
    ensures UnwindFlags(flags, target) / UNWINDING % 2 == 1
    ensures UnwindFlags(flags, target) / EXIT_UNWIND % 2 == 1 <==> target == 0
  {
  }

  // The first pass

  datatype FilterOutcome = FilterOutcome(disposition: int, context: Cpu, memory: Memory)

  datatype Dispatch = Dispatch(registry: Registry, flags: nat, stack: Bounds, handlers: Handlers, filter: (Cpu, Memory) -> FilterOutcome)

  datatype Verdict = Resume | Abort | Unhandled

  datatype FirstPassStep =
    | Decide(verdict: Verdict, visits: seq<Visit>, original: Cpu, memory: Memory)
    | Search(visit: Visit, caller: Cpu, original: Cpu, memory: Memory)

  datatype Dispatched = Dispatched(resumed: bool, visits: seq<Visit>, original: Cpu, memory: Memory)

  function FirstTableStep(d: Dispatch, walking: Cpu, original: Cpu, containing: nat, found: Lookup, memory: Memory): FirstPassStep
    requires found.Found? && containing < |d.registry|
  {
    if found.moduleIndex != containing then Decide(Abort, [], original, memory)
    else
      match VirtualUnwind(d.registry[containing], EHANDLER, walking.rip, found.entryIndex, walking, d.stack, memory)
      case Fail(_) => Decide(Abort, [], original, memory)
      case Ok(u) =>
        if u.cpu.Rsp() <= walking.Rsp() || !d.stack.FrameIsValid(u.establisher) then Decide(Abort, [], original, memory)
        else if u.handler.None? then Search(TableVisit(walking, u.establisher, None), u.cpu, original, memory)
        else
          var call := HandlerCall(d.flags, u.establisher, original, u.cpu, walking.rip, found.moduleIndex, found.entryIndex, 0,
                                  u.handler.value, memory);
          var outcome := d.handlers(call);
          var visit := TableVisit(walking, u.establisher, Some(call));
          if outcome.disposition == CONTINUE_EXECUTION then
            Decide(if d.flags % 2 == 0 then Resume else Abort, [visit], outcome.context, outcome.memory)
          else if outcome.disposition != CONTINUE_SEARCH then Decide(Abort, [visit], outcome.context, outcome.memory)
          else Search(visit, outcome.dispatcherContext, outcome.context, outcome.memory)
  }

  function FirstStep(d: Dispatch, walking: Cpu, original: Cpu, memory: Memory): FirstPassStep {
    match ResolveAddress(d.registry, walking.rip)
    case None => Decide(Unhandled, [], original, memory)
    case Some(containing) =>
      var found := LookupFunction(d.registry, walking.rip);
      if found.BadTable? then Decide(Abort, [], original, memory)
      else if found.NoEntry? then
        match UnwindLeaf(walking, d.stack, memory)
        case Fail(_) => Decide(Abort, [LeafVisit(walking)], original, memory)
        case Ok(caller) =>
          if caller.Rsp() <= walking.Rsp() then Decide(Abort, [LeafVisit(walking)], original, memory)
          else Search(LeafVisit(walking), caller, original, memory)
      else FirstTableStep(d, walking, original, containing, found, memory)
  }

  function AskFilter(d: Dispatch, original: Cpu, memory: Memory): Dispatched {
    var outcome := d.filter(original, memory);
    Dispatched(outcome.disposition == FILTER_CONTINUE_EXECUTION && d.flags % 2 == 0, [], outcome.context, outcome.memory)
  }

  function FirstPass(d: Dispatch, depth: nat, walking: Cpu, original: Cpu, memory: Memory): Dispatched
    requires depth <= MAX_FRAMES
    decreases MAX_FRAMES - depth
  {
    if depth == MAX_FRAMES then AskFilter(d, original, memory)
    else
      match FirstStep(d, walking, original, memory)
      case Decide(verdict, visits, original', memory') =>
        if verdict.Unhandled? then AskFilter(d, original', memory') else Dispatched(verdict.Resume?, visits, original', memory')
      case Search(visit, caller, original', memory') =>
        var rest := FirstPass(d, depth + 1, caller, original', memory');
        rest.(visits := [visit] + rest.visits)
  }

  /** A handler that searches on and changes nothing. */
  ghost predicate Inert(handlers: Handlers) {
    forall call: HandlerCall :: handlers(call) == HandlerOutcome(CONTINUE_SEARCH, call.context, call.dispatcherContext, call.memory)
  }

  /** The second pass goes past this frame on its way to the target. */
  predicate Passes(visit: Visit, target: uint64) {
    if visit.LeafVisit? then visit.Frame() != target else visit.Frame() < target
  }

  /** The frames before i let the second pass through, and all up to i have valid RSPs. */
  predicate ReachesFrame(stack: Bounds, visits: seq<Visit>, i: nat, target: uint64)
    requires i < |visits|
  {
    && (forall k :: 0 <= k <= i ==> stack.FrameIsValid(visits[k].context.Rsp()))
    && (forall k :: 0 <= k < i ==> Passes(visits[k], target))
  }

  predicate SameVisits(a: seq<Visit>, b: seq<Visit>) {
    |a| <= |b| && forall k :: 0 <= k < |a| ==> SameVisit(a[k], b[k])
  }

  /** One frame, seen by both passes. */
  lemma StepsAgree(d: Dispatch, e: Unwind, walking: Cpu, original: Cpu, memory: Memory)
    requires d.registry == e.registry && d.stack == e.stack && Inert(d.handlers) && Inert(e.handlers) && e.target != 0
    requires FirstStep(d, walking, original, memory).Search?
    ensures var first := FirstStep(d, walking, original, memory);
            var second := SecondStep(e, walking, memory);
            && first.visit.context == walking && first.memory == memory && first.original == original
            && (!e.stack.FrameIsValid(walking.Rsp()) ==> second.Stop? && second.status != Reached)
            && (e.stack.FrameIsValid(walking.Rsp()) ==>
                  if first.visit.Frame() == e.target then
                    && second.Stop? && second.status == Reached && |second.visits| == 1
                    && SameVisit(second.visits[0], first.visit) && second.result == Some(AtTarget(e, walking))
                  else if Passes(first.visit, e.target) then
                    second.Next? && SameVisit(second.visit, first.visit) && second.caller == first.caller && second.memory == memory
                  else second.Stop? && second.status != Reached)
  {
    hide ResolveAddress, LookupFunction, VirtualUnwind, UnwindLeaf, ExceptionTable, EntryFromPointer, Bounds.FrameIsValid;
    var containing := ResolveAddress(d.registry, walking.rip).value;
    var found := LookupFunction(e.registry, walking.rip);
    assert AtTarget(e, walking.WithInteger(RAX, e.returnValue)) == AtTarget(e, walking) by {
      assert walking.integer[RAX := e.returnValue][RAX := e.returnValue] == walking.integer[RAX := e.returnValue];
    }
    if found.Found? {
      UnwindIgnoresHandlerType(d.registry[containing], EHANDLER, UHANDLER, walking.rip, found.entryIndex, walking, d.stack, memory);
    }
  }

  lemma VisitedTableFrameWasSearched(d: Dispatch, depth: nat, walking: Cpu, original: Cpu, memory: Memory, i: nat)
    requires depth <= MAX_FRAMES && Inert(d.handlers)
    requires var v := FirstPass(d, depth, walking, original, memory).visits; i < |v| && v[i].TableVisit?
    ensures depth < MAX_FRAMES && FirstStep(d, walking, original, memory).Search?
  {
    hide ResolveAddress, LookupFunction, VirtualUnwind, UnwindLeaf, ExceptionTable, EntryFromPointer;
  }

  lemma {:induction false} PassesAgreeFrom(d: Dispatch, e: Unwind, depth: nat, walking: Cpu, original: Cpu, memory: Memory, i: nat)
    requires depth <= MAX_FRAMES
    requires d.registry == e.registry && d.stack == e.stack && Inert(d.handlers) && Inert(e.handlers) && e.target != 0
    requires var v := FirstPass(d, depth, walking, original, memory).visits;
             i < |v| && v[i].TableVisit? && v[i].establisher == e.target
    ensures var v := FirstPass(d, depth, walking, original, memory).visits;
            var w := SecondPass(e, depth, walking, memory);
            && (w.status == Reached && |w.visits| == i + 1 <==> ReachesFrame(e.stack, v, i, e.target))
            && (ReachesFrame(e.stack, v, i, e.target) ==>
                  SameVisits(w.visits, v) && w.result == Some(AtTarget(e, v[i].context)))
    decreases MAX_FRAMES - depth
  {
    hide FirstStep, SecondStep, Inert, Bounds.FrameIsValid;
    VisitedTableFrameWasSearched(d, depth, walking, original, memory, i);
    StepsAgree(d, e, walking, original, memory);
    var first := FirstStep(d, walking, original, memory);
    var v := FirstPass(d, depth, walking, original, memory).visits;
    var rest := FirstPass(d, depth + 1, first.caller, original, memory).visits;
    var w := SecondPass(e, depth, walking, memory);
    assert v == [first.visit] + rest && v[0] == first.visit;
    if !e.stack.FrameIsValid(walking.Rsp()) {
      assert !ReachesFrame(e.stack, v, i, e.target);
    } else if first.visit.Frame() == e.target {
      assert |w.visits| == 1;
      assert i > 0 ==> !Passes(v[0], e.target);
    } else if !Passes(first.visit, e.target) {
      assert i > 0 && !ReachesFrame(e.stack, v, i, e.target);
    } else {
      assert i > 0 && rest[i - 1] == v[i];
      PassesAgreeFrom(d, e, depth + 1, first.caller, original, memory, i - 1);
      ReachesShift(e.stack, first.visit, rest, i, e.target);
      var second := SecondStep(e, walking, memory);
      SameVisitsCons(second.visit, SecondPass(e, depth + 1, first.caller, memory).visits, first.visit, rest);
    }
  }

  lemma SameVisitsCons(a: Visit, left: seq<Visit>, b: Visit, right: seq<Visit>)
    requires SameVisit(a, b)
    ensures SameVisits(left, right) ==> SameVisits([a] + left, [b] + right)
  {
  }

  lemma ReachesShift(stack: Bounds, visit: Visit, rest: seq<Visit>, i: nat, target: uint64)
    requires 0 < i <= |rest| && stack.FrameIsValid(visit.context.Rsp()) && Passes(visit, target)
    ensures ReachesFrame(stack, [visit] + rest, i, target) <==> ReachesFrame(stack, rest, i - 1, target)
  {
    var all := [visit] + rest;
    assert forall k :: 0 < k < |all| ==> all[k] == rest[k - 1];
    if ReachesFrame(stack, all, i, target) {
      assert forall k :: 0 <= k < |rest| ==> rest[k] == all[k + 1];
    }
  }

  /**
   * The passes see the same frames. Aim the second pass at a table frame the first
   * pass met: it stops at exactly that frame if and only if every RSP up to it is a
   * valid frame address, no earlier frame is at the target and no earlier table frame
   * beyond it. It then has met the same contexts and establishers, and resumes in
   * that frame's own context.
   */
  lemma PassesAgree(d: Dispatch, e: Unwind, context: Cpu, memory: Memory, i: nat)
    requires d.registry == e.registry && d.stack == e.stack && Inert(d.handlers) && Inert(e.handlers) && e.target != 0
    requires var v := FirstPass(d, 0, context, context, memory).visits;
             i < |v| && v[i].TableVisit? && v[i].establisher == e.target
    ensures var v := FirstPass(d, 0, context, context, memory).visits;
            var w := SecondPass(e, 0, context, memory);
            && (w.status == Reached && |w.visits| == i + 1 <==> ReachesFrame(e.stack, v, i, e.target))
            && (ReachesFrame(e.stack, v, i, e.target) ==>
                  SameVisits(w.visits, v) && w.result == Some(AtTarget(e, v[i].context)))
  {
    PassesAgreeFrom(d, e, 0, context, context, memory, i);
  }

  /** The answer of sl_win64_unwind_to_frame: the argument checks, then the walk. */
  function UnwindAnswer(e: Unwind, context: Cpu, memory: Memory): Walked {
    if Refused(e, context).Some? then Walked(Refused(e, context).value, None, [], memory) else SecondPass(e, 0, context, memory)
  }

  /**
   * The whole call, aimed at a table frame the first pass met: it reaches that frame if
   * and only if the frames before let it through, the target is not below the starting
   * RSP, and the target address is that of a PE module.
   */
  lemma UnwindReachesSearchedFrame(d: Dispatch, e: Unwind, context: Cpu, memory: Memory, i: nat)
    requires d.registry == e.registry && d.stack == e.stack && Inert(d.handlers) && Inert(e.handlers) && e.target != 0
    requires var v := FirstPass(d, 0, context, context, memory).visits;
             i < |v| && v[i].TableVisit? && v[i].establisher == e.target
    ensures var v := FirstPass(d, 0, context, context, memory).visits;
            var w := UnwindAnswer(e, context, memory);
            && (w.status == Reached && |w.visits| == i + 1 <==>
                  && ReachesFrame(e.stack, v, i, e.target) && context.Rsp() <= e.target
                  && e.targetIp != 0 && ResolveAddress(e.registry, e.targetIp).Some?)
            && (w.status == Reached && |w.visits| == i + 1 ==> w.result == Some(AtTarget(e, v[i].context)))
  {
    hide FirstPass, SecondPass, ResolveAddress, ReachesFrame, Bounds.FrameIsValid, Inert;
    PassesAgree(d, e, context, memory, i);
    VisitedFramesAreValid(d, 0, context, context, memory, i);
    FirstVisitIsHere(d, context, memory, e.stack, i, e.target);
  }

  /** What one step of the first pass visits: the frame it is at, with an establisher on the stack. */
  lemma StepVisits(d: Dispatch, walking: Cpu, original: Cpu, memory: Memory)
    ensures var step := FirstStep(d, walking, original, memory);
            var seen := if step.Search? then [step.visit] else step.visits;
            && |seen| <= 1
            && forall visit :: visit in seen ==>
                 visit.context == walking && (visit.TableVisit? ==> d.stack.FrameIsValid(visit.establisher))
  {
    hide ResolveAddress, LookupFunction, VirtualUnwind, UnwindLeaf, Bounds.FrameIsValid;
  }

  lemma FirstVisitIsHere(d: Dispatch, context: Cpu, memory: Memory, stack: Bounds, i: nat, target: uint64)
    requires i < |FirstPass(d, 0, context, context, memory).visits|
    ensures ReachesFrame(stack, FirstPass(d, 0, context, context, memory).visits, i, target) ==> stack.FrameIsValid(context.Rsp())
  {
    hide FirstStep, Bounds.FrameIsValid;
    StepVisits(d, context, context, memory);
    var v, step := FirstPass(d, 0, context, context, memory).visits, FirstStep(d, context, context, memory);
    assert v[0] in if step.Search? then [step.visit] else step.visits;
  }

  /** The first pass accepts no frame whose establisher is off the stack. */
  lemma {:induction false} VisitedFramesAreValid(d: Dispatch, depth: nat, walking: Cpu, original: Cpu, memory: Memory, i: nat)
    requires depth <= MAX_FRAMES
    requires var v := FirstPass(d, depth, walking, original, memory).visits; i < |v| && v[i].TableVisit?
    ensures d.stack.FrameIsValid(FirstPass(d, depth, walking, original, memory).visits[i].establisher)
    decreases MAX_FRAMES - depth
  {
    hide FirstStep, Bounds.FrameIsValid;
    StepVisits(d, walking, original, memory);
    var v, step := FirstPass(d, depth, walking, original, memory).visits, FirstStep(d, walking, original, memory);
    if step.Search? && i > 0 {
      VisitedFramesAreValid(d, depth + 1, step.caller, step.original, step.memory, i - 1);
    } else {
      assert v[i] in if step.Search? then [step.visit] else step.visits;
    }
  }

  // The method of the first pass

  ghost predicate TookFirst(step: FirstPassStep, verdict: Option<Verdict>, memory: Memory, visits: seq<Visit>, walking: Cpu, original: Cpu) {
    match step
    case Decide(v, seen, o, m) => verdict == Some(v) && visits == seen && original == o && memory == m
    case Search(visit, caller, o, m) => verdict == None && visits == [visit] && walking == caller && original == o && memory == m
  }

  method DispatchOneFrame(d: Dispatch, walking: ContextRecord, original: ContextRecord, memoryBefore: Memory, record: ExceptionRecord)
    returns (verdict: Option<Verdict>, memory: Memory, ghost visits: seq<Visit>)
    requires walking != original && record.flags == d.flags
    modifies walking, original, record
    ensures record.flags == d.flags
    ensures TookFirst(FirstStep(d, old(walking.Value()), old(original.Value()), memoryBefore), verdict, memory, visits,
                      walking.Value(), original.Value())
  {
    hide ResolveAddress, LookupFunction, VirtualUnwind, UnwindLeaf;
    memory, visits := memoryBefore, [];
    var containing := ResolveModuleAddress(d.registry, walking.rip);
    if containing.None? {
      return Some(Unhandled), memory, visits;
    }
    var found := LookupFunctionEntry(d.registry, walking.rip);
    if found.NoEntry? {
      visits := [LeafVisit(walking.Value())];
      var previousRsp := walking.integer[RSP];
      var failure := UnwindLeafFrame(walking, d.stack, memory);
      return if failure.Some? || walking.integer[RSP] <= previousRsp then Some(Abort) else None, memory, visits;
    }
    if found.BadTable? || found.moduleIndex != containing.value {
      return Some(Abort), memory, visits;
    }
    var caller := new ContextRecord(walking.Value());
    var failure, establisher, handler := VirtualUnwindFrame(d.registry[containing.value], EHANDLER, walking.rip, found.entryIndex,
                                                            caller, d.stack, memory);
    if failure.Some? || caller.integer[RSP] <= walking.integer[RSP] || !d.stack.FrameIsValid(establisher) {
      return Some(Abort), memory, visits;
    }
    if handler.Some? {
      record.flags := d.flags;
      var call := HandlerCall(record.flags, establisher, original.Value(), caller.Value(), walking.rip, found.moduleIndex,
                              found.entryIndex, 0, handler.value, memory);
      var outcome := d.handlers(call);
      visits := [TableVisit(walking.Value(), establisher, Some(call))];
      original.Assign(outcome.context);
      caller.Assign(outcome.dispatcherContext);
      memory := outcome.memory;
      record.flags := d.flags;
      if outcome.disposition == CONTINUE_EXECUTION {
        return Some(if record.flags % 2 == 0 then Resume else Abort), memory, visits;
      }
      if outcome.disposition != CONTINUE_SEARCH {
        return Some(Abort), memory, visits;
      }
    } else {
      visits := [TableVisit(walking.Value(), establisher, None)];
    }
    walking.Assign(caller.Value());
    verdict := None;
  }

  method DispatchRaisedException(registry: Registry, record: ExceptionRecord, original: ContextRecord, stack: Bounds,
                                 memoryBefore: Memory, handlers: Handlers, filter: (Cpu, Memory) -> FilterOutcome)
    returns (resumed: bool, memory: Memory, ghost visits: seq<Visit>)
    modifies record, original
    ensures var d := Dispatch(registry, old(record.flags) % 2, stack, handlers, filter);
            var r := FirstPass(d, 0, old(original.Value()), old(original.Value()), memoryBefore);
            && resumed == r.resumed && memory == r.memory && visits == r.visits && original.Value() == r.original
            && record.flags == d.flags
  {
    hide FirstStep;
    memory, visits := memoryBefore, [];
    var d := Dispatch(registry, record.flags % 2, stack, handlers, filter);
    record.flags := d.flags;
    var walking := new ContextRecord(original.Value());
    var depth := 0;
    ghost var goal := FirstPass(d, depth, walking.Value(), original.Value(), memory);
    while depth < MAX_FRAMES
      invariant depth <= MAX_FRAMES && walking != original && record.flags == d.flags
      invariant var rest := FirstPass(d, depth, walking.Value(), original.Value(), memory);
                goal == rest.(visits := visits + rest.visits)
    {
      ghost var step := FirstStep(d, walking.Value(), original.Value(), memory);
      if step.Decide? && step.verdict.Unhandled? {
        UnhandledVisitsNothing(d, walking.Value(), original.Value(), memory);
      }
      var verdict;
      ghost var seen;
      verdict, memory, seen := DispatchOneFrame(d, walking, original, memory, record);
      if verdict.Some? {
        visits := visits + seen;
        if verdict.value != Unhandled {
          return verdict.value == Resume, memory, visits;
        }
        break;
      }
      ghost var rest := FirstPass(d, depth + 1, walking.Value(), original.Value(), memory);
      assert visits + ([step.visit] + rest.visits) == (visits + seen) + rest.visits;
      visits := visits + seen;
      depth := depth + 1;
    }
    var outcome := filter(original.Value(), memory);
    original.Assign(outcome.context);
    memory := outcome.memory;
    record.flags := d.flags;
    resumed := outcome.disposition == FILTER_CONTINUE_EXECUTION && record.flags % 2 == 0;
  }

  lemma UnhandledVisitsNothing(d: Dispatch, walking: Cpu, original: Cpu, memory: Memory)
    requires var step := FirstStep(d, walking, original, memory); step.Decide? && step.verdict.Unhandled?
    ensures FirstStep(d, walking, original, memory).visits == []
  {
    hide ResolveAddress, LookupFunction, VirtualUnwind, UnwindLeaf;
  }
}
