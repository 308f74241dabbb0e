/**
 * What the first pass does and answers, stated on the frames it met and on what their
 * handlers and the filter answered.
 */
module SearchPass {
  import opened Bytes
  import opened Context
  import opened UnwindImage
  import opened UnwindFrame
  import opened UnwindWalk

  /** An address that may name a frame: on the stack and aligned to eight bytes. */
  predicate OnFrame(stack: Bounds, address: int) {
    stack.limit <= address < stack.base && address % 8 == 0
  }

  function CallOf(visit: Visit): Option<HandlerCall> {
    if visit.TableVisit? then visit.call else None
  }

  /** The exception's context as the k-th frame finds it: as the last handler before it left it. */
  function ContextBefore(handlers: Handlers, context: Cpu, visits: seq<Visit>, k: nat): Cpu
    requires k <= |visits|
  {
    if k == 0 then context
    else if CallOf(visits[k - 1]).None? then ContextBefore(handlers, context, visits, k - 1)
    else handlers(CallOf(visits[k - 1]).value).context
  }

  function MemoryBefore(handlers: Handlers, memory: Memory, visits: seq<Visit>, k: nat): Memory
    requires k <= |visits|
  {
    if k == 0 then memory
    else if CallOf(visits[k - 1]).None? then MemoryBefore(handlers, memory, visits, k - 1)
    else handlers(CallOf(visits[k - 1]).value).memory
  }

  /** One frame of the table unwound, with the handler it has for exceptions. */
  function UnwoundFrom(d: Dispatch, context: Cpu, memory: Memory): Outcome<Unwinding> {
    match LookupFunction(d.registry, context.rip)
    case Found(module_, index) =>
      if module_ < |d.registry| then VirtualUnwind(d.registry[module_], 1, context.rip, index, context, d.stack, memory)
      else Fail(InvalidArgument)
    case _ => Fail(InvalidArgument)
  }

  /** The context can be met as a frame: a leaf, or one that unwinds upwards to a frame on the stack. */
  ghost predicate CanMeet(d: Dispatch, context: Cpu, memory: Memory) {
    var containing, found := ResolveAddress(d.registry, context.rip), LookupFunction(d.registry, context.rip);
    && containing.Some?
    && (found.NoEntry? ||
        (found.Found? && found.moduleIndex == containing.value &&
         var u := UnwoundFrom(d, context, memory);
         u.Ok? && context.Rsp() < u.value.cpu.Rsp() && OnFrame(d.stack, u.value.establisher)))
  }

  /**
   * The frame is the context's own, and its handler, if it has one for exceptions, is
   * called with the exception's flags and context, the frame's PC, table entry and
   * establisher, the caller's context and no target.
   */
  ghost predicate Met(d: Dispatch, visit: Visit, original: Cpu, memory: Memory) {
    && CanMeet(d, visit.context, memory)
    && var found := LookupFunction(d.registry, visit.context.rip);
       match visit
       case LeafVisit(_) => found.NoEntry?
       case TableVisit(context, establisher, call) =>
         && found.Found?
         && var u := UnwoundFrom(d, context, memory).value;
            && establisher == u.establisher
            && call == if u.handler.None? then None
                       else Some(HandlerCall(d.flags, u.establisher, original, u.cpu, context.rip, found.moduleIndex, found.entryIndex, 0,
                                             u.handler.value, memory))
  }

  /** The frame's caller, where the search goes on: a handler may have moved it. */
  function CallerOf(d: Dispatch, visit: Visit, memory: Memory): Outcome<Cpu> {
    if visit.LeafVisit? then UnwindLeaf(visit.context, d.stack, memory)
    else if visit.call.Some? then Ok(d.handlers(visit.call.value).dispatcherContext)
    else
      var u :- UnwoundFrom(d, visit.context, memory);
      Ok(u.cpu)
  }

  /** The search goes past the frame: a leaf returns upwards, a handler answers that the search goes on. */
  predicate GoesOn(d: Dispatch, visit: Visit, memory: Memory) {
    if visit.LeafVisit? then
      UnwindLeaf(visit.context, d.stack, memory).Ok? && visit.context.Rsp() < UnwindLeaf(visit.context, d.stack, memory).value.Rsp()
    else visit.call.None? || d.handlers(visit.call.value).disposition == 1
  }

  /** The frames, each met as it should be, each but the last gone past, and each the caller of the one before. */
  ghost predicate Searched(d: Dispatch, walking: Cpu, original: Cpu, memory: Memory, visits: seq<Visit>) {
    && (visits != [] ==> visits[0].context == walking)
    && (forall k :: 0 <= k < |visits| ==> Met(d, visits[k], ContextBefore(d.handlers, original, visits, k), MemoryBefore(d.handlers, memory, visits, k)))
    && (forall k :: 0 <= k < |visits| - 1 ==> Linked(d, visits[k], visits[k + 1].context, MemoryBefore(d.handlers, memory, visits, k)))
  }

  predicate Linked(d: Dispatch, visit: Visit, next: Cpu, memory: Memory) {
    GoesOn(d, visit, memory) && CallerOf(d, visit, memory) == Ok(next)
  }

  /** The last frame, if there is one, was gone past. */
  predicate AllGoOn(d: Dispatch, memory: Memory, visits: seq<Visit>) {
    visits == [] || GoesOn(d, visits[|visits| - 1], MemoryBefore(d.handlers, memory, visits, |visits| - 1))
  }

  /** Where the search would go on. */
  function Ahead(d: Dispatch, walking: Cpu, memory: Memory, visits: seq<Visit>): Outcome<Cpu> {
    if visits == [] then Ok(walking) else CallerOf(d, visits[|visits| - 1], MemoryBefore(d.handlers, memory, visits, |visits| - 1))
  }

  /** The frames are exhausted: every handler searched on, and no module holds the next PC, or the limit is reached. */
  ghost predicate Exhausted(d: Dispatch, walking: Cpu, memory: Memory, visits: seq<Visit>, limit: nat) {
    && AllGoOn(d, memory, visits)
    && (|visits| == limit ||
        (Ahead(d, walking, memory, visits).Ok? && ResolveAddress(d.registry, Ahead(d, walking, memory, visits).value.rip).None?))
  }

  /** The last handler called gave this answer. */
  predicate LastAnswered(d: Dispatch, visits: seq<Visit>, disposition: int) {
    visits != [] && CallOf(visits[|visits| - 1]).Some? && d.handlers(CallOf(visits[|visits| - 1]).value).disposition == disposition
  }

  ghost predicate FilterResumes(d: Dispatch, original: Cpu, memory: Memory, visits: seq<Visit>) {
    d.filter(ContextBefore(d.handlers, original, visits, |visits|), MemoryBefore(d.handlers, memory, visits, |visits|)).disposition == -1
  }

  /** The answer, told by what was met. */
  ghost predicate AnswersFor(d: Dispatch, walking: Cpu, original: Cpu, memory: Memory, limit: nat, r: Dispatched) {
    var n, exhausted := |r.visits|, Exhausted(d, walking, memory, r.visits, limit);
    var filtered := d.filter(ContextBefore(d.handlers, original, r.visits, n), MemoryBefore(d.handlers, memory, r.visits, n));
    && n <= limit
    && (r.resumed <==> d.flags % 2 == 0 &&
                       (LastAnswered(d, r.visits, 0) || (exhausted && FilterResumes(d, original, memory, r.visits))))
    && r.original == (if exhausted then filtered.context else ContextBefore(d.handlers, original, r.visits, n))
    && r.memory == (if exhausted then filtered.memory else MemoryBefore(d.handlers, memory, r.visits, n))
    && (AllGoOn(d, memory, r.visits) && !exhausted ==>
          Ahead(d, walking, memory, r.visits).Ok? &&
          !CanMeet(d, Ahead(d, walking, memory, r.visits).value, MemoryBefore(d.handlers, memory, r.visits, n)))
  }

  // One frame

  ghost predicate Steps(d: Dispatch, walking: Cpu, original: Cpu, memory: Memory, step: FirstPassStep) {
    if step.Search? then
      && step.visit.context == walking && Met(d, step.visit, original, memory) && Linked(d, step.visit, step.caller, memory)
      && step.original == ContextBefore(d.handlers, original, [step.visit], 1) && step.memory == MemoryBefore(d.handlers, memory, [step.visit], 1)
    else
      && (step.verdict.Unhandled? <==> ResolveAddress(d.registry, walking.rip).None?)
      && if step.visits == [] then
           !CanMeet(d, walking, memory) && !step.verdict.Resume? && step.original == original && step.memory == memory
         else
           && |step.visits| == 1 && step.visits[0].context == walking
           && Met(d, step.visits[0], original, memory) && !GoesOn(d, step.visits[0], memory)
           && (step.verdict.Resume? <==> d.flags % 2 == 0 && LastAnswered(d, step.visits, 0))
           && step.original == ContextBefore(d.handlers, original, step.visits, 1) && step.memory == MemoryBefore(d.handlers, memory, step.visits, 1)
  }

  /** What a step says of the frame it is at. */
  lemma StepMeets(d: Dispatch, walking: Cpu, original: Cpu, memory: Memory)
    ensures Steps(d, walking, original, memory, FirstStep(d, walking, original, memory))
  {
    hide ResolveAddress, LookupFunction, VirtualUnwind, UnwindLeaf, ContextBefore, MemoryBefore;
    var step, found := FirstStep(d, walking, original, memory), LookupFunction(d.registry, walking.rip);
    if step.Search? {
      BeforeOne(d.handlers, original, memory, [step.visit]);
    } else if step.visits != [] {
      BeforeOne(d.handlers, original, memory, step.visits);
    }
    if found.Found? && ResolveAddress(d.registry, walking.rip).Some? {
      FoundEntryContains(d.registry, walking.rip);
      var containing := ResolveAddress(d.registry, walking.rip).value;
      assert step == FirstTableStep(d, walking, original, containing, found, memory);
      assert found.moduleIndex == containing ==>
             UnwoundFrom(d, walking, memory) == VirtualUnwind(d.registry[containing], EHANDLER, walking.rip, found.entryIndex, walking, d.stack, memory);
    }
  }

  lemma BeforeOne(handlers: Handlers, original: Cpu, memory: Memory, visits: seq<Visit>)
    ensures |visits| >= 1 ==>
              && ContextBefore(handlers, original, visits, 1) == (if CallOf(visits[0]).None? then original else handlers(CallOf(visits[0]).value).context)
              && MemoryBefore(handlers, memory, visits, 1) == (if CallOf(visits[0]).None? then memory else handlers(CallOf(visits[0]).value).memory)
  {
  }

  // The whole search

  lemma {:induction false} BeforeShifts(handlers: Handlers, original: Cpu, memory: Memory, visit: Visit, rest: seq<Visit>, k: nat)
    requires k <= |rest|
    ensures ContextBefore(handlers, original, [visit] + rest, k + 1) == ContextBefore(handlers, ContextBefore(handlers, original, [visit], 1), rest, k)
    ensures MemoryBefore(handlers, memory, [visit] + rest, k + 1) == MemoryBefore(handlers, MemoryBefore(handlers, memory, [visit], 1), rest, k)
  {
    var all := [visit] + rest;
    if k == 0 {
      assert all[0] == [visit][0];
    } else {
      BeforeShifts(handlers, original, memory, visit, rest, k - 1);
      assert all[k] == rest[k - 1];
    }
  }

  lemma SearchedOn(d: Dispatch, original: Cpu, memory: Memory, visit: Visit, caller: Cpu, rest: seq<Visit>)
    requires Met(d, visit, original, memory) && Linked(d, visit, caller, memory)
    requires Searched(d, caller, ContextBefore(d.handlers, original, [visit], 1), MemoryBefore(d.handlers, memory, [visit], 1), rest)
    ensures Searched(d, visit.context, original, memory, [visit] + rest)
  {
    hide Met, Linked, ContextBefore, MemoryBefore;
    var all := [visit] + rest;
    assert ContextBefore(d.handlers, original, all, 0) == original && MemoryBefore(d.handlers, memory, all, 0) == memory by { BeforeStarts(d.handlers, original, memory, all); }
    forall k | 0 <= k < |all|
      ensures Met(d, all[k], ContextBefore(d.handlers, original, all, k), MemoryBefore(d.handlers, memory, all, k))
    {
      if k > 0 {
        BeforeShifts(d.handlers, original, memory, visit, rest, k - 1);
        assert all[k] == rest[k - 1];
      }
    }
    forall k | 0 <= k < |all| - 1
      ensures Linked(d, all[k], all[k + 1].context, MemoryBefore(d.handlers, memory, all, k))
    {
      if k > 0 {
        BeforeShifts(d.handlers, original, memory, visit, rest, k - 1);
        assert all[k] == rest[k - 1] && all[k + 1] == rest[k];
      } else {
        assert all[1] == rest[0];
      }
    }
  }

  lemma BeforeStarts(handlers: Handlers, original: Cpu, memory: Memory, visits: seq<Visit>)
    ensures ContextBefore(handlers, original, visits, 0) == original && MemoryBefore(handlers, memory, visits, 0) == memory
  {
  }

  lemma AnswersOn(d: Dispatch, original: Cpu, memory: Memory, visit: Visit, caller: Cpu, limit: nat, r: Dispatched)
    requires limit > 0 && Linked(d, visit, caller, memory)
    requires AnswersFor(d, caller, ContextBefore(d.handlers, original, [visit], 1), MemoryBefore(d.handlers, memory, [visit], 1), limit - 1, r)
    ensures AnswersFor(d, visit.context, original, memory, limit, r.(visits := [visit] + r.visits))
  {
    hide GoesOn, CallerOf, ContextBefore, MemoryBefore, CanMeet, ResolveAddress;
    var all, n := [visit] + r.visits, |r.visits|;
    BeforeShifts(d.handlers, original, memory, visit, r.visits, n);
    if n == 0 {
      BeforeStarts(d.handlers, original, memory, all);
      assert all[|all| - 1] == visit;
      NoAnswer(d, visit, memory);
      BeforeStarts(d.handlers, ContextBefore(d.handlers, original, [visit], 1), MemoryBefore(d.handlers, memory, [visit], 1), r.visits);
    } else {
      BeforeShifts(d.handlers, original, memory, visit, r.visits, n - 1);
      assert all[|all| - 1] == r.visits[n - 1];
    }
  }

  lemma NoAnswer(d: Dispatch, visit: Visit, memory: Memory)
    requires GoesOn(d, visit, memory)
    ensures !LastAnswered(d, [visit], 0)
  {
  }

  /** A step that ends the search, by itself. */
  lemma DecisionAnswers(d: Dispatch, walking: Cpu, original: Cpu, memory: Memory, limit: nat, step: FirstPassStep)
    requires limit > 0 && step.Decide? && Steps(d, walking, original, memory, step)
    ensures var r := if step.verdict.Unhandled? then AskFilter(d, step.original, step.memory)
                     else Dispatched(step.verdict.Resume?, step.visits, step.original, step.memory);
            Searched(d, walking, original, memory, r.visits) && AnswersFor(d, walking, original, memory, limit, r)
  {
    hide GoesOn, CallerOf, ResolveAddress, LookupFunction, UnwoundFrom, ContextBefore, MemoryBefore;
    BeforeStarts(d.handlers, original, memory, []);
    if step.visits != [] {
      assert ResolveAddress(d.registry, walking.rip).Some?;
      BeforeStarts(d.handlers, original, memory, step.visits);
    }
  }

  lemma LimitAnswers(d: Dispatch, walking: Cpu, original: Cpu, memory: Memory)
    ensures var r := AskFilter(d, original, memory);
            Searched(d, walking, original, memory, r.visits) && AnswersFor(d, walking, original, memory, 0, r)
  {
    BeforeStarts(d.handlers, original, memory, []);
  }

  lemma {:induction false} SearchFrom(d: Dispatch, depth: nat, walking: Cpu, original: Cpu, memory: Memory)
    requires depth <= MAX_FRAMES
    ensures var r := FirstPass(d, depth, walking, original, memory);
            Searched(d, walking, original, memory, r.visits) && AnswersFor(d, walking, original, memory, MAX_FRAMES - depth, r)
    decreases MAX_FRAMES - depth
  {
    hide FirstStep, Steps, Searched, AnswersFor, Linked, Met, AskFilter, ContextBefore, MemoryBefore;
    if depth == MAX_FRAMES {
      LimitAnswers(d, walking, original, memory);
    } else {
      StepMeets(d, walking, original, memory);
      var step := FirstStep(d, walking, original, memory);
      if step.Decide? {
        DecisionAnswers(d, walking, original, memory, MAX_FRAMES - depth, step);
      } else {
        var rest := FirstPass(d, depth + 1, step.caller, step.original, step.memory);
        SearchFrom(d, depth + 1, step.caller, step.original, step.memory);
        StepLinks(d, walking, original, memory, step);
        SearchedOn(d, original, memory, step.visit, step.caller, rest.visits);
        AnswersOn(d, original, memory, step.visit, step.caller, MAX_FRAMES - depth, rest);
      }
    }
  }

  lemma StepLinks(d: Dispatch, walking: Cpu, original: Cpu, memory: Memory, step: FirstPassStep)
    requires step.Search? && Steps(d, walking, original, memory, step)
    ensures step.visit.context == walking && Met(d, step.visit, original, memory) && Linked(d, step.visit, step.caller, memory)
    ensures step.original == ContextBefore(d.handlers, original, [step.visit], 1) && step.memory == MemoryBefore(d.handlers, memory, [step.visit], 1)
  {
    hide Met, Linked, ContextBefore, MemoryBefore;
  }

  /**
   * Every run of the first pass, whatever the handlers do. Frame after frame, with each
   * frame's own data, handlers are called until one does not answer that the search
   * goes on. Execution is resumed if and only if the exception is continuable and the
   * last handler called, or with the frames exhausted the filter, said so.
   */
  lemma SearchAnswers(d: Dispatch, context: Cpu, memory: Memory)
    ensures var r := FirstPass(d, 0, context, context, memory);
            && Searched(d, context, context, memory, r.visits)
            && AnswersFor(d, context, context, memory, 256, r)
  {
    SearchFrom(d, 0, context, context, memory);
  }
}
