/**
 * The three unwinders find the same caller: the code interpreter in the prologue and
 * body, the version-1 simulator and the version-2 descriptor walk in the epilogue.
 */
module UnwindAgreement {
  import opened Bytes
  import opened Context
  import opened UnwindCodes
  import opened UnwindApply
  import opened UnwindImage
  import opened Prologue
  import opened UnwindFrame
  import V1 = UnwindV1
  import V2 = UnwindV2

  /** The context just after the call returned: RIP at the return address, RSP past it. */
  ghost predicate IsCallerContext(c: Cpu, caller: Cpu, returnAddress: uint64) {
    && caller.Rsp() + 8 < TWO_64
    && c.rip == returnAddress
    && SameNonvolatile(c, caller.WithRsp(caller.Rsp() + 8))
  }

  ghost predicate ReturnAddressAt(caller: Cpu, stack: Bounds, memory: Memory, returnAddress: uint64) {
    stack.Fits(caller.Rsp(), 8) && Word(memory, caller.Rsp()) == returnAddress
  }

  lemma ReturnsToCaller(restored: Cpu, caller: Cpu, stack: Bounds, memory: Memory, returnAddress: uint64)
    requires SameNonvolatile(restored, caller) && ReturnAddressAt(caller, stack, memory, returnAddress)
    ensures PopReturn(restored, stack, memory).Ok?
    ensures IsCallerContext(PopReturn(restored, stack, memory).value, caller, returnAddress)
  {
    UnwindReturnsToCaller(caller, restored, stack, memory, returnAddress);
  }

  /** In the prologue and the body: interpret the codes, then pop the return address. */
  lemma InterpreterFindsCaller(frame: Frame, stack: Bounds, caller: Cpu, before: Memory, steps: seq<Step>, k: nat,
                               prefix: seq<Code>, codes: seq<Code>, frameRegister: nat, inPrologue: bool, offset: nat,
                               cpu: Cpu, memory: Memory, returnAddress: uint64)
    requires frame.Valid() && (frameRegister == frame.number || (frameRegister == 0 && !SetsFrame(codes)))
    requires forall i :: 0 <= i < |prefix| ==> prefix[i].op == Epilog
    requires DescribesAll(codes, steps) && WellOrdered(codes)
    requires Boundary(steps, k, inPrologue, offset)
    requires LegalRun(frame, stack, Entry(caller, before), steps[..k])
    requires Resumes(frame, Run(frame, stack, Entry(caller, before), steps[..k]), cpu, memory)
    requires ReturnAddressAt(caller, stack, memory, returnAddress)
    ensures var unwound := UnwindRecord(prefix + codes, frameRegister, frame.offset, false, inPrologue, offset,
                                        Unwound(cpu, false), stack, memory);
            && unwound.Ok? && !unwound.value.machineFrame
            && PopReturn(unwound.value.cpu, stack, memory).Ok?
            && IsCallerContext(PopReturn(unwound.value.cpu, stack, memory).value, caller, returnAddress)
  {
    var restored := UnwindInvertsPrologue(frame, stack, caller, before, steps, k, prefix, codes, frameRegister, inPrologue,
                                          offset, cpu, memory);
    ReturnsToCaller(restored, caller, stack, memory, returnAddress);
  }

  // Epilogues that mirror the pushes of a prologue

  /** Only pushes, and instructions without a code. */
  predicate PushesOnly(steps: seq<Step>) {
    forall i :: 0 <= i < |steps| ==> steps[i].instr.Push? || !HasCode(steps[i].instr)
  }

  predicate PushCodes(codes: seq<Code>) {
    forall i :: 0 <= i < |codes| ==> codes[i].op.PushNonvol? && NonvolatileInteger(codes[i].op.number)
  }

  lemma {:induction false} PushesHavePushCodes(frame: Frame, stack: Bounds, entry: Point, steps: seq<Step>, codes: seq<Code>)
    requires frame.Valid() && LegalRun(frame, stack, entry, steps) && PushesOnly(steps) && DescribesAll(codes, steps)
    requires !entry.framed && !entry.hasMoves
    ensures PushCodes(codes)
    ensures !FixesBase(Run(frame, stack, entry, steps))
  {
    if steps != [] {
      if HasCode(Last(steps).instr) {
        PushesHavePushCodes(frame, stack, entry, Init(steps), codes[1..]);
        assert forall i :: 0 < i < |codes| ==> codes[i] == codes[1..][i - 1];
      } else {
        PushesHavePushCodes(frame, stack, entry, Init(steps), codes);
      }
    }
  }

  /** The pops of an epilogue, in code order: last pushed, first popped. */
  function PopsOf(codes: seq<Code>): seq<V1.EpilogueInstr>
    requires PushCodes(codes)
  {
    seq(|codes|, i requires 0 <= i < |codes| => V1.Pop(codes[i].op.number))
  }

  lemma {:induction false} PopsUndoPushCodes(codes: seq<Code>, frameRegister: nat, base: uint64, cpu: Cpu, stack: Bounds, memory: Memory)
    requires frameRegister < 16 && PushCodes(codes)
    ensures var popped := V1.ExecuteAll(PopsOf(codes), frameRegister, cpu, stack, memory);
            ApplyCodes(codes, false, 0, base, Unwound(cpu, false), stack, memory) ==
            if popped.Fail? then Fail(popped.reason) else Ok(Unwound(popped.value, false))
  {
    hide PopInteger;
    if codes != [] {
      assert PopsOf(codes)[1..] == PopsOf(codes[1..]);
      var next := PopInteger(cpu, stack, memory, codes[0].op.number);
      if next.Ok? {
        PopsUndoPushCodes(codes[1..], frameRegister, base, next.value, stack, memory);
      }
    }
  }

  /** The stack as the epilogue's pops expect it: the state after the pushes, as far as they did not save it. */
  ghost predicate ReadyToPop(frame: Frame, stack: Bounds, caller: Cpu, before: Memory, pushes: seq<Step>, cpu: Cpu, memory: Memory)
    requires frame.Valid() && LegalRun(frame, stack, Entry(caller, before), pushes)
  {
    var q := Run(frame, stack, Entry(caller, before), pushes);
    && Agrees(q, cpu)
    && forall i :: 0 <= i < |q.slots| ==> SameBytes(memory, q.memory, q.slots[i].address, q.slots[i].Size())
  }

  lemma CodesRestoreCaller(frame: Frame, stack: Bounds, caller: Cpu, before: Memory, steps: seq<Step>, codes: seq<Code>,
                           base: uint64, cpu: Cpu, memory: Memory)
    returns (restored: Cpu)
    requires frame.Valid() && DescribesAll(codes, steps)
    requires LegalRun(frame, stack, Entry(caller, before), steps)
    requires !FixesBase(Run(frame, stack, Entry(caller, before), steps))
    requires ReadyToPop(frame, stack, caller, before, steps, cpu, memory)
    ensures ApplyCodes(codes, false, 0, base, Unwound(cpu, false), stack, memory) == Ok(Unwound(restored, false))
    ensures SameNonvolatile(restored, caller)
  {
    hide ApplyOp, Execute, Legal, SlotsHeld, SameBytes;
    var entry := Entry(caller, before);
    var q := Run(frame, stack, entry, steps);
    RunKeepsSlots(frame, stack, entry, steps);
    SlotsSurvive(q.slots, stack, q.memory, memory);
    var v := UndoAll(frame, stack, entry, steps, codes, false, 0, base, Unwound(cpu, false), memory);
    restored := v.cpu;
  }

  /**
   * Version 1: from every instruction boundary of an epilogue that mirrors the pushes,
   * after its optional stack adjustment or without one, the simulator finds the caller.
   */
  lemma SimulatorFindsCaller(frame: Frame, stack: Bounds, caller: Cpu, before: Memory, pushes: seq<Step>, codes: seq<Code>,
                             frameRegister: nat, instrs: seq<V1.EpilogueInstr>, chunks: seq<seq<uint8>>, j: nat, exit: seq<uint8>, tail: seq<uint8>,
                             start: Cpu, adjusted: Cpu, here: Cpu, imageBase: uint64, cursor: nat, entry: RuntimeFunction,
                             memory: Memory, returnAddress: uint64)
    requires frameRegister < 16 && frame.Valid() && PushesOnly(pushes) && DescribesAll(codes, pushes) && PushCodes(codes)
    requires LegalRun(frame, stack, Entry(caller, before), pushes)
    requires ReadyToPop(frame, stack, caller, before, pushes, adjusted, memory)
    requires || (instrs == PopsOf(codes) && start == adjusted)
             || (instrs != [] && !instrs[0].Pop? && instrs[1..] == PopsOf(codes) &&
                 V1.ExecuteOne(instrs[0], frameRegister, start, stack, memory) == Ok(adjusted))
    requires V1.EncodesAll(chunks, instrs, frameRegister)
    requires j <= |instrs| && |instrs| + V1.ExitSteps(exit) <= V1.MAX_EPILOGUE_INSTRUCTIONS
    requires V1.ExecuteAll(instrs[..j], frameRegister, start, stack, memory) == Ok(here)
    requires V1.IsExit(exit, imageBase, cursor + |V1.Flatten(chunks[j..])|, entry)
    requires ReturnAddressAt(caller, stack, memory, returnAddress)
    ensures var found := V1.Simulate(V1.Flatten(chunks[j..]) + (exit + tail), V1.MAX_EPILOGUE_INSTRUCTIONS, true, false, frameRegister,
                                     here, imageBase, cursor, entry, stack, memory);
            found.Some? && IsCallerContext(found.value, caller, returnAddress)
  {
    hide V1.Simulate, V1.ExecuteOne, V1.IsExit, V1.Encodes, ReadyToPop, DescribesAll, LegalRun, ApplyCodes;
    PushesHavePushCodes(frame, stack, Entry(caller, before), pushes, codes);
    var restored := CodesRestoreCaller(frame, stack, caller, before, pushes, codes, 0, adjusted, memory);
    PopsUndoPushCodes(codes, frameRegister, 0, adjusted, stack, memory);
    V1.EpilogueSimulatedAnywhere(chunks, instrs, j, exit, tail, frameRegister, start, here, imageBase, cursor, entry, stack, memory);
    ReturnsToCaller(restored, caller, stack, memory, returnAddress);
  }

  /** A pop of a volatile register: what a prologue that pushed one for alignment ends with. */
  predicate VolatilePop(number: nat) {
    number < 16 && !NonvolatileInteger(number) && number != RSP
  }

  /** The machine part-way through a declared epilogue: the first k pops have run, and perhaps the volatile one. */
  ghost predicate PartWay2(codes: seq<Code>, n: nat, k: nat, volatile: Option<nat>, start: Cpu, here: Cpu, stack: Bounds, memory: Memory)
    requires V2.PopsOnly(codes, n)
  {
    match volatile
    case None => k <= n && V2.ExecutePops(codes, k, start, stack, memory) == Ok(here)
    case Some(number) =>
      && k == n < |codes| && VolatilePop(number)
      && V2.ExecutePops(codes, n, start, stack, memory).Ok?
      && PopInteger(V2.ExecutePops(codes, n, start, stack, memory).value, stack, memory, number) == Ok(here)
  }

  function Offset2(codes: seq<Code>, k: nat, volatile: Option<nat>): nat
    requires V2.LeadingPushes(codes, k)
  {
    V2.PopsLength(codes, k) + One(volatile.Some?)
  }

  /**
   * Version 2: from every instruction boundary of a declared epilogue, the one after a
   * volatile pop included, the descriptor walk finds the caller. The operations from
   * the first push on are those of the prologue's first instructions: pushes, before
   * them perhaps one volatile push.
   */
  lemma DescriptorWalkFindsCaller(frame: Frame, stack: Bounds, caller: Cpu, before: Memory, steps: seq<Step>, codes: seq<Code>,
                                  n: nat, k: nat, volatile: Option<nat>, start: Cpu, here: Cpu, memory: Memory, returnAddress: uint64)
    requires frame.Valid() && DescribesAll(codes, steps) && V2.PopsOnly(codes, n)
    requires LegalRun(frame, stack, Entry(caller, before), steps)
    requires !FixesBase(Run(frame, stack, Entry(caller, before), steps))
    requires ReadyToPop(frame, stack, caller, before, steps, start, memory)
    requires k <= n && PartWay2(codes, n, k, volatile, start, here, stack, memory)
    requires ReturnAddressAt(caller, stack, memory, returnAddress)
    ensures var found := V2.ReplayEpilogue(codes, Offset2(codes, k, volatile), here, stack, memory);
            found.Ok? && IsCallerContext(found.value, caller, returnAddress)
  {
    hide ReadyToPop, DescribesAll, LegalRun, ApplyCodes, V2.PopPushes, V2.PopVolatile, V2.LeaveFunction, Word;
    var restored := CodesRestoreCaller(frame, stack, caller, before, steps, codes, 0, start, memory);
    V2.EpilogueAgreesWithCodes(codes, n, 0, 0, start, stack, memory);
    ReturnsToCaller(restored, caller, stack, memory, returnAddress);
    match volatile
    case None => V2.EpilogueResumes(codes, k, start, stack, memory);
    case Some(number) =>
      var there := V2.ExecutePops(codes, n, start, stack, memory).value;
      var value := Word(memory, there.Rsp());
      V2.EpilogueResumesAfterVolatilePop(codes, n, start, stack, memory, number, value);
      PoppedVolatile(there, stack, memory, number, here);
      VolatileIsFree(V2.ReplayEpilogue(codes, 0, start, stack, memory).value, caller, returnAddress, number, value);
  }

  lemma PoppedVolatile(there: Cpu, stack: Bounds, memory: Memory, number: nat, here: Cpu)
    requires VolatilePop(number) && PopInteger(there, stack, memory, number) == Ok(here)
    ensures there.Rsp() + 8 < TWO_64
    ensures here == there.WithRsp(there.Rsp() + 8).WithInteger(number, Word(memory, there.Rsp()))
  {
    hide Word;
    var value := Word(memory, there.Rsp());
    assert there.integer[number := value][RSP := there.Rsp() + 8] == there.integer[RSP := there.Rsp() + 8][number := value];
  }

  lemma VolatileIsFree(c: Cpu, caller: Cpu, returnAddress: uint64, number: nat, value: uint64)
    requires VolatilePop(number) && IsCallerContext(c, caller, returnAddress)
    ensures IsCallerContext(c.WithInteger(number, value), caller, returnAddress)
  {
  }

  /** One record's codes, then the return: the caller, whatever the machine code at the address is. */
  lemma RecordFindsCaller(m: LoadedModule, handlerType: nat, entry: RuntimeFunction, r: Record, frame: Frame, stack: Bounds, caller: Cpu,
                          before: Memory, steps: seq<Step>, k: nat, offset: nat, cpu: Cpu, memory: Memory, returnAddress: uint64)
    requires ValidateChain(m, entry) == Ok(r) && Sound(r) && !r.Chained()
    requires DescribesAll(PrologueOps(r), steps) && Boundary(steps, k, offset < r.prologueSize, offset)
    requires r.frameRegister != 0 ==> frame == Frame(r.frameRegister, r.frameOffset)
    requires frame.Valid() && LegalRun(frame, stack, Entry(caller, before), steps[..k])
    requires Resumes(frame, Run(frame, stack, Entry(caller, before), steps[..k]), cpu, memory)
    requires ReturnAddressAt(caller, stack, memory, returnAddress)
    ensures BaseOf(r, offset < r.prologueSize, offset, cpu).Ok?
    ensures var result := UnwindChain(m, entry, 0, offset, handlerType, cpu.Rsp(), true, Unwound(cpu, false), stack, memory);
            result.Ok? && IsCallerContext(result.value.cpu, caller, returnAddress)
  {
    hide Run, LegalRun, Resumes, DescribesAll, Validate, ValidateChain, BaseOf, PrologueOps, Ops, UnwindChain, UnwindRecord, PopReturn,
         IsCallerContext, ReturnAddressAt, Boundary;
    OpsOfRecord(r);
    InterpreterFindsCaller(frame, stack, caller, before, steps, k, Epilogs(r.codes, r.epilogues.codeSlots / 2), PrologueOps(r),
                           r.frameRegister, offset < r.prologueSize, offset, cpu, memory, returnAddress);
    RecordOfFrame(r, frame, offset < r.prologueSize, offset, Unwound(cpu, false), stack, memory);
    SingleRecordChain(m, entry, r, offset, handlerType, cpu, stack, memory);
  }

  /**
   * The whole of one frame, from image bytes to the caller's context: a validated,
   * unchained record whose operations describe the prologue, and an address outside
   * every epilogue the unwinder recognises.
   */
  lemma VirtualUnwindFindsCaller(m: LoadedModule, handlerType: nat, pc: uint64, entryIndex: nat, entry: RuntimeFunction, r: Record,
                                 frame: Frame, stack: Bounds, caller: Cpu, before: Memory, steps: seq<Step>, k: nat,
                                 cpu: Cpu, memory: Memory, returnAddress: uint64)
    requires stack.limit < stack.base && handlerType <= UHANDLER
    requires EntryFromPointer(m, entryIndex) == Some(entry)
    requires m.loadBase <= pc && entry.begin <= pc - m.loadBase < entry.end
    requires ValidateChain(m, entry) == Ok(r) && Sound(r) && !r.Chained()
    requires TryEpilogue(m, entry, r, pc, cpu, stack, memory) == Ok(None)
    requires DescribesAll(PrologueOps(r), steps)
    requires Boundary(steps, k, pc - m.loadBase - entry.begin < r.prologueSize, pc - m.loadBase - entry.begin)
    requires r.frameRegister != 0 ==> frame == Frame(r.frameRegister, r.frameOffset)
    requires frame.Valid() && LegalRun(frame, stack, Entry(caller, before), steps[..k])
    requires Resumes(frame, Run(frame, stack, Entry(caller, before), steps[..k]), cpu, memory)
    requires ReturnAddressAt(caller, stack, memory, returnAddress)
    ensures var unwound := VirtualUnwind(m, handlerType, pc, entryIndex, cpu, stack, memory);
            unwound.Ok? && IsCallerContext(unwound.value.cpu, caller, returnAddress)
  {
    hide Run, LegalRun, Resumes, DescribesAll, EntryFromPointer, Validate, ReadChecked, TryEpilogue, BaseOf, PrologueOps, Ops, UnwindChain,
         IsCallerContext, ReturnAddressAt, Boundary;
    RecordFindsCaller(m, handlerType, entry, r, frame, stack, caller, before, steps, k, pc - m.loadBase - entry.begin, cpu, memory,
                      returnAddress);
  }

  lemma RecordOfFrame(r: Record, frame: Frame, inPrologue: bool, offset: nat, u: Unwound, stack: Bounds, memory: Memory)
    requires Sound(r) && (r.frameRegister != 0 ==> frame == Frame(r.frameRegister, r.frameOffset))
    ensures UnwindRecord(Ops(r), r.frameRegister, frame.offset, false, inPrologue, offset, u, stack, memory)
         == UnwindRecord(Ops(r), r.frameRegister, r.frameOffset, false, inPrologue, offset, u, stack, memory)
  {
    hide Ops, ApplyCodes;
  }

  /** A chain of one validated record: interpret it, then pop the return address. */
  lemma SingleRecordChain(m: LoadedModule, entry: RuntimeFunction, r: Record, offset: nat, handlerType: nat, cpu: Cpu,
                          stack: Bounds, memory: Memory)
    requires ValidateChain(m, entry) == Ok(r) && Sound(r) && !r.Chained()
    ensures BaseOf(r, offset < r.prologueSize, offset, cpu)
         == ComputeFrameBase(r.frameRegister, r.frameOffset,
                             r.frameRegister != 0 && Established(Ops(r), offset < r.prologueSize, offset), cpu)
    ensures var unwound := UnwindRecord(Ops(r), r.frameRegister, r.frameOffset, false, offset < r.prologueSize, offset,
                                        Unwound(cpu, false), stack, memory);
            unwound.Ok? && !unwound.value.machineFrame && PopReturn(unwound.value.cpu, stack, memory).Ok? ==>
              var result := UnwindChain(m, entry, 0, offset, handlerType, cpu.Rsp(), true, Unwound(cpu, false), stack, memory);
              && BaseOf(r, offset < r.prologueSize, offset, cpu).Ok?
              && result.Ok? && result.value.cpu == PopReturn(unwound.value.cpu, stack, memory).value
  {
    hide ApplyCodes, Ops, HandlerRva, PopReturn, Validate, RangesAreValid, NextEntry, Established;
    ValidatedFirst(m, entry);
    V2.ReadCheckedIsSound(m, entry);
    ParsedRecord(m, entry.unwindData);
  }
}
