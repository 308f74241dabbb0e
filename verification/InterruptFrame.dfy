/**
 * Functions entered by an interrupt: the processor pushed a machine frame, perhaps with
 * an error code below it, and the last operation of the record says so. Unwinding finds
 * the interrupted context.
 */
module InterruptFrame {
  import opened Bytes
  import opened Context
  import opened UnwindCodes
  import opened UnwindApply
  import opened UnwindImage
  import opened Prologue
  import opened UnwindFrame
  import opened UnwindAgreement
  import V2 = UnwindV2

  /** What the processor saved: where it was, with which flags and segments, and its stack pointer. */
  datatype Trap = Trap(rip: uint64, cs: uint16, flags: uint32, rsp: uint64, ss: uint16)

  /** The five words of a machine frame, RIP lowest. */
  ghost predicate TrapAt(t: Trap, memory: Memory, at: int) {
    && Word(memory, at) == t.rip
    && Word(memory, at + 8) % 0x1_0000 == t.cs
    && Word(memory, at + 16) % 0x1_0000_0000 == t.flags
    && Word(memory, at + 24) == t.rsp
    && Word(memory, at + 32) % 0x1_0000 == t.ss
  }

  /** The interrupted context: the frame's registers, and the nonvolatile ones the function was entered with. */
  ghost predicate IsInterrupted(c: Cpu, entered: Cpu, t: Trap) {
    && c.rip == t.rip && c.integer[4] == t.rsp && c.eFlags == t.flags && c.segCs == t.cs && c.segSs == t.ss
    && SameNonvolatile(c.WithRsp(entered.Rsp()), entered)
  }

  /** RSP at entry: at the frame, or at the error code below it. */
  ghost predicate EnteredBy(t: Trap, entered: Cpu, errorCode: bool, stack: Bounds, memory: Memory) {
    var at := entered.Rsp() + if errorCode then 8 else 0;
    TrapAt(t, memory, at) && stack.limit <= entered.Rsp() && at + 40 <= stack.base && stack.limit < stack.base
  }

  lemma FrameIsRead(cpu: Cpu, entered: Cpu, t: Trap, errorCode: bool, base: uint64, stack: Bounds, memory: Memory)
    requires SameNonvolatile(cpu, entered) && EnteredBy(t, entered, errorCode, stack, memory)
    ensures var r := ApplyOp(PushMachframe(errorCode), base, Unwound(cpu, false), stack, memory);
            r.Ok? && r.value.machineFrame && IsInterrupted(r.value.cpu, entered, t)
  {
    hide Word;
    var at := entered.Rsp() + if errorCode then 8 else 0;
    assert stack.Fits(at, 8) && stack.Fits(at + 8, 8) && stack.Fits(at + 16, 8) && stack.Fits(at + 24, 8) && stack.Fits(at + 32, 8);
  }

  lemma {:induction false} SetupIgnoresLast(codes: seq<Code>, last: Code)
    requires last.op != SetFrame
    ensures FrameSetupOffset(codes + [last]) == FrameSetupOffset(codes)
  {
    if codes == [] {
      assert codes + [last] == [last] && [last][1..] == [];
    } else {
      assert (codes + [last])[1..] == codes[1..] + [last];
      SetupIgnoresLast(codes[1..], last);
    }
  }

  /** The record's own operations, then the machine frame. */
  lemma CodesFindInterrupted(frame: Frame, stack: Bounds, entered: Cpu, before: Memory, steps: seq<Step>, k: nat, prefix: seq<Code>,
                             codes: seq<Code>, last: Code, errorCode: bool, t: Trap, frameRegister: nat, inPrologue: bool, offset: nat,
                             cpu: Cpu, memory: Memory)
    requires frame.Valid() && (frameRegister == frame.number || (frameRegister == 0 && !SetsFrame(codes)))
    requires forall i :: 0 <= i < |prefix| ==> prefix[i].op == Epilog
    requires DescribesAll(codes, steps) && WellOrdered(codes)
    requires last.op == PushMachframe(errorCode) && Executed(last, inPrologue, offset)
    requires Boundary(steps, k, inPrologue, offset)
    requires LegalRun(frame, stack, Entry(entered, before), steps[..k])
    requires Resumes(frame, Run(frame, stack, Entry(entered, before), steps[..k]), cpu, memory)
    requires EnteredBy(t, entered, errorCode, stack, memory)
    ensures var unwound := UnwindRecord(prefix + (codes + [last]), frameRegister, frame.offset, false, inPrologue, offset,
                                        Unwound(cpu, false), stack, memory);
            unwound.Ok? && unwound.value.machineFrame && IsInterrupted(unwound.value.cpu, entered, t)
  {
    hide ApplyOp, Run, LegalRun, Resumes, DescribesAll, EnteredBy, IsInterrupted, SameNonvolatile, Boundary;
    var restored := UnwindInvertsPrologue(frame, stack, entered, before, steps, k, prefix, codes, frameRegister, inPrologue, offset, cpu, memory);
    assert prefix + (codes + [last]) == (prefix + codes) + [last];
    SetupIgnoresLast(prefix + codes, last);
    var established := frameRegister != 0 && Established(prefix + codes, inPrologue, offset);
    var base := ComputeFrameBase(frameRegister, frame.offset, established, cpu).value;
    ApplyAppend(prefix + codes, [last], inPrologue, offset, base, Unwound(cpu, false), stack, memory);
    ApplyCons(last, [], inPrologue, offset, base, Unwound(restored, false), stack, memory);
    assert [last] + [] == [last];
    FrameIsRead(restored, entered, t, errorCode, base, stack, memory);
  }

  lemma EarlierAreOrdered(codes: seq<Code>, last: Code)
    requires WellOrdered(codes + [last])
    ensures WellOrdered(codes)
    ensures SetsFrame(codes) ==> SetsFrame(codes + [last])
  {
    var all := codes + [last];
    assert forall i :: 0 <= i < |codes| ==> codes[i] == all[i];
    if SetsFrame(codes) {
      var i :| 0 <= i < |codes| && codes[i].op == SetFrame;
      assert all[i].op == SetFrame;
    }
  }

  /** A chain of one record that ends in a machine frame: nothing is popped after it. */
  lemma NothingPopped(m: LoadedModule, entry: RuntimeFunction, r: Record, offset: nat, handlerType: nat, cpu: Cpu, stack: Bounds, memory: Memory)
    requires ValidateChain(m, entry) == Ok(r) && Sound(r) && !r.Chained()
    ensures var unwound := UnwindRecord(Ops(r), r.frameRegister, r.frameOffset, false, offset < r.prologueSize, offset,
                                        Unwound(cpu, false), stack, memory);
            unwound.Ok? && unwound.value.machineFrame ==>
              var result := UnwindChain(m, entry, 0, offset, handlerType, cpu.Rsp(), true, Unwound(cpu, false), stack, memory);
              && BaseOf(r, offset < r.prologueSize, offset, cpu).Ok?
              && result.Ok? && result.value.cpu == unwound.value.cpu
  {
    hide ApplyCodes, Ops, HandlerRva, PopReturn, Validate, RangesAreValid, NextEntry, Established;
    ValidatedFirst(m, entry);
    V2.ReadCheckedIsSound(m, entry);
    ParsedRecord(m, entry.unwindData);
  }

  /**
   * The whole of one frame: a function whose record describes its prologue and, before
   * it, the machine frame the processor pushed. From every instruction boundary of the
   * prologue and the body, outside every epilogue recognised, the interrupted context
   * is found, with its RIP, RSP, flags and segments.
   */
  lemma InterruptedContextFound(m: LoadedModule, handlerType: nat, pc: uint64, entryIndex: nat, entry: RuntimeFunction, r: Record, frame: Frame,
                                stack: Bounds, entered: Cpu, before: Memory, steps: seq<Step>, k: nat, codes: seq<Code>, at: uint8,
                                errorCode: bool, t: Trap, cpu: Cpu, memory: Memory)
    requires handlerType <= UHANDLER && EntryFromPointer(m, entryIndex) == Some(entry)
    requires m.loadBase <= pc && entry.begin <= pc - m.loadBase < entry.end
    requires ValidateChain(m, entry) == Ok(r) && Sound(r) && !r.Chained()
    requires TryEpilogue(m, entry, r, pc, cpu, stack, memory) == Ok(None)
    requires PrologueOps(r) == codes + [Code(at, PushMachframe(errorCode))] && DescribesAll(codes, steps)
    requires var offset := pc - m.loadBase - entry.begin;
             Boundary(steps, k, offset < r.prologueSize, offset) && (offset < r.prologueSize ==> at <= offset)
    requires r.frameRegister != 0 ==> frame == Frame(r.frameRegister, r.frameOffset)
    requires frame.Valid() && LegalRun(frame, stack, Entry(entered, before), steps[..k])
    requires Resumes(frame, Run(frame, stack, Entry(entered, before), steps[..k]), cpu, memory)
    requires EnteredBy(t, entered, errorCode, stack, memory)
    ensures var unwound := VirtualUnwind(m, handlerType, pc, entryIndex, cpu, stack, memory);
            unwound.Ok? && IsInterrupted(unwound.value.cpu, entered, t)
  {
    hide Run, LegalRun, Resumes, DescribesAll, EntryFromPointer, Sound, ValidateFrom, ReadChecked, TryEpilogue, BaseOf, PrologueOps, UnwindChain,
         IsInterrupted, TrapAt, Boundary;
    RecordFindsInterrupted(m, handlerType, entry, r, frame, stack, entered, before, steps, k, codes, at, errorCode, t,
                           pc - m.loadBase - entry.begin, cpu, memory);
  }

  /** The same of the chain loop. */
  lemma RecordFindsInterrupted(m: LoadedModule, handlerType: nat, entry: RuntimeFunction, r: Record, frame: Frame, stack: Bounds, entered: Cpu,
                               before: Memory, steps: seq<Step>, k: nat, codes: seq<Code>, at: uint8, errorCode: bool, t: Trap, offset: nat,
                               cpu: Cpu, memory: Memory)
    requires ValidateChain(m, entry) == Ok(r) && Sound(r) && !r.Chained()
    requires PrologueOps(r) == codes + [Code(at, PushMachframe(errorCode))] && DescribesAll(codes, steps)
    requires Boundary(steps, k, offset < r.prologueSize, offset) && (offset < r.prologueSize ==> at <= offset)
    requires r.frameRegister != 0 ==> frame == Frame(r.frameRegister, r.frameOffset)
    requires frame.Valid() && LegalRun(frame, stack, Entry(entered, before), steps[..k])
    requires Resumes(frame, Run(frame, stack, Entry(entered, before), steps[..k]), cpu, memory)
    requires EnteredBy(t, entered, errorCode, stack, memory)
    ensures BaseOf(r, offset < r.prologueSize, offset, cpu).Ok?
    ensures var result := UnwindChain(m, entry, 0, offset, handlerType, cpu.Rsp(), true, Unwound(cpu, false), stack, memory);
            result.Ok? && IsInterrupted(result.value.cpu, entered, t)
  {
    hide Run, LegalRun, Resumes, DescribesAll, Validate, ValidateChain, ReadChecked, BaseOf, PrologueOps, Ops,
         UnwindChain, UnwindRecord, IsInterrupted, EnteredBy, Boundary, WellOrdered, AllSound;
    OpsOfRecord(r);
    var last, prefix := Code(at, PushMachframe(errorCode)), Epilogs(r.codes, r.epilogues.codeSlots / 2);
    EarlierAreOrdered(codes, last);
    CodesFindInterrupted(frame, stack, entered, before, steps, k, prefix, codes, last, errorCode, t, r.frameRegister, offset < r.prologueSize,
                         offset, cpu, memory);
    RecordOfFrame(r, frame, offset < r.prologueSize, offset, Unwound(cpu, false), stack, memory);
    NothingPopped(m, entry, r, offset, handlerType, cpu, stack, memory);
  }

  /** In a declared epilogue, past its pops and past the error code: the interrupted RIP and RSP. */
  lemma DeclaredLeavesInterrupt(t: Trap, here: Cpu, errorCode: bool, target: nat, stack: Bounds, memory: Memory)
    requires TrapAt(t, memory, here.Rsp()) && stack.limit < stack.base && stack.limit <= here.Rsp() && here.Rsp() + 40 <= stack.base
    ensures var left := V2.ReplayEpilogue([Code(0, PushMachframe(errorCode))], target, here, stack, memory);
            && left.Ok? && left.value.rip == t.rip && left.value.integer[4] == t.rsp
            && (forall k :: 0 <= k < 16 && k != 4 ==> left.value.integer[k] == here.integer[k])
  {
    hide Word;
    assert stack.Fits(here.Rsp(), 8) && stack.Fits(here.Rsp() + 24, 8);
  }
}
