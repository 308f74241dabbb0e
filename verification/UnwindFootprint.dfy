/**
 * What unwinding a frame leaves alone. The registers a call may change, RAX, RCX, RDX,
 * R8 to R11 and XMM0 to XMM5, pass through every unwinder as they are; the flags and
 * segments change only where a record names a machine frame.
 */
module UnwindFootprint {
  import opened Bytes
  import opened Context
  import opened UnwindCodes
  import opened UnwindApply
  import opened UnwindImage
  import opened UnwindFrame
  import V1 = UnwindV1
  import V2 = UnwindV2

  /** The integer registers and vector registers that no unwind operation names. */
  predicate SameVolatile(a: Cpu, b: Cpu) {
    && (forall r :: r in {0, 1, 2, 8, 9, 10, 11} ==> a.integer[r] == b.integer[r])
    && (forall x :: x in {0, 1, 2, 3, 4, 5} ==> a.xmm[x] == b.xmm[x])
  }

  predicate SameStatus(a: Cpu, b: Cpu) {
    a.eFlags == b.eFlags && a.segCs == b.segCs && a.segSs == b.segSs
  }

  predicate Untouched(a: Cpu, b: Cpu, interrupts: bool) {
    SameVolatile(a, b) && (!interrupts ==> SameStatus(a, b))
  }

  // One operation, one record

  lemma OpLeaves(op: Op, frameBase: uint64, u: Unwound, stack: Bounds, memory: Memory)
    requires OpIsSound(op) || op == Epilog
    ensures var r := ApplyOp(op, frameBase, u, stack, memory);
            r.Ok? ==> Untouched(u.cpu, r.value.cpu, op.PushMachframe?)
  {
    hide Word, Xmmword;
  }

  predicate Interrupts(codes: seq<Code>) {
    exists k :: 0 <= k < |codes| && codes[k].op.PushMachframe?
  }

  lemma {:induction false} CodesLeave(codes: seq<Code>, inPrologue: bool, prologueOffset: nat, frameBase: uint64, u: Unwound,
                                      stack: Bounds, memory: Memory)
    requires forall i :: 0 <= i < |codes| ==> OpIsSound(codes[i].op) || codes[i].op == Epilog
    ensures var r := ApplyCodes(codes, inPrologue, prologueOffset, frameBase, u, stack, memory);
            r.Ok? ==> Untouched(u.cpu, r.value.cpu, Interrupts(codes))
  {
    hide ApplyOp, OpIsSound;
    if codes != [] {
      var rest := codes[1..];
      assert forall i :: 0 <= i < |rest| ==> rest[i] == codes[i + 1];
      assert Interrupts(rest) ==> Interrupts(codes) by {
        if Interrupts(rest) {
          var k :| 0 <= k < |rest| && rest[k].op.PushMachframe?;
          assert codes[k + 1].op.PushMachframe?;
        }
      }
      assert codes[0].op.PushMachframe? ==> Interrupts(codes);
      if Executed(codes[0], inPrologue, prologueOffset) {
        OpLeaves(codes[0].op, frameBase, u, stack, memory);
        var next := ApplyOp(codes[0].op, frameBase, u, stack, memory);
        if next.Ok? {
          CodesLeave(rest, inPrologue, prologueOffset, frameBase, next.value, stack, memory);
        }
      } else {
        CodesLeave(rest, inPrologue, prologueOffset, frameBase, u, stack, memory);
      }
    }
  }

  lemma ReturnLeaves(cpu: Cpu, stack: Bounds, memory: Memory)
    ensures var r := PopReturn(cpu, stack, memory);
            r.Ok? ==> Untouched(cpu, r.value, false) && r.value.xmm == cpu.xmm &&
                      forall k :: 0 <= k < 16 && k != 4 ==> r.value.integer[k] == cpu.integer[k]
  {
    hide Word;
  }

  // A chain

  /** Some record of the chain names a machine frame. */
  predicate ChainInterrupts(m: LoadedModule, entry: RuntimeFunction, depth: nat)
    requires depth <= MAX_CHAIN_DEPTH
    decreases MAX_CHAIN_DEPTH - depth
  {
    if depth == MAX_CHAIN_DEPTH || ParseRecord(m, entry.unwindData).None? then false
    else
      var r := ParseRecord(m, entry.unwindData).value;
      ParsedRecord(m, entry.unwindData);
      || Interrupts(Ops(r))
      || (r.Chained() && NextEntry(m, r).Some? && ChainInterrupts(m, NextEntry(m, r).value, depth + 1))
  }

  lemma {:induction false} ChainLeaves(m: LoadedModule, entry: RuntimeFunction, depth: nat, offset: nat, handlerType: nat,
                                       establisher: uint64, allowHandler: bool, u: Unwound, stack: Bounds, memory: Memory)
    requires depth <= MAX_CHAIN_DEPTH
    ensures var r := UnwindChain(m, entry, depth, offset, handlerType, establisher, allowHandler, u, stack, memory);
            r.Ok? ==> Untouched(u.cpu, r.value.cpu, ChainInterrupts(m, entry, depth))
    decreases MAX_CHAIN_DEPTH - depth
  {
    hide ApplyCodes, HandlerRva, NextEntry, Ops, PopReturn, BaseOf, Interrupts, ParseRecord, Validate, Word;
    var result := UnwindChain(m, entry, depth, offset, handlerType, establisher, allowHandler, u, stack, memory);
    if result.Ok? {
      var r := ParseRecord(m, entry.unwindData).value;
      ParsedRecord(m, entry.unwindData);
      var inPrologue := depth == 0 && offset < r.prologueSize;
      var base := BaseOf(r, inPrologue, offset, u.cpu).value;
      OpsAreSound(r);
      CodesLeave(Ops(r), inPrologue, offset, base, u, stack, memory);
      var next := ApplyCodes(Ops(r), inPrologue, offset, base, u, stack, memory).value;
      if r.Chained() {
        ChainLeaves(m, NextEntry(m, r).value, depth + 1, offset, handlerType, if depth == 0 then base else establisher,
                    if depth == 0 then !inPrologue else allowHandler, next, stack, memory);
      } else {
        ReturnLeaves(next.cpu, stack, memory);
      }
    }
  }

  // The epilogues

  lemma InstructionLeaves(code: seq<uint8>, first: bool, prefixSeen: bool, frameRegister: nat, cpu: Cpu, imageBase: uint64, cursor: nat,
                          entry: RuntimeFunction, stack: Bounds, memory: Memory)
    requires |code| > 0 && frameRegister < 16
    ensures var s := V1.SimulateOne(code, first, prefixSeen, frameRegister, cpu, imageBase, cursor, entry, stack, memory);
            !s.Abandon? ==> Untouched(cpu, s.cpu, false)
  {
    hide V1.LeavesFunction, V1.IndirectJumpSize, V1.Signed8, V1.Signed32, Word;
  }

  lemma {:induction false} SimulationLeaves(code: seq<uint8>, count: nat, first: bool, prefixSeen: bool, frameRegister: nat, cpu: Cpu,
                                            imageBase: uint64, cursor: nat, entry: RuntimeFunction, stack: Bounds, memory: Memory)
    requires frameRegister < 16
    ensures var r := V1.Simulate(code, count, first, prefixSeen, frameRegister, cpu, imageBase, cursor, entry, stack, memory);
            r.Some? ==> Untouched(cpu, r.value, false)
    decreases count
  {
    hide V1.SimulateOne;
    if count > 0 && code != [] {
      InstructionLeaves(code, first, prefixSeen, frameRegister, cpu, imageBase, cursor, entry, stack, memory);
      var s := V1.SimulateOne(code, first, prefixSeen, frameRegister, cpu, imageBase, cursor, entry, stack, memory);
      if s.Continue? && 0 < s.length <= |code| {
        SimulationLeaves(code[s.length..], count - 1, false, prefixSeen || s.prefixSeen, frameRegister, s.cpu, imageBase, cursor + s.length,
                         entry, stack, memory);
      }
    }
  }

  lemma {:induction false} PushesLeave(ops: seq<Code>, current: nat, target: nat, cpu: Cpu, stack: Bounds, memory: Memory)
    requires forall i :: 0 <= i < |ops| ==> OpIsSound(ops[i].op)
    ensures var r := V2.PopPushes(ops, current, target, cpu, stack, memory);
            r.Ok? ==> Untouched(cpu, r.value.cpu, false)
  {
    hide Word;
    if ops != [] && ops[0].op.PushNonvol? {
      var next := if current >= target then PopInteger(cpu, stack, memory, ops[0].op.number) else Ok(cpu);
      if next.Ok? {
        PushesLeave(ops[1..], current + V2.PopLength(ops[0].op.number), target, next.value, stack, memory);
      }
    }
  }

  lemma ReplayLeaves(suffix: seq<Code>, target: nat, cpu: Cpu, stack: Bounds, memory: Memory)
    requires forall i :: 0 <= i < |suffix| ==> OpIsSound(suffix[i].op)
    ensures var r := V2.ReplayEpilogue(suffix, target, cpu, stack, memory);
            r.Ok? ==> Untouched(cpu, r.value, false)
  {
    hide Word, V2.PopPushes;
    PushesLeave(suffix, 0, target, cpu, stack, memory);
  }

  lemma {:induction false} SuffixIsSound(ops: seq<Code>)
    requires forall i :: 0 <= i < |ops| ==> OpIsSound(ops[i].op)
    ensures forall i :: 0 <= i < |V2.FromFirstPush(ops)| ==> OpIsSound(V2.FromFirstPush(ops)[i].op)
  {
    if ops != [] && !V2.IsPush(ops[0].op) {
      SuffixIsSound(ops[1..]);
    }
  }

  lemma DeclaredLeaves(m: LoadedModule, entry: RuntimeFunction, target: nat, cpu: Cpu, stack: Bounds, memory: Memory)
    ensures var r := V2.UnwindEpilogue(m, entry, target, cpu, stack, memory);
            r.Ok? ==> Untouched(cpu, r.value, false)
  {
    hide V2.SelectRecord, V2.CheckParents, V2.ReplayEpilogue, V2.FromFirstPush, PrologueOps, Sound;
    var selected := V2.SelectRecord(m, entry, 0);
    if selected.Ok? {
      var r := selected.value.record;
      OpsOfRecord(r);
      SuffixIsSound(PrologueOps(r));
      ReplayLeaves(V2.FromFirstPush(PrologueOps(r)), target, cpu, stack, memory);
    }
  }

  // One frame

  /** Whatever image, address and stack: the volatile registers of the context pass through, and without machine frames its flags and segments. */
  lemma FrameLeaves(m: LoadedModule, handlerType: nat, pc: uint64, entryIndex: nat, entry: RuntimeFunction, cpu: Cpu, stack: Bounds, memory: Memory)
    requires EntryFromPointer(m, entryIndex) == Some(entry)
    ensures var r := VirtualUnwind(m, handlerType, pc, entryIndex, cpu, stack, memory);
            r.Ok? ==> SameVolatile(cpu, r.value.cpu) && (ChainInterrupts(m, entry, 0) || SameStatus(cpu, r.value.cpu))
  {
    hide EntryFromPointer, ValidateChain, UnwindChain, BaseOf, Sound, EpilogueOffset, V1.Simulate, V2.UnwindEpilogue, ChainInterrupts, SameVolatile,
         SameStatus;
    var result := VirtualUnwind(m, handlerType, pc, entryIndex, cpu, stack, memory);
    if result.Ok? {
      var first, rva := ValidateChain(m, entry).value, pc - m.loadBase;
      ValidatedFirst(m, entry);
      OpsOfRecord(first);
      ChainLeaves(m, entry, 0, rva - entry.begin, handlerType, cpu.Rsp(), true, Unwound(cpu, false), stack, memory);
      if first.version == 1 {
        var code := Window(m, rva, entry.end - rva);
        if code.Some? {
          SimulationLeaves(code.value, V1.MAX_EPILOGUE_INSTRUCTIONS, true, false, first.frameRegister, cpu, m.loadBase, rva, entry, stack, memory);
        }
      } else {
        var offset := EpilogueOffset(first, entry, rva);
        if offset.Some? {
          DeclaredLeaves(m, entry, offset.value, cpu, stack, memory);
        }
      }
    }
  }

  /** A leaf frame: RIP comes from the stack, RSP passes the return address, everything else stays. */
  lemma LeafLeaves(cpu: Cpu, stack: Bounds, memory: Memory)
    ensures var r := UnwindLeaf(cpu, stack, memory);
            && (r.Ok? <==> stack.limit < stack.base && stack.limit <= cpu.Rsp() && cpu.Rsp() + 8 <= stack.base)
            && (r.Ok? ==>
                  && r.value.rip == Word(memory, cpu.Rsp()) && r.value.integer[4] == cpu.integer[4] + 8
                  && (forall k :: 0 <= k < 16 && k != 4 ==> r.value.integer[k] == cpu.integer[k])
                  && r.value.xmm == cpu.xmm && SameStatus(cpu, r.value))
  {
    hide Word;
  }

  // What can go wrong

  /** The bytes lie on the stack. */
  predicate OnStack(stack: Bounds, address: int, size: nat) {
    stack.limit < stack.base && stack.limit <= address && address + size <= stack.base
  }

  /** An operation is undone exactly when its operand is of use, its reads are on the stack and no address wraps. */
  lemma OpSucceedsIff(op: Op, frameBase: uint64, u: Unwound, stack: Bounds, memory: Memory)
    ensures ApplyOp(op, frameBase, u, stack, memory).Ok? <==>
            match op
            case PushNonvol(number) => number < 16 && OnStack(stack, u.cpu.Rsp(), 8) && (number == 4 || u.cpu.Rsp() + 8 < TWO_64) &&
                                       (number == 4 ==> Word(memory, u.cpu.Rsp()) + 8 < TWO_64)
            case AllocLarge(size) => size > 0 && size % 8 == 0 && u.cpu.Rsp() + size < TWO_64
            case AllocSmall(size) => u.cpu.Rsp() + size < TWO_64
            case SetFrame => true
            case SaveNonvol(number, offset) => number < 16 && OnStack(stack, frameBase + offset, 8) && frameBase + offset < TWO_64
            case SaveXmm(number, offset) => number < 16 && OnStack(stack, frameBase + offset, 16) && frameBase + offset < TWO_64
            case PushMachframe(errorCode) => OnStack(stack, u.cpu.Rsp() + (if errorCode then 8 else 0), 40)
            case Epilog => true
            case Unknown => false
  {
    hide Word, Xmmword;
  }

  /** The arguments are told from the image: a frame is looked at only with sound ones, and then first its whole chain. */
  lemma ArgumentsTold(m: LoadedModule, handlerType: nat, pc: uint64, entryIndex: nat, cpu: Cpu, stack: Bounds, memory: Memory)
    ensures var r, entry := VirtualUnwind(m, handlerType, pc, entryIndex, cpu, stack, memory), EntryFromPointer(m, entryIndex);
            var sound := stack.limit < stack.base && handlerType in {0, 1, 2} && entry.Some?
                         && m.loadBase + entry.value.begin <= pc < m.loadBase + entry.value.end;
            && (!sound ==> r == Fail(InvalidArgument))
            && (sound && ValidateChain(m, entry.value).Fail? ==> r == Fail(ValidateChain(m, entry.value).reason))
  {
    hide EntryFromPointer, ValidateFrom, UnwindValidated;
  }
}
