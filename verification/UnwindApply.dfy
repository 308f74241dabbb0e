/** Interpreting the operations of one unwind record against a context. */
module UnwindApply {
  import opened Bytes
  import opened Context
  import opened UnwindCodes

  /** The context so far, and whether a machine frame already supplied RIP. */
  datatype Unwound = Unwound(cpu: Cpu, machineFrame: bool)

  function ReadMachineFrame(cpu: Cpu, stack: Bounds, memory: Memory, bias: nat): Outcome<Cpu> {
    var ripAt :- CheckedAdd(cpu.Rsp(), bias);
    var rip :- ReadWord(stack, memory, ripAt);
    var csAt :- CheckedAdd(cpu.Rsp(), bias + 8);
    var cs :- ReadWord(stack, memory, csAt);
    var flagsAt :- CheckedAdd(cpu.Rsp(), bias + 16);
    var flags :- ReadWord(stack, memory, flagsAt);
    var rspAt :- CheckedAdd(cpu.Rsp(), bias + 24);
    var rsp :- ReadWord(stack, memory, rspAt);
    var ssAt :- CheckedAdd(cpu.Rsp(), bias + 32);
    var ss :- ReadWord(stack, memory, ssAt);
    Ok(cpu.WithRsp(rsp).(rip := rip, eFlags := flags % TWO_32, segCs := cs % 0x1_0000, segSs := ss % 0x1_0000))
  }

  function ApplyOp(op: Op, frameBase: uint64, u: Unwound, stack: Bounds, memory: Memory): Outcome<Unwound> {
    match op
    case PushNonvol(number) =>
      if number >= 16 then Fail(BadOperation) else
      var cpu :- PopInteger(u.cpu, stack, memory, number);
      Ok(u.(cpu := cpu))
    case AllocLarge(size) =>
      if size == 0 || size % 8 != 0 then Fail(AllocationSize) else
      var cpu :- AddToRsp(u.cpu, size);
      Ok(u.(cpu := cpu))
    case AllocSmall(size) =>
      var cpu :- AddToRsp(u.cpu, size);
      Ok(u.(cpu := cpu))
    case SetFrame =>
      Ok(u.(cpu := u.cpu.WithRsp(frameBase)))
    case SaveNonvol(number, offset) =>
      if number >= 16 then Fail(BadOperation) else
      var address :- CheckedAdd(frameBase, offset);
      var cpu :- RestoreInteger(u.cpu, stack, memory, number, address);
      Ok(u.(cpu := cpu))
    case SaveXmm(number, offset) =>
      if number >= 16 then Fail(BadOperation) else
      var address :- CheckedAdd(frameBase, offset);
      var cpu :- RestoreXmm(u.cpu, stack, memory, number, address);
      Ok(u.(cpu := cpu))
    case PushMachframe(errorCode) =>
      var cpu :- ReadMachineFrame(u.cpu, stack, memory, if errorCode then 8 else 0);
      Ok(Unwound(cpu, true))
    case Epilog => Ok(u)
    case Unknown => Fail(BadOperation)
  }

  /** Inside a prologue only the operations whose instruction has completed are undone. */
  predicate Executed(code: Code, inPrologue: bool, prologueOffset: nat) {
    !inPrologue || code.offset <= prologueOffset
  }

  function ApplyCodes(codes: seq<Code>, inPrologue: bool, prologueOffset: nat, frameBase: uint64,
                      u: Unwound, stack: Bounds, memory: Memory): Outcome<Unwound>
  {
    if codes == [] then Ok(u)
    else if !Executed(codes[0], inPrologue, prologueOffset) then
      ApplyCodes(codes[1..], inPrologue, prologueOffset, frameBase, u, stack, memory)
    else
      var next :- ApplyOp(codes[0].op, frameBase, u, stack, memory);
      ApplyCodes(codes[1..], inPrologue, prologueOffset, frameBase, next, stack, memory)
  }

  lemma ApplyCons(head: Code, rest: seq<Code>, inPrologue: bool, prologueOffset: nat, frameBase: uint64,
                  u: Unwound, stack: Bounds, memory: Memory)
    ensures ApplyCodes([head] + rest, inPrologue, prologueOffset, frameBase, u, stack, memory)
         == if !Executed(head, inPrologue, prologueOffset) then
              ApplyCodes(rest, inPrologue, prologueOffset, frameBase, u, stack, memory)
            else
              var next := ApplyOp(head.op, frameBase, u, stack, memory);
              if next.Fail? then Fail(next.reason)
              else ApplyCodes(rest, inPrologue, prologueOffset, frameBase, next.value, stack, memory)
  {
    assert ([head] + rest)[1..] == rest;
  }

  method ApplyUnwindCodes(codes: Codes, version: nat, inPrologue: bool, prologueOffset: nat, frameBase: uint64,
                          context: ContextRecord, stack: Bounds, memory: Memory, machineFrameBefore: bool)
    returns (failure: Option<Reason>, machineFrame: bool)
    requires Walks(codes, version, 0)
    modifies context
    ensures var r := ApplyCodes(Decode(codes, version, 0), inPrologue, prologueOffset, frameBase,
                                Unwound(old(context.Value()), machineFrameBefore), stack, memory);
            if r.Ok? then failure.None? && Unwound(context.Value(), machineFrame) == r.value
            else failure == Some(r.reason)
  {
    hide OperationSlots, OpAt, ApplyOp;
    machineFrame := machineFrameBefore;
    var index := 0;
    ghost var goal := ApplyCodes(Decode(codes, version, index), inPrologue, prologueOffset, frameBase,
                                 Unwound(context.Value(), machineFrame), stack, memory);
    while index < Count(codes)
      invariant index <= Count(codes) && Walks(codes, version, index)
      invariant goal
             == ApplyCodes(Decode(codes, version, index), inPrologue, prologueOffset, frameBase,
                           Unwound(context.Value(), machineFrame), stack, memory)
    {
      var slots := SlotsAt(codes, version, index);
      var op := OpAt(codes, version, index);
      var rest := index + slots;
      DecodeStep(codes, version, index);
      ApplyCons(Code(OffsetAt(codes, index), op), Decode(codes, version, rest), inPrologue, prologueOffset, frameBase,
                Unwound(context.Value(), machineFrame), stack, memory);
      if inPrologue && OffsetAt(codes, index) > prologueOffset {
        index := rest;
        continue;
      }
      var problem, frame := ApplyOneCode(op, frameBase, context, stack, memory, machineFrame);
      if problem.Some? {
        return problem, machineFrame;
      }
      machineFrame := frame;
      index := rest;
    }
    failure := None;
  }

  /** The switch of the interpreter loop. */
  method ApplyOneCode(op: Op, frameBase: uint64, context: ContextRecord, stack: Bounds, memory: Memory,
                      machineFrameBefore: bool)
    returns (failure: Option<Reason>, machineFrame: bool)
    modifies context
    ensures var r := ApplyOp(op, frameBase, Unwound(old(context.Value()), machineFrameBefore), stack, memory);
            if r.Ok? then failure.None? && Unwound(context.Value(), machineFrame) == r.value
            else failure == Some(r.reason)
  {
    hide ReadMachineFrame, Word, Xmmword;
    machineFrame := machineFrameBefore;
    match op {
      case PushNonvol(number) =>
        var address := context.integer[RSP];
        failure := RestoreIntegerAt(context, stack, memory, number, address);
        if failure.None? {
          failure := AdvanceRsp(context, 8);
        }
      case AllocLarge(size) =>
        if size == 0 || size % 8 != 0 {
          return Some(AllocationSize), machineFrame;
        }
        failure := AdvanceRsp(context, size);
      case AllocSmall(size) =>
        failure := AdvanceRsp(context, size);
      case SetFrame =>
        context.integer := context.integer[RSP := frameBase];
        failure := None;
      case SaveNonvol(number, offset) =>
        if number >= 16 {
          return Some(BadOperation), machineFrame;
        }
        if frameBase + offset >= TWO_64 {
          return Some(Arithmetic), machineFrame;
        }
        failure := RestoreIntegerAt(context, stack, memory, number, frameBase + offset);
      case SaveXmm(number, offset) =>
        if number >= 16 {
          return Some(BadOperation), machineFrame;
        }
        if frameBase + offset >= TWO_64 {
          return Some(Arithmetic), machineFrame;
        }
        if !stack.Fits(frameBase + offset, 16) {
          return Some(StackBounds), machineFrame;
        }
        context.xmm := context.xmm[number := Xmmword(memory, frameBase + offset)];
        failure := None;
      case PushMachframe(errorCode) =>
        var frame := ReadMachineFrame(context.Value(), stack, memory, if errorCode then 8 else 0);
        if frame.Fail? {
          return Some(frame.reason), machineFrame;
        }
        context.Assign(frame.value);
        return None, true;
      case Epilog =>
        failure := None;
      case Unknown =>
        failure := Some(BadOperation);
    }
  }

  method RestoreIntegerAt(context: ContextRecord, stack: Bounds, memory: Memory, number: nat, address: uint64)
    returns (failure: Option<Reason>)
    modifies context`integer
    ensures if number < 16 then
              var r := RestoreInteger(old(context.Value()), stack, memory, number, address);
              if r.Ok? then failure.None? && context.Value() == r.value else failure == Some(r.reason)
            else failure == Some(BadOperation)
  {
    if number >= 16 {
      return Some(BadOperation);
    }
    if !stack.Fits(address, 8) {
      return Some(StackBounds);
    }
    context.integer := context.integer[number := Word(memory, address)];
    failure := None;
  }

  method AdvanceRsp(context: ContextRecord, amount: nat) returns (failure: Option<Reason>)
    modifies context`integer
    ensures var r := AddToRsp(old(context.Value()), amount);
            if r.Ok? then failure.None? && context.Value() == r.value else failure == Some(r.reason)
  {
    if context.integer[RSP] + amount >= TWO_64 {
      return Some(Arithmetic);
    }
    context.integer := context.integer[RSP := context.integer[RSP] + amount];
    failure := None;
  }

  method ReturnThroughStack(context: ContextRecord, stack: Bounds, memory: Memory) returns (failure: Option<Reason>)
    modifies context
    ensures var r := PopReturn(old(context.Value()), stack, memory);
            if r.Ok? then failure.None? && context.Value() == r.value else failure == Some(r.reason)
  {
    hide Word;
    if !stack.Fits(context.integer[RSP], 8) {
      return Some(StackBounds);
    }
    var returnAddress := Word(memory, context.integer[RSP]);
    failure := AdvanceRsp(context, 8);
    if failure.None? {
      context.rip := returnAddress;
    }
  }

  // The frame register

  /** The prologue position of the operation that sets up the frame register. */
  function FrameSetupOffset(codes: seq<Code>): (r: Option<uint8>)
    ensures r.Some? <==> SetsFrame(codes)
  {
    if codes == [] then None
    else if codes[0].op == SetFrame then Some(codes[0].offset)
    else
      assert forall i :: 0 < i < |codes| ==> codes[i] == codes[1..][i - 1];
      FrameSetupOffset(codes[1..])
  }

  function Established(codes: seq<Code>, inPrologue: bool, prologueOffset: nat): bool {
    match FrameSetupOffset(codes)
    case None => false
    case Some(offset) => !inPrologue || offset <= prologueOffset
  }

  lemma EstablishedCons(head: Code, rest: seq<Code>)
    ensures FrameSetupOffset([head] + rest) == if head.op == SetFrame then Some(head.offset) else FrameSetupOffset(rest)
  {
    assert ([head] + rest)[1..] == rest;
  }

  method FrameRegisterIsEstablished(codes: Codes, version: nat, inPrologue: bool, prologueOffset: nat)
    returns (established: bool)
    requires Walks(codes, version, 0)
    ensures established == Established(Decode(codes, version, 0), inPrologue, prologueOffset)
  {
    hide OperationSlots;
    var index := 0;
    ghost var goal := Established(Decode(codes, version, index), inPrologue, prologueOffset);
    while index < Count(codes)
      invariant index <= Count(codes) && Walks(codes, version, index)
      invariant goal == Established(Decode(codes, version, index), inPrologue, prologueOffset)
    {
      var rest := index + SlotsAt(codes, version, index);
      DecodeStep(codes, version, index);
      EstablishedCons(Code(OffsetAt(codes, index), OpAt(codes, version, index)), Decode(codes, version, rest));
      if OperationAt(codes, index) == SET_FPREG {
        return !inPrologue || OffsetAt(codes, index) <= prologueOffset;
      }
      index := rest;
    }
    established := false;
  }

  /** The base of save offsets: RSP, or an established frame register less its scaled offset. */
  function ComputeFrameBase(frameRegister: nat, frameOffset: nat, established: bool, cpu: Cpu): Outcome<uint64>
    requires frameRegister < 16
  {
    if !established then Ok(cpu.Rsp())
    else if cpu.integer[frameRegister] < 16 * frameOffset then Fail(FrameBase)
    else Ok(cpu.integer[frameRegister] - 16 * frameOffset)
  }

  /**
   * One record: find the frame base, then undo the executed operations. A chained
   * record that does not set the frame up itself inherits an established one.
   */
  function UnwindRecord(codes: seq<Code>, frameRegister: nat, frameOffset: nat, inherited: bool, inPrologue: bool,
                        prologueOffset: nat, u: Unwound, stack: Bounds, memory: Memory): Outcome<Unwound>
    requires frameRegister < 16
  {
    var established := frameRegister != 0 && (inherited || Established(codes, inPrologue, prologueOffset));
    var base :- ComputeFrameBase(frameRegister, frameOffset, established, u.cpu);
    ApplyCodes(codes, inPrologue, prologueOffset, base, u, stack, memory)
  }

  // Shape lemmas about the interpreter

  lemma {:induction false} ApplyAppend(left: seq<Code>, right: seq<Code>, inPrologue: bool, prologueOffset: nat,
                                       frameBase: uint64, u: Unwound, stack: Bounds, memory: Memory)
    ensures ApplyCodes(left + right, inPrologue, prologueOffset, frameBase, u, stack, memory)
         == var r := ApplyCodes(left, inPrologue, prologueOffset, frameBase, u, stack, memory);
            if r.Ok? then ApplyCodes(right, inPrologue, prologueOffset, frameBase, r.value, stack, memory) else r
  {
    if left == [] {
      assert left + right == right;
    } else {
      assert (left + right)[1..] == left[1..] + right;
      if Executed(left[0], inPrologue, prologueOffset) {
        var next := ApplyOp(left[0].op, frameBase, u, stack, memory);
        if next.Ok? {
          ApplyAppend(left[1..], right, inPrologue, prologueOffset, frameBase, next.value, stack, memory);
        }
      } else {
        ApplyAppend(left[1..], right, inPrologue, prologueOffset, frameBase, u, stack, memory);
      }
    }
  }

  /** Epilogue descriptors change nothing, whatever prologue position their bytes pretend. */
  lemma {:induction false} ApplySkipsEpilogs(prefix: seq<Code>, codes: seq<Code>, inPrologue: bool, prologueOffset: nat,
                                             frameBase: uint64, u: Unwound, stack: Bounds, memory: Memory)
    requires forall i :: 0 <= i < |prefix| ==> prefix[i].op == Epilog
    ensures ApplyCodes(prefix + codes, inPrologue, prologueOffset, frameBase, u, stack, memory)
         == ApplyCodes(codes, inPrologue, prologueOffset, frameBase, u, stack, memory)
  {
    if prefix == [] {
      assert prefix + codes == codes;
    } else {
      assert (prefix + codes)[1..] == prefix[1..] + codes;
      ApplySkipsEpilogs(prefix[1..], codes, inPrologue, prologueOffset, frameBase, u, stack, memory);
    }
  }

  lemma {:induction false} EstablishedSkipsEpilogs(prefix: seq<Code>, codes: seq<Code>, inPrologue: bool, prologueOffset: nat)
    requires forall i :: 0 <= i < |prefix| ==> prefix[i].op == Epilog
    ensures Established(prefix + codes, inPrologue, prologueOffset) == Established(codes, inPrologue, prologueOffset)
  {
    if prefix == [] {
      assert prefix + codes == codes;
    } else {
      assert (prefix + codes)[1..] == prefix[1..] + codes;
      EstablishedSkipsEpilogs(prefix[1..], codes, inPrologue, prologueOffset);
    }
  }

  /** Sound operations fail only on stack bounds, arithmetic or a bad large allocation. */
  predicate RuntimeReason(reason: Reason) {
    reason.StackBounds? || reason.Arithmetic? || reason.AllocationSize? || reason.FrameBase?
  }

  lemma SoundOpFailsAtRuntimeOnly(op: Op, frameBase: uint64, u: Unwound, stack: Bounds, memory: Memory)
    requires OpIsSound(op) || op == Epilog
    ensures var r := ApplyOp(op, frameBase, u, stack, memory);
            r.Fail? ==> RuntimeReason(r.reason)
  {
  }

  lemma {:induction false} SoundCodesFailAtRuntimeOnly(codes: seq<Code>, inPrologue: bool, prologueOffset: nat,
                                                       frameBase: uint64, u: Unwound, stack: Bounds, memory: Memory)
    requires forall i :: 0 <= i < |codes| ==> OpIsSound(codes[i].op) || codes[i].op == Epilog
    ensures var r := ApplyCodes(codes, inPrologue, prologueOffset, frameBase, u, stack, memory);
            r.Fail? ==> RuntimeReason(r.reason)
  {
    if codes != [] {
      var rest := codes[1..];
      assert forall i :: 0 <= i < |rest| ==> rest[i] == codes[i + 1];
      if Executed(codes[0], inPrologue, prologueOffset) {
        SoundOpFailsAtRuntimeOnly(codes[0].op, frameBase, u, stack, memory);
        var next := ApplyOp(codes[0].op, frameBase, u, stack, memory);
        if next.Ok? {
          SoundCodesFailAtRuntimeOnly(rest, inPrologue, prologueOffset, frameBase, next.value, stack, memory);
        }
      } else {
        SoundCodesFailAtRuntimeOnly(rest, inPrologue, prologueOffset, frameBase, u, stack, memory);
      }
    }
  }
}
