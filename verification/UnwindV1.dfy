/** Version-1 epilogues, recognised and replayed from their machine code. */
module UnwindV1 {
  import opened Bytes
  import opened Context
  import opened UnwindCodes
  import opened UnwindApply
  import opened UnwindImage

  const MAX_EPILOGUE_INSTRUCTIONS: nat := 32

  function Signed8(b: uint8): int {
    if b < 128 then b else b - 256
  }

  function Signed32(s: seq<uint8>): int
    requires |s| == 4
  {
    if Load32(s) < 0x8000_0000 then Load32(s) else Load32(s) - TWO_32
  }

  /** The effect of one simulated instruction. */
  datatype Simulated =
    | Continue(cpu: Cpu, length: nat, prefixSeen: bool)
    | Finish(cpu: Cpu)
    | Abandon

  function ContinueIf(cpu: Outcome<Cpu>, length: nat): Simulated {
    if cpu.Ok? then Continue(cpu.value, length, false) else Abandon
  }

  function FinishIf(cpu: Outcome<Cpu>): Simulated {
    if cpu.Ok? then Finish(cpu.value) else Abandon
  }

  function OffsetRsp(cpu: Cpu, base: uint64, displacement: int): Outcome<Cpu> {
    if 0 <= base + displacement < TWO_64 then Ok(cpu.WithRsp(base + displacement)) else Fail(Arithmetic)
  }

  /** lea rsp, [frame + displacement] */
  function SimulateLea(code: seq<uint8>, frameRegister: nat, cpu: Cpu): Simulated
    requires |code| >= 4 && frameRegister < 16
  {
    var mode, destination, encodedBase := code[2] / 64, code[2] / 8 % 8, code[2] % 8;
    var base := encodedBase + 8 * (code[0] % 2);
    if destination != 4 || (mode != 1 && mode != 2) then Abandon
    else if encodedBase == 4 && (|code| < 5 || code[0] / 2 % 2 != 0 || code[3] != 0x24) then Abandon
    else if base != frameRegister then Abandon
    else
      var at := if encodedBase == 4 then 4 else 3;
      if mode == 1 then ContinueIf(OffsetRsp(cpu, cpu.integer[frameRegister], Signed8(code[at])), at + 1)
      else if |code| < at + 4 then Abandon
      else ContinueIf(OffsetRsp(cpu, cpu.integer[frameRegister], Signed32(code[at..at + 4])), at + 4)
  }

  /** The size of an indirect jump through a register or memory operand. */
  function IndirectJumpSize(code: seq<uint8>): Option<nat>
    requires |code| >= 3
  {
    var mode, base := code[2] / 64, code[2] % 8;
    if mode != 3 && base == 4 && |code| < 4 then None
    else
      var sib := if mode != 3 && base == 4 then (if mode == 0 && code[3] % 8 == 5 then 5 else 1) else 0;
      var displacement := if mode == 0 && base == 5 then 4 else if mode == 1 then 1 else if mode == 2 then 4 else 0;
      Some(3 + sib + displacement)
  }

  /** A direct jump leaves the frame unless it lands strictly inside the function. */
  predicate LeavesFunction(imageBase: uint64, entry: RuntimeFunction, next: nat, displacement: int) {
    var target := (imageBase + next) % TWO_64 + displacement;
    && 0 <= target < TWO_64
    && !((imageBase + entry.begin) % TWO_64 < target < (imageBase + entry.end) % TWO_64)
  }

  function SimulateJump(code: seq<uint8>, cpu: Cpu, imageBase: uint64, cursor: nat, entry: RuntimeFunction,
                        stack: Bounds, memory: Memory): Simulated
    requires |code| > 0
  {
    if |code| >= 2 && code[0] == 0xeb then
      if LeavesFunction(imageBase, entry, cursor + 2, Signed8(code[1])) then FinishIf(PopReturn(cpu, stack, memory)) else Abandon
    else if |code| >= 5 && code[0] == 0xe9 then
      if LeavesFunction(imageBase, entry, cursor + 5, Signed32(code[1..5])) then FinishIf(PopReturn(cpu, stack, memory)) else Abandon
    else if |code| >= 6 && code[0] == 0xff && code[1] == 0x25 then FinishIf(PopReturn(cpu, stack, memory))
    else if |code| >= 3 && code[0] / 8 == 9 && code[1] == 0xff && code[2] / 8 % 8 == 4 then
      match IndirectJumpSize(code)
      case None => Abandon
      case Some(size) => if size > |code| then Abandon else FinishIf(PopReturn(cpu, stack, memory))
    else Abandon
  }

  function SimulatePop(cpu: Cpu, number: nat, length: nat, stack: Bounds, memory: Memory): Simulated {
    if !NonvolatileInteger(number) then Abandon
    else ContinueIf(PopInteger(cpu, stack, memory, number), length)
  }

  predicate IsLea(code: seq<uint8>) {
    |code| >= 4 && 0x48 <= code[0] <= 0x4b && code[1] == 0x8d
  }

  predicate IsRexPop(code: seq<uint8>) {
    |code| >= 2 && code[0] / 16 == 4 && 0x58 <= code[1] <= 0x5f
  }

  /** One instruction; code holds the bytes from the cursor to the function end. */
  function SimulateOne(code: seq<uint8>, first: bool, prefixSeen: bool, frameRegister: nat, cpu: Cpu,
                       imageBase: uint64, cursor: nat, entry: RuntimeFunction, stack: Bounds, memory: Memory): Simulated
    requires |code| > 0 && frameRegister < 16
  {
    if first && |code| >= 4 && code[..3] == [0x48, 0x83, 0xc4] then
      var immediate := Signed8(code[3]);
      if immediate <= 0 then Abandon else ContinueIf(AddToRsp(cpu, immediate), 4)
    else if first && |code| >= 7 && code[..3] == [0x48, 0x81, 0xc4] then
      var immediate := Signed32(code[3..7]);
      if immediate <= 0 then Abandon else ContinueIf(AddToRsp(cpu, immediate), 7)
    else if first && frameRegister != 0 && IsLea(code) then SimulateLea(code, frameRegister, cpu)
    else if !prefixSeen && 0x58 <= code[0] <= 0x5f then SimulatePop(cpu, code[0] - 0x58, 1, stack, memory)
    else if !prefixSeen && IsRexPop(code) then SimulatePop(cpu, code[1] - 0x58 + 8 * (code[0] % 2), 2, stack, memory)
    else if !prefixSeen && code[0] == 0xf2 then Continue(cpu, 1, true)
    else if code[0] == 0xc3 || (|code| >= 2 && code[0] == 0xf3 && code[1] == 0xc3) then FinishIf(PopReturn(cpu, stack, memory))
    else if |code| >= 3 && code[0] == 0xc2 then
      var returned := PopReturn(cpu, stack, memory);
      if returned.Fail? then Abandon else FinishIf(AddToRsp(returned.value, Load16(code[1..3])))
    else SimulateJump(code, cpu, imageBase, cursor, entry, stack, memory)
  }

  /** Simulate at most count instructions. */
  function Simulate(code: seq<uint8>, count: nat, first: bool, prefixSeen: bool, frameRegister: nat, cpu: Cpu,
                    imageBase: uint64, cursor: nat, entry: RuntimeFunction, stack: Bounds, memory: Memory): Option<Cpu>
    requires frameRegister < 16
    decreases count
  {
    if count == 0 || code == [] then None
    else
      match SimulateOne(code, first, prefixSeen, frameRegister, cpu, imageBase, cursor, entry, stack, memory)
      case Abandon => None
      case Finish(done) => Some(done)
      case Continue(next, length, seen) =>
        if length == 0 || length > |code| then None
        else Simulate(code[length..], count - 1, false, prefixSeen || seen, frameRegister, next, imageBase, cursor + length,
                      entry, stack, memory)
  }

  function SimulateFrom(m: LoadedModule, entry: RuntimeFunction, frameRegister: nat, pc: uint64, cpu: Cpu,
                        stack: Bounds, memory: Memory): Option<Cpu>
    requires frameRegister < 16
  {
    var cursor := pc - m.loadBase;
    if cursor < 0 || cursor >= TWO_32 || cursor < entry.begin || cursor >= entry.end then None
    else
      match Window(m, cursor, entry.end - cursor)
      case None => None
      case Some(code) =>
        Simulate(code, MAX_EPILOGUE_INSTRUCTIONS, true, false, frameRegister, cpu, m.loadBase, cursor, entry, stack, memory)
  }

  method SimulateEpilogue(m: LoadedModule, entry: RuntimeFunction, frameRegister: nat, pc: uint64, context: ContextRecord,
                          stack: Bounds, memory: Memory)
    returns (ok: bool)
    requires frameRegister < 16
    modifies context
    ensures var r := SimulateFrom(m, entry, frameRegister, pc, old(context.Value()), stack, memory);
            ok == r.Some? && context.Value() == if ok then r.value else old(context.Value())
  {
    hide SimulateOne;
    if pc < m.loadBase || pc - m.loadBase >= TWO_32 {
      return false;
    }
    var cursor: nat := pc - m.loadBase;
    if cursor < entry.begin || cursor >= entry.end {
      return false;
    }
    var candidate := context.Value();
    var first, prefixSeen := true, false;
    var count := 0;
    ghost var goal := SimulateFrom(m, entry, frameRegister, pc, candidate, stack, memory);
    while count < MAX_EPILOGUE_INSTRUCTIONS
      invariant count <= MAX_EPILOGUE_INSTRUCTIONS && cursor <= entry.end
      invariant context.Value() == old(context.Value())
      invariant match Window(m, cursor, entry.end - cursor)
                case None => goal == None
                case Some(code) =>
                  goal == Simulate(code, MAX_EPILOGUE_INSTRUCTIONS - count, first, prefixSeen, frameRegister, candidate,
                                   m.loadBase, cursor, entry, stack, memory)
    {
      var remaining := entry.end - cursor;
      var code := Window(m, cursor, remaining);
      if remaining == 0 || code.None? {
        return false;
      }
      var step := SimulateOne(code.value, first, prefixSeen, frameRegister, candidate, m.loadBase, cursor, entry, stack, memory);
      match step {
        case Abandon =>
          return false;
        case Finish(done) =>
          context.Assign(done);
          return true;
        case Continue(next, length, seen) =>
          if length == 0 || length > remaining {
            return false;
          }
          assert code.value[length..] == Window(m, cursor + length, remaining - length).value;
          candidate := next;
          prefixSeen := prefixSeen || seen;
          cursor := cursor + length;
          first := false;
      }
      count := count + 1;
    }
    ok := false;
  }

  // What an epilogue really does

  datatype EpilogueInstr =
    | AddRsp(amount: nat)
    | LeaRsp(displacement: int)
    | Pop(number: nat)

  /** The processor's own execution of one instruction. */
  function ExecuteOne(instr: EpilogueInstr, frameRegister: nat, cpu: Cpu, stack: Bounds, memory: Memory): Outcome<Cpu>
    requires frameRegister < 16
  {
    match instr
    case AddRsp(amount) => AddToRsp(cpu, amount)
    case LeaRsp(displacement) => OffsetRsp(cpu, cpu.integer[frameRegister], displacement)
    case Pop(number) => if number < 16 then PopInteger(cpu, stack, memory, number) else Fail(BadOperation)
  }

  function ExecuteAll(instrs: seq<EpilogueInstr>, frameRegister: nat, cpu: Cpu, stack: Bounds, memory: Memory): Outcome<Cpu>
    requires frameRegister < 16
  {
    if instrs == [] then Ok(cpu)
    else
      var next :- ExecuteOne(instrs[0], frameRegister, cpu, stack, memory);
      ExecuteAll(instrs[1..], frameRegister, next, stack, memory)
  }

  /** The bytes of a displacement: one signed byte or four. */
  predicate EncodesDisplacement(bytes: seq<uint8>, mode: nat, displacement: int) {
    || (mode == 1 && |bytes| == 1 && Signed8(bytes[0]) == displacement)
    || (mode == 2 && |bytes| == 4 && Signed32(bytes) == displacement)
  }

  /** The encodings of the instruction set for these instructions. */
  predicate Encodes(bytes: seq<uint8>, instr: EpilogueInstr, frameRegister: nat) {
    match instr
    case AddRsp(amount) =>
      || (0 < amount < 128 && bytes == [0x48, 0x83, 0xc4, amount])
      || (0 < amount < 0x8000_0000 && |bytes| == 7 && bytes[..3] == [0x48, 0x81, 0xc4] && Load32(bytes[3..]) == amount)
    case LeaRsp(displacement) =>
      && 0 < frameRegister < 16 && |bytes| >= 4
      && (bytes[0] == 0x48 + frameRegister / 8 || (bytes[0] == 0x4a + frameRegister / 8 && frameRegister % 8 != 4)) && bytes[1] == 0x8d
      && var mode := bytes[2] / 64;
         && bytes[2] == 64 * mode + 32 + frameRegister % 8
         && if frameRegister % 8 == 4 then bytes[3] == 0x24 && EncodesDisplacement(bytes[4..], mode, displacement)
            else EncodesDisplacement(bytes[3..], mode, displacement)
    case Pop(number) =>
      || (number < 8 && bytes == [0x58 + number])
      || (number < 16 && |bytes| == 2 && bytes[0] / 16 == 4 && bytes[0] % 2 == number / 8 && bytes[1] == 0x58 + number % 8)
  }

  /** A control transfer out of the function: a return or a tail jump, with an optional branch prefix. */
  predicate IsTransfer(bytes: seq<uint8>, imageBase: uint64, cursor: nat, entry: RuntimeFunction) {
    || bytes == [0xc3]
    || bytes == [0xf3, 0xc3]
    || (|bytes| == 2 && bytes[0] == 0xeb && LeavesFunction(imageBase, entry, cursor + 2, Signed8(bytes[1])))
    || (|bytes| == 5 && bytes[0] == 0xe9 && LeavesFunction(imageBase, entry, cursor + 5, Signed32(bytes[1..])))
    || (|bytes| == 6 && bytes[..2] == [0xff, 0x25])
    || (|bytes| >= 3 && bytes[0] / 8 == 9 && bytes[1] == 0xff && bytes[2] / 8 % 8 == 4 && IndirectJumpSize(bytes) == Some(|bytes|))
  }

  lemma TransferFinishes(bytes: seq<uint8>, tail: seq<uint8>, first: bool, prefixSeen: bool, frameRegister: nat, cpu: Cpu,
                         imageBase: uint64, cursor: nat, entry: RuntimeFunction, stack: Bounds, memory: Memory)
    requires frameRegister < 16 && IsTransfer(bytes, imageBase, cursor, entry)
    ensures SimulateOne(bytes + tail, first, prefixSeen, frameRegister, cpu, imageBase, cursor, entry, stack, memory)
         == FinishIf(PopReturn(cpu, stack, memory))
  {
    hide PopReturn, LeavesFunction;
    var code := bytes + tail;
    assert |bytes| == 5 ==> code[1..5] == bytes[1..];
    if |code| >= 3 {
      assert code[..3][1] == code[1] && code[..3][0] == code[0];
    }
    if |bytes| == 6 && bytes[..2] == [0xff, 0x25] {
      assert bytes[0] == bytes[..2][0] && bytes[1] == bytes[..2][1];
    }
  }

  lemma PopSimulated(bytes: seq<uint8>, tail: seq<uint8>, number: nat, first: bool, frameRegister: nat, cpu: Cpu,
                     imageBase: uint64, cursor: nat, entry: RuntimeFunction, stack: Bounds, memory: Memory)
    requires frameRegister < 16 && NonvolatileInteger(number) && Encodes(bytes, Pop(number), frameRegister)
    ensures SimulateOne(bytes + tail, first, false, frameRegister, cpu, imageBase, cursor, entry, stack, memory)
         == ContinueIf(PopInteger(cpu, stack, memory, number), |bytes|)
    ensures bytes != []
  {
    hide PopInteger;
    var code := bytes + tail;
    if |code| >= 3 {
      assert code[..3][1] == code[1] && code[..3][0] == code[0];
    }
  }

  lemma AddSimulated(bytes: seq<uint8>, tail: seq<uint8>, amount: nat, frameRegister: nat, cpu: Cpu,
                     imageBase: uint64, cursor: nat, entry: RuntimeFunction, stack: Bounds, memory: Memory)
    requires frameRegister < 16 && Encodes(bytes, AddRsp(amount), frameRegister)
    ensures SimulateOne(bytes + tail, true, false, frameRegister, cpu, imageBase, cursor, entry, stack, memory)
         == ContinueIf(AddToRsp(cpu, amount), |bytes|)
  {
    var code := bytes + tail;
    if |bytes| == 7 {
      assert code[..3] == bytes[..3];
      assert code[..3][1] == 0x81;
      assert code[3..7] == bytes[3..];
    } else {
      assert code[..3] == [0x48, 0x83, 0xc4];
    }
  }

  lemma LeaDecoded(bytes: seq<uint8>, tail: seq<uint8>, displacement: int, frameRegister: nat, cpu: Cpu)
    requires frameRegister < 16 && Encodes(bytes, LeaRsp(displacement), frameRegister)
    ensures SimulateLea(bytes + tail, frameRegister, cpu)
         == ContinueIf(OffsetRsp(cpu, cpu.integer[frameRegister], displacement), |bytes|)
  {
    hide OffsetRsp, Load32;
    var code := bytes + tail;
    var at := if frameRegister % 8 == 4 then 4 else 3;
    var mode := bytes[2] / 64;
    assert code[2] / 8 % 8 == 4 && code[2] % 8 == frameRegister % 8;
    if mode == 2 {
      assert code[at..at + 4] == bytes[at..];
    } else {
      assert code[at] == bytes[at..][0];
    }
  }

  lemma LeaSimulated(bytes: seq<uint8>, tail: seq<uint8>, displacement: int, frameRegister: nat, cpu: Cpu,
                     imageBase: uint64, cursor: nat, entry: RuntimeFunction, stack: Bounds, memory: Memory)
    requires frameRegister < 16 && Encodes(bytes, LeaRsp(displacement), frameRegister)
    ensures SimulateOne(bytes + tail, true, false, frameRegister, cpu, imageBase, cursor, entry, stack, memory)
         == ContinueIf(OffsetRsp(cpu, cpu.integer[frameRegister], displacement), |bytes|)
  {
    hide OffsetRsp, PopReturn, PopInteger, SimulateJump, Load32;
    var code := bytes + tail;
    assert code[..3][1] == 0x8d;
    assert IsLea(code);
    assert SimulateLea(code, frameRegister, cpu) == ContinueIf(OffsetRsp(cpu, cpu.integer[frameRegister], displacement), |bytes|) by {
      LeaDecoded(bytes, tail, displacement, frameRegister, cpu);
    }
  }

  // Simulating a whole epilogue

  function Flatten(chunks: seq<seq<uint8>>): seq<uint8> {
    if chunks == [] then [] else chunks[0] + Flatten(chunks[1..])
  }

  predicate EncodesAll(chunks: seq<seq<uint8>>, instrs: seq<EpilogueInstr>, frameRegister: nat) {
    |chunks| == |instrs| && forall i :: 0 <= i < |instrs| ==> Encodes(chunks[i], instrs[i], frameRegister)
  }

  predicate AllPops(instrs: seq<EpilogueInstr>) {
    forall i :: 0 <= i < |instrs| ==> instrs[i].Pop? && NonvolatileInteger(instrs[i].number)
  }

  /** An optional stack adjustment, then pops of nonvolatile registers. */
  predicate IsEpilogue(instrs: seq<EpilogueInstr>) {
    instrs == [] || ((instrs[0].Pop? ==> NonvolatileInteger(instrs[0].number)) && AllPops(instrs[1..]))
  }

  /** A transfer, or a return that also removes that many bytes of arguments. */
  predicate IsLeave(bytes: seq<uint8>, args: nat, imageBase: uint64, cursor: nat, entry: RuntimeFunction) {
    || (args == 0 && IsTransfer(bytes, imageBase, cursor, entry))
    || (|bytes| == 3 && bytes[0] == 0xc2 && Load16(bytes[1..]) == args)
  }

  /** The same, perhaps behind a branch prefix. */
  predicate IsExitPopping(bytes: seq<uint8>, args: nat, imageBase: uint64, cursor: nat, entry: RuntimeFunction) {
    || IsLeave(bytes, args, imageBase, cursor, entry)
    || (bytes != [] && bytes[0] == 0xf2 && IsLeave(bytes[1..], args, imageBase, cursor + 1, entry))
  }

  predicate IsExit(bytes: seq<uint8>, imageBase: uint64, cursor: nat, entry: RuntimeFunction) {
    IsExitPopping(bytes, 0, imageBase, cursor, entry)
  }

  /** The simulated instructions of an exit: the branch prefix counts as one. */
  function ExitSteps(exit: seq<uint8>): nat {
    if exit != [] && exit[0] == 0xf2 then 2 else 1
  }

  function Leave(cpu: Cpu, args: nat, stack: Bounds, memory: Memory): Outcome<Cpu> {
    var returned :- PopReturn(cpu, stack, memory);
    if args == 0 then Ok(returned) else AddToRsp(returned, args)
  }

  function LeaveFrom(executed: Outcome<Cpu>, args: nat, stack: Bounds, memory: Memory): Option<Cpu> {
    if executed.Fail? then None
    else
      var left := Leave(executed.value, args, stack, memory);
      if left.Fail? then None else Some(left.value)
  }

  function ReturnFrom(executed: Outcome<Cpu>, stack: Bounds, memory: Memory): Option<Cpu> {
    LeaveFrom(executed, 0, stack, memory)
  }

  lemma LeaveFinishes(bytes: seq<uint8>, args: nat, tail: seq<uint8>, first: bool, prefixSeen: bool, frameRegister: nat, cpu: Cpu,
                      imageBase: uint64, cursor: nat, entry: RuntimeFunction, stack: Bounds, memory: Memory)
    requires frameRegister < 16 && IsLeave(bytes, args, imageBase, cursor, entry)
    ensures bytes != [] && bytes[0] != 0xf2
    ensures SimulateOne(bytes + tail, first, prefixSeen, frameRegister, cpu, imageBase, cursor, entry, stack, memory)
         == FinishIf(Leave(cpu, args, stack, memory))
  {
    hide PopReturn, LeavesFunction, SimulateOne;
    if args == 0 && IsTransfer(bytes, imageBase, cursor, entry) {
      TransferNotEmpty(bytes, imageBase, cursor, entry);
      TransferFinishes(bytes, tail, first, prefixSeen, frameRegister, cpu, imageBase, cursor, entry, stack, memory);
    } else {
      ReturnFinishes(bytes, args, tail, first, prefixSeen, frameRegister, cpu, imageBase, cursor, entry, stack, memory);
    }
  }

  lemma ReturnFinishes(bytes: seq<uint8>, args: nat, tail: seq<uint8>, first: bool, prefixSeen: bool, frameRegister: nat, cpu: Cpu,
                       imageBase: uint64, cursor: nat, entry: RuntimeFunction, stack: Bounds, memory: Memory)
    requires frameRegister < 16 && |bytes| == 3 && bytes[0] == 0xc2 && Load16(bytes[1..]) == args
    ensures SimulateOne(bytes + tail, first, prefixSeen, frameRegister, cpu, imageBase, cursor, entry, stack, memory)
         == FinishIf(Leave(cpu, args, stack, memory))
  {
    hide PopReturn, Load16;
    var code := bytes + tail;
    assert code[1..3] == bytes[1..] && code[..3][0] == 0xc2;
    ReturnAddsArgs(cpu, args, stack, memory);
  }

  lemma ReturnAddsArgs(cpu: Cpu, args: nat, stack: Bounds, memory: Memory)
    ensures var returned := PopReturn(cpu, stack, memory);
            returned.Ok? ==> AddToRsp(returned.value, args) == Leave(cpu, args, stack, memory)
  {
    hide PopReturn;
    var returned := PopReturn(cpu, stack, memory);
    if returned.Ok? {
      assert returned.value.integer[RSP := returned.value.integer[RSP]] == returned.value.integer;
    }
  }

  lemma ExitSimulated(exit: seq<uint8>, args: nat, tail: seq<uint8>, count: nat, first: bool, frameRegister: nat, cpu: Cpu,
                      imageBase: uint64, cursor: nat, entry: RuntimeFunction, stack: Bounds, memory: Memory)
    requires frameRegister < 16 && count >= ExitSteps(exit) && IsExitPopping(exit, args, imageBase, cursor, entry)
    ensures Simulate(exit + tail, count, first, false, frameRegister, cpu, imageBase, cursor, entry, stack, memory)
         == LeaveFrom(Ok(cpu), args, stack, memory)
  {
    hide SimulateOne, IsLeave, Leave;
    if IsLeave(exit, args, imageBase, cursor, entry) {
      LeaveFinishes(exit, args, tail, first, false, frameRegister, cpu, imageBase, cursor, entry, stack, memory);
    } else {
      PrefixSimulated(exit, tail, first, frameRegister, cpu, imageBase, cursor, entry, stack, memory);
      assert (exit + tail)[1..] == exit[1..] + tail;
      LeaveFinishes(exit[1..], args, tail, false, true, frameRegister, cpu, imageBase, cursor + 1, entry, stack, memory);
    }
  }

  lemma TransferNotEmpty(bytes: seq<uint8>, imageBase: uint64, cursor: nat, entry: RuntimeFunction)
    requires IsTransfer(bytes, imageBase, cursor, entry)
    ensures bytes != [] && bytes[0] != 0xf2
  {
    hide LeavesFunction, IndirectJumpSize;
  }

  lemma PrefixSimulated(exit: seq<uint8>, tail: seq<uint8>, first: bool, frameRegister: nat, cpu: Cpu,
                        imageBase: uint64, cursor: nat, entry: RuntimeFunction, stack: Bounds, memory: Memory)
    requires frameRegister < 16 && exit != [] && exit[0] == 0xf2
    ensures SimulateOne(exit + tail, first, false, frameRegister, cpu, imageBase, cursor, entry, stack, memory)
         == Continue(cpu, 1, true)
  {
    var code := exit + tail;
    if |code| >= 3 {
      assert code[..3][0] == code[0];
    }
  }

  lemma {:induction false} PopsSimulated(chunks: seq<seq<uint8>>, instrs: seq<EpilogueInstr>, exit: seq<uint8>, args: nat, tail: seq<uint8>,
                                         count: nat, first: bool, frameRegister: nat, cpu: Cpu, imageBase: uint64, cursor: nat,
                                         entry: RuntimeFunction, stack: Bounds, memory: Memory)
    requires frameRegister < 16 && AllPops(instrs) && EncodesAll(chunks, instrs, frameRegister)
    requires count >= |instrs| + ExitSteps(exit)
    requires IsExitPopping(exit, args, imageBase, cursor + |Flatten(chunks)|, entry)
    ensures Simulate(Flatten(chunks) + (exit + tail), count, first, false, frameRegister, cpu, imageBase, cursor, entry, stack, memory)
         == LeaveFrom(ExecuteAll(instrs, frameRegister, cpu, stack, memory), args, stack, memory)
    decreases |instrs|
  {
    hide SimulateOne, IsExitPopping, Encodes, PopInteger, Leave;
    if instrs == [] {
      assert Flatten(chunks) + (exit + tail) == exit + tail;
      ExitSimulated(exit, args, tail, count, first, frameRegister, cpu, imageBase, cursor, entry, stack, memory);
    } else {
      var rest := Flatten(chunks[1..]) + (exit + tail);
      var code := Flatten(chunks) + (exit + tail);
      assert code == chunks[0] + rest;
      PopSimulated(chunks[0], rest, instrs[0].number, first, frameRegister, cpu, imageBase, cursor, entry, stack, memory);
      var next := PopInteger(cpu, stack, memory, instrs[0].number);
      if next.Ok? {
        assert code[|chunks[0]|..] == rest;
        PopsSimulated(chunks[1..], instrs[1..], exit, args, tail, count - 1, false, frameRegister, next.value, imageBase,
                      cursor + |chunks[0]|, entry, stack, memory);
      }
    }
  }

  /**
   * Started at an epilogue's first byte, or at any pop of it, the simulator does what
   * the processor would: it executes the rest of the epilogue and returns.
   */
  lemma EpilogueSimulated(chunks: seq<seq<uint8>>, instrs: seq<EpilogueInstr>, exit: seq<uint8>, args: nat, tail: seq<uint8>,
                          frameRegister: nat, cpu: Cpu, imageBase: uint64, cursor: nat,
                          entry: RuntimeFunction, stack: Bounds, memory: Memory)
    requires frameRegister < 16 && IsEpilogue(instrs) && EncodesAll(chunks, instrs, frameRegister)
    requires |instrs| + ExitSteps(exit) <= MAX_EPILOGUE_INSTRUCTIONS
    requires IsExitPopping(exit, args, imageBase, cursor + |Flatten(chunks)|, entry)
    ensures Simulate(Flatten(chunks) + (exit + tail), MAX_EPILOGUE_INSTRUCTIONS, true, false, frameRegister, cpu, imageBase, cursor,
                     entry, stack, memory)
         == LeaveFrom(ExecuteAll(instrs, frameRegister, cpu, stack, memory), args, stack, memory)
  {
    hide SimulateOne, IsExitPopping, PopInteger, Leave, OffsetRsp;
    if instrs == [] || instrs[0].Pop? {
      PopsSimulated(chunks, instrs, exit, args, tail, MAX_EPILOGUE_INSTRUCTIONS, true, frameRegister, cpu, imageBase, cursor, entry, stack, memory);
    } else {
      var rest := Flatten(chunks[1..]) + (exit + tail);
      var code := Flatten(chunks) + (exit + tail);
      assert code == chunks[0] + rest;
      match instrs[0] {
        case AddRsp(amount) =>
          AddSimulated(chunks[0], rest, amount, frameRegister, cpu, imageBase, cursor, entry, stack, memory);
        case LeaRsp(displacement) =>
          LeaSimulated(chunks[0], rest, displacement, frameRegister, cpu, imageBase, cursor, entry, stack, memory);
        case Pop(number) =>
      }
      var next := ExecuteOne(instrs[0], frameRegister, cpu, stack, memory);
      if next.Ok? {
        assert code[|chunks[0]|..] == rest;
        PopsSimulated(chunks[1..], instrs[1..], exit, args, tail, MAX_EPILOGUE_INSTRUCTIONS - 1, false, frameRegister, next.value, imageBase,
                      cursor + |chunks[0]|, entry, stack, memory);
      }
    }
  }

  lemma {:induction false} ExecuteAppend(left: seq<EpilogueInstr>, right: seq<EpilogueInstr>, frameRegister: nat, cpu: Cpu,
                                         stack: Bounds, memory: Memory)
    requires frameRegister < 16
    ensures var first := ExecuteAll(left, frameRegister, cpu, stack, memory);
            ExecuteAll(left + right, frameRegister, cpu, stack, memory) ==
            if first.Fail? then first else ExecuteAll(right, frameRegister, first.value, stack, memory)
  {
    hide ExecuteOne;
    if left == [] {
      assert left + right == right;
    } else {
      assert (left + right)[1..] == left[1..] + right;
      var next := ExecuteOne(left[0], frameRegister, cpu, stack, memory);
      if next.Ok? {
        ExecuteAppend(left[1..], right, frameRegister, next.value, stack, memory);
      }
    }
  }

  /** The context found does not depend on how much of the epilogue has already run. */
  lemma EpilogueSimulatedAnywhere(chunks: seq<seq<uint8>>, instrs: seq<EpilogueInstr>, j: nat, exit: seq<uint8>, tail: seq<uint8>,
                                  frameRegister: nat, start: Cpu, here: Cpu, imageBase: uint64, cursor: nat,
                                  entry: RuntimeFunction, stack: Bounds, memory: Memory)
    requires frameRegister < 16 && IsEpilogue(instrs) && EncodesAll(chunks, instrs, frameRegister)
    requires j <= |instrs| && |instrs| + ExitSteps(exit) <= MAX_EPILOGUE_INSTRUCTIONS
    requires ExecuteAll(instrs[..j], frameRegister, start, stack, memory) == Ok(here)
    requires IsExit(exit, imageBase, cursor + |Flatten(chunks[j..])|, entry)
    ensures Simulate(Flatten(chunks[j..]) + (exit + tail), MAX_EPILOGUE_INSTRUCTIONS, true, false, frameRegister, here, imageBase, cursor,
                     entry, stack, memory)
         == ReturnFrom(ExecuteAll(instrs, frameRegister, start, stack, memory), stack, memory)
  {
    hide SimulateOne, IsExitPopping, ExecuteOne, Encodes, Simulate;
    var rest := instrs[j..];
    if j > 0 {
      assert forall i :: 0 <= i < |rest| ==> rest[i] == instrs[1..][i + j - 1];
    } else {
      assert rest == instrs;
    }
    EpilogueSimulated(chunks[j..], rest, exit, 0, tail, frameRegister, here, imageBase, cursor, entry, stack, memory);
    assert instrs[..j] + rest == instrs;
    ExecuteAppend(instrs[..j], rest, frameRegister, start, stack, memory);
  }

  // Nothing else is recognised

  /** A way to read machine code as an epilogue: its instructions, its exit, and what follows. */
  datatype Reading = Reading(chunks: seq<seq<uint8>>, instrs: seq<EpilogueInstr>, exit: seq<uint8>, args: nat, tail: seq<uint8>)

  predicate Reads(r: Reading, code: seq<uint8>, count: nat, first: bool, frameRegister: nat, imageBase: uint64, cursor: nat,
                  entry: RuntimeFunction)
  {
    && code == Flatten(r.chunks) + (r.exit + r.tail)
    && EncodesAll(r.chunks, r.instrs, frameRegister) && (if first then IsEpilogue(r.instrs) else AllPops(r.instrs))
    && |r.instrs| + ExitSteps(r.exit) <= count
    && IsExitPopping(r.exit, r.args, imageBase, cursor + |Flatten(r.chunks)|, entry)
  }

  lemma AddRead(code: seq<uint8>, frameRegister: nat, cpu: Cpu, stack: Bounds, memory: Memory, small: bool)
    returns (instr: EpilogueInstr)
    requires frameRegister < 16
    requires if small then |code| >= 4 && code[..3] == [0x48, 0x83, 0xc4] && Signed8(code[3]) > 0
             else |code| >= 7 && code[..3] == [0x48, 0x81, 0xc4] && Signed32(code[3..7]) > 0
    ensures Encodes(code[..if small then 4 else 7], instr, frameRegister) && instr.AddRsp?
    ensures instr.amount == if small then Signed8(code[3]) else Signed32(code[3..7])
  {
    hide Load32;
    if small {
      instr := AddRsp(code[3]);
      assert code[..4] == code[..3] + [code[3]];
    } else {
      instr := AddRsp(Signed32(code[3..7]));
      assert code[..7][..3] == code[..3] && code[..7][3..] == code[3..7];
    }
  }

  lemma LeaRead(code: seq<uint8>, frameRegister: nat, cpu: Cpu, stack: Bounds, memory: Memory) returns (instr: EpilogueInstr)
    requires 0 < frameRegister < 16 && IsLea(code) && SimulateLea(code, frameRegister, cpu).Continue?
    ensures var step := SimulateLea(code, frameRegister, cpu);
            && 0 < step.length <= |code| && !step.prefixSeen && instr.LeaRsp?
            && Encodes(code[..step.length], instr, frameRegister)
            && ExecuteOne(instr, frameRegister, cpu, stack, memory) == Ok(step.cpu)
  {
    hide Load32, OffsetRsp, PopInteger;
    var at := if code[2] % 8 == 4 then 4 else 3;
    var mode := code[2] / 64;
    var length := at + (if mode == 1 then 1 else 4);
    var bytes := code[..length];
    instr := LeaRsp(if mode == 1 then Signed8(code[at]) else Signed32(code[at..at + 4]));
    assert bytes[at..] == if mode == 1 then [code[at]] else code[at..at + 4];
    assert bytes[0] == code[0] && bytes[1] == code[1] && bytes[2] == code[2] && bytes[3] == code[3];
  }

  lemma PopRead(code: seq<uint8>, frameRegister: nat) returns (instr: EpilogueInstr)
    requires code != [] && frameRegister < 16 && (0x58 <= code[0] <= 0x5f || IsRexPop(code))
    ensures var one := 0x58 <= code[0] <= 0x5f;
            && instr == Pop(if one then code[0] - 0x58 else code[1] - 0x58 + 8 * (code[0] % 2))
            && Encodes(code[..if one then 1 else 2], instr, frameRegister)
  {
    if 0x58 <= code[0] <= 0x5f {
      instr := Pop(code[0] - 0x58);
    } else {
      instr := Pop(code[1] - 0x58 + 8 * (code[0] % 2));
    }
  }

  /** An instruction after which the simulator goes on: a prefix, or one of an epilogue's. */
  lemma ContinueRead(code: seq<uint8>, first: bool, frameRegister: nat, cpu: Cpu, imageBase: uint64, cursor: nat, entry: RuntimeFunction,
                     stack: Bounds, memory: Memory)
    returns (instr: EpilogueInstr)
    requires code != [] && frameRegister < 16
    requires SimulateOne(code, first, false, frameRegister, cpu, imageBase, cursor, entry, stack, memory).Continue?
    ensures var step := SimulateOne(code, first, false, frameRegister, cpu, imageBase, cursor, entry, stack, memory);
            && 0 < step.length <= |code|
            && if step.prefixSeen then step == Continue(cpu, 1, true) && code[0] == 0xf2
               else
                 && Encodes(code[..step.length], instr, frameRegister)
                 && (if instr.Pop? then NonvolatileInteger(instr.number) else first)
                 && ExecuteOne(instr, frameRegister, cpu, stack, memory) == Ok(step.cpu)
  {
    hide SimulateJump, SimulateLea, OffsetRsp, PopInteger, PopReturn, Encodes, Load32, AddToRsp;
    instr := Pop(0);
    if first && |code| >= 4 && code[..3] == [0x48, 0x83, 0xc4] {
      if Signed8(code[3]) > 0 {
        instr := AddRead(code, frameRegister, cpu, stack, memory, true);
      }
    } else if first && |code| >= 7 && code[..3] == [0x48, 0x81, 0xc4] {
      if Signed32(code[3..7]) > 0 {
        instr := AddRead(code, frameRegister, cpu, stack, memory, false);
      }
    } else if first && frameRegister != 0 && IsLea(code) {
      instr := LeaRead(code, frameRegister, cpu, stack, memory);
    } else if 0x58 <= code[0] <= 0x5f || IsRexPop(code) {
      instr := PopRead(code, frameRegister);
    } else {
      JumpNeverContinues(code, cpu, imageBase, cursor, entry, stack, memory);
    }
  }

  lemma JumpNeverContinues(code: seq<uint8>, cpu: Cpu, imageBase: uint64, cursor: nat, entry: RuntimeFunction, stack: Bounds, memory: Memory)
    requires code != []
    ensures !SimulateJump(code, cpu, imageBase, cursor, entry, stack, memory).Continue?
  {
    hide LeavesFunction, PopReturn;
  }

  lemma JumpRead(code: seq<uint8>, cpu: Cpu, imageBase: uint64, cursor: nat, entry: RuntimeFunction, stack: Bounds, memory: Memory)
    returns (size: nat)
    requires code != [] && SimulateJump(code, cpu, imageBase, cursor, entry, stack, memory).Finish?
    ensures size <= |code| && IsTransfer(code[..size], imageBase, cursor, entry)
    ensures SimulateJump(code, cpu, imageBase, cursor, entry, stack, memory) == FinishIf(PopReturn(cpu, stack, memory))
  {
    hide LeavesFunction, PopReturn, Load32;
    size := if |code| >= 2 && code[0] == 0xeb then 2
            else if |code| >= 5 && code[0] == 0xe9 then 5
            else if |code| >= 6 && code[0] == 0xff && code[1] == 0x25 then 6
            else IndirectJumpSize(code).value;
    var bytes := code[..size];
    if size == 5 && code[0] == 0xe9 {
      assert bytes[1..] == code[1..5];
    }
    if size == 6 && code[0] == 0xff {
      assert bytes[..2] == [0xff, 0x25];
    }
  }

  /** An instruction at which the simulator is done is an exit. */
  lemma FinishRead(code: seq<uint8>, first: bool, prefixSeen: bool, frameRegister: nat, cpu: Cpu, imageBase: uint64, cursor: nat,
                   entry: RuntimeFunction, stack: Bounds, memory: Memory)
    returns (size: nat, args: nat)
    requires code != [] && frameRegister < 16
    requires SimulateOne(code, first, prefixSeen, frameRegister, cpu, imageBase, cursor, entry, stack, memory).Finish?
    ensures size <= |code| && IsLeave(code[..size], args, imageBase, cursor, entry)
    ensures SimulateOne(code, first, prefixSeen, frameRegister, cpu, imageBase, cursor, entry, stack, memory)
         == FinishIf(Leave(cpu, args, stack, memory))
  {
    hide SimulateJump, SimulateLea, OffsetRsp, PopInteger, PopReturn, Load16, Load32, Signed8, Signed32;
    LeaNeverFinishes(code, frameRegister, cpu);
    size, args := 1, 0;
    if code[0] == 0xc3 {
      assert code[..1] == [0xc3];
    } else if |code| >= 2 && code[0] == 0xf3 && code[1] == 0xc3 {
      size := 2;
      assert code[..2] == [0xf3, 0xc3];
    } else if |code| >= 3 && code[0] == 0xc2 {
      size, args := 3, Load16(code[1..3]);
      assert code[..3][1..] == code[1..3];
      ReturnAddsArgs(cpu, args, stack, memory);
    } else {
      size := JumpRead(code, cpu, imageBase, cursor, entry, stack, memory);
    }
  }

  lemma LeaNeverFinishes(code: seq<uint8>, frameRegister: nat, cpu: Cpu)
    ensures |code| >= 4 && frameRegister < 16 ==> !SimulateLea(code, frameRegister, cpu).Finish?
  {
    hide Load32;
  }

  /** Past a branch prefix only an exit is left. */
  lemma PrefixedFinishes(code: seq<uint8>, frameRegister: nat, cpu: Cpu, imageBase: uint64, cursor: nat, entry: RuntimeFunction,
                         stack: Bounds, memory: Memory)
    requires code != [] && frameRegister < 16
    ensures !SimulateOne(code, false, true, frameRegister, cpu, imageBase, cursor, entry, stack, memory).Continue?
  {
    hide SimulateJump, PopReturn;
    JumpNeverContinues(code, cpu, imageBase, cursor, entry, stack, memory);
  }

  /** Whatever the simulator answers, the code reads as an epilogue, and the answer is what that epilogue does. */
  lemma {:induction false} AnswerIsRead(code: seq<uint8>, count: nat, first: bool, frameRegister: nat, cpu: Cpu, imageBase: uint64,
                                        cursor: nat, entry: RuntimeFunction, stack: Bounds, memory: Memory)
    returns (r: Reading)
    requires frameRegister < 16
    requires Simulate(code, count, first, false, frameRegister, cpu, imageBase, cursor, entry, stack, memory).Some?
    ensures Reads(r, code, count, first, frameRegister, imageBase, cursor, entry)
    ensures Simulate(code, count, first, false, frameRegister, cpu, imageBase, cursor, entry, stack, memory)
         == LeaveFrom(ExecuteAll(r.instrs, frameRegister, cpu, stack, memory), r.args, stack, memory)
    decreases count
  {
    hide SimulateOne, IsLeave, Leave, Encodes, ExecuteOne;
    var step := SimulateOne(code, first, false, frameRegister, cpu, imageBase, cursor, entry, stack, memory);
    if step.Finish? {
      var size, args := FinishRead(code, first, false, frameRegister, cpu, imageBase, cursor, entry, stack, memory);
      LeaveFinishes(code[..size], args, [], first, false, frameRegister, cpu, imageBase, cursor, entry, stack, memory);
      r := Reading([], [], code[..size], args, code[size..]);
      assert code == Flatten([]) + (r.exit + r.tail);
    } else {
      var instr := ContinueRead(code, first, frameRegister, cpu, imageBase, cursor, entry, stack, memory);
      var rest := code[step.length..];
      if step.prefixSeen {
        PrefixedFinishes(rest, frameRegister, cpu, imageBase, cursor + 1, entry, stack, memory);
        var size, args := FinishRead(rest, false, true, frameRegister, cpu, imageBase, cursor + 1, entry, stack, memory);
        r := Reading([], [], code[..size + 1], args, code[size + 1..]);
        assert r.exit[1..] == rest[..size] && code == Flatten([]) + (r.exit + r.tail);
      } else {
        var more := AnswerIsRead(rest, count - 1, false, frameRegister, step.cpu, imageBase, cursor + step.length, entry, stack, memory);
        r := ReadOn(code[..step.length], instr, more);
        ReadsOn(code[..step.length], instr, more, rest, count, first, frameRegister, imageBase, cursor, entry);
        assert code == code[..step.length] + rest;
        assert r.instrs[1..] == more.instrs;
      }
    }
  }

  function ReadOn(chunk: seq<uint8>, instr: EpilogueInstr, more: Reading): Reading {
    more.(chunks := [chunk] + more.chunks, instrs := [instr] + more.instrs)
  }

  lemma ReadsOn(chunk: seq<uint8>, instr: EpilogueInstr, more: Reading, rest: seq<uint8>, count: nat, first: bool, frameRegister: nat,
                imageBase: uint64, cursor: nat, entry: RuntimeFunction)
    requires count > 0 && Reads(more, rest, count - 1, false, frameRegister, imageBase, cursor + |chunk|, entry)
    requires Encodes(chunk, instr, frameRegister) && (if instr.Pop? then NonvolatileInteger(instr.number) else first)
    ensures Reads(ReadOn(chunk, instr, more), chunk + rest, count, first, frameRegister, imageBase, cursor, entry)
  {
    hide Encodes, IsExitPopping;
    var r := ReadOn(chunk, instr, more);
    assert r.chunks[1..] == more.chunks && r.instrs[1..] == more.instrs;
    assert chunk + rest == (chunk + Flatten(more.chunks)) + (more.exit + more.tail);
  }

  /** The simulator answers exactly when the code reads as an epilogue that can be executed, with what that does. */
  lemma AnswerIffRead(code: seq<uint8>, frameRegister: nat, cpu: Cpu, imageBase: uint64, cursor: nat, entry: RuntimeFunction,
                      stack: Bounds, memory: Memory, found: Cpu)
    requires frameRegister < 16
    ensures Simulate(code, MAX_EPILOGUE_INSTRUCTIONS, true, false, frameRegister, cpu, imageBase, cursor, entry, stack, memory) == Some(found)
            <==> exists r: Reading ::
                   && Reads(r, code, MAX_EPILOGUE_INSTRUCTIONS, true, frameRegister, imageBase, cursor, entry)
                   && LeaveFrom(ExecuteAll(r.instrs, frameRegister, cpu, stack, memory), r.args, stack, memory) == Some(found)
  {
    hide Simulate, LeaveFrom, ExecuteAll;
    var answer := Simulate(code, MAX_EPILOGUE_INSTRUCTIONS, true, false, frameRegister, cpu, imageBase, cursor, entry, stack, memory);
    if answer == Some(found) {
      var r := AnswerIsRead(code, MAX_EPILOGUE_INSTRUCTIONS, true, frameRegister, cpu, imageBase, cursor, entry, stack, memory);
    }
    forall r: Reading |
      Reads(r, code, MAX_EPILOGUE_INSTRUCTIONS, true, frameRegister, imageBase, cursor, entry) &&
      LeaveFrom(ExecuteAll(r.instrs, frameRegister, cpu, stack, memory), r.args, stack, memory) == Some(found)
      ensures answer == Some(found)
    {
      EpilogueSimulated(r.chunks, r.instrs, r.exit, r.args, r.tail, frameRegister, cpu, imageBase, cursor, entry, stack, memory);
    }
  }

  // The first bytes decide most cases

  predicate BeginsExit(code: seq<uint8>) {
    || (code != [] && (code[0] == 0xc3 || code[0] == 0xc2 || code[0] == 0xeb || code[0] == 0xe9 || code[0] == 0xf2))
    || (|code| >= 2 && ((code[0] == 0xf3 && code[1] == 0xc3) || (code[0] == 0xff && code[1] == 0x25)))
    || (|code| >= 3 && code[0] / 8 == 9 && code[1] == 0xff && code[2] / 8 % 8 == 4)
  }

  /** The code begins with an instruction an epilogue may begin with: add rsp, lea rsp, a pop, a return or a jump. */
  predicate BeginsEpilogue(code: seq<uint8>) {
    || (|code| >= 3 && code[0] == 0x48 && (code[1] == 0x83 || code[1] == 0x81) && code[2] == 0xc4)
    || IsLea(code) || (code != [] && 0x58 <= code[0] <= 0x5f) || IsRexPop(code)
    || BeginsExit(code)
  }

  lemma ExitBegins(exit: seq<uint8>, args: nat, tail: seq<uint8>, imageBase: uint64, cursor: nat, entry: RuntimeFunction)
    requires IsExitPopping(exit, args, imageBase, cursor, entry)
    ensures BeginsExit(exit + tail)
  {
    hide LeavesFunction, IndirectJumpSize, Load16;
    if |exit| == 6 && exit[..2] == [0xff, 0x25] {
      assert exit[0] == exit[..2][0] && exit[1] == exit[..2][1];
    }
  }

  lemma InstrBegins(bytes: seq<uint8>, instr: EpilogueInstr, frameRegister: nat, tail: seq<uint8>)
    requires frameRegister < 16 && Encodes(bytes, instr, frameRegister)
    ensures BeginsEpilogue(bytes + tail)
  {
    hide Load32, BeginsExit;
    if instr.AddRsp? && |bytes| == 7 {
      assert bytes[..3][0] == bytes[0] && bytes[..3][1] == bytes[1] && bytes[..3][2] == bytes[2];
    }
  }

  /** Code that begins otherwise cannot be read as an epilogue. */
  lemma ReadingBegins(r: Reading, code: seq<uint8>, count: nat, first: bool, frameRegister: nat, imageBase: uint64, cursor: nat,
                      entry: RuntimeFunction)
    requires frameRegister < 16 && Reads(r, code, count, first, frameRegister, imageBase, cursor, entry)
    ensures BeginsEpilogue(code)
  {
    hide Encodes, IsExitPopping, BeginsExit, IsLea, IsRexPop;
    if r.instrs == [] {
      assert code == r.exit + r.tail;
      ExitBegins(r.exit, r.args, r.tail, imageBase, cursor + |Flatten(r.chunks)|, entry);
    } else {
      var rest := Flatten(r.chunks[1..]) + (r.exit + r.tail);
      assert code == r.chunks[0] + rest;
      InstrBegins(r.chunks[0], r.instrs[0], frameRegister, rest);
    }
  }
}
