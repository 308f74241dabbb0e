/** Unwinding from inside a declared version-2 epilogue. */
module UnwindV2 {
  import opened Bytes
  import opened Context
  import opened UnwindCodes
  import opened UnwindApply
  import opened UnwindImage

  predicate IsPush(op: Op) {
    op.PushNonvol? || op.PushMachframe?
  }

  /** The operations from the first push on. */
  function FromFirstPush(ops: seq<Code>): (r: seq<Code>)
    ensures r != [] ==> IsPush(r[0].op)
  {
    if ops == [] || IsPush(ops[0].op) then ops else FromFirstPush(ops[1..])
  }

  predicate HasPush(ops: seq<Code>) {
    FromFirstPush(ops) != []
  }

  // Choosing the record that holds the pushes

  datatype Selected = Selected(record: Record, depth: nat)

  /** The first record of the chain with a push, or the last record. */
  function SelectRecord(m: LoadedModule, entry: RuntimeFunction, depth: nat): (r: Outcome<Selected>)
    requires depth <= MAX_CHAIN_DEPTH
    ensures r.Ok? ==> depth <= r.value.depth < MAX_CHAIN_DEPTH && Sound(r.value.record)
    decreases MAX_CHAIN_DEPTH - depth
  {
    if depth == MAX_CHAIN_DEPTH then Fail(ChainTooLong)
    else
      match ReadChecked(m, entry)
      case None => Fail(BadRecord)
      case Some(r) =>
        ParsedRecord(m, entry.unwindData);
        if HasPush(PrologueOps(r)) || !r.Chained() then Ok(Selected(r, depth))
        else
          match NextEntry(m, r)
          case None => Fail(BadChain)
          case Some(next) => SelectRecord(m, next, depth + 1)
  }

  /** No record above the selected one may hold a push of its own. */
  function CheckParents(m: LoadedModule, r: Record, depth: nat): Outcome<()>
    requires depth < MAX_CHAIN_DEPTH
    decreases MAX_CHAIN_DEPTH - depth
  {
    if !r.Chained() then Ok(())
    else if depth + 1 >= MAX_CHAIN_DEPTH then Fail(ChainTooLong)
    else
      match NextEntry(m, r)
      case None => Fail(BadChain)
      case Some(next) =>
        match ReadChecked(m, next)
        case None => Fail(BadRecord)
        case Some(parent) =>
          ParsedRecord(m, next.unwindData);
          if HasPush(PrologueOps(parent)) then Fail(BadChain) else CheckParents(m, parent, depth + 1)
  }

  // Replaying the pops that remain

  function PopLength(number: nat): nat {
    if number >= 8 then 2 else 1
  }

  datatype Popped = Popped(cpu: Cpu, offset: nat, rest: seq<Code>)

  /** Undo the leading pushes, skipping those whose pop lies before the target offset. */
  function PopPushes(ops: seq<Code>, current: nat, target: nat, cpu: Cpu, stack: Bounds, memory: Memory): Outcome<Popped> {
    if ops == [] || !ops[0].op.PushNonvol? then Ok(Popped(cpu, current, ops))
    else if ops[0].op.number >= 16 then Fail(BadOperation)
    else
      var number := ops[0].op.number;
      var next :- if current >= target then PopInteger(cpu, stack, memory, number) else Ok(cpu);
      PopPushes(ops[1..], current + PopLength(number), target, next, stack, memory)
  }

  /** A volatile one-byte pop may follow the pushes. */
  function PopVolatile(p: Popped, target: nat): Outcome<Popped> {
    if p.rest == [] || p.rest[0].op != AllocSmall(8) then Ok(p)
    else
      var cpu :- if p.offset >= target then AddToRsp(p.cpu, 8) else Ok(p.cpu);
      Ok(Popped(cpu, p.offset + 1, p.rest[1..]))
  }

  /** The transfer out of the function: a return, or the machine frame it was entered with. */
  function LeaveFunction(p: Popped, stack: Bounds, memory: Memory): Outcome<Cpu> {
    if p.rest == [] then PopReturn(p.cpu, stack, memory)
    else if !p.rest[0].op.PushMachframe? || |p.rest| != 1 then Fail(BadOperation)
    else
      var rip :- ReadWord(stack, memory, p.cpu.Rsp());
      var rspAt :- CheckedAdd(p.cpu.Rsp(), 24);
      var rsp :- ReadWord(stack, memory, rspAt);
      Ok(p.cpu.WithRsp(rsp).(rip := rip))
  }

  function ReplayEpilogue(suffix: seq<Code>, target: nat, cpu: Cpu, stack: Bounds, memory: Memory): Outcome<Cpu> {
    var pushes :- PopPushes(suffix, 0, target, cpu, stack, memory);
    var popped :- PopVolatile(pushes, target);
    LeaveFunction(popped, stack, memory)
  }

  function UnwindEpilogue(m: LoadedModule, entry: RuntimeFunction, target: nat, cpu: Cpu, stack: Bounds, memory: Memory): Outcome<Cpu> {
    var selected :- SelectRecord(m, entry, 0);
    var _ :- CheckParents(m, selected.record, selected.depth);
    ReplayEpilogue(FromFirstPush(PrologueOps(selected.record)), target, cpu, stack, memory)
  }

  // The method

  method FindFirstPush(r: Record) returns (index: nat)
    requires Sound(r)
    ensures index <= Count(r.codes) && Walks(r.codes, r.version, index)
    ensures Decode(r.codes, r.version, index) == FromFirstPush(PrologueOps(r))
  {
    hide OperationSlots, Validate, OpAt, PrologueOps;
    OpsOfRecord(r);
    index := r.epilogues.codeSlots;
    ghost var goal := FromFirstPush(Decode(r.codes, r.version, index));
    while index < Count(r.codes)
      invariant index <= Count(r.codes) && Walks(r.codes, r.version, index)
      invariant FromFirstPush(Decode(r.codes, r.version, index)) == goal
    {
      var op := OpAt(r.codes, r.version, index);
      var rest := index + SlotsAt(r.codes, r.version, index);
      DecodeStep(r.codes, r.version, index);
      FromFirstPushCons(Code(OffsetAt(r.codes, index), op), Decode(r.codes, r.version, rest));
      if IsPush(op) {
        return;
      }
      index := rest;
    }
  }

  lemma FromFirstPushCons(head: Code, rest: seq<Code>)
    ensures FromFirstPush([head] + rest) == if IsPush(head.op) then [head] + rest else FromFirstPush(rest)
  {
    assert ([head] + rest)[1..] == rest;
  }

  method SelectPushRecord(m: LoadedModule, firstEntry: RuntimeFunction) returns (result: Outcome<Selected>, index: nat)
    ensures result == SelectRecord(m, firstEntry, 0)
    ensures result.Ok? ==> var r := result.value.record;
                           index <= Count(r.codes) && Walks(r.codes, r.version, index) &&
                           Decode(r.codes, r.version, index) == FromFirstPush(PrologueOps(r))
  {
    hide ReadChecked, NextEntry, Walks, Decode, PrologueOps, FromFirstPush, ParseRecord;
    var entry := firstEntry;
    var depth := 0;
    index := 0;
    while depth < MAX_CHAIN_DEPTH
      invariant depth <= MAX_CHAIN_DEPTH
      invariant SelectRecord(m, entry, depth) == SelectRecord(m, firstEntry, 0)
    {
      var record := ReadCheckedRecord(m, entry);
      if record.None? {
        return Fail(BadRecord), 0;
      }
      var r := record.value;
      ReadCheckedIsSound(m, entry);
      index := FindFirstPush(r);
      DecodeEmptyAtEnd(r.codes, r.version, index);
      if index < Count(r.codes) || !r.Chained() {
        return Ok(Selected(r, depth)), index;
      }
      var next := NextEntry(m, r);
      if next.None? {
        return Fail(BadChain), 0;
      }
      entry := next.value;
      depth := depth + 1;
    }
    result := Fail(ChainTooLong);
  }

  lemma DecodeEmptyAtEnd(codes: Codes, version: nat, index: nat)
    requires index <= Count(codes) && Walks(codes, version, index)
    ensures Decode(codes, version, index) == [] <==> index == Count(codes)
  {
  }

  lemma ReadCheckedIsSound(m: LoadedModule, entry: RuntimeFunction)
    requires ReadChecked(m, entry).Some?
    ensures Sound(ReadChecked(m, entry).value)
    ensures ReadChecked(m, entry).value.epilogues.codeSlots <= Count(ReadChecked(m, entry).value.codes)
    ensures RangesAreValid(ReadChecked(m, entry).value, entry)
    ensures ParseRecord(m, entry.unwindData) == ReadChecked(m, entry)
  {
    ParsedRecord(m, entry.unwindData);
  }

  method CheckParentRecords(m: LoadedModule, first: Record, firstDepth: nat) returns (result: Outcome<()>)
    requires firstDepth < MAX_CHAIN_DEPTH
    ensures result == CheckParents(m, first, firstDepth)
  {
    hide ReadChecked, NextEntry, Walks, Decode, PrologueOps, FromFirstPush, ParseRecord;
    var r, depth := first, firstDepth;
    while r.Chained()
      invariant depth < MAX_CHAIN_DEPTH
      invariant CheckParents(m, r, depth) == CheckParents(m, first, firstDepth)
      decreases MAX_CHAIN_DEPTH - depth
    {
      if depth + 1 >= MAX_CHAIN_DEPTH {
        return Fail(ChainTooLong);
      }
      var next := NextEntry(m, r);
      if next.None? {
        return Fail(BadChain);
      }
      var record := ReadCheckedRecord(m, next.value);
      if record.None? {
        return Fail(BadRecord);
      }
      ReadCheckedIsSound(m, next.value);
      var index := FindFirstPush(record.value);
      DecodeEmptyAtEnd(record.value.codes, record.value.version, index);
      if index < Count(record.value.codes) {
        return Fail(BadChain);
      }
      r := record.value;
      depth := depth + 1;
    }
    result := Ok(());
  }

  method UnwindV2Epilogue(m: LoadedModule, entry: RuntimeFunction, epilogueOffset: nat, context: ContextRecord,
                          stack: Bounds, memory: Memory)
    returns (failure: Option<Reason>)
    modifies context
    ensures var r := UnwindEpilogue(m, entry, epilogueOffset, old(context.Value()), stack, memory);
            if r.Ok? then failure.None? && context.Value() == r.value else failure == Some(r.reason)
  {
    var selected, index := SelectPushRecord(m, entry);
    if selected.Fail? {
      return Some(selected.reason);
    }
    var parents := CheckParentRecords(m, selected.value.record, selected.value.depth);
    if parents.Fail? {
      return Some(parents.reason);
    }
    failure := ReplayCodes(selected.value.record, index, epilogueOffset, context, stack, memory);
  }

  /** One PUSH_NONVOL or ALLOC_SMALL slot further. */
  lemma OneSlot(codes: Codes, version: nat, index: nat)
    requires index < Count(codes) && Walks(codes, version, index)
    requires OperationAt(codes, index) == PUSH_NONVOL || OperationAt(codes, index) == ALLOC_SMALL || OperationAt(codes, index) == PUSH_MACHFRAME
    ensures SlotsAt(codes, version, index) == 1
    ensures Walks(codes, version, index + 1)
    ensures Decode(codes, version, index) == [Code(OffsetAt(codes, index), OpAt(codes, version, index))] + Decode(codes, version, index + 1)
  {
  }

  lemma OpKinds(codes: Codes, version: nat, index: nat)
    requires index < Count(codes) && Walks(codes, version, index)
    ensures var op := OpAt(codes, version, index);
            && (op.PushNonvol? <==> OperationAt(codes, index) == PUSH_NONVOL)
            && (op.PushNonvol? ==> op.number == InfoAt(codes, index))
            && (op == AllocSmall(8) <==> OperationAt(codes, index) == ALLOC_SMALL && InfoAt(codes, index) == 0)
            && (op.PushMachframe? <==> OperationAt(codes, index) == PUSH_MACHFRAME)
    ensures Decode(codes, version, index) != [] && Decode(codes, version, index)[0].op == OpAt(codes, version, index)
  {
  }

  method ReplayPushes(r: Record, from: nat, epilogueOffset: nat, context: ContextRecord, stack: Bounds, memory: Memory)
    returns (failure: Option<Reason>, index: nat, currentOffset: nat)
    requires from <= Count(r.codes) && Walks(r.codes, r.version, from)
    modifies context
    ensures var result := PopPushes(Decode(r.codes, r.version, from), 0, epilogueOffset, old(context.Value()), stack, memory);
            if result.Ok? then
              && failure.None? && index <= Count(r.codes) && Walks(r.codes, r.version, index)
              && result.value == Popped(context.Value(), currentOffset, Decode(r.codes, r.version, index))
            else failure == Some(result.reason)
  {
    hide OperationSlots, OpAt, Word, Walks, Decode;
    var codes := r.codes;
    index, currentOffset := from, 0;
    ghost var pushes := PopPushes(Decode(codes, r.version, index), 0, epilogueOffset, context.Value(), stack, memory);
    while index < Count(codes) && OperationAt(codes, index) == PUSH_NONVOL
      invariant index <= Count(codes) && Walks(codes, r.version, index)
      invariant PopPushes(Decode(codes, r.version, index), currentOffset, epilogueOffset, context.Value(), stack, memory) == pushes
    {
      var info := InfoAt(codes, index);
      OpKinds(codes, r.version, index);
      OneSlot(codes, r.version, index);
      PopPushesCons(Code(OffsetAt(codes, index), PushNonvol(info)), Decode(codes, r.version, index + 1), currentOffset, epilogueOffset,
                    context.Value(), stack, memory);
      if currentOffset >= epilogueOffset {
        var problem := RestoreIntegerAt(context, stack, memory, info, context.integer[RSP]);
        if problem.None? {
          problem := AdvanceRsp(context, 8);
        }
        if problem.Some? {
          return problem, index, currentOffset;
        }
      }
      currentOffset := currentOffset + (if info >= 8 then 2 else 1);
      index := index + 1;
    }
    DecodeEmptyAtEnd(codes, r.version, index);
    if index < Count(codes) {
      OpKinds(codes, r.version, index);
    }
    failure := None;
  }

  method ReplayCodes(r: Record, from: nat, epilogueOffset: nat, context: ContextRecord, stack: Bounds, memory: Memory)
    returns (failure: Option<Reason>)
    requires from <= Count(r.codes) && Walks(r.codes, r.version, from)
    modifies context
    ensures var result := ReplayEpilogue(Decode(r.codes, r.version, from), epilogueOffset, old(context.Value()), stack, memory);
            if result.Ok? then failure.None? && context.Value() == result.value else failure == Some(result.reason)
  {
    hide OperationSlots, OpAt, Word, Walks, Decode;
    var codes := r.codes;
    ghost var pushes := PopPushes(Decode(codes, r.version, from), 0, epilogueOffset, context.Value(), stack, memory);
    var index, currentOffset;
    failure, index, currentOffset := ReplayPushes(r, from, epilogueOffset, context, stack, memory);
    if failure.Some? {
      return;
    }
    DecodeEmptyAtEnd(codes, r.version, index);
    if index < Count(codes) {
      OpKinds(codes, r.version, index);
    }
    if index < Count(codes) && OperationAt(codes, index) == ALLOC_SMALL && InfoAt(codes, index) == 0 {
      OneSlot(codes, r.version, index);
      if currentOffset >= epilogueOffset {
        var problem := AdvanceRsp(context, 8);
        if problem.Some? {
          return problem;
        }
      }
      currentOffset := currentOffset + 1;
      index := index + 1;
    }
    ghost var popped := PopVolatile(pushes.value, epilogueOffset);
    assert popped == Ok(Popped(context.Value(), currentOffset, Decode(codes, r.version, index)));
    DecodeEmptyAtEnd(codes, r.version, index);
    if index < Count(codes) {
      OpKinds(codes, r.version, index);
      if OperationAt(codes, index) != PUSH_MACHFRAME || index + 1 != Count(codes) {
        if OperationAt(codes, index) == PUSH_MACHFRAME {
          OneSlot(codes, r.version, index);
          DecodeEmptyAtEnd(codes, r.version, index + 1);
        }
        return Some(BadOperation);
      }
      OneSlot(codes, r.version, index);
      DecodeEmptyAtEnd(codes, r.version, index + 1);
      var left := LeaveThroughMachineFrame(context.Value(), stack, memory);
      if left.Fail? {
        return Some(left.reason);
      }
      context.Assign(left.value);
      return None;
    }
    failure := ReturnThroughStack(context, stack, memory);
  }

  /** The optional error code has already been removed when an epilogue runs. */
  function LeaveThroughMachineFrame(cpu: Cpu, stack: Bounds, memory: Memory): Outcome<Cpu> {
    LeaveFunction(Popped(cpu, 0, [Code(0, PushMachframe(false))]), stack, memory)
  }

  lemma PopPushesCons(head: Code, rest: seq<Code>, current: nat, target: nat, cpu: Cpu, stack: Bounds, memory: Memory)
    requires head.op.PushNonvol? && head.op.number < 16
    ensures PopPushes([head] + rest, current, target, cpu, stack, memory)
         == var next := if current >= target then PopInteger(cpu, stack, memory, head.op.number) else Ok(cpu);
            if next.Fail? then Fail(next.reason)
            else PopPushes(rest, current + PopLength(head.op.number), target, next.value, stack, memory)
  {
    assert ([head] + rest)[1..] == rest;
  }

  // An epilogue may be entered anywhere

  /** The processor after really executing the pops of the first k pushes. */
  function ExecutePops(ops: seq<Code>, k: nat, cpu: Cpu, stack: Bounds, memory: Memory): Outcome<Cpu>
    requires LeadingPushes(ops, k)
  {
    if k == 0 then Ok(cpu)
    else
      var next :- PopInteger(cpu, stack, memory, ops[0].op.number);
      ExecutePops(ops[1..], k - 1, next, stack, memory)
  }

  predicate LeadingPushes(ops: seq<Code>, k: nat) {
    k <= |ops| && forall i :: 0 <= i < k ==> ops[i].op.PushNonvol? && ops[i].op.number < 16
  }

  /** The encoded length of the first k pops. */
  function PopsLength(ops: seq<Code>, k: nat): nat
    requires LeadingPushes(ops, k)
  {
    if k == 0 then 0 else PopLength(ops[0].op.number) + PopsLength(ops[1..], k - 1)
  }

  lemma {:induction false} PopPushesFrom(ops: seq<Code>, current: nat, target: nat, cpu: Cpu, stack: Bounds, memory: Memory)
    requires current >= target
    ensures PopPushes(ops, current, target, cpu, stack, memory) == PopPushes(ops, current, 0, cpu, stack, memory)
    ensures var r := PopPushes(ops, current, target, cpu, stack, memory); r.Ok? ==> r.value.offset >= current
  {
    if ops != [] && ops[0].op.PushNonvol? && ops[0].op.number < 16 {
      var next := PopInteger(cpu, stack, memory, ops[0].op.number);
      if next.Ok? {
        PopPushesFrom(ops[1..], current + PopLength(ops[0].op.number), target, next.value, stack, memory);
      }
    }
  }

  lemma {:induction false} PopPushesAfter(ops: seq<Code>, k: nat, current: nat, cpu: Cpu, stack: Bounds, memory: Memory)
    requires LeadingPushes(ops, k)
    ensures var target := current + PopsLength(ops, k);
            var executed := ExecutePops(ops, k, cpu, stack, memory);
            && PopPushes(ops, current, 0, cpu, stack, memory)
               == (if executed.Fail? then Fail(executed.reason)
                   else PopPushes(ops, current, target, executed.value, stack, memory))
            && (executed.Ok? ==>
                  var r := PopPushes(ops, current, target, executed.value, stack, memory);
                  r.Ok? ==> r.value.offset >= target)
  {
    hide PopInteger;
    var target := current + PopsLength(ops, k);
    if k == 0 {
      PopPushesFrom(ops, current, target, cpu, stack, memory);
      PopPushesFrom(ops, current, 0, cpu, stack, memory);
    } else {
      var length := PopLength(ops[0].op.number);
      assert current < target;
      var next := PopInteger(cpu, stack, memory, ops[0].op.number);
      if next.Ok? {
        PopPushesAfter(ops[1..], k - 1, current + length, next.value, stack, memory);
      }
    }
  }

  /**
   * Whatever number of the epilogue's pops have already run, replaying from there
   * gives what replaying from its start gives, or the pops themselves left the stack.
   */
  lemma EpilogueResumes(suffix: seq<Code>, k: nat, cpu: Cpu, stack: Bounds, memory: Memory)
    requires LeadingPushes(suffix, k)
    ensures var executed := ExecutePops(suffix, k, cpu, stack, memory);
            ReplayEpilogue(suffix, 0, cpu, stack, memory) ==
            if executed.Fail? then Fail(executed.reason)
            else ReplayEpilogue(suffix, PopsLength(suffix, k), executed.value, stack, memory)
  {
    hide LeaveFunction, PopPushes;
    PopPushesAfter(suffix, k, 0, cpu, stack, memory);
  }

  /** The same after the volatile one-byte pop, whatever volatile register it loaded. */
  lemma EpilogueResumesAfterVolatilePop(suffix: seq<Code>, k: nat, cpu: Cpu, stack: Bounds, memory: Memory, number: nat, value: uint64)
    requires LeadingPushes(suffix, k) && k < |suffix| && suffix[k].op == AllocSmall(8)
    requires number < 16 && !NonvolatileInteger(number) && number != RSP
    ensures var start := ReplayEpilogue(suffix, 0, cpu, stack, memory);
            var executed := ExecutePops(suffix, k, cpu, stack, memory);
            executed.Ok? && executed.value.Rsp() + 8 < TWO_64 ==>
              var here := executed.value.WithRsp(executed.value.Rsp() + 8).WithInteger(number, value);
              var resumed := ReplayEpilogue(suffix, PopsLength(suffix, k) + 1, here, stack, memory);
              resumed == if start.Fail? then start else Ok(start.value.WithInteger(number, value))
  {
    hide Word, LeaveFunction;
    var executed := ExecutePops(suffix, k, cpu, stack, memory);
    if executed.Ok? && executed.value.Rsp() + 8 < TWO_64 {
      var target := PopsLength(suffix, k);
      var here := executed.value.WithRsp(executed.value.Rsp() + 8).WithInteger(number, value);
      PopPushesPassed(suffix, k, 0, target + 1, here, stack, memory);
      PopPushesPassed(suffix, k, 0, target, executed.value, stack, memory);
      EpilogueResumes(suffix, k, cpu, stack, memory);
      LeaveKeepsVolatile(executed.value.WithRsp(executed.value.Rsp() + 8), target + 1, suffix[k + 1..], stack, memory, number, value);
    }
  }

  lemma LeaveKeepsVolatile(cpu: Cpu, offset: nat, rest: seq<Code>, stack: Bounds, memory: Memory, number: nat, value: uint64)
    requires number < 16 && number != RSP
    ensures var start := LeaveFunction(Popped(cpu, offset, rest), stack, memory);
            LeaveFunction(Popped(cpu.WithInteger(number, value), offset, rest), stack, memory) ==
            if start.Fail? then start else Ok(start.value.WithInteger(number, value))
  {
    hide Word;
    var changed := cpu.WithInteger(number, value);
    if rest == [] && stack.Fits(cpu.Rsp(), 8) && cpu.Rsp() + 8 < TWO_64 {
      assert cpu.WithRsp(cpu.Rsp() + 8).WithInteger(number, value).integer == changed.WithRsp(cpu.Rsp() + 8).integer;
    } else if rest != [] && cpu.Rsp() + 24 < TWO_64 {
      var rsp := Word(memory, cpu.Rsp() + 24);
      assert cpu.WithRsp(rsp).WithInteger(number, value).integer == changed.WithRsp(rsp).integer;
    }
  }

  /** Pushes whose pops all lie before the target change nothing. */
  lemma {:induction false} PopPushesPassed(ops: seq<Code>, k: nat, current: nat, target: nat, cpu: Cpu, stack: Bounds, memory: Memory)
    requires LeadingPushes(ops, k) && k < |ops| && !ops[k].op.PushNonvol?
    requires current + PopsLength(ops, k) <= target
    ensures PopPushes(ops, current, target, cpu, stack, memory) == Ok(Popped(cpu, current + PopsLength(ops, k), ops[k..]))
  {
    if k > 0 {
      assert ops[1..][k - 1..] == ops[k..];
      PopPushesPassed(ops[1..], k - 1, current + PopLength(ops[0].op.number), target, cpu, stack, memory);
    }
  }

  // Agreement with the code interpreter

  /** Pushes, then at most one eight-byte allocation: what an epilogue of pops can undo. */
  predicate PopsOnly(suffix: seq<Code>, k: nat) {
    && LeadingPushes(suffix, k)
    && (suffix[k..] == [] || (|suffix| == k + 1 && suffix[k].op == AllocSmall(8)))
  }

  /**
   * From its first byte a declared epilogue is unwound exactly as the code interpreter
   * unwinds the operations from the first push on, followed by the return.
   */
  lemma {:induction false} EpilogueAgreesWithCodes(suffix: seq<Code>, k: nat, current: nat, frameBase: uint64, cpu: Cpu,
                                                   stack: Bounds, memory: Memory)
    requires PopsOnly(suffix, k)
    ensures var pushes := PopPushes(suffix, current, 0, cpu, stack, memory);
            var replayed := if pushes.Fail? then Fail(pushes.reason) else
                            var popped := PopVolatile(pushes.value, 0);
                            if popped.Fail? then Fail(popped.reason) else LeaveFunction(popped.value, stack, memory);
            var applied := ApplyCodes(suffix, false, 0, frameBase, Unwound(cpu, false), stack, memory);
            replayed == if applied.Fail? then Fail(applied.reason) else PopReturn(applied.value.cpu, stack, memory)
    ensures var applied := ApplyCodes(suffix, false, 0, frameBase, Unwound(cpu, false), stack, memory);
            applied.Ok? ==> !applied.value.machineFrame
    decreases k
  {
    hide PopInteger;
    if k == 0 {
      if suffix != [] {
        assert suffix == [suffix[0]];
        assert suffix[1..] == [];
      }
    } else {
      assert suffix[1..][k - 1..] == suffix[k..];
      var next := PopInteger(cpu, stack, memory, suffix[0].op.number);
      if next.Ok? {
        EpilogueAgreesWithCodes(suffix[1..], k - 1, current + PopLength(suffix[0].op.number), frameBase, next.value, stack, memory);
      }
    }
  }

  /**
   * A function entered through a machine frame without an error code: the epilogue
   * walk finds the same RIP and RSP as the code interpreter. It reads less of the frame.
   */
  lemma MachineFrameAgrees(cpu: Cpu, frameBase: uint64, stack: Bounds, memory: Memory)
    ensures var applied := ApplyOp(PushMachframe(false), frameBase, Unwound(cpu, false), stack, memory);
            applied.Ok? ==>
              var left := LeaveFunction(Popped(cpu, 0, [Code(0, PushMachframe(false))]), stack, memory);
              && left.Ok? && left.value.rip == applied.value.cpu.rip && left.value.integer == applied.value.cpu.integer
  {
    hide Word;
  }
}
