/** One frame: sl_win64_virtual_unwind and sl_win64_unwind_leaf. */
module UnwindFrame {
  import opened Bytes
  import opened Context
  import opened UnwindCodes
  import opened UnwindApply
  import opened UnwindImage
  import V1 = UnwindV1
  import V2 = UnwindV2

  /** A language handler and the data that follows its address in the record. */
  datatype Handler = Handler(rva: uint32, dataRva: nat)

  datatype Unwinding = Unwinding(cpu: Cpu, establisher: uint64, handler: Option<Handler>)

  /** Does a record with these flags supply a handler of the requested type? */
  predicate Supplies(flags: nat, handlerType: nat) {
    (handlerType == EHANDLER && flags % 2 == 1) || (handlerType == UHANDLER && flags / 2 % 2 == 1)
  }

  predicate InheritsFrame(r: Record) {
    r.Chained() && !r.hasFrameSetup
  }

  function BaseOf(r: Record, inPrologue: bool, offset: nat, cpu: Cpu): Outcome<uint64>
    requires Sound(r)
  {
    var established := r.frameRegister != 0 && (InheritsFrame(r) || Established(Ops(r), inPrologue, offset));
    ComputeFrameBase(r.frameRegister, r.frameOffset, established, cpu)
  }

  /** The last record of the chain: find the handler, then pop the return address. */
  function FinishFrame(m: LoadedModule, r: Record, handlerType: nat, establisher: uint64, allowHandler: bool, u: Unwound,
                       stack: Bounds, memory: Memory): Outcome<Unwinding>
  {
    var wanted := allowHandler && Supplies(r.flags, handlerType);
    if wanted && HandlerRva(m, r).None? then Fail(BadHandler)
    else
      var handler := if wanted then Some(Handler(HandlerRva(m, r).value, r.trailerRva + 4)) else None;
      var cpu :- if u.machineFrame then Ok(u.cpu) else PopReturn(u.cpu, stack, memory);
      Ok(Unwinding(cpu, establisher, handler))
  }

  /** Undo the records of a chain, innermost first. */
  function UnwindChain(m: LoadedModule, entry: RuntimeFunction, depth: nat, procedureOffset: nat, handlerType: nat,
                       establisher: uint64, allowHandler: bool, u: Unwound, stack: Bounds, memory: Memory): Outcome<Unwinding>
    requires depth <= MAX_CHAIN_DEPTH
    decreases MAX_CHAIN_DEPTH - depth
  {
    if depth == MAX_CHAIN_DEPTH then Fail(ChainTooLong)
    else
      match ParseRecord(m, entry.unwindData)
      case None => Fail(BadRecord)
      case Some(r) =>
        ParsedRecord(m, entry.unwindData);
        var inPrologue := depth == 0 && procedureOffset < r.prologueSize;
        var base :- BaseOf(r, inPrologue, procedureOffset, u.cpu);
        var next :- ApplyCodes(Ops(r), inPrologue, procedureOffset, base, u, stack, memory);
        var establisher' := if depth == 0 then base else establisher;
        var allowHandler' := if depth == 0 then !inPrologue else allowHandler;
        if r.Chained() then
          match NextEntry(m, r)
          case None => Fail(BadChain)
          case Some(parent) =>
            UnwindChain(m, parent, depth + 1, procedureOffset, handlerType, establisher', allowHandler', next, stack, memory)
        else FinishFrame(m, r, handlerType, establisher', allowHandler', next, stack, memory)
  }

  /** The context after the epilogue containing the address, if one does. */
  function TryEpilogue(m: LoadedModule, entry: RuntimeFunction, r: Record, pc: uint64, cpu: Cpu, stack: Bounds, memory: Memory): Outcome<Option<Cpu>>
    requires Sound(r) && m.loadBase <= pc
  {
    OpsOfRecord(r);
    if r.version == 1 then Ok(V1.SimulateFrom(m, entry, r.frameRegister, pc, cpu, stack, memory))
    else
      match EpilogueOffset(r, entry, pc - m.loadBase)
      case None => Ok(None)
      case Some(offset) =>
        var unwound :- V2.UnwindEpilogue(m, entry, offset, cpu, stack, memory);
        Ok(Some(unwound))
  }

  function UnwindValidated(m: LoadedModule, handlerType: nat, pc: uint64, entry: RuntimeFunction, first: Record, cpu: Cpu,
                           stack: Bounds, memory: Memory): Outcome<Unwinding>
    requires Sound(first) && m.loadBase <= pc && entry.begin <= pc - m.loadBase
  {
    var procedureOffset := pc - m.loadBase - entry.begin;
    var establisher :- BaseOf(first, procedureOffset < first.prologueSize, procedureOffset, cpu);
    var epilogue :- TryEpilogue(m, entry, first, pc, cpu, stack, memory);
    if epilogue.Some? then Ok(Unwinding(epilogue.value, establisher, None))
    else UnwindChain(m, entry, 0, procedureOffset, handlerType, cpu.Rsp(), true, Unwound(cpu, false), stack, memory)
  }

  function VirtualUnwind(m: LoadedModule, handlerType: nat, pc: uint64, entryIndex: nat, cpu: Cpu, stack: Bounds, memory: Memory): Outcome<Unwinding> {
    if stack.limit >= stack.base || handlerType > UHANDLER then Fail(InvalidArgument)
    else
      match EntryFromPointer(m, entryIndex)
      case None => Fail(InvalidArgument)
      case Some(entry) =>
        if pc < m.loadBase || !(entry.begin <= pc - m.loadBase < entry.end) then Fail(InvalidArgument)
        else
          var first :- ValidateChain(m, entry);
          ValidatedFirst(m, entry);
          UnwindValidated(m, handlerType, pc, entry, first, cpu, stack, memory)
  }

  lemma ValidatedFirst(m: LoadedModule, entry: RuntimeFunction)
    requires ValidateChain(m, entry).Ok?
    ensures ReadChecked(m, entry) == Some(ValidateChain(m, entry).value)
    ensures Sound(ValidateChain(m, entry).value)
    ensures RangesAreValid(ValidateChain(m, entry).value, entry)
  {
    V2.ReadCheckedIsSound(m, entry);
  }

  // The methods

  method FindFrameBase(r: Record, inPrologue: bool, offset: nat, context: ContextRecord) returns (base: Outcome<uint64>)
    requires Sound(r)
    ensures base == BaseOf(r, inPrologue, offset, context.Value())
  {
    OpsOfRecord(r);
    var established := false;
    if r.frameRegister != 0 {
      established := InheritsFrame(r);
      if !established {
        established := FrameRegisterIsEstablished(r.codes, r.version, inPrologue, offset);
      }
    }
    base := ComputeFrameBase(r.frameRegister, r.frameOffset, established, context.Value());
  }

  method FinishUnwind(m: LoadedModule, r: Record, handlerType: nat, establisher: uint64, allowHandler: bool, machineFrame: bool,
                      context: ContextRecord, stack: Bounds, memory: Memory)
    returns (failure: Option<Reason>, handler: Option<Handler>)
    modifies context
    ensures var r := FinishFrame(m, r, handlerType, establisher, allowHandler, Unwound(old(context.Value()), machineFrame), stack, memory);
            if r.Ok? then failure.None? && r.value == Unwinding(context.Value(), establisher, handler) else failure == Some(r.reason)
  {
    handler := None;
    if allowHandler && Supplies(r.flags, handlerType) {
      var rva := HandlerRva(m, r);
      if rva.None? {
        return Some(BadHandler), None;
      }
      handler := Some(Handler(rva.value, r.trailerRva + 4));
    }
    failure := None;
    if !machineFrame {
      failure := ReturnThroughStack(context, stack, memory);
    }
  }

  method UnwindRecords(m: LoadedModule, firstEntry: RuntimeFunction, procedureOffset: nat, handlerType: nat,
                       context: ContextRecord, stack: Bounds, memory: Memory)
    returns (failure: Option<Reason>, establisher: uint64, handler: Option<Handler>)
    modifies context
    ensures var r := UnwindChain(m, firstEntry, 0, procedureOffset, handlerType, old(context.Value().Rsp()), true,
                                 Unwound(old(context.Value()), false), stack, memory);
            if r.Ok? then failure.None? && r.value == Unwinding(context.Value(), establisher, handler) else failure == Some(r.reason)
  {
    hide ParseRecord, NextEntry, BaseOf, ApplyCodes, Ops, Decode, Walks, Validate, FinishFrame, PrologueOps;
    var entry := firstEntry;
    establisher := context.Value().Rsp();
    var allowHandler, machineFrame := true, false;
    handler := None;
    var depth := 0;
    ghost var goal := UnwindChain(m, entry, depth, procedureOffset, handlerType, establisher, true, Unwound(context.Value(), false), stack, memory);
    while depth < MAX_CHAIN_DEPTH
      invariant depth <= MAX_CHAIN_DEPTH
      invariant UnwindChain(m, entry, depth, procedureOffset, handlerType, establisher, allowHandler,
                            Unwound(context.Value(), machineFrame), stack, memory) == goal
    {
      var record := ParseUnwindRecord(m, entry.unwindData);
      if record.None? {
        return Some(BadRecord), establisher, None;
      }
      var r := record.value;
      ParsedRecord(m, entry.unwindData);
      OpsOfRecord(r);
      var inPrologue := depth == 0 && procedureOffset < r.prologueSize;
      var base := FindFrameBase(r, inPrologue, procedureOffset, context);
      if base.Fail? {
        return Some(base.reason), establisher, None;
      }
      failure, machineFrame := ApplyUnwindCodes(r.codes, r.version, inPrologue, procedureOffset, base.value, context, stack, memory, machineFrame);
      if failure.Some? {
        return failure, establisher, None;
      }
      if depth == 0 {
        establisher := base.value;
        allowHandler := !inPrologue;
      }
      if !r.Chained() {
        failure, handler := FinishUnwind(m, r, handlerType, establisher, allowHandler, machineFrame, context, stack, memory);
        return;
      }
      var parent := NextEntry(m, r);
      if parent.None? {
        return Some(BadChain), establisher, None;
      }
      entry := parent.value;
      depth := depth + 1;
    }
    failure := Some(ChainTooLong);
  }

  /** The caller's context record changes only when the whole frame unwinds. */
  method VirtualUnwindFrame(m: LoadedModule, handlerType: nat, pc: uint64, entryIndex: nat, contextRecord: ContextRecord,
                            stack: Bounds, memory: Memory)
    returns (failure: Option<Reason>, establisher: uint64, handler: Option<Handler>)
    modifies contextRecord
    ensures var r := VirtualUnwind(m, handlerType, pc, entryIndex, old(contextRecord.Value()), stack, memory);
            if r.Ok? then failure.None? && r.value == Unwinding(contextRecord.Value(), establisher, handler)
            else failure == Some(r.reason) && contextRecord.Value() == old(contextRecord.Value())
  {
    hide EntryFromPointer, ValidateChain, UnwindChain, BaseOf, V1.SimulateFrom, V2.UnwindEpilogue, Validate, EpilogueOffset, ReadChecked;
    establisher, handler := 0, None;
    if stack.limit >= stack.base || handlerType > UHANDLER {
      return Some(InvalidArgument), 0, None;
    }
    var found := EntryFromPointer(m, entryIndex);
    if found.None? || pc < m.loadBase || !(found.value.begin <= pc - m.loadBase < found.value.end) {
      return Some(InvalidArgument), 0, None;
    }
    var entry := found.value;
    var chain := ValidateUnwindChain(m, entry);
    if chain.Fail? {
      return Some(chain.reason), 0, None;
    }
    var first := chain.value;
    ValidatedFirst(m, entry);
    OpsOfRecord(first);
    var candidate := new ContextRecord(contextRecord.Value());
    var procedureOffset := pc - m.loadBase - entry.begin;
    var base := FindFrameBase(first, procedureOffset < first.prologueSize, procedureOffset, candidate);
    if base.Fail? {
      return Some(base.reason), 0, None;
    }
    var inEpilogue := false;
    if first.version == 1 {
      inEpilogue := V1.SimulateEpilogue(m, entry, first.frameRegister, pc, candidate, stack, memory);
    } else {
      var offset := FindV2Epilogue(first, entry, pc - m.loadBase);
      if offset.Some? {
        failure := V2.UnwindV2Epilogue(m, entry, offset.value, candidate, stack, memory);
        if failure.Some? {
          return;
        }
        inEpilogue := true;
      }
    }
    if inEpilogue {
      contextRecord.Assign(candidate.Value());
      return None, base.value, None;
    }
    failure, establisher, handler := UnwindRecords(m, entry, procedureOffset, handlerType, candidate, stack, memory);
    if failure.None? {
      contextRecord.Assign(candidate.Value());
    }
  }

  /** A function without unwind data: only the return address is on the stack. */
  function UnwindLeaf(cpu: Cpu, stack: Bounds, memory: Memory): Outcome<Cpu> {
    if stack.limit >= stack.base then Fail(InvalidArgument) else PopReturn(cpu, stack, memory)
  }

  method UnwindLeafFrame(contextRecord: ContextRecord, stack: Bounds, memory: Memory) returns (failure: Option<Reason>)
    modifies contextRecord
    ensures var r := UnwindLeaf(old(contextRecord.Value()), stack, memory);
            if r.Ok? then failure.None? && contextRecord.Value() == r.value
            else failure == Some(r.reason) && contextRecord.Value() == old(contextRecord.Value())
  {
    if stack.limit >= stack.base {
      return Some(InvalidArgument);
    }
    var candidate := new ContextRecord(contextRecord.Value());
    failure := ReturnThroughStack(candidate, stack, memory);
    if failure.None? {
      contextRecord.Assign(candidate.Value());
    }
  }

  // What validation guarantees

  lemma FinishFailsAtRuntimeOnly(m: LoadedModule, r: Record, handlerType: nat, establisher: uint64, allowHandler: bool, u: Unwound,
                                 stack: Bounds, memory: Memory)
    requires FlagsAreValid(r.flags) && (r.HasHandler() ==> HandlerRva(m, r).Some?)
    ensures var result := FinishFrame(m, r, handlerType, establisher, allowHandler, u, stack, memory);
            result.Fail? ==> RuntimeReason(result.reason)
  {
    hide HandlerRva, Word;
  }

  /**
   * Once a chain is validated, unwinding through it can fail only for the run-time
   * reasons: a read off the stack, a wrapping addition, a frame register below its
   * offset or a bad large allocation. No record, chain link or handler fails to parse.
   */
  lemma {:induction false} ValidatedChainFailsAtRuntimeOnly(m: LoadedModule, entry: RuntimeFunction, depth: nat, frameRegister: nat,
                                                            frameOffset: nat, procedureOffset: nat, handlerType: nat,
                                                            establisher: uint64, allowHandler: bool, u: Unwound, stack: Bounds, memory: Memory)
    requires depth <= MAX_CHAIN_DEPTH && ValidateFrom(m, entry, depth, frameRegister, frameOffset).Ok?
    ensures var result := UnwindChain(m, entry, depth, procedureOffset, handlerType, establisher, allowHandler, u, stack, memory);
            result.Fail? ==> RuntimeReason(result.reason)
    decreases MAX_CHAIN_DEPTH - depth
  {
    hide ApplyCodes, HandlerRva, NextEntry, Validate, Ops, PrologueOps, FinishFrame, RangesAreValid, ParseRecord, ReadRecord, ReadChecked;
    V2.ReadCheckedIsSound(m, entry);
    var r := ReadChecked(m, entry).value;
    ParsedRecord(m, entry.unwindData);
    var inPrologue := depth == 0 && procedureOffset < r.prologueSize;
    var base := BaseOf(r, inPrologue, procedureOffset, u.cpu);
    if base.Ok? {
      OpsAreSound(r);
      SoundCodesFailAtRuntimeOnly(Ops(r), inPrologue, procedureOffset, base.value, u, stack, memory);
      var next := ApplyCodes(Ops(r), inPrologue, procedureOffset, base.value, u, stack, memory);
      if next.Ok? {
        var establisher' := if depth == 0 then base.value else establisher;
        var allowHandler' := if depth == 0 then !inPrologue else allowHandler;
        if r.Chained() {
          ValidatedChainFailsAtRuntimeOnly(m, NextEntry(m, r).value, depth + 1, r.frameRegister, r.frameOffset, procedureOffset,
                                           handlerType, establisher', allowHandler', next.value, stack, memory);
        } else {
          FinishFailsAtRuntimeOnly(m, r, handlerType, establisher', allowHandler', next.value, stack, memory);
        }
      }
    }
  }

  lemma OpsAreSound(r: Record)
    requires Sound(r)
    ensures forall i :: 0 <= i < |Ops(r)| ==> OpIsSound(Ops(r)[i].op) || Ops(r)[i].op == Epilog
  {
    hide Validate;
    OpsOfRecord(r);
  }

  /** The epilogue walk over a validated chain finds its record, and then objects only to a parent with a push. */
  lemma {:induction false} ValidatedChainSelects(m: LoadedModule, entry: RuntimeFunction, depth: nat, frameRegister: nat, frameOffset: nat)
    requires depth <= MAX_CHAIN_DEPTH && ValidateFrom(m, entry, depth, frameRegister, frameOffset).Ok?
    ensures var s := V2.SelectRecord(m, entry, depth);
            && s.Ok?
            && var parents := V2.CheckParents(m, s.value.record, s.value.depth);
               parents.Fail? ==> parents.reason == BadChain
    decreases MAX_CHAIN_DEPTH - depth
  {
    hide NextEntry, Validate, PrologueOps, ParseRecord, ReadRecord, ReadChecked, V2.HasPush;
    V2.ReadCheckedIsSound(m, entry);
    var r := ReadChecked(m, entry).value;
    if V2.HasPush(PrologueOps(r)) || !r.Chained() {
      ValidatedParents(m, r, depth);
    } else {
      ValidatedChainSelects(m, NextEntry(m, r).value, depth + 1, r.frameRegister, r.frameOffset);
    }
  }

  lemma {:induction false} ValidatedParents(m: LoadedModule, r: Record, depth: nat)
    requires depth < MAX_CHAIN_DEPTH
    requires r.Chained() ==> NextEntry(m, r).Some? && ValidateFrom(m, NextEntry(m, r).value, depth + 1, r.frameRegister, r.frameOffset).Ok?
    ensures var parents := V2.CheckParents(m, r, depth);
            parents.Fail? ==> parents.reason == BadChain
    decreases MAX_CHAIN_DEPTH - depth
  {
    hide NextEntry, Validate, PrologueOps, ParseRecord, ReadRecord, ReadChecked, V2.HasPush;
    if r.Chained() && depth + 1 < MAX_CHAIN_DEPTH {
      var next := NextEntry(m, r).value;
      V2.ReadCheckedIsSound(m, next);
      ValidatedParents(m, ReadChecked(m, next).value, depth + 1);
    }
  }

  /** The same outcome but for the handler. */
  predicate SameFrame(a: Outcome<Unwinding>, b: Outcome<Unwinding>) {
    if a.Ok? then b.Ok? && a.value.cpu == b.value.cpu && a.value.establisher == b.value.establisher
    else b.Fail? && a.reason == b.reason
  }

  lemma {:induction false} ChainIgnoresHandlerType(m: LoadedModule, entry: RuntimeFunction, depth: nat, frameRegister: nat, frameOffset: nat,
                                                   procedureOffset: nat, one: nat, two: nat, establisher: uint64, allowHandler: bool,
                                                   u: Unwound, stack: Bounds, memory: Memory)
    requires depth <= MAX_CHAIN_DEPTH && ValidateFrom(m, entry, depth, frameRegister, frameOffset).Ok?
    ensures SameFrame(UnwindChain(m, entry, depth, procedureOffset, one, establisher, allowHandler, u, stack, memory),
                      UnwindChain(m, entry, depth, procedureOffset, two, establisher, allowHandler, u, stack, memory))
    decreases MAX_CHAIN_DEPTH - depth
  {
    hide ApplyCodes, HandlerRva, NextEntry, Validate, Ops, PrologueOps, RangesAreValid, ParseRecord, ReadRecord, ReadChecked, PopReturn, BaseOf;
    V2.ReadCheckedIsSound(m, entry);
    var r := ReadChecked(m, entry).value;
    ParsedRecord(m, entry.unwindData);
    var inPrologue := depth == 0 && procedureOffset < r.prologueSize;
    var base := BaseOf(r, inPrologue, procedureOffset, u.cpu);
    if base.Ok? {
      var next := ApplyCodes(Ops(r), inPrologue, procedureOffset, base.value, u, stack, memory);
      if next.Ok? && r.Chained() {
        ChainIgnoresHandlerType(m, NextEntry(m, r).value, depth + 1, r.frameRegister, r.frameOffset, procedureOffset, one, two,
                                if depth == 0 then base.value else establisher, if depth == 0 then !inPrologue else allowHandler,
                                next.value, stack, memory);
      }
    }
  }

  /** The caller's context and the establisher do not depend on which handler is asked for. */
  lemma UnwindIgnoresHandlerType(m: LoadedModule, one: nat, two: nat, pc: uint64, entryIndex: nat, cpu: Cpu, stack: Bounds, memory: Memory)
    requires one <= UHANDLER && two <= UHANDLER
    ensures SameFrame(VirtualUnwind(m, one, pc, entryIndex, cpu, stack, memory), VirtualUnwind(m, two, pc, entryIndex, cpu, stack, memory))
  {
    hide EntryFromPointer, UnwindChain, BaseOf, TryEpilogue, Validate, ReadChecked, RangesAreValid;
    var entry := EntryFromPointer(m, entryIndex);
    if stack.limit < stack.base && entry.Some? && m.loadBase <= pc && entry.value.begin <= pc - m.loadBase < entry.value.end
       && ValidateChain(m, entry.value).Ok?
    {
      var procedureOffset := pc - m.loadBase - entry.value.begin;
      ChainIgnoresHandlerType(m, entry.value, 0, 0, 0, procedureOffset, one, two, cpu.Rsp(), true, Unwound(cpu, false), stack, memory);
    }
  }
}
