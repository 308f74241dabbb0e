/**
 * Which language handler one frame answers: the one written in the last record of its
 * chain, for the types it was written for, in the body only.
 */
module HandlerAnswer {
  import opened Bytes
  import opened Context
  import opened UnwindCodes
  import opened UnwindApply
  import opened UnwindImage
  import opened UnwindFrame
  import opened ChainedFunction
  import opened Prologue
  import opened UnwindAgreement
  import opened WholeFunction
  import V1 = UnwindV1
  import Encoding = UnwindEncoding
  import V2 = UnwindV2

  // A record as a compiler writes it

  /** A handler clause: run it for exceptions, run it on unwinding, and where it is. */
  datatype Clause = Clause(exception: bool, termination: bool, rva: uint32)

  datatype Written = Written(version: nat, clause: Clause, prologueSize: uint8, frameRegister: nat, frameOffset: nat, codes: Codes)

  /** Bit 0 of the flags asks for exceptions, bit 1 for unwinding. */
  function FlagBits(clause: Clause): (flags: nat)
    ensures flags < 4
  {
    (if clause.exception then 1 else 0) + (if clause.termination then 2 else 0)
  }

  predicate Writable(w: Written) {
    && (w.version == 1 || w.version == 2) && w.frameRegister < 16 && w.frameOffset < 16 && Count(w.codes) < 256
    && (w.frameRegister != 0 ==> NonvolatileInteger(w.frameRegister)) && (w.frameRegister == 0 ==> w.frameOffset == 0)
    && Validate(w.codes, w.version, w.prologueSize, w.frameRegister, w.frameOffset).Some?
  }

  function RecordBytes(w: Written): seq<uint8>
    requires Writable(w)
  {
    Encoding.WriteRecord(w.version, FlagBits(w.clause), w.prologueSize, w.frameRegister, w.frameOffset, w.codes)
  }

  /** The record, and after it the handler's RVA; the handler's data follows. */
  ghost predicate StandsAt(m: LoadedModule, at: nat, w: Written)
    requires Writable(w)
  {
    var record := RecordBytes(w);
    && m.isPe && |m.bytes| == m.imageSize && at % 4 == 0 && at + |record| + 4 <= |m.bytes|
    && m.bytes[at..at + |record|] == record
    && m.bytes[at + |record|..at + |record| + 4] == Store(w.clause.rva, 4)
  }

  /** Where the handler's data begins. */
  function DataRva(at: nat, w: Written): nat
    requires Writable(w)
  {
    at + |RecordBytes(w)| + 4
  }

  lemma WrittenIsRead(m: LoadedModule, at: nat, w: Written)
    requires Writable(w) && StandsAt(m, at, w)
    ensures var r := ReadRecord(m, at);
            && r.Some? && r.value.flags == FlagBits(w.clause) && !r.value.Chained()
            && r.value.trailerRva + 4 == DataRva(at, w)
            && r.value.frameRegister == w.frameRegister && r.value.prologueSize == w.prologueSize
            && (r.value.hasFrameSetup <==> Validate(w.codes, w.version, w.prologueSize, w.frameRegister, w.frameOffset).value.hasFrameSetup)
            && HandlerRva(m, r.value) == if w.clause.rva == 0 || w.clause.rva >= |m.bytes| then None else Some(w.clause.rva)
  {
    hide Validate, Encoding.WriteRecord;
    var flags, validated := FlagBits(w.clause), Validate(w.codes, w.version, w.prologueSize, w.frameRegister, w.frameOffset).value;
    assert |RecordBytes(w)| == RecordSize(Count(w.codes)) by { RecordLength(w); }
    Encoding.RecordReadsBack(m, at, w.version, flags, w.prologueSize, w.frameRegister, w.frameOffset, w.codes, validated);
    SpanValues();
    LoadStore(w.clause.rva, 4);
  }

  lemma RecordLength(w: Written)
    requires Writable(w)
    ensures |RecordBytes(w)| == RecordSize(Count(w.codes))
  {
    hide Validate;
  }

  // A chain that ends in that record

  /** Following n links of the chain from entry leads to last. */
  predicate LeadsTo(m: LoadedModule, entry: RuntimeFunction, n: nat, last: RuntimeFunction)
    decreases n
  {
    if n == 0 then entry == last
    else
      match ReadChecked(m, entry)
      case None => false
      case Some(r) => r.Chained() && NextEntry(m, r).Some? && LeadsTo(m, NextEntry(m, r).value, n - 1, last)
  }

  /** The clause of the last record names this type of handler. */
  predicate Names(clause: Clause, handlerType: nat) {
    (handlerType == EHANDLER && clause.exception) || (handlerType == UHANDLER && clause.termination)
  }

  /** The handler and its data, if the clause names the type. */
  function Answer(at: nat, w: Written, handlerType: nat): Option<Handler>
    requires Writable(w)
  {
    if Names(w.clause, handlerType) then Some(Handler(w.clause.rva, DataRva(at, w))) else None
  }

  lemma LastAnswers(m: LoadedModule, r: Record, at: nat, w: Written, handlerType: nat, establisher: uint64, allowHandler: bool, u: Unwound,
                    stack: Bounds, memory: Memory)
    requires Writable(w) && StandsAt(m, at, w) && ReadRecord(m, at) == Some(r)
    ensures var result := FinishFrame(m, r, handlerType, establisher, allowHandler, u, stack, memory);
            result.Ok? ==> result.value.establisher == establisher &&
                           result.value.handler == if allowHandler then Answer(at, w, handlerType) else None
  {
    hide PopReturn, HandlerRva, ReadRecord, StandsAt, Writable;
    WrittenIsRead(m, at, w);
  }

  lemma {:induction false} ChainAnswers(m: LoadedModule, entry: RuntimeFunction, depth: nat, n: nat, last: RuntimeFunction, w: Written,
                                        offset: nat, handlerType: nat, establisher: uint64, allowHandler: bool, u: Unwound,
                                        stack: Bounds, memory: Memory)
    requires depth <= MAX_CHAIN_DEPTH && LeadsTo(m, entry, n, last) && Writable(w) && StandsAt(m, last.unwindData, w)
    requires entry.unwindData % 4 == 0
    ensures var result := UnwindChain(m, entry, depth, offset, handlerType, establisher, allowHandler, u, stack, memory);
            result.Ok? ==>
              ParseRecord(m, entry.unwindData).Some? &&
              var inPrologue := depth == 0 && offset < ParseRecord(m, entry.unwindData).value.prologueSize;
              result.value.handler ==
              if depth == 0 && inPrologue then None
              else if depth == 0 || allowHandler then Answer(last.unwindData, w, handlerType) else None
    decreases n
  {
    hide BaseOf, ApplyCodes, FinishFrame, ParseRecord, NextEntry, HandlerRva, Ops, Writable, StandsAt, Answer;
    var result := UnwindChain(m, entry, depth, offset, handlerType, establisher, allowHandler, u, stack, memory);
    if result.Ok? {
      var r := ParseRecord(m, entry.unwindData).value;
      var inPrologue := depth == 0 && offset < r.prologueSize;
      ParsedRecord(m, entry.unwindData);
      var base := BaseOf(r, inPrologue, offset, u.cpu).value;
      var next := ApplyCodes(Ops(r), inPrologue, offset, base, u, stack, memory).value;
      var establisher', allowHandler' := if depth == 0 then base else establisher, if depth == 0 then !inPrologue else allowHandler;
      if n == 0 {
        WrittenIsRead(m, entry.unwindData, w);
        LastAnswers(m, r, entry.unwindData, w, handlerType, establisher', allowHandler', next, stack, memory);
      } else {
        V2.ReadCheckedIsSound(m, entry);
        NextIsAligned(m, r);
        ChainAnswers(m, NextEntry(m, r).value, depth + 1, n - 1, last, w, offset, handlerType, establisher', allowHandler', next, stack, memory);
      }
    }
  }

  lemma NextIsAligned(m: LoadedModule, r: Record)
    ensures NextEntry(m, r).Some? ==> NextEntry(m, r).value.unwindData % 4 == 0
  {
    hide ReadRuntimeFunction;
  }

  /**
   * Whatever the machine's state: where a frame unwinds, the handler answered is the
   * last record's, for exactly the types its clause was written for; in the first
   * record's prologue and in an epilogue it is none.
   */
  lemma HandlerIffWritten(m: LoadedModule, handlerType: nat, pc: uint64, entryIndex: nat, entry: RuntimeFunction, n: nat,
                          last: RuntimeFunction, w: Written, cpu: Cpu, stack: Bounds, memory: Memory)
    requires EntryFromPointer(m, entryIndex) == Some(entry) && LeadsTo(m, entry, n, last)
    requires Writable(w) && StandsAt(m, last.unwindData, w)
    requires VirtualUnwind(m, handlerType, pc, entryIndex, cpu, stack, memory).Ok?
    ensures m.loadBase <= pc && entry.begin <= pc - m.loadBase && ValidateChain(m, entry).Ok? && Sound(ValidateChain(m, entry).value)
    ensures var first := ValidateChain(m, entry).value;
            var answered := VirtualUnwind(m, handlerType, pc, entryIndex, cpu, stack, memory).value.handler;
            answered ==
            if pc - m.loadBase - entry.begin < first.prologueSize || TryEpilogue(m, entry, first, pc, cpu, stack, memory) != Ok(None) then None
            else if (handlerType == 1 && w.clause.exception) || (handlerType == 2 && w.clause.termination)
            then Some(Handler(w.clause.rva, DataRva(last.unwindData, w)))
            else None
  {
    hide UnwindChain, TryEpilogue, BaseOf, ValidateFrom, LeadsTo, Writable, StandsAt, ParseRecord, ReadRecord, RangesAreValid;
    assert entry.unwindData % 4 == 0 by { EntryIsAligned(m, entryIndex); }
    ValidatedFirst(m, entry);
    V2.ReadCheckedIsSound(m, entry);
    ChainAnswers(m, entry, 0, n, last, w, pc - m.loadBase - entry.begin, handlerType, cpu.Rsp(), true, Unwound(cpu, false), stack, memory);
  }

  lemma EntryIsAligned(m: LoadedModule, index: nat)
    ensures EntryFromPointer(m, index).Some? ==> EntryFromPointer(m, index).value.unwindData % 4 == 0
  {
    hide ReadRuntimeFunction;
  }

  /** A written record alone is a valid chain exactly when it fits its function, its frame is set up and its handler is in the image. */
  lemma WrittenIsValid(m: LoadedModule, entry: RuntimeFunction, w: Written)
    requires Writable(w) && StandsAt(m, entry.unwindData, w)
    ensures ReadRecord(m, entry.unwindData).Some?
    ensures var r := ReadRecord(m, entry.unwindData).value;
            && r.epilogues.codeSlots <= Count(r.codes)
            && (ValidateChain(m, entry).Ok? <==>
                  && RangesAreValid(r, entry) && (w.frameRegister != 0 ==> r.hasFrameSetup)
                  && (w.clause.exception || w.clause.termination ==> 0 < w.clause.rva < |m.bytes|))
  {
    hide Validate, ReadRecord, RangesAreValid, StandsAt, HandlerRva, NextEntry, DataRva, ValidateChain, Record.HasHandler, Record.Chained;
    WrittenIsRead(m, entry.unwindData, w);
    ReadIsParsed(m, entry.unwindData);
    ParsedRecord(m, entry.unwindData);
    OpsOfRecord(ReadRecord(m, entry.unwindData).value);
    OneRecordIsValid(m, entry, ReadRecord(m, entry.unwindData).value);
    HandlerBits(ReadRecord(m, entry.unwindData).value, w.clause);
  }

  lemma HandlerBits(r: Record, clause: Clause)
    requires r.flags == FlagBits(clause)
    ensures r.HasHandler() <==> clause.exception || clause.termination
  {
  }

  lemma OneRecordIsValid(m: LoadedModule, entry: RuntimeFunction, r: Record)
    requires ReadRecord(m, entry.unwindData) == Some(r) && !r.Chained() && r.epilogues.codeSlots <= Count(r.codes)
    ensures ValidateChain(m, entry).Ok? <==>
              && RangesAreValid(r, entry) && (r.frameRegister != 0 ==> r.hasFrameSetup)
              && (r.HasHandler() ==> HandlerRva(m, r).Some?)
  {
    hide Validate, ReadRecord, RangesAreValid, HandlerRva, NextEntry, Record.HasHandler, Record.Chained;
  }

  lemma ReadIsParsed(m: LoadedModule, at: nat)
    requires ReadRecord(m, at).Some?
    ensures ParseRecord(m, at) == ReadRecord(m, at)
  {
    hide ParseRecord;
  }

  lemma RecognisedIsShaped(f: Function, pc: uint64, here: Cpu, stack: Bounds, memory: Memory)
    requires Sound(f.record) && InFunction(f, pc) && f.record.version == 1
    requires V1.SimulateFrom(f.m, f.entry, FrameRegister(f), pc, here, stack, memory).Some?
    ensures EpilogueShaped(f, pc)
  {
    hide Sound, V1.Reads, V1.Simulate;
    var cursor := pc - f.m.loadBase;
    var code := Window(f.m, cursor, f.entry.end - cursor).value;
    var r := V1.AnswerIsRead(code, V1.MAX_EPILOGUE_INSTRUCTIONS, true, FrameRegister(f), here, f.m.loadBase, cursor, f.entry, stack, memory);
    assert ReadsAt(f, pc, r);
  }

  /** At bytes of prologue or body that cannot be read as an epilogue, none is recognised. */
  lemma NoneRecognised(f: Function, c: Call, done: nat, pc: uint64, here: Cpu)
    requires WellBuilt(f) && Stopped(f, c, Before(done), pc, here) && !EpilogueShaped(f, pc)
    ensures TryEpilogue(f.m, f.entry, f.record, pc, here, c.stack, c.memory) == Ok(None)
  {
    hide EntryFromPointer, ValidateChain, Validate, V1.SimulateFrom, EpilogueShaped, EpilogueOffset, V2.UnwindEpilogue, Run, LegalRun, Resumes,
         ChainDescribes, AllSteps, DescribesAll;
    if f.record.version == 1 && V1.SimulateFrom(f.m, f.entry, FrameRegister(f), pc, here, c.stack, c.memory).Some? {
      RecognisedIsShaped(f, pc, here, c.stack, c.memory);
      assert false;
    }
  }

  /**
   * A function and one run of it, from prologue to epilogue: the handler written for
   * the type in the body, none before it and none in an epilogue.
   */
  lemma FunctionHandler(f: Function, c: Call, place: Place, handlerType: nat, pc: uint64, here: Cpu, n: nat, last: RuntimeFunction, w: Written)
    requires WellBuilt(f) && Entered(c) && Stopped(f, c, place, pc, here)
    requires LeadsTo(f.m, f.entry, n, last) && Writable(w) && StandsAt(f.m, last.unwindData, w)
    requires VirtualUnwind(f.m, handlerType, pc, f.index, here, c.stack, c.memory).Ok?
    ensures var handler := VirtualUnwind(f.m, handlerType, pc, f.index, here, c.stack, c.memory).value.handler;
            && (!place.Before? || pc - f.m.loadBase - f.entry.begin < f.record.prologueSize ==> handler == None)
            && (place.Before? && pc - f.m.loadBase - f.entry.begin >= f.record.prologueSize && !EpilogueShaped(f, pc) ==>
                  handler == if (handlerType == 1 && w.clause.exception) || (handlerType == 2 && w.clause.termination)
                             then Some(Handler(w.clause.rva, DataRva(last.unwindData, w)))
                             else None)
  {
    hide VirtualUnwind, TryEpilogue, Sound, EntryFromPointer, ValidateChain, StoppedBefore, StoppedMirrored, StoppedDeclared, LeadsTo, Writable,
         StandsAt, EpilogueShaped, ChainDescribes, AllSteps, DescribesAll, ReturnAddressAt;
    HandlerIffWritten(f.m, handlerType, pc, f.index, f.entry, n, last, w, here, c.stack, c.memory);
    match place {
      case Before(done) =>
        if !EpilogueShaped(f, pc) {
          NoneRecognised(f, c, done, pc, here);
        }
      case Mirrored(_, _, _, _, _, _, _, _) => MirroredFindsCaller(f, c, place, pc, here);
      case Declared(_, _, _, _, _, _) => DeclaredFindsCaller(f, c, place, pc, here);
    }
  }
}
