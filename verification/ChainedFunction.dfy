/** A prologue split over chained records: unwinding the chain undoes its parts, last part first. */
module ChainedFunction {
  import opened Bytes
  import opened Context
  import opened UnwindCodes
  import opened UnwindApply
  import opened UnwindImage
  import opened Prologue
  import opened UnwindFrame
  import opened UnwindAgreement
  import V2 = UnwindV2

  // Runs in parts

  /** All steps, in the order they run; the parts are listed last first, as the chain lists its records. */
  function AllSteps(parts: seq<seq<Step>>): seq<Step> {
    if parts == [] then [] else AllSteps(parts[1..]) + parts[0]
  }

  lemma {:induction false} RunInParts(frame: Frame, stack: Bounds, entry: Point, a: seq<Step>, b: seq<Step>)
    requires frame.Valid() && LegalRun(frame, stack, entry, a + b)
    ensures LegalRun(frame, stack, entry, a) && LegalRun(frame, stack, Run(frame, stack, entry, a), b)
    ensures Run(frame, stack, Run(frame, stack, entry, a), b) == Run(frame, stack, entry, a + b)
    decreases |b|
  {
    hide Execute, Legal;
    if b == [] {
      assert a + b == a;
    } else {
      assert Init(a + b) == a + Init(b) && Last(a + b) == Last(b);
      RunInParts(frame, stack, entry, a, Init(b));
    }
  }

  lemma {:induction false} FramedByPart(frame: Frame, stack: Bounds, entry: Point, steps: seq<Step>, codes: seq<Code>)
    requires frame.Valid() && LegalRun(frame, stack, entry, steps) && DescribesAll(codes, steps)
    ensures Run(frame, stack, entry, steps).framed == (entry.framed || SetsFrame(codes))
  {
    if steps != [] {
      if HasCode(Last(steps).instr) {
        assert codes == [codes[0]] + codes[1..];
        SetsFrameCons(codes[0], codes[1..]);
        FramedByPart(frame, stack, entry, Init(steps), codes[1..]);
      } else {
        FramedByPart(frame, stack, entry, Init(steps), codes);
      }
    }
  }

  // The frame register comes back too

  ghost predicate FrameLives(frame: Frame, p: Point, cpu: Cpu)
    requires frame.Valid()
  {
    p.framed ==> cpu.integer[frame.number] == p.cpu.integer[frame.number]
  }

  /** Undoing an instruction that ran under the frame register gives that register its value of before. */
  lemma UndoOneKeepsFrame(frame: Frame, stack: Bounds, p: Point, step: Step, code: Code, base: uint64, u: Unwound, memory: Memory)
    requires frame.Valid() && Legal(frame, stack, p, step.instr) && Describes(code, step) && p.framed
    requires CanUndo(frame, stack, p, step.instr, base, u.cpu, memory)
    requires FrameLives(frame, Execute(frame, stack, p, step.instr), u.cpu)
    ensures var v := ApplyOp(code.op, base, u, stack, memory); v.Ok? ==> FrameLives(frame, p, v.value.cpu)
  {
    hide Free, Word, WriteWord, WriteXmmword, Xmmword;
    var q := Execute(frame, stack, p, step.instr);
    match step.instr
    case Push(number) =>
      var slot := q.slots[|p.slots|];
      assert slot == WordSlot(p.cpu.Rsp() - 8, p.cpu.integer[number]) && slot.HeldBy(memory);
    case SaveWord(number, offset) =>
      var slot := q.slots[|p.slots|];
      assert slot == WordSlot(base + offset, p.cpu.integer[number]) && slot.HeldBy(memory);
    case _ =>
  }

  lemma UncodedKeepsFrame(frame: Frame, stack: Bounds, p: Point, instr: Instr, cpu: Cpu)
    requires frame.Valid() && Legal(frame, stack, p, instr) && !HasCode(instr)
    requires FrameLives(frame, Execute(frame, stack, p, instr), cpu)
    ensures FrameLives(frame, p, cpu)
  {
  }

  /** Undoing a part: the state before it, its frame register included. */
  lemma {:induction false} UndoPart(frame: Frame, stack: Bounds, entry: Point, steps: seq<Step>, codes: seq<Code>,
                                    inPrologue: bool, prologueOffset: nat, base: uint64, u: Unwound, memory: Memory)
    returns (v: Unwound)
    requires frame.Valid() && LegalRun(frame, stack, entry, steps) && DescribesAll(codes, steps)
    requires forall i :: 0 <= i < |codes| ==> Executed(codes[i], inPrologue, prologueOffset)
    requires var p := Run(frame, stack, entry, steps);
             && Agrees(p, u.cpu) && SlotsHeld(p.slots, stack, memory) && (FixesBase(p) ==> base == Base(frame, p))
             && (entry.framed ==> FrameLives(frame, p, u.cpu))
    ensures ApplyCodes(codes, inPrologue, prologueOffset, base, u, stack, memory) == Ok(v)
    ensures Agrees(entry, v.cpu) && v.machineFrame == u.machineFrame && FrameLives(frame, entry, v.cpu)
    ensures SlotsHeld(entry.slots, stack, memory)
  {
    if steps == [] {
      v := u;
    } else {
      hide Agrees, ApplyOp, Execute, Legal, FrameLives, SlotsHeld, Base;
      var p := Run(frame, stack, entry, Init(steps));
      var instr := Last(steps).instr;
      UndoStepFacts(frame, stack, p, instr, base, u.cpu, memory);
      FramedStays(frame, stack, entry, Init(steps));
      if HasCode(instr) {
        var next := UndoOne(frame, stack, p, Last(steps), codes[0], base, u, memory);
        if entry.framed {
          UndoOneKeepsFrame(frame, stack, p, Last(steps), codes[0], base, u, memory);
        }
        v := UndoPart(frame, stack, entry, Init(steps), codes[1..], inPrologue, prologueOffset, base, next, memory);
      } else {
        if entry.framed {
          UncodedKeepsFrame(frame, stack, p, instr, u.cpu);
        }
        v := UndoPart(frame, stack, entry, Init(steps), codes, inPrologue, prologueOffset, base, u, memory);
      }
    }
  }

  lemma {:induction false} FramedStays(frame: Frame, stack: Bounds, entry: Point, steps: seq<Step>)
    requires frame.Valid() && LegalRun(frame, stack, entry, steps)
    ensures entry.framed ==> Run(frame, stack, entry, steps).framed
  {
    if steps != [] {
      FramedStays(frame, stack, entry, Init(steps));
    }
  }

  // The chain

  /** Each record of the chain describes its part; the last part is the last record's, which sets up the frame if there is one. */
  ghost predicate ChainDescribes(m: LoadedModule, entry: RuntimeFunction, parts: seq<seq<Step>>)
    decreases |parts|
  {
    parts != [] &&
    match ReadChecked(m, entry)
    case None => false
    case Some(r) =>
      Sound(r) && DescribesAll(PrologueOps(r), parts[0]) &&
      if |parts| == 1 then !r.Chained()
      else r.Chained() && !r.hasFrameSetup && NextEntry(m, r).Some? && ChainDescribes(m, NextEntry(m, r).value, parts[1..])
  }

  lemma OneRecordDescribes(m: LoadedModule, entry: RuntimeFunction, r: Record, part: seq<Step>)
    requires ReadChecked(m, entry) == Some(r) && Sound(r) && !r.Chained() && DescribesAll(PrologueOps(r), part)
    ensures ChainDescribes(m, entry, [part]) && AllSteps([part]) == part
  {
    hide ReadChecked, Sound, DescribesAll, PrologueOps;
    assert [part][1..] == [];
  }

  lemma RecordAndParentDescribe(m: LoadedModule, entry: RuntimeFunction, r: Record, parent: RuntimeFunction, part: seq<Step>,
                                older: seq<seq<Step>>)
    requires ReadChecked(m, entry) == Some(r) && Sound(r) && r.Chained() && !r.hasFrameSetup && DescribesAll(PrologueOps(r), part)
    requires NextEntry(m, r) == Some(parent) && ChainDescribes(m, parent, older)
    ensures ChainDescribes(m, entry, [part] + older) && AllSteps([part] + older) == AllSteps(older) + part
  {
    hide ReadChecked, Sound, DescribesAll, PrologueOps, NextEntry;
    assert ([part] + older)[1..] == older;
  }

  predicate FrameMatches(r: Record, frame: Frame) {
    r.frameRegister != 0 ==> frame == Frame(r.frameRegister, r.frameOffset)
  }

  /** In a validated chain the whole prologue sets a frame up exactly when its records name one. */
  lemma {:induction false} ChainFramed(m: LoadedModule, entry: RuntimeFunction, depth: nat, frameRegister: nat, frameOffset: nat,
                                       frame: Frame, stack: Bounds, caller: Cpu, before: Memory, parts: seq<seq<Step>>)
    requires depth <= MAX_CHAIN_DEPTH && ValidateFrom(m, entry, depth, frameRegister, frameOffset).Ok? && ChainDescribes(m, entry, parts)
    requires frame.Valid() && LegalRun(frame, stack, Entry(caller, before), AllSteps(parts))
    ensures ReadChecked(m, entry).Some?
    ensures Run(frame, stack, Entry(caller, before), AllSteps(parts)).framed <==> ReadChecked(m, entry).value.frameRegister != 0
    decreases |parts|
  {
    hide Run, LegalRun, DescribesAll, PrologueOps, Sound, NextEntry, ReadChecked, HandlerRva, SetsFrame;
    var r, start := ReadChecked(m, entry).value, Entry(caller, before);
    RunInParts(frame, stack, start, AllSteps(parts[1..]), parts[0]);
    var q := Run(frame, stack, start, AllSteps(parts[1..]));
    FramedByPart(frame, stack, q, parts[0], PrologueOps(r));
    OpsOfRecord(r);
    if |parts| == 1 {
      assert parts[1..] == [];
      StartsUnframed(frame, stack, start);
    } else {
      ChainFramed(m, NextEntry(m, r).value, depth + 1, r.frameRegister, r.frameOffset, frame, stack, caller, before, parts[1..]);
    }
  }

  lemma StartsUnframed(frame: Frame, stack: Bounds, start: Point)
    requires frame.Valid()
    ensures LegalRun(frame, stack, start, []) && Run(frame, stack, start, []) == start
  {
  }

  /** The base a record's offsets count from, when the frame register is live. */
  lemma BaseIsFound(r: Record, inPrologue: bool, offset: nat, frame: Frame, p: Point, cpu: Cpu)
    requires Sound(r) && frame.Valid() && FrameMatches(r, frame)
    requires r.frameRegister != 0 ==> InheritsFrame(r) || Established(Ops(r), inPrologue, offset)
    requires (p.framed <==> r.frameRegister != 0) && (p.framed ==> Base(frame, p) >= 0) && Agrees(p, cpu) && FrameLives(frame, p, cpu)
    ensures var base := BaseOf(r, inPrologue, offset, cpu);
            base.Ok? && (FixesBase(p) ==> base.value == Base(frame, p))
  {
    hide Sound, Ops;
  }

  /** One record undoes its part of the prologue. */
  lemma RecordUndoesPart(r: Record, inPrologue: bool, offset: nat, frame: Frame, stack: Bounds, caller: Cpu, before: Memory,
                         older: seq<Step>, part: seq<Step>, done: seq<Code>, u: Unwound, memory: Memory)
    returns (base: uint64, v: Unwound)
    requires Sound(r) && frame.Valid() && FrameMatches(r, frame)
    requires r.frameRegister != 0 ==> InheritsFrame(r) || Established(Ops(r), inPrologue, offset)
    requires LegalRun(frame, stack, Entry(caller, before), older + part) && LegalRun(frame, stack, Entry(caller, before), older)
    requires DescribesAll(done, part) && forall i :: 0 <= i < |done| ==> Executed(done[i], inPrologue, offset)
    requires forall b: uint64 :: ApplyCodes(Ops(r), inPrologue, offset, b, u, stack, memory)
                              == ApplyCodes(done, inPrologue, offset, b, u, stack, memory)
    requires var p := Run(frame, stack, Entry(caller, before), older + part);
             && (p.framed <==> r.frameRegister != 0)
             && Agrees(p, u.cpu) && SlotsHeld(p.slots, stack, memory) && FrameLives(frame, p, u.cpu)
    ensures BaseOf(r, inPrologue, offset, u.cpu) == Ok(base)
    ensures ApplyCodes(Ops(r), inPrologue, offset, base, u, stack, memory) == Ok(v) && v.machineFrame == u.machineFrame
    ensures var q := Run(frame, stack, Entry(caller, before), older);
            Agrees(q, v.cpu) && SlotsHeld(q.slots, stack, memory) && FrameLives(frame, q, v.cpu)
  {
    hide Run, LegalRun, Sound, Ops, ApplyCodes, DescribesAll, Agrees, SlotsHeld, FrameLives, BaseOf, Base, Established, InheritsFrame;
    var start := Entry(caller, before);
    var p := Run(frame, stack, start, older + part);
    RunInParts(frame, stack, start, older, part);
    RunKeepsFrame(frame, stack, start, older + part);
    BaseIsFound(r, inPrologue, offset, frame, p, u.cpu);
    base := BaseOf(r, inPrologue, offset, u.cpu).value;
    v := UndoPart(frame, stack, Run(frame, stack, start, older), part, done, inPrologue, offset, base, u, memory);
  }

  lemma BodyCodes(r: Record, part: seq<Step>, offset: nat, u: Unwound, stack: Bounds, memory: Memory)
    requires Sound(r) && DescribesAll(PrologueOps(r), part)
    ensures forall i :: 0 <= i < |PrologueOps(r)| ==> Executed(PrologueOps(r)[i], false, offset)
    ensures forall b: uint64 :: ApplyCodes(Ops(r), false, offset, b, u, stack, memory)
                             == ApplyCodes(PrologueOps(r), false, offset, b, u, stack, memory)
    ensures r.hasFrameSetup ==> Established(Ops(r), false, offset)
  {
    hide Sound, Ops, PrologueOps, ApplyCodes, DescribesAll;
    OpsOfRecord(r);
    var prefix := Epilogs(r.codes, r.epilogues.codeSlots / 2);
    forall b: uint64
      ensures ApplyCodes(Ops(r), false, offset, b, u, stack, memory) == ApplyCodes(PrologueOps(r), false, offset, b, u, stack, memory)
    {
      ApplySkipsEpilogs(prefix, PrologueOps(r), false, offset, b, u, stack, memory);
    }
    EstablishedSkipsEpilogs(prefix, PrologueOps(r), false, offset);
  }

  /** A finished chain returns to the caller. */
  lemma ChainEnds(m: LoadedModule, entry: RuntimeFunction, r: Record, depth: nat, frameRegister: nat, frameOffset: nat, handlerType: nat,
                  establisher: uint64, allowHandler: bool, caller: Cpu, before: Memory, u: Unwound, stack: Bounds, memory: Memory,
                  returnAddress: uint64)
    requires depth < MAX_CHAIN_DEPTH && ValidateFrom(m, entry, depth, frameRegister, frameOffset).Ok?
    requires ReadChecked(m, entry) == Some(r) && !r.Chained()
    requires Agrees(Entry(caller, before), u.cpu) && !u.machineFrame && ReturnAddressAt(caller, stack, memory, returnAddress)
    ensures var result := FinishFrame(m, r, handlerType, establisher, allowHandler, u, stack, memory);
            result.Ok? && IsCallerContext(result.value.cpu, caller, returnAddress)
  {
    hide ReadChecked, HandlerRva, PopReturn, NextEntry, IsCallerContext, ReturnAddressAt;
    V2.ReadCheckedIsSound(m, entry);
    ParsedRecord(m, entry.unwindData);
    assert SameNonvolatile(u.cpu, caller);
    ReturnsToCaller(u.cpu, caller, stack, memory, returnAddress);
  }

  /** From any depth past the first, with the parts so far undone. */
  lemma {:induction false} RestOfChain(m: LoadedModule, entry: RuntimeFunction, depth: nat, frameRegister: nat, frameOffset: nat, frame: Frame,
                                       stack: Bounds, caller: Cpu, before: Memory, parts: seq<seq<Step>>, offset: nat, handlerType: nat,
                                       establisher: uint64, allowHandler: bool, u: Unwound, memory: Memory, returnAddress: uint64)
    requires 1 <= depth <= MAX_CHAIN_DEPTH && ValidateFrom(m, entry, depth, frameRegister, frameOffset).Ok? && ChainDescribes(m, entry, parts)
    requires frame.Valid() && (frameRegister != 0 ==> frame == Frame(frameRegister, frameOffset))
    requires LegalRun(frame, stack, Entry(caller, before), AllSteps(parts))
    requires var p := Run(frame, stack, Entry(caller, before), AllSteps(parts));
             Agrees(p, u.cpu) && SlotsHeld(p.slots, stack, memory) && FrameLives(frame, p, u.cpu) && !u.machineFrame
    requires ReturnAddressAt(caller, stack, memory, returnAddress)
    ensures var result := UnwindChain(m, entry, depth, offset, handlerType, establisher, allowHandler, u, stack, memory);
            result.Ok? && IsCallerContext(result.value.cpu, caller, returnAddress)
    decreases |parts|
  {
    hide Run, LegalRun, DescribesAll, PrologueOps, Ops, Sound, NextEntry, ReadChecked, HandlerRva, Agrees, SlotsHeld, FrameLives, ApplyCodes,
         BaseOf, FinishFrame, IsCallerContext, ReturnAddressAt, Established, ParseRecord;
    var r, older := ReadChecked(m, entry).value, AllSteps(parts[1..]);
    V2.ReadCheckedIsSound(m, entry);
    ChainFramed(m, entry, depth, frameRegister, frameOffset, frame, stack, caller, before, parts);
    RunInParts(frame, stack, Entry(caller, before), older, parts[0]);
    BodyCodes(r, parts[0], offset, u, stack, memory);
    var base, v := RecordUndoesPart(r, false, offset, frame, stack, caller, before, older, parts[0], PrologueOps(r), u, memory);
    if |parts| == 1 {
      assert parts[1..] == [];
      StartsUnframed(frame, stack, Entry(caller, before));
      ChainEnds(m, entry, r, depth, frameRegister, frameOffset, handlerType, establisher, allowHandler, caller, before, v, stack, memory,
                returnAddress);
    } else {
      RestOfChain(m, NextEntry(m, r).value, depth + 1, r.frameRegister, r.frameOffset, frame, stack, caller, before, parts[1..], offset,
                  handlerType, establisher, allowHandler, v, memory, returnAddress);
    }
  }

  /** What SkipsUnexecuted says, for the codes of a whole record. */
  lemma PartialCodes(r: Record, part: seq<Step>, k: nat, inPrologue: bool, offset: nat, u: Unwound, stack: Bounds, memory: Memory)
    returns (done: seq<Code>)
    requires Sound(r) && DescribesAll(PrologueOps(r), part) && Boundary(part, k, inPrologue, offset)
    ensures DescribesAll(done, part[..k]) && forall i :: 0 <= i < |done| ==> Executed(done[i], inPrologue, offset)
    ensures forall b: uint64 :: ApplyCodes(Ops(r), inPrologue, offset, b, u, stack, memory)
                             == ApplyCodes(done, inPrologue, offset, b, u, stack, memory)
    ensures SetsFrame(done) ==> r.hasFrameSetup
  {
    hide Sound, Ops, PrologueOps, ApplyCodes, DescribesAll, SetsFrame;
    OpsOfRecord(r);
    done := SkipsUnexecuted(part, k, PrologueOps(r), inPrologue, offset);
    forall b: uint64
      ensures ApplyCodes(Ops(r), inPrologue, offset, b, u, stack, memory) == ApplyCodes(done, inPrologue, offset, b, u, stack, memory)
    {
      ApplySkipsEpilogs(Epilogs(r.codes, r.epilogues.codeSlots / 2), PrologueOps(r), inPrologue, offset, b, u, stack, memory);
    }
  }

  /** Two records or more. */
  lemma LongChainFindsCaller(m: LoadedModule, entry: RuntimeFunction, r: Record, frame: Frame, stack: Bounds, caller: Cpu, before: Memory,
                             parts: seq<seq<Step>>, k: nat, offset: nat, handlerType: nat, cpu: Cpu, memory: Memory, returnAddress: uint64)
    requires ValidateChain(m, entry) == Ok(r) && Sound(r) && r.Chained() && ChainDescribes(m, entry, parts)
    requires frame.Valid() && FrameMatches(r, frame)
    requires Boundary(parts[0], k, offset < r.prologueSize, offset)
    requires LegalRun(frame, stack, Entry(caller, before), AllSteps(parts[1..]) + parts[0][..k])
    requires Resumes(frame, Run(frame, stack, Entry(caller, before), AllSteps(parts[1..]) + parts[0][..k]), cpu, memory)
    requires ReturnAddressAt(caller, stack, memory, returnAddress)
    ensures BaseOf(r, offset < r.prologueSize, offset, cpu).Ok?
    ensures var result := UnwindChain(m, entry, 0, offset, handlerType, cpu.Rsp(), true, Unwound(cpu, false), stack, memory);
            result.Ok? && IsCallerContext(result.value.cpu, caller, returnAddress)
  {
    hide Run, LegalRun, DescribesAll, PrologueOps, Ops, Sound, NextEntry, ReadChecked, HandlerRva, SlotsHeld, ApplyCodes, SameBytes,
         BaseOf, FinishFrame, IsCallerContext, ReturnAddressAt, Established, ParseRecord, SetsFrame;
    var older, part, start, u := AllSteps(parts[1..]), parts[0][..k], Entry(caller, before), Unwound(cpu, false);
    var inPrologue := offset < r.prologueSize;
    V2.ReadCheckedIsSound(m, entry);
    var p := Run(frame, stack, start, older + part);
    RunKeepsSlots(frame, stack, start, older + part);
    SlotsSurvive(p.slots, stack, p.memory, memory);
    RunInParts(frame, stack, start, older, part);
    var done := PartialCodes(r, parts[0], k, inPrologue, offset, u, stack, memory);
    ChainFramed(m, NextEntry(m, r).value, 1, r.frameRegister, r.frameOffset, frame, stack, caller, before, parts[1..]);
    FramedByPart(frame, stack, Run(frame, stack, start, older), part, done);
    ParentFrame(m, NextEntry(m, r).value, r);
    var base, v := RecordUndoesPart(r, inPrologue, offset, frame, stack, caller, before, older, part, done, u, memory);
    RestOfChain(m, NextEntry(m, r).value, 1, r.frameRegister, r.frameOffset, frame, stack, caller, before, parts[1..], offset, handlerType,
                base, !inPrologue, v, memory, returnAddress);
  }

  lemma ParentFrame(m: LoadedModule, next: RuntimeFunction, r: Record)
    requires ValidateFrom(m, next, 1, r.frameRegister, r.frameOffset).Ok?
    ensures ReadChecked(m, next).Some? && ReadChecked(m, next).value.frameRegister == r.frameRegister
  {
    hide ReadChecked, NextEntry, HandlerRva;
  }

  /**
   * A prologue split over a validated chain of records, one or more, stopped at any
   * instruction boundary of its last part or after it: the chain loop undoes the parts
   * one record after another, across a frame register that only the last record sets
   * up, and finds the caller.
   */
  lemma ChainFindsCaller(m: LoadedModule, entry: RuntimeFunction, r: Record, frame: Frame, stack: Bounds, caller: Cpu, before: Memory,
                         parts: seq<seq<Step>>, k: nat, offset: nat, handlerType: nat, cpu: Cpu, memory: Memory, returnAddress: uint64)
    requires ValidateChain(m, entry) == Ok(r) && Sound(r) && ChainDescribes(m, entry, parts)
    requires frame.Valid() && FrameMatches(r, frame)
    requires Boundary(parts[0], k, offset < r.prologueSize, offset)
    requires LegalRun(frame, stack, Entry(caller, before), AllSteps(parts[1..]) + parts[0][..k])
    requires Resumes(frame, Run(frame, stack, Entry(caller, before), AllSteps(parts[1..]) + parts[0][..k]), cpu, memory)
    requires ReturnAddressAt(caller, stack, memory, returnAddress)
    ensures BaseOf(r, offset < r.prologueSize, offset, cpu).Ok?
    ensures var result := UnwindChain(m, entry, 0, offset, handlerType, cpu.Rsp(), true, Unwound(cpu, false), stack, memory);
            result.Ok? && IsCallerContext(result.value.cpu, caller, returnAddress)
  {
    hide Run, LegalRun, Resumes, DescribesAll, PrologueOps, Sound, BaseOf, UnwindChain, ValidateFrom, NextEntry, ReadChecked,
         IsCallerContext, ReturnAddressAt;
    if r.Chained() {
      LongChainFindsCaller(m, entry, r, frame, stack, caller, before, parts, k, offset, handlerType, cpu, memory, returnAddress);
    } else {
      assert parts[1..] == [] && AllSteps(parts[1..]) + parts[0][..k] == parts[0][..k];
      RecordFindsCaller(m, handlerType, entry, r, frame, stack, caller, before, parts[0], k, offset, cpu, memory, returnAddress);
    }
  }

  /** With the frame base computed: an epilogue's context where one is recognised, the chain's elsewhere. */
  lemma EpilogueOrChain(m: LoadedModule, handlerType: nat, pc: uint64, entryIndex: nat, entry: RuntimeFunction, r: Record, cpu: Cpu,
                        stack: Bounds, memory: Memory)
    requires stack.limit < stack.base && handlerType <= UHANDLER && EntryFromPointer(m, entryIndex) == Some(entry)
    requires m.loadBase <= pc && entry.begin <= pc - m.loadBase < entry.end && ValidateChain(m, entry) == Ok(r) && Sound(r)
    ensures var offset := pc - m.loadBase - entry.begin;
            var epilogue := TryEpilogue(m, entry, r, pc, cpu, stack, memory);
            BaseOf(r, offset < r.prologueSize, offset, cpu).Ok? && epilogue.Ok? ==>
              var unwound := VirtualUnwind(m, handlerType, pc, entryIndex, cpu, stack, memory);
              match epilogue.value
              case Some(found) => unwound.Ok? && unwound.value.cpu == found
              case None => unwound == UnwindChain(m, entry, 0, offset, handlerType, cpu.Rsp(), true, Unwound(cpu, false), stack, memory)
  {
    hide EntryFromPointer, Sound, TryEpilogue, BaseOf, UnwindChain, ValidateFrom, ReadChecked;
  }

  /**
   * The same through sl_win64_virtual_unwind: the caller, unless the unwinder
   * recognises an epilogue at the address, and then that epilogue's context.
   */
  lemma ChainedFunctionUnwinds(m: LoadedModule, handlerType: nat, pc: uint64, entryIndex: nat, entry: RuntimeFunction, r: Record,
                               frame: Frame, stack: Bounds, caller: Cpu, before: Memory, parts: seq<seq<Step>>, k: nat,
                               cpu: Cpu, memory: Memory, returnAddress: uint64)
    requires stack.limit < stack.base && handlerType <= UHANDLER && EntryFromPointer(m, entryIndex) == Some(entry)
    requires m.loadBase <= pc && entry.begin <= pc - m.loadBase < entry.end
    requires ValidateChain(m, entry) == Ok(r) && Sound(r) && ChainDescribes(m, entry, parts)
    requires frame.Valid() && FrameMatches(r, frame)
    requires Boundary(parts[0], k, pc - m.loadBase - entry.begin < r.prologueSize, pc - m.loadBase - entry.begin)
    requires LegalRun(frame, stack, Entry(caller, before), AllSteps(parts[1..]) + parts[0][..k])
    requires Resumes(frame, Run(frame, stack, Entry(caller, before), AllSteps(parts[1..]) + parts[0][..k]), cpu, memory)
    requires ReturnAddressAt(caller, stack, memory, returnAddress)
    ensures var epilogue := TryEpilogue(m, entry, r, pc, cpu, stack, memory);
            epilogue.Ok? ==>
              var unwound := VirtualUnwind(m, handlerType, pc, entryIndex, cpu, stack, memory);
              && unwound.Ok?
              && if epilogue.value.None? then IsCallerContext(unwound.value.cpu, caller, returnAddress)
                 else unwound.value.cpu == epilogue.value.value
  {
    hide Run, LegalRun, Resumes, DescribesAll, ChainDescribes, EntryFromPointer, Sound, TryEpilogue, BaseOf, VirtualUnwind, UnwindChain,
         ValidateChain, IsCallerContext, ReturnAddressAt;
    EpilogueOrChain(m, handlerType, pc, entryIndex, entry, r, cpu, stack, memory);
    ChainFindsCaller(m, entry, r, frame, stack, caller, before, parts, k, pc - m.loadBase - entry.begin, handlerType, cpu, memory,
                     returnAddress);
  }
}
