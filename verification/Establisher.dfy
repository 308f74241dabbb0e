/**
 * The establisher frame: the address by which handlers and unwind targets name a frame.
 * It is RSP until the prologue sets a frame register up, and from then on RSP as it was
 * at that moment, for every later address of the function.
 */
module Establisher {
  import opened Bytes
  import opened Context
  import opened UnwindCodes
  import opened UnwindApply
  import opened UnwindImage
  import opened Prologue
  import opened UnwindFrame
  import opened UnwindAgreement
  import opened ChainedFunction
  import opened WholeFunction
  import V2 = UnwindV2

  // What the records say

  lemma {:induction false} SetupMeans(codes: seq<Code>, inPrologue: bool, offset: nat)
    requires WellOrdered(codes)
    ensures Established(codes, inPrologue, offset) <==>
            exists k :: 0 <= k < |codes| && codes[k].op == SetFrame && (inPrologue ==> codes[k].offset <= offset)
  {
    if codes != [] {
      assert codes == [codes[0]] + codes[1..];
      EstablishedCons(codes[0], codes[1..]);
      SetupMeans(codes[1..], inPrologue, offset);
      assert forall k :: 1 <= k < |codes| ==> codes[k] == codes[1..][k - 1];
    }
  }

  /** The frame register counts: the record's own set-up has run, or a chained record leaves the set-up to its parents. */
  ghost predicate FrameCounts(r: Record, inPrologue: bool, offset: nat)
    requires Sound(r)
  {
    var ops := PrologueOps(r);
    && r.frameRegister != 0
    && ((r.Chained() && forall k :: 0 <= k < |ops| ==> ops[k].op != SetFrame) ||
        exists k :: 0 <= k < |ops| && ops[k].op == SetFrame && (inPrologue ==> ops[k].offset <= offset))
  }

  lemma BaseMeans(r: Record, inPrologue: bool, offset: nat, cpu: Cpu)
    requires Sound(r)
    ensures BaseOf(r, inPrologue, offset, cpu) ==
            if !FrameCounts(r, inPrologue, offset) then Ok(cpu.integer[4])
            else if cpu.integer[r.frameRegister] < 16 * r.frameOffset then Fail(FrameBase)
            else Ok(cpu.integer[r.frameRegister] - 16 * r.frameOffset)
  {
    hide Validate, Ops, PrologueOps, WellOrdered, Established;
    OpsOfRecord(r);
    SetupMeans(PrologueOps(r), inPrologue, offset);
    EstablishedSkipsEpilogs(Epilogs(r.codes, r.epilogues.codeSlots / 2), PrologueOps(r), inPrologue, offset);
  }

  /** Whatever the machine's state, every frame unwound answers the base of its first record. */
  lemma EstablisherIsBase(m: LoadedModule, handlerType: nat, pc: uint64, entryIndex: nat, entry: RuntimeFunction, cpu: Cpu,
                          stack: Bounds, memory: Memory)
    requires EntryFromPointer(m, entryIndex) == Some(entry)
    requires VirtualUnwind(m, handlerType, pc, entryIndex, cpu, stack, memory).Ok?
    ensures m.loadBase <= pc && entry.begin <= pc - m.loadBase && ValidateChain(m, entry).Ok? && Sound(ValidateChain(m, entry).value)
    ensures var r, offset := ValidateChain(m, entry).value, pc - m.loadBase - entry.begin;
            var establisher := VirtualUnwind(m, handlerType, pc, entryIndex, cpu, stack, memory).value.establisher;
            establisher == if FrameCounts(r, offset < r.prologueSize, offset) then cpu.integer[r.frameRegister] - 16 * r.frameOffset
                           else cpu.integer[4]
  {
    hide EntryFromPointer, ValidateChain, TryEpilogue, UnwindChain, BaseOf, Sound, ReadChecked, FrameCounts;
    ValidatedFirst(m, entry);
    var r, offset := ValidateChain(m, entry).value, pc - m.loadBase - entry.begin;
    BaseMeans(r, offset < r.prologueSize, offset, cpu);
    if TryEpilogue(m, entry, r, pc, cpu, stack, memory) == Ok(None) {
      ChainAnswersBase(m, entry, r, offset, handlerType, cpu, stack, memory);
    }
  }

  lemma {:induction false} EstablisherPasses(m: LoadedModule, entry: RuntimeFunction, depth: nat, offset: nat, handlerType: nat,
                                             establisher: uint64, allowHandler: bool, u: Unwound, stack: Bounds, memory: Memory)
    requires 0 < depth <= MAX_CHAIN_DEPTH
    ensures var result := UnwindChain(m, entry, depth, offset, handlerType, establisher, allowHandler, u, stack, memory);
            result.Ok? ==> result.value.establisher == establisher
    decreases MAX_CHAIN_DEPTH - depth
  {
    hide ApplyCodes, ParseRecord, NextEntry, HandlerRva, Ops, PopReturn, BaseOf, Sound;
    if depth < MAX_CHAIN_DEPTH && ParseRecord(m, entry.unwindData).Some? {
      var r := ParseRecord(m, entry.unwindData).value;
      ParsedRecord(m, entry.unwindData);
      assert Sound(r) by { ParsedIsSound(m, entry.unwindData); }
      var base := BaseOf(r, false, offset, u.cpu);
      if base.Ok? {
        var next := ApplyCodes(Ops(r), false, offset, base.value, u, stack, memory);
        if next.Ok? && r.Chained() && NextEntry(m, r).Some? {
          EstablisherPasses(m, NextEntry(m, r).value, depth + 1, offset, handlerType, establisher, allowHandler, next.value, stack, memory);
        }
      }
    }
  }

  lemma ParsedIsSound(m: LoadedModule, at: nat)
    requires ParseRecord(m, at).Some?
    ensures Sound(ParseRecord(m, at).value)
  {
    hide Validate;
    ParsedRecord(m, at);
  }

  lemma ChainAnswersBase(m: LoadedModule, entry: RuntimeFunction, r: Record, offset: nat, handlerType: nat, cpu: Cpu, stack: Bounds, memory: Memory)
    requires ReadChecked(m, entry) == Some(r) && Sound(r)
    ensures var result := UnwindChain(m, entry, 0, offset, handlerType, cpu.Rsp(), true, Unwound(cpu, false), stack, memory);
            result.Ok? ==> BaseOf(r, offset < r.prologueSize, offset, cpu) == Ok(result.value.establisher)
  {
    hide ApplyCodes, ParseRecord, NextEntry, HandlerRva, Ops, PopReturn, BaseOf, Sound, RangesAreValid;
    V2.ReadCheckedIsSound(m, entry);
    var inPrologue := offset < r.prologueSize;
    var base := BaseOf(r, inPrologue, offset, cpu);
    if base.Ok? {
      var next := ApplyCodes(Ops(r), inPrologue, offset, base.value, Unwound(cpu, false), stack, memory);
      if next.Ok? && r.Chained() && NextEntry(m, r).Some? {
        EstablisherPasses(m, NextEntry(m, r).value, 1, offset, handlerType, base.value, !inPrologue, next.value, stack, memory);
      }
    }
  }

  // What the machine did

  /** The frame register, once set up, is RSP as it was then plus its scaled offset, until the prologue ends. */
  lemma {:induction false} BaseIsRspAtSetUp(frame: Frame, stack: Bounds, entry: Point, steps: seq<Step>) returns (i: nat)
    requires frame.Valid() && LegalRun(frame, stack, entry, steps) && !entry.framed
    requires Run(frame, stack, entry, steps).framed
    ensures i < |steps| && steps[i].instr == EstablishFrame && LegalRun(frame, stack, entry, steps[..i])
    ensures Base(frame, Run(frame, stack, entry, steps)) == Run(frame, stack, entry, steps[..i]).cpu.Rsp()
    decreases |steps|
  {
    hide Legal;
    var p, n := Run(frame, stack, entry, Init(steps)), |steps| - 1;
    if p.framed {
      i := BaseIsRspAtSetUp(frame, stack, entry, Init(steps));
      assert steps[..i] == Init(steps)[..i];
      ExecuteKeepsBase(frame, stack, p, Last(steps).instr);
    } else {
      i := n;
      assert steps[..i] == Init(steps);
      SetUpFrames(frame, stack, p, Last(steps).instr);
    }
  }

  lemma SetUpFrames(frame: Frame, stack: Bounds, p: Point, instr: Instr)
    requires frame.Valid() && Legal(frame, stack, p, instr) && !p.framed && Execute(frame, stack, p, instr).framed
    ensures instr == EstablishFrame && Base(frame, Execute(frame, stack, p, instr)) == p.cpu.Rsp()
  {
  }

  /** The frame register counts exactly when the machine has set it up. */
  lemma CountsIffFramed(f: Function, c: Call, done: nat, pc: uint64, here: Cpu)
    requires WellBuilt(f) && Stopped(f, c, Before(done), pc, here)
    ensures var offset := pc - f.m.loadBase - f.entry.begin;
            FrameCounts(f.record, offset < f.record.prologueSize, offset) <==>
            Run(f.frame, c.stack, Entry(c.caller, c.before), Ran(f.parts, done)).framed
  {
    hide EntryFromPointer, ValidateFrom, Run, LegalRun, Resumes, DescribesAll, Ops, PrologueOps, ReadChecked, NextEntry, RangesAreValid,
         Established, SetsFrame, WellOrdered, EpilogueOffset, HandlerRva, Validate;
    var r, offset := f.record, pc - f.m.loadBase - f.entry.begin;
    var inPrologue, start, part := offset < r.prologueSize, Entry(c.caller, c.before), f.parts[0][..done];
    var older := AllSteps(f.parts[1..]);
    ValidatedFirst(f.m, f.entry);
    OpsOfRecord(r);
    SetupMeans(PrologueOps(r), inPrologue, offset);
    RunInParts(f.frame, c.stack, start, older, part);
    var codes := SkipsUnexecuted(f.parts[0], done, PrologueOps(r), inPrologue, offset);
    FramedByPart(f.frame, c.stack, Run(f.frame, c.stack, start, older), part, codes);
    if r.Chained() {
      var next := NextEntry(f.m, r).value;
      ParentsValid(f.m, f.entry, r);
      ChainFramed(f.m, next, 1, r.frameRegister, r.frameOffset, f.frame, c.stack, c.caller, c.before, f.parts[1..]);
      ParentFrame(f.m, next, r);
      NotItsOwn(r);
    } else {
      assert f.parts[1..] == [] && older == [];
      StartsUnframed(f.frame, c.stack, start);
    }
  }

  lemma ParentsValid(m: LoadedModule, entry: RuntimeFunction, r: Record)
    requires ValidateChain(m, entry) == Ok(r) && r.Chained() && NextEntry(m, r).Some?
    ensures ValidateFrom(m, NextEntry(m, r).value, 1, r.frameRegister, r.frameOffset).Ok?
  {
    hide ReadChecked, HandlerRva;
  }

  lemma NotItsOwn(r: Record)
    requires Sound(r)
    ensures r.hasFrameSetup <==> exists k :: 0 <= k < |PrologueOps(r)| && PrologueOps(r)[k].op == SetFrame
  {
    hide Validate;
    OpsOfRecord(r);
  }

  /**
   * At every boundary of the prologue and the body that unwinds, the establisher is the
   * base the machine's own frame has: RSP, or the frame register less its scaled offset.
   */
  lemma EstablisherIsFrame(f: Function, c: Call, done: nat, handlerType: nat, pc: uint64, here: Cpu)
    requires WellBuilt(f) && Stopped(f, c, Before(done), pc, here)
    requires VirtualUnwind(f.m, handlerType, pc, f.index, here, c.stack, c.memory).Ok?
    ensures var p := Run(f.frame, c.stack, Entry(c.caller, c.before), Ran(f.parts, done));
            VirtualUnwind(f.m, handlerType, pc, f.index, here, c.stack, c.memory).value.establisher ==
            if p.framed then Base(f.frame, p) else here.Rsp()
  {
    hide EntryFromPointer, ValidateChain, VirtualUnwind, Run, LegalRun, DescribesAll, Sound, FrameCounts, ChainDescribes, AllSteps, Boundary,
         EpilogueOffset;
    EstablisherIsBase(f.m, handlerType, pc, f.index, f.entry, here, c.stack, c.memory);
    CountsIffFramed(f, c, done, pc, here);
    CountsNamesFrame(f.record, pc - f.m.loadBase - f.entry.begin);
  }

  lemma CountsNamesFrame(r: Record, offset: nat)
    requires Sound(r)
    ensures FrameCounts(r, offset < r.prologueSize, offset) ==> r.frameRegister != 0
  {
  }
}
