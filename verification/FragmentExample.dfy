/**
 * A function in two fragments, each with its own table entry: the parent allocates,
 * the fragment calls and jumps back. The jump is mistaken for an epilogue.
 */
module FragmentExample {
  import opened Bytes
  import opened Context
  import opened UnwindCodes
  import opened UnwindImage
  import opened Prologue
  import opened UnwindFrame
  import opened UnwindAgreement
  import opened ChainedFunction
  import opened WholeFunction
  import Encoding = UnwindEncoding
  import Examples = PrologueExamples
  import V1 = UnwindV1

  const LOAD_BASE: uint64 := 0x40_0000

  /** sub rsp, 16; jmp to the fragment; add rsp, 16; ret; padding. */
  function Parent(): (r: seq<uint8>)
    ensures |r| == 16
  {
    [0x48, 0x83, 0xec, 0x10, 0xeb, 0x0a, 0x48, 0x83, 0xc4, 0x10, 0xc3, 0xcc, 0xcc, 0xcc, 0xcc, 0xcc]
  }

  /** call the parent; jmp back into it; padding. */
  function Fragment(): (r: seq<uint8>)
    ensures |r| == 8
  {
    [0xe8, 0xeb, 0xff, 0xff, 0xff] + ([0xeb, 0xef] + [0xcc])
  }

  /** Allocate 16 bytes at 4. */
  function ParentSlots(): Codes { [4, 0x12] }

  function ParentBytes(): (r: seq<uint8>) { [0, 0, 0, 0] + [16, 0, 0, 0] + [24, 0, 0, 0] }

  function FragmentBytes(): (r: seq<uint8>) { [16, 0, 0, 0] + [24, 0, 0, 0] + [32, 0, 0, 0] }

  function ParentWritten(): (r: seq<uint8>)
    ensures |r| == 8
  {
    Encoding.WriteRecord(1, 0, 4, 0, 0, ParentSlots())
  }

  function FragmentWritten(): (r: seq<uint8>)
    ensures |r| == 4
  {
    Encoding.WriteRecord(1, 4, 0, 0, 0, [])
  }

  /** Code, the two records, the chained record's parent entry, and the table. */
  function Image(): (r: seq<uint8>)
    ensures |r| == 72
    ensures r[16..24] == Fragment() && r[24..32] == ParentWritten() && r[32..36] == FragmentWritten()
    ensures r[36..48] == ParentBytes() && r[48..72] == ParentBytes() + FragmentBytes()
  {
    Parent() + Fragment() + ParentWritten() + FragmentWritten() + ParentBytes() + (ParentBytes() + FragmentBytes())
  }

  function Module(): LoadedModule {
    LoadedModule(true, true, Image(), 72, LOAD_BASE, 48, 24)
  }

  function ParentEntry(): RuntimeFunction { RuntimeFunction(0, 16, 24) }

  function FragmentEntry(): RuntimeFunction { RuntimeFunction(16, 24, 32) }

  function ParentRecord(): Record {
    Record(1, 0, 4, 0, 0, ParentSlots(), 8, 32, false, NO_EPILOGUES)
  }

  function FragmentRecord(): Record {
    Record(1, 4, 0, 0, 0, [], 4, 36, false, NO_EPILOGUES)
  }

  function Allocation(): seq<Step> { [Step(4, Allocate(16))] }

  /** The fragment, whose own part of the prologue is empty. */
  function TheFunction(): Function {
    Function(Module(), 1, FragmentEntry(), FragmentRecord(), Frame(5, 0), [[]] + [Allocation()], [], [], Allocation())
  }

  lemma CodesValidate()
    ensures Validate(ParentSlots(), 1, 4, 0, 0) == Some(Validated(NO_EPILOGUES, false))
    ensures Validate([], 1, 0, 0, 0) == Some(Validated(NO_EPILOGUES, false))
  {
    assert CheckFrom(ParentSlots(), 1, 4, 0, 0, 1, 4, false) == Some(false);
    assert CheckFrom(ParentSlots(), 1, 4, 0, 0, 0, 255, false) == Some(false);
  }

  lemma RecordsAreRead()
    ensures ReadRecord(Module(), 24) == Some(ParentRecord()) && ReadRecord(Module(), 32) == Some(FragmentRecord())
  {
    hide Validate, ReadRecord, Image, Encoding.WriteRecord;
    CodesValidate();
    assert |ParentWritten()| == 8 && |FragmentWritten()| == 4;
    Encoding.RecordReadsBack(Module(), 24, 1, 0, 4, 0, 0, ParentSlots(), Validated(NO_EPILOGUES, false));
    Encoding.RecordReadsBack(Module(), 32, 1, 4, 0, 0, 0, [], Validated(NO_EPILOGUES, false));
  }

  lemma EntriesAreRead()
    ensures ReadRuntimeFunction(ParentBytes()) == ParentEntry() && ReadRuntimeFunction(FragmentBytes()) == FragmentEntry()
  {
    hide Load;
    var p, q := ParentBytes(), FragmentBytes();
    assert p[..4] == [0, 0, 0, 0] && p[4..8] == [16, 0, 0, 0] && p[8..12] == [24, 0, 0, 0];
    assert q[..4] == [16, 0, 0, 0] && q[4..8] == [24, 0, 0, 0] && q[8..12] == [32, 0, 0, 0];
    LoadFour(0, 0, 0, 0);
    LoadFour(16, 0, 0, 0);
    LoadFour(24, 0, 0, 0);
    LoadFour(32, 0, 0, 0);
  }

  lemma EntryIsFound()
    ensures EntryFromPointer(Module(), 1) == Some(FragmentEntry())
  {
    hide Image, ReadRuntimeFunction;
    EntriesAreRead();
    var table := Image()[48..72];
    assert table[12..24] == FragmentBytes();
  }

  lemma ParentIsNext()
    ensures NextEntry(Module(), FragmentRecord()) == Some(ParentEntry())
  {
    hide Image, ReadRuntimeFunction;
    EntriesAreRead();
  }

  lemma RecordsAreChecked()
    ensures ReadChecked(Module(), FragmentEntry()) == Some(FragmentRecord()) && Sound(FragmentRecord())
    ensures ReadChecked(Module(), ParentEntry()) == Some(ParentRecord()) && Sound(ParentRecord())
  {
    hide Validate, ReadRecord, Image, ParentSlots;
    RecordsAreRead();
    CodesValidate();
  }

  lemma FlagsAre()
    ensures FragmentRecord().Chained() && !ParentRecord().Chained() && !ParentRecord().HasHandler()
  {
  }

  lemma ChainIsValid()
    ensures ValidateChain(Module(), FragmentEntry()) == Ok(FragmentRecord()) && Sound(FragmentRecord())
  {
    hide ReadChecked, NextEntry, Module, HandlerRva, Validate, Record.Chained, Record.HasHandler;
    RecordsAreChecked();
    ParentIsNext();
    FlagsAre();
    assert ValidateFrom(Module(), ParentEntry(), 1, 0, 0) == Ok(());
  }

  lemma CodesAre()
    ensures Walks(ParentSlots(), 1, 0) && Decode(ParentSlots(), 1, 0) == [Code(4, AllocSmall(16))] + []
    ensures Walks([], 1, 0) && Decode([], 1, 0) == []
  {
    hide Load16, Load32;
    assert Walks(ParentSlots(), 1, 1) && Decode(ParentSlots(), 1, 1) == [];
    DecodeStep(ParentSlots(), 1, 0);
  }

  lemma OpsAre()
    ensures Sound(FragmentRecord()) && PrologueOps(FragmentRecord()) == []
    ensures Sound(ParentRecord()) && PrologueOps(ParentRecord()) == [Code(4, AllocSmall(16))] + []
  {
    hide ReadChecked, Walks, Decode, Sound, PrologueOps, AllSound, WellOrdered, SetsFrame, Epilogs, ParentSlots;
    RecordsAreChecked();
    CodesAre();
    OpsOfRecord(FragmentRecord());
    OpsOfRecord(ParentRecord());
  }

  lemma FunctionIsWellBuilt()
    ensures WellBuilt(TheFunction())
  {
    hide Sound, ReadChecked, ValidateChain, EntryFromPointer, PrologueOps, Module, ChainDescribes, AllSteps, NextEntry;
    ChainIsValid();
    RecordsAreChecked();
    EntryIsFound();
    ParentIsNext();
    OpsAre();
    Examples.DescribesSnoc([], [], Code(4, AllocSmall(16)), Step(4, Allocate(16)));
    assert [] + [Step(4, Allocate(16))] == Allocation();
    OneRecordDescribes(Module(), ParentEntry(), ParentRecord(), Allocation());
    RecordAndParentDescribe(Module(), FragmentEntry(), FragmentRecord(), ParentEntry(), [], [Allocation()]);
    assert AllSteps([Allocation()]) + [] == [] + Allocation();
  }

  /** The stack has the call's frame and the return address above it. */
  predicate HasRoom(stack: Bounds, caller: Cpu) {
    stack.limit + 16 <= caller.Rsp() && caller.Rsp() + 8 <= stack.base
  }

  function TheCall(stack: Bounds, caller: Cpu, memory: Memory): Call {
    Call(stack, caller, memory, memory, Word(memory, caller.Rsp()))
  }

  /** In the body: the sixteen bytes are still allocated. */
  function InBody(caller: Cpu): Cpu
    requires caller.Rsp() >= 16
  {
    caller.WithRsp(caller.Rsp() - 16)
  }

  lemma StoppedAtJump(stack: Bounds, caller: Cpu, memory: Memory)
    requires HasRoom(stack, caller)
    ensures WellBuilt(TheFunction()) && Entered(TheCall(stack, caller, memory))
    ensures Stopped(TheFunction(), TheCall(stack, caller, memory), Before(0), LOAD_BASE + 21, InBody(caller))
  {
    hide WellBuilt, Word, Image, Sound, DeclaredOffset, Run, LegalRun, AllSteps, Resumes;
    FunctionIsWellBuilt();
    Allocated(stack, caller, memory);
    assert TheFunction().parts[0] == [];
  }

  lemma Allocated(stack: Bounds, caller: Cpu, memory: Memory)
    requires HasRoom(stack, caller)
    ensures var f, entry := TheFunction(), Entry(caller, memory);
            && LegalRun(f.frame, stack, entry, Ran(f.parts, 0))
            && Resumes(f.frame, Run(f.frame, stack, entry, Ran(f.parts, 0)), InBody(caller), memory)
  {
    hide Module, Word;
    var f, entry := TheFunction(), Entry(caller, memory);
    assert f.parts[1..] == [Allocation()] && [Allocation()][1..] == [];
    assert Ran(f.parts, 0) == [] + [Step(4, Allocate(16))];
    Examples.LegalRunSnoc(f.frame, stack, entry, [], Step(4, Allocate(16)));
  }

  function TheReading(): V1.Reading {
    V1.Reading([], [], [0xeb, 0xef], 0, [0xcc])
  }

  /** Nothing but the jump, whose target is outside the fragment. */
  lemma JumpIsRead()
    ensures Sound(FragmentRecord()) && InFunction(TheFunction(), LOAD_BASE + 21) && ReadsAt(TheFunction(), LOAD_BASE + 21, TheReading())
  {
    hide Module, V1.Reads, Sound;
    RecordsAreChecked();
    JumpIsThere();
    JumpLeaves();
    assert Module().loadBase == LOAD_BASE by { BaseIs(); }
  }

  lemma BaseIs()
    ensures Module().loadBase == LOAD_BASE
  {
    hide Image;
  }

  lemma JumpIsThere()
    ensures Window(Module(), 21, 3) == Some([0xeb, 0xef, 0xcc])
  {
    hide Image;
    SubSlice(Image(), 16, 24, 5, 3);
    assert Fragment()[5..8] == [0xeb, 0xef, 0xcc];
  }

  lemma JumpLeaves()
    ensures V1.Reads(TheReading(), [0xeb, 0xef, 0xcc], V1.MAX_EPILOGUE_INSTRUCTIONS, true, 0, LOAD_BASE, 21, FragmentEntry())
  {
    hide V1.IndirectJumpSize;
    assert [] + ([0xeb, 0xef] + [0xcc]) == [0xeb, 0xef, 0xcc];
    assert V1.LeavesFunction(LOAD_BASE, FragmentEntry(), 23, V1.Signed8(0xef));
  }

  /**
   * While the call at the fragment's end runs, its return address is the jump back into
   * the parent. The fragment's table entry does not hold the jump's target, so the jump
   * is taken for a tail call: the unwinder answers, and with the wrong frame, the word
   * at RSP, a local of the function, as the return address.
   */
  lemma JumpBackIsMistaken(stack: Bounds, caller: Cpu, memory: Memory)
    requires HasRoom(stack, caller)
    ensures WellBuilt(TheFunction()) && Entered(TheCall(stack, caller, memory))
    ensures Stopped(TheFunction(), TheCall(stack, caller, memory), Before(0), LOAD_BASE + 21, InBody(caller))
    ensures var unwound := VirtualUnwind(Module(), EHANDLER, LOAD_BASE + 21, 1, InBody(caller), stack, memory);
            && unwound.Ok? && unwound.value.cpu.rip == Word(memory, caller.Rsp() - 16)
            && !IsCallerContext(unwound.value.cpu, caller, Word(memory, caller.Rsp()))
  {
    hide VirtualUnwind, Stopped, Entered, WellBuilt, Module, IsCallerContext, ReadsAt, Word;
    StoppedAtJump(stack, caller, memory);
    JumpIsRead();
    ExitInBody(TheFunction(), TheCall(stack, caller, memory), 0, EHANDLER, LOAD_BASE + 21, InBody(caller), TheReading());
  }
}
