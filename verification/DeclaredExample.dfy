/** One function with a version-2 record, unwound from inside its declared epilogue. */
module DeclaredExample {
  import opened Bytes
  import opened Context
  import opened UnwindCodes
  import opened UnwindImage
  import opened Prologue
  import opened UnwindFrame
  import opened UnwindAgreement
  import opened ChainedFunction
  import opened WholeFunction
  import Encoding = UnwindEncoding
  import Examples = PrologueExamples
  import V1 = UnwindV1
  import V2 = UnwindV2

  const RBP: nat := 5
  const LOAD_BASE: uint64 := 0x40_0000

  /** push rbp; sub rsp, 16; then add rsp, 16; pop rbp; ret; padding. */
  function Machine(): (r: seq<uint8>)
    ensures |r| == 12
  {
    [0x55, 0x48, 0x83, 0xec, 0x10, 0x48, 0x83, 0xc4, 0x10, 0x5d, 0xc3, 0xcc]
  }

  /** A two-byte epilogue at the function's end; padding; allocate 16 bytes at 5; push RBP at 1. */
  function Slots(): Codes {
    [2, 0x16, 0, 0x06, 5, 0x12, 1, 0x50]
  }

  function AtEnd(): EpilogueInfo { EpilogueInfo(true, true, 2, 2) }

  function Written(): (r: seq<uint8>)
    ensures |r| == 12
  {
    Encoding.WriteRecord(2, 0, 5, 0, 0, Slots())
  }

  function EntryBytes(): (r: seq<uint8>) { [0, 0, 0, 0] + [11, 0, 0, 0] + [12, 0, 0, 0] }

  function Image(): (r: seq<uint8>)
    ensures |r| == 36 && r[12..24] == Written() && r[24..36] == EntryBytes()
  {
    Machine() + Written() + EntryBytes()
  }

  function Module(): LoadedModule {
    LoadedModule(true, true, Image(), 36, LOAD_BASE, 24, 12)
  }

  function TheEntry(): RuntimeFunction { RuntimeFunction(0, 11, 12) }

  function TheRecord(): Record {
    Record(2, 0, 5, 0, 0, Slots(), 12, 24, false, AtEnd())
  }

  function ThePop(): Code { Code(1, PushNonvol(RBP)) }

  function Ops(): seq<Code> { [Code(5, AllocSmall(16))] + [ThePop()] }

  function Pushes(): seq<Step> { [] + [Step(1, Push(RBP))] }

  function Rest(): seq<Step> { [Step(5, Allocate(16))] }

  function TheFunction(): Function {
    Function(Module(), 0, TheEntry(), TheRecord(), Frame(RBP, 0), [Pushes() + Rest()], Pushes(), [ThePop()], Rest())
  }

  lemma CodesValidate()
    ensures Validate(Slots(), 2, 5, 0, 0) == Some(Validated(AtEnd(), false))
  {
    var s := Slots();
    assert PrefixScan(s, 1, true) == (2, true);
    assert CheckFrom(s, 2, 5, 0, 0, 4, 1, false) == Some(false);
    assert CheckFrom(s, 2, 5, 0, 0, 3, 5, false) == Some(false);
    assert CheckFrom(s, 2, 5, 0, 0, 2, 255, false) == Some(false);
  }

  lemma CodesAre()
    ensures Walks(Slots(), 2, 2) && Decode(Slots(), 2, 2) == Ops()
  {
    hide Load16, Load32;
    var s := Slots();
    assert Walks(s, 2, 4) && Decode(s, 2, 4) == [];
    DecodeStep(s, 2, 3);
    assert [ThePop()] + [] == [ThePop()];
    DecodeStep(s, 2, 2);
  }

  lemma RangesFit()
    ensures RangesAreValid(TheRecord(), TheEntry())
  {
    assert Distance(Slots(), 1) == 0;
  }

  lemma RecordIsChecked()
    ensures ReadChecked(Module(), TheEntry()) == Some(TheRecord()) && Sound(TheRecord()) && !TheRecord().Chained()
  {
    hide Validate, Image, Encoding.WriteRecord, RangesAreValid;
    CodesValidate();
    assert |Written()| == 12;
    Encoding.RecordReadsBack(Module(), 12, 2, 0, 5, 0, 0, Slots(), Validated(AtEnd(), false));
    RangesFit();
  }

  lemma ChainIsValid()
    ensures ValidateChain(Module(), TheEntry()) == Ok(TheRecord()) && Sound(TheRecord())
  {
    hide ReadChecked, Validate, Image;
    RecordIsChecked();
  }

  lemma EntryIsFound()
    ensures EntryFromPointer(Module(), 0) == Some(TheEntry())
  {
    hide Load, Image;
    var entry := EntryBytes();
    assert entry[..4] == [0, 0, 0, 0] && entry[4..8] == [11, 0, 0, 0] && entry[8..12] == [12, 0, 0, 0];
    LoadFour(0, 0, 0, 0);
    LoadFour(11, 0, 0, 0);
    LoadFour(12, 0, 0, 0);
    var table := Image()[24..36];
    assert table[0..12] == entry;
  }

  lemma OpsAreKnown()
    ensures Sound(TheRecord()) && PrologueOps(TheRecord()) == Ops() && V2.FromFirstPush(Ops()) == [ThePop()]
  {
    hide ReadChecked, Walks, Decode, Sound, PrologueOps, AllSound, WellOrdered, SetsFrame, Epilogs, Slots;
    RecordIsChecked();
    CodesAre();
    OpsOfRecord(TheRecord());
    V2.FromFirstPushCons(Code(5, AllocSmall(16)), [ThePop()]);
  }

  lemma CodesDescribe()
    ensures DescribesAll([ThePop()], Pushes()) && DescribesAll(Ops(), Pushes() + Rest())
  {
    Examples.DescribesSnoc([], [], ThePop(), Step(1, Push(RBP)));
    assert [ThePop()] + [] == [ThePop()];
    Examples.DescribesSnoc([ThePop()], Pushes(), Code(5, AllocSmall(16)), Step(5, Allocate(16)));
  }

  lemma FunctionIsWellBuilt()
    ensures WellBuilt(TheFunction()) && PushesSelected(TheFunction())
  {
    hide Sound, ReadChecked, ValidateChain, EntryFromPointer, PrologueOps, Module, ChainDescribes, AllSteps, NextEntry, DescribesAll,
         V2.FromFirstPush, Ops, Pushes, Rest, Record.Chained;
    ChainIsValid();
    RecordIsChecked();
    EntryIsFound();
    OpsAreKnown();
    CodesDescribe();
    OneRecordDescribes(Module(), TheEntry(), TheRecord(), Pushes() + Rest());
  }

  // The machine, called and stopped before the return

  predicate HasRoom(stack: Bounds, caller: Cpu) {
    stack.limit + 24 <= caller.Rsp() && caller.Rsp() + 8 <= stack.base
  }

  lemma PushRuns(stack: Bounds, caller: Cpu, before: Memory)
    requires HasRoom(stack, caller)
    ensures var frame, entry := Frame(RBP, 0), Entry(caller, before);
            && LegalRun(frame, stack, entry, Pushes())
            && var q := Run(frame, stack, entry, Pushes());
               && q.cpu == caller.WithRsp(caller.Rsp() - 8) && q.saved == {RBP} && q.savedXmm == {} && !q.framed && !q.hasMoves
               && q.memory == WriteWord(before, caller.Rsp() - 8, caller.integer[RBP])
  {
    hide WriteWord, Word, Run, LegalRun;
    var frame, entry := Frame(RBP, 0), Entry(caller, before);
    StartsUnframed(frame, stack, entry);
    assert Legal(frame, stack, entry, Push(RBP));
    Examples.LegalRunSnoc(frame, stack, entry, [], Step(1, Push(RBP)));
    assert {} + {RBP} == {RBP};
  }

  lemma PrologueRuns(stack: Bounds, caller: Cpu, before: Memory)
    requires HasRoom(stack, caller)
    ensures var f, entry := TheFunction(), Entry(caller, before);
            && LegalRun(f.frame, stack, entry, f.pushes) && LegalRun(f.frame, stack, entry, f.pushes + f.rest)
            && var q, p := Run(f.frame, stack, entry, f.pushes), Run(f.frame, stack, entry, f.pushes + f.rest);
               && q.cpu == caller.WithRsp(caller.Rsp() - 8) && q.saved == {RBP} && q.savedXmm == {} && !FixesBase(q)
               && p.cpu == caller.WithRsp(caller.Rsp() - 24) && p.saved == {RBP} && p.savedXmm == {} && !p.framed
               && p.memory == WriteWord(before, caller.Rsp() - 8, caller.integer[RBP]) == q.memory
  {
    hide WriteWord, Word, Module, TheRecord, Run, LegalRun;
    PushRuns(stack, caller, before);
    Examples.LegalRunSnoc(Frame(RBP, 0), stack, Entry(caller, before), Pushes(), Step(5, Allocate(16)));
    var q := Run(Frame(RBP, 0), stack, Entry(caller, before), Pushes());
    assert q.cpu.integer[RSP := caller.Rsp() - 24] == caller.integer[RSP := caller.Rsp() - 24];
  }

  function TheCall(stack: Bounds, caller: Cpu, before: Memory): Call {
    var memory := WriteWord(before, caller.Rsp() - 8, caller.integer[RBP]);
    Call(stack, caller, before, memory, Word(memory, caller.Rsp()))
  }

  function InBody(caller: Cpu): Cpu
    requires caller.Rsp() >= 24
  {
    caller.WithRsp(caller.Rsp() - 24)
  }

  /** The adjustment and the pop have run: RSP is at the return address, RBP the caller's. */
  function ThePlace(caller: Cpu): Place
    requires caller.Rsp() >= 24
  {
    Declared(InBody(caller), InBody(caller), Some(V1.AddRsp(16)), 1, 1, None)
  }

  lemma PopRan(stack: Bounds, caller: Cpu, before: Memory)
    requires HasRoom(stack, caller)
    ensures V2.PopsOnly([ThePop()], 1) && Offset2([ThePop()], 1, None) == 1
    ensures var c := TheCall(stack, caller, before);
            var adjusted := Adjusted(Some(V1.AddRsp(16)), 0, InBody(caller), stack, c.memory);
            adjusted.Ok? && PartWay2([ThePop()], 1, 1, None, adjusted.value, caller, stack, c.memory)
  {
    hide Word, WriteWord;
    var memory := TheCall(stack, caller, before).memory;
    WordReadsBack(before, caller.Rsp() - 8, caller.integer[RBP]);
    var there := caller.WithRsp(caller.Rsp() - 8);
    assert InBody(caller).WithRsp(caller.Rsp() - 8).integer == there.integer;
    assert there.integer[RBP := caller.integer[RBP]][RSP := caller.Rsp()] == caller.integer;
    assert Adjusted(Some(V1.AddRsp(16)), 0, InBody(caller), stack, memory) == Ok(there);
    assert PopInteger(there, stack, memory, RBP) == Ok(caller);
    assert [ThePop()][1..] == [] && V2.ExecutePops([], 0, caller, stack, memory) == Ok(caller);
    assert V2.ExecutePops([ThePop()], 1, there, stack, memory) == Ok(caller);
    assert V2.PopsLength([ThePop()], 1) == 1 + V2.PopsLength([], 0);
  }

  lemma BodyIsReady(stack: Bounds, caller: Cpu, before: Memory)
    requires HasRoom(stack, caller)
    ensures var e := ThePlace(caller); InEpilogue(TheFunction(), TheCall(stack, caller, before), e.body, e.start, e.adjust)
  {
    hide Run, LegalRun, Word, WriteWord, Module, TheRecord;
    PrologueRuns(stack, caller, before);
  }

  lemma OffsetIsOne()
    ensures Sound(TheRecord()) && DeclaredOffset(TheFunction(), LOAD_BASE + 10) == Some(1)
    ensures TheRecord().version == 2 && TheRecord().frameRegister == 0
  {
    hide Image, Validate;
    RecordIsChecked();
  }

  /** Stopped before its return, after the pop: the descriptor walk skips the pop and finds the caller. */
  lemma DeclaredEpilogueUnwinds(stack: Bounds, caller: Cpu, before: Memory)
    requires HasRoom(stack, caller)
    ensures var c := TheCall(stack, caller, before);
            && WellBuilt(TheFunction()) && Entered(c) && Stopped(TheFunction(), c, ThePlace(caller), LOAD_BASE + 10, caller)
            && var unwound := VirtualUnwind(Module(), EHANDLER, LOAD_BASE + 10, 0, caller, stack, c.memory);
               unwound.Ok? && IsCallerContext(unwound.value.cpu, caller, c.returnAddress)
  {
    hide VirtualUnwind, WellBuilt, InEpilogue, PartWay2, Offset2, V2.PopsOnly, Adjusted, DeclaredOffset, PushesSelected, Word, WriteWord, Image,
         TheRecord, IsCallerContext;
    FunctionIsWellBuilt();
    BodyIsReady(stack, caller, before);
    PopRan(stack, caller, before);
    OffsetIsOne();
    FunctionUnwinds(TheFunction(), TheCall(stack, caller, before), ThePlace(caller), EHANDLER, LOAD_BASE + 10, caller);
  }
}
