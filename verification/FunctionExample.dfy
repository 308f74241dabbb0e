/** One function of one image, byte by byte, and the boundary at which it cannot be unwound. */
module FunctionExample {
  import opened Bytes
  import opened Context
  import opened UnwindCodes
  import opened UnwindImage
  import opened Prologue
  import opened UnwindFrame
  import opened UnwindAgreement
  import opened ChainedFunction
  import opened WholeFunction
  import Encoding = UnwindEncoding
  import Examples = PrologueExamples
  import V1 = UnwindV1
  import V2 = UnwindV2

  const RBP: nat := 5
  const LOAD_BASE: uint64 := 0x40_0000

  /** push rbp; sub rsp, 16; lea rbp, [rsp + 16]; then add rsp, 16; pop rbp; ret. */
  function Machine(): (r: seq<uint8>)
    ensures |r| == 16
  {
    [0x55, 0x48, 0x83, 0xec, 0x10, 0x48, 0x8d, 0x6c, 0x24, 0x10] + ([0x48, 0x83, 0xc4, 0x10, 0x5d] + ([0xc3] + []))
  }

  /** Set RBP up at offset 10, allocate 16 bytes at 5, push RBP at 1. */
  function Slots(): Codes {
    [10, 0x03, 5, 0x12, 1, 0x50]
  }

  function Ops(): seq<Code> {
    [Code(10, SetFrame)] + ([Code(5, AllocSmall(16))] + [Code(1, PushNonvol(RBP))])
  }

  function Image(): (r: seq<uint8>)
    ensures |r| == 40
  {
    Machine() + Encoding.WriteRecord(1, 0, 10, RBP, 1, Slots()) + ([0, 0, 0, 0] + [16, 0, 0, 0] + [16, 0, 0, 0])
  }

  function Module(): LoadedModule {
    LoadedModule(true, true, Image(), 40, LOAD_BASE, 28, 12)
  }

  function TheEntry(): RuntimeFunction {
    RuntimeFunction(0, 16, 16)
  }

  function TheRecord(): Record {
    Record(1, 0, 10, RBP, 1, Slots(), 12, 28, true, NO_EPILOGUES)
  }

  function Pushes(): seq<Step> {
    [] + [Step(1, Push(RBP))]
  }

  function Rest(): seq<Step> {
    [Step(5, Allocate(16)), Step(10, EstablishFrame)]
  }

  function TheFunction(): Function {
    Function(Module(), 0, TheEntry(), TheRecord(), Frame(RBP, 1), [Pushes() + Rest()], Pushes(), [Code(1, PushNonvol(RBP))], Rest())
  }

  lemma CodesValidate()
    ensures Validate(Slots(), 1, 10, RBP, 1) == Some(Validated(NO_EPILOGUES, true))
  {
    var s := Slots();
    assert CheckFrom(s, 1, 10, RBP, 1, 3, 1, true) == Some(true);
    assert CheckFrom(s, 1, 10, RBP, 1, 2, 5, true) == Some(true);
    assert CheckFrom(s, 1, 10, RBP, 1, 1, 10, true) == Some(true);
    assert CheckFrom(s, 1, 10, RBP, 1, 0, 255, false) == Some(true);
  }

  lemma SlotAt(index: nat)
    requires index < 3
    ensures var code := Ops()[index];
            && SlotsAt(Slots(), 1, index) == 1 && OffsetAt(Slots(), index) == code.offset && OpAt(Slots(), 1, index) == code.op
  {
    hide Load16, Load32;
  }

  lemma CodesAre()
    ensures Walks(Slots(), 1, 0) && Decode(Slots(), 1, 0) == Ops()
  {
    hide OpAt, SlotsAt, OffsetAt;
    var s := Slots();
    SlotAt(2);
    SlotAt(1);
    SlotAt(0);
    assert Walks(s, 1, 3) && Decode(s, 1, 3) == [];
    DecodeStep(s, 1, 2);
    assert [Code(1, PushNonvol(RBP))] + [] == [Code(1, PushNonvol(RBP))];
    DecodeStep(s, 1, 1);
    DecodeStep(s, 1, 0);
  }

  lemma RecordIsRead()
    ensures ReadRecord(Module(), 16) == Some(TheRecord())
  {
    hide Validate;
    CodesValidate();
    var record := Encoding.WriteRecord(1, 0, 10, RBP, 1, Slots());
    assert |record| == 12 && Image()[16..28] == record;
    Encoding.RecordReadsBack(Module(), 16, 1, 0, 10, RBP, 1, Slots(), Validated(NO_EPILOGUES, true));
  }

  lemma ChainIsValid()
    ensures ValidateChain(Module(), TheEntry()) == Ok(TheRecord()) && Sound(TheRecord())
  {
    hide Validate, ReadRecord;
    RecordIsRead();
    CodesValidate();
  }

  lemma EntryIsFound()
    ensures EntryFromPointer(Module(), 0) == Some(TheEntry())
  {
    hide Load;
    var table := Image()[28..40];
    assert table == [0, 0, 0, 0] + [16, 0, 0, 0] + [16, 0, 0, 0];
    var entry := table[0..12];
    assert entry == table;
    assert entry[..4] == [0, 0, 0, 0] && entry[4..8] == [16, 0, 0, 0] && entry[8..12] == [16, 0, 0, 0];
    LoadFour(0, 0, 0, 0);
    LoadFour(16, 0, 0, 0);
  }

  lemma OpsAreKnown()
    ensures Sound(TheRecord()) && PrologueOps(TheRecord()) == Ops()
  {
    hide Validate, ReadRecord, ValidateChain, Walks, Decode, Sound, PrologueOps, AllSound, WellOrdered, SetsFrame, Epilogs, Slots, Ops;
    ChainIsValid();
    CodesAre();
    OpsOfRecord(TheRecord());
  }

  lemma ChainIsDescribed()
    ensures ChainDescribes(Module(), TheEntry(), [Pushes() + Rest()]) && AllSteps([Pushes() + Rest()]) == Pushes() + Rest()
  {
    hide Sound, DescribesAll, PrologueOps, Module, Image, TheEntry, Pushes, Rest, ReadChecked, ValidateChain, ChainDescribes, AllSteps;
    ChainIsValid();
    ValidatedFirst(Module(), TheEntry());
    OpsAreKnown();
    CodesDescribe();
    OneRecordDescribes(Module(), TheEntry(), TheRecord(), Pushes() + Rest());
  }

  lemma FunctionIsWellBuilt()
    ensures WellBuilt(TheFunction())
  {
    hide Sound, ValidateChain, EntryFromPointer, DescribesAll, Module, Image, TheEntry, Pushes, Rest, ChainDescribes, AllSteps;
    ChainIsValid();
    EntryIsFound();
    ChainIsDescribed();
    CodesDescribe();
  }

  lemma CodesDescribe()
    ensures DescribesAll([Code(1, PushNonvol(RBP))], Pushes()) && DescribesAll(Ops(), Pushes() + Rest())
  {
    Examples.DescribesSnoc([], [], Code(1, PushNonvol(RBP)), Step(1, Push(RBP)));
    assert [Code(1, PushNonvol(RBP))] + [] == [Code(1, PushNonvol(RBP))];
    Examples.DescribesSnoc([Code(1, PushNonvol(RBP))], Pushes(), Code(5, AllocSmall(16)), Step(5, Allocate(16)));
    Examples.DescribesSnoc([Code(5, AllocSmall(16))] + [Code(1, PushNonvol(RBP))], Pushes() + [Step(5, Allocate(16))],
                           Code(10, SetFrame), Step(10, EstablishFrame));
    assert Pushes() + [Step(5, Allocate(16))] + [Step(10, EstablishFrame)] == Pushes() + Rest();
  }

  // The machine, called and stopped before the return

  /** Any stack with room, and memory as the prologue leaves it. */
  predicate HasRoom(stack: Bounds, caller: Cpu) {
    stack.limit + 24 <= caller.Rsp() && caller.Rsp() + 8 <= stack.base
  }

  lemma PrologueRuns(stack: Bounds, caller: Cpu, before: Memory)
    requires HasRoom(stack, caller)
    ensures var f, entry := TheFunction(), Entry(caller, before);
            && LegalRun(f.frame, stack, entry, f.pushes) && LegalRun(f.frame, stack, entry, f.pushes + f.rest)
            && var q, p := Run(f.frame, stack, entry, f.pushes), Run(f.frame, stack, entry, f.pushes + f.rest);
               && q.cpu == caller.WithRsp(caller.Rsp() - 8) && q.saved == {RBP} && q.savedXmm == {} && !FixesBase(q)
               && p.saved == {RBP} && p.savedXmm == {} && p.framed
               && p.cpu == caller.WithRsp(caller.Rsp() - 24).WithInteger(RBP, caller.Rsp() - 8)
               && p.memory == WriteWord(before, caller.Rsp() - 8, caller.integer[RBP]) == q.memory
  {
    hide Run, LegalRun, WriteWord, Word, Module, TheEntry, FixesBase;
    PushRuns(stack, caller, before);
    FrameRuns(stack, caller, before);
  }

  lemma PushRuns(stack: Bounds, caller: Cpu, before: Memory)
    requires HasRoom(stack, caller)
    ensures var frame, entry := Frame(RBP, 1), Entry(caller, before);
            && LegalRun(frame, stack, entry, Pushes())
            && var q := Run(frame, stack, entry, Pushes());
               && q.cpu == caller.WithRsp(caller.Rsp() - 8) && q.saved == {RBP} && q.savedXmm == {} && !FixesBase(q) && !q.hasMoves
               && q.memory == WriteWord(before, caller.Rsp() - 8, caller.integer[RBP])
  {
    hide WriteWord, Word;
    Examples.LegalRunSnoc(Frame(RBP, 1), stack, Entry(caller, before), [], Step(1, Push(RBP)));
  }

  lemma FrameRuns(stack: Bounds, caller: Cpu, before: Memory)
    requires HasRoom(stack, caller)
    ensures var frame, entry := Frame(RBP, 1), Entry(caller, before);
            && LegalRun(frame, stack, entry, Pushes() + Rest())
            && var p := Run(frame, stack, entry, Pushes() + Rest());
               && p.saved == {RBP} && p.savedXmm == {} && p.framed
               && p.cpu == caller.WithRsp(caller.Rsp() - 24).WithInteger(RBP, caller.Rsp() - 8)
               && p.memory == WriteWord(before, caller.Rsp() - 8, caller.integer[RBP])
  {
    hide WriteWord, Word, Run, LegalRun;
    var frame, entry := Frame(RBP, 1), Entry(caller, before);
    PushRuns(stack, caller, before);
    Examples.LegalRunSnoc(frame, stack, entry, Pushes(), Step(5, Allocate(16)));
    Examples.LegalRunSnoc(frame, stack, entry, Pushes() + [Step(5, Allocate(16))], Step(10, EstablishFrame));
    assert Pushes() + [Step(5, Allocate(16))] + [Step(10, EstablishFrame)] == Pushes() + Rest();
    var p := Run(frame, stack, entry, Pushes() + Rest());
    assert p.cpu.integer == caller.integer[RSP := caller.Rsp() - 24][RBP := caller.Rsp() - 8];
  }

  /** The call: the memory is what the prologue left, the return address what the caller pushed. */
  function TheCall(stack: Bounds, caller: Cpu, before: Memory): Call {
    var memory := WriteWord(before, caller.Rsp() - 8, caller.integer[RBP]);
    Call(stack, caller, before, memory, Word(memory, caller.Rsp()))
  }

  /** The context before the return: RSP at the return address, RBP the caller's. */
  function BeforeReturn(caller: Cpu): Cpu { caller }

  function Chunks(): seq<seq<uint8>> {
    [[0x48, 0x83, 0xc4, 0x10]] + [[0x5d]]
  }

  function ThePlace(caller: Cpu): Place
    requires caller.Rsp() >= 24
  {
    var body := caller.WithRsp(caller.Rsp() - 24).WithInteger(RBP, caller.Rsp() - 8);
    Mirrored(body, body, Some(V1.AddRsp(16)), 10, Chunks(), [0xc3], [], 2)
  }

  lemma ChunksFlatten()
    ensures V1.Flatten(Chunks()) == [0x48, 0x83, 0xc4, 0x10, 0x5d] && |V1.Flatten(Chunks()[..2])| == 5
  {
    assert Chunks()[1..] == [[0x5d]] && [[0x5d]][1..] == [] && Chunks()[..2] == Chunks();
    assert V1.Flatten([[0x5d]]) == [0x5d];
  }

  lemma CodeIsThere()
    ensures CodeAt(Module(), TheEntry(), 10, Chunks(), [0xc3], [])
  {
    hide V1.Flatten;
    ChunksFlatten();
    assert Image()[10..16] == [0x48, 0x83, 0xc4, 0x10, 0x5d] + ([0xc3] + []);
  }

  lemma EpilogueRan(stack: Bounds, caller: Cpu, before: Memory)
    requires HasRoom(stack, caller)
    ensures var c, e := TheCall(stack, caller, before), ThePlace(caller);
            V1.ExecuteAll([V1.AddRsp(16), V1.Pop(RBP)], RBP, e.start, stack, c.memory) == Ok(BeforeReturn(caller))
  {
    hide Word, WriteWord, V1.ExecuteAll;
    var c, e := TheCall(stack, caller, before), ThePlace(caller);
    WordReadsBack(before, caller.Rsp() - 8, caller.integer[RBP]);
    var there := e.start.WithRsp(caller.Rsp() - 8);
    assert there.integer[RBP := caller.integer[RBP]][RSP := caller.Rsp()] == caller.integer;
    assert V1.ExecuteOne(V1.AddRsp(16), RBP, e.start, stack, c.memory) == Ok(there);
    assert V1.ExecuteOne(V1.Pop(RBP), RBP, there, stack, c.memory) == Ok(caller);
    OneThenAnother(V1.AddRsp(16), V1.Pop(RBP), e.start, there, caller, stack, c.memory);
  }

  lemma OneThenAnother(one: V1.EpilogueInstr, two: V1.EpilogueInstr, a: Cpu, b: Cpu, c: Cpu, stack: Bounds, memory: Memory)
    requires V1.ExecuteOne(one, RBP, a, stack, memory) == Ok(b) && V1.ExecuteOne(two, RBP, b, stack, memory) == Ok(c)
    ensures V1.ExecuteAll([one, two], RBP, a, stack, memory) == Ok(c)
  {
    hide V1.ExecuteOne;
    assert [one, two][1..] == [two] && [two][1..] == [];
    assert V1.ExecuteAll([two], RBP, b, stack, memory) == Ok(c);
  }

  lemma EpilogueIsPartWay(stack: Bounds, caller: Cpu, before: Memory)
    requires HasRoom(stack, caller)
    ensures PushCodes([Code(1, PushNonvol(RBP))])
    ensures var c, e := TheCall(stack, caller, before), ThePlace(caller);
            PartWay1(Module(), TheEntry(), RBP, 10, Chunks(), [0xc3], [], Instrs(e.adjust, [Code(1, PushNonvol(RBP))]), 2, e.start,
                     BeforeReturn(caller), stack, c.memory)
  {
    hide V1.ExecuteAll, CodeAt, V1.Flatten, Module, TheCall, TheEntry;
    var e := ThePlace(caller);
    CodeIsThere();
    EpilogueRan(stack, caller, before);
    var instrs := Instrs(e.adjust, [Code(1, PushNonvol(RBP))]);
    assert instrs == [V1.AddRsp(16), V1.Pop(RBP)] && instrs[..2] == instrs;
    assert V1.Encodes(Chunks()[0], V1.AddRsp(16), RBP) && V1.Encodes(Chunks()[1], V1.Pop(RBP), RBP);
  }

  lemma BodyIsReady(stack: Bounds, caller: Cpu, before: Memory)
    requires HasRoom(stack, caller)
    ensures var e := ThePlace(caller); InEpilogue(TheFunction(), TheCall(stack, caller, before), e.body, e.start, e.adjust)
    ensures PushesOnly(TheFunction().pushes)
  {
    hide Run, LegalRun, Word, WriteWord, Module, TheRecord;
    PrologueRuns(stack, caller, before);
    assert TheRecord().frameRegister == RBP by { FrameRegisterIsRbp(); }
  }

  lemma FrameRegisterIsRbp()
    ensures TheRecord().frameRegister == RBP && TheRecord().version == 1 && TheRecord().prologueSize == 10 && TheRecord().frameOffset == 1
  {
  }

  lemma StoppedThere(stack: Bounds, caller: Cpu, before: Memory)
    requires HasRoom(stack, caller)
    ensures WellBuilt(TheFunction()) && Entered(TheCall(stack, caller, before))
    ensures Stopped(TheFunction(), TheCall(stack, caller, before), ThePlace(caller), LOAD_BASE + 15, BeforeReturn(caller))
  {
    hide WellBuilt, InEpilogue, PartWay1, Run, LegalRun, Word, WriteWord, V1.Flatten, TheRecord, Image, Instrs, PushesOnly, PushCodes;
    FunctionIsWellBuilt();
    ChunksFlatten();
    EpilogueIsPartWay(stack, caller, before);
    BodyIsReady(stack, caller, before);
    FrameRegisterIsRbp();
  }

  /**
   * Before its return, with the caller's RBP back in its register, the function cannot
   * be unwound when that RBP is below sixteen, zero for one: the frame base is
   * computed, and refused, before the epilogue is looked at.
   */
  lemma PoppedFrameRegisterFails(stack: Bounds, caller: Cpu, before: Memory)
    requires HasRoom(stack, caller) && caller.integer[RBP] < 16
    ensures WellBuilt(TheFunction()) && Entered(TheCall(stack, caller, before))
    ensures Stopped(TheFunction(), TheCall(stack, caller, before), ThePlace(caller), LOAD_BASE + 15, BeforeReturn(caller))
    ensures VirtualUnwind(Module(), EHANDLER, LOAD_BASE + 15, 0, BeforeReturn(caller), stack, TheCall(stack, caller, before).memory).Fail?
  {
    hide VirtualUnwind, Stopped, Entered, WellBuilt, Module, IsCallerContext;
    StoppedThere(stack, caller, before);
    FunctionUnwinds(TheFunction(), TheCall(stack, caller, before), ThePlace(caller), EHANDLER, LOAD_BASE + 15, BeforeReturn(caller));
  }
}
