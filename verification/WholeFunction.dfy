/**
 * One function, of one unwind record or a chain of them, from its first byte to its
 * last: prologue, body and epilogue of one run of the machine, and the whole of
 * sl_win64_virtual_unwind at each of its instruction boundaries.
 */
module WholeFunction {
  import opened Bytes
  import opened Context
  import opened UnwindCodes
  import opened UnwindApply
  import opened UnwindImage
  import opened Prologue
  import opened UnwindFrame
  import opened UnwindAgreement
  import opened ChainedFunction
  import V1 = UnwindV1
  import V2 = UnwindV2

  // From the body to the pops

  /** What every further instruction of a prologue leaves as it was. */
  ghost predicate Continued(q: Point, p: Point) {
    && q.slots <= p.slots && q.saved <= p.saved && q.savedXmm <= p.savedXmm
    && (forall r: nat :: NonvolatileInteger(r) && r !in p.saved ==> p.cpu.integer[r] == q.cpu.integer[r])
    && (forall x: nat :: NonvolatileXmm(x) && x !in p.savedXmm ==> p.cpu.xmm[x] == q.cpu.xmm[x])
    && (forall i :: 0 <= i < |q.slots| ==> SameBytes(p.memory, q.memory, q.slots[i].address, q.slots[i].Size()))
  }

  lemma WriteOutside(p: Point, stack: Bounds, address: int, bytes: seq<uint8>)
    requires Free(p, stack, address, |bytes|)
    ensures forall i :: 0 <= i < |p.slots| ==>
              SameBytes(Write(p.memory, address, bytes), p.memory, p.slots[i].address, p.slots[i].Size())
  {
    forall i | 0 <= i < |p.slots|
      ensures SameBytes(Write(p.memory, address, bytes), p.memory, p.slots[i].address, p.slots[i].Size())
    {
      assert !p.slots[i].Overlaps(address, |bytes|);
    }
  }

  lemma StepContinues(frame: Frame, stack: Bounds, p: Point, instr: Instr)
    requires frame.Valid() && Legal(frame, stack, p, instr)
    ensures Continued(p, Execute(frame, stack, p, instr))
  {
    hide Free, Slot.Overlaps, Slot.Size;
    match instr
    case Push(number) => WriteOutside(p, stack, p.cpu.Rsp() - 8, Store(p.cpu.integer[number], 8));
    case SaveWord(number, offset) => WriteOutside(p, stack, Base(frame, p) + offset, Store(p.cpu.integer[number], 8));
    case SaveWide(number, offset) =>
      WriteOutside(p, stack, Base(frame, p) + offset, Store(p.cpu.xmm[number].low, 8) + Store(p.cpu.xmm[number].high, 8));
    case _ =>
  }

  lemma ContinuedOn(a: Point, b: Point, c: Point)
    requires Continued(a, b) && Continued(b, c)
    ensures Continued(a, c)
  {
    forall i | 0 <= i < |a.slots|
      ensures SameBytes(c.memory, a.memory, a.slots[i].address, a.slots[i].Size())
    {
      assert a.slots[i] == b.slots[i];
    }
  }

  lemma {:induction false} RestContinues(frame: Frame, stack: Bounds, entry: Point, pushes: seq<Step>, rest: seq<Step>)
    requires frame.Valid() && LegalRun(frame, stack, entry, pushes + rest)
    ensures LegalRun(frame, stack, entry, pushes)
    ensures Continued(Run(frame, stack, entry, pushes), Run(frame, stack, entry, pushes + rest))
    decreases |rest|
  {
    hide Execute, Legal, Continued;
    if rest == [] {
      assert pushes + rest == pushes;
      Unmoved(Run(frame, stack, entry, pushes));
    } else {
      var all := pushes + rest;
      assert Init(all) == pushes + Init(rest) && Last(all) == Last(rest);
      RestContinues(frame, stack, entry, pushes, Init(rest));
      var p := Run(frame, stack, entry, Init(all));
      StepContinues(frame, stack, p, Last(all).instr);
      ContinuedOn(Run(frame, stack, entry, pushes), p, Run(frame, stack, entry, all));
    }
  }

  lemma Unmoved(p: Point)
    ensures Continued(p, p)
  {
  }

  /** At the first epilogue instruction the registers saved by moves, after the pushes, are back. */
  ghost predicate MovesUndone(q: Point, p: Point, body: Cpu, start: Cpu) {
    && start.Rsp() == body.Rsp()
    && (forall r: nat :: NonvolatileInteger(r) && r !in p.saved ==> start.integer[r] == body.integer[r])
    && (forall r: nat :: NonvolatileInteger(r) && r in p.saved && r !in q.saved ==> start.integer[r] == q.cpu.integer[r])
    && (forall x: nat :: NonvolatileXmm(x) && x !in p.savedXmm ==> start.xmm[x] == body.xmm[x])
    && (forall x: nat :: NonvolatileXmm(x) && x in p.savedXmm && x !in q.savedXmm ==> start.xmm[x] == q.cpu.xmm[x])
  }

  /** The adjustment a compiler puts before the pops: by what was allocated since, or from the live frame register. */
  ghost predicate Adjusts(adjust: Option<V1.EpilogueInstr>, frame: Frame, frameRegister: nat, q: Point, p: Point, start: Cpu)
    requires frame.Valid()
  {
    match adjust
    case None => start.Rsp() == q.cpu.Rsp()
    case Some(AddRsp(amount)) => start.Rsp() == p.cpu.Rsp() && amount == q.cpu.Rsp() - p.cpu.Rsp()
    case Some(LeaRsp(displacement)) =>
      && p.framed && frameRegister == frame.number && start.integer[frame.number] == p.cpu.integer[frame.number]
      && displacement == q.cpu.Rsp() - p.cpu.integer[frame.number]
    case Some(Pop(_)) => false
  }

  function Adjusted(adjust: Option<V1.EpilogueInstr>, frameRegister: nat, start: Cpu, stack: Bounds, memory: Memory): Outcome<Cpu>
    requires frameRegister < 16
  {
    if adjust.None? then Ok(start) else V1.ExecuteOne(adjust.value, frameRegister, start, stack, memory)
  }

  lemma AdjustmentAgrees(adjust: Option<V1.EpilogueInstr>, frame: Frame, frameRegister: nat, q: Point, p: Point, body: Cpu,
                         start: Cpu, stack: Bounds, memory: Memory)
    returns (adjusted: Cpu)
    requires frame.Valid() && frameRegister < 16 && Continued(q, p) && MovesUndone(q, p, body, start)
    requires Adjusts(adjust, frame, frameRegister, q, p, start)
    requires forall r: nat :: NonvolatileInteger(r) && r !in p.saved ==> body.integer[r] == p.cpu.integer[r]
    requires forall x: nat :: NonvolatileXmm(x) && x !in p.savedXmm ==> body.xmm[x] == p.cpu.xmm[x]
    ensures Adjusted(adjust, frameRegister, start, stack, memory) == Ok(adjusted) && Agrees(q, adjusted)
  {
    hide SameBytes, PopInteger;
    adjusted := start.WithRsp(q.cpu.Rsp());
    assert adjust.None? ==> adjusted == start by { WithOwnRsp(start); }
  }

  lemma WithOwnRsp(c: Cpu)
    ensures c.WithRsp(c.Rsp()) == c
  {
    assert c.integer[RSP := c.integer[RSP]] == c.integer;
  }

  /**
   * The body of a legal function leaves its epilogue ready: with the moves undone and
   * the adjustment executed, the stack is as the pops of the prologue's pushes need it.
   */
  lemma BodyReachesPops(frame: Frame, stack: Bounds, caller: Cpu, before: Memory, pushes: seq<Step>, rest: seq<Step>,
                        body: Cpu, memory: Memory, start: Cpu, adjust: Option<V1.EpilogueInstr>, frameRegister: nat)
    returns (adjusted: Cpu)
    requires frame.Valid() && frameRegister < 16 && LegalRun(frame, stack, Entry(caller, before), pushes + rest)
    requires Resumes(frame, Run(frame, stack, Entry(caller, before), pushes + rest), body, memory)
    requires LegalRun(frame, stack, Entry(caller, before), pushes)
    requires var q, p := Run(frame, stack, Entry(caller, before), pushes), Run(frame, stack, Entry(caller, before), pushes + rest);
             MovesUndone(q, p, body, start) && Adjusts(adjust, frame, frameRegister, q, p, start)
    ensures Adjusted(adjust, frameRegister, start, stack, memory) == Ok(adjusted)
    ensures ReadyToPop(frame, stack, caller, before, pushes, adjusted, memory)
  {
    hide LegalRun, Run, MovesUndone, Adjusts, Adjusted, Agrees, SameBytes;
    var entry := Entry(caller, before);
    RestContinues(frame, stack, entry, pushes, rest);
    var q, p := Run(frame, stack, entry, pushes), Run(frame, stack, entry, pushes + rest);
    adjusted := AdjustmentAgrees(adjust, frame, frameRegister, q, p, body, start, stack, memory);
    forall i | 0 <= i < |q.slots|
      ensures SameBytes(memory, q.memory, q.slots[i].address, q.slots[i].Size())
    {
      assert q.slots[i] == p.slots[i];
      SameBytesOn(memory, p.memory, q.memory, q.slots[i].address, q.slots[i].Size());
    }
  }

  lemma SameBytesOn(a: Memory, b: Memory, c: Memory, address: int, size: nat)
    requires SameBytes(a, b, address, size) && SameBytes(b, c, address, size)
    ensures SameBytes(a, c, address, size)
  {
  }

  // Version 1: the epilogue's machine code in the image

  /** From rva at to the function's end: the instructions, an exit, and whatever follows. */
  predicate CodeAt(m: LoadedModule, entry: RuntimeFunction, at: nat, chunks: seq<seq<uint8>>, exit: seq<uint8>, tail: seq<uint8>) {
    && m.isPe && |m.bytes| == m.imageSize && entry.begin <= at < entry.end <= |m.bytes|
    && m.bytes[at..entry.end] == V1.Flatten(chunks) + (exit + tail)
  }

  lemma {:induction false} FlattenSplits(chunks: seq<seq<uint8>>, j: nat)
    requires j <= |chunks|
    ensures V1.Flatten(chunks) == V1.Flatten(chunks[..j]) + V1.Flatten(chunks[j..])
  {
    if j == 0 {
      assert chunks[..0] == [] && chunks[0..] == chunks;
    } else {
      FlattenSplits(chunks[1..], j - 1);
      assert chunks[..j][1..] == chunks[1..][..j - 1] && chunks[1..][j - 1..] == chunks[j..];
    }
  }

  lemma CodeFrom(m: LoadedModule, entry: RuntimeFunction, at: nat, chunks: seq<seq<uint8>>, exit: seq<uint8>, tail: seq<uint8>, j: nat)
    requires CodeAt(m, entry, at, chunks, exit, tail) && j <= |chunks| && exit != []
    ensures var cursor := at + |V1.Flatten(chunks[..j])|;
            && cursor < entry.end && at + |V1.Flatten(chunks)| == cursor + |V1.Flatten(chunks[j..])|
            && Window(m, cursor, entry.end - cursor) == Some(V1.Flatten(chunks[j..]) + (exit + tail))
  {
    hide V1.Flatten;
    FlattenSplits(chunks, j);
    var done, left, end := V1.Flatten(chunks[..j]), V1.Flatten(chunks[j..]), exit + tail;
    var code := m.bytes[at..entry.end];
    assert code == done + (left + end);
    assert |code| == entry.end - at && code[|done|..] == left + end;
    SubSlice(m.bytes, at, entry.end, |done|, |left + end|);
    assert code[|done|..|done| + |left + end|] == left + end;
  }

  lemma ExitNotEmpty(exit: seq<uint8>, imageBase: uint64, cursor: nat, entry: RuntimeFunction)
    requires V1.IsExit(exit, imageBase, cursor, entry)
    ensures exit != []
  {
    hide V1.LeavesFunction, V1.IndirectJumpSize;
  }

  /** A version-1 epilogue: an adjustment if there is one, then the pops. */
  function Instrs(adjust: Option<V1.EpilogueInstr>, codes: seq<Code>): seq<V1.EpilogueInstr>
    requires PushCodes(codes)
  {
    (if adjust.Some? then [adjust.value] else []) + PopsOf(codes)
  }

  /** The machine part-way through the epilogue: j of its instructions have run. */
  ghost predicate PartWay1(m: LoadedModule, entry: RuntimeFunction, frameRegister: nat, at: nat, chunks: seq<seq<uint8>>,
                           exit: seq<uint8>, tail: seq<uint8>, instrs: seq<V1.EpilogueInstr>, j: nat, start: Cpu, here: Cpu,
                           stack: Bounds, memory: Memory)
    requires frameRegister < 16
  {
    && CodeAt(m, entry, at, chunks, exit, tail) && V1.EncodesAll(chunks, instrs, frameRegister)
    && V1.IsExit(exit, m.loadBase, at + |V1.Flatten(chunks)|, entry)
    && j <= |instrs| && |instrs| + V1.ExitSteps(exit) <= 32
    && V1.ExecuteAll(instrs[..j], frameRegister, start, stack, memory) == Ok(here)
  }

  /** The simulator, run on the image's own bytes from any boundary of the epilogue, finds the caller. */
  lemma ImageEpilogueFindsCaller(m: LoadedModule, entry: RuntimeFunction, frameRegister: nat, pc: uint64, frame: Frame, stack: Bounds,
                                 caller: Cpu, before: Memory, pushes: seq<Step>, codes: seq<Code>, adjust: Option<V1.EpilogueInstr>,
                                 at: nat, chunks: seq<seq<uint8>>, exit: seq<uint8>, tail: seq<uint8>, j: nat,
                                 start: Cpu, adjusted: Cpu, here: Cpu, memory: Memory, returnAddress: uint64)
    requires frameRegister < 16 && frame.Valid() && PushesOnly(pushes) && DescribesAll(codes, pushes) && PushCodes(codes)
    requires LegalRun(frame, stack, Entry(caller, before), pushes)
    requires ReadyToPop(frame, stack, caller, before, pushes, adjusted, memory)
    requires adjust.Some? ==> !adjust.value.Pop?
    requires Adjusted(adjust, frameRegister, start, stack, memory) == Ok(adjusted)
    requires PartWay1(m, entry, frameRegister, at, chunks, exit, tail, Instrs(adjust, codes), j, start, here, stack, memory)
    requires pc == m.loadBase + at + |V1.Flatten(chunks[..j])|
    requires ReturnAddressAt(caller, stack, memory, returnAddress)
    ensures var found := V1.SimulateFrom(m, entry, frameRegister, pc, here, stack, memory);
            found.Some? && IsCallerContext(found.value, caller, returnAddress)
  {
    hide V1.Simulate, V1.ExecuteOne, V1.ExecuteAll, V1.IsExit, V1.Encodes, V1.Flatten, ReadyToPop, DescribesAll, LegalRun, ReturnAddressAt,
         IsCallerContext, PushesOnly, PushCodes, PopsOf, CodeAt, Window;
    var instrs := Instrs(adjust, codes);
    ExitNotEmpty(exit, m.loadBase, at + |V1.Flatten(chunks)|, entry);
    CodeFrom(m, entry, at, chunks, exit, tail, j);
    CursorInFunction(m, entry, at, chunks, exit, tail, j);
    assert adjust.Some? ==> instrs[1..] == PopsOf(codes);
    assert adjust.None? ==> instrs == PopsOf(codes);
    SimulatorFindsCaller(frame, stack, caller, before, pushes, codes, frameRegister, instrs, chunks, j, exit, tail, start, adjusted, here,
                         m.loadBase, at + |V1.Flatten(chunks[..j])|, entry, memory, returnAddress);
  }

  lemma CursorInFunction(m: LoadedModule, entry: RuntimeFunction, at: nat, chunks: seq<seq<uint8>>, exit: seq<uint8>, tail: seq<uint8>, j: nat)
    requires CodeAt(m, entry, at, chunks, exit, tail) && j <= |chunks| && exit != []
    ensures entry.begin <= at + |V1.Flatten(chunks[..j])| < entry.end
  {
    hide V1.Flatten;
    FlattenSplits(chunks, j);
    assert |m.bytes[at..entry.end]| == |V1.Flatten(chunks)| + |exit| + |tail|;
  }

  // Version 2: a declared epilogue

  lemma DescriptorsFit(r: Record, entry: RuntimeFunction, k: nat)
    requires r.epilogues.codeSlots <= Count(r.codes) && RangesAreValid(r, entry) && r.epilogues.present
    requires 1 <= k < r.epilogues.codeSlots && Distance(r.codes, k) != 0
    ensures Distance(r.codes, k) <= entry.end - entry.begin && entry.end - entry.begin - Distance(r.codes, k) >= r.prologueSize
  {
    hide Distance;
    assert DescriptorFits(r, entry, k);
  }

  /** A declared epilogue lies past the prologue. */
  lemma EpilogueIsLate(r: Record, entry: RuntimeFunction, pc: nat)
    requires Sound(r) && r.epilogues.codeSlots <= Count(r.codes) && RangesAreValid(r, entry) && EpilogueOffset(r, entry, pc).Some?
    ensures entry.begin + r.prologueSize <= pc
  {
    hide Sound, Distance, DescriptorFits, EpilogueOffset;
    EpilogueOffsetMeaning(r, entry, pc);
    var start := pc - EpilogueOffset(r, entry, pc).value;
    if !(r.epilogues.implicitAtEnd && start == entry.end - r.epilogues.size) {
      var k :| 1 <= k < r.epilogues.codeSlots && Distance(r.codes, k) != 0 && start == entry.end - Distance(r.codes, k);
      DescriptorsFit(r, entry, k);
    }
  }

  // The whole of sl_win64_virtual_unwind

  /**
   * A function of an image: its table entry, the first record of its chain, and the
   * prologue the chain describes, in parts, the first record's first. The prologue
   * begins with the pushes, whose operations are codes.
   */
  datatype Function = Function(m: LoadedModule, index: nat, entry: RuntimeFunction, record: Record, frame: Frame,
                               parts: seq<seq<Step>>, pushes: seq<Step>, codes: seq<Code>, rest: seq<Step>)

  /** One call of it. */
  datatype Call = Call(stack: Bounds, caller: Cpu, before: Memory, memory: Memory, returnAddress: uint64)

  ghost predicate WellBuilt(f: Function) {
    && EntryFromPointer(f.m, f.index) == Some(f.entry)
    && ValidateChain(f.m, f.entry) == Ok(f.record) && Sound(f.record)
    && f.frame.Valid() && FrameMatches(f.record, f.frame)
    && ChainDescribes(f.m, f.entry, f.parts) && AllSteps(f.parts) == f.pushes + f.rest
    && DescribesAll(f.codes, f.pushes)
  }

  /** Where the function is stopped. The body's state goes with an epilogue: it is where the epilogue began. */
  datatype Place =
    | Before(done: nat)                               // the first instructions of the last part have run, or all and the body goes on
    | Mirrored(body: Cpu, start: Cpu, adjust: Option<V1.EpilogueInstr>, at: nat, chunks: seq<seq<uint8>>,
               exit: seq<uint8>, tail: seq<uint8>, j: nat)
    | Declared(body: Cpu, start: Cpu, adjust: Option<V1.EpilogueInstr>, n: nat, k: nat, volatile: Option<nat>)

  /** The older parts, and the first instructions of the last one. */
  function Ran(parts: seq<seq<Step>>, done: nat): seq<Step>
    requires parts != [] && done <= |parts[0]|
  {
    AllSteps(parts[1..]) + parts[0][..done]
  }

  function DeclaredOffset(f: Function, pc: uint64): Option<nat>
    requires Sound(f.record) && f.m.loadBase <= pc
  {
    OpsOfRecord(f.record);
    EpilogueOffset(f.record, f.entry, pc - f.m.loadBase)
  }

  /** The record that a declared epilogue undoes holds the pushes, and no record above it holds one. */
  ghost predicate PushesSelected(f: Function) {
    var s := V2.SelectRecord(f.m, f.entry, 0);
    && s.Ok? && f.codes == V2.FromFirstPush(PrologueOps(s.value.record))
    && V2.CheckParents(f.m, s.value.record, s.value.depth).Ok?
  }

  /** The whole prologue has run, the body went on, and the epilogue's adjustment is what the pushes need. */
  ghost predicate InEpilogue(f: Function, c: Call, body: Cpu, start: Cpu, adjust: Option<V1.EpilogueInstr>)
    requires f.frame.Valid()
  {
    var entry := Entry(c.caller, c.before);
    && LegalRun(f.frame, c.stack, entry, f.pushes + f.rest) && LegalRun(f.frame, c.stack, entry, f.pushes)
    && var q, p := Run(f.frame, c.stack, entry, f.pushes), Run(f.frame, c.stack, entry, f.pushes + f.rest);
       && Resumes(f.frame, p, body, c.memory) && !FixesBase(q)
       && MovesUndone(q, p, body, start) && Adjusts(adjust, f.frame, f.record.frameRegister, q, p, start)
  }

  /** In the prologue or the body; a version-2 record declares no epilogue there. */
  ghost predicate StoppedBefore(f: Function, c: Call, done: nat, pc: uint64, here: Cpu)
    requires WellBuilt(f) && f.m.loadBase <= pc && f.entry.begin <= pc - f.m.loadBase
  {
    var offset, entry := pc - f.m.loadBase - f.entry.begin, Entry(c.caller, c.before);
    && Boundary(f.parts[0], done, offset < f.record.prologueSize, offset)
    && LegalRun(f.frame, c.stack, entry, Ran(f.parts, done))
    && Resumes(f.frame, Run(f.frame, c.stack, entry, Ran(f.parts, done)), here, c.memory)
    && (f.record.version == 2 ==> DeclaredOffset(f, pc).None?)
  }

  ghost predicate StoppedMirrored(f: Function, c: Call, e: Place, pc: uint64, here: Cpu)
    requires WellBuilt(f) && e.Mirrored? && f.m.loadBase <= pc
  {
    && f.record.version == 1 && PushesOnly(f.pushes) && PushCodes(f.codes) && InEpilogue(f, c, e.body, e.start, e.adjust)
    && PartWay1(f.m, f.entry, f.record.frameRegister, e.at, e.chunks, e.exit, e.tail, Instrs(e.adjust, f.codes), e.j,
                e.start, here, c.stack, c.memory)
    && e.j <= |e.chunks| && pc == f.m.loadBase + e.at + |V1.Flatten(e.chunks[..e.j])|
    && pc - f.m.loadBase - f.entry.begin >= f.record.prologueSize
  }

  ghost predicate StoppedDeclared(f: Function, c: Call, e: Place, pc: uint64, here: Cpu)
    requires WellBuilt(f) && e.Declared? && f.m.loadBase <= pc
  {
    && f.record.version == 2 && PushesSelected(f) && V2.PopsOnly(f.codes, e.n) && e.k <= e.n
    && InEpilogue(f, c, e.body, e.start, e.adjust)
    && DeclaredOffset(f, pc) == Some(Offset2(f.codes, e.k, e.volatile))
    && var adjusted := Adjusted(e.adjust, f.record.frameRegister, e.start, c.stack, c.memory);
       adjusted.Ok? && PartWay2(f.codes, e.n, e.k, e.volatile, adjusted.value, here, c.stack, c.memory)
  }

  predicate InFunction(f: Function, pc: uint64) {
    f.m.loadBase <= pc && f.entry.begin <= pc - f.m.loadBase < f.entry.end
  }

  /** The function, called so, is stopped at this instruction boundary with this context. */
  ghost predicate Stopped(f: Function, c: Call, place: Place, pc: uint64, here: Cpu)
    requires WellBuilt(f)
  {
    && InFunction(f, pc)
    && match place
       case Before(done) => StoppedBefore(f, c, done, pc, here)
       case Mirrored(_, _, _, _, _, _, _, _) => StoppedMirrored(f, c, place, pc, here)
       case Declared(_, _, _, _, _, _) => StoppedDeclared(f, c, place, pc, here)
  }

  ghost predicate Entered(c: Call) {
    c.stack.limit < c.stack.base && ReturnAddressAt(c.caller, c.stack, c.memory, c.returnAddress)
  }

  function FrameRegister(f: Function): (n: nat)
    requires Sound(f.record)
    ensures n == f.record.frameRegister < 16
  {
    f.record.frameRegister
  }

  // In the prologue and the body: what the machine code at the address looks like

  /** A reading, as a version-1 epilogue, of the machine code from the address to the function's end. */
  ghost predicate ReadsAt(f: Function, pc: uint64, r: V1.Reading)
    requires Sound(f.record) && InFunction(f, pc)
  {
    var cursor: nat := pc - f.m.loadBase;
    match Window(f.m, cursor, f.entry.end - cursor)
    case None => false
    case Some(code) =>
      V1.Reads(r, code, 32, true, FrameRegister(f), f.m.loadBase, cursor, f.entry)
  }

  /** The bytes at the address can be read as an epilogue: [add or lea] pops* exit. */
  ghost predicate EpilogueShaped(f: Function, pc: uint64)
    requires Sound(f.record) && InFunction(f, pc)
  {
    f.record.version == 1 && exists r: V1.Reading :: ReadsAt(f, pc, r)
  }

  /** The machine is about to return to the caller, and to remove that many bytes of arguments. */
  ghost predicate AtReturn(c: Call, there: Cpu, args: nat) {
    && there.Rsp() + args == c.caller.Rsp() && Word(c.memory, there.Rsp()) == c.returnAddress
    && SameNonvolatile(there.WithRsp(c.caller.Rsp()), c.caller)
  }

  /** Executed from here as far as its exit, the reading leads to the return, or its pops or its return leave the stack. */
  ghost predicate LeadsToReturn(f: Function, c: Call, r: V1.Reading, here: Cpu)
    requires Sound(f.record)
  {
    var there := V1.ExecuteAll(r.instrs, FrameRegister(f), here, c.stack, c.memory);
    there.Ok? && V1.Leave(there.value, r.args, c.stack, c.memory).Ok? ==> AtReturn(c, there.value, r.args)
  }

  /** Nothing at the address can be mistaken for an epilogue: whatever can be read as one ends at the return. */
  ghost predicate NotMistaken(f: Function, c: Call, pc: uint64, here: Cpu)
    requires Sound(f.record) && InFunction(f, pc)
  {
    f.record.version == 1 ==> forall r: V1.Reading :: ReadsAt(f, pc, r) ==> LeadsToReturn(f, c, r, here)
  }

  lemma LeavesIffAtReturn(c: Call, there: Cpu, args: nat)
    requires Entered(c) && V1.Leave(there, args, c.stack, c.memory).Ok?
    ensures IsCallerContext(V1.Leave(there, args, c.stack, c.memory).value, c.caller, c.returnAddress) <==> AtReturn(c, there, args)
  {
    hide Word;
    var left := V1.Leave(there, args, c.stack, c.memory).value;
    assert left.rip == Word(c.memory, there.Rsp()) && left.Rsp() == there.Rsp() + 8 + args && left.xmm == there.xmm;
    assert forall r: nat :: NonvolatileInteger(r) ==> left.integer[r] == there.integer[r] == there.WithRsp(c.caller.Rsp()).integer[r];
  }

  /** What the simulator answers at an address of the body is the caller's context exactly when nothing there is mistaken. */
  lemma MistakenIffNotCaller(f: Function, c: Call, pc: uint64, here: Cpu)
    requires Entered(c) && Sound(f.record) && InFunction(f, pc) && f.record.version == 1 && f.entry.end <= |f.m.bytes|
    ensures var found := V1.SimulateFrom(f.m, f.entry, FrameRegister(f), pc, here, c.stack, c.memory);
            NotMistaken(f, c, pc, here) <==> found.None? || IsCallerContext(found.value, c.caller, c.returnAddress)
  {
    hide Sound, V1.Reads, V1.Simulate, V1.ExecuteAll, V1.Leave, IsCallerContext, AtReturn, Entered;
    var found := V1.SimulateFrom(f.m, f.entry, FrameRegister(f), pc, here, c.stack, c.memory);
    var cursor: nat := pc - f.m.loadBase;
    var window := Window(f.m, cursor, f.entry.end - cursor);
    if window.Some? {
      forall r: V1.Reading | ReadsAt(f, pc, r)
        ensures LeadsToReturn(f, c, r, here) <==> found.None? || IsCallerContext(found.value, c.caller, c.returnAddress)
      {
        ReadingAnswers(f, c, pc, here, window.value, r);
      }
      if found.Some? {
        var r := V1.AnswerIsRead(window.value, V1.MAX_EPILOGUE_INSTRUCTIONS, true, FrameRegister(f), here, f.m.loadBase, cursor, f.entry,
                                 c.stack, c.memory);
        assert ReadsAt(f, pc, r);
      }
    }
  }

  /** One reading decides: the simulator answers with what it does. */
  lemma ReadingAnswers(f: Function, c: Call, pc: uint64, here: Cpu, code: seq<uint8>, r: V1.Reading)
    requires Entered(c) && Sound(f.record) && InFunction(f, pc) && pc - f.m.loadBase < TWO_32
    requires Window(f.m, pc - f.m.loadBase, f.entry.end - (pc - f.m.loadBase)) == Some(code) && ReadsAt(f, pc, r)
    ensures var found := V1.SimulateFrom(f.m, f.entry, FrameRegister(f), pc, here, c.stack, c.memory);
            && found == V1.LeaveFrom(V1.ExecuteAll(r.instrs, FrameRegister(f), here, c.stack, c.memory), r.args, c.stack, c.memory)
            && (LeadsToReturn(f, c, r, here) <==> found.None? || IsCallerContext(found.value, c.caller, c.returnAddress))
  {
    hide Sound, V1.EncodesAll, V1.IsEpilogue, V1.IsExitPopping, V1.Flatten, V1.Simulate, V1.ExecuteAll, V1.Leave, IsCallerContext, AtReturn,
         Entered;
    var there := V1.ExecuteAll(r.instrs, FrameRegister(f), here, c.stack, c.memory);
    V1.EpilogueSimulated(r.chunks, r.instrs, r.exit, r.args, r.tail, FrameRegister(f), here, f.m.loadBase, pc - f.m.loadBase, f.entry,
                         c.stack, c.memory);
    if there.Ok? && V1.Leave(there.value, r.args, c.stack, c.memory).Ok? {
      LeavesIffAtReturn(c, there.value, r.args);
    }
  }

  lemma EntryIsMapped(f: Function)
    requires WellBuilt(f)
    ensures f.entry.end <= |f.m.bytes|
  {
    hide ValidateChain, Sound, DescribesAll, ChainDescribes, AllSteps, ReadRuntimeFunction;
  }

  /** Before an epilogue: the caller's context exactly when nothing is mistaken. */
  lemma BeforeUnwinds(f: Function, c: Call, done: nat, handlerType: nat, pc: uint64, here: Cpu)
    requires WellBuilt(f) && Entered(c) && handlerType <= UHANDLER && Stopped(f, c, Before(done), pc, here)
    ensures var unwound := VirtualUnwind(f.m, handlerType, pc, f.index, here, c.stack, c.memory);
            unwound.Ok? && (IsCallerContext(unwound.value.cpu, c.caller, c.returnAddress) <==> NotMistaken(f, c, pc, here))
  {
    hide VirtualUnwind, IsCallerContext, EntryFromPointer, ValidateChain, Validate, DescribesAll, PrologueOps, ChainDescribes, Run, LegalRun,
         Resumes, AllSteps, ReturnAddressAt, V1.SimulateFrom, NotMistaken, V2.UnwindEpilogue, EpilogueOffset;
    EntryIsMapped(f);
    ChainedFunctionUnwinds(f.m, handlerType, pc, f.index, f.entry, f.record, f.frame, c.stack, c.caller, c.before, f.parts, done, here,
                           c.memory, c.returnAddress);
    if f.record.version == 1 {
      MistakenIffNotCaller(f, c, pc, here);
    } else {
      VersionTwoNotMistaken(f, c, pc, here);
    }
  }

  lemma VersionTwoNotMistaken(f: Function, c: Call, pc: uint64, here: Cpu)
    requires Sound(f.record) && InFunction(f, pc) && f.record.version == 2
    ensures NotMistaken(f, c, pc, here)
  {
    hide Validate;
  }

  /** In a mirrored epilogue the simulator, in a declared one the descriptor walk, finds the caller. */
  lemma MirroredFindsCaller(f: Function, c: Call, e: Place, pc: uint64, here: Cpu)
    requires WellBuilt(f) && Entered(c) && e.Mirrored? && Stopped(f, c, e, pc, here)
    ensures var found := TryEpilogue(f.m, f.entry, f.record, pc, here, c.stack, c.memory);
            found.Ok? && found.value.Some? && IsCallerContext(found.value.value, c.caller, c.returnAddress)
  {
    hide Sound, DescribesAll, Resumes, MovesUndone, Adjusts, Adjusted, LegalRun, Run, IsCallerContext, ReturnAddressAt, PartWay1,
         V1.SimulateFrom, V1.Flatten, EntryFromPointer, ValidateChain, PushesOnly, PushCodes, ReadyToPop, ChainDescribes, AllSteps;
    var adjusted := BodyReachesPops(f.frame, c.stack, c.caller, c.before, f.pushes, f.rest, e.body, c.memory, e.start, e.adjust,
                                    FrameRegister(f));
    NoPopFirst(e.adjust, f, c, e.start);
    ImageEpilogueFindsCaller(f.m, f.entry, FrameRegister(f), pc, f.frame, c.stack, c.caller, c.before, f.pushes, f.codes, e.adjust,
                             e.at, e.chunks, e.exit, e.tail, e.j, e.start, adjusted, here, c.memory, c.returnAddress);
  }

  lemma NoPopFirst(adjust: Option<V1.EpilogueInstr>, f: Function, c: Call, start: Cpu)
    requires f.frame.Valid() && LegalRun(f.frame, c.stack, Entry(c.caller, c.before), f.pushes + f.rest)
    requires LegalRun(f.frame, c.stack, Entry(c.caller, c.before), f.pushes)
    requires Adjusts(adjust, f.frame, f.record.frameRegister, Run(f.frame, c.stack, Entry(c.caller, c.before), f.pushes),
                     Run(f.frame, c.stack, Entry(c.caller, c.before), f.pushes + f.rest), start)
    ensures adjust.Some? ==> !adjust.value.Pop?
  {
    hide Run, LegalRun;
  }

  lemma DeclaredTries(f: Function, pc: uint64, target: nat, here: Cpu, stack: Bounds, memory: Memory)
    requires WellBuilt(f) && f.m.loadBase <= pc && f.record.version == 2 && PushesSelected(f) && DeclaredOffset(f, pc) == Some(target)
    ensures var replayed := V2.ReplayEpilogue(f.codes, target, here, stack, memory);
            replayed.Ok? ==> TryEpilogue(f.m, f.entry, f.record, pc, here, stack, memory) == Ok(Some(replayed.value))
    ensures InFunction(f, pc) ==> f.record.prologueSize <= pc - f.m.loadBase - f.entry.begin
  {
    hide Validate, DescribesAll, EntryFromPointer, PrologueOps, V2.FromFirstPush, V2.ReplayEpilogue, V2.SelectRecord, V2.CheckParents,
         ReadChecked, EpilogueOffset, RangesAreValid, ChainDescribes, AllSteps;
    ValidatedFirst(f.m, f.entry);
    OpsOfRecord(f.record);
    EpilogueIsLate(f.record, f.entry, pc - f.m.loadBase);
  }

  lemma DeclaredFindsCaller(f: Function, c: Call, e: Place, pc: uint64, here: Cpu)
    requires WellBuilt(f) && Entered(c) && e.Declared? && Stopped(f, c, e, pc, here)
    ensures var found := TryEpilogue(f.m, f.entry, f.record, pc, here, c.stack, c.memory);
            found.Ok? && found.value.Some? && IsCallerContext(found.value.value, c.caller, c.returnAddress)
    ensures f.record.prologueSize <= pc - f.m.loadBase - f.entry.begin
  {
    hide Sound, DescribesAll, Resumes, MovesUndone, Adjusts, Adjusted, LegalRun, Run, IsCallerContext, ReturnAddressAt, PartWay2,
         EntryFromPointer, ValidateChain, ReadyToPop, V2.ReplayEpilogue, PushesSelected, DeclaredOffset, TryEpilogue, ChainDescribes, AllSteps;
    var adjusted := BodyReachesPops(f.frame, c.stack, c.caller, c.before, f.pushes, f.rest, e.body, c.memory, e.start, e.adjust,
                                    FrameRegister(f));
    DeclaredTries(f, pc, Offset2(f.codes, e.k, e.volatile), here, c.stack, c.memory);
    DescriptorWalkFindsCaller(f.frame, c.stack, c.caller, c.before, f.pushes, f.codes, e.n, e.k, e.volatile, adjusted, here,
                              c.memory, c.returnAddress);
  }

  /** The frame register, where there is one, is not below its scaled offset. */
  predicate FrameIsSane(r: Record, cpu: Cpu)
    requires r.frameRegister < 16
  {
    r.frameRegister == 0 || 16 * r.frameOffset <= cpu.integer[r.frameRegister]
  }

  lemma BaseIffSane(m: LoadedModule, entry: RuntimeFunction, r: Record, offset: nat, cpu: Cpu)
    requires ValidateChain(m, entry) == Ok(r) && Sound(r)
    ensures BaseOf(r, false, offset, cpu).Ok? <==> FrameIsSane(r, cpu)
  {
    hide Validate, HandlerRva, NextEntry, RangesAreValid, Ops, PrologueOps;
    ValidatedFirst(m, entry);
    V2.ReadCheckedIsSound(m, entry);
    OpsOfRecord(r);
    SetUpSomewhere(r);
  }

  /** A record that sets its frame up has it established past the prologue. */
  lemma SetUpSomewhere(r: Record)
    requires Sound(r)
    ensures r.hasFrameSetup ==> Established(Ops(r), false, 0) && forall offset: nat :: Established(Ops(r), false, offset)
  {
    hide Validate, Decode, Walks;
    OpsOfRecord(r);
    if r.hasFrameSetup {
      EstablishedSkipsEpilogs(Epilogs(r.codes, r.epilogues.codeSlots / 2), PrologueOps(r), false, 0);
      assert FrameSetupOffset(PrologueOps(r)).Some?;
    }
  }

  /** Where an epilogue is recognised the answer is its context, unless the frame base is refused first. */
  lemma EpilogueAnswers(f: Function, c: Call, handlerType: nat, pc: uint64, here: Cpu, found: Cpu)
    requires WellBuilt(f) && c.stack.limit < c.stack.base && handlerType <= UHANDLER && InFunction(f, pc)
    requires f.record.prologueSize <= pc - f.m.loadBase - f.entry.begin
    requires TryEpilogue(f.m, f.entry, f.record, pc, here, c.stack, c.memory) == Ok(Some(found))
    ensures var unwound := VirtualUnwind(f.m, handlerType, pc, f.index, here, c.stack, c.memory);
            && (unwound.Ok? <==> FrameIsSane(f.record, here))
            && (unwound.Ok? ==> unwound.value.cpu == found)
  {
    hide Sound, EntryFromPointer, ValidateFrom, TryEpilogue, BaseOf, UnwindChain, DescribesAll, FrameIsSane, ChainDescribes, AllSteps;
    BaseIffSane(f.m, f.entry, f.record, pc - f.m.loadBase - f.entry.begin, here);
  }

  /**
   * A function of the image, of one record or a chain, from prologue to epilogue, of
   * either version, at every instruction boundary of one run. In an epilogue
   * sl_win64_virtual_unwind answers if and only if the frame register is not below its
   * scaled offset, and then with the caller's context. Before it, in the prologue and
   * the body, it always answers, and with the caller's context if and only if nothing
   * at the address is mistaken for an epilogue.
   */
  lemma FunctionUnwinds(f: Function, c: Call, place: Place, handlerType: nat, pc: uint64, here: Cpu)
    requires WellBuilt(f) && Entered(c) && handlerType <= UHANDLER && Stopped(f, c, place, pc, here)
    ensures var unwound := VirtualUnwind(f.m, handlerType, pc, f.index, here, c.stack, c.memory);
            && (unwound.Ok? <==> place.Before? || FrameIsSane(f.record, here))
            && (unwound.Ok? ==>
                  (IsCallerContext(unwound.value.cpu, c.caller, c.returnAddress) <==> !place.Before? || NotMistaken(f, c, pc, here)))
  {
    hide VirtualUnwind, TryEpilogue, FrameIsSane, IsCallerContext, Sound, EntryFromPointer, ValidateChain, DescribesAll, ChainDescribes,
         AllSteps, StoppedBefore, StoppedMirrored, StoppedDeclared, NotMistaken;
    match place {
      case Before(done) =>
        BeforeUnwinds(f, c, done, handlerType, pc, here);
      case Mirrored(_, _, _, _, _, _, _, _) =>
        MirroredFindsCaller(f, c, place, pc, here);
        MirroredIsLate(f, c, place, pc, here);
        EpilogueAnswers(f, c, handlerType, pc, here, TryEpilogue(f.m, f.entry, f.record, pc, here, c.stack, c.memory).value.value);
      case Declared(_, _, _, _, _, _) =>
        DeclaredFindsCaller(f, c, place, pc, here);
        EpilogueAnswers(f, c, handlerType, pc, here, TryEpilogue(f.m, f.entry, f.record, pc, here, c.stack, c.memory).value.value);
    }
  }

  lemma MirroredIsLate(f: Function, c: Call, e: Place, pc: uint64, here: Cpu)
    requires WellBuilt(f) && e.Mirrored? && f.m.loadBase <= pc && StoppedMirrored(f, c, e, pc, here)
    ensures f.record.prologueSize <= pc - f.m.loadBase - f.entry.begin
  {
  }

  /**
   * A jump or a return reached with the stack still as the body uses it: the unwinder
   * returns through it at once, so the caller is found if and only if the state is
   * already the caller's, RSP at the return address included.
   */
  lemma ExitInBody(f: Function, c: Call, done: nat, handlerType: nat, pc: uint64, here: Cpu, r: V1.Reading)
    requires WellBuilt(f) && Entered(c) && handlerType <= UHANDLER && Stopped(f, c, Before(done), pc, here) && f.record.version == 1
    requires ReadsAt(f, pc, r) && r.instrs == [] && r.args == 0 && c.stack.Fits(here.Rsp(), 8)
    ensures var unwound := VirtualUnwind(f.m, handlerType, pc, f.index, here, c.stack, c.memory);
            && unwound.Ok? && Ok(unwound.value.cpu) == PopReturn(here, c.stack, c.memory)
            && (IsCallerContext(unwound.value.cpu, c.caller, c.returnAddress) <==> SameNonvolatile(here, c.caller))
  {
    hide VirtualUnwind, IsCallerContext, Validate, EntryFromPointer, ValidateChain, DescribesAll, ChainDescribes, AllSteps, Run, LegalRun,
         Resumes, ReturnAddressAt, V1.Reads, V1.SimulateFrom, Word;
    EntryIsMapped(f);
    ChainedFunctionUnwinds(f.m, handlerType, pc, f.index, f.entry, f.record, f.frame, c.stack, c.caller, c.before, f.parts, done, here,
                           c.memory, c.returnAddress);
    ReadingAnswers(f, c, pc, here, Window(f.m, pc - f.m.loadBase, f.entry.end - (pc - f.m.loadBase)).value, r);
    ExitLeads(f, c, r, here);
  }

  lemma ExitLeads(f: Function, c: Call, r: V1.Reading, here: Cpu)
    requires Entered(c) && Sound(f.record) && r.instrs == [] && r.args == 0 && c.stack.Fits(here.Rsp(), 8)
    ensures LeadsToReturn(f, c, r, here) <==> SameNonvolatile(here, c.caller)
    ensures PopReturn(here, c.stack, c.memory).Ok?
    ensures V1.LeaveFrom(V1.ExecuteAll(r.instrs, FrameRegister(f), here, c.stack, c.memory), r.args, c.stack, c.memory)
         == Some(PopReturn(here, c.stack, c.memory).value)
  {
    hide Sound, Word;
    WithOwnRsp(here);
  }

  /** Where the bytes have not the shape of an epilogue the caller is found, at every boundary of prologue and body. */
  lemma PlainCodeUnwinds(f: Function, c: Call, done: nat, handlerType: nat, pc: uint64, here: Cpu)
    requires WellBuilt(f) && Entered(c) && handlerType <= UHANDLER && Stopped(f, c, Before(done), pc, here) && !EpilogueShaped(f, pc)
    ensures var unwound := VirtualUnwind(f.m, handlerType, pc, f.index, here, c.stack, c.memory);
            unwound.Ok? && IsCallerContext(unwound.value.cpu, c.caller, c.returnAddress)
  {
    hide VirtualUnwind, IsCallerContext, Sound, EntryFromPointer, ValidateChain, DescribesAll, ChainDescribes, AllSteps, StoppedBefore,
         ReadsAt, LeadsToReturn;
    BeforeUnwinds(f, c, done, handlerType, pc, here);
  }

  /** The first bytes suffice: code that begins with none of an epilogue's instructions has not its shape. */
  lemma ShapeBegins(f: Function, pc: uint64)
    requires Sound(f.record) && InFunction(f, pc) && EpilogueShaped(f, pc)
    ensures f.entry.end <= |f.m.bytes| && V1.BeginsEpilogue(f.m.bytes[pc - f.m.loadBase..f.entry.end])
  {
    hide Sound, V1.Reads, V1.BeginsEpilogue;
    var cursor: nat := pc - f.m.loadBase;
    var r: V1.Reading :| ReadsAt(f, pc, r);
    V1.ReadingBegins(r, f.m.bytes[cursor..f.entry.end], V1.MAX_EPILOGUE_INSTRUCTIONS, true, FrameRegister(f), f.m.loadBase, cursor, f.entry);
  }

  // The frame register through an epilogue

  /** The epilogue begins with the frame register as the prologue set it up. */
  ghost predicate FrameKept(f: Function, c: Call, start: Cpu)
    requires f.frame.Valid() && LegalRun(f.frame, c.stack, Entry(c.caller, c.before), f.pushes + f.rest)
  {
    FrameLives(f.frame, Run(f.frame, c.stack, Entry(c.caller, c.before), f.pushes + f.rest), start)
  }

  /** How many pops of an epilogue have run. */
  function PopsRun(place: Place): nat {
    match place
    case Before(_) => 0
    case Mirrored(_, _, adjust, _, _, _, _, j) => if adjust.Some? && j > 0 then j - 1 else j
    case Declared(_, _, _, _, k, _) => k
  }

  predicate NotYetPopped(f: Function, place: Place) {
    forall i :: 0 <= i < PopsRun(place) && i < |f.codes| ==> f.codes[i].op != PushNonvol(f.record.frameRegister)
  }

  lemma {:induction false} PopsKeep(codes: seq<Code>, k: nat, number: nat, cpu: Cpu, stack: Bounds, memory: Memory)
    requires V2.LeadingPushes(codes, k) && NonvolatileInteger(number)
    requires forall i :: 0 <= i < k ==> codes[i].op != PushNonvol(number)
    ensures var after := V2.ExecutePops(codes, k, cpu, stack, memory);
            after.Ok? ==> after.value.integer[number] == cpu.integer[number]
  {
    hide Word;
    if k > 0 {
      var next := PopInteger(cpu, stack, memory, codes[0].op.number);
      if next.Ok? {
        PopsKeep(codes[1..], k - 1, number, next.value, stack, memory);
      }
    }
  }

  lemma {:induction false} ExecutionKeeps(instrs: seq<V1.EpilogueInstr>, number: nat, frameRegister: nat, cpu: Cpu, stack: Bounds, memory: Memory)
    requires frameRegister < 16 && NonvolatileInteger(number)
    requires forall i :: 0 <= i < |instrs| ==> instrs[i] != V1.Pop(number)
    ensures var after := V1.ExecuteAll(instrs, frameRegister, cpu, stack, memory);
            after.Ok? ==> after.value.integer[number] == cpu.integer[number]
  {
    hide Word;
    if instrs != [] {
      var next := V1.ExecuteOne(instrs[0], frameRegister, cpu, stack, memory);
      if next.Ok? {
        ExecutionKeeps(instrs[1..], number, frameRegister, next.value, stack, memory);
      }
    }
  }

  /** A live frame register is at least its scaled offset. */
  lemma StartIsSane(f: Function, c: Call, start: Cpu)
    requires WellBuilt(f) && LegalRun(f.frame, c.stack, Entry(c.caller, c.before), f.pushes + f.rest) && FrameKept(f, c, start)
    ensures FrameIsSane(f.record, start)
  {
    hide EntryFromPointer, DescribesAll, ChainDescribes, AllSteps, Run, LegalRun, Validate, ReadRecord;
    ValidatedFirst(f.m, f.entry);
    if f.record.frameRegister != 0 {
      ChainFramed(f.m, f.entry, 0, 0, 0, f.frame, c.stack, c.caller, c.before, f.parts);
      RunKeepsFrame(f.frame, c.stack, Entry(c.caller, c.before), f.pushes + f.rest);
    }
  }

  lemma MirroredKeepsFrame(f: Function, c: Call, e: Place, pc: uint64, here: Cpu)
    requires WellBuilt(f) && e.Mirrored? && f.m.loadBase <= pc && StoppedMirrored(f, c, e, pc, here) && NotYetPopped(f, e)
    requires f.record.frameRegister != 0
    ensures here.integer[f.record.frameRegister] == e.start.integer[f.record.frameRegister]
  {
    hide EntryFromPointer, ValidateChain, Sound, DescribesAll, ChainDescribes, AllSteps, InEpilogue, V1.ExecuteAll, V1.EncodesAll, CodeAt,
         V1.IsExit, V1.Flatten, PushesOnly;
    var number, instrs := f.record.frameRegister, Instrs(e.adjust, f.codes);
    assert f.frame.number == number;
    forall i | 0 <= i < e.j
      ensures instrs[..e.j][i] != V1.Pop(number)
    {
      if e.adjust.Some? && i == 0 {
        AdjustIsNoPop(f, c, e);
      } else {
        var k := if e.adjust.Some? then i - 1 else i;
        assert instrs[i] == V1.Pop(f.codes[k].op.number);
      }
    }
    ExecutionKeeps(instrs[..e.j], number, number, e.start, c.stack, c.memory);
  }

  lemma AdjustIsNoPop(f: Function, c: Call, e: Place)
    requires f.frame.Valid() && e.Mirrored? && InEpilogue(f, c, e.body, e.start, e.adjust)
    ensures e.adjust.Some? ==> !e.adjust.value.Pop?
  {
    hide Run, LegalRun, Resumes, MovesUndone;
    NoPopFirst(e.adjust, f, c, e.start);
  }

  lemma DeclaredKeepsFrame(f: Function, c: Call, e: Place, pc: uint64, here: Cpu)
    requires WellBuilt(f) && e.Declared? && f.m.loadBase <= pc && StoppedDeclared(f, c, e, pc, here) && NotYetPopped(f, e)
    requires f.record.frameRegister != 0
    ensures here.integer[f.record.frameRegister] == e.start.integer[f.record.frameRegister]
  {
    hide EntryFromPointer, ValidateChain, Sound, DescribesAll, ChainDescribes, AllSteps, Run, LegalRun, Resumes, MovesUndone, PushesSelected,
         V2.ExecutePops, Word;
    var number := f.record.frameRegister;
    assert f.frame.number == number;
    NoPopFirst(e.adjust, f, c, e.start);
    var adjusted := Adjusted(e.adjust, number, e.start, c.stack, c.memory).value;
    PopsKeep(f.codes, e.k, number, adjusted, c.stack, c.memory);
  }

  /** Before its own pop the frame register keeps every boundary of the epilogue unwindable. */
  lemma SaneBeforeItsPop(f: Function, c: Call, place: Place, pc: uint64, here: Cpu)
    requires WellBuilt(f) && Stopped(f, c, place, pc, here) && !place.Before?
    requires InEpilogue(f, c, place.body, place.start, place.adjust) && FrameKept(f, c, place.start) && NotYetPopped(f, place)
    ensures FrameIsSane(f.record, here)
  {
    hide EntryFromPointer, ValidateChain, Sound, DescribesAll, ChainDescribes, AllSteps, Run, LegalRun, FrameKept, NotYetPopped,
         StoppedMirrored, StoppedDeclared, Resumes, MovesUndone, Adjusts;
    StartIsSane(f, c, place.start);
    if f.record.frameRegister != 0 {
      if place.Mirrored? {
        MirroredKeepsFrame(f, c, place, pc, here);
      } else {
        DeclaredKeepsFrame(f, c, place, pc, here);
      }
    }
  }
}
