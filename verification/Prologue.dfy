/**
 * What a prologue does to the machine, and the proof that interpreting its unwind
 * codes backwards undoes it at every instruction boundary.
 */
module Prologue {
  import opened Bytes
  import opened Context
  import opened UnwindCodes
  import opened UnwindApply

  /** The frame register of a record and its unscaled offset (in units of sixteen bytes). */
  datatype Frame = Frame(number: nat, offset: nat) {
    predicate Valid() { NonvolatileInteger(number) && offset < 16 }
  }

  datatype Instr =
    | Push(number: nat)
    | Allocate(size: nat)
    | EstablishFrame
    | SaveWord(number: nat, offset: nat)
    | SaveWide(number: nat, offset: nat)
    | Clobber(number: nat, value: uint64)      // an instruction without a code that changes a register
    | ClobberXmm(number: nat, wide: M128)

  /** An instruction and the offset, from the function start, at which it has completed. */
  datatype Step = Step(end: nat, instr: Instr)

  datatype Slot = WordSlot(address: int, word: uint64) | WideSlot(address: int, wide: M128) {
    function Size(): nat { if WordSlot? then 8 else 16 }

    ghost predicate Overlaps(from: int, size: nat) {
      address < from + size && from < address + Size()
    }

    ghost predicate HeldBy(memory: Memory) {
      match this
      case WordSlot(a, v) => Word(memory, a) == v
      case WideSlot(a, v) => Xmmword(memory, a) == v
    }
  }

  /** The machine part-way through a prologue, with what has been saved so far. */
  datatype Point = Point(cpu: Cpu, memory: Memory, framed: bool, hasMoves: bool, saved: set<nat>, savedXmm: set<nat>,
                         slots: seq<Slot>, allocatedSinceFrame: nat, pushedSinceFrame: bool)

  function Entry(cpu: Cpu, memory: Memory): Point {
    Point(cpu, memory, false, false, {}, {}, [], 0, false)
  }

  /** The address save offsets count from: RSP, or the frame register less its scaled offset. */
  function Base(frame: Frame, p: Point): int
    requires frame.Valid()
  {
    if p.framed then p.cpu.integer[frame.number] - 16 * frame.offset else p.cpu.Rsp()
  }

  /** The slot is clear of everything saved so far and inside the stack. */
  ghost predicate Free(p: Point, stack: Bounds, address: int, size: nat) {
    && stack.Fits(address, size)
    && forall i :: 0 <= i < |p.slots| ==> !p.slots[i].Overlaps(address, size)
  }

  /** The conditions of the calling convention on the next prologue instruction. */
  ghost predicate Legal(frame: Frame, stack: Bounds, p: Point, instr: Instr)
    requires frame.Valid()
  {
    match instr
    case Push(number) =>
      && NonvolatileInteger(number) && (p.hasMoves ==> p.framed)
      && p.cpu.Rsp() >= 8 && Free(p, stack, p.cpu.Rsp() - 8, 8)
    case Allocate(size) =>
      && size > 0 && size % 8 == 0 && (p.hasMoves ==> p.framed)
      && p.cpu.Rsp() >= size
    case EstablishFrame =>
      && !p.framed && frame.number in p.saved
      && p.cpu.Rsp() + 16 * frame.offset < TWO_64
    case SaveWord(number, offset) =>
      && NonvolatileInteger(number) && Free(p, stack, Base(frame, p) + offset, 8)
    case SaveWide(number, offset) =>
      && NonvolatileXmm(number) && Free(p, stack, Base(frame, p) + offset, 16)
    case Clobber(number, value) =>
      && number < 16 && number != RSP && (NonvolatileInteger(number) ==> number in p.saved)
      && !(p.framed && number == frame.number)
    case ClobberXmm(number, wide) =>
      && number < 16 && (NonvolatileXmm(number) ==> number in p.savedXmm)
  }

  /** What the instruction does. */
  ghost function Execute(frame: Frame, stack: Bounds, p: Point, instr: Instr): Point
    requires frame.Valid() && Legal(frame, stack, p, instr)
  {
    match instr
    case Push(number) =>
      var rsp := p.cpu.Rsp() - 8;
      var value := p.cpu.integer[number];
      p.(cpu := p.cpu.WithRsp(rsp), memory := WriteWord(p.memory, rsp, value), saved := p.saved + {number},
         slots := p.slots + [WordSlot(rsp, value)], pushedSinceFrame := p.framed)
    case Allocate(size) =>
      p.(cpu := p.cpu.WithRsp(p.cpu.Rsp() - size),
         allocatedSinceFrame := if p.framed then p.allocatedSinceFrame + size else 0)
    case EstablishFrame =>
      p.(cpu := p.cpu.WithInteger(frame.number, p.cpu.Rsp() + 16 * frame.offset), framed := true)
    case SaveWord(number, offset) =>
      var address, value := Base(frame, p) + offset, p.cpu.integer[number];
      p.(memory := WriteWord(p.memory, address, value), saved := p.saved + {number}, hasMoves := true,
         slots := p.slots + [WordSlot(address, value)])
    case SaveWide(number, offset) =>
      var address, value := Base(frame, p) + offset, p.cpu.xmm[number];
      p.(memory := WriteXmmword(p.memory, address, value), savedXmm := p.savedXmm + {number}, hasMoves := true,
         slots := p.slots + [WideSlot(address, value)])
    case Clobber(number, value) =>
      p.(cpu := p.cpu.WithInteger(number, value))
    case ClobberXmm(number, wide) =>
      p.(cpu := p.cpu.WithXmm(number, wide))
  }

  function Last(steps: seq<Step>): Step
    requires steps != []
  {
    steps[|steps| - 1]
  }

  function Init(steps: seq<Step>): seq<Step>
    requires steps != []
  {
    steps[..|steps| - 1]
  }

  ghost predicate LegalRun(frame: Frame, stack: Bounds, entry: Point, steps: seq<Step>)
    requires frame.Valid()
    decreases |steps|, 0
  {
    steps == [] ||
    (LegalRun(frame, stack, entry, Init(steps)) &&
     Legal(frame, stack, Run(frame, stack, entry, Init(steps)), Last(steps).instr))
  }

  ghost function Run(frame: Frame, stack: Bounds, entry: Point, steps: seq<Step>): Point
    requires frame.Valid() && LegalRun(frame, stack, entry, steps)
    decreases |steps|, 1
  {
    if steps == [] then entry
    else Execute(frame, stack, Run(frame, stack, entry, Init(steps)), Last(steps).instr)
  }

  // The codes of a prologue

  predicate HasCode(instr: Instr) {
    !instr.Clobber? && !instr.ClobberXmm?
  }

  /** The code is the record of this instruction, in any of the encodings the format offers. */
  predicate Describes(code: Code, step: Step) {
    code.offset == step.end &&
    match step.instr
    case Push(number) => code.op == PushNonvol(number)
    case Allocate(size) => code.op == AllocSmall(size) || code.op == AllocLarge(size)
    case EstablishFrame => code.op == SetFrame
    case SaveWord(number, offset) => code.op == SaveNonvol(number, offset)
    case SaveWide(number, offset) => code.op == SaveXmm(number, offset)
    case Clobber(_, _) => false
    case ClobberXmm(_, _) => false
  }

  /** The codes list the instructions that have one, last instruction first. */
  predicate DescribesAll(codes: seq<Code>, steps: seq<Step>) {
    if steps == [] then codes == []
    else if !HasCode(Last(steps).instr) then DescribesAll(codes, Init(steps))
    else codes != [] && Describes(codes[0], Last(steps)) && DescribesAll(codes[1..], Init(steps))
  }

  // The state an exception or a call leaves to the unwinder

  /**
   * The prologue stopped at p and the function went on: saved slots still hold their
   * bytes, unsaved nonvolatile registers and an established frame register are
   * untouched, and RSP has moved only under a frame register set up after all pushes.
   */
  ghost predicate Resumes(frame: Frame, p: Point, cpu: Cpu, memory: Memory)
    requires frame.Valid()
  {
    && (forall i :: 0 <= i < |p.slots| ==> SameBytes(memory, p.memory, p.slots[i].address, p.slots[i].Size()))
    && (forall r: nat :: NonvolatileInteger(r) && r !in p.saved ==> cpu.integer[r] == p.cpu.integer[r])
    && (forall x: nat :: NonvolatileXmm(x) && x !in p.savedXmm ==> cpu.xmm[x] == p.cpu.xmm[x])
    && (p.framed ==> cpu.integer[frame.number] == p.cpu.integer[frame.number])
    && RspFollows(p, cpu)
  }

  predicate RspFollows(p: Point, cpu: Cpu) {
    || cpu.Rsp() == p.cpu.Rsp()
    || (p.framed && !p.pushedSinceFrame && cpu.Rsp() + p.allocatedSinceFrame < TWO_64)
  }

  /** cpu is the context of the machine at p, as far as anything before p has not saved it. */
  ghost predicate Agrees(p: Point, cpu: Cpu) {
    && (forall r: nat :: NonvolatileInteger(r) && r !in p.saved ==> cpu.integer[r] == p.cpu.integer[r])
    && (forall x: nat :: NonvolatileXmm(x) && x !in p.savedXmm ==> cpu.xmm[x] == p.cpu.xmm[x])
    && RspFollows(p, cpu)
  }

  /** The caller's registers: RSP and everything nonvolatile. */
  ghost predicate SameNonvolatile(a: Cpu, b: Cpu) {
    && a.Rsp() == b.Rsp()
    && (forall r: nat :: NonvolatileInteger(r) ==> a.integer[r] == b.integer[r])
    && (forall x: nat :: NonvolatileXmm(x) ==> a.xmm[x] == b.xmm[x])
  }

  // Facts about runs

  predicate FixesBase(p: Point) {
    p.framed || p.hasMoves
  }

  ghost predicate SlotsHeld(slots: seq<Slot>, stack: Bounds, memory: Memory) {
    forall i :: 0 <= i < |slots| ==> slots[i].HeldBy(memory) && stack.Fits(slots[i].address, slots[i].Size())
  }

  lemma WriteKeepsSlot(memory: Memory, address: int, bytes: seq<uint8>, slot: Slot)
    requires !slot.Overlaps(address, |bytes|)
    requires slot.HeldBy(memory)
    ensures slot.HeldBy(Write(memory, address, bytes))
  {
    if slot.WordSlot? {
      SameWord(memory, Write(memory, address, bytes), slot.address);
    } else {
      SameXmmword(memory, Write(memory, address, bytes), slot.address);
    }
  }

  lemma WriteKeepsSlots(p: Point, stack: Bounds, address: int, bytes: seq<uint8>)
    requires SlotsHeld(p.slots, stack, p.memory) && Free(p, stack, address, |bytes|)
    ensures stack.Fits(address, |bytes|)
    ensures SlotsHeld(p.slots, stack, Write(p.memory, address, bytes))
  {
    forall i | 0 <= i < |p.slots|
      ensures p.slots[i].HeldBy(Write(p.memory, address, bytes))
    {
      WriteKeepsSlot(p.memory, address, bytes, p.slots[i]);
    }
  }

  lemma ExecuteKeepsSlots(frame: Frame, stack: Bounds, p: Point, instr: Instr)
    requires frame.Valid() && Legal(frame, stack, p, instr)
    requires SlotsHeld(p.slots, stack, p.memory)
    ensures var q := Execute(frame, stack, p, instr);
            SlotsHeld(q.slots, stack, q.memory)
  {
    hide SlotsHeld, Free, Word, Xmmword;
    match instr
    case Push(number) =>
      var address, value := p.cpu.Rsp() - 8, p.cpu.integer[number];
      WriteKeepsSlots(p, stack, address, Store(value, 8));
      WordReadsBack(p.memory, address, value);
      SlotsHeldSnoc(p.slots, WordSlot(address, value), stack, WriteWord(p.memory, address, value));
    case SaveWord(number, offset) =>
      var address, value := Base(frame, p) + offset, p.cpu.integer[number];
      WriteKeepsSlots(p, stack, address, Store(value, 8));
      WordReadsBack(p.memory, address, value);
      SlotsHeldSnoc(p.slots, WordSlot(address, value), stack, WriteWord(p.memory, address, value));
    case SaveWide(number, offset) =>
      var address, value := Base(frame, p) + offset, p.cpu.xmm[number];
      WriteKeepsSlots(p, stack, address, Store(value.low, 8) + Store(value.high, 8));
      XmmwordReadsBack(p.memory, address, value);
      SlotsHeldSnoc(p.slots, WideSlot(address, value), stack, WriteXmmword(p.memory, address, value));
    case _ =>
  }

  lemma SlotsHeldSnoc(slots: seq<Slot>, slot: Slot, stack: Bounds, memory: Memory)
    requires SlotsHeld(slots, stack, memory)
    requires slot.HeldBy(memory) && stack.Fits(slot.address, slot.Size())
    ensures SlotsHeld(slots + [slot], stack, memory)
  {
  }

  lemma {:induction false} RunKeepsSlots(frame: Frame, stack: Bounds, entry: Point, steps: seq<Step>)
    requires frame.Valid() && LegalRun(frame, stack, entry, steps)
    requires entry.slots == []
    ensures var p := Run(frame, stack, entry, steps);
            SlotsHeld(p.slots, stack, p.memory)
  {
    if steps != [] {
      RunKeepsSlots(frame, stack, entry, Init(steps));
      ExecuteKeepsSlots(frame, stack, Run(frame, stack, entry, Init(steps)), Last(steps).instr);
    }
  }

  lemma ExecuteKeepsBase(frame: Frame, stack: Bounds, p: Point, instr: Instr)
    requires frame.Valid() && Legal(frame, stack, p, instr)
    ensures FixesBase(p) ==> FixesBase(Execute(frame, stack, p, instr)) &&
                             Base(frame, Execute(frame, stack, p, instr)) == Base(frame, p)
  {
  }

  // Undoing one instruction

  ghost predicate CanUndo(frame: Frame, stack: Bounds, p: Point, instr: Instr, base: uint64, cpu: Cpu, memory: Memory)
    requires frame.Valid() && Legal(frame, stack, p, instr)
  {
    var q := Execute(frame, stack, p, instr);
    && Agrees(q, cpu) && SlotsHeld(q.slots, stack, memory)
    && (FixesBase(q) ==> base == Base(frame, q))
  }

  lemma UndoPush(frame: Frame, stack: Bounds, p: Point, number: nat, base: uint64, cpu: Cpu, memory: Memory) returns (c: Cpu)
    requires frame.Valid() && Legal(frame, stack, p, Push(number))
    requires CanUndo(frame, stack, p, Push(number), base, cpu, memory)
    ensures PopInteger(cpu, stack, memory, number) == Ok(c) && Agrees(p, c)
  {
    hide Free, Word, WriteWord;
    var q := Execute(frame, stack, p, Push(number));
    var slot := q.slots[|p.slots|];
    assert slot == WordSlot(p.cpu.Rsp() - 8, p.cpu.integer[number]);
    assert slot.HeldBy(memory) && stack.Fits(slot.address, 8);
    c := cpu.WithInteger(number, slot.word).WithRsp(cpu.Rsp() + 8);
  }

  lemma UndoAllocate(frame: Frame, stack: Bounds, p: Point, size: nat, base: uint64, cpu: Cpu, memory: Memory) returns (c: Cpu)
    requires frame.Valid() && Legal(frame, stack, p, Allocate(size))
    requires CanUndo(frame, stack, p, Allocate(size), base, cpu, memory)
    ensures AddToRsp(cpu, size) == Ok(c) && Agrees(p, c)
  {
    c := cpu.WithRsp(cpu.Rsp() + size);
  }

  lemma UndoFrame(frame: Frame, stack: Bounds, p: Point, base: uint64, cpu: Cpu, memory: Memory)
    requires frame.Valid() && Legal(frame, stack, p, EstablishFrame)
    requires CanUndo(frame, stack, p, EstablishFrame, base, cpu, memory)
    ensures Agrees(p, cpu.WithRsp(base))
  {
  }

  lemma UndoSaveWord(frame: Frame, stack: Bounds, p: Point, number: nat, offset: nat, base: uint64, cpu: Cpu, memory: Memory)
    returns (c: Cpu)
    requires frame.Valid() && Legal(frame, stack, p, SaveWord(number, offset))
    requires CanUndo(frame, stack, p, SaveWord(number, offset), base, cpu, memory)
    ensures base + offset < TWO_64
    ensures RestoreInteger(cpu, stack, memory, number, base + offset) == Ok(c) && Agrees(p, c)
  {
    hide Free, Word, WriteWord;
    var q := Execute(frame, stack, p, SaveWord(number, offset));
    var slot := q.slots[|p.slots|];
    assert slot == WordSlot(base + offset, p.cpu.integer[number]);
    assert slot.HeldBy(memory) && stack.Fits(slot.address, 8);
    c := cpu.WithInteger(number, slot.word);
  }

  lemma UndoSaveWide(frame: Frame, stack: Bounds, p: Point, number: nat, offset: nat, base: uint64, cpu: Cpu, memory: Memory)
    returns (c: Cpu)
    requires frame.Valid() && Legal(frame, stack, p, SaveWide(number, offset))
    requires CanUndo(frame, stack, p, SaveWide(number, offset), base, cpu, memory)
    ensures base + offset < TWO_64
    ensures RestoreXmm(cpu, stack, memory, number, base + offset) == Ok(c) && Agrees(p, c)
  {
    hide Free, Xmmword, WriteXmmword;
    var q := Execute(frame, stack, p, SaveWide(number, offset));
    var slot := q.slots[|p.slots|];
    assert slot == WideSlot(base + offset, p.cpu.xmm[number]);
    assert slot.HeldBy(memory) && stack.Fits(slot.address, 16);
    c := cpu.WithXmm(number, slot.wide);
  }

  lemma UndoOne(frame: Frame, stack: Bounds, p: Point, step: Step, code: Code, base: uint64,
                u: Unwound, memory: Memory)
    returns (v: Unwound)
    requires frame.Valid() && Legal(frame, stack, p, step.instr) && Describes(code, step)
    requires CanUndo(frame, stack, p, step.instr, base, u.cpu, memory)
    ensures ApplyOp(code.op, base, u, stack, memory) == Ok(v)
    ensures Agrees(p, v.cpu) && v.machineFrame == u.machineFrame
  {
    hide Agrees, CanUndo, Execute, PopInteger, RestoreInteger, RestoreXmm, AddToRsp;
    v := u;
    match step.instr
    case Push(number) =>
      var c := UndoPush(frame, stack, p, number, base, u.cpu, memory);
      v := u.(cpu := c);
    case Allocate(size) =>
      var c := UndoAllocate(frame, stack, p, size, base, u.cpu, memory);
      v := u.(cpu := c);
    case EstablishFrame =>
      UndoFrame(frame, stack, p, base, u.cpu, memory);
      v := u.(cpu := u.cpu.WithRsp(base));
    case SaveWord(number, offset) =>
      var c := UndoSaveWord(frame, stack, p, number, offset, base, u.cpu, memory);
      v := u.(cpu := c);
    case SaveWide(number, offset) =>
      var c := UndoSaveWide(frame, stack, p, number, offset, base, u.cpu, memory);
      v := u.(cpu := c);
  }

  // Undoing a whole prologue

  lemma {:induction false} UndoAll(frame: Frame, stack: Bounds, entry: Point, steps: seq<Step>, codes: seq<Code>,
                                   inPrologue: bool, prologueOffset: nat, base: uint64, u: Unwound, memory: Memory)
    returns (v: Unwound)
    requires frame.Valid() && LegalRun(frame, stack, entry, steps)
    requires DescribesAll(codes, steps)
    requires forall i :: 0 <= i < |codes| ==> Executed(codes[i], inPrologue, prologueOffset)
    requires var p := Run(frame, stack, entry, steps);
             && Agrees(p, u.cpu) && SlotsHeld(p.slots, stack, memory)
             && (FixesBase(p) ==> base == Base(frame, p))
    ensures ApplyCodes(codes, inPrologue, prologueOffset, base, u, stack, memory) == Ok(v)
    ensures Agrees(entry, v.cpu) && v.machineFrame == u.machineFrame
  {
    if steps == [] {
      v := u;
    } else {
      hide Agrees, ApplyOp, Execute, Legal;
      var p := Run(frame, stack, entry, Init(steps));
      var instr := Last(steps).instr;
      UndoStepFacts(frame, stack, p, instr, base, u.cpu, memory);
      if HasCode(instr) {
        var next := UndoOne(frame, stack, p, Last(steps), codes[0], base, u, memory);
        v := UndoAll(frame, stack, entry, Init(steps), codes[1..], inPrologue, prologueOffset, base, next, memory);
      } else {
        v := UndoAll(frame, stack, entry, Init(steps), codes, inPrologue, prologueOffset, base, u, memory);
      }
    }
  }

  /** What holds after an instruction and is about the saved slots or the base held before it. */
  lemma UndoStepFacts(frame: Frame, stack: Bounds, p: Point, instr: Instr, base: uint64, cpu: Cpu, memory: Memory)
    requires frame.Valid() && Legal(frame, stack, p, instr)
    requires var q := Execute(frame, stack, p, instr);
             && Agrees(q, cpu) && SlotsHeld(q.slots, stack, memory)
             && (FixesBase(q) ==> base == Base(frame, q))
    ensures CanUndo(frame, stack, p, instr, base, cpu, memory)
    ensures SlotsHeld(p.slots, stack, memory)
    ensures FixesBase(p) ==> base == Base(frame, p)
    ensures !HasCode(instr) ==> Agrees(p, cpu)
  {
    hide SlotsHeld;
    var q := Execute(frame, stack, p, instr);
    ExecuteKeepsBase(frame, stack, p, instr);
    assert SlotsHeld(p.slots, stack, memory) by {
      SlotsHeldPrefix(p.slots, q.slots, stack, memory);
    }
  }

  lemma SlotsHeldPrefix(some: seq<Slot>, all: seq<Slot>, stack: Bounds, memory: Memory)
    requires some <= all && SlotsHeld(all, stack, memory)
    ensures SlotsHeld(some, stack, memory)
  {
    assert forall i :: 0 <= i < |some| ==> some[i] == all[i];
  }

  /** The slots still hold what was saved: the bytes are those the prologue wrote. */
  lemma SlotsSurvive(slots: seq<Slot>, stack: Bounds, written: Memory, memory: Memory)
    requires SlotsHeld(slots, stack, written)
    requires forall i :: 0 <= i < |slots| ==> SameBytes(memory, written, slots[i].address, slots[i].Size())
    ensures SlotsHeld(slots, stack, memory)
  {
    forall i | 0 <= i < |slots|
      ensures slots[i].HeldBy(memory)
    {
      if slots[i].WordSlot? {
        SameWord(memory, written, slots[i].address);
      } else {
        SameXmmword(memory, written, slots[i].address);
      }
    }
  }

  // Instruction boundaries

  /** The first k instructions have completed when control is at the given offset. */
  predicate Boundary(steps: seq<Step>, k: nat, inPrologue: bool, offset: nat) {
    && k <= |steps|
    && (!inPrologue ==> k == |steps|)
    && (inPrologue ==> (forall i :: 0 <= i < k ==> steps[i].end <= offset) && (forall i :: k <= i < |steps| ==> steps[i].end > offset))
  }

  /** The interpreter skips exactly the operations of the instructions past the boundary. */
  lemma {:induction false} SkipsUnexecuted(steps: seq<Step>, k: nat, codes: seq<Code>, inPrologue: bool, offset: nat)
    returns (done: seq<Code>)
    requires Boundary(steps, k, inPrologue, offset) && DescribesAll(codes, steps) && WellOrdered(codes)
    ensures DescribesAll(done, steps[..k])
    ensures forall i :: 0 <= i < |done| ==> Executed(done[i], inPrologue, offset)
    ensures Established(codes, inPrologue, offset) == SetsFrame(done)
    ensures SetsFrame(done) ==> SetsFrame(codes)
    ensures forall base, u, stack, memory ::
              (ApplyCodes(codes, inPrologue, offset, base, u, stack, memory) ==
               ApplyCodes(done, inPrologue, offset, base, u, stack, memory))
    decreases |steps|
  {
    if k == |steps| {
      done := codes;
      assert steps[..k] == steps;
      DescribedAreExecuted(codes, steps, inPrologue, offset);
      EstablishedWhenExecuted(codes, inPrologue, offset);
    } else {
      assert Init(steps)[..k] == steps[..k];
      var rest := if HasCode(Last(steps).instr) then codes[1..] else codes;
      assert WellOrdered(rest);
      done := SkipsUnexecuted(Init(steps), k, rest, inPrologue, offset);
      if HasCode(Last(steps).instr) {
        assert codes == [codes[0]] + rest;
        EstablishedCons(codes[0], rest);
        SetsFrameCons(codes[0], rest);
      }
    }
  }

  lemma {:induction false} DescribedAreExecuted(codes: seq<Code>, steps: seq<Step>, inPrologue: bool, offset: nat)
    requires DescribesAll(codes, steps)
    requires inPrologue ==> forall i :: 0 <= i < |steps| ==> steps[i].end <= offset
    ensures forall i :: 0 <= i < |codes| ==> Executed(codes[i], inPrologue, offset)
  {
    if steps != [] {
      if HasCode(Last(steps).instr) {
        DescribedAreExecuted(codes[1..], Init(steps), inPrologue, offset);
        assert forall i :: 0 < i < |codes| ==> codes[i] == codes[1..][i - 1];
      } else {
        DescribedAreExecuted(codes, Init(steps), inPrologue, offset);
      }
    }
  }

  lemma {:induction false} EstablishedWhenExecuted(codes: seq<Code>, inPrologue: bool, offset: nat)
    requires forall i :: 0 <= i < |codes| ==> Executed(codes[i], inPrologue, offset)
    ensures Established(codes, inPrologue, offset) == SetsFrame(codes)
  {
    if codes != [] {
      assert codes == [codes[0]] + codes[1..];
      EstablishedCons(codes[0], codes[1..]);
      SetsFrameCons(codes[0], codes[1..]);
      EstablishedWhenExecuted(codes[1..], inPrologue, offset);
    }
  }

  lemma {:induction false} FramedIffSetUp(frame: Frame, stack: Bounds, entry: Point, steps: seq<Step>, codes: seq<Code>)
    requires frame.Valid() && LegalRun(frame, stack, entry, steps) && DescribesAll(codes, steps)
    requires !entry.framed
    ensures Run(frame, stack, entry, steps).framed == SetsFrame(codes)
  {
    if steps != [] {
      if HasCode(Last(steps).instr) {
        assert codes == [codes[0]] + codes[1..];
        SetsFrameCons(codes[0], codes[1..]);
        FramedIffSetUp(frame, stack, entry, Init(steps), codes[1..]);
      } else {
        FramedIffSetUp(frame, stack, entry, Init(steps), codes);
      }
    }
  }

  /**
   * The main theorem. Take any prologue that follows the calling convention, stopped
   * at any instruction boundary of it or of the body. Interpreting its unwind codes,
   * in whatever encoding and behind whatever epilogue descriptors, restores the
   * caller's RSP and every nonvolatile register.
   */
  lemma UnwindInvertsPrologue(frame: Frame, stack: Bounds, caller: Cpu, before: Memory, steps: seq<Step>, k: nat,
                              prefix: seq<Code>, codes: seq<Code>, frameRegister: nat, inPrologue: bool, offset: nat,
                              cpu: Cpu, memory: Memory)
    returns (restored: Cpu)
    requires frame.Valid() && (frameRegister == frame.number || (frameRegister == 0 && !SetsFrame(codes)))
    requires forall i :: 0 <= i < |prefix| ==> prefix[i].op == Epilog
    requires DescribesAll(codes, steps) && WellOrdered(codes)
    requires Boundary(steps, k, inPrologue, offset)
    requires LegalRun(frame, stack, Entry(caller, before), steps[..k])
    requires Resumes(frame, Run(frame, stack, Entry(caller, before), steps[..k]), cpu, memory)
    ensures UnwindRecord(prefix + codes, frameRegister, frame.offset, false, inPrologue, offset,
                         Unwound(cpu, false), stack, memory) == Ok(Unwound(restored, false))
    ensures SameNonvolatile(restored, caller)
  {
    hide ApplyOp, Execute, Legal, SlotsHeld, SameBytes;
    var entry := Entry(caller, before);
    var p := Run(frame, stack, entry, steps[..k]);
    var u := Unwound(cpu, false);
    var done := SkipsUnexecuted(steps, k, codes, inPrologue, offset);
    FramedIffSetUp(frame, stack, entry, steps[..k], done);
    EstablishedSkipsEpilogs(prefix, codes, inPrologue, offset);
    RunKeepsSlots(frame, stack, entry, steps[..k]);
    SlotsSurvive(p.slots, stack, p.memory, memory);
    RunKeepsFrame(frame, stack, entry, steps[..k]);
    var base: uint64 := if p.framed then cpu.integer[frame.number] - 16 * frame.offset else cpu.Rsp();
    ApplySkipsEpilogs(prefix, codes, inPrologue, offset, base, u, stack, memory);
    var v := UndoAll(frame, stack, entry, steps[..k], done, inPrologue, offset, base, u, memory);
    restored := v.cpu;
  }

  /** The frame register, once established, is at least its scaled offset. */
  lemma {:induction false} RunKeepsFrame(frame: Frame, stack: Bounds, entry: Point, steps: seq<Step>)
    requires frame.Valid() && LegalRun(frame, stack, entry, steps)
    requires !entry.framed
    ensures var p := Run(frame, stack, entry, steps);
            p.framed ==> 0 <= Base(frame, p)
  {
    if steps != [] {
      RunKeepsFrame(frame, stack, entry, Init(steps));
      var p := Run(frame, stack, entry, Init(steps));
      ExecuteKeepsBase(frame, stack, p, Last(steps).instr);
    }
  }

  /** And with the return popped, the context is the caller's after the call. */
  lemma UnwindReturnsToCaller(caller: Cpu, restored: Cpu, stack: Bounds, memory: Memory, returnAddress: uint64)
    requires SameNonvolatile(restored, caller)
    requires stack.Fits(caller.Rsp(), 8) && Word(memory, caller.Rsp()) == returnAddress
    ensures caller.Rsp() + 8 < TWO_64
    ensures PopReturn(restored, stack, memory).Ok?
    ensures var c := PopReturn(restored, stack, memory).value;
            && c.rip == returnAddress && SameNonvolatile(c, caller.WithRsp(caller.Rsp() + 8))
  {
    hide Word;
  }
}
