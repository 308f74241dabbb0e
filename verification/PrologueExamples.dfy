/** Two prologues: an ordinary one, and one whose push follows the frame register's set-up. */
module PrologueExamples {
  import opened Bytes
  import opened Context
  import opened UnwindCodes
  import opened UnwindApply
  import opened Prologue
  import opened PrologueLimits

  const RBX: nat := 3
  const RBP: nat := 5

  lemma LegalRunSnoc(frame: Frame, stack: Bounds, entry: Point, steps: seq<Step>, step: Step)
    requires frame.Valid() && LegalRun(frame, stack, entry, steps)
    requires Legal(frame, stack, Run(frame, stack, entry, steps), step.instr)
    ensures LegalRun(frame, stack, entry, steps + [step])
    ensures Run(frame, stack, entry, steps + [step]) == Execute(frame, stack, Run(frame, stack, entry, steps), step.instr)
  {
    hide Legal, Execute;
    assert Init(steps + [step]) == steps;
  }

  /** Push RBP, allocate 48 bytes, point RBP at their middle, save RBX into them. */
  function OrdinaryPrologue(): seq<Step> {
    [Step(1, Push(RBP))] + [Step(5, Allocate(48))] + [Step(10, EstablishFrame)] + [Step(15, SaveWord(RBX, 8))]
  }

  function OrdinaryCodes(): seq<Code> {
    [Code(15, SaveNonvol(RBX, 8)), Code(10, SetFrame), Code(5, AllocSmall(48)), Code(1, PushNonvol(RBP))]
  }

  /** It is a legal prologue on any stack with room for it, and its codes describe it. */
  lemma OrdinaryPrologueIsLegal(stack: Bounds, caller: Cpu, before: Memory)
    requires stack.limit + 56 <= caller.Rsp() <= stack.base && stack.limit < stack.base
    ensures LegalRun(Frame(RBP, 1), stack, Entry(caller, before), OrdinaryPrologue())
    ensures DescribesAll(OrdinaryCodes(), OrdinaryPrologue()) && WellOrdered(OrdinaryCodes())
  {
    hide WriteWord, Word;
    var frame, entry := Frame(RBP, 1), Entry(caller, before);
    var one := [] + [Step(1, Push(RBP))];
    LegalRunSnoc(frame, stack, entry, [], Step(1, Push(RBP)));
    assert one == [Step(1, Push(RBP))];
    LegalRunSnoc(frame, stack, entry, one, Step(5, Allocate(48)));
    var two := one + [Step(5, Allocate(48))];
    LegalRunSnoc(frame, stack, entry, two, Step(10, EstablishFrame));
    LegalRunSnoc(frame, stack, entry, two + [Step(10, EstablishFrame)], Step(15, SaveWord(RBX, 8)));
    OrdinaryCodesDescribe();
  }

  lemma OrdinaryCodesDescribe()
    ensures DescribesAll(OrdinaryCodes(), OrdinaryPrologue()) && WellOrdered(OrdinaryCodes())
  {
    var steps, codes := OrdinaryPrologue(), OrdinaryCodes();
    DescribesSnoc([], [], Code(1, PushNonvol(RBP)), Step(1, Push(RBP)));
    DescribesSnoc([Code(1, PushNonvol(RBP))], [] + [Step(1, Push(RBP))], Code(5, AllocSmall(48)), Step(5, Allocate(48)));
    DescribesSnoc([Code(5, AllocSmall(48))] + [Code(1, PushNonvol(RBP))], [] + [Step(1, Push(RBP))] + [Step(5, Allocate(48))],
                  Code(10, SetFrame), Step(10, EstablishFrame));
    var three := [Code(10, SetFrame)] + ([Code(5, AllocSmall(48))] + [Code(1, PushNonvol(RBP))]);
    DescribesSnoc(three, [] + [Step(1, Push(RBP))] + [Step(5, Allocate(48))] + [Step(10, EstablishFrame)],
                  Code(15, SaveNonvol(RBX, 8)), Step(15, SaveWord(RBX, 8)));
    assert [Code(15, SaveNonvol(RBX, 8))] + three == codes;
    assert [] + [Step(1, Push(RBP))] + [Step(5, Allocate(48))] + [Step(10, EstablishFrame)] + [Step(15, SaveWord(RBX, 8))] == steps;
  }

  lemma DescribesSnoc(codes: seq<Code>, steps: seq<Step>, code: Code, step: Step)
    requires DescribesAll(codes, steps) && HasCode(step.instr) && Describes(code, step)
    ensures DescribesAll([code] + codes, steps + [step])
  {
    assert Init(steps + [step]) == steps && ([code] + codes)[1..] == codes;
  }

  /** Push RBP, point RBP at it, push RBX. */
  function PushedPrologue(): seq<Step> {
    [Step(1, Push(RBP))] + [Step(4, EstablishFrame)] + [Step(5, Push(RBX))]
  }

  function PushedCodes(): seq<Code> {
    [Code(5, PushNonvol(RBX))] + ([Code(4, SetFrame)] + [Code(1, PushNonvol(RBP))])
  }

  /** It is legal too, and stops with RBX on the stack under the frame register's target. */
  lemma PushedPrologueIsLegal(stack: Bounds, caller: Cpu, before: Memory)
    requires stack.limit + 24 <= caller.Rsp() <= stack.base && stack.limit < stack.base
    ensures LegalRun(Frame(RBP, 0), stack, Entry(caller, before), PushedPrologue())
    ensures DescribesAll(PushedCodes(), PushedPrologue()) && WellOrdered(PushedCodes())
    ensures var p := Run(Frame(RBP, 0), stack, Entry(caller, before), PushedPrologue());
            && p.cpu.Rsp() == caller.Rsp() - 16 && p.cpu.integer[RBP] == caller.Rsp() - 8
            && p.saved == {RBP, RBX} && p.savedXmm == {} && p.framed && p.pushedSinceFrame
            && p.slots == [WordSlot(caller.Rsp() - 8, caller.integer[RBP]), WordSlot(caller.Rsp() - 16, caller.integer[RBX])]
  {
    hide WriteWord, Word;
    var frame, entry := Frame(RBP, 0), Entry(caller, before);
    var one := [] + [Step(1, Push(RBP))];
    LegalRunSnoc(frame, stack, entry, [], Step(1, Push(RBP)));
    assert one == [Step(1, Push(RBP))];
    LegalRunSnoc(frame, stack, entry, one, Step(4, EstablishFrame));
    LegalRunSnoc(frame, stack, entry, one + [Step(4, EstablishFrame)], Step(5, Push(RBX)));
    PushedCodesDescribe();
  }

  lemma PushedCodesDescribe()
    ensures DescribesAll(PushedCodes(), PushedPrologue()) && WellOrdered(PushedCodes())
  {
    var one := [] + [Step(1, Push(RBP))];
    DescribesSnoc([], [], Code(1, PushNonvol(RBP)), Step(1, Push(RBP)));
    assert one == [Step(1, Push(RBP))] && [Code(1, PushNonvol(RBP))] + [] == [Code(1, PushNonvol(RBP))];
    DescribesSnoc([Code(1, PushNonvol(RBP))], one, Code(4, SetFrame), Step(4, EstablishFrame));
    DescribesSnoc([Code(4, SetFrame)] + [Code(1, PushNonvol(RBP))], one + [Step(4, EstablishFrame)],
                  Code(5, PushNonvol(RBX)), Step(5, Push(RBX)));
  }

  /**
   * After that prologue the body pushes one more word and is unwound there: every
   * condition of the calling convention is kept, yet the caller's RBX comes back as
   * that word.
   */
  lemma MovedRspLosesPush(stack: Bounds, caller: Cpu, before: Memory, stray: uint64)
    requires stack.limit + 24 <= caller.Rsp() <= stack.base && stack.limit < stack.base
    requires stray != caller.integer[RBX]
    ensures LegalRun(Frame(RBP, 0), stack, Entry(caller, before), PushedPrologue())
    ensures var p := Run(Frame(RBP, 0), stack, Entry(caller, before), PushedPrologue());
            && p.cpu.Rsp() >= 8
            && var cpu, memory := p.cpu.WithRsp(p.cpu.Rsp() - 8), WriteWord(p.memory, p.cpu.Rsp() - 8, stray);
               && Continues(Frame(RBP, 0), stack, p, cpu, memory)
               && var r := UnwindRecord(PushedCodes(), RBP, 0, false, false, 0, Unwound(cpu, false), stack, memory);
                  r.Ok? && r.value.cpu.integer[RBX] == stray != caller.integer[RBX]
  {
    hide LegalRun, Run, DescribesAll, WriteWord, Word, UnwindRecord, PushedPrologue, PushedCodes;
    PushedPrologueIsLegal(stack, caller, before);
    var p := Run(Frame(RBP, 0), stack, Entry(caller, before), PushedPrologue());
    var cpu, memory := p.cpu.WithRsp(p.cpu.Rsp() - 8), WriteWord(p.memory, p.cpu.Rsp() - 8, stray);
    OneMorePushContinues(stack, p, stray);
    WordReadsBack(p.memory, p.cpu.Rsp() - 8, stray);
    PushedCodesPop(stack, cpu, memory);
  }

  lemma OneMorePushContinues(stack: Bounds, p: Point, stray: uint64)
    requires stack.limit + 8 <= p.cpu.Rsp() <= stack.base
    requires forall i :: 0 <= i < |p.slots| ==> p.slots[i].address >= p.cpu.Rsp()
    ensures Continues(Frame(RBP, 0), stack, p, p.cpu.WithRsp(p.cpu.Rsp() - 8), WriteWord(p.memory, p.cpu.Rsp() - 8, stray))
  {
    PointContinues(Frame(RBP, 0), stack, p, p.cpu.Rsp() - 8);
  }

  /** What the codes do to a context whose RSP may have moved: RBX from RSP, the rest from the frame register. */
  lemma PushedCodesPop(stack: Bounds, cpu: Cpu, memory: Memory)
    requires stack.Fits(cpu.Rsp(), 8) && stack.Fits(cpu.integer[RBP], 8)
    ensures var r := UnwindRecord(PushedCodes(), RBP, 0, false, false, 0, Unwound(cpu, false), stack, memory);
            r.Ok? && r.value.cpu.integer[RBX] == Word(memory, cpu.Rsp())
  {
    hide Word;
    var last := [Code(1, PushNonvol(RBP))];
    var rest := [Code(4, SetFrame)] + last;
    EstablishedCons(Code(5, PushNonvol(RBX)), rest);
    EstablishedCons(Code(4, SetFrame), last);
    var base, u := cpu.integer[RBP], Unwound(cpu, false);
    ApplyCons(Code(5, PushNonvol(RBX)), rest, false, 0, base, u, stack, memory);
    var popped := Unwound(PopInteger(cpu, stack, memory, RBX).value, false);
    ApplyCons(Code(4, SetFrame), last, false, 0, base, popped, stack, memory);
    var reset := popped.(cpu := popped.cpu.WithRsp(base));
    ApplyCons(Code(1, PushNonvol(RBP)), [], false, 0, base, reset, stack, memory);
    assert last == [Code(1, PushNonvol(RBP))] + [];
  }
}
