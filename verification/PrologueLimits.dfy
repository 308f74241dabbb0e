/** Where RSP may be when a function is unwound: exactly how far the inversion of a prologue reaches. */
module PrologueLimits {
  import opened Bytes
  import opened Context
  import opened UnwindCodes
  import opened UnwindApply
  import opened Prologue

  /** The function went on from p and kept what it must, with RSP anywhere in the stack. */
  ghost predicate Continues(frame: Frame, stack: Bounds, p: Point, cpu: Cpu, memory: Memory)
    requires frame.Valid()
  {
    && (forall i :: 0 <= i < |p.slots| ==> SameBytes(memory, p.memory, p.slots[i].address, p.slots[i].Size()))
    && (forall r: nat :: NonvolatileInteger(r) && r !in p.saved ==> cpu.integer[r] == p.cpu.integer[r])
    && (forall x: nat :: NonvolatileXmm(x) && x !in p.savedXmm ==> cpu.xmm[x] == p.cpu.xmm[x])
    && (p.framed ==> cpu.integer[frame.number] == p.cpu.integer[frame.number])
    && stack.limit <= cpu.Rsp() <= stack.base
  }

  ghost predicate FindsCaller(result: Outcome<Unwound>, caller: Cpu) {
    result.Ok? && !result.value.machineFrame && SameNonvolatile(result.value.cpu, caller)
  }

  /** From p the codes find the caller however the function went on. */
  ghost predicate UnwindsAnywhere(frame: Frame, stack: Bounds, caller: Cpu, p: Point, codes: seq<Code>, frameRegister: nat,
                                  inPrologue: bool, offset: nat)
    requires frame.Valid() && frameRegister < 16
  {
    forall cpu: Cpu, memory: Memory :: Continues(frame, stack, p, cpu, memory) ==>
      FindsCaller(UnwindRecord(codes, frameRegister, frame.offset, false, inPrologue, offset, Unwound(cpu, false), stack, memory), caller)
  }

  /** The witness: the machine at p itself, but for RSP. */
  lemma PointContinues(frame: Frame, stack: Bounds, p: Point, rsp: uint64)
    requires frame.Valid() && stack.limit <= rsp <= stack.base
    ensures Continues(frame, stack, p, p.cpu.WithRsp(rsp), p.memory)
  {
    assert forall r: nat :: NonvolatileInteger(r) ==> p.cpu.WithRsp(rsp).integer[r] == p.cpu.integer[r];
  }

  /** A push counts as following the frame only when a frame was set up. */
  lemma {:induction false} PushedOnlyUnderFrame(frame: Frame, stack: Bounds, caller: Cpu, before: Memory, steps: seq<Step>)
    requires frame.Valid() && LegalRun(frame, stack, Entry(caller, before), steps)
    ensures var p := Run(frame, stack, Entry(caller, before), steps); p.pushedSinceFrame ==> p.framed
  {
    if steps != [] {
      PushedOnlyUnderFrame(frame, stack, caller, before, Init(steps));
    }
  }

  /** What undoing an instruction does to RSP when there is no frame to return to. */
  lemma OpMovesRsp(frame: Frame, stack: Bounds, p: Point, step: Step, code: Code, base: uint64, u: Unwound, memory: Memory)
    requires frame.Valid() && Legal(frame, stack, p, step.instr) && Describes(code, step) && !step.instr.EstablishFrame?
    ensures var q, r := Execute(frame, stack, p, step.instr), ApplyOp(code.op, base, u, stack, memory);
            r.Ok? ==> && r.value.cpu.Rsp() - u.cpu.Rsp() == p.cpu.Rsp() - q.cpu.Rsp() >= 0
                      && (step.instr.Push? ==> stack.Fits(u.cpu.Rsp(), 8))
  {
    hide Free, Word, Xmmword, WriteWord, WriteXmmword;
  }

  /** A push after the set-up is read at RSP, so an RSP at the stack base or above fails. */
  lemma {:induction false} PushNeedsRsp(frame: Frame, stack: Bounds, caller: Cpu, before: Memory, steps: seq<Step>, codes: seq<Code>,
                                        inPrologue: bool, offset: nat, base: uint64, u: Unwound, memory: Memory)
    requires frame.Valid() && LegalRun(frame, stack, Entry(caller, before), steps) && DescribesAll(codes, steps)
    requires forall i :: 0 <= i < |codes| ==> Executed(codes[i], inPrologue, offset)
    requires Run(frame, stack, Entry(caller, before), steps).pushedSinceFrame && u.cpu.Rsp() >= stack.base
    ensures ApplyCodes(codes, inPrologue, offset, base, u, stack, memory).Fail?
  {
    hide ApplyOp, Legal;
    var p, instr := Run(frame, stack, Entry(caller, before), Init(steps)), Last(steps).instr;
    PushedOnlyUnderFrame(frame, stack, caller, before, Init(steps));
    FrameOnlyOnce(frame, stack, p, instr);
    if !HasCode(instr) {
      PushNeedsRsp(frame, stack, caller, before, Init(steps), codes, inPrologue, offset, base, u, memory);
    } else {
      OpMovesRsp(frame, stack, p, Last(steps), codes[0], base, u, memory);
      var next := ApplyOp(codes[0].op, base, u, stack, memory);
      if next.Ok? {
        PushNeedsRsp(frame, stack, caller, before, Init(steps), codes[1..], inPrologue, offset, base, next.value, memory);
      }
    }
  }

  lemma FrameOnlyOnce(frame: Frame, stack: Bounds, p: Point, instr: Instr)
    requires frame.Valid() && Legal(frame, stack, p, instr)
    ensures instr.EstablishFrame? ==> !p.framed
  {
  }

  /** Without a frame, undoing the codes moves RSP by what the prologue moved it, and no more. */
  lemma {:induction false} RspMovesBack(frame: Frame, stack: Bounds, caller: Cpu, before: Memory, steps: seq<Step>, codes: seq<Code>,
                                        inPrologue: bool, offset: nat, base: uint64, u: Unwound, memory: Memory)
    requires frame.Valid() && LegalRun(frame, stack, Entry(caller, before), steps) && DescribesAll(codes, steps)
    requires forall i :: 0 <= i < |codes| ==> Executed(codes[i], inPrologue, offset)
    requires !Run(frame, stack, Entry(caller, before), steps).framed
    ensures var r := ApplyCodes(codes, inPrologue, offset, base, u, stack, memory);
            r.Ok? ==> r.value.cpu.Rsp() - u.cpu.Rsp() == caller.Rsp() - Run(frame, stack, Entry(caller, before), steps).cpu.Rsp()
  {
    if steps != [] {
      hide ApplyOp, Legal;
      var p, instr := Run(frame, stack, Entry(caller, before), Init(steps)), Last(steps).instr;
      if !HasCode(instr) {
        UncodedKeepsRsp(frame, stack, p, instr);
        RspMovesBack(frame, stack, caller, before, Init(steps), codes, inPrologue, offset, base, u, memory);
      } else {
        OpMovesRsp(frame, stack, p, Last(steps), codes[0], base, u, memory);
        var next := ApplyOp(codes[0].op, base, u, stack, memory);
        if next.Ok? {
          RspMovesBack(frame, stack, caller, before, Init(steps), codes[1..], inPrologue, offset, base, next.value, memory);
        }
      }
    }
  }

  lemma UncodedKeepsRsp(frame: Frame, stack: Bounds, p: Point, instr: Instr)
    requires frame.Valid() && Legal(frame, stack, p, instr) && !HasCode(instr)
    ensures Execute(frame, stack, p, instr).cpu.Rsp() == p.cpu.Rsp()
  {
  }

  /** One of the two ends of the stack defeats the codes when RSP alone leads to the saved registers. */
  lemma StackEndDefeats(frame: Frame, stack: Bounds, caller: Cpu, before: Memory, steps: seq<Step>, k: nat, prefix: seq<Code>,
                        codes: seq<Code>, frameRegister: nat, inPrologue: bool, offset: nat)
    returns (rsp: uint64)
    requires frame.Valid() && frameRegister < 16 && stack.limit < stack.base
    requires forall i :: 0 <= i < |prefix| ==> prefix[i].op == Epilog
    requires DescribesAll(codes, steps) && WellOrdered(codes) && Boundary(steps, k, inPrologue, offset)
    requires LegalRun(frame, stack, Entry(caller, before), steps[..k])
    requires var p := Run(frame, stack, Entry(caller, before), steps[..k]); !p.framed || p.pushedSinceFrame
    ensures stack.limit <= rsp <= stack.base
    ensures var p := Run(frame, stack, Entry(caller, before), steps[..k]);
            !FindsCaller(UnwindRecord(prefix + codes, frameRegister, frame.offset, false, inPrologue, offset,
                                      Unwound(p.cpu.WithRsp(rsp), false), stack, p.memory), caller)
  {
    hide ApplyOp, Legal, Execute, ApplyCodes, Established;
    var p := Run(frame, stack, Entry(caller, before), steps[..k]);
    rsp := if p.cpu.Rsp() != stack.base || p.pushedSinceFrame then stack.base else stack.limit;
    var u := Unwound(p.cpu.WithRsp(rsp), false);
    var done := SkipsUnexecuted(steps, k, codes, inPrologue, offset);
    var established := frameRegister != 0 && Established(prefix + codes, inPrologue, offset);
    var base := ComputeFrameBase(frameRegister, frame.offset, established, u.cpu);
    if base.Ok? {
      ApplySkipsEpilogs(prefix, codes, inPrologue, offset, base.value, u, stack, p.memory);
      if p.pushedSinceFrame {
        PushNeedsRsp(frame, stack, caller, before, steps[..k], done, inPrologue, offset, base.value, u, p.memory);
      } else {
        RspMovesBack(frame, stack, caller, before, steps[..k], done, inPrologue, offset, base.value, u, p.memory);
      }
    }
  }

  /**
   * At any boundary of any legal prologue the codes find the caller wherever in the
   * stack RSP has gone if and only if a frame register is set up and no push follows
   * its set-up.
   */
  lemma RspIsFreeIffNoPushSinceFrame(frame: Frame, stack: Bounds, caller: Cpu, before: Memory, steps: seq<Step>, k: nat,
                                     prefix: seq<Code>, codes: seq<Code>, frameRegister: nat, inPrologue: bool, offset: nat)
    requires frame.Valid() && (frameRegister == frame.number || (frameRegister == 0 && !SetsFrame(codes)))
    requires forall i :: 0 <= i < |prefix| ==> prefix[i].op == Epilog
    requires DescribesAll(codes, steps) && WellOrdered(codes) && Boundary(steps, k, inPrologue, offset)
    requires LegalRun(frame, stack, Entry(caller, before), steps[..k]) && stack.limit < stack.base
    requires stack.base + Run(frame, stack, Entry(caller, before), steps[..k]).allocatedSinceFrame < TWO_64
    ensures var p := Run(frame, stack, Entry(caller, before), steps[..k]);
            UnwindsAnywhere(frame, stack, caller, p, prefix + codes, frameRegister, inPrologue, offset)
            <==> p.framed && !p.pushedSinceFrame
  {
    hide DescribesAll, WellOrdered, LegalRun, Run, Continues, UnwindRecord, FindsCaller;
    var p := Run(frame, stack, Entry(caller, before), steps[..k]);
    if p.framed && !p.pushedSinceFrame {
      forall cpu: Cpu, memory: Memory | Continues(frame, stack, p, cpu, memory)
        ensures FindsCaller(UnwindRecord(prefix + codes, frameRegister, frame.offset, false, inPrologue, offset,
                                         Unwound(cpu, false), stack, memory), caller)
      {
        ContinuesResumes(frame, stack, p, cpu, memory);
        var restored := UnwindInvertsPrologue(frame, stack, caller, before, steps, k, prefix, codes, frameRegister, inPrologue,
                                              offset, cpu, memory);
        Restored(Ok(Unwound(restored, false)), caller);
      }
    } else {
      var rsp := StackEndDefeats(frame, stack, caller, before, steps, k, prefix, codes, frameRegister, inPrologue, offset);
      PointContinues(frame, stack, p, rsp);
    }
  }

  lemma ContinuesResumes(frame: Frame, stack: Bounds, p: Point, cpu: Cpu, memory: Memory)
    requires frame.Valid() && p.framed && !p.pushedSinceFrame && stack.base + p.allocatedSinceFrame < TWO_64
    requires Continues(frame, stack, p, cpu, memory)
    ensures Resumes(frame, p, cpu, memory)
  {
  }

  lemma Restored(result: Outcome<Unwound>, caller: Cpu)
    requires result.Ok? && !result.value.machineFrame && SameNonvolatile(result.value.cpu, caller)
    ensures FindsCaller(result, caller)
  {
  }
}
