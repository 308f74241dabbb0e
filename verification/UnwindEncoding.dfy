/**
 * The encoding side of the unwind format: what an assembler writes for an operation, a
 * code array and a record. Decoding gives back exactly what was written.
 */
module UnwindEncoding {
  import opened Bytes
  import opened Context
  import opened UnwindCodes
  import opened UnwindApply
  import opened UnwindImage
  import opened Prologue

  /**
   * An operation with the form chosen for it: some have a scaled and an unscaled one,
   * and the set-up of the frame may note the frame's offset in its spare bits.
   */
  datatype Written = Written(code: Code, far: bool, note: nat)

  predicate Writable(w: Written) {
    match w.code.op
    case PushNonvol(number) => number < 16
    case AllocSmall(size) => size % 8 == 0 && 8 <= size <= 128
    case AllocLarge(size) => if w.far then size < TWO_32 else size % 8 == 0 && size / 8 < 0x1_0000
    case SetFrame => w.note < 16
    case SaveNonvol(number, offset) => number < 16 && if w.far then offset < TWO_32 else offset % 8 == 0 && offset / 8 < 0x1_0000
    case SaveXmm(number, offset) => number < 16 && if w.far then offset < TWO_32 else offset % 16 == 0 && offset / 16 < 0x1_0000
    case PushMachframe(_) => true
    case Epilog => false
    case Unknown => false
  }

  function Head(offset: uint8, operation: nat, info: nat): (s: seq<uint8>)
    requires operation < 16 && info < 16
    ensures |s| == 2
  {
    [offset, operation + 16 * info]
  }

  function Operand(v: nat, scale: nat, far: bool): (s: seq<uint8>)
    requires scale > 0
    ensures |s| == if far then 4 else 2
  {
    if far then Store(v, 4) else Store(v / scale, 2)
  }

  /** The slots of one operation, as the format lays them out. */
  function Slots(w: Written): (s: seq<uint8>)
    requires Writable(w)
    ensures |s| % 2 == 0 && |s| > 0
  {
    var at := w.code.offset;
    match w.code.op
    case PushNonvol(number) => Head(at, 0, number)
    case AllocLarge(size) => Head(at, 1, One(w.far)) + Operand(size, 8, w.far)
    case AllocSmall(size) => Head(at, 2, size / 8 - 1)
    case SetFrame => Head(at, 3, w.note)
    case SaveNonvol(number, offset) => Head(at, if w.far then 5 else 4, number) + Operand(offset, 8, w.far)
    case SaveXmm(number, offset) => Head(at, if w.far then 9 else 8, number) + Operand(offset, 16, w.far)
    case PushMachframe(errorCode) => Head(at, 10, One(errorCode))
  }

  predicate AllWritable(ws: seq<Written>) {
    forall k :: 0 <= k < |ws| ==> Writable(ws[k])
  }

  function Joined(a: Codes, b: Codes): (s: Codes)
    ensures s == a + b
  {
    a + b
  }

  function WriteCodes(ws: seq<Written>): (s: Codes)
    requires AllWritable(ws)
  {
    if ws == [] then [] else Joined(Slots(ws[0]), WriteCodes(ws[1..]))
  }

  function CodesOf(ws: seq<Written>): (r: seq<Code>)
    ensures |r| == |ws|
  {
    if ws == [] then [] else [ws[0].code] + CodesOf(ws[1..])
  }

  lemma OperandReads(front: seq<uint8>, v: nat, scale: nat, far: bool, rest: seq<uint8>)
    requires scale > 0 && (if far then v < TWO_32 else v % scale == 0 && v / scale < 0x1_0000)
    ensures var s := front + Operand(v, scale, far) + rest;
            if far then Load32(s[|front|..|front| + 4]) == v else Load16(s[|front|..|front| + 2]) == v / scale
  {
    hide Load, Store, Span;
    SpanValues();
    var s := front + Operand(v, scale, far) + rest;
    if far {
      LoadStore(v, 4);
      assert s[|front|..|front| + 4] == Store(v, 4);
    } else {
      LoadStore(v / scale, 2);
      assert s[|front|..|front| + 2] == Store(v / scale, 2);
    }
  }

  lemma HeadReads(front: Codes, offset: uint8, operation: nat, info: nat, rest: seq<uint8>)
    requires operation < 16 && info < 16 && |rest| % 2 == 0
    ensures var s: Codes := front + Head(offset, operation, info) + rest;
            var index := |front| / 2;
            index < Count(s) && OffsetAt(s, index) == offset && OperationAt(s, index) == operation && InfoAt(s, index) == info
  {
  }

  /** The operation at an index is this one, with its position, and takes that many slots. */
  predicate Holds(s: Codes, version: nat, index: nat, code: Code, slots: nat) {
    && index < Count(s) && 0 < SlotsAt(s, version, index) == slots <= Count(s) - index
    && OffsetAt(s, index) == code.offset && OpAt(s, version, index) == code.op
  }

  lemma SimpleHolds(front: Codes, w: Written, rest: Codes, version: nat)
    requires Writable(w) && (w.code.op.PushNonvol? || w.code.op.AllocSmall? || w.code.op.SetFrame? || w.code.op.PushMachframe?)
    ensures Holds(front + Slots(w) + rest, version, |front| / 2, w.code, 1) && |Slots(w)| == 2
  {
    hide Head, Load16, Load32, OffsetAt, OperationAt, InfoAt;
    var at := w.code.offset;
    match w.code.op
    case PushNonvol(number) => HeadReads(front, at, 0, number, rest);
    case AllocSmall(size) => HeadReads(front, at, 2, size / 8 - 1, rest);
    case SetFrame => HeadReads(front, at, 3, w.note, rest);
    case PushMachframe(errorCode) => HeadReads(front, at, 10, One(errorCode), rest);
  }

  lemma AllocLargeHolds(front: Codes, at: uint8, size: nat, far: bool, note: nat, rest: Codes, version: nat)
    requires Writable(Written(Code(at, AllocLarge(size)), far, note))
    ensures var w := Written(Code(at, AllocLarge(size)), far, note);
            Holds(front + Slots(w) + rest, version, |front| / 2, w.code, if far then 3 else 2) && |Slots(w)| == if far then 6 else 4
  {
    hide Head, Load16, Load32, OffsetAt, OperationAt, InfoAt;
    OperandDecodes(front, at, 1, One(far), size, 8, far, rest);
  }

  lemma SaveNonvolHolds(front: Codes, at: uint8, number: nat, offset: nat, far: bool, note: nat, rest: Codes, version: nat)
    requires Writable(Written(Code(at, SaveNonvol(number, offset)), far, note))
    ensures var w := Written(Code(at, SaveNonvol(number, offset)), far, note);
            Holds(front + Slots(w) + rest, version, |front| / 2, w.code, if far then 3 else 2) && |Slots(w)| == if far then 6 else 4
  {
    hide Head, Load16, Load32, OffsetAt, OperationAt, InfoAt;
    OperandDecodes(front, at, if far then 5 else 4, number, offset, 8, far, rest);
  }

  lemma SaveXmmHolds(front: Codes, at: uint8, number: nat, offset: nat, far: bool, note: nat, rest: Codes, version: nat)
    requires Writable(Written(Code(at, SaveXmm(number, offset)), far, note))
    ensures var w := Written(Code(at, SaveXmm(number, offset)), far, note);
            Holds(front + Slots(w) + rest, version, |front| / 2, w.code, if far then 3 else 2) && |Slots(w)| == if far then 6 else 4
  {
    hide Head, Load16, Load32, OffsetAt, OperationAt, InfoAt;
    OperandDecodes(front, at, if far then 9 else 8, number, offset, 16, far, rest);
  }

  /** Whatever stands before and after, the slots of an operation decode to it. */
  lemma SlotsDecode(front: Codes, w: Written, rest: Codes, version: nat)
    requires Writable(w)
    ensures Holds(front + Slots(w) + rest, version, |front| / 2, w.code, |Slots(w)| / 2)
  {
    hide Holds, Slots;
    match w.code.op
    case AllocLarge(size) => AllocLargeHolds(front, w.code.offset, size, w.far, w.note, rest, version);
    case SaveNonvol(number, offset) => SaveNonvolHolds(front, w.code.offset, number, offset, w.far, w.note, rest, version);
    case SaveXmm(number, offset) => SaveXmmHolds(front, w.code.offset, number, offset, w.far, w.note, rest, version);
    case _ => SimpleHolds(front, w, rest, version);
  }

  lemma OperandDecodes(front: Codes, at: uint8, operation: nat, info: nat, v: nat, scale: nat, far: bool, rest: Codes)
    requires operation < 16 && info < 16 && scale > 0
    requires if far then v < TWO_32 else v % scale == 0 && v / scale < 0x1_0000
    ensures var s: Codes := front + (Head(at, operation, info) + Operand(v, scale, far)) + rest;
            var index := |front| / 2;
            && index < Count(s) && OffsetAt(s, index) == at && OperationAt(s, index) == operation && InfoAt(s, index) == info
            && |s| >= |front| + 2 + (if far then 4 else 2)
            && (if far then Load32(s[2 * index + 2..2 * index + 6]) == v else Load16(s[2 * index + 2..2 * index + 4]) == v / scale)
  {
    hide Head, Load16, Load32;
    var operand := Operand(v, scale, far);
    var s: Codes := front + (Head(at, operation, info) + operand) + rest;
    assert s == front + Head(at, operation, info) + (operand + rest);
    HeadReads(front, at, operation, info, operand + rest);
    assert s == (front + Head(at, operation, info)) + operand + rest;
    OperandReads(front + Head(at, operation, info), v, scale, far, rest);
  }

  /** A written code array walks exactly and decodes to the codes it was written for. */
  lemma {:induction false} CodesDecode(front: Codes, ws: seq<Written>, version: nat)
    requires AllWritable(ws)
    ensures var s: Codes := front + WriteCodes(ws);
            Walks(s, version, |front| / 2) && Decode(s, version, |front| / 2) == CodesOf(ws)
    decreases |ws|
  {
    hide Slots, OpAt, SlotsAt, OffsetAt;
    var s: Codes := front + WriteCodes(ws);
    if ws != [] {
      var first, rest := Slots(ws[0]), WriteCodes(ws[1..]);
      assert s == front + first + rest && s == (front + first) + rest;
      SlotsDecode(front, ws[0], rest, version);
      CodesDecode(front + first, ws[1..], version);
    }
  }

  lemma WrittenCodesDecode(ws: seq<Written>, version: nat)
    requires AllWritable(ws)
    ensures Walks(WriteCodes(ws), version, 0) && Decode(WriteCodes(ws), version, 0) == CodesOf(ws)
  {
    hide Walks, Decode, WriteCodes, CodesOf, Writable;
    CodesDecode([], ws, version);
    assert [] + WriteCodes(ws) == WriteCodes(ws);
  }

  /** From instructions to slots and back to the caller: a prologue's written codes undo it at every boundary. */
  lemma WrittenPrologueUnwinds(frame: Frame, stack: Bounds, caller: Cpu, before: Memory, steps: seq<Step>, k: nat,
                               ws: seq<Written>, version: nat, frameRegister: nat, inPrologue: bool, offset: nat,
                               cpu: Cpu, memory: Memory)
    returns (restored: Cpu)
    requires AllWritable(ws) && DescribesAll(CodesOf(ws), steps) && WellOrdered(CodesOf(ws))
    requires frame.Valid() && (frameRegister == frame.number || (frameRegister == 0 && !SetsFrame(CodesOf(ws))))
    requires Boundary(steps, k, inPrologue, offset)
    requires LegalRun(frame, stack, Entry(caller, before), steps[..k])
    requires Resumes(frame, Run(frame, stack, Entry(caller, before), steps[..k]), cpu, memory)
    ensures Walks(WriteCodes(ws), version, 0)
    ensures UnwindRecord(Decode(WriteCodes(ws), version, 0), frameRegister, frame.offset, false, inPrologue, offset,
                         Unwound(cpu, false), stack, memory) == Ok(Unwound(restored, false))
    ensures SameNonvolatile(restored, caller)
  {
    hide DescribesAll, LegalRun, Run, Resumes, UnwindRecord;
    WrittenCodesDecode(ws, version);
    restored := UnwindInvertsPrologue(frame, stack, caller, before, steps, k, [], CodesOf(ws), frameRegister, inPrologue, offset, cpu, memory);
    assert [] + CodesOf(ws) == CodesOf(ws);
  }

  // Records

  /** The bytes of a record: header, codes and padding to an even number of slots. */
  function WriteRecord(version: nat, flags: nat, prologueSize: uint8, frameRegister: nat, frameOffset: nat, codes: Codes): seq<uint8>
    requires version < 8 && flags < 32 && frameRegister < 16 && frameOffset < 16 && Count(codes) < 256
  {
    [version + 8 * flags, prologueSize, Count(codes), frameRegister + 16 * frameOffset] + codes + (if Count(codes) % 2 == 0 then [] else [0, 0])
  }

  /** A written record reads back with every field, wherever it stands in a module. */
  lemma RecordReadsBack(m: LoadedModule, rva: nat, version: nat, flags: nat, prologueSize: uint8, frameRegister: nat, frameOffset: nat,
                        codes: Codes, validated: Validated)
    requires (version == 1 || version == 2) && FlagsAreValid(flags) && frameOffset < 16 && FrameFieldsAreValid(frameRegister, frameOffset)
    requires frameRegister < 16 && Count(codes) < 256
    requires Validate(codes, version, prologueSize, frameRegister, frameOffset) == Some(validated)
    requires m.isPe && |m.bytes| == m.imageSize && rva % 4 == 0
    requires var record := WriteRecord(version, flags, prologueSize, frameRegister, frameOffset, codes);
             rva + |record| <= |m.bytes| && m.bytes[rva..rva + |record|] == record
    ensures ReadRecord(m, rva) ==
            Some(Record(version, flags, prologueSize, frameRegister, frameOffset, codes, RecordSize(Count(codes)),
                        rva + RecordSize(Count(codes)), validated.hasFrameSetup, validated.epilogues))
  {
    hide Validate, Load;
    var record, n := WriteRecord(version, flags, prologueSize, frameRegister, frameOffset, codes), Count(codes);
    assert |record| == RecordSize(n);
    HeaderReads(m.bytes, rva, record);
    FieldsRead(version, flags, prologueSize, frameRegister, frameOffset, codes);
  }

  lemma HeaderReads(bytes: seq<uint8>, rva: nat, record: seq<uint8>)
    requires 4 <= |record| && rva + |record| <= |bytes| && bytes[rva..rva + |record|] == record
    ensures bytes[rva..rva + 4] == record[..4]
  {
    assert record[..4] == bytes[rva..rva + |record|][..4];
  }

  lemma FieldsRead(version: nat, flags: nat, prologueSize: uint8, frameRegister: nat, frameOffset: nat, codes: Codes)
    requires version < 8 && flags < 32 && frameRegister < 16 && frameOffset < 16 && Count(codes) < 256
    ensures var record := WriteRecord(version, flags, prologueSize, frameRegister, frameOffset, codes);
            && |record| >= 4 + 2 * Count(codes) && record[4..4 + 2 * Count(codes)] == codes
            && record[0] % 8 == version && record[0] / 8 == flags && record[1] == prologueSize && record[2] == Count(codes)
            && record[3] % 16 == frameRegister && record[3] / 16 == frameOffset
  {
  }
}
