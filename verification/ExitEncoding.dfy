/**
 * The machine code of an epilogue's end, as an assembler writes it: jumps to a target,
 * jumps through an operand, and the pops whose lengths a declared epilogue counts in.
 */
module ExitEncoding {
  import opened Bytes
  import opened Context
  import opened UnwindImage
  import V1 = UnwindV1
  import V2 = UnwindV2

  // Displacements

  /** The byte of a displacement, in two's complement. */
  function Short(d: int): uint8 {
    d % 0x100
  }

  function Near(d: int): (s: seq<uint8>)
    ensures |s| == 4
  {
    Store(d % 0x1_0000_0000, 4)
  }

  lemma ShortReadsBack(d: int)
    requires -0x80 <= d < 0x80
    ensures V1.Signed8(Short(d)) == d
  {
  }

  lemma NearReadsBack(d: int)
    requires -0x8000_0000 <= d < 0x8000_0000
    ensures V1.Signed32(Near(d)) == d
  {
    SpanValues();
    LoadStore(d % 0x1_0000_0000, 4);
  }

  // Direct jumps

  /** A jump at that RVA to another RVA: the short form reaches 128 bytes, the near form two gigabytes. */
  function Jump(at: nat, target: int, short: bool): (s: seq<uint8>)
    ensures |s| == if short then 2 else 5
  {
    if short then [0xeb, Short(target - (at + 2))] else [0xe9] + Near(target - (at + 5))
  }

  predicate Reaches(at: nat, target: int, short: bool) {
    if short then -0x80 <= target - (at + 2) < 0x80 else -0x8000_0000 <= target - (at + 5) < 0x8000_0000
  }

  /**
   * A jump written for a target is taken for the end of an epilogue exactly when the
   * target is not strictly inside the function: its first byte counts as outside.
   */
  lemma JumpLeavesIff(imageBase: uint64, entry: RuntimeFunction, at: nat, target: int, short: bool)
    requires Reaches(at, target, short) && at + 5 <= entry.end
    requires 0 <= imageBase + target < TWO_64 && imageBase + entry.end < TWO_64 && entry.begin < entry.end
    ensures V1.IsTransfer(Jump(at, target, short), imageBase, at, entry) <==> !(entry.begin < target < entry.end)
  {
    hide V1.Signed8, V1.Signed32, V1.IndirectJumpSize, Near, Short;
    var jump := Jump(at, target, short);
    var d := target - (at + |jump|);
    if short {
      ShortReadsBack(d);
    } else {
      NearReadsBack(d);
      assert jump[1..] == Near(d);
    }
    LeavesIff(imageBase, entry, at + |jump|, d);
  }

  lemma LeavesIff(imageBase: uint64, entry: RuntimeFunction, next: nat, d: int)
    requires next <= entry.end && entry.begin < entry.end && imageBase + entry.end < TWO_64 && 0 <= imageBase + next + d < TWO_64
    ensures V1.LeavesFunction(imageBase, entry, next, d) <==> !(entry.begin < next + d < entry.end)
  {
  }

  // Jumps through an operand

  /** What a jump may go through: a register, or memory at a base, a scaled index, RIP or an absolute address. */
  datatype Operand =
    | Register(number: nat)
    | AtBase(base: nat, displacement: seq<uint8>)
    | AtRip(displacement: seq<uint8>)
    | AtIndex(base: nat, index: nat, displacement: seq<uint8>)     // index: scale and index register
    | AtIndexOnly(index: nat, displacement: seq<uint8>)

  /** The addressing modes of the instruction set: base 4 means an index follows, base 5 without displacement means RIP or no base. */
  predicate Addressable(o: Operand) {
    match o
    case Register(number) => number < 8
    case AtBase(base, displacement) => base < 8 && base != 4 && |displacement| in {0, 1, 4} && (displacement == [] ==> base != 5)
    case AtRip(displacement) => |displacement| == 4
    case AtIndex(base, index, displacement) => base < 8 && index < 32 && |displacement| in {0, 1, 4} && (displacement == [] ==> base != 5)
    case AtIndexOnly(index, displacement) => index < 32 && |displacement| == 4
  }

  function Mode(displacement: seq<uint8>): (mode: nat)
    ensures mode < 3
  {
    if displacement == [] then 0 else if |displacement| == 1 then 1 else 2
  }

  function ModRm(mode: nat, base: nat): uint8
    requires mode < 4 && base < 8
  {
    0x40 * mode + 0x20 + base
  }

  /** The operand of `jmp`, whose register field is 4. */
  function OperandBytes(o: Operand): (s: seq<uint8>)
    requires Addressable(o)
    ensures s != []
  {
    match o
    case Register(number) => [ModRm(3, number)]
    case AtBase(base, displacement) => [ModRm(Mode(displacement), base)] + displacement
    case AtRip(displacement) => [ModRm(0, 5)] + displacement
    case AtIndex(base, index, displacement) => [ModRm(Mode(displacement), 4), 8 * index + base] + displacement
    case AtIndexOnly(index, displacement) => [ModRm(0, 4), 8 * index + 5] + displacement
  }

  lemma OperandMeasured(head: seq<uint8>, o: Operand, tail: seq<uint8>)
    requires |head| == 2 && Addressable(o)
    ensures var code := head + OperandBytes(o) + tail;
            code[2] / 8 % 8 == 4 && V1.IndirectJumpSize(code) == Some(2 + |OperandBytes(o)|)
  {
    var code := head + OperandBytes(o) + tail;
    assert code[2] == OperandBytes(o)[0];
    if |OperandBytes(o)| > 1 {
      assert code[3] == OperandBytes(o)[1];
    }
  }

  lemma MeasuredIsOperand(code: seq<uint8>) returns (o: Operand)
    requires |code| >= 3 && code[2] / 8 % 8 == 4
    requires V1.IndirectJumpSize(code).Some? && V1.IndirectJumpSize(code).value <= |code|
    ensures Addressable(o) && OperandBytes(o) == code[2..V1.IndirectJumpSize(code).value]
  {
    var size := V1.IndirectJumpSize(code).value;
    var mode, base := code[2] / 64, code[2] % 8;
    assert code[2] == 64 * mode + 32 + base;
    if mode == 3 {
      o := Register(base);
      assert code[2..size] == [code[2]];
    } else if base != 4 {
      var displacement := code[3..size];
      o := if mode == 0 && base == 5 then AtRip(displacement) else AtBase(base, displacement);
      assert code[2..size] == [code[2]] + displacement;
    } else {
      var displacement := code[4..size];
      assert code[3] == 8 * (code[3] / 8) + code[3] % 8;
      o := if mode == 0 && code[3] % 8 == 5 then AtIndexOnly(code[3] / 8, displacement)
           else AtIndex(code[3] % 8, code[3] / 8, displacement);
      assert code[2..size] == [code[2], code[3]] + displacement;
    }
  }

  /** The size found for a jump through an operand is that of the one operand written there, if one is. */
  lemma JumpSizeIff(code: seq<uint8>, size: nat)
    requires |code| >= 3 && code[2] / 8 % 8 == 4 && 3 <= size <= |code|
    ensures V1.IndirectJumpSize(code) == Some(size) <==> exists o: Operand :: Addressable(o) && OperandBytes(o) == code[2..size]
  {
    hide V1.IndirectJumpSize;
    if V1.IndirectJumpSize(code) == Some(size) {
      var o := MeasuredIsOperand(code);
      assert Addressable(o) && OperandBytes(o) == code[2..size];
    }
    forall o: Operand | Addressable(o) && OperandBytes(o) == code[2..size]
      ensures V1.IndirectJumpSize(code) == Some(size)
    {
      OperandMeasured(code[..2], o, code[size..]);
      assert code == code[..2] + OperandBytes(o) + code[size..];
    }
  }

  /** Such a jump, with its REX.W prefix, always leaves the function. */
  lemma OperandJumpLeaves(rex: uint8, o: Operand, imageBase: uint64, cursor: nat, entry: RuntimeFunction)
    requires 0x48 <= rex <= 0x4f && Addressable(o)
    ensures V1.IsTransfer([rex, 0xff] + OperandBytes(o), imageBase, cursor, entry)
  {
    hide V1.IndirectJumpSize, V1.LeavesFunction;
    OperandMeasured([rex, 0xff], o, []);
    assert [rex, 0xff] + OperandBytes(o) + [] == [rex, 0xff] + OperandBytes(o);
  }

  // Pops

  /** The shortest encoding of a pop; R8 and above need a prefix. */
  function ShortestPop(number: nat): seq<uint8>
    requires number < 16
  {
    if number < 8 then [0x58 + number] else [0x41, 0x58 + number - 8]
  }

  /** A declared epilogue counts its pops in their shortest encoding. */
  lemma PopLengthIsShortest(number: nat, bytes: seq<uint8>, frameRegister: nat)
    requires number < 16
    ensures V1.Encodes(ShortestPop(number), V1.Pop(number), frameRegister) && |ShortestPop(number)| == V2.PopLength(number)
    ensures V1.Encodes(bytes, V1.Pop(number), frameRegister) ==> |bytes| >= V2.PopLength(number)
  {
  }
}
