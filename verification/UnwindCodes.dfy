/** The code array of an unwind record: its slots, its version-2 prefix and its validation. */
module UnwindCodes {
  import opened Bytes
  import opened Context

  const PUSH_NONVOL := 0
  const ALLOC_LARGE := 1
  const ALLOC_SMALL := 2
  const SET_FPREG := 3
  const SAVE_NONVOL := 4
  const SAVE_NONVOL_FAR := 5
  const EPILOG := 6
  const SAVE_XMM128 := 8
  const SAVE_XMM128_FAR := 9
  const PUSH_MACHFRAME := 10

  /** One decoded unwind operation. */
  datatype Op =
    | PushNonvol(number: nat)
    | AllocLarge(size: nat)
    | AllocSmall(size: nat)
    | SetFrame
    | SaveNonvol(number: nat, offset: nat)
    | SaveXmm(number: nat, offset: nat)
    | PushMachframe(errorCode: bool)
    | Epilog
    | Unknown

  datatype Code = Code(offset: uint8, op: Op)

  /** The code_count two-byte slots that follow the record header. */
  type Codes = s: seq<uint8> | |s| % 2 == 0

  function Count(codes: Codes): nat { |codes| / 2 }

  function OffsetAt(codes: Codes, index: nat): uint8
    requires index < Count(codes)
  {
    codes[2 * index]
  }

  function OperationAt(codes: Codes, index: nat): nat
    requires index < Count(codes)
  {
    codes[2 * index + 1] % 16
  }

  function InfoAt(codes: Codes, index: nat): (r: nat)
    requires index < Count(codes)
    ensures r < 16
  {
    codes[2 * index + 1] / 16
  }

  function OperationSlots(version: nat, operation: nat, info: nat): nat {
    if operation == PUSH_NONVOL || operation == ALLOC_SMALL || operation == SET_FPREG || operation == PUSH_MACHFRAME then 1
    else if operation == ALLOC_LARGE then (if info == 0 then 2 else if info == 1 then 3 else 0)
    else if operation == SAVE_NONVOL || operation == SAVE_XMM128 then 2
    else if operation == SAVE_NONVOL_FAR || operation == SAVE_XMM128_FAR then 3
    else if operation == EPILOG then (if version == 2 then 2 else 0)
    else 0
  }

  predicate OperationIsValid(operation: nat, info: nat) {
    if operation == PUSH_NONVOL || operation == SAVE_NONVOL || operation == SAVE_NONVOL_FAR then NonvolatileInteger(info)
    else if operation == ALLOC_LARGE || operation == PUSH_MACHFRAME then info <= 1
    else if operation == ALLOC_SMALL || operation == SET_FPREG then true
    else if operation == SAVE_XMM128 || operation == SAVE_XMM128_FAR then NonvolatileXmm(info)
    else false
  }

  function SlotsAt(codes: Codes, version: nat, index: nat): nat
    requires index < Count(codes)
  {
    OperationSlots(version, OperationAt(codes, index), InfoAt(codes, index))
  }

  /** Stepping from index by operation sizes never stalls, never leaves the codes and lands exactly on their end. */
  predicate Walks(codes: Codes, version: nat, index: nat)
    decreases Count(codes) - index
  {
    index == Count(codes) ||
    (index < Count(codes) && 0 < SlotsAt(codes, version, index) <= Count(codes) - index &&
     Walks(codes, version, index + SlotsAt(codes, version, index)))
  }

  function OpAt(codes: Codes, version: nat, index: nat): (op: Op)
    requires index < Count(codes)
    requires 0 < SlotsAt(codes, version, index) <= Count(codes) - index
  {
    var operation, info := OperationAt(codes, index), InfoAt(codes, index);
    var operand := 2 * index + 2;
    if operation == PUSH_NONVOL then PushNonvol(info)
    else if operation == ALLOC_LARGE then
      (if info == 0 then AllocLarge(Load16(codes[operand..operand + 2]) * 8)
       else AllocLarge(Load32(codes[operand..operand + 4])))
    else if operation == ALLOC_SMALL then AllocSmall(info * 8 + 8)
    else if operation == SET_FPREG then SetFrame
    else if operation == SAVE_NONVOL then SaveNonvol(info, Load16(codes[operand..operand + 2]) * 8)
    else if operation == SAVE_NONVOL_FAR then SaveNonvol(info, Load32(codes[operand..operand + 4]))
    else if operation == SAVE_XMM128 then SaveXmm(info, Load16(codes[operand..operand + 2]) * 16)
    else if operation == SAVE_XMM128_FAR then SaveXmm(info, Load32(codes[operand..operand + 4]))
    else if operation == PUSH_MACHFRAME then PushMachframe(info != 0)
    else if operation == EPILOG then Epilog
    else Unknown
  }

  /** The operations met when walking from index. */
  function Decode(codes: Codes, version: nat, index: nat): (r: seq<Code>)
    requires Walks(codes, version, index)
    decreases Count(codes) - index
  {
    if index == Count(codes) then []
    else [Code(OffsetAt(codes, index), OpAt(codes, version, index))] +
         Decode(codes, version, index + SlotsAt(codes, version, index))
  }

  // The version-2 epilogue prefix

  datatype EpilogueInfo = EpilogueInfo(present: bool, implicitAtEnd: bool, size: uint8, codeSlots: nat)

  const NO_EPILOGUES: EpilogueInfo := EpilogueInfo(false, false, 0, 0)

  /** The twelve-bit distance of an epilogue from the function end. */
  function Distance(codes: Codes, index: nat): nat
    requires index < Count(codes)
  {
    OffsetAt(codes, index) + 256 * InfoAt(codes, index)
  }

  /** Where the run of descriptors from index ends, and whether one of them is an epilogue. */
  function PrefixScan(codes: Codes, index: nat, found: bool): (r: (nat, bool))
    requires index <= Count(codes)
    ensures index <= r.0 <= Count(codes)
    decreases Count(codes) - index
  {
    if index == Count(codes) || OperationAt(codes, index) != EPILOG then (index, found)
    else if Distance(codes, index) == 0 then (index + 1, found)
    else PrefixScan(codes, index + 1, true)
  }

  function ParsePrefix(codes: Codes, version: nat): Option<EpilogueInfo> {
    if version != 2 || Count(codes) == 0 || OperationAt(codes, 0) != EPILOG then Some(NO_EPILOGUES)
    else
      var size, flags := OffsetAt(codes, 0), InfoAt(codes, 0);
      if size == 0 || flags > 1 then None
      else
        var (end, found) := PrefixScan(codes, 1, flags == 1);
        if !found || end % 2 != 0 || (end < Count(codes) && OperationAt(codes, end) == EPILOG) then None
        else Some(EpilogueInfo(true, flags == 1, size, end))
  }

  method ParseV2EpiloguePrefix(codes: Codes, version: nat) returns (info: Option<EpilogueInfo>)
    ensures info == ParsePrefix(codes, version)
  {
    var count := Count(codes);
    if version != 2 || count == 0 || codes[1] % 16 != EPILOG {
      return Some(NO_EPILOGUES);
    }
    var size, flags := codes[0], codes[1] / 16;
    if size == 0 || flags > 1 {
      return None;
    }
    var hasEpilogue := flags % 2 != 0;
    var index := 1;
    while index < count
      invariant 1 <= index <= count
      invariant PrefixScan(codes, index, hasEpilogue) == PrefixScan(codes, 1, flags == 1)
    {
      if OperationAt(codes, index) != EPILOG {
        break;
      }
      var distance := Distance(codes, index);
      index := index + 1;
      if distance == 0 {
        assert PrefixScan(codes, 1, flags == 1) == (index, hasEpilogue);
        if !hasEpilogue || index % 2 != 0 || (index < count && OperationAt(codes, index) == EPILOG) {
          return None;
        }
        return Some(EpilogueInfo(true, flags == 1, size, index));
      }
      hasEpilogue := true;
    }
    if !hasEpilogue || index % 2 != 0 || (index < count && OperationAt(codes, index) == EPILOG) {
      return None;
    }
    info := Some(EpilogueInfo(true, flags == 1, size, index));
  }

  lemma {:induction false} PrefixScanMeaning(codes: Codes, index: nat, found: bool)
    requires index <= Count(codes)
    ensures var (end, has) := PrefixScan(codes, index, found);
            && (forall k :: index <= k < end ==> OperationAt(codes, k) == EPILOG)
            && (forall k :: index <= k < end - 1 ==> Distance(codes, k) != 0)
            && (has <==> found || exists k :: index <= k < end && Distance(codes, k) != 0)
    decreases Count(codes) - index
  {
    if index == Count(codes) || OperationAt(codes, index) != EPILOG {
    } else if Distance(codes, index) == 0 {
    } else {
      PrefixScanMeaning(codes, index + 1, true);
    }
  }

  /**
   * An accepted prefix is a run of descriptors of even length, at least one of them
   * an epilogue, with zero-distance padding only in its last slot.
   */
  lemma PrefixMeaning(codes: Codes, version: nat)
    requires ParsePrefix(codes, version).Some?
    ensures var info := ParsePrefix(codes, version).value;
            && info.codeSlots <= Count(codes) && info.codeSlots % 2 == 0
            && (info.present <==> info.codeSlots > 0)
            && (info.present ==> version == 2 && info.size > 0)
            && (info.codeSlots < Count(codes) && version == 2 ==> OperationAt(codes, info.codeSlots) != EPILOG)
            && (forall k :: 0 <= k < info.codeSlots ==> OperationAt(codes, k) == EPILOG)
            && (forall k :: 1 <= k < info.codeSlots - 1 ==> Distance(codes, k) != 0)
            && (info.present ==> info.implicitAtEnd || exists k :: 1 <= k < info.codeSlots && Distance(codes, k) != 0)
  {
    var info := ParsePrefix(codes, version).value;
    if info.present {
      PrefixScanMeaning(codes, 1, InfoAt(codes, 0) == 1);
    }
  }

  // Validation of the operations

  /** The tests validate_unwind_codes makes on one operation. */
  predicate Acceptable(codes: Codes, version: nat, prologueSize: nat, frameRegister: nat, frameOffset: nat,
                       index: nat, previousOffset: nat, found: bool)
    requires index < Count(codes)
  {
    var operation, info := OperationAt(codes, index), InfoAt(codes, index);
    var slots := OperationSlots(version, operation, info);
    && operation != EPILOG
    && OffsetAt(codes, index) <= prologueSize
    && OffsetAt(codes, index) <= previousOffset
    && 0 < slots <= Count(codes) - index
    && OperationIsValid(operation, info)
    && (operation == SET_FPREG ==> frameRegister != 0 && !found && (info == 0 || info == frameOffset))
    && (operation == SAVE_NONVOL_FAR ==> Load32(codes[2 * index + 2..2 * index + 6]) % 8 == 0)
    && (operation == SAVE_XMM128_FAR ==> Load32(codes[2 * index + 2..2 * index + 6]) % 16 == 0)
  }

  /** Validation from index on; the answer is whether a frame set-up occurs. */
  function CheckFrom(codes: Codes, version: nat, prologueSize: nat, frameRegister: nat, frameOffset: nat,
                     index: nat, previousOffset: nat, found: bool): Option<bool>
    requires index <= Count(codes)
    decreases Count(codes) - index
  {
    if index == Count(codes) then Some(found)
    else if !Acceptable(codes, version, prologueSize, frameRegister, frameOffset, index, previousOffset, found) then None
    else CheckFrom(codes, version, prologueSize, frameRegister, frameOffset, index + SlotsAt(codes, version, index),
                   OffsetAt(codes, index), found || OperationAt(codes, index) == SET_FPREG)
  }

  datatype Validated = Validated(epilogues: EpilogueInfo, hasFrameSetup: bool)

  function Validate(codes: Codes, version: nat, prologueSize: nat, frameRegister: nat, frameOffset: nat): Option<Validated> {
    match ParsePrefix(codes, version)
    case None => None
    case Some(info) =>
      PrefixMeaning(codes, version);
      match CheckFrom(codes, version, prologueSize, frameRegister, frameOffset, info.codeSlots, 255, false)
      case None => None
      case Some(found) => Some(Validated(info, found))
  }

  method ValidateUnwindCodes(codes: Codes, version: nat, prologueSize: nat, frameRegister: nat, frameOffset: nat)
    returns (result: Option<Validated>)
    ensures result == Validate(codes, version, prologueSize, frameRegister, frameOffset)
  {
    var prefix := ParseV2EpiloguePrefix(codes, version);
    if prefix.None? {
      return None;
    }
    PrefixMeaning(codes, version);
    var index := prefix.value.codeSlots;
    var previousOffset: uint8 := 255;
    var foundFrameSetup := false;
    while index < Count(codes)
      invariant index <= Count(codes)
      invariant CheckFrom(codes, version, prologueSize, frameRegister, frameOffset, index, previousOffset, foundFrameSetup)
             == CheckFrom(codes, version, prologueSize, frameRegister, frameOffset, prefix.value.codeSlots, 255, false)
    {
      var codeOffset, operation, info := OffsetAt(codes, index), OperationAt(codes, index), InfoAt(codes, index);
      var slots := OperationSlots(version, operation, info);
      if operation == EPILOG || codeOffset > prologueSize || codeOffset > previousOffset || slots == 0 ||
         slots > Count(codes) - index || !OperationIsValid(operation, info)
      {
        return None;
      }
      if operation == SET_FPREG {
        if frameRegister == 0 || foundFrameSetup || (info != 0 && info != frameOffset) {
          return None;
        }
        foundFrameSetup := true;
      }
      if operation == SAVE_NONVOL_FAR && Load32(codes[2 * index + 2..2 * index + 6]) % 8 != 0 {
        return None;
      }
      if operation == SAVE_XMM128_FAR && Load32(codes[2 * index + 2..2 * index + 6]) % 16 != 0 {
        return None;
      }
      previousOffset := codeOffset;
      index := index + slots;
    }
    result := Some(Validated(prefix.value, foundFrameSetup));
  }

  // What validation guarantees to the later walks

  predicate OpIsSound(op: Op) {
    match op
    case PushNonvol(number) => NonvolatileInteger(number)
    case SaveNonvol(number, offset) => NonvolatileInteger(number) && offset % 8 == 0
    case SaveXmm(number, offset) => NonvolatileXmm(number) && offset % 16 == 0
    case AllocSmall(size) => 8 <= size <= 128 && size % 8 == 0
    case Epilog => false
    case Unknown => false
    case _ => true
  }

  /** Every operation is one the interpreter knows, with a sound operand, at most at the given position. */
  predicate AllSound(codes: seq<Code>, position: nat) {
    forall i :: 0 <= i < |codes| ==> codes[i].offset <= position && OpIsSound(codes[i].op)
  }

  /** Positions run backwards through the prologue and the frame is set up at most once. */
  predicate WellOrdered(codes: seq<Code>) {
    && (forall i, j :: 0 <= i < j < |codes| ==> codes[j].offset <= codes[i].offset)
    && (forall i, j :: 0 <= i < j < |codes| ==> !(codes[i].op == SetFrame && codes[j].op == SetFrame))
  }

  predicate SetsFrame(codes: seq<Code>) {
    exists i :: 0 <= i < |codes| && codes[i].op == SetFrame
  }

  lemma AcceptableIsSound(codes: Codes, version: nat, prologueSize: nat, frameRegister: nat, frameOffset: nat,
                          index: nat, previousOffset: nat, found: bool)
    requires index < Count(codes)
    requires Acceptable(codes, version, prologueSize, frameRegister, frameOffset, index, previousOffset, found)
    ensures OpIsSound(OpAt(codes, version, index))
    ensures OpAt(codes, version, index) == SetFrame <==> OperationAt(codes, index) == SET_FPREG
  {
  }

  lemma AllSoundCons(head: Code, rest: seq<Code>, position: nat, below: nat)
    requires AllSound(rest, below) && below <= position
    requires head.offset <= position && OpIsSound(head.op)
    ensures AllSound([head] + rest, position)
  {
    var all := [head] + rest;
    assert forall i :: 0 < i < |all| ==> all[i] == rest[i - 1];
  }

  lemma SetsFrameCons(head: Code, rest: seq<Code>)
    ensures SetsFrame([head] + rest) <==> head.op == SetFrame || SetsFrame(rest)
  {
    if head.op == SetFrame {
      assert ([head] + rest)[0].op == SetFrame;
    }
    if SetsFrame(rest) {
      var i :| 0 <= i < |rest| && rest[i].op == SetFrame;
      assert ([head] + rest)[i + 1].op == SetFrame;
    }
  }

  lemma WellOrderedCons(head: Code, rest: seq<Code>)
    requires WellOrdered(rest) && AllSound(rest, head.offset)
    requires head.op == SetFrame ==> !SetsFrame(rest)
    ensures WellOrdered([head] + rest)
  {
    var all := [head] + rest;
    assert forall i :: 0 < i < |all| ==> all[i] == rest[i - 1];
  }

  lemma DecodeStep(codes: Codes, version: nat, index: nat)
    requires index < Count(codes) && 0 < SlotsAt(codes, version, index) <= Count(codes) - index
    requires Walks(codes, version, index + SlotsAt(codes, version, index))
    ensures Walks(codes, version, index)
    ensures Decode(codes, version, index) == [Code(OffsetAt(codes, index), OpAt(codes, version, index))]
                                           + Decode(codes, version, index + SlotsAt(codes, version, index))
  {
  }

  lemma {:induction false} CheckedCodesAreSound(codes: Codes, version: nat, prologueSize: nat, frameRegister: nat,
                                                frameOffset: nat, index: nat, previousOffset: nat, found: bool)
    requires index <= Count(codes)
    requires CheckFrom(codes, version, prologueSize, frameRegister, frameOffset, index, previousOffset, found).Some?
    ensures Walks(codes, version, index)
    ensures AllSound(Decode(codes, version, index), if index < Count(codes) then OffsetAt(codes, index) else 0)
    ensures index < Count(codes) ==> OffsetAt(codes, index) <= prologueSize && OffsetAt(codes, index) <= previousOffset
    decreases Count(codes) - index
  {
    if index < Count(codes) {
      var next := index + SlotsAt(codes, version, index);
      var found' := found || OperationAt(codes, index) == SET_FPREG;
      var head := Code(OffsetAt(codes, index), OpAt(codes, version, index));
      CheckedCodesAreSound(codes, version, prologueSize, frameRegister, frameOffset, next, head.offset, found');
      AcceptableIsSound(codes, version, prologueSize, frameRegister, frameOffset, index, previousOffset, found);
      DecodeStep(codes, version, index);
      AllSoundCons(head, Decode(codes, version, next), head.offset, if next < Count(codes) then OffsetAt(codes, next) else 0);
    }
  }

  lemma {:induction false} CheckedCodesAreOrdered(codes: Codes, version: nat, prologueSize: nat, frameRegister: nat,
                                                  frameOffset: nat, index: nat, previousOffset: nat, found: bool)
    requires index <= Count(codes)
    requires CheckFrom(codes, version, prologueSize, frameRegister, frameOffset, index, previousOffset, found).Some?
    requires Walks(codes, version, index)
    ensures var ops := Decode(codes, version, index);
            && WellOrdered(ops)
            && (found ==> !SetsFrame(ops))
            && (SetsFrame(ops) ==> frameRegister != 0)
            && CheckFrom(codes, version, prologueSize, frameRegister, frameOffset, index, previousOffset, found).value
               == (found || SetsFrame(ops))
    decreases Count(codes) - index
  {
    if index < Count(codes) {
      var next := index + SlotsAt(codes, version, index);
      var found' := found || OperationAt(codes, index) == SET_FPREG;
      var head := Code(OffsetAt(codes, index), OpAt(codes, version, index));
      CheckedCodesAreSound(codes, version, prologueSize, frameRegister, frameOffset, next, head.offset, found');
      CheckedCodesAreOrdered(codes, version, prologueSize, frameRegister, frameOffset, next, head.offset, found');
      AcceptableIsSound(codes, version, prologueSize, frameRegister, frameOffset, index, previousOffset, found);
      DecodeStep(codes, version, index);
      var rest := Decode(codes, version, next);
      SetsFrameCons(head, rest);
      WellOrderedCons(head, rest);
    }
  }

  function Epilogs(codes: Codes, pairs: nat): (r: seq<Code>)
    requires 2 * pairs <= Count(codes)
    ensures |r| == pairs
  {
    seq(pairs, k requires 0 <= k < pairs => Code(OffsetAt(codes, 2 * k), Epilog))
  }

  lemma EpilogStep(codes: Codes, version: nat, index: nat)
    requires version == 2 && index + 2 <= Count(codes) && OperationAt(codes, index) == EPILOG
    requires Walks(codes, version, index + 2)
    ensures Walks(codes, version, index)
    ensures Decode(codes, version, index) == [Code(OffsetAt(codes, index), Epilog)] + Decode(codes, version, index + 2)
  {
    assert OpAt(codes, version, index) == Epilog;
  }

  lemma EpilogsSnoc(codes: Codes, pairs: nat, tail: seq<Code>)
    requires 0 < pairs && 2 * pairs <= Count(codes)
    ensures Epilogs(codes, pairs - 1) + ([Code(OffsetAt(codes, 2 * pairs - 2), Epilog)] + tail) == Epilogs(codes, pairs) + tail
  {
  }

  lemma {:induction false} PrefixWalksInPairs(codes: Codes, version: nat, pairs: nat, first: nat)
    requires version == 2 && first == 2 * pairs <= Count(codes)
    requires forall k :: 0 <= k < first ==> OperationAt(codes, k) == EPILOG
    requires Walks(codes, version, first)
    ensures Walks(codes, version, 0)
    ensures Decode(codes, version, 0) == Epilogs(codes, pairs) + Decode(codes, version, first)
  {
    var tail := Decode(codes, version, first);
    if pairs == 0 {
      assert Epilogs(codes, pairs) + tail == tail;
    } else {
      var last := first - 2;
      EpilogStep(codes, version, last);
      PrefixWalksInPairs(codes, version, pairs - 1, last);
      EpilogsSnoc(codes, pairs, tail);
    }
  }

  /**
   * After validation both walks, the one from the first operation and the one
   * from slot zero through the descriptor prefix in pairs, land exactly on the end
   * of the codes, and the second meets the first's operations after the prefix.
   */
  lemma ValidatedCodesWalk(codes: Codes, version: nat, prologueSize: nat, frameRegister: nat, frameOffset: nat)
    requires Validate(codes, version, prologueSize, frameRegister, frameOffset).Some?
    ensures var v := Validate(codes, version, prologueSize, frameRegister, frameOffset).value;
            var first := v.epilogues.codeSlots;
            && first % 2 == 0 && first <= Count(codes)
            && Walks(codes, version, first) && Walks(codes, version, 0)
            && Decode(codes, version, 0) == Epilogs(codes, first / 2) + Decode(codes, version, first)
            && AllSound(Decode(codes, version, first), prologueSize)
            && WellOrdered(Decode(codes, version, first))
            && (v.hasFrameSetup <==> SetsFrame(Decode(codes, version, first)))
            && (v.hasFrameSetup ==> frameRegister != 0)
  {
    hide OperationSlots, Acceptable, PrefixScan, OpAt;
    var v := Validate(codes, version, prologueSize, frameRegister, frameOffset).value;
    var first := v.epilogues.codeSlots;
    assert first % 2 == 0 && first <= Count(codes) && (first > 0 ==> version == 2) by {
      PrefixMeaning(codes, version);
    }
    CheckedCodesAreSound(codes, version, prologueSize, frameRegister, frameOffset, first, 255, false);
    CheckedCodesAreOrdered(codes, version, prologueSize, frameRegister, frameOffset, first, 255, false);
    if first > 0 {
      assert forall k :: 0 <= k < first ==> OperationAt(codes, k) == EPILOG by {
        PrefixMeaning(codes, version);
      }
      PrefixWalksInPairs(codes, version, first / 2, first);
    } else {
      assert Epilogs(codes, 0) + Decode(codes, version, 0) == Decode(codes, version, 0);
    }
  }
}
