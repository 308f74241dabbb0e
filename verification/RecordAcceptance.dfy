/**
 * Which bytes are an unwind record: exactly those an assembler may write under the
 * rules of the format, spelled out here with its own numbers.
 */
module RecordAcceptance {
  import opened Bytes
  import opened Context
  import opened UnwindCodes
  import opened UnwindImage
  import opened UnwindEncoding

  // The operations

  /** RBX, RBP, RSI, RDI and R12 to R15. */
  predicate KeptInteger(number: nat) {
    number in {3, 5, 6, 7, 12, 13, 14, 15}
  }

  /** XMM6 to XMM15. */
  predicate KeptXmm(number: nat) {
    number in {6, 7, 8, 9, 10, 11, 12, 13, 14, 15}
  }

  /** What the format allows one operation of a record with this prologue and frame to say. */
  predicate Allowed(w: Written, prologueSize: nat, frameRegister: nat, frameOffset: nat) {
    && Writable(w) && w.code.offset <= prologueSize
    && match w.code.op
       case PushNonvol(number) => KeptInteger(number)
       case SaveNonvol(number, offset) => KeptInteger(number) && offset % 8 == 0
       case SaveXmm(number, offset) => KeptXmm(number) && offset % 16 == 0
       case SetFrame => frameRegister != 0 && (w.note == 0 || w.note == frameOffset)
       case _ => true
  }

  /** The same, and last instruction first, with at most one frame set-up. */
  predicate Orderly(ws: seq<Written>, prologueSize: nat, frameRegister: nat, frameOffset: nat) {
    && (forall k :: 0 <= k < |ws| ==> Allowed(ws[k], prologueSize, frameRegister, frameOffset))
    && (forall j, k :: 0 <= j < k < |ws| ==> ws[k].code.offset <= ws[j].code.offset)
    && (forall j, k :: 0 <= j < k < |ws| ==> !(ws[j].code.op == SetFrame && ws[k].code.op == SetFrame))
  }

  predicate SetsUp(ws: seq<Written>) {
    exists k :: 0 <= k < |ws| && ws[k].code.op == SetFrame
  }

  /** A list that may follow an operation at this position, with or without a frame set-up before. */
  predicate After(ws: seq<Written>, prologueSize: nat, frameRegister: nat, frameOffset: nat, previous: nat, found: bool) {
    && Orderly(ws, prologueSize, frameRegister, frameOffset)
    && (ws != [] ==> ws[0].code.offset <= previous) && (found ==> !SetsUp(ws))
  }

  lemma AfterCons(w: Written, rest: seq<Written>, prologueSize: nat, frameRegister: nat, frameOffset: nat, previous: nat, found: bool)
    ensures After([w] + rest, prologueSize, frameRegister, frameOffset, previous, found) <==>
            && Allowed(w, prologueSize, frameRegister, frameOffset) && w.code.offset <= previous && !(found && w.code.op == SetFrame)
            && After(rest, prologueSize, frameRegister, frameOffset, w.code.offset, found || w.code.op == SetFrame)
    ensures SetsUp([w] + rest) <==> w.code.op == SetFrame || SetsUp(rest)
  {
    hide Allowed;
    var all := [w] + rest;
    assert all[0] == w && forall k :: 0 <= k < |rest| ==> rest[k] == all[k + 1];
    SetsUpCons(w, rest);
    if Orderly(rest, prologueSize, frameRegister, frameOffset) && Allowed(w, prologueSize, frameRegister, frameOffset)
       && (rest != [] ==> rest[0].code.offset <= w.code.offset) && (w.code.op == SetFrame ==> !SetsUp(rest))
    {
      OrderlyCons(w, rest, prologueSize, frameRegister, frameOffset);
    }
    if Orderly(all, prologueSize, frameRegister, frameOffset) {
      OrderlyTail(w, rest, prologueSize, frameRegister, frameOffset);
    }
  }

  lemma SetsUpCons(w: Written, rest: seq<Written>)
    ensures SetsUp([w] + rest) <==> w.code.op == SetFrame || SetsUp(rest)
  {
    var all := [w] + rest;
    assert forall k :: 0 < k < |all| ==> all[k] == rest[k - 1];
    if w.code.op == SetFrame {
      assert all[0].code.op == SetFrame;
    }
    if SetsUp(rest) {
      var k :| 0 <= k < |rest| && rest[k].code.op == SetFrame;
      assert all[k + 1].code.op == SetFrame;
    }
  }

  lemma OrderlyCons(w: Written, rest: seq<Written>, prologueSize: nat, frameRegister: nat, frameOffset: nat)
    requires Orderly(rest, prologueSize, frameRegister, frameOffset) && Allowed(w, prologueSize, frameRegister, frameOffset)
    requires (rest != [] ==> rest[0].code.offset <= w.code.offset) && (w.code.op == SetFrame ==> !SetsUp(rest))
    ensures Orderly([w] + rest, prologueSize, frameRegister, frameOffset)
  {
    hide Allowed;
    var all := [w] + rest;
    assert forall k :: 0 < k < |all| ==> all[k] == rest[k - 1];
  }

  lemma OrderlyTail(w: Written, rest: seq<Written>, prologueSize: nat, frameRegister: nat, frameOffset: nat)
    requires Orderly([w] + rest, prologueSize, frameRegister, frameOffset)
    ensures Orderly(rest, prologueSize, frameRegister, frameOffset) && Allowed(w, prologueSize, frameRegister, frameOffset)
    ensures (rest != [] ==> rest[0].code.offset <= w.code.offset) && (w.code.op == SetFrame ==> !SetsUp(rest))
  {
    hide Allowed;
    var all := [w] + rest;
    assert all[0] == w && forall k :: 0 <= k < |rest| ==> rest[k] == all[k + 1];
  }

  // One operation

  /** The spare bits an operation leaves to its meaning. */
  predicate NotedAt(s: Codes, index: nat, w: Written)
    requires index < Count(s)
  {
    && (w.code.op == SetFrame ==> InfoAt(s, index) == w.note)
    && (w.code.op.PushMachframe? ==> InfoAt(s, index) == One(w.code.op.errorCode))
  }

  lemma HeadOf(front: Codes, w: Written, rest: Codes)
    requires Writable(w)
    ensures var s: Codes := front + Slots(w) + rest;
            var index := |front| / 2;
            index < Count(s) && 2 * index == |front| && NotedAt(s, index, w)
    ensures var s: Codes := front + Slots(w) + rest;
            s[|front|..|front| + |Slots(w)|] == Slots(w)
  {
    hide Operand;
  }

  /** The validator's tests on a written operation are the format's. */
  lemma AcceptableIffAllowed(s: Codes, w: Written, version: nat, prologueSize: nat, frameRegister: nat, frameOffset: nat, index: nat,
                             previous: nat, found: bool)
    requires Writable(w) && Holds(s, version, index, w.code, |Slots(w)| / 2)
    requires NotedAt(s, index, w)
    ensures Acceptable(s, version, prologueSize, frameRegister, frameOffset, index, previous, found) <==>
            && Allowed(w, prologueSize, frameRegister, frameOffset) && w.code.offset <= previous && !(found && w.code.op == SetFrame)
    ensures OperationAt(s, index) == SET_FPREG <==> w.code.op == SetFrame
  {
    hide Load16, Load32, Head, Store;
  }

  /** An accepted operation's bytes are some written operation's. */
  lemma AcceptableIsWritten(s: Codes, version: nat, prologueSize: nat, frameRegister: nat, frameOffset: nat, index: nat, previous: nat, found: bool)
    returns (w: Written)
    requires index < Count(s) && Acceptable(s, version, prologueSize, frameRegister, frameOffset, index, previous, found)
    ensures Writable(w) && s[2 * index..2 * (index + SlotsAt(s, version, index))] == Slots(w)
  {
    hide Load, Load16, Load32, Store;
    var slots, operation, info := SlotsAt(s, version, index), OperationAt(s, index), InfoAt(s, index);
    var far := slots == 3;
    w := Written(Code(OffsetAt(s, index), OpAt(s, version, index)), far, if operation == SET_FPREG then info else 0);
    var head, operand := s[2 * index..2 * index + 2], s[2 * index + 2..2 * (index + slots)];
    assert s[2 * index..2 * (index + slots)] == head + operand;
    assert head == Head(OffsetAt(s, index), operation, info);
    if slots == 1 {
      assert operand == [] && Slots(w) == head;
    } else if slots == 2 {
      TwoStored(operand);
      assert operation == ALLOC_LARGE || operation == SAVE_NONVOL || operation == SAVE_XMM128;
      ScaledBack(Load16(operand), if operation == SAVE_XMM128 then 16 else 8);
      assert Slots(w) == head + operand;
    } else {
      FourStored(operand);
      assert Slots(w) == head + operand;
    }
    assert Writable(w);
  }

  lemma ScaledBack(v: nat, scale: nat)
    requires scale == 8 || scale == 16
    ensures v * scale / scale == v && v * scale % scale == 0
  {
  }

  lemma TwoStored(s: seq<uint8>)
    requires |s| == 2
    ensures Store(Load16(s), 2) == s
  {
    StoreLoad(s);
  }

  lemma FourStored(s: seq<uint8>)
    requires |s| == 4
    ensures Store(Load32(s), 4) == s
  {
    StoreLoad(s);
  }

  // A whole list

  lemma {:induction false} CheckedIfWritten(front: Codes, ws: seq<Written>, version: nat, prologueSize: nat, frameRegister: nat,
                                            frameOffset: nat, previous: nat, found: bool)
    requires AllWritable(ws) && After(ws, prologueSize, frameRegister, frameOffset, previous, found)
    ensures CheckFrom(front + WriteCodes(ws), version, prologueSize, frameRegister, frameOffset, |front| / 2, previous, found)
         == Some(found || SetsUp(ws))
    decreases |ws|
  {
    hide Slots, OpAt, Acceptable, After, OperationSlots, Allowed, SetsUp, InfoAt, NotedAt, WriteCodes, CheckFrom;
    var s: Codes, index := front + WriteCodes(ws), |front| / 2;
    if ws != [] {
      var w, rest := ws[0], WriteCodes(ws[1..]);
      var slots, found' := Slots(w), found || w.code.op == SetFrame;
      FirstWritten(front, ws);
      assert ws == [w] + ws[1..];
      AfterCons(w, ws[1..], prologueSize, frameRegister, frameOffset, previous, found);
      SlotsDecode(front, w, rest, version);
      HeadOf(front, w, rest);
      AcceptableIffAllowed(s, w, version, prologueSize, frameRegister, frameOffset, index, previous, found);
      CheckStep(s, version, prologueSize, frameRegister, frameOffset, index, previous, found);
      CheckedIfWritten(front + slots, ws[1..], version, prologueSize, frameRegister, frameOffset, w.code.offset, found');
    } else {
      NothingWritten();
      NothingSetUp();
      NothingToCheck(s, version, prologueSize, frameRegister, frameOffset, previous, found);
    }
  }

  lemma CheckStep(s: Codes, version: nat, prologueSize: nat, frameRegister: nat, frameOffset: nat, index: nat, previous: nat, found: bool)
    requires index < Count(s) && Acceptable(s, version, prologueSize, frameRegister, frameOffset, index, previous, found)
    ensures index + SlotsAt(s, version, index) <= Count(s)
    ensures CheckFrom(s, version, prologueSize, frameRegister, frameOffset, index, previous, found)
         == CheckFrom(s, version, prologueSize, frameRegister, frameOffset, index + SlotsAt(s, version, index), OffsetAt(s, index),
                      found || OperationAt(s, index) == SET_FPREG)
  {
  }

  lemma NothingToCheck(s: Codes, version: nat, prologueSize: nat, frameRegister: nat, frameOffset: nat, previous: nat, found: bool)
    ensures CheckFrom(s, version, prologueSize, frameRegister, frameOffset, Count(s), previous, found) == Some(found)
  {
  }

  lemma FirstWritten(front: Codes, ws: seq<Written>)
    requires ws != [] && AllWritable(ws)
    ensures AllWritable(ws[1..])
    ensures var slots, rest := Slots(ws[0]), WriteCodes(ws[1..]);
            && front + WriteCodes(ws) == front + slots + rest
            && |front + slots| / 2 == |front| / 2 + |slots| / 2
  {
    hide Slots;
    FrontMoves(front, Slots(ws[0]), WriteCodes(ws[1..]));
  }

  lemma FrontMoves(front: Codes, slots: Codes, rest: Codes)
    ensures front + (slots + rest) == front + slots + rest && |front + slots| / 2 == |front| / 2 + |slots| / 2
  {
  }

  lemma NothingSetUp()
    ensures !SetsUp([])
  {
  }

  lemma {:induction false} CheckedIsWritten(s: Codes, version: nat, prologueSize: nat, frameRegister: nat, frameOffset: nat, index: nat,
                                            previous: nat, found: bool)
    returns (ws: seq<Written>)
    requires index <= Count(s)
    requires CheckFrom(s, version, prologueSize, frameRegister, frameOffset, index, previous, found).Some?
    ensures AllWritable(ws) && s[2 * index..] == WriteCodes(ws)
    ensures After(ws, prologueSize, frameRegister, frameOffset, previous, found)
    decreases Count(s) - index
  {
    hide Slots, OpAt, Acceptable, After, OperationSlots, Allowed, NotedAt;
    if index == Count(s) {
      ws := [];
      assert After(ws, prologueSize, frameRegister, frameOffset, previous, found) by { NothingAfter(prologueSize, frameRegister, frameOffset, previous, found); }
    } else {
      var next := index + SlotsAt(s, version, index);
      NextWithin(s, version, prologueSize, frameRegister, frameOffset, index, previous, found);
      var w := AcceptableIsWritten(s, version, prologueSize, frameRegister, frameOffset, index, previous, found);
      var front, rest := s[..2 * index], s[2 * next..];
      assert s == front + Slots(w) + rest;
      SlotsDecode(front, w, rest, version);
      HeadOf(front, w, rest);
      AcceptableIffAllowed(s, w, version, prologueSize, frameRegister, frameOffset, index, previous, found);
      var more := CheckedIsWritten(s, version, prologueSize, frameRegister, frameOffset, next, w.code.offset, found || w.code.op == SetFrame);
      ws := [w] + more;
      assert ws[1..] == more;
      AfterCons(w, more, prologueSize, frameRegister, frameOffset, previous, found);
      assert s[2 * index..] == Slots(w) + rest;
    }
  }

  lemma NothingAfter(prologueSize: nat, frameRegister: nat, frameOffset: nat, previous: nat, found: bool)
    ensures After([], prologueSize, frameRegister, frameOffset, previous, found)
  {
  }

  lemma NextWithin(s: Codes, version: nat, prologueSize: nat, frameRegister: nat, frameOffset: nat, index: nat, previous: nat, found: bool)
    requires index < Count(s) && Acceptable(s, version, prologueSize, frameRegister, frameOffset, index, previous, found)
    ensures 0 < SlotsAt(s, version, index) <= Count(s) - index
  {
  }

  // The descriptors of a version-2 record

  /** The epilogues a record declares: their size, a flag, their distances from the function's end, and padding. */
  datatype Declared = Declared(size: uint8, flags: nat, distances: seq<nat>, padded: bool)

  predicate Describable(d: Declared) {
    && d.size > 0 && d.flags <= 1
    && (forall k :: 0 <= k < |d.distances| ==> 0 < d.distances[k] < 0x1000)
    && (d.flags == 1 || d.distances != [])
    && (1 + |d.distances| + One(d.padded)) % 2 == 0
  }

  function Distances(ds: seq<nat>): (s: Codes)
    requires forall k :: 0 <= k < |ds| ==> ds[k] < 0x1000
    ensures |s| == 2 * |ds|
  {
    if ds == [] then [] else [ds[0] % 256, 6 + 16 * (ds[0] / 256)] + Distances(ds[1..])
  }

  function Descriptors(d: Option<Declared>): (s: Codes)
    requires d.Some? ==> Describable(d.value)
    ensures |s| == if d.None? then 0 else 2 * (1 + |d.value.distances| + One(d.value.padded))
  {
    if d.None? then []
    else [d.value.size, 6 + 16 * d.value.flags] + Distances(d.value.distances) + (if d.value.padded then [0, 6] else [])
  }

  /** What the record then says of its epilogues. */
  function InfoOf(d: Option<Declared>): EpilogueInfo
    requires d.Some? ==> Describable(d.value)
  {
    if d.None? then EpilogueInfo(false, false, 0, 0)
    else EpilogueInfo(true, d.value.flags == 1, d.value.size, |Descriptors(d)| / 2)
  }

  /** The operations that follow do not begin with a descriptor. */
  lemma NoDescriptorFirst(ws: seq<Written>)
    requires AllWritable(ws) && ws != []
    ensures Count(WriteCodes(ws)) > 0 && OperationAt(WriteCodes(ws), 0) != EPILOG
  {
    hide Operand;
  }

  predicate EndsDescriptors(rest: Codes) {
    Count(rest) == 0 || OperationAt(rest, 0) != EPILOG
  }

  lemma {:induction false} ScanIfWritten(front: Codes, ds: seq<nat>, padded: bool, rest: Codes, found: bool)
    requires forall k :: 0 <= k < |ds| ==> 0 < ds[k] < 0x1000
    requires padded || EndsDescriptors(rest)
    ensures var s: Codes := front + Distances(ds) + (if padded then [0, 6] else []) + rest;
            PrefixScan(s, |front| / 2, found) == (|front| / 2 + |ds| + One(padded), found || ds != [])
    decreases |ds|
  {
    hide OperationAt, Distance;
    var s: Codes := front + Distances(ds) + (if padded then [0, 6] else []) + rest;
    var index := |front| / 2;
    assert 2 * index == |front|;
    if ds == [] {
      assert s == front + ((if padded then [0, 6] else []) + rest);
      ScanEnds(front, padded, rest, found);
    } else {
      var head: Codes := [ds[0] % 256, 6 + 16 * (ds[0] / 256)];
      assert s == (front + head) + Distances(ds[1..]) + (if padded then [0, 6] else []) + rest;
      DescriptorReads(s, index, ds[0]);
      ScanIfWritten(front + head, ds[1..], padded, rest, true);
    }
  }

  lemma ScanEnds(front: Codes, padded: bool, rest: Codes, found: bool)
    requires padded || EndsDescriptors(rest)
    ensures var s: Codes := front + ((if padded then [0, 6] else []) + rest);
            PrefixScan(s, |front| / 2, found) == (|front| / 2 + One(padded), found)
  {
    var s: Codes := front + ((if padded then [0, 6] else []) + rest);
    var index := |front| / 2;
    assert 2 * index == |front|;
    if padded {
      assert s[2 * index] == 0 && s[2 * index + 1] == 6;
    } else if rest != [] {
      assert s[2 * index + 1] == rest[1];
    }
  }

  lemma DescriptorReads(s: Codes, index: nat, d: nat)
    requires index < Count(s) && d < 0x1000 && s[2 * index] == d % 256 && s[2 * index + 1] == 6 + 16 * (d / 256)
    ensures OperationAt(s, index) == EPILOG && Distance(s, index) == d
  {
  }

  lemma PrefixIfWritten(d: Option<Declared>, rest: Codes)
    requires (d.Some? ==> Describable(d.value)) && EndsDescriptors(rest)
    ensures ParsePrefix(Descriptors(d) + rest, 2) == Some(InfoOf(d))
  {
    hide PrefixScan, Distances, Distance, OperationAt, InfoAt;
    if d.None? {
      assert Descriptors(d) + rest == rest;
    } else {
      var v := d.value;
      var head: Codes := [v.size, 6 + 16 * v.flags];
      var s: Codes := Descriptors(d) + rest;
      assert s == head + Distances(v.distances) + (if v.padded then [0, 6] else []) + rest;
      HeadReads([], v.size, 6, v.flags, s[2..]);
      assert s == [] + Head(v.size, 6, v.flags) + s[2..];
      ScanIfWritten(head, v.distances, v.padded, rest, v.flags == 1);
      RestFollows(Descriptors(d), rest);
    }
  }

  lemma RestFollows(front: Codes, rest: Codes)
    requires EndsDescriptors(rest)
    ensures |front| / 2 == Count(front + rest) || OperationAt(front + rest, |front| / 2) != EPILOG
  {
    if rest != [] {
      assert (front + rest)[2 * (|front| / 2) + 1] == rest[1];
    }
  }

  lemma {:induction false} ScanIsWritten(s: Codes, index: nat, found: bool) returns (ds: seq<nat>, padded: bool)
    requires index <= Count(s)
    ensures forall k :: 0 <= k < |ds| ==> 0 < ds[k] < 0x1000
    ensures PrefixScan(s, index, found) == (index + |ds| + One(padded), found || ds != [])
    ensures s[2 * index..2 * PrefixScan(s, index, found).0] == Distances(ds) + (if padded then [0, 6] else [])
    decreases Count(s) - index
  {
    hide Distance, OperationAt;
    if index == Count(s) || OperationAt(s, index) != EPILOG {
      ds, padded := [], false;
    } else if Distance(s, index) == 0 {
      ds, padded := [], true;
      DescriptorIs(s, index, index + 1);
      assert s[2 * index + 2..2 * (index + 1)] == [];
    } else {
      var more;
      more, padded := ScanIsWritten(s, index + 1, true);
      ds := [Distance(s, index)] + more;
      assert ds[1..] == more;
      DescriptorIs(s, index, PrefixScan(s, index, found).0);
    }
  }

  lemma DescriptorIs(s: Codes, index: nat, end: nat)
    requires index < end <= Count(s) && OperationAt(s, index) == EPILOG
    ensures var d := Distance(s, index);
            d < 0x1000 && s[2 * index..2 * end] == [d % 256, 6 + 16 * (d / 256)] + s[2 * index + 2..2 * end]
  {
    var d := Distance(s, index);
    assert s[2 * index..2 * end] == s[2 * index..2 * index + 2] + s[2 * index + 2..2 * end];
    assert d % 256 == OffsetAt(s, index) && d / 256 == InfoAt(s, index);
    assert s[2 * index..2 * index + 2] == [d % 256, 6 + 16 * (d / 256)];
  }

  lemma PrefixIsWritten(s: Codes) returns (d: Option<Declared>)
    requires ParsePrefix(s, 2).Some?
    ensures d.Some? ==> Describable(d.value)
    ensures ParsePrefix(s, 2) == Some(InfoOf(d)) && |Descriptors(d)| <= |s|
    ensures s[..|Descriptors(d)|] == Descriptors(d)
  {
    hide PrefixScan, Distance, InfoAt, OperationAt, Distances;
    if Count(s) == 0 || OperationAt(s, 0) != EPILOG {
      d := None;
    } else {
      var flags := InfoAt(s, 0);
      var ds, padded := ScanIsWritten(s, 1, flags == 1);
      var end := PrefixScan(s, 1, flags == 1).0;
      d := Some(Declared(s[0], flags, ds, padded));
      assert |Distances(ds)| == 2 * |ds| && end == 1 + |ds| + One(padded);
      DescriptorsAre(s, end, d.value);
    }
  }

  lemma DescriptorsAre(s: Codes, end: nat, d: Declared)
    requires 1 <= end <= Count(s) && Describable(d) && OffsetAt(s, 0) == d.size && OperationAt(s, 0) == 6 && InfoAt(s, 0) == d.flags
    requires s[2..2 * end] == Distances(d.distances) + (if d.padded then [0, 6] else [])
    ensures s[..2 * end] == Descriptors(Some(d))
  {
    assert s[..2 * end] == s[..2] + s[2..2 * end];
    assert s[..2] == [d.size, 6 + 16 * d.flags];
  }

  // A whole code array

  ghost predicate Proper(d: Option<Declared>, ws: seq<Written>, version: nat, prologueSize: nat, frameRegister: nat, frameOffset: nat) {
    && (d.Some? ==> version == 2 && Describable(d.value))
    && AllWritable(ws) && Orderly(ws, prologueSize, frameRegister, frameOffset)
  }

  function CodeBytes(d: Option<Declared>, ws: seq<Written>): Codes
    requires (d.Some? ==> Describable(d.value)) && AllWritable(ws)
  {
    Joined(Descriptors(d), WriteCodes(ws))
  }

  lemma AcceptedIfWritten(d: Option<Declared>, ws: seq<Written>, version: nat, prologueSize: nat, frameRegister: nat, frameOffset: nat)
    requires Proper(d, ws, version, prologueSize, frameRegister, frameOffset)
    ensures Validate(CodeBytes(d, ws), version, prologueSize, frameRegister, frameOffset) == Some(Validated(InfoOf(d), SetsUp(ws)))
  {
    hide Descriptors, WriteCodes, PrefixScan, Orderly, Describable, CheckFrom;
    var s := CodeBytes(d, ws);
    assert EndsDescriptors(WriteCodes(ws)) by {
      if ws != [] { NoDescriptorFirst(ws); } else { NothingWritten(); }
    }
    if version == 2 {
      PrefixIfWritten(d, WriteCodes(ws));
    }
    assert After(ws, prologueSize, frameRegister, frameOffset, 255, false);
    CheckedIfWritten(Descriptors(d), ws, version, prologueSize, frameRegister, frameOffset, 255, false);
  }

  lemma NothingWritten()
    ensures WriteCodes([]) == []
  {
  }

  /**
   * Any bytes whatever: the validator accepts them as the code array of a record if and
   * only if they are descriptors, in a version-2 record, and operations that the format
   * allows, and then it finds what they say of epilogues and of the frame.
   */
  lemma AcceptedIffWritten(s: Codes, version: nat, prologueSize: nat, frameRegister: nat, frameOffset: nat, v: Validated)
    ensures Validate(s, version, prologueSize, frameRegister, frameOffset) == Some(v) <==>
            exists d: Option<Declared>, ws: seq<Written> ::
              && Proper(d, ws, version, prologueSize, frameRegister, frameOffset)
              && s == CodeBytes(d, ws) && v == Validated(InfoOf(d), SetsUp(ws))
  {
    hide Descriptors, WriteCodes, PrefixScan, Orderly, Describable, CheckFrom, SetsUp, InfoOf;
    if Validate(s, version, prologueSize, frameRegister, frameOffset) == Some(v) {
      var d, ws := AcceptedIsWritten(s, version, prologueSize, frameRegister, frameOffset);
      AcceptedIfWritten(d, ws, version, prologueSize, frameRegister, frameOffset);
    }
    forall d: Option<Declared>, ws: seq<Written> |
        Proper(d, ws, version, prologueSize, frameRegister, frameOffset) && s == CodeBytes(d, ws) && v == Validated(InfoOf(d), SetsUp(ws))
      ensures Validate(s, version, prologueSize, frameRegister, frameOffset) == Some(v)
    {
      AcceptedIfWritten(d, ws, version, prologueSize, frameRegister, frameOffset);
    }
  }

  lemma AcceptedIsWritten(s: Codes, version: nat, prologueSize: nat, frameRegister: nat, frameOffset: nat)
    returns (d: Option<Declared>, ws: seq<Written>)
    requires Validate(s, version, prologueSize, frameRegister, frameOffset).Some?
    ensures Proper(d, ws, version, prologueSize, frameRegister, frameOffset) && s == CodeBytes(d, ws)
  {
    hide WriteCodes, PrefixScan, Orderly, Describable, CheckFrom, Distances;
    var info := ParsePrefix(s, version).value;
    PrefixMeaning(s, version);
    d := None;
    if version == 2 {
      d := PrefixIsWritten(s);
    }
    var first := info.codeSlots;
    assert 2 * first == |Descriptors(d)| && s[..2 * first] == Descriptors(d);
    ws := CheckedIsWritten(s, version, prologueSize, frameRegister, frameOffset, first, 255, false);
    assert s == s[..2 * first] + s[2 * first..];
  }

  // The whole record

  /** The layout of a record at an address, and the rules for its header. */
  predicate LaidOut(m: LoadedModule, rva: nat, r: Record) {
    var n := Count(r.codes);
    && m.isPe && |m.bytes| == m.imageSize && rva % 4 == 0
    && (r.version == 1 || r.version == 2) && r.flags in {0, 1, 2, 3, 4}
    && (r.frameRegister == 0 ==> r.frameOffset == 0) && (r.frameRegister != 0 ==> KeptInteger(r.frameRegister))
    && r.frameOffset < 16 && n < 256
    && r.size == 4 + 2 * n + 2 * (n % 2) && rva + r.size <= |m.bytes| && r.trailerRva == rva + r.size
    && m.bytes[rva..rva + 4] == [r.version + 8 * r.flags, r.prologueSize, n, r.frameRegister + 16 * r.frameOffset]
    && m.bytes[rva + 4..rva + 4 + 2 * n] == r.codes
  }

  /** Any bytes whatever: what is read at an address stands there in the format's layout, and anything else is refused. */
  lemma RecordIff(m: LoadedModule, rva: nat, r: Record)
    ensures ReadRecord(m, rva) == Some(r) <==>
            && LaidOut(m, rva, r)
            && Validate(r.codes, r.version, r.prologueSize, r.frameRegister, r.frameOffset) == Some(Validated(r.epilogues, r.hasFrameSetup))
  {
    if ReadRecord(m, rva) == Some(r) {
      ReadIsLaidOut(m, rva, r);
    }
    if LaidOut(m, rva, r) && Validate(r.codes, r.version, r.prologueSize, r.frameRegister, r.frameOffset) == Some(Validated(r.epilogues, r.hasFrameSetup)) {
      LaidOutIsRead(m, rva, r);
    }
  }

  lemma ReadIsLaidOut(m: LoadedModule, rva: nat, r: Record)
    requires ReadRecord(m, rva) == Some(r)
    ensures LaidOut(m, rva, r)
    ensures Validate(r.codes, r.version, r.prologueSize, r.frameRegister, r.frameOffset) == Some(Validated(r.epilogues, r.hasFrameSetup))
  {
    hide Validate;
    var header, n := m.bytes[rva..rva + 4], Count(r.codes);
    assert Window(m, rva, 4) == Some(header) && n == header[2];
    SubSlice(m.bytes, rva, rva + r.size, 4, 2 * n);
    HeaderOf(header, r.version, r.flags, r.frameRegister, r.frameOffset);
    FlagValues(r.flags);
    FrameValues(r.frameRegister);
  }

  lemma LaidOutIsRead(m: LoadedModule, rva: nat, r: Record)
    requires LaidOut(m, rva, r)
    requires Validate(r.codes, r.version, r.prologueSize, r.frameRegister, r.frameOffset) == Some(Validated(r.epilogues, r.hasFrameSetup))
    ensures ReadRecord(m, rva) == Some(r)
  {
    hide Validate;
    var header, n := m.bytes[rva..rva + 4], Count(r.codes);
    SubSlice(m.bytes, rva, rva + r.size, 4, 2 * n);
    FlagValues(r.flags);
    FrameValues(r.frameRegister);
    FieldsOf(header, r.version, r.flags, r.frameRegister, r.frameOffset);
  }

  lemma FlagValues(flags: nat)
    ensures FlagsAreValid(flags) <==> flags in {0, 1, 2, 3, 4}
  {
  }

  lemma FrameValues(number: nat)
    ensures NonvolatileInteger(number) <==> KeptInteger(number)
  {
  }

  lemma HeaderOf(header: seq<uint8>, version: nat, flags: nat, frameRegister: nat, frameOffset: nat)
    requires |header| == 4 && header[0] % 8 == version && header[0] / 8 == flags
    requires header[3] % 16 == frameRegister && header[3] / 16 == frameOffset
    ensures header == [version + 8 * flags, header[1], header[2], frameRegister + 16 * frameOffset]
  {
  }

  lemma FieldsOf(header: seq<uint8>, version: nat, flags: nat, frameRegister: nat, frameOffset: nat)
    requires |header| == 4 && version < 8 && flags < 32 && frameRegister < 16 && frameOffset < 16
    requires header[0] == version + 8 * flags && header[3] == frameRegister + 16 * frameOffset
    ensures header[0] % 8 == version && header[0] / 8 == flags && header[3] % 16 == frameRegister && header[3] / 16 == frameOffset
  {
  }
}
