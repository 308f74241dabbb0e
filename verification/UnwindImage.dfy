/** Exception directories, unwind records and their chains, as read from mapped images. */
module UnwindImage {
  import opened Bytes
  import opened Context
  import opened UnwindCodes

  const ENTRY_SIZE: nat := 12
  const MAX_CHAIN_DEPTH: nat := 32
  const EHANDLER: nat := 1
  const UHANDLER: nat := 2

  datatype RuntimeFunction = RuntimeFunction(begin: uint32, end: uint32, unwindData: uint32)

  /** A registered module; bytes is its mapping. Native modules have isPe false. */
  datatype LoadedModule = LoadedModule(isPe: bool, isAmd64Pe32Plus: bool, bytes: seq<uint8>, imageSize: uint32,
                                       loadBase: uint64, exceptionRva: uint32, exceptionSize: uint32)

  type Registry = seq<LoadedModule>

  function Window(m: LoadedModule, rva: nat, size: nat): (r: Option<seq<uint8>>)
    ensures r.Some? ==> |r.value| == size
  {
    if m.isPe && |m.bytes| == m.imageSize && rva + size <= |m.bytes| then Some(m.bytes[rva..rva + size]) else None
  }

  predicate RuntimeFunctionIsValid(m: LoadedModule, entry: RuntimeFunction) {
    && m.imageSize >= 4
    && entry.begin < entry.end <= m.imageSize
    && entry.unwindData != 0 && entry.unwindData % 4 == 0
    && entry.unwindData <= m.imageSize - 4
  }

  function ReadRuntimeFunction(source: seq<uint8>): RuntimeFunction
    requires |source| == ENTRY_SIZE
  {
    RuntimeFunction(Load32(source[..4]), Load32(source[4..8]), Load32(source[8..12]))
  }

  /** The bytes of the function table, a whole number of entries and not empty. */
  function ExceptionTable(m: LoadedModule): (r: Option<seq<uint8>>)
    ensures r.Some? ==> |r.value| % ENTRY_SIZE == 0 && |r.value| > 0
  {
    if !m.isPe || !m.isAmd64Pe32Plus || m.exceptionRva == 0 || m.exceptionSize == 0 || m.exceptionSize % ENTRY_SIZE != 0 then None
    else Window(m, m.exceptionRva, m.exceptionSize)
  }

  function EntryAt(table: seq<uint8>, index: nat): RuntimeFunction
    requires ENTRY_SIZE * (index + 1) <= |table|
  {
    ReadRuntimeFunction(table[ENTRY_SIZE * index..ENTRY_SIZE * (index + 1)])
  }

  /** runtime_entry_from_pointer; the entry pointer is its index in the table. */
  function EntryFromPointer(m: LoadedModule, index: nat): Option<RuntimeFunction> {
    match ExceptionTable(m)
    case None => None
    case Some(table) =>
      if ENTRY_SIZE * (index + 1) <= |table| && RuntimeFunctionIsValid(m, EntryAt(table, index))
      then Some(EntryAt(table, index)) else None
  }

  // Lookup by address

  predicate Owns(m: LoadedModule, address: uint64) {
    m.isPe && m.loadBase != 0 && m.loadBase <= address && address - m.loadBase < |m.bytes|
  }

  /** The first registered PE module whose mapping contains the address. */
  function ResolveAddress(registry: Registry, address: uint64): (r: Option<nat>)
    ensures r.Some? ==> r.value < |registry| && Owns(registry[r.value], address)
  {
    if address == 0 then None else ResolveFrom(registry, address, 0)
  }

  function ResolveFrom(registry: Registry, address: uint64, index: nat): (r: Option<nat>)
    requires index <= |registry|
    ensures r.Some? ==> index <= r.value < |registry| && Owns(registry[r.value], address)
    decreases |registry| - index
  {
    if index == |registry| then None
    else if Owns(registry[index], address) then Some(index)
    else ResolveFrom(registry, address, index + 1)
  }

  method ResolveModuleAddress(registry: Registry, address: uint64) returns (r: Option<nat>)
    ensures r == ResolveAddress(registry, address)
  {
    if address == 0 {
      return None;
    }
    var index := 0;
    while index < |registry|
      invariant index <= |registry|
      invariant ResolveFrom(registry, address, index) == ResolveFrom(registry, address, 0)
    {
      if Owns(registry[index], address) {
        return Some(index);
      }
      index := index + 1;
    }
    r := None;
  }

  datatype Lookup = Found(moduleIndex: nat, entryIndex: nat) | NoEntry | BadTable

  /** Scan the table: every entry must be valid and the ranges must not go back. */
  function ScanTable(m: LoadedModule, table: seq<uint8>, index: nat, previousEnd: nat, pc: nat, best: Option<nat>): Option<Option<nat>>
    requires |table| % ENTRY_SIZE == 0 && ENTRY_SIZE * index <= |table|
    decreases |table| - ENTRY_SIZE * index
  {
    if ENTRY_SIZE * index == |table| then Some(best)
    else
      var entry := EntryAt(table, index);
      if !RuntimeFunctionIsValid(m, entry) || entry.begin < previousEnd then None
      else ScanTable(m, table, index + 1, entry.end, pc, if entry.begin <= pc < entry.end then Some(index) else best)
  }

  function LookupFunction(registry: Registry, pc: uint64): Lookup {
    match ResolveAddress(registry, pc)
    case None => NoEntry
    case Some(i) =>
      var m := registry[i];
      match ExceptionTable(m)
      case None => NoEntry
      case Some(table) =>
        if pc - m.loadBase >= TWO_32 then NoEntry
        else
          match ScanTable(m, table, 0, 0, pc - m.loadBase, None)
          case None => BadTable
          case Some(None) => NoEntry
          case Some(Some(entryIndex)) => Found(i, entryIndex)
  }

  method LookupFunctionEntry(registry: Registry, pc: uint64) returns (r: Lookup)
    ensures r == LookupFunction(registry, pc)
  {
    var owner := ResolveModuleAddress(registry, pc);
    if owner.None? {
      return NoEntry;
    }
    var m := registry[owner.value];
    var table := ExceptionTable(m);
    if table.None? || pc - m.loadBase >= TWO_32 {
      return NoEntry;
    }
    hide EntryAt, RuntimeFunctionIsValid;
    var relativePc := pc - m.loadBase;
    var best: Option<nat> := None;
    var previousEnd: nat := 0;
    var index := 0;
    var count := |table.value| / ENTRY_SIZE;
    while index < count
      invariant index <= count && (index == 0 ==> previousEnd == 0)
      invariant ScanTable(m, table.value, index, previousEnd, relativePc, best)
             == ScanTable(m, table.value, 0, 0, relativePc, None)
    {
      var entry := EntryAt(table.value, index);
      if !RuntimeFunctionIsValid(m, entry) || (index != 0 && entry.begin < previousEnd) {
        assert ScanTable(m, table.value, index, previousEnd, relativePc, best) == None;
        return BadTable;
      }
      previousEnd := entry.end;
      if entry.begin <= relativePc < entry.end {
        best := Some(index);
      }
      index := index + 1;
    }
    r := if best.None? then NoEntry else Found(owner.value, best.value);
  }

  lemma {:induction false} ScanFindsContaining(m: LoadedModule, table: seq<uint8>, index: nat, previousEnd: nat, pc: nat, best: Option<nat>)
    requires |table| % ENTRY_SIZE == 0 && ENTRY_SIZE * index <= |table|
    ensures var r := ScanTable(m, table, index, previousEnd, pc, best);
            r.Some? && r.value.Some? && r.value != best ==>
              && ENTRY_SIZE * (r.value.value + 1) <= |table|
              && RuntimeFunctionIsValid(m, EntryAt(table, r.value.value))
              && EntryAt(table, r.value.value).begin <= pc < EntryAt(table, r.value.value).end
    decreases |table| - ENTRY_SIZE * index
  {
    if ENTRY_SIZE * index < |table| {
      var entry := EntryAt(table, index);
      if RuntimeFunctionIsValid(m, entry) && entry.begin >= previousEnd {
        ScanFindsContaining(m, table, index + 1, entry.end, pc, if entry.begin <= pc < entry.end then Some(index) else best);
      }
    }
  }

  /** A found entry is the valid table entry that contains the address. */
  lemma FoundEntryContains(registry: Registry, pc: uint64)
    requires LookupFunction(registry, pc).Found?
    ensures var f := LookupFunction(registry, pc);
            && ResolveAddress(registry, pc) == Some(f.moduleIndex)
            && f.moduleIndex < |registry| && registry[f.moduleIndex].loadBase <= pc
            && EntryFromPointer(registry[f.moduleIndex], f.entryIndex).Some?
            && var entry := EntryFromPointer(registry[f.moduleIndex], f.entryIndex).value;
               entry.begin <= pc - registry[f.moduleIndex].loadBase < entry.end
  {
    var f := LookupFunction(registry, pc);
    var m := registry[f.moduleIndex];
    ScanFindsContaining(m, ExceptionTable(m).value, 0, 0, pc - m.loadBase, None);
  }

  predicate Contains(table: seq<uint8>, index: nat, pc: nat)
    requires ENTRY_SIZE * (index + 1) <= |table|
  {
    EntryAt(table, index).begin <= pc < EntryAt(table, index).end
  }

  /** From an index on every entry is valid and none begins before the one before it ends. */
  predicate Follows(m: LoadedModule, table: seq<uint8>, k: nat, index: nat, previousEnd: nat)
    requires ENTRY_SIZE * (k + 1) <= |table| && index <= k
  {
    && RuntimeFunctionIsValid(m, EntryAt(table, k))
    && EntryAt(table, k).begin >= (if k == index then previousEnd else EntryAt(table, k - 1).end)
  }

  ghost predicate InOrder(m: LoadedModule, table: seq<uint8>, index: nat, previousEnd: nat) {
    forall k: nat :: index <= k && ENTRY_SIZE * (k + 1) <= |table| ==> Follows(m, table, k, index, previousEnd)
  }

  lemma {:induction false} InOrderAscends(m: LoadedModule, table: seq<uint8>, index: nat, previousEnd: nat, k: nat)
    requires |table| % ENTRY_SIZE == 0 && InOrder(m, table, index, previousEnd)
    requires index <= k && ENTRY_SIZE * (k + 1) <= |table|
    ensures EntryAt(table, k).begin >= previousEnd
    decreases k
  {
    hide EntryAt;
    assert Follows(m, table, k, index, previousEnd);
    if k > index {
      assert Follows(m, table, k - 1, index, previousEnd);
      InOrderAscends(m, table, index, previousEnd, k - 1);
    }
  }

  lemma InOrderStep(m: LoadedModule, table: seq<uint8>, index: nat, previousEnd: nat)
    requires |table| % ENTRY_SIZE == 0 && ENTRY_SIZE * (index + 1) <= |table|
    ensures InOrder(m, table, index, previousEnd) <==>
            (&& RuntimeFunctionIsValid(m, EntryAt(table, index)) && EntryAt(table, index).begin >= previousEnd
             && InOrder(m, table, index + 1, EntryAt(table, index).end))
  {
    hide EntryAt, RuntimeFunctionIsValid;
    var next, end := index + 1, EntryAt(table, index).end;
    if InOrder(m, table, index, previousEnd) {
      assert Follows(m, table, index, index, previousEnd);
      forall k: nat | next <= k && ENTRY_SIZE * (k + 1) <= |table|
        ensures Follows(m, table, k, next, end)
      {
        assert Follows(m, table, k, index, previousEnd);
      }
    }
    if Follows(m, table, index, index, previousEnd) && InOrder(m, table, next, end) {
      forall k: nat | index <= k && ENTRY_SIZE * (k + 1) <= |table|
        ensures Follows(m, table, k, index, previousEnd)
      {
        if k > index {
          assert Follows(m, table, k, next, end);
        }
      }
    }
  }

  lemma {:induction false} ScanMeaning(m: LoadedModule, table: seq<uint8>, index: nat, previousEnd: nat, pc: nat, best: Option<nat>)
    requires |table| % ENTRY_SIZE == 0 && ENTRY_SIZE * index <= |table|
    ensures ScanTable(m, table, index, previousEnd, pc, best).Some? <==> InOrder(m, table, index, previousEnd)
    ensures InOrder(m, table, index, previousEnd) ==>
              forall k: nat :: index <= k && ENTRY_SIZE * (k + 1) <= |table| && Contains(table, k, pc) ==>
                ScanTable(m, table, index, previousEnd, pc, best) == Some(Some(k))
    ensures InOrder(m, table, index, previousEnd) &&
            (forall k: nat :: index <= k && ENTRY_SIZE * (k + 1) <= |table| ==> !Contains(table, k, pc)) ==>
              ScanTable(m, table, index, previousEnd, pc, best) == Some(best)
    decreases |table| - ENTRY_SIZE * index
  {
    hide EntryAt, RuntimeFunctionIsValid, InOrder;
    if ENTRY_SIZE * index == |table| {
      assert InOrder(m, table, index, previousEnd) by { NothingLeft(m, table, index, previousEnd); }
    } else {
      InOrderStep(m, table, index, previousEnd);
      var entry := EntryAt(table, index);
      ScanMeaning(m, table, index + 1, entry.end, pc, if entry.begin <= pc < entry.end then Some(index) else best);
      if InOrder(m, table, index, previousEnd) && Contains(table, index, pc) {
        forall k: nat | index + 1 <= k && ENTRY_SIZE * (k + 1) <= |table|
          ensures !Contains(table, k, pc)
        {
          InOrderAscends(m, table, index + 1, entry.end, k);
        }
      }
    }
  }

  lemma NothingLeft(m: LoadedModule, table: seq<uint8>, index: nat, previousEnd: nat)
    requires |table| % ENTRY_SIZE == 0 && ENTRY_SIZE * index == |table|
    ensures InOrder(m, table, index, previousEnd)
  {
  }

  /**
   * In an orderly table an entry is found if and only if it contains the address, so at
   * most one does; a table out of order is refused whatever the address.
   */
  lemma LookupMeaning(registry: Registry, pc: uint64)
    requires ResolveAddress(registry, pc).Some?
    requires ExceptionTable(registry[ResolveAddress(registry, pc).value]).Some?
    requires pc - registry[ResolveAddress(registry, pc).value].loadBase < TWO_32
    ensures var i := ResolveAddress(registry, pc).value;
            var m, table := registry[i], ExceptionTable(registry[i]).value;
            && (LookupFunction(registry, pc) == BadTable <==> !InOrder(m, table, 0, 0))
            && (InOrder(m, table, 0, 0) ==> forall k: nat :: ENTRY_SIZE * (k + 1) <= |table| ==>
                  (LookupFunction(registry, pc) == Found(i, k) <==> Contains(table, k, pc - m.loadBase)))
  {
    hide EntryAt, RuntimeFunctionIsValid, InOrder, ExceptionTable;
    var i := ResolveAddress(registry, pc).value;
    var m, table := registry[i], ExceptionTable(registry[i]).value;
    ScanMeaning(m, table, 0, 0, pc - m.loadBase, None);
    ScanFindsContaining(m, table, 0, 0, pc - m.loadBase, None);
  }

  // Records

  datatype Record = Record(version: nat, flags: nat, prologueSize: uint8, frameRegister: nat, frameOffset: nat, codes: Codes,
                           size: nat, trailerRva: nat, hasFrameSetup: bool, epilogues: EpilogueInfo) {
    predicate Chained() { flags / 4 % 2 == 1 }
    predicate HasHandler() { flags % 4 != 0 }
  }

  predicate FlagsAreValid(flags: nat) {
    flags < 8 && (flags / 4 % 2 == 1 ==> flags % 4 == 0)
  }

  predicate FrameFieldsAreValid(frameRegister: nat, frameOffset: nat) {
    (frameRegister != 0 ==> NonvolatileInteger(frameRegister)) && (frameRegister == 0 ==> frameOffset == 0)
  }

  /** The size of a record: header, then the codes padded to an even number of slots. */
  function RecordSize(codeCount: nat): nat {
    4 + (codeCount + codeCount % 2) * 2
  }

  function ParseRecord(m: LoadedModule, rva: nat): Option<Record> {
    match Window(m, rva, 4)
    case None => None
    case Some(header) =>
      var version: nat, flags: nat := header[0] % 8, header[0] / 8;
      var prologueSize, codeCount: nat := header[1], header[2];
      var frameRegister: nat, frameOffset: nat := header[3] % 16, header[3] / 16;
      var size := RecordSize(codeCount);
      if !(version == 1 || version == 2) || !FlagsAreValid(flags) || !FrameFieldsAreValid(frameRegister, frameOffset) then None
      else match Window(m, rva, size)
        case None => None
        case Some(record) =>
          var codes := record[4..4 + 2 * codeCount];
          match Validate(codes, version, prologueSize, frameRegister, frameOffset)
          case None => None
          case Some(v) =>
            if rva + size >= TWO_32 then None
            else Some(Record(version, flags, prologueSize, frameRegister, frameOffset, codes, size, rva + size,
                             v.hasFrameSetup, v.epilogues))
  }

  function ReadRecord(m: LoadedModule, rva: nat): Option<Record> {
    if rva % 4 != 0 then None else ParseRecord(m, rva)
  }

  /** read_unwind_record, and the same checks repeated by the unwinder's own loop. */
  method ParseUnwindRecord(m: LoadedModule, rva: nat) returns (r: Option<Record>)
    ensures r == ParseRecord(m, rva)
  {
    var header := Window(m, rva, 4);
    if header.None? {
      return None;
    }
    var version: nat, flags: nat := header.value[0] % 8, header.value[0] / 8;
    var prologueSize, codeCount: nat := header.value[1], header.value[2];
    var frameRegister: nat, frameOffset: nat := header.value[3] % 16, header.value[3] / 16;
    var size := RecordSize(codeCount);
    var record := Window(m, rva, size);
    if (version != 1 && version != 2) || !FlagsAreValid(flags) || !FrameFieldsAreValid(frameRegister, frameOffset) || record.None? {
      return None;
    }
    var codes := record.value[4..4 + 2 * codeCount];
    var validated := ValidateUnwindCodes(codes, version, prologueSize, frameRegister, frameOffset);
    if validated.None? || rva + size >= TWO_32 {
      return None;
    }
    r := Some(Record(version, flags, prologueSize, frameRegister, frameOffset, codes, size, rva + size,
                     validated.value.hasFrameSetup, validated.value.epilogues));
  }

  lemma ParsedRecord(m: LoadedModule, rva: nat)
    requires ParseRecord(m, rva).Some?
    ensures var r := ParseRecord(m, rva).value;
            && (r.version == 1 || r.version == 2) && FlagsAreValid(r.flags)
            && FrameFieldsAreValid(r.frameRegister, r.frameOffset) && r.frameRegister < 16 && r.frameOffset < 16
            && Validate(r.codes, r.version, r.prologueSize, r.frameRegister, r.frameOffset)
               == Some(Validated(r.epilogues, r.hasFrameSetup))
            && r.trailerRva == rva + r.size
  {
    hide Validate;
  }

  /** A record whose codes passed validation; both walks over them are defined. */
  predicate Sound(r: Record) {
    && Validate(r.codes, r.version, r.prologueSize, r.frameRegister, r.frameOffset) == Some(Validated(r.epilogues, r.hasFrameSetup))
    && r.frameRegister < 16 && r.frameOffset < 16
    && FrameFieldsAreValid(r.frameRegister, r.frameOffset)
    && (r.version == 1 || r.version == 2)
  }

  /** Every operation of a record, descriptors included. */
  function Ops(r: Record): seq<Code>
    requires Sound(r)
  {
    ValidatedCodesWalk(r.codes, r.version, r.prologueSize, r.frameRegister, r.frameOffset);
    Decode(r.codes, r.version, 0)
  }

  /** The operations after the epilogue descriptors. */
  function PrologueOps(r: Record): seq<Code>
    requires Sound(r)
  {
    ValidatedCodesWalk(r.codes, r.version, r.prologueSize, r.frameRegister, r.frameOffset);
    Decode(r.codes, r.version, r.epilogues.codeSlots)
  }

  lemma OpsOfRecord(r: Record)
    requires Sound(r)
    ensures r.epilogues.codeSlots % 2 == 0 && r.epilogues.codeSlots <= Count(r.codes)
    ensures Walks(r.codes, r.version, r.epilogues.codeSlots) && Walks(r.codes, r.version, 0)
    ensures PrologueOps(r) == Decode(r.codes, r.version, r.epilogues.codeSlots) && Ops(r) == Decode(r.codes, r.version, 0)
    ensures Ops(r) == Epilogs(r.codes, r.epilogues.codeSlots / 2) + PrologueOps(r)
    ensures AllSound(PrologueOps(r), r.prologueSize) && WellOrdered(PrologueOps(r))
    ensures r.hasFrameSetup <==> SetsFrame(PrologueOps(r))
    ensures r.hasFrameSetup ==> r.frameRegister != 0
  {
    ValidatedCodesWalk(r.codes, r.version, r.prologueSize, r.frameRegister, r.frameOffset);
  }

  // Declared epilogues

  predicate DescriptorFits(r: Record, entry: RuntimeFunction, index: nat)
    requires index < Count(r.codes) && entry.begin < entry.end
  {
    var distance, functionSize := Distance(r.codes, index), entry.end - entry.begin;
    distance != 0 ==> r.epilogues.size <= distance <= functionSize && functionSize - distance >= r.prologueSize
  }

  predicate RangesAreValid(r: Record, entry: RuntimeFunction)
    requires r.epilogues.codeSlots <= Count(r.codes)
  {
    entry.begin < entry.end &&
    var functionSize := entry.end - entry.begin;
    && r.prologueSize <= functionSize
    && (r.epilogues.present ==>
          && r.epilogues.size <= functionSize
          && (r.epilogues.implicitAtEnd ==> functionSize - r.epilogues.size >= r.prologueSize)
          && forall index :: 1 <= index < r.epilogues.codeSlots ==> DescriptorFits(r, entry, index))
  }

  method ValidateV2EpilogueRanges(r: Record, entry: RuntimeFunction) returns (ok: bool)
    requires r.epilogues.codeSlots <= Count(r.codes) && entry.begin < entry.end
    ensures ok == RangesAreValid(r, entry)
  {
    var functionSize := entry.end - entry.begin;
    if r.prologueSize > functionSize {
      return false;
    }
    if !r.epilogues.present {
      return true;
    }
    if r.epilogues.size > functionSize || (r.epilogues.implicitAtEnd && functionSize - r.epilogues.size < r.prologueSize) {
      return false;
    }
    var index := 1;
    while index < r.epilogues.codeSlots
      invariant 1 <= index
      invariant forall k :: 1 <= k < index && k < r.epilogues.codeSlots ==> DescriptorFits(r, entry, k)
    {
      var distance := Distance(r.codes, index);
      if distance != 0 &&
         (distance < r.epilogues.size || distance > functionSize || functionSize - distance < r.prologueSize)
      {
        assert !DescriptorFits(r, entry, index);
        return false;
      }
      index := index + 1;
    }
    ok := true;
  }

  function FindFrom(r: Record, entry: RuntimeFunction, pc: nat, index: nat): Option<nat>
    requires r.epilogues.codeSlots <= Count(r.codes)
    decreases Count(r.codes) - index
  {
    if index >= r.epilogues.codeSlots || Distance(r.codes, index) == 0 then None
    else
      var start := entry.end - Distance(r.codes, index);
      if start <= pc < start + r.epilogues.size then Some(pc - start)
      else FindFrom(r, entry, pc, index + 1)
  }

  /** The offset of the address inside a declared epilogue. */
  function EpilogueOffset(r: Record, entry: RuntimeFunction, pc: nat): Option<nat>
    requires r.epilogues.codeSlots <= Count(r.codes)
  {
    if !r.epilogues.present then None
    else
      var start := entry.end - r.epilogues.size;
      if r.epilogues.implicitAtEnd && start <= pc < start + r.epilogues.size then Some(pc - start)
      else FindFrom(r, entry, pc, 1)
  }

  method FindV2Epilogue(r: Record, entry: RuntimeFunction, pc: nat) returns (offset: Option<nat>)
    requires r.epilogues.codeSlots <= Count(r.codes) && RangesAreValid(r, entry)
    ensures offset == EpilogueOffset(r, entry, pc)
  {
    if !r.epilogues.present {
      return None;
    }
    var size := r.epilogues.size;
    if r.epilogues.implicitAtEnd {
      var start := entry.end - size;
      if pc >= start && pc - start < size {
        return Some(pc - start);
      }
    }
    var index := 1;
    while index < r.epilogues.codeSlots
      invariant FindFrom(r, entry, pc, index) == FindFrom(r, entry, pc, 1)
    {
      var distance := Distance(r.codes, index);
      if distance == 0 {
        break;
      }
      assert DescriptorFits(r, entry, index);
      var start := entry.end - distance;
      if pc >= start && pc - start < size {
        return Some(pc - start);
      }
      index := index + 1;
    }
    offset := None;
  }

  /** The address lies at offset o of the epilogue that starts at start, and start is a declared one. */
  predicate InDeclaredEpilogue(r: Record, entry: RuntimeFunction, pc: nat, start: int)
    requires r.epilogues.codeSlots <= Count(r.codes)
  {
    && r.epilogues.present && start <= pc < start + r.epilogues.size
    && ((r.epilogues.implicitAtEnd && start == entry.end - r.epilogues.size) ||
        exists k :: 1 <= k < r.epilogues.codeSlots && Distance(r.codes, k) != 0 && start == entry.end - Distance(r.codes, k))
  }

  lemma {:induction false} FindFromMeaning(r: Record, entry: RuntimeFunction, pc: nat, index: nat)
    requires 1 <= index && r.epilogues.codeSlots <= Count(r.codes)
    requires forall k :: 1 <= k < r.epilogues.codeSlots - 1 ==> Distance(r.codes, k) != 0
    ensures var o := FindFrom(r, entry, pc, index);
            && (o.Some? ==> exists k :: index <= k < r.epilogues.codeSlots && Distance(r.codes, k) != 0 &&
                              pc == entry.end - Distance(r.codes, k) + o.value && o.value < r.epilogues.size)
            && (o.None? ==> forall k :: index <= k < r.epilogues.codeSlots && Distance(r.codes, k) != 0 ==>
                              !(entry.end - Distance(r.codes, k) <= pc < entry.end - Distance(r.codes, k) + r.epilogues.size))
    decreases Count(r.codes) - index
  {
    if index < r.epilogues.codeSlots && Distance(r.codes, index) != 0 {
      FindFromMeaning(r, entry, pc, index + 1);
    }
  }

  /** The search answers exactly whether the address is inside some declared epilogue. */
  lemma EpilogueOffsetMeaning(r: Record, entry: RuntimeFunction, pc: nat)
    requires Sound(r)
    ensures r.epilogues.codeSlots <= Count(r.codes)
    ensures var o := EpilogueOffset(r, entry, pc);
            && (o.Some? ==> o.value < r.epilogues.size && InDeclaredEpilogue(r, entry, pc, pc - o.value))
            && (o.None? ==> forall start: int :: !InDeclaredEpilogue(r, entry, pc, start))
  {
    PrefixMeaning(r.codes, r.version);
    if r.epilogues.present {
      FindFromMeaning(r, entry, pc, 1);
    }
  }

  // Chains

  function NextEntry(m: LoadedModule, r: Record): Option<RuntimeFunction> {
    match Window(m, r.trailerRva, ENTRY_SIZE)
    case None => None
    case Some(bytes) =>
      if RuntimeFunctionIsValid(m, ReadRuntimeFunction(bytes)) then Some(ReadRuntimeFunction(bytes)) else None
  }

  /** The language handler named by the record's trailer. */
  function HandlerRva(m: LoadedModule, r: Record): Option<uint32> {
    match Window(m, r.trailerRva, 4)
    case None => None
    case Some(bytes) =>
      var rva := Load32(bytes);
      if rva == 0 || rva >= |m.bytes| then None else Some(rva)
  }

  /** A record that parses and whose declared epilogues fit its function. */
  function ReadChecked(m: LoadedModule, entry: RuntimeFunction): Option<Record> {
    match ReadRecord(m, entry.unwindData)
    case None => None
    case Some(r) =>
      ParsedRecord(m, entry.unwindData);
      OpsOfRecord(r);
      if RangesAreValid(r, entry) then Some(r) else None
  }

  function ValidateFrom(m: LoadedModule, entry: RuntimeFunction, depth: nat, frameRegister: nat, frameOffset: nat): Outcome<()>
    requires depth <= MAX_CHAIN_DEPTH
    decreases MAX_CHAIN_DEPTH - depth
  {
    if depth == MAX_CHAIN_DEPTH then Fail(ChainTooLong)
    else
      match ReadChecked(m, entry)
      case None => Fail(BadRecord)
      case Some(r) =>
        if depth > 0 && (r.frameRegister != frameRegister || r.frameOffset != frameOffset) then Fail(BadChain)
        else if r.Chained() then
          match NextEntry(m, r)
          case None => Fail(BadChain)
          case Some(next) => ValidateFrom(m, next, depth + 1, r.frameRegister, r.frameOffset)
        else if r.frameRegister != 0 && !r.hasFrameSetup then Fail(BadChain)
        else if r.HasHandler() && HandlerRva(m, r).None? then Fail(BadHandler)
        else Ok(())
  }

  function ValidateChain(m: LoadedModule, entry: RuntimeFunction): Outcome<Record> {
    var _ :- ValidateFrom(m, entry, 0, 0, 0);
    Ok(ReadChecked(m, entry).value)
  }

  method ReadCheckedRecord(m: LoadedModule, entry: RuntimeFunction) returns (r: Option<Record>)
    ensures r == ReadChecked(m, entry)
  {
    if entry.unwindData % 4 != 0 {
      return None;
    }
    r := ParseUnwindRecord(m, entry.unwindData);
    if r.None? {
      return None;
    }
    ParsedRecord(m, entry.unwindData);
    OpsOfRecord(r.value);
    if entry.begin >= entry.end {
      return None;
    }
    var ok := ValidateV2EpilogueRanges(r.value, entry);
    if !ok {
      return None;
    }
  }

  method ValidateUnwindChain(m: LoadedModule, firstEntry: RuntimeFunction) returns (result: Outcome<Record>)
    ensures result == ValidateChain(m, firstEntry)
  {
    hide ReadChecked, NextEntry, HandlerRva;
    var entry := firstEntry;
    var expectedRegister, expectedOffset := 0, 0;
    var depth := 0;
    var firstRecord: Option<Record> := None;
    while depth < MAX_CHAIN_DEPTH
      invariant depth <= MAX_CHAIN_DEPTH
      invariant ValidateFrom(m, entry, depth, expectedRegister, expectedOffset) == ValidateFrom(m, firstEntry, 0, 0, 0)
      invariant if depth == 0 then entry == firstEntry && expectedRegister == expectedOffset == 0
                else firstRecord == ReadChecked(m, firstEntry) && firstRecord.Some?
    {
      var record := ReadCheckedRecord(m, entry);
      if record.None? {
        return Fail(BadRecord);
      }
      var r := record.value;
      if depth == 0 {
        firstRecord := record;
        expectedRegister, expectedOffset := r.frameRegister, r.frameOffset;
      } else if r.frameRegister != expectedRegister || r.frameOffset != expectedOffset {
        return Fail(BadChain);
      }
      if r.Chained() {
        var next := NextEntry(m, r);
        if next.None? {
          return Fail(BadChain);
        }
        entry := next.value;
        depth := depth + 1;
        continue;
      }
      if r.frameRegister != 0 && !r.hasFrameSetup {
        return Fail(BadChain);
      }
      if r.HasHandler() && HandlerRva(m, r).None? {
        return Fail(BadHandler);
      }
      return Ok(firstRecord.value);
    }
    result := Fail(ChainTooLong);
  }
}
