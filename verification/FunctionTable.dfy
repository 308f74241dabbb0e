/** A function table as a linker writes it, and which of its entries an address finds. */
module FunctionTable {
  import opened Bytes
  import opened Context
  import opened UnwindImage

  function EntryBytes(e: RuntimeFunction): (s: seq<uint8>)
    ensures |s| == 12
  {
    Store(e.begin, 4) + Store(e.end, 4) + Store(e.unwindData, 4)
  }

  function TableBytes(entries: seq<RuntimeFunction>): (s: seq<uint8>)
    ensures |s| == 12 * |entries|
  {
    if entries == [] then [] else EntryBytes(entries[0]) + TableBytes(entries[1..])
  }

  /** A mapped 64-bit image whose exception directory is this table. */
  ghost predicate HasTable(m: LoadedModule, entries: seq<RuntimeFunction>) {
    && m.isPe && m.isAmd64Pe32Plus && |m.bytes| == m.imageSize && entries != []
    && m.exceptionRva != 0 && m.exceptionSize == 12 * |entries| && m.exceptionRva + m.exceptionSize <= |m.bytes|
    && m.bytes[m.exceptionRva..m.exceptionRva + m.exceptionSize] == TableBytes(entries)
  }

  /** The entry's range is not empty and inside the image, and so is its record, which is aligned. */
  predicate Usable(m: LoadedModule, e: RuntimeFunction) {
    && e.begin < e.end <= m.imageSize
    && 0 < e.unwindData && e.unwindData + 4 <= m.imageSize && e.unwindData % 4 == 0
  }

  lemma {:induction false} EntryInTable(entries: seq<RuntimeFunction>, k: nat)
    requires k < |entries|
    ensures TableBytes(entries)[12 * k..12 * (k + 1)] == EntryBytes(entries[k])
  {
    var first, rest := EntryBytes(entries[0]), TableBytes(entries[1..]);
    var all := TableBytes(entries);
    if k > 0 {
      EntryInTable(entries[1..], k - 1);
      assert all[12 * k..12 * (k + 1)] == rest[12 * (k - 1)..12 * k];
    }
  }

  lemma EntryReads(e: RuntimeFunction)
    ensures ReadRuntimeFunction(EntryBytes(e)) == e
  {
    var s, begin, end, data := EntryBytes(e), Store(e.begin, 4), Store(e.end, 4), Store(e.unwindData, 4);
    assert s[..4] == begin && s[4..8] == end && s[8..12] == data;
    SpanValues();
    LoadStore(e.begin, 4);
    LoadStore(e.end, 4);
    LoadStore(e.unwindData, 4);
  }

  lemma WrittenAt(entries: seq<RuntimeFunction>, k: nat)
    requires k < |entries|
    ensures 12 * (k + 1) <= |TableBytes(entries)| && EntryAt(TableBytes(entries), k) == entries[k]
  {
    EntryInTable(entries, k);
    EntryReads(entries[k]);
  }

  lemma UsableIsValid(m: LoadedModule, e: RuntimeFunction)
    ensures Usable(m, e) <==> RuntimeFunctionIsValid(m, e)
  {
  }

  lemma TableIsFound(m: LoadedModule, entries: seq<RuntimeFunction>)
    requires HasTable(m, entries)
    ensures ExceptionTable(m) == Some(TableBytes(entries))
  {
    assert 12 * |entries| % 12 == 0;
  }

  /** An entry pointer names the entry written there, if it is usable, and nothing past the table. */
  lemma EntryReadsBack(m: LoadedModule, entries: seq<RuntimeFunction>, k: nat)
    requires HasTable(m, entries)
    ensures EntryFromPointer(m, k) == if k < |entries| && Usable(m, entries[k]) then Some(entries[k]) else None
  {
    hide EntryAt, RuntimeFunctionIsValid, TableBytes, HasTable, ExceptionTable;
    TableIsFound(m, entries);
    if k < |entries| {
      WrittenAt(entries, k);
      UsableIsValid(m, entries[k]);
    }
  }

  // Which module an address belongs to

  /** The address lies in the mapping of this PE module. */
  predicate Holds(m: LoadedModule, address: uint64) {
    m.isPe && m.loadBase > 0 && m.loadBase <= address < m.loadBase + |m.bytes|
  }

  lemma {:induction false} OwnerFrom(registry: Registry, address: uint64, index: nat, i: nat)
    requires index <= i < |registry|
    ensures ResolveFrom(registry, address, index) == Some(i) <==>
            Holds(registry[i], address) && forall k :: index <= k < i ==> !Holds(registry[k], address)
    decreases i - index
  {
    if index < i && !Owns(registry[index], address) {
      OwnerFrom(registry, address, index + 1, i);
    }
  }

  lemma {:induction false} NobodyFrom(registry: Registry, address: uint64, index: nat)
    requires index <= |registry|
    ensures ResolveFrom(registry, address, index) == None <==> forall k :: index <= k < |registry| ==> !Holds(registry[k], address)
    decreases |registry| - index
  {
    if index < |registry| && !Owns(registry[index], address) {
      NobodyFrom(registry, address, index + 1);
    }
  }

  /** The address is that module's which is registered first among those whose mapping holds it. */
  lemma OwnerIsFirst(registry: Registry, address: uint64)
    ensures forall i :: 0 <= i < |registry| ==>
              (ResolveAddress(registry, address) == Some(i) <==>
               Holds(registry[i], address) && forall k :: 0 <= k < i ==> !Holds(registry[k], address))
    ensures ResolveAddress(registry, address) == None <==> forall k :: 0 <= k < |registry| ==> !Holds(registry[k], address)
  {
    forall i | 0 <= i < |registry|
      ensures ResolveFrom(registry, address, 0) == Some(i) <==>
              Holds(registry[i], address) && forall k :: 0 <= k < i ==> !Holds(registry[k], address)
    {
      OwnerFrom(registry, address, 0, i);
    }
    NobodyFrom(registry, address, 0);
  }

  // Which entry an address finds

  /** Every entry is usable, and none begins before the one written before it ends. */
  predicate Tidy(m: LoadedModule, entries: seq<RuntimeFunction>) {
    && (forall k :: 0 <= k < |entries| ==> Usable(m, entries[k]))
    && (forall k :: 0 < k < |entries| ==> entries[k - 1].end <= entries[k].begin)
  }

  lemma TidyIffInOrder(m: LoadedModule, entries: seq<RuntimeFunction>)
    ensures Tidy(m, entries) <==> InOrder(m, TableBytes(entries), 0, 0)
  {
    hide EntryAt, RuntimeFunctionIsValid, TableBytes, Usable;
    var table := TableBytes(entries);
    forall k | 0 <= k < |entries|
      ensures EntryAt(table, k) == entries[k] && (Usable(m, entries[k]) <==> RuntimeFunctionIsValid(m, entries[k]))
    {
      WrittenAt(entries, k);
      UsableIsValid(m, entries[k]);
    }
    if Tidy(m, entries) {
      forall k: nat | 12 * (k + 1) <= |table|
        ensures Follows(m, table, k, 0, 0)
      {
        assert k < |entries|;
      }
    }
    if InOrder(m, table, 0, 0) {
      forall k | 0 <= k < |entries|
        ensures Usable(m, entries[k]) && (k > 0 ==> entries[k - 1].end <= entries[k].begin)
      {
        assert Follows(m, table, k, 0, 0);
        assert k > 0 ==> EntryAt(table, k - 1) == entries[k - 1];
      }
    }
  }

  predicate Covers(e: RuntimeFunction, m: LoadedModule, pc: uint64) {
    m.loadBase + e.begin <= pc < m.loadBase + e.end
  }

  lemma AddressFits(m: LoadedModule, pc: uint64)
    requires Holds(m, pc) && |m.bytes| == m.imageSize
    ensures m.loadBase <= pc && pc - m.loadBase < TWO_32
  {
  }

  /**
   * From written bytes to the entry found: an address in a module with a tidy table
   * finds exactly the entry whose range covers it, in a table that is not tidy nothing.
   */
  lemma WrittenLookup(registry: Registry, i: nat, entries: seq<RuntimeFunction>, pc: uint64)
    requires i < |registry| && ResolveAddress(registry, pc) == Some(i) && HasTable(registry[i], entries)
    ensures LookupFunction(registry, pc) == BadTable <==> !Tidy(registry[i], entries)
    ensures Tidy(registry[i], entries) ==>
              forall k :: 0 <= k < |entries| ==>
                (LookupFunction(registry, pc) == Found(i, k) <==> Covers(entries[k], registry[i], pc))
    ensures Tidy(registry[i], entries) && (forall k :: 0 <= k < |entries| ==> !Covers(entries[k], registry[i], pc)) ==>
              LookupFunction(registry, pc) == NoEntry
  {
    hide EntryAt, RuntimeFunctionIsValid, TableBytes, InOrder, Tidy, ExceptionTable, ScanTable;
    var m, table := registry[i], TableBytes(entries);
    OwnerIsFirst(registry, pc);
    TableIsFound(m, entries);
    AddressFits(m, pc);
    TidyIffInOrder(m, entries);
    LookupMeaning(registry, pc);
    ScanMeaning(m, table, 0, 0, pc - m.loadBase, None);
    forall k | 0 <= k < |entries|
      ensures 12 * (k + 1) <= |table| && (Contains(table, k, pc - m.loadBase) <==> Covers(entries[k], m, pc))
    {
      WrittenAt(entries, k);
    }
  }

  /** A 64-bit image with a directory of whole entries, not none, inside its mapping. */
  predicate Tabled(m: LoadedModule) {
    && m.isPe && m.isAmd64Pe32Plus && |m.bytes| == m.imageSize
    && m.exceptionRva != 0 && m.exceptionSize != 0 && m.exceptionSize % 12 == 0 && m.exceptionRva + m.exceptionSize <= |m.bytes|
  }

  lemma TabledIff(m: LoadedModule)
    ensures ExceptionTable(m) == if Tabled(m) then Some(m.bytes[m.exceptionRva..m.exceptionRva + m.exceptionSize]) else None
  {
  }

  /** Outside every module, or in one without a function table, no entry is found. */
  lemma NoTableNoEntry(registry: Registry, pc: uint64)
    requires forall k :: 0 <= k < |registry| && Holds(registry[k], pc) ==> !Tabled(registry[k])
    ensures LookupFunction(registry, pc) == NoEntry
  {
    hide ExceptionTable, ScanTable, Tabled;
    OwnerIsFirst(registry, pc);
    var i := ResolveAddress(registry, pc);
    if i.Some? {
      TabledIff(registry[i.value]);
    }
  }
}
