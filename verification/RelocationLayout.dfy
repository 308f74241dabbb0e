/**
 * The writing side of base relocation: a linker's list of blocks, written as bytes,
 * names exactly the words it lists, and one relocation moves exactly these.
 */
module RelocationLayout {
  import opened Bytes
  import opened Relocation
  import opened RelocationLaws

  /** An entry: a four-bit kind and a twelve-bit offset from the block's page. Kind 0 is padding. */
  datatype EntrySpec = EntrySpec(kind: nat, offset: nat)

  datatype BlockSpec = BlockSpec(page: uint32, entries: seq<EntrySpec>)

  predicate Writable(b: BlockSpec) {
    && HEADER_SIZE + 2 * |b.entries| < TWO_32
    && forall k :: 0 <= k < |b.entries| ==> b.entries[k].kind < 16 && b.entries[k].offset < 0x1000
  }

  predicate AllWritable(blocks: seq<BlockSpec>) {
    forall k :: 0 <= k < |blocks| ==> Writable(blocks[k])
  }

  function EntryBytes(entries: seq<EntrySpec>): (s: seq<uint8>)
    ensures |s| == 2 * |entries|
  {
    if entries == [] then [] else Store(0x1000 * entries[0].kind + entries[0].offset, 2) + EntryBytes(entries[1..])
  }

  function BlockBytes(b: BlockSpec): (s: seq<uint8>)
    ensures |s| == HEADER_SIZE + 2 * |b.entries|
  {
    Store(b.page, 4) + Store(HEADER_SIZE + 2 * |b.entries|, 4) + EntryBytes(b.entries)
  }

  function DirectoryBytes(blocks: seq<BlockSpec>): seq<uint8> {
    if blocks == [] then [] else BlockBytes(blocks[0]) + DirectoryBytes(blocks[1..])
  }

  // What the list means

  /** Kind 10 names eight bytes of a 64-bit image, kind 3 four of a 32-bit one. */
  predicate KindFits(kind: nat, pe32Plus: bool) {
    kind == if pe32Plus then 10 else 3
  }

  /** The word lies in the image and shares no byte with the directory. */
  predicate WordFits(rva: nat, size: nat, d: Directory) {
    rva + d.Width() <= size && (rva + d.Width() <= d.start || d.end <= rva)
  }

  /** What is wrong with an entry, if anything. */
  function Fault(page: uint32, e: EntrySpec, size: nat, d: Directory): Status {
    if page + e.offset >= TWO_32 then InvalidImage
    else if e.kind == 0 then Ok
    else if !KindFits(e.kind, d.pe32Plus) then UnsupportedRelocation
    else if !WordFits(page + e.offset, size, d) then InvalidImage
    else Ok
  }

  /** The first fault of a list. */
  function EntriesFault(page: uint32, entries: seq<EntrySpec>, size: nat, d: Directory): Status {
    if entries == [] then Ok
    else if Fault(page, entries[0], size, d) != Ok then Fault(page, entries[0], size, d)
    else EntriesFault(page, entries[1..], size, d)
  }

  function BlocksFault(blocks: seq<BlockSpec>, size: nat, d: Directory): Status {
    if blocks == [] then Ok
    else if EntriesFault(blocks[0].page, blocks[0].entries, size, d) != Ok then EntriesFault(blocks[0].page, blocks[0].entries, size, d)
    else BlocksFault(blocks[1..], size, d)
  }

  /** The RVAs named, in order. */
  function EntryRvas(page: uint32, entries: seq<EntrySpec>): seq<nat> {
    if entries == [] then []
    else (if entries[0].kind == 0 then [] else [page + entries[0].offset]) + EntryRvas(page, entries[1..])
  }

  function Rvas(blocks: seq<BlockSpec>): seq<nat> {
    if blocks == [] then [] else EntryRvas(blocks[0].page, blocks[0].entries) + Rvas(blocks[1..])
  }

  // Reading back

  lemma EntryReads(bytes: seq<uint8>, cursor: nat, page: uint32, e: EntrySpec, d: Directory)
    requires cursor + 2 <= |bytes| && e.kind < 16 && e.offset < 0x1000
    requires bytes[cursor..cursor + 2] == Store(0x1000 * e.kind + e.offset, 2)
    ensures ReadEntry(bytes, cursor, page, d) ==
            if Fault(page, e, |bytes|, d) != Ok then Bad(Fault(page, e, |bytes|, d))
            else if e.kind == 0 then Skip else Site(page + e.offset)
  {
    hide Load, Store;
    SpanValues();
    LoadStore(0x1000 * e.kind + e.offset, 2);
  }

  lemma SliceSplits(bytes: seq<uint8>, from: nat, to: nat, front: seq<uint8>, back: seq<uint8>)
    requires from <= to <= |bytes| && bytes[from..to] == front + back
    ensures from + |front| <= to && bytes[from..from + |front|] == front && bytes[from + |front|..to] == back
  {
    var whole := bytes[from..to];
    assert bytes[from..from + |front|] == whole[..|front|] && bytes[from + |front|..to] == whole[|front|..];
  }

  lemma {:induction false} EntriesRead(bytes: seq<uint8>, cursor: nat, page: uint32, entries: seq<EntrySpec>, d: Directory)
    requires cursor + 2 * |entries| <= |bytes| && bytes[cursor..cursor + 2 * |entries|] == EntryBytes(entries)
    requires forall k :: 0 <= k < |entries| ==> entries[k].kind < 16 && entries[k].offset < 0x1000
    ensures var f := EntrySites(bytes, cursor, cursor + 2 * |entries|, page, d);
            && f.status == EntriesFault(page, entries, |bytes|, d)
            && (f.status == Ok ==> f.sites == EntryRvas(page, entries))
    decreases |entries|
  {
    hide ReadEntry, Store, Fault;
    if entries != [] {
      var rest, whole := entries[1..], bytes[cursor..cursor + 2 * |entries|];
      var first := Store(0x1000 * entries[0].kind + entries[0].offset, 2);
      assert whole == first + EntryBytes(rest);
      SliceSplits(bytes, cursor, cursor + 2 * |entries|, first, EntryBytes(rest));
      EntryReads(bytes, cursor, page, entries[0], d);
      EntriesRead(bytes, cursor + 2, page, rest, d);
    }
  }

  lemma BlockReads(bytes: seq<uint8>, cursor: nat, b: BlockSpec, d: Directory)
    requires Writable(b) && cursor + |BlockBytes(b)| <= d.end <= |bytes|
    requires bytes[cursor..cursor + |BlockBytes(b)|] == BlockBytes(b)
    ensures ReadBlock(bytes, cursor, d) == Some(Block(b.page, cursor + |BlockBytes(b)|))
    ensures bytes[cursor + HEADER_SIZE..cursor + |BlockBytes(b)|] == EntryBytes(b.entries)
  {
    hide Load, Store;
    SpanValues();
    var whole, size := BlockBytes(b), HEADER_SIZE + 2 * |b.entries|;
    assert whole[..4] == Store(b.page, 4) && whole[4..8] == Store(size, 4) && whole[8..] == EntryBytes(b.entries);
    SubSlice(bytes, cursor, cursor + |whole|, 0, 4);
    SubSlice(bytes, cursor, cursor + |whole|, 4, 4);
    SubSlice(bytes, cursor, cursor + |whole|, 8, |whole| - 8);
    LoadStore(b.page, 4);
    LoadStore(size, 4);
  }

  lemma {:induction false} BlocksRead(bytes: seq<uint8>, cursor: nat, blocks: seq<BlockSpec>, d: Directory)
    requires cursor <= d.end <= |bytes| && AllWritable(blocks) && bytes[cursor..d.end] == DirectoryBytes(blocks)
    ensures var f := BlockSites(bytes, cursor, d);
            && f.status == BlocksFault(blocks, |bytes|, d)
            && (f.status == Ok ==> f.sites == Rvas(blocks))
    decreases |blocks|
  {
    hide BlockBytes, EntryBytes, ReadBlock, EntrySites, EntriesFault, EntryRvas, Writable, AllWritable;
    if blocks != [] {
      var b, rest := blocks[0], blocks[1..];
      var size := |BlockBytes(b)|;
      SliceSplits(bytes, cursor, d.end, BlockBytes(b), DirectoryBytes(rest));
      AllWritableParts(blocks);
      BlockReads(bytes, cursor, b, d);
      WritableEntries(b);
      EntriesRead(bytes, cursor + HEADER_SIZE, b.page, b.entries, d);
      BlocksRead(bytes, cursor + size, rest, d);
    }
  }

  lemma AllWritableParts(blocks: seq<BlockSpec>)
    requires AllWritable(blocks) && blocks != []
    ensures Writable(blocks[0]) && AllWritable(blocks[1..])
  {
  }

  lemma WritableEntries(b: BlockSpec)
    requires Writable(b)
    ensures forall k :: 0 <= k < |b.entries| ==> b.entries[k].kind < 16 && b.entries[k].offset < 0x1000
  {
  }

  /** The directory's bytes are the written list. */
  ghost predicate Holds(image: Image, bytes: seq<uint8>, blocks: seq<BlockSpec>) {
    && AllWritable(blocks) && image.rva + image.length <= |bytes|
    && bytes[image.rva..image.rva + image.length] == DirectoryBytes(blocks)
  }

  /**
   * A written list of blocks reads back to exactly the RVAs page + offset, padding left
   * out, in order; or to the first fault: an RVA past 32 bits, a kind of the other word
   * size, a word past the image or in the directory.
   */
  lemma DirectoryReadsBack(image: Image, m: Mapping, blocks: seq<BlockSpec>)
    requires Holds(image, m.bytes, blocks)
    ensures var f := Sites(image, m);
            && f.status == BlocksFault(blocks, |m.bytes|, image.Extent())
            && (f.status == Ok ==> f.sites == Rvas(blocks))
  {
    hide BlockSites, DirectoryBytes, AllWritable;
    BlocksRead(m.bytes, image.rva, blocks, image.Extent());
  }

  /**
   * Relocating an image with a written directory succeeds exactly when the mapping may
   * still change, may be based there, and is there already or has a sound directory.
   * Otherwise nothing changes.
   */
  lemma WrittenRelocatesIff(image: Image, m: Mapping, base: uint64, blocks: seq<BlockSpec>)
    requires image.rva != 0 && image.length != 0 ==> Holds(image, m.bytes, blocks)
    ensures var r := Relocate(image, m, base);
            && (r.status == Ok <==>
                  && |m.bytes| == image.size && !m.finalized && m.storage != VirtualTainted
                  && (m.storage == Virtual ==> base == m.address) && (image.pe32Plus || base < TWO_32)
                  && (base == m.loadBase ||
                      (image.rva != 0 && image.length != 0 && BlocksFault(blocks, |m.bytes|, image.Extent()) == Ok)))
            && (r.status != Ok ==> r.mapping == m)
  {
    hide BlockSites, MoveSites, DirectoryBytes, AllWritable, BlocksFault, Shift;
    if image.rva != 0 && image.length != 0 {
      DirectoryReadsBack(image, m, blocks);
    }
  }

  /** A word named once, sharing no byte with another named word. */
  predicate Alone(rvas: seq<nat>, n: nat, width: nat)
    requires n < |rvas|
  {
    forall k :: 0 <= k < |rvas| && k != n ==> rvas[k] + width <= rvas[n] || rvas[n] + width <= rvas[k]
  }

  /**
   * One relocation of such an image: the word at page + offset of each entry moves by
   * the distance between the bases, in arithmetic of the word's size; bytes that no
   * entry names stay; and the image is based where it was asked to be.
   */
  lemma WrittenRelocates(image: Image, m: Mapping, base: uint64, blocks: seq<BlockSpec>)
    requires Holds(image, m.bytes, blocks) && Relocate(image, m, base).status == Ok && base != m.loadBase
    ensures var (moved, rvas, width) := (Relocate(image, m, base).mapping, Rvas(blocks), image.Extent().Width());
            && moved.loadBase == base && |moved.bytes| == |m.bytes| && Fit(rvas, width, |m.bytes|)
            && (forall n :: 0 <= n < |rvas| && Alone(rvas, n, width) ==>
                  Load(moved.bytes[rvas[n]..rvas[n] + width])
                  == Wrap(Load(m.bytes[rvas[n]..rvas[n] + width]) + base - m.loadBase, if image.pe32Plus then TWO_64 else TWO_32))
            && (forall at :: 0 <= at < |m.bytes| && Unnamed(rvas, at, width) ==> moved.bytes[at] == m.bytes[at])
  {
    hide BlockSites, MoveSites, DirectoryBytes, AllWritable, Shift, Load, Wrap, Span, Moved, Alone, Unnamed;
    DirectoryReadsBack(image, m, blocks);
    var moved, rvas, width := Relocate(image, m, base).mapping, Rvas(blocks), image.Extent().Width();
    var shift := Shift(m.loadBase, base, width);
    SpanValues();
    forall n | 0 <= n < |rvas| && Alone(rvas, n, width)
      ensures Load(moved.bytes[rvas[n]..rvas[n] + width])
           == Wrap(Load(m.bytes[rvas[n]..rvas[n] + width]) + base - m.loadBase, if image.pe32Plus then TWO_64 else TWO_32)
    {
      WordMoves(m.bytes, rvas, width, shift, n);
      ShiftIsDistance(Load(m.bytes[rvas[n]..rvas[n] + width]), m.loadBase, base, width);
    }
    forall at | 0 <= at < |m.bytes| && Unnamed(rvas, at, width)
      ensures moved.bytes[at] == m.bytes[at]
    {
      ByteStays(m.bytes, rvas, width, shift, at);
    }
  }

  predicate Unnamed(rvas: seq<nat>, at: nat, width: nat) {
    forall k :: 0 <= k < |rvas| ==> at < rvas[k] || rvas[k] + width <= at
  }

  lemma WordMoves(bytes: seq<uint8>, rvas: seq<nat>, width: nat, shift: nat, n: nat)
    requires Fit(rvas, width, |bytes|) && n < |rvas| && Alone(rvas, n, width)
    ensures Load(MoveSites(bytes, rvas, width, shift)[rvas[n]..rvas[n] + width])
         == Wrap(Load(bytes[rvas[n]..rvas[n] + width]) + shift, Span(width))
  {
    hide Load, Wrap, Span, Moved, MoveSites;
    NamedWordMoves(bytes, rvas, width, shift, n);
    MovedLoads(bytes[rvas[n]..rvas[n] + width], shift);
  }

  lemma ByteStays(bytes: seq<uint8>, rvas: seq<nat>, width: nat, shift: nat, at: nat)
    requires Fit(rvas, width, |bytes|) && at < |bytes| && Unnamed(rvas, at, width)
    ensures MoveSites(bytes, rvas, width, shift)[at] == bytes[at]
  {
    hide MoveSites;
    OutsideUntouched(bytes, rvas, width, shift, at, at + 1);
    assert MoveSites(bytes, rvas, width, shift)[at..at + 1][0] == bytes[at..at + 1][0];
  }

  lemma ShiftIsDistance(v: nat, from: uint64, base: uint64, width: nat)
    requires width == 4 || width == 8
    ensures Wrap(v + Shift(from, base, width), Span(width)) == Wrap(v + base - from, Span(width))
  {
    hide Span;
    SpanValues();
    var n, x := Span(width), (base - from) % TWO_64;
    WrapAdds(x, v, n);
    WrapAdds(base - from, v, n);
    assert Wrap(x, n) == Wrap(base - from, n) by { WrapsAlike(base - from, width); }
  }

  lemma WrapsAlike(v: int, width: nat)
    requires width == 4 || width == 8
    ensures Wrap(v % TWO_64, Span(width)) == Wrap(v, Span(width))
  {
    hide Span;
    SpanValues();
    if width == 4 {
      var q := v / TWO_64;
      assert v == TWO_32 * (TWO_32 * q) + v % TWO_64;
      ModUnique(v, TWO_32, TWO_32 * q + (v % TWO_64) / TWO_32, (v % TWO_64) % TWO_32);
    }
  }

  // Any bytes whatever

  lemma {:induction false} EntriesAreWritten(bytes: seq<uint8>) returns (entries: seq<EntrySpec>)
    requires |bytes| % 2 == 0
    ensures 2 * |entries| == |bytes| && bytes == EntryBytes(entries)
    ensures forall k :: 0 <= k < |entries| ==> entries[k].kind < 16 && entries[k].offset < 0x1000
    decreases |bytes|
  {
    hide Store, Load;
    if bytes == [] {
      entries := [];
    } else {
      var first, rest := bytes[..2], bytes[2..];
      var more := EntriesAreWritten(rest);
      var word := Load16(first);
      var e := EntrySpec(word / 0x1000, word % 0x1000);
      StoreLoad(first);
      assert 0x1000 * e.kind + e.offset == word;
      entries := [e] + more;
      assert entries[1..] == more && bytes == first + rest;
    }
  }

  /** A block that is read is a written one. */
  lemma BlockIsWritten(bytes: seq<uint8>, cursor: nat, d: Directory) returns (b: BlockSpec)
    requires cursor < d.end <= |bytes| && ReadBlock(bytes, cursor, d).Some?
    ensures var end := ReadBlock(bytes, cursor, d).value.end;
            Writable(b) && cursor <= end && bytes[cursor..end] == BlockBytes(b)
  {
    hide Store, Load;
    var end := ReadBlock(bytes, cursor, d).value.end;
    var page, size := Load32(bytes[cursor..cursor + 4]), Load32(bytes[cursor + 4..cursor + 8]);
    var entries := EntriesAreWritten(bytes[cursor + 8..end]);
    b := BlockSpec(page, entries);
    StoreLoad(bytes[cursor..cursor + 4]);
    StoreLoad(bytes[cursor + 4..cursor + 8]);
    assert HEADER_SIZE + 2 * |entries| == size;
    assert bytes[cursor..end] == bytes[cursor..cursor + 4] + bytes[cursor + 4..cursor + 8] + bytes[cursor + 8..end];
  }

  lemma {:induction false} SitesAreWritten(bytes: seq<uint8>, cursor: nat, d: Directory) returns (blocks: seq<BlockSpec>)
    requires cursor <= d.end <= |bytes| && BlockSites(bytes, cursor, d).status == Ok
    ensures AllWritable(blocks) && bytes[cursor..d.end] == DirectoryBytes(blocks)
    decreases d.end - cursor
  {
    hide ReadBlock, EntrySites, BlockBytes, Writable;
    if cursor == d.end {
      blocks := [];
    } else {
      var end := ReadBlock(bytes, cursor, d).value.end;
      var b := BlockIsWritten(bytes, cursor, d);
      var more := SitesAreWritten(bytes, end, d);
      blocks := [b] + more;
      assert blocks[1..] == more && forall k :: 1 <= k < |blocks| ==> blocks[k] == more[k - 1];
      assert bytes[cursor..d.end] == bytes[cursor..end] + bytes[end..d.end];
    }
  }

  /** A directory of any bytes is accepted if and only if it is a written list of blocks without a fault. */
  lemma AcceptedIffWritten(image: Image, m: Mapping)
    requires image.rva + image.length <= |m.bytes|
    ensures Sites(image, m).status == Ok <==>
            exists blocks: seq<BlockSpec> :: Holds(image, m.bytes, blocks) && BlocksFault(blocks, |m.bytes|, image.Extent()) == Ok
  {
    hide BlockSites, DirectoryBytes, AllWritable;
    if Sites(image, m).status == Ok {
      var blocks := SitesAreWritten(m.bytes, image.rva, image.Extent());
      DirectoryReadsBack(image, m, blocks);
      assert Holds(image, m.bytes, blocks);
    }
    forall blocks: seq<BlockSpec> | Holds(image, m.bytes, blocks) && BlocksFault(blocks, |m.bytes|, image.Extent()) == Ok
      ensures Sites(image, m).status == Ok
    {
      DirectoryReadsBack(image, m, blocks);
    }
  }

  /** The mapping may no longer change, or not be based there. */
  predicate Fixed(m: Mapping, base: uint64) {
    m.finalized || m.storage == VirtualTainted || (m.storage == Virtual && base != m.address)
  }

  /** Each refusal before the directory is read has its own cause, and nothing refused changes. */
  lemma RefusalsTold(image: Image, m: Mapping, base: uint64)
    ensures var r := Refusal(image, m, base);
            && (r == InvalidArgument <==> |m.bytes| != image.size || (!Fixed(m, base) && !image.pe32Plus && base >= TWO_32))
            && (r == InvalidState <==> |m.bytes| == image.size && Fixed(m, base))
            && (r == RelocationRequired <==>
                  && |m.bytes| == image.size && !Fixed(m, base) && (image.pe32Plus || base < TWO_32)
                  && base != m.loadBase && (image.rva == 0 || image.length == 0))
            && (r == InvalidImage <==>
                  && |m.bytes| == image.size && !Fixed(m, base) && (image.pe32Plus || base < TWO_32)
                  && base != m.loadBase && image.rva != 0 && image.length != 0 && image.rva + image.length > |m.bytes|)
            && r != UnsupportedRelocation
            && (r != Ok ==> Relocate(image, m, base) == Relocated(r, m))
  {
    hide MoveSites, BlockSites;
  }
}
