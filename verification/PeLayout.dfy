/** The headers and the section table as a linker writes them, and that parsing reads them back. */
module PeLayout {
  import opened Bytes
  import opened PeImage
  import opened ImageViews

  /** A section header: name, the two extents, the raw place, relocation fields of no concern here, characteristics. */
  function WriteSection(s: Section, unused: seq<uint8>): (r: seq<uint8>)
    requires |s.name| == 8 && |unused| == 12
    ensures |r| == SECTION_HEADER_SIZE
  {
    s.name + Store(s.virtualSize, 4) + Store(s.virtualAddress, 4) + Store(s.rawSize, 4) + Store(s.rawOffset, 4) + unused +
    Store(s.characteristics, 4)
  }

  lemma WordReadsBack(front: seq<uint8>, v: uint32, rest: seq<uint8>)
    ensures Get32(front + Store(v, 4) + rest, |front|) == v
  {
    hide Load, Store, Span;
    SpanValues();
    LoadStore(v, 4);
    assert (front + Store(v, 4) + rest)[|front|..|front| + 4] == Store(v, 4);
  }

  lemma SectionFields(s: Section, unused: seq<uint8>)
    requires |s.name| == 8 && |unused| == 12
    ensures var w := WriteSection(s, unused);
            && w[..8] == s.name && Get32(w, 8) == s.virtualSize && Get32(w, 12) == s.virtualAddress
            && Get32(w, 16) == s.rawSize && Get32(w, 20) == s.rawOffset && Get32(w, 36) == s.characteristics
  {
    hide Store, Get32;
    var w := WriteSection(s, unused);
    var one := s.name + Store(s.virtualSize, 4);
    var two := one + Store(s.virtualAddress, 4);
    var three := two + Store(s.rawSize, 4);
    var four := three + Store(s.rawOffset, 4);
    var last := Store(s.characteristics, 4);
    WordReadsBack(s.name, s.virtualSize, w[12..]);
    assert w == s.name + Store(s.virtualSize, 4) + w[12..];
    WordReadsBack(one, s.virtualAddress, w[16..]);
    assert w == one + Store(s.virtualAddress, 4) + w[16..];
    WordReadsBack(two, s.rawSize, w[20..]);
    assert w == two + Store(s.rawSize, 4) + w[20..];
    WordReadsBack(three, s.rawOffset, w[24..]);
    assert w == three + Store(s.rawOffset, 4) + w[24..];
    WordReadsBack(four + unused, s.characteristics, []);
    assert w == (four + unused) + last + [];
  }

  lemma SameWord(file: seq<uint8>, cursor: nat, w: seq<uint8>, at: nat)
    requires cursor + |w| <= |file| && file[cursor..cursor + |w|] == w && at + 4 <= |w|
    ensures Get32(file, cursor + at) == Get32(w, at)
  {
    SubSlice(file, cursor, cursor + |w|, at, 4);
  }

  /** A written section reads back, if its ranges lie in file and image; otherwise the image is refused. */
  lemma SectionReadsBack(file: seq<uint8>, cursor: nat, imageSize: nat, s: Section, unused: seq<uint8>)
    requires |s.name| == 8 && |unused| == 12 && cursor + SECTION_HEADER_SIZE <= |file|
    requires file[cursor..cursor + SECTION_HEADER_SIZE] == WriteSection(s, unused)
    ensures ReadSection(file, cursor, imageSize) == if SectionOk(s, |file|, imageSize) then Ok(s) else Err(InvalidImage)
  {
    hide Get32, WriteSection;
    var w := WriteSection(s, unused);
    SectionFields(s, unused);
    SameWord(file, cursor, w, 8);
    SameWord(file, cursor, w, 12);
    SameWord(file, cursor, w, 16);
    SameWord(file, cursor, w, 20);
    SameWord(file, cursor, w, 36);
    SubSlice(file, cursor, cursor + SECTION_HEADER_SIZE, 0, 8);
  }

  predicate AllNamed(sections: seq<Section>) {
    forall k :: 0 <= k < |sections| ==> |sections[k].name| == 8
  }

  /** Each header of the table stands at its place, whatever its unused bytes. */
  ghost predicate TableAt(file: seq<uint8>, table: nat, sections: seq<Section>, from: nat)
    requires AllNamed(sections) && from <= |sections| && table + |sections| * SECTION_HEADER_SIZE <= |file|
  {
    forall k :: from <= k < |sections| ==> HeaderAt(file, table + k * SECTION_HEADER_SIZE, sections[k])
  }

  ghost predicate HeaderAt(file: seq<uint8>, cursor: nat, s: Section)
    requires |s.name| == 8 && cursor + SECTION_HEADER_SIZE <= |file|
  {
    exists unused: seq<uint8> :: |unused| == 12 && file[cursor..cursor + SECTION_HEADER_SIZE] == WriteSection(s, unused)
  }

  /** A written section table reads back exactly when all its ranges lie in file and image. */
  lemma {:induction false} TableReadsBack(file: seq<uint8>, table: nat, imageSize: nat, sections: seq<Section>, from: nat)
    requires AllNamed(sections) && from <= |sections| && table + |sections| * SECTION_HEADER_SIZE <= |file|
    requires TableAt(file, table, sections, from)
    ensures ReadSections(file, table, imageSize, from, |sections|) ==
            if SectionsOk(sections[from..], |file|, imageSize) then Ok(sections[from..]) else Err(InvalidImage)
    decreases |sections| - from
  {
    hide ReadSection, WriteSection, SectionsOk, HeaderAt, SectionOk;
    if from < |sections| {
      var s, rest, cursor := sections[from], sections[from + 1..], table + from * SECTION_HEADER_SIZE;
      assert HeaderAt(file, cursor, s);
      HeaderReads(file, cursor, imageSize, s);
      TableReadsBack(file, table, imageSize, sections, from + 1);
      assert sections[from..] == [s] + rest;
      SectionsOkCons(s, rest, |file|, imageSize);
    } else {
      assert sections[from..] == [];
      NoSections(|file|, imageSize);
    }
  }

  lemma HeaderReads(file: seq<uint8>, cursor: nat, imageSize: nat, s: Section)
    requires |s.name| == 8 && cursor + SECTION_HEADER_SIZE <= |file| && HeaderAt(file, cursor, s)
    ensures ReadSection(file, cursor, imageSize) == if SectionOk(s, |file|, imageSize) then Ok(s) else Err(InvalidImage)
  {
    hide ReadSection, WriteSection, SectionOk;
    var unused: seq<uint8> :| |unused| == 12 && file[cursor..cursor + SECTION_HEADER_SIZE] == WriteSection(s, unused);
    SectionReadsBack(file, cursor, imageSize, s, unused);
  }

  lemma SectionsOkCons(s: Section, rest: seq<Section>, fileSize: nat, imageSize: nat)
    ensures SectionsOk([s] + rest, fileSize, imageSize) <==> SectionOk(s, fileSize, imageSize) && SectionsOk(rest, fileSize, imageSize)
  {
    hide SectionOk;
    var all := [s] + rest;
    assert all[0] == s && forall k :: 0 <= k < |rest| ==> rest[k] == all[k + 1];
  }

  lemma NoSections(fileSize: nat, imageSize: nat)
    ensures SectionsOk([], fileSize, imageSize)
  {
  }

  // The headers before the table

  /** These bytes stand in the file at this place. */
  ghost predicate Chunk(file: seq<uint8>, at: nat, bytes: seq<uint8>) {
    at + |bytes| <= |file| && file[at..at + |bytes|] == bytes
  }

  lemma Chunks(file: seq<uint8>, at: nat, a: seq<uint8>, b: seq<uint8>)
    requires Chunk(file, at, a + b)
    ensures Chunk(file, at, a) && Chunk(file, at + |a|, b)
  {
    var all := a + b;
    assert a == all[..|a|] && b == all[|a|..];
    SubSlice(file, at, at + |all|, 0, |a|);
    SubSlice(file, at, at + |all|, |a|, |b|);
  }

  lemma Reads(file: seq<uint8>, at: nat, v: nat, n: nat)
    requires Chunk(file, at, Store(v, n)) && v < Span(n) && (n == 2 || n == 4 || n == 8)
    ensures n == 2 ==> Get16(file, at) == v
    ensures n == 4 ==> Get32(file, at) == v
    ensures n == 8 ==> Get64(file, at) == v
  {
    LoadStore(v, n);
  }

  function Blank(n: nat): (r: seq<uint8>)
    ensures |r| == n
  {
    seq(n, _ => 0)
  }

  function Joined(a: seq<uint8>, b: seq<uint8>): (r: seq<uint8>)
    ensures r == a + b
  {
    a + b
  }

  function WriteDirectories(ds: seq<DataDirectory>): (r: seq<uint8>)
    ensures |r| == 8 * |ds|
  {
    if ds == [] then [] else Joined(Store(ds[0].rva, 4), Joined(Store(ds[0].size, 4), WriteDirectories(ds[1..])))
  }

  const DOS_SIZE: nat := 64
  const OPTIONAL_OFFSET: nat := 88

  /** The DOS header: its signature and the offset of the PE signature. */
  function WriteDos(): (r: seq<uint8>)
    ensures |r| == DOS_SIZE
  {
    Joined([0x4d, 0x5a], Joined(Blank(58), Store(DOS_SIZE, 4)))
  }

  function FixedSize(h: Header): nat {
    if h.pe32Plus then 112 else 96
  }

  function OptionalSize(h: Header): nat {
    FixedSize(h) + 8 * DIRECTORY_COUNT
  }

  function WriteCoff(machine: uint16, sectionCount: nat, optionalSize: nat): (r: seq<uint8>)
    ensures |r| == COFF_HEADER_SIZE
  {
    Joined(Store(machine, 2), Joined(Store(sectionCount, 2), Joined(Blank(12), Joined(Store(optionalSize, 2), Blank(2)))))
  }

  /** The second half of the tail, from the image size on. */
  function WriteSizes(h: Header): (r: seq<uint8>) {
    Joined(Store(h.imageSize, 4), Joined(Store(h.headersSize, 4), Joined(Blank(4), Joined(Store(h.subsystem, 2),
      Joined(Blank(FixedSize(h) - 74), Joined(Store(DIRECTORY_COUNT, 4), WriteDirectories(h.directories)))))))
  }

  /** The fields after the image base, up to the data directories. */
  function WriteTail(h: Header): (r: seq<uint8>) {
    Joined(Store(h.sectionAlignment, 4), Joined(Store(h.fileAlignment, 4), Joined(Blank(16), WriteSizes(h))))
  }

  function WriteOptional(h: Header): (r: seq<uint8>) {
    var base := if h.pe32Plus then Joined(Blank(4), Store(h.imageBase, 8)) else Joined(Blank(8), Store(h.imageBase, 4));
    Joined(Store(if h.pe32Plus then 0x020b else 0x010b, 2), Joined(Blank(14), Joined(Store(h.entryRva, 4), Joined(base, WriteTail(h)))))
  }

  function WriteTable(sections: seq<Section>): (r: seq<uint8>)
    requires AllNamed(sections)
    ensures |r| == SECTION_HEADER_SIZE * |sections|
  {
    if sections == [] then [] else Joined(WriteSection(sections[0], Blank(12)), WriteTable(sections[1..]))
  }

  predicate Linkable(machine: uint16, h: Header, sections: seq<Section>) {
    && (machine == MACHINE_AMD64 || machine == MACHINE_I386) && (machine == MACHINE_AMD64 <==> h.pe32Plus)
    && (!h.pe32Plus ==> h.imageBase < TWO_32) && |h.directories| == DIRECTORY_COUNT
    && 1 <= |sections| <= MAX_SECTIONS && AllNamed(sections)
  }

  function WriteHeaders(machine: uint16, h: Header, sections: seq<Section>): seq<uint8>
    requires Linkable(machine, h, sections)
  {
    Joined(WriteDos(), Joined([0x50, 0x45, 0, 0], Joined(WriteCoff(machine, |sections|, OptionalSize(h)),
      Joined(WriteOptional(h), WriteTable(sections)))))
  }

  lemma DosReads(file: seq<uint8>)
    requires Chunk(file, 0, WriteDos())
    ensures |file| >= DOS_SIZE && file[0] == 0x4d && file[1] == 0x5a && Get32(file, 0x3c) == DOS_SIZE
  {
    hide Store;
    SpanValues();
    Chunks(file, 0, [0x4d, 0x5a], Joined(Blank(58), Store(DOS_SIZE, 4)));
    Chunks(file, 2, Blank(58), Store(DOS_SIZE, 4));
    Reads(file, 60, DOS_SIZE, 4);
    assert file[0..2] == [0x4d, 0x5a];
    assert file[0] == file[0..2][0] && file[1] == file[0..2][1];
  }

  lemma SignatureReads(file: seq<uint8>, at: nat)
    requires Chunk(file, at, [0x50, 0x45, 0, 0])
    ensures at + 4 <= |file| && Get32(file, at) == 0x4550
  {
    LoadFour(0x50, 0x45, 0, 0);
  }

  lemma CoffReads(file: seq<uint8>, at: nat, machine: uint16, sectionCount: nat, optionalSize: nat)
    requires Chunk(file, at, WriteCoff(machine, sectionCount, optionalSize)) && sectionCount < 0x1_0000 && optionalSize < 0x1_0000
    ensures at + COFF_HEADER_SIZE <= |file|
    ensures Get16(file, at) == machine && Get16(file, at + 2) == sectionCount && Get16(file, at + 16) == optionalSize
  {
    hide Store;
    SpanValues();
    var last := Joined(Store(optionalSize, 2), Blank(2));
    Chunks(file, at, Store(machine, 2), Joined(Store(sectionCount, 2), Joined(Blank(12), last)));
    Chunks(file, at + 2, Store(sectionCount, 2), Joined(Blank(12), last));
    Chunks(file, at + 4, Blank(12), last);
    Chunks(file, at + 16, Store(optionalSize, 2), Blank(2));
    Reads(file, at, machine, 2);
    Reads(file, at + 2, sectionCount, 2);
    Reads(file, at + 16, optionalSize, 2);
  }

  lemma SizesRead(file: seq<uint8>, at: nat, h: Header)
    requires Chunk(file, at + 56, WriteSizes(h))
    ensures at + FixedSize(h) <= |file|
    ensures Get32(file, at + 56) == h.imageSize && Get32(file, at + 60) == h.headersSize && Get16(file, at + 68) == h.subsystem
    ensures Get32(file, at + FixedSize(h) - 4) == DIRECTORY_COUNT
    ensures Chunk(file, at + FixedSize(h), WriteDirectories(h.directories))
  {
    hide Store, Chunk, Get32, Get16, WriteDirectories;
    SpanValues();
    var gap, count, ds := Blank(FixedSize(h) - 74), Store(DIRECTORY_COUNT, 4), WriteDirectories(h.directories);
    var a := Joined(Store(h.subsystem, 2), Joined(gap, Joined(count, ds)));
    Chunks(file, at + 56, Store(h.imageSize, 4), Joined(Store(h.headersSize, 4), Joined(Blank(4), a)));
    Chunks(file, at + 60, Store(h.headersSize, 4), Joined(Blank(4), a));
    Chunks(file, at + 64, Blank(4), a);
    Chunks(file, at + 68, Store(h.subsystem, 2), Joined(gap, Joined(count, ds)));
    Chunks(file, at + 70, gap, Joined(count, ds));
    Chunks(file, at + FixedSize(h) - 4, count, ds);
    Reads(file, at + 56, h.imageSize, 4);
    Reads(file, at + 60, h.headersSize, 4);
    Reads(file, at + 68, h.subsystem, 2);
    Reads(file, at + FixedSize(h) - 4, DIRECTORY_COUNT, 4);
    ChunkFits(file, at + FixedSize(h), ds);
  }

  lemma TailReads(file: seq<uint8>, at: nat, h: Header)
    requires Chunk(file, at + 32, WriteTail(h))
    ensures at + 60 <= |file| && Get32(file, at + 32) == h.sectionAlignment && Get32(file, at + 36) == h.fileAlignment
    ensures Chunk(file, at + 56, WriteSizes(h))
  {
    hide Store, Chunk, Get32, WriteSizes;
    SpanValues();
    Chunks(file, at + 32, Store(h.sectionAlignment, 4), Joined(Store(h.fileAlignment, 4), Joined(Blank(16), WriteSizes(h))));
    Chunks(file, at + 36, Store(h.fileAlignment, 4), Joined(Blank(16), WriteSizes(h)));
    Chunks(file, at + 40, Blank(16), WriteSizes(h));
    Reads(file, at + 32, h.sectionAlignment, 4);
    Reads(file, at + 36, h.fileAlignment, 4);
    SizesLength(file, at, h);
  }

  lemma SizesLength(file: seq<uint8>, at: nat, h: Header)
    requires Chunk(file, at + 56, WriteSizes(h))
    ensures at + 60 <= |file|
  {
  }

  lemma ChunkFits(file: seq<uint8>, at: nat, bytes: seq<uint8>)
    requires Chunk(file, at, bytes)
    ensures at + |bytes| <= |file|
  {
  }

  lemma OptionalReads(file: seq<uint8>, at: nat, h: Header)
    requires Chunk(file, at, WriteOptional(h)) && (!h.pe32Plus ==> h.imageBase < TWO_32)
    ensures Chunk(file, at + 32, WriteTail(h)) && at + 32 <= |file|
    ensures Get16(file, at) == (if h.pe32Plus then 0x020b else 0x010b) && Get32(file, at + 16) == h.entryRva
    ensures if h.pe32Plus then Get64(file, at + 24) == h.imageBase else Get32(file, at + 28) == h.imageBase
  {
    hide Store, Chunk, Get16, Get32, Get64, WriteTail;
    SpanValues();
    var magic := if h.pe32Plus then 0x020b else 0x010b;
    var base := if h.pe32Plus then Joined(Blank(4), Store(h.imageBase, 8)) else Joined(Blank(8), Store(h.imageBase, 4));
    Chunks(file, at, Store(magic, 2), Joined(Blank(14), Joined(Store(h.entryRva, 4), Joined(base, WriteTail(h)))));
    Chunks(file, at + 2, Blank(14), Joined(Store(h.entryRva, 4), Joined(base, WriteTail(h))));
    Chunks(file, at + 16, Store(h.entryRva, 4), Joined(base, WriteTail(h)));
    Chunks(file, at + 20, base, WriteTail(h));
    ChunkFits(file, at + 20, base);
    Reads(file, at, magic, 2);
    Reads(file, at + 16, h.entryRva, 4);
    if h.pe32Plus {
      Chunks(file, at + 20, Blank(4), Store(h.imageBase, 8));
      Reads(file, at + 24, h.imageBase, 8);
    } else {
      Chunks(file, at + 20, Blank(8), Store(h.imageBase, 4));
      Reads(file, at + 28, h.imageBase, 4);
    }
  }

  lemma {:induction false} DirectoriesRead(file: seq<uint8>, offset: nat, first: nat, size: nat, ds: seq<DataDirectory>, from: nat)
    requires from <= |ds| && offset + size <= |file| && first + 8 * |ds| <= size
    requires Chunk(file, offset + first + from * 8, WriteDirectories(ds[from..]))
    ensures ReadDirectories(file, offset, first, size, from, |ds|) == Ok(ds[from..])
    decreases |ds| - from
  {
    hide Store, Chunk, Get32;
    if from < |ds| {
      SpanValues();
      var at, rest, d := offset + first + from * 8, ds[from..][1..], ds[from];
      assert rest == ds[from + 1..];
      Chunks(file, at, Store(d.rva, 4), Joined(Store(d.size, 4), WriteDirectories(rest)));
      Chunks(file, at + 4, Store(d.size, 4), WriteDirectories(rest));
      Reads(file, at, d.rva, 4);
      Reads(file, at + 4, d.size, 4);
      DirectoriesRead(file, offset, first, size, ds, from + 1);
      assert ds[from..] == [d] + rest;
    }
  }

  /** A written optional header reads back, if its sizes are sound; otherwise the image is refused. */
  lemma HeaderReadsBack(file: seq<uint8>, at: nat, h: Header)
    requires Chunk(file, at, WriteOptional(h)) && |h.directories| == DIRECTORY_COUNT && (!h.pe32Plus ==> h.imageBase < TWO_32)
    ensures ReadOptionalHeader(file, at, OptionalSize(h)) == if HeaderOk(h, |file|) then Ok(h) else Err(InvalidImage)
  {
    hide Chunk, WriteOptional, WriteTail, WriteSizes, WriteDirectories, Get16, Get32, Get64, ReadDirectories;
    OptionalReads(file, at, h);
    TailReads(file, at, h);
    SizesRead(file, at, h);
    ChunkFits(file, at + FixedSize(h), WriteDirectories(h.directories));
    assert h.directories[0..] == h.directories && at + FixedSize(h) + 0 * 8 == at + FixedSize(h);
    DirectoriesRead(file, at, FixedSize(h), OptionalSize(h), h.directories, 0);
    assert Padded(h.directories) == h.directories;
  }

  lemma {:induction false} TablePlaced(file: seq<uint8>, table: nat, sections: seq<Section>, from: nat)
    requires AllNamed(sections) && from <= |sections| && table + |sections| * SECTION_HEADER_SIZE <= |file|
    requires Chunk(file, table + from * SECTION_HEADER_SIZE, WriteTable(sections[from..]))
    ensures TableAt(file, table, sections, from)
    decreases |sections| - from
  {
    hide WriteSection, HeaderAt;
    if from < |sections| {
      var at, rest := table + from * SECTION_HEADER_SIZE, sections[from..][1..];
      assert rest == sections[from + 1..];
      Chunks(file, at, WriteSection(sections[from], Blank(12)), WriteTable(rest));
      TablePlaced(file, table, sections, from + 1);
      HeaderPlaced(file, at, sections[from]);
    }
  }

  lemma HeaderPlaced(file: seq<uint8>, at: nat, s: Section)
    requires |s.name| == 8 && at + SECTION_HEADER_SIZE <= |file| && Chunk(file, at, WriteSection(s, Blank(12)))
    ensures HeaderAt(file, at, s)
  {
    hide WriteSection;
    assert |Blank(12)| == 12 && file[at..at + SECTION_HEADER_SIZE] == WriteSection(s, Blank(12));
  }

  /** A file that starts with written headers parses to exactly what was written, if its ranges are sound, or is refused. */
  lemma ImageReadsBack(file: seq<uint8>, machine: uint16, h: Header, sections: seq<Section>)
    requires Linkable(machine, h, sections) && WriteHeaders(machine, h, sections) <= file
    ensures ParseImage(file) == if HeaderOk(h, |file|) && SectionsOk(sections, |file|, h.imageSize)
                                then Ok(Image(file, machine, h, sections)) else Err(InvalidImage)
  {
    hide Chunk, WriteDos, WriteCoff, WriteOptional, WriteTable, ReadOptionalHeader, ReadSections, Get16, Get32, HeaderOk, SectionsOk;
    var coff, optional, table := WriteCoff(machine, |sections|, OptionalSize(h)), WriteOptional(h), WriteTable(sections);
    var all := WriteHeaders(machine, h, sections);
    assert Chunk(file, 0, all) by { PrefixIsChunk(file, all); }
    assert |optional| == OptionalSize(h) by { OptionalLength(h); }
    Chunks(file, 0, WriteDos(), Joined([0x50, 0x45, 0, 0], Joined(coff, Joined(optional, table))));
    Chunks(file, 64, [0x50, 0x45, 0, 0], Joined(coff, Joined(optional, table)));
    Chunks(file, 68, coff, Joined(optional, table));
    Chunks(file, OPTIONAL_OFFSET, optional, table);
    DosReads(file);
    SignatureReads(file, 64);
    CoffReads(file, 68, machine, |sections|, OptionalSize(h));
    HeaderReadsBack(file, OPTIONAL_OFFSET, h);
    ChunkFits(file, OPTIONAL_OFFSET + OptionalSize(h), table);
    assert sections[0..] == sections;
    TablePlaced(file, OPTIONAL_OFFSET + OptionalSize(h), sections, 0);
    TableReadsBack(file, OPTIONAL_OFFSET + OptionalSize(h), h.imageSize, sections, 0);
  }

  lemma PrefixIsChunk(file: seq<uint8>, all: seq<uint8>)
    requires all <= file
    ensures Chunk(file, 0, all)
  {
  }

  lemma OptionalLength(h: Header)
    requires |h.directories| == DIRECTORY_COUNT
    ensures |WriteOptional(h)| == OptionalSize(h)
  {
  }

  // Two sections over one address

  /** A file of headers and two bytes, for two sections of one byte at the same address. */
  function OverlappingHeader(): Header {
    Header(false, 0x40_0000, 0, 0x1000, 0x200, 0x2000, 392, 3, seq(DIRECTORY_COUNT, _ => DataDirectory(0, 0)))
  }

  function OverlappingSections(): (r: seq<Section>)
    ensures AllNamed(r)
  {
    [Section(Blank(8), 1, 0x1000, 1, 392, 0), Section(Blank(8), 1, 0x1000, 1, 393, 0)]
  }

  /** The file parses; its first section answers for the file, its last one for the mapping. */
  lemma OverlapDisagrees(first: uint8, last: uint8) returns (file: seq<uint8>, image: Image)
    ensures ParseImage(file) == Ok(image) && WellFormed(image)
    ensures FileWindow(image, 0x1000) == Ok(Window(392, 1)) && |file| == 394 && file[392] == first
    ensures MapImage(image).Ok? && |MapImage(image).value| == 0x2000 && MapImage(image).value[0x1000] == last
  {
    hide WriteHeaders, MapImage, ParseImage;
    var h, sections := OverlappingHeader(), OverlappingSections();
    HeadersLength(MACHINE_I386, h, sections);
    file := WriteHeaders(MACHINE_I386, h, sections) + [first, last];
    assert SectionOk(sections[0], |file|, h.imageSize) && SectionOk(sections[1], |file|, h.imageSize);
    ImageReadsBack(file, MACHINE_I386, h, sections);
    image := Image(file, MACHINE_I386, h, sections);
    assert SectionsOk(sections, |file|, h.imageSize);
    assert InSection(sections[0], 0x1000);
    MappedByte(image, 0x1000);
    assert LastCover(sections, 0x1000, 2) == None;
    assert LastCover(sections, 0x1000, 1) == Some(393);
  }

  lemma HeadersLength(machine: uint16, h: Header, sections: seq<Section>)
    requires Linkable(machine, h, sections)
    ensures |WriteHeaders(machine, h, sections)| == OPTIONAL_OFFSET + OptionalSize(h) + SECTION_HEADER_SIZE * |sections|
  {
    hide WriteDos, WriteCoff, WriteOptional, WriteTable;
    OptionalLength(h);
  }
}
