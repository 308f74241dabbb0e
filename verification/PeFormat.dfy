/**
 * The portable executable format as a table of offsets, and that parsing accepts any
 * bytes whatever exactly when they follow it, with every field from its own place.
 */
module PeFormat {
  import opened Bytes
  import opened PeImage

  /** The n bytes at an offset are in the file and hold this value. */
  ghost predicate Holds(file: seq<uint8>, at: nat, n: nat, v: nat) {
    at + n <= |file| && Load(file[at..at + n]) == v
  }

  // The parts, located

  /** Where the PE signature stands. */
  function PeAt(file: seq<uint8>): nat
    requires |file| >= 64
  {
    Load(file[60..64])
  }

  ghost predicate HasDos(file: seq<uint8>) {
    |file| >= 64 && file[0] == 0x4d && file[1] == 0x5a
  }

  ghost predicate HasSignature(file: seq<uint8>) {
    HasDos(file) && Holds(file, PeAt(file), 4, 0x4550)
  }

  /** The COFF header fits behind the signature. */
  ghost predicate HasCoff(file: seq<uint8>) {
    HasSignature(file) && PeAt(file) + 24 <= |file|
  }

  function MachineOf(file: seq<uint8>): nat
    requires |file| >= 64 && PeAt(file) + 24 <= |file|
  {
    Load(file[PeAt(file) + 4..PeAt(file) + 6])
  }

  function CountOf(file: seq<uint8>): nat
    requires |file| >= 64 && PeAt(file) + 24 <= |file|
  {
    Load(file[PeAt(file) + 6..PeAt(file) + 8])
  }

  function OptionalSizeOf(file: seq<uint8>): nat
    requires |file| >= 64 && PeAt(file) + 24 <= |file|
  {
    Load(file[PeAt(file) + 20..PeAt(file) + 22])
  }

  predicate MachineKnown(machine: nat) {
    machine == 0x014c || machine == 0x8664
  }

  ghost predicate CoffIs(file: seq<uint8>, c: Coff) {
    && HasCoff(file) && MachineKnown(MachineOf(file)) && 1 <= CountOf(file) <= 96
    && c == Coff(MachineOf(file), CountOf(file), OptionalSizeOf(file), PeAt(file) + 24)
  }

  lemma LoadFits(file: seq<uint8>, at: nat, n: nat)
    requires at + n <= |file| && n in {2, 4, 8}
    ensures n == 2 ==> Load(file[at..at + n]) < 0x1_0000
    ensures n == 4 ==> Load(file[at..at + n]) < TWO_32
    ensures n == 8 ==> Load(file[at..at + n]) < TWO_64
  {
    SpanValues();
  }

  lemma CoffIff(file: seq<uint8>, c: Coff)
    ensures ReadCoff(file) == Ok(c) <==> CoffIs(file, c)
  {
    hide Load;
  }

  // The optional header

  /** A data directory the file names stands in its place; one it does not name is empty. */
  ghost predicate DirectoryAt(file: seq<uint8>, offset: nat, fixed: nat, size: nat, named: nat, d: DataDirectory, k: nat) {
    if k < named then
      && fixed + 8 * k + 8 <= size
      && Holds(file, offset + fixed + 8 * k, 4, d.rva) && Holds(file, offset + fixed + 8 * k + 4, 4, d.size)
    else d == DataDirectory(0, 0)
  }

  /** The sizes are those of an image: headers in the file and the image, the entry point in the image. */
  predicate SizesSound(h: Header, fileSize: nat) {
    && 0 < h.headersSize <= h.imageSize && h.headersSize <= fileSize
    && (h.entryRva == 0 || h.entryRva < h.imageSize)
  }

  ghost predicate FieldsAt(file: seq<uint8>, offset: nat, h: Header) {
    && Holds(file, offset, 2, if h.pe32Plus then 0x020b else 0x010b)
    && Holds(file, offset + 16, 4, h.entryRva)
    && (if h.pe32Plus then Holds(file, offset + 24, 8, h.imageBase) else Holds(file, offset + 28, 4, h.imageBase))
    && Holds(file, offset + 32, 4, h.sectionAlignment) && Holds(file, offset + 36, 4, h.fileAlignment)
    && Holds(file, offset + 56, 4, h.imageSize) && Holds(file, offset + 60, 4, h.headersSize)
    && Holds(file, offset + 68, 2, h.subsystem)
  }

  /** The number of directories, four bytes before the first of them. */
  function NamedOf(file: seq<uint8>, offset: nat, fixed: nat): nat
    requires 4 <= fixed && offset + fixed <= |file|
  {
    Load(file[offset + fixed - 4..offset + fixed])
  }

  ghost predicate HeaderIs(file: seq<uint8>, offset: nat, size: nat, h: Header) {
    var fixed := if h.pe32Plus then 112 else 96;
    && offset + size <= |file| && fixed <= size
    && FieldsAt(file, offset, h) && SizesSound(h, |file|)
    && |h.directories| == 16
    && forall k :: 0 <= k < 16 ==> DirectoryAt(file, offset, fixed, size, NamedOf(file, offset, fixed), h.directories[k], k)
  }

  lemma {:induction false} DirectoriesIff(file: seq<uint8>, offset: nat, first: nat, size: nat, from: nat, count: nat, ds: seq<DataDirectory>)
    requires from <= count && offset + size <= |file|
    ensures ReadDirectories(file, offset, first, size, from, count) == Ok(ds) <==>
            |ds| == count - from && forall k :: 0 <= k < |ds| ==> DirectoryAt(file, offset, first, size, count, ds[k], from + k)
    decreases count - from
  {
    hide Load;
    if from < count {
      var read := ReadDirectory(file, offset, first + from * 8, size);
      var rest := ReadDirectories(file, offset, first, size, from + 1, count);
      if ds != [] {
        DirectoriesIff(file, offset, first, size, from + 1, count, ds[1..]);
        DirectoryIff(file, offset, first, size, count, from, ds[0]);
        assert ds == [ds[0]] + ds[1..];
        assert forall k :: 1 <= k < |ds| ==> ds[k] == ds[1..][k - 1];
      }
    }
  }

  lemma DirectoryIff(file: seq<uint8>, offset: nat, first: nat, size: nat, count: nat, k: nat, d: DataDirectory)
    requires k < count && offset + size <= |file|
    ensures ReadDirectory(file, offset, first + k * 8, size) == Ok(d) <==> DirectoryAt(file, offset, first, size, count, d, k)
  {
    hide Load;
  }

  lemma HeaderIff(file: seq<uint8>, offset: nat, size: uint16, h: Header)
    ensures ReadOptionalHeader(file, offset, size) == Ok(h) <==> HeaderIs(file, offset, size, h)
  {
    if HeaderIs(file, offset, size, h) {
      HeaderRead(file, offset, size, h);
    }
    if ReadOptionalHeader(file, offset, size) == Ok(h) {
      ReadIsHeader(file, offset, size, h);
    }
  }

  lemma HeaderRead(file: seq<uint8>, offset: nat, size: uint16, h: Header)
    requires HeaderIs(file, offset, size, h)
    ensures ReadOptionalHeader(file, offset, size) == Ok(h)
  {
    hide Load, ReadDirectories, DirectoryAt;
    var fixed := if h.pe32Plus then 112 else 96;
    var named := NamedOf(file, offset, fixed);
    var count := if named > 16 then 16 else named;
    assert ReadDirectories(file, offset, fixed, size, 0, count) == Ok(h.directories[..count]) by {
      CountedRead(file, offset, fixed, size, named, h.directories);
    }
    assert Padded(h.directories[..count]) == h.directories by {
      PaddedIs(file, offset, fixed, size, named, h.directories);
    }
  }

  lemma CountedRead(file: seq<uint8>, offset: nat, fixed: nat, size: nat, named: nat, ds: seq<DataDirectory>)
    requires offset + size <= |file| && |ds| == 16 && forall k :: 0 <= k < 16 ==> DirectoryAt(file, offset, fixed, size, named, ds[k], k)
    ensures var count := if named > 16 then 16 else named;
            ReadDirectories(file, offset, fixed, size, 0, count) == Ok(ds[..count])
  {
    var count := if named > 16 then 16 else named;
    DirectoriesIff(file, offset, fixed, size, 0, count, ds[..count]);
    forall k | 0 <= k < count
      ensures DirectoryAt(file, offset, fixed, size, count, ds[..count][k], 0 + k)
    {
      assert DirectoryAt(file, offset, fixed, size, named, ds[k], k);
    }
  }

  lemma PaddedIs(file: seq<uint8>, offset: nat, fixed: nat, size: nat, named: nat, ds: seq<DataDirectory>)
    requires |ds| == 16 && forall k :: 0 <= k < 16 ==> DirectoryAt(file, offset, fixed, size, named, ds[k], k)
    ensures Padded(ds[..if named > 16 then 16 else named]) == ds
  {
    var count := if named > 16 then 16 else named;
    var padded := Padded(ds[..count]);
    forall k | 0 <= k < 16
      ensures padded[k] == ds[k]
    {
      assert DirectoryAt(file, offset, fixed, size, named, ds[k], k);
    }
  }

  lemma ReadIsHeader(file: seq<uint8>, offset: nat, size: uint16, h: Header)
    requires ReadOptionalHeader(file, offset, size) == Ok(h)
    ensures HeaderIs(file, offset, size, h)
  {
    hide Load, ReadDirectories, DirectoryAt;
    var fixed := if h.pe32Plus then 112 else 96;
    var named := NamedOf(file, offset, fixed);
    var count := if named > 16 then 16 else named;
    var ds := ReadDirectories(file, offset, fixed, size, 0, count).value;
    DirectoriesIff(file, offset, fixed, size, 0, count, ds);
    forall k | 0 <= k < 16
      ensures DirectoryAt(file, offset, fixed, size, named, h.directories[k], k)
    {
      DirectoryNamed(file, offset, fixed, size, named, count, ds, k);
    }
  }

  lemma DirectoryNamed(file: seq<uint8>, offset: nat, fixed: nat, size: nat, named: nat, count: nat, ds: seq<DataDirectory>, k: nat)
    requires count == (if named > 16 then 16 else named) && |ds| == count && k < 16
    requires forall j :: 0 <= j < |ds| ==> DirectoryAt(file, offset, fixed, size, count, ds[j], 0 + j)
    ensures DirectoryAt(file, offset, fixed, size, named, Padded(ds)[k], k)
  {
    if k < count {
      assert DirectoryAt(file, offset, fixed, size, count, ds[k], 0 + k);
    }
  }

  // The sections

  ghost predicate SectionIs(file: seq<uint8>, at: nat, s: Section) {
    && at + 40 <= |file| && file[at..at + 8] == s.name
    && Holds(file, at + 8, 4, s.virtualSize) && Holds(file, at + 12, 4, s.virtualAddress)
    && Holds(file, at + 16, 4, s.rawSize) && Holds(file, at + 20, 4, s.rawOffset) && Holds(file, at + 36, 4, s.characteristics)
  }

  /** Raw bytes lie in the file, and both extents in the image. */
  predicate SectionSound(s: Section, fileSize: nat, imageSize: nat) {
    && (s.rawSize == 0 || (s.rawOffset + s.rawSize <= fileSize && s.virtualAddress + s.rawSize <= imageSize))
    && (s.virtualSize == 0 || s.virtualAddress + s.virtualSize <= imageSize)
  }

  ghost predicate TableIs(file: seq<uint8>, table: nat, imageSize: nat, sections: seq<Section>, from: nat) {
    forall k :: 0 <= k < |sections| ==> SectionIs(file, table + 40 * (from + k), sections[k]) && SectionSound(sections[k], |file|, imageSize)
  }

  lemma SectionIff(file: seq<uint8>, at: nat, imageSize: nat, s: Section)
    requires at + 40 <= |file|
    ensures ReadSection(file, at, imageSize) == Ok(s) <==> SectionIs(file, at, s) && SectionSound(s, |file|, imageSize)
  {
    hide Load;
  }

  lemma {:induction false} SectionsIff(file: seq<uint8>, table: nat, imageSize: nat, from: nat, count: nat, sections: seq<Section>)
    requires from <= count && table + count * 40 <= |file|
    ensures ReadSections(file, table, imageSize, from, count) == Ok(sections) <==>
            |sections| == count - from && TableIs(file, table, imageSize, sections, from)
    decreases count - from
  {
    hide ReadSection, SectionIs, SectionSound;
    if from < count && sections != [] {
      SectionIff(file, table + from * 40, imageSize, sections[0]);
      SectionsIff(file, table, imageSize, from + 1, count, sections[1..]);
      assert sections == [sections[0]] + sections[1..];
      assert forall k :: 1 <= k < |sections| ==> sections[k] == sections[1..][k - 1];
      assert forall k :: 0 <= k < |sections[1..]| ==> sections[1..][k] == sections[k + 1];
    }
  }

  // The whole image

  /** Every field of the image stands in the file where the format puts it, and every range is sound. */
  ghost predicate Describes(file: seq<uint8>, image: Image) {
    && image.file == file && HasCoff(file)
    && MachineKnown(MachineOf(file)) && image.machine == MachineOf(file) && (image.machine == 0x8664 <==> image.header.pe32Plus)
    && 1 <= CountOf(file) <= 96 && |image.sections| == CountOf(file)
    && var offset, size := PeAt(file) + 24, OptionalSizeOf(file);
       && HeaderIs(file, offset, size, image.header)
       && offset + size + 40 * |image.sections| <= |file|
       && TableIs(file, offset + size, image.header.imageSize, image.sections, 0)
  }

  /** Any bytes whatever parse to an image if and only if they describe it. */
  lemma ParseIff(file: seq<uint8>, image: Image)
    ensures ParseImage(file) == Ok(image) <==> Describes(file, image)
  {
    hide Load, ReadCoff, ReadOptionalHeader, ReadSections, HeaderIs, TableIs;
    if ParseImage(file).Ok? {
      CoffIff(file, ReadCoff(file).value);
    }
    if HasCoff(file) {
      var c := CoffOf(file);
      CoffIff(file, c);
      HeaderIff(file, c.optionalOffset, c.optionalSize, image.header);
      if c.optionalOffset + c.optionalSize + 40 * c.sectionCount <= |file| {
        SectionsIff(file, c.optionalOffset + c.optionalSize, image.header.imageSize, 0, c.sectionCount, image.sections);
      }
    }
  }

  function CoffOf(file: seq<uint8>): Coff
    requires |file| >= 64 && PeAt(file) + 24 <= |file|
  {
    SpanValues();
    Coff(MachineOf(file), CountOf(file), OptionalSizeOf(file), PeAt(file) + 24)
  }

  // The refusals

  lemma CoffRefuses(file: seq<uint8>)
    ensures var r := ReadCoff(file);
            && (r == Err(BadDosSignature) <==> |file| >= 64 && !HasDos(file))
            && (r == Err(BadPeSignature) <==> HasDos(file) && PeAt(file) + 4 <= |file| && !HasSignature(file))
            && (r == Err(UnsupportedMachine) <==> HasCoff(file) && !MachineKnown(MachineOf(file)))
            && (r.Err? ==> r.error in {TruncatedFile, BadDosSignature, BadPeSignature, UnsupportedMachine, InvalidImage})
  {
    hide Load;
  }

  lemma {:induction false} DirectoriesRefuse(file: seq<uint8>, offset: nat, first: nat, size: nat, from: nat, count: nat)
    requires from <= count && offset + size <= |file|
    ensures ReadDirectories(file, offset, first, size, from, count).Ok? || ReadDirectories(file, offset, first, size, from, count) == Err(TruncatedFile)
    decreases count - from
  {
    if from < count {
      DirectoriesRefuse(file, offset, first, size, from + 1, count);
    }
  }

  lemma HeaderRefuses(file: seq<uint8>, offset: nat, size: uint16)
    ensures var r := ReadOptionalHeader(file, offset, size);
            && (r == Err(UnsupportedOptionalHeader) <==>
                  offset + size <= |file| && offset + 2 <= |file| && !Holds(file, offset, 2, 0x010b) && !Holds(file, offset, 2, 0x020b))
            && (r.Err? ==> r.error in {TruncatedFile, UnsupportedOptionalHeader, InvalidImage})
  {
    hide Load, ReadDirectories;
    if offset + size <= |file| && offset + 2 <= |file| {
      var fixed := if Holds(file, offset, 2, 0x020b) then 112 else 96;
      if fixed <= size {
        var named := NamedOf(file, offset, fixed);
        DirectoriesRefuse(file, offset, fixed, size, 0, if named > 16 then 16 else named);
      }
    }
  }

  lemma {:induction false} SectionsRefuse(file: seq<uint8>, table: nat, imageSize: nat, from: nat, count: nat)
    requires from <= count && table + count * 40 <= |file|
    ensures ReadSections(file, table, imageSize, from, count).Ok? || ReadSections(file, table, imageSize, from, count) == Err(InvalidImage)
    decreases count - from
  {
    hide Load, SectionOk;
    if from < count {
      SectionsRefuse(file, table, imageSize, from + 1, count);
    }
  }

  /** What is told apart: no DOS file, no PE signature, another machine, another optional header; and nothing else is but truncation. */
  lemma RefusalsTold(file: seq<uint8>)
    ensures var r := ParseImage(file);
            && (r == Err(BadDosSignature) <==> |file| >= 64 && !HasDos(file))
            && (r == Err(BadPeSignature) <==> HasDos(file) && PeAt(file) + 4 <= |file| && !HasSignature(file))
            && (r == Err(UnsupportedMachine) <==> HasCoff(file) && !MachineKnown(MachineOf(file)))
            && (r == Err(UnsupportedOptionalHeader) <==>
                  && HasCoff(file) && MachineKnown(MachineOf(file)) && 1 <= CountOf(file) <= 96
                  && PeAt(file) + 24 + OptionalSizeOf(file) <= |file| && PeAt(file) + 26 <= |file|
                  && !Holds(file, PeAt(file) + 24, 2, 0x010b) && !Holds(file, PeAt(file) + 24, 2, 0x020b))
            && (r.Err? ==>
                  r.error in {TruncatedFile, BadDosSignature, BadPeSignature, UnsupportedMachine, UnsupportedOptionalHeader, InvalidImage})
  {
    hide Load, ReadCoff, ReadOptionalHeader, ReadSections, Holds;
    CoffRefuses(file);
    if HasCoff(file) {
      CoffIff(file, CoffOf(file));
    }
    if ReadCoff(file).Ok? {
      var c := ReadCoff(file).value;
      CoffIff(file, c);
      HeaderRefuses(file, c.optionalOffset, c.optionalSize);
      var header := ReadOptionalHeader(file, c.optionalOffset, c.optionalSize);
      if header.Ok? && c.optionalOffset + c.optionalSize + c.sectionCount * 40 <= |file| {
        SectionsRefuse(file, c.optionalOffset + c.optionalSize, header.value.imageSize, 0, c.sectionCount);
      }
    }
  }
}
