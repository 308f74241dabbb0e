/** Parsing a portable executable: headers, data directories and the section table. */
module PeImage {
  import opened Bytes

  const COFF_HEADER_SIZE: nat := 20
  const SECTION_HEADER_SIZE: nat := 40
  const DIRECTORY_COUNT: nat := 16
  const MAX_SECTIONS: nat := 96
  const MACHINE_I386: int := 0x014c
  const MACHINE_AMD64: int := 0x8664

  datatype Error =
    | TruncatedFile | BadDosSignature | BadPeSignature | UnsupportedMachine | UnsupportedOptionalHeader
    | InvalidImage | RvaNotMapped | ExportNotFound

  datatype Result<+T> = Ok(value: T) | Err(error: Error) {
    predicate IsFailure() { Err? }
    function PropagateFailure<U>(): Result<U>
      requires Err?
    {
      Err(error)
    }
    function Extract(): T
      requires Ok?
    {
      value
    }
  }

  datatype DataDirectory = DataDirectory(rva: uint32, size: uint32)

  datatype Section = Section(
    name: seq<uint8>, virtualSize: uint32, virtualAddress: uint32, rawSize: uint32, rawOffset: uint32, characteristics: uint32)

  datatype Header = Header(
    pe32Plus: bool, imageBase: uint64, entryRva: uint32, sectionAlignment: uint32, fileAlignment: uint32, imageSize: uint32,
    headersSize: uint32, subsystem: uint16, directories: seq<DataDirectory>)

  datatype Image = Image(file: seq<uint8>, machine: uint16, header: Header, sections: seq<Section>)

  // Reads that a range check before them covers

  function Get16(file: seq<uint8>, offset: nat): uint16
    requires offset + 2 <= |file|
  {
    Load16(file[offset..offset + 2])
  }

  function Get32(file: seq<uint8>, offset: nat): uint32
    requires offset + 4 <= |file|
  {
    Load32(file[offset..offset + 4])
  }

  function Get64(file: seq<uint8>, offset: nat): uint64
    requires offset + 8 <= |file|
  {
    Load64(file[offset..offset + 8])
  }

  // Reads that check their own range

  function Read16(file: seq<uint8>, offset: nat): Result<uint16> {
    if offset + 2 <= |file| then Ok(Get16(file, offset)) else Err(TruncatedFile)
  }

  function Read32(file: seq<uint8>, offset: nat): Result<uint32> {
    if offset + 4 <= |file| then Ok(Get32(file, offset)) else Err(TruncatedFile)
  }

  function Check(condition: bool, error: Error): Result<()> {
    if condition then Ok(()) else Err(error)
  }

  // Data directories

  function ReadDirectory(file: seq<uint8>, offset: nat, relative: nat, size: nat): Result<DataDirectory>
    requires offset + size <= |file|
  {
    if relative + 8 > size then Err(TruncatedFile)
    else Ok(DataDirectory(Get32(file, offset + relative), Get32(file, offset + relative + 4)))
  }

  /** The directories from an index up to count, each eight bytes after first. */
  function ReadDirectories(file: seq<uint8>, offset: nat, first: nat, size: nat, from: nat, count: nat): (r: Result<seq<DataDirectory>>)
    requires from <= count && offset + size <= |file|
    ensures r.Ok? ==> |r.value| == count - from
    decreases count - from
  {
    if from == count then Ok([])
    else
      var directory :- ReadDirectory(file, offset, first + from * 8, size);
      var rest :- ReadDirectories(file, offset, first, size, from + 1, count);
      Ok([directory] + rest)
  }

  /** Unnamed directories stay zero. */
  function Padded(directories: seq<DataDirectory>): (r: seq<DataDirectory>)
    requires |directories| <= DIRECTORY_COUNT
    ensures |r| == DIRECTORY_COUNT
  {
    directories + seq(DIRECTORY_COUNT - |directories|, _ => DataDirectory(0, 0))
  }

  // The optional header

  predicate HeaderOk(h: Header, fileSize: nat) {
    && h.imageSize != 0 && h.headersSize != 0 && h.headersSize <= h.imageSize && h.headersSize <= fileSize
    && (h.entryRva == 0 || h.entryRva < h.imageSize)
  }

  function ReadOptionalHeader(file: seq<uint8>, offset: nat, size: uint16): (r: Result<Header>)
    ensures r.Ok? ==> HeaderOk(r.value, |file|) && |r.value.directories| == DIRECTORY_COUNT
  {
    var _ :- Check(offset + size <= |file|, TruncatedFile);
    var magic :- Read16(file, offset);
    var _ :- Check(magic == 0x010b || magic == 0x020b, UnsupportedOptionalHeader);
    var plus := magic == 0x020b;
    var fixedSize := if plus then 112 else 96;
    var _ :- Check(size >= fixedSize, TruncatedFile);
    var base := if plus then Get64(file, offset + 24) else Get32(file, offset + 28);
    var named := Get32(file, offset + fixedSize - 4);
    var entry := Get32(file, offset + 16);
    var sectionAlignment := Get32(file, offset + 32);
    var fileAlignment := Get32(file, offset + 36);
    var imageSize := Get32(file, offset + 56);
    var headersSize := Get32(file, offset + 60);
    var subsystem := Get16(file, offset + 68);
    var h := Header(plus, base, entry, sectionAlignment, fileAlignment, imageSize, headersSize, subsystem, []);
    var _ :- Check(HeaderOk(h, |file|), InvalidImage);
    var count := if named > DIRECTORY_COUNT then DIRECTORY_COUNT else named;
    var directories :- ReadDirectories(file, offset, fixedSize, size, 0, count);
    Ok(h.(directories := Padded(directories)))
  }

  // Sections

  /** The raw bytes lie in the file and, like the virtual extent, in the image. */
  predicate SectionOk(s: Section, fileSize: nat, imageSize: nat) {
    && (s.rawSize != 0 ==> s.rawOffset + s.rawSize <= fileSize && s.virtualAddress + s.rawSize <= imageSize)
    && (s.virtualSize != 0 ==> s.virtualAddress + s.virtualSize <= imageSize)
  }

  function ReadSection(file: seq<uint8>, cursor: nat, imageSize: nat): (r: Result<Section>)
    requires cursor + SECTION_HEADER_SIZE <= |file|
    ensures r.Ok? ==> SectionOk(r.value, |file|, imageSize)
  {
    var s := Section(file[cursor..cursor + 8], Get32(file, cursor + 8), Get32(file, cursor + 12), Get32(file, cursor + 16),
                     Get32(file, cursor + 20), Get32(file, cursor + 36));
    if SectionOk(s, |file|, imageSize) then Ok(s) else Err(InvalidImage)
  }

  predicate SectionsOk(sections: seq<Section>, fileSize: nat, imageSize: nat) {
    forall k :: 0 <= k < |sections| ==> SectionOk(sections[k], fileSize, imageSize)
  }

  function ReadSections(file: seq<uint8>, table: nat, imageSize: nat, from: nat, count: nat): (r: Result<seq<Section>>)
    requires from <= count && table + count * SECTION_HEADER_SIZE <= |file|
    ensures r.Ok? ==> |r.value| == count - from && SectionsOk(r.value, |file|, imageSize)
    decreases count - from
  {
    if from == count then Ok([])
    else
      var section :- ReadSection(file, table + from * SECTION_HEADER_SIZE, imageSize);
      var rest :- ReadSections(file, table, imageSize, from + 1, count);
      Ok([section] + rest)
  }

  method ParseSections(file: seq<uint8>, table: nat, imageSize: nat, count: nat) returns (r: Result<seq<Section>>)
    requires table + count * SECTION_HEADER_SIZE <= |file|
    ensures r == ReadSections(file, table, imageSize, 0, count)
  {
    hide ReadSection;
    ghost var goal := ReadSections(file, table, imageSize, 0, count);
    var sections: seq<Section> := [];
    var index := 0;
    assert goal.Ok? ==> [] + goal.value == goal.value;
    while index < count
      invariant index <= count
      invariant goal == Prepended(sections, ReadSections(file, table, imageSize, index, count))
    {
      PrependedTwice(sections, file, table, imageSize, index, count);
      var section := ReadSection(file, table + index * SECTION_HEADER_SIZE, imageSize);
      if section.Err? {
        return Err(section.error);
      }
      sections := sections + [section.value];
      index := index + 1;
    }
    assert sections + [] == sections;
    r := Ok(sections);
  }

  function Prepended(front: seq<Section>, r: Result<seq<Section>>): Result<seq<Section>> {
    if r.Ok? then Ok(front + r.value) else r
  }

  lemma PrependedTwice(front: seq<Section>, file: seq<uint8>, table: nat, imageSize: nat, from: nat, count: nat)
    requires from < count && table + count * SECTION_HEADER_SIZE <= |file|
    ensures var section := ReadSection(file, table + from * SECTION_HEADER_SIZE, imageSize);
            var rest := ReadSections(file, table, imageSize, from + 1, count);
            Prepended(front, ReadSections(file, table, imageSize, from, count)) ==
            if section.Ok? then Prepended(front + [section.value], rest) else Err(section.error)
  {
    hide ReadSection;
    var rest := ReadSections(file, table, imageSize, from + 1, count);
    var section := ReadSection(file, table + from * SECTION_HEADER_SIZE, imageSize);
    if section.Ok? && rest.Ok? {
      assert front + ([section.value] + rest.value) == (front + [section.value]) + rest.value;
    }
  }

  // The whole image

  ghost predicate WellFormed(image: Image) {
    && HeaderOk(image.header, |image.file|) && |image.header.directories| == DIRECTORY_COUNT
    && 1 <= |image.sections| <= MAX_SECTIONS
    && SectionsOk(image.sections, |image.file|, image.header.imageSize)
    && (image.machine == MACHINE_AMD64 || image.machine == MACHINE_I386)
    && (image.machine == MACHINE_AMD64 <==> image.header.pe32Plus)
  }

  datatype Coff = Coff(machine: uint16, sectionCount: uint16, optionalSize: uint16, optionalOffset: nat)

  function ReadCoff(file: seq<uint8>): (r: Result<Coff>)
    ensures r.Ok? ==> 1 <= r.value.sectionCount <= MAX_SECTIONS
    ensures r.Ok? ==> r.value.machine == MACHINE_AMD64 || r.value.machine == MACHINE_I386
  {
    var _ :- Check(|file| >= 64, TruncatedFile);
    var _ :- Check(file[0] == 0x4d && file[1] == 0x5a, BadDosSignature);
    var peOffset := Get32(file, 0x3c);
    var signature :- Read32(file, peOffset);
    var _ :- Check(signature == 0x4550, BadPeSignature);
    var coff := peOffset + 4;
    var _ :- Check(coff + COFF_HEADER_SIZE <= |file|, TruncatedFile);
    var machine, count, optionalSize := Get16(file, coff), Get16(file, coff + 2), Get16(file, coff + 16);
    var _ :- Check(machine == MACHINE_I386 || machine == MACHINE_AMD64, UnsupportedMachine);
    var _ :- Check(1 <= count <= MAX_SECTIONS, InvalidImage);
    Ok(Coff(machine, count, optionalSize, coff + COFF_HEADER_SIZE))
  }

  function ParseImage(file: seq<uint8>): Result<Image> {
    var coff :- ReadCoff(file);
    var header :- ReadOptionalHeader(file, coff.optionalOffset, coff.optionalSize);
    var _ :- Check((coff.machine == MACHINE_AMD64) == header.pe32Plus, InvalidImage);
    var table := coff.optionalOffset + coff.optionalSize;
    var _ :- Check(table + coff.sectionCount * SECTION_HEADER_SIZE <= |file|, TruncatedFile);
    var sections :- ReadSections(file, table, header.imageSize, 0, coff.sectionCount);
    Ok(Image(file, coff.machine, header, sections))
  }

  /** A parsed image is well formed: what every later use of its ranges relies on. */
  method Parse(file: seq<uint8>) returns (r: Result<Image>)
    ensures r == ParseImage(file)
    ensures r.Ok? ==> WellFormed(r.value) && r.value.file == file
  {
    hide ReadOptionalHeader, ReadSections, ReadCoff;
    var coff :- ReadCoff(file);
    var header :- ReadOptionalHeader(file, coff.optionalOffset, coff.optionalSize);
    if (coff.machine == MACHINE_AMD64) != header.pe32Plus {
      return Err(InvalidImage);
    }
    var table := coff.optionalOffset + coff.optionalSize;
    if table + coff.sectionCount * SECTION_HEADER_SIZE > |file| {
      return Err(TruncatedFile);
    }
    var sections :- ParseSections(file, table, header.imageSize, coff.sectionCount);
    r := Ok(Image(file, coff.machine, header, sections));
  }
}
