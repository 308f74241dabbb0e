/** Looking up exports of an image, by name and by ordinal. */
module PeExports {
  import opened Bytes
  import opened PeImage
  import opened ImageViews

  const EXPORT_DIRECTORY: nat := 0
  const EXPORT_DIRECTORY_SIZE: nat := 40

  /** A string without its terminating zero. */
  type CString = s: seq<uint8> | NoZero(s) witness []

  datatype ExportDirectory = ExportDirectory(
    range: DataDirectory, ordinalBase: uint32, functionCount: uint32, nameCount: uint32, functionsRva: uint32, namesRva: uint32,
    nameOrdinalsRva: uint32)

  datatype Export = Export(name: Option<CString>, forwarder: Option<CString>, ordinal: uint32, rva: uint32)

  predicate TableFits(image: Image, rva: uint32, count: uint32, elementSize: nat) {
    count == 0 || (FileWindow(image, rva).Ok? && count * elementSize <= FileWindow(image, rva).value.available)
  }

  /** Any failure of a read means the image is bad. */
  function Field(image: Image, rva: int): Result<uint32> {
    if 0 <= rva <= UINT32_MAX && ReadRva32(image, rva).Ok? then ReadRva32(image, rva) else Err(InvalidImage)
  }

  function ReadExportDirectory(image: Image): Result<ExportDirectory>
    requires |image.header.directories| == DIRECTORY_COUNT
  {
    var range := image.header.directories[EXPORT_DIRECTORY];
    var _ :- Check(range.rva != 0 && range.size != 0, ExportNotFound);
    var _ :- Check(range.size >= EXPORT_DIRECTORY_SIZE && range.rva + range.size <= image.header.imageSize, InvalidImage);
    var ordinalBase :- Field(image, range.rva + 16);
    var functionCount :- Field(image, range.rva + 20);
    var nameCount :- Field(image, range.rva + 24);
    var functionsRva :- Field(image, range.rva + 28);
    var namesRva :- Field(image, range.rva + 32);
    var nameOrdinalsRva :- Field(image, range.rva + 36);
    var _ :- Check(functionCount != 0 && nameCount <= functionCount, InvalidImage);
    var _ :- Check(TableFits(image, functionsRva, functionCount, 4) && TableFits(image, namesRva, nameCount, 4)
                   && TableFits(image, nameOrdinalsRva, nameCount, 2), InvalidImage);
    Ok(ExportDirectory(range, ordinalBase, functionCount, nameCount, functionsRva, namesRva, nameOrdinalsRva))
  }

  function BuildExport(image: Image, exports: ExportDirectory, index: nat, name: Option<CString>): Result<Export> {
    var _ :- Check(index < exports.functionCount && index <= (UINT32_MAX - exports.functionsRva) / 4, InvalidImage);
    var rva :- Field(image, exports.functionsRva + index * 4);
    var _ :- Check(rva != 0, ExportNotFound);
    var _ :- Check(rva < image.header.imageSize && index <= UINT32_MAX - exports.ordinalBase, InvalidImage);
    if exports.range.rva <= rva < exports.range.rva + exports.range.size then
      var forwarder := ReadRvaString(image, rva);
      if forwarder.Ok? then Ok(Export(name, Some(forwarder.value), exports.ordinalBase + index, rva)) else Err(InvalidImage)
    else Ok(Export(name, None, exports.ordinalBase + index, rva))
  }

  /** An entry of the name table: a name and the function it stands for. */
  datatype NameEntry = NameEntry(name: CString, target: uint16)

  function ReadName(image: Image, exports: ExportDirectory, index: nat): Result<NameEntry> {
    var _ :- Check(index <= (UINT32_MAX - exports.namesRva) / 4 && index <= (UINT32_MAX - exports.nameOrdinalsRva) / 2, InvalidImage);
    var rva :- Field(image, exports.namesRva + index * 4);
    var target := ReadRva16(image, exports.nameOrdinalsRva + index * 2);
    var name := ReadRvaString(image, rva);
    if target.Ok? && name.Ok? then Ok(NameEntry(name.value, target.value)) else Err(InvalidImage)
  }

  /** The first entry of the name, from an index on, decides. */
  function FindName(image: Image, exports: ExportDirectory, name: CString, from: nat): Result<Export>
    requires from <= exports.nameCount
    decreases exports.nameCount - from
  {
    if from == exports.nameCount then Err(ExportNotFound)
    else
      var entry :- ReadName(image, exports, from);
      if entry.name == name then BuildExport(image, exports, entry.target, Some(entry.name))
      else FindName(image, exports, name, from + 1)
  }

  function ExportByName(image: Image, name: CString): Result<Export>
    requires |image.header.directories| == DIRECTORY_COUNT
  {
    var exports :- ReadExportDirectory(image);
    FindName(image, exports, name, 0)
  }

  method FindExportByName(image: Image, name: CString) returns (r: Result<Export>)
    requires |image.header.directories| == DIRECTORY_COUNT
    ensures r == ExportByName(image, name)
  {
    hide ReadExportDirectory, ReadName, BuildExport;
    var exports :- ReadExportDirectory(image);
    var index := 0;
    while index < exports.nameCount
      invariant index <= exports.nameCount
      invariant FindName(image, exports, name, index) == ExportByName(image, name)
    {
      var entry :- ReadName(image, exports, index);
      if entry.name == name {
        return BuildExport(image, exports, entry.target, Some(entry.name));
      }
      index := index + 1;
    }
    r := Err(ExportNotFound);
  }

  function ExportByOrdinal(image: Image, ordinal: uint32): Result<Export>
    requires |image.header.directories| == DIRECTORY_COUNT
  {
    var exports :- ReadExportDirectory(image);
    var _ :- Check(exports.ordinalBase <= ordinal < exports.ordinalBase + exports.functionCount, ExportNotFound);
    BuildExport(image, exports, ordinal - exports.ordinalBase, None)
  }

  lemma {:induction false} FoundNameIsBuilt(image: Image, exports: ExportDirectory, name: CString, from: nat) returns (k: nat)
    requires from <= exports.nameCount && FindName(image, exports, name, from).Ok?
    ensures from <= k < exports.nameCount && ReadName(image, exports, k).Ok? && ReadName(image, exports, k).value.name == name
    ensures forall j :: from <= j < k ==> ReadName(image, exports, j).Ok? && ReadName(image, exports, j).value.name != name
    ensures FindName(image, exports, name, from) == BuildExport(image, exports, ReadName(image, exports, k).value.target, Some(name))
    decreases exports.nameCount - from
  {
    hide ReadName, BuildExport;
    if ReadName(image, exports, from).value.name == name {
      k := from;
    } else {
      k := FoundNameIsBuilt(image, exports, name, from + 1);
    }
  }

  /** An export found by name is the one its ordinal finds. */
  lemma NameAndOrdinalAgree(image: Image, name: CString)
    requires |image.header.directories| == DIRECTORY_COUNT && ExportByName(image, name).Ok?
    ensures var e := ExportByName(image, name).value;
            e.name == Some(name) && ExportByOrdinal(image, e.ordinal) == Ok(e.(name := None))
  {
    hide ReadExportDirectory, ReadName, Field;
    var exports := ReadExportDirectory(image).value;
    var k := FoundNameIsBuilt(image, exports, name, 0);
  }
}
