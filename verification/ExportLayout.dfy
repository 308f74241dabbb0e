/**
 * The writing side of exports: a linker's export table, laid out in an image, is what
 * lookups by name and by ordinal find, and what a symbol of the loaded module resolves to.
 */
module ExportLayout {
  import opened Bytes
  import opened PeImage
  import opened ImageViews
  import opened PeExports

  /** What stands at one ordinal. */
  datatype Function = Gap | Code(rva: uint32) | ForwardTo(rva: uint32, text: CString)

  /** A name, where its text stands, and the function it is for. */
  datatype Name = Name(text: CString, rva: uint32, target: uint16)

  datatype Table = Table(range: DataDirectory, ordinalBase: uint32, functions: seq<Function>, names: seq<Name>, functionsRva: uint32,
                         namesRva: uint32, targetsRva: uint32)

  /** These bytes stand where an RVA is read from. */
  ghost predicate At(image: Image, rva: nat, bytes: seq<uint8>) {
    && rva < TWO_32 && FileWindow(image, rva).Ok?
    && var w := FileWindow(image, rva).value;
       |bytes| <= w.available && w.offset + |bytes| <= |image.file| && image.file[w.offset..w.offset + |bytes|] == bytes
  }

  /** As many bytes can be read from an RVA on. */
  predicate Spans(image: Image, rva: uint32, size: nat) {
    size == 0 || (FileWindow(image, rva).Ok? && size <= FileWindow(image, rva).value.available)
  }

  function RvaOf(f: Function): uint32 {
    if f.Gap? then 0 else f.rva
  }

  predicate InRange(range: DataDirectory, rva: uint32) {
    range.rva <= rva < range.rva + range.size
  }

  /** Code lies in the image outside the export directory's range; the text of a forwarder inside it. */
  ghost predicate FunctionLaid(image: Image, t: Table, i: nat)
    requires i < |t.functions|
  {
    var f := t.functions[i];
    && At(image, t.functionsRva + 4 * i, Store(RvaOf(f), 4))
    && t.ordinalBase + i < TWO_32
    && (!f.Gap? ==> 0 < f.rva < image.header.imageSize)
    && (f.Code? ==> !InRange(t.range, f.rva))
    && (f.ForwardTo? ==> InRange(t.range, f.rva) && At(image, f.rva, f.text + [0]))
  }

  ghost predicate NameLaid(image: Image, t: Table, k: nat)
    requires k < |t.names|
  {
    var n := t.names[k];
    && At(image, t.namesRva + 4 * k, Store(n.rva, 4)) && At(image, t.targetsRva + 2 * k, Store(n.target, 2))
    && At(image, n.rva, n.text + [0])
  }

  /** The forty-byte directory, the function table, the name table and its targets. */
  ghost predicate Laid(image: Image, t: Table) {
    && |image.header.directories| == DIRECTORY_COUNT && image.header.directories[0] == t.range
    && t.range.rva != 0 && 40 <= t.range.size && t.range.rva + t.range.size <= image.header.imageSize
    && 0 < |t.functions| < TWO_32 && |t.names| <= |t.functions|
    && At(image, t.range.rva + 16, Store(t.ordinalBase, 4))
    && At(image, t.range.rva + 20, Store(|t.functions|, 4))
    && At(image, t.range.rva + 24, Store(|t.names|, 4))
    && At(image, t.range.rva + 28, Store(t.functionsRva, 4))
    && At(image, t.range.rva + 32, Store(t.namesRva, 4))
    && At(image, t.range.rva + 36, Store(t.targetsRva, 4))
    && Spans(image, t.functionsRva, 4 * |t.functions|) && Spans(image, t.namesRva, 4 * |t.names|) && Spans(image, t.targetsRva, 2 * |t.names|)
    && (forall i :: 0 <= i < |t.functions| ==> FunctionLaid(image, t, i))
    && (forall k :: 0 <= k < |t.names| ==> NameLaid(image, t, k))
  }

  // Reading what stands at an RVA

  lemma WordRead(image: Image, rva: nat, v: uint32)
    requires At(image, rva, Store(v, 4))
    ensures Field(image, rva) == Ok(v)
  {
    hide FileWindow, Load, Store, Span;
    SpanValues();
    LoadStore(v, 4);
  }

  lemma HalfRead(image: Image, rva: nat, v: uint16)
    requires At(image, rva, Store(v, 2))
    ensures rva < TWO_32 && ReadRva16(image, rva) == Ok(v)
  {
    hide FileWindow, Load, Store, Span;
    SpanValues();
    LoadStore(v, 2);
  }

  lemma StringRead(image: Image, rva: nat, text: CString)
    requires At(image, rva, text + [0])
    ensures rva < TWO_32 && ReadRvaString(image, rva) == Ok(text)
  {
    hide FileWindow, FindZero;
    var w, all := FileWindow(image, rva).value, text + [0];
    var window := image.file[w.offset..w.offset + w.available];
    SubSlice(image.file, w.offset, w.offset + w.available, 0, |all|);
    ZeroEnds(window, text);
    SubSlice(image.file, w.offset, w.offset + |all|, 0, |text|);
    assert all[0..|text|] == text;
  }

  lemma ZeroEnds(bytes: seq<uint8>, text: CString)
    requires |text| < |bytes| && bytes[..|text| + 1] == text + [0]
    ensures FindZero(bytes) == Some(|text|)
  {
    var front, zero := bytes[..|text| + 1], FindZero(bytes);
    assert front[|text|] == 0 && bytes[|text|] == 0;
    forall k | 0 <= k < |text|
      ensures bytes[k] != 0
    {
      assert bytes[k] == front[k] == (text + [0])[k] == text[k];
    }
  }

  // Lookups

  lemma DirectoryRead(image: Image, t: Table)
    requires Laid(image, t)
    ensures ReadExportDirectory(image) ==
            Ok(ExportDirectory(t.range, t.ordinalBase, |t.functions|, |t.names|, t.functionsRva, t.namesRva, t.targetsRva))
  {
    hide Field, FileWindow, Store, FunctionLaid, NameLaid, At;
    WordRead(image, t.range.rva + 16, t.ordinalBase);
    WordRead(image, t.range.rva + 20, |t.functions|);
    WordRead(image, t.range.rva + 24, |t.names|);
    WordRead(image, t.range.rva + 28, t.functionsRva);
    WordRead(image, t.range.rva + 32, t.namesRva);
    WordRead(image, t.range.rva + 36, t.targetsRva);
  }

  function DirectoryOf(t: Table): ExportDirectory
    requires |t.functions| < TWO_32 && |t.names| < TWO_32
  {
    ExportDirectory(t.range, t.ordinalBase, |t.functions|, |t.names|, t.functionsRva, t.namesRva, t.targetsRva)
  }

  /** What the table says of its i-th function. */
  function Answer(t: Table, i: nat, name: Option<CString>): Result<Export> {
    if i >= |t.functions| || t.ordinalBase + i >= TWO_32 then Err(InvalidImage)
    else
      match t.functions[i]
      case Gap => Err(ExportNotFound)
      case Code(rva) => Ok(Export(name, None, t.ordinalBase + i, rva))
      case ForwardTo(rva, text) => Ok(Export(name, Some(text), t.ordinalBase + i, rva))
  }

  lemma FunctionRead(image: Image, t: Table, i: nat, name: Option<CString>)
    requires Laid(image, t)
    ensures BuildExport(image, DirectoryOf(t), i, name) == Answer(t, i, name)
  {
    hide Field, FileWindow, Store, NameLaid, At, ReadRvaString;
    if i < |t.functions| {
      assert FunctionLaid(image, t, i);
      FunctionIsAt(image, t, i);
      WordRead(image, t.functionsRva + 4 * i, RvaOf(t.functions[i]));
      if t.functions[i].ForwardTo? {
        StringRead(image, t.functions[i].rva, t.functions[i].text);
      }
    }
  }

  lemma FunctionIsAt(image: Image, t: Table, i: nat)
    requires i < |t.functions| && FunctionLaid(image, t, i)
    ensures t.functionsRva + 4 * i < TWO_32
  {
    hide FileWindow, Store;
  }

  lemma NameRead(image: Image, t: Table, k: nat)
    requires Laid(image, t) && k < |t.names|
    ensures ReadName(image, DirectoryOf(t), k) == Ok(NameEntry(t.names[k].text, t.names[k].target))
  {
    hide Field, FileWindow, Store, FunctionLaid, ReadRvaString, ReadRva16;
    assert NameLaid(image, t, k);
    WordRead(image, t.namesRva + 4 * k, t.names[k].rva);
    HalfRead(image, t.targetsRva + 2 * k, t.names[k].target);
    StringRead(image, t.names[k].rva, t.names[k].text);
  }

  /** The first entry of the name, from an index on. */
  function FirstNamed(names: seq<Name>, name: CString, from: nat): (r: Option<nat>)
    requires from <= |names|
    ensures r.Some? ==> from <= r.value < |names| && names[r.value].text == name && forall k :: from <= k < r.value ==> names[k].text != name
    ensures r.None? ==> forall k :: from <= k < |names| ==> names[k].text != name
    decreases |names| - from
  {
    if from == |names| then None else if names[from].text == name then Some(from) else FirstNamed(names, name, from + 1)
  }

  lemma {:induction false} NameFound(image: Image, t: Table, name: CString, from: nat)
    requires Laid(image, t) && from <= |t.names|
    ensures FindName(image, DirectoryOf(t), name, from) ==
            var k := FirstNamed(t.names, name, from);
            if k.None? then Err(ExportNotFound) else Answer(t, t.names[k.value].target, Some(name))
    decreases |t.names| - from
  {
    hide Laid, ReadName, BuildExport, Answer;
    if from < |t.names| {
      NameRead(image, t, from);
      if t.names[from].text == name {
        FunctionRead(image, t, t.names[from].target, Some(name));
      } else {
        NameFound(image, t, name, from + 1);
      }
    }
  }

  /** A lookup by name answers the function of the first entry of that name, code or forwarder; none is not found. */
  lemma NameReadsBack(image: Image, t: Table, name: CString)
    requires Laid(image, t)
    ensures ExportByName(image, name) ==
            var k := FirstNamed(t.names, name, 0);
            if k.None? then Err(ExportNotFound) else Answer(t, t.names[k.value].target, Some(name))
  {
    hide FindName, ReadExportDirectory, Answer, FunctionLaid, NameLaid, At, Spans;
    DirectoryRead(image, t);
    NameFound(image, t, name, 0);
  }

  /** A lookup by ordinal answers the function at that ordinal, counted from the table's base. */
  lemma OrdinalReadsBack(image: Image, t: Table, ordinal: uint32)
    requires Laid(image, t)
    ensures ExportByOrdinal(image, ordinal) ==
            if t.ordinalBase <= ordinal < t.ordinalBase + |t.functions| then Answer(t, ordinal - t.ordinalBase, None)
            else Err(ExportNotFound)
  {
    hide BuildExport, ReadExportDirectory, Answer, FunctionLaid, NameLaid, At, Spans;
    DirectoryRead(image, t);
    if t.ordinalBase <= ordinal < t.ordinalBase + |t.functions| {
      FunctionRead(image, t, ordinal - t.ordinalBase, None);
    }
  }

  /** No export directory is told from a bad one: without one nothing is found, and any other fault is the image's. */
  lemma DirectoryTold(image: Image, name: CString, ordinal: uint32)
    requires |image.header.directories| == DIRECTORY_COUNT
    ensures var r, d := ReadExportDirectory(image), image.header.directories[0];
            && (d.rva == 0 || d.size == 0 <==> r == Err(ExportNotFound))
            && (r.Err? ==> r.error in {ExportNotFound, InvalidImage})
            && (r.Err? ==> ExportByName(image, name) == Err(r.error) && ExportByOrdinal(image, ordinal) == Err(r.error))
  {
    hide FileWindow, Load;
  }
}
