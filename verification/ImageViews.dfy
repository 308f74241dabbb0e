/** The two views of an image: windows into its file, and the bytes it maps to. They agree. */
module ImageViews {
  import opened Bytes
  import opened PeImage

  // The file view: rva_file_window

  /** Bytes of the file that stand for the RVAs from a given one on. */
  datatype Window = Window(offset: nat, available: nat)

  function Min(a: nat, b: nat): nat {
    if a < b then a else b
  }

  function Extent(s: Section): nat {
    if s.virtualSize > s.rawSize then s.virtualSize else s.rawSize
  }

  predicate InSection(s: Section, rva: uint32) {
    s.virtualAddress <= rva < s.virtualAddress + Extent(s)
  }

  predicate InFile(r: Result<Window>, file: seq<uint8>) {
    r.Ok? ==> 0 < r.value.available && r.value.offset + r.value.available <= |file|
  }

  function SectionWindow(file: seq<uint8>, s: Section, rva: uint32): (r: Result<Window>)
    requires InSection(s, rva)
    ensures InFile(r, file)
  {
    var delta := rva - s.virtualAddress;
    var offset := s.rawOffset + delta;
    if delta >= s.rawSize || offset + 1 > |file| then Err(RvaNotMapped)
    else Ok(Window(offset, Min(s.rawSize - delta, |file| - offset)))
  }

  /** The first section, from an index on, whose extent holds the RVA decides. */
  function SectionsWindow(image: Image, rva: uint32, from: nat): (r: Result<Window>)
    requires from <= |image.sections|
    ensures InFile(r, image.file)
    decreases |image.sections| - from
  {
    if from == |image.sections| then Err(RvaNotMapped)
    else if InSection(image.sections[from], rva) then SectionWindow(image.file, image.sections[from], rva)
    else SectionsWindow(image, rva, from + 1)
  }

  function FileWindow(image: Image, rva: uint32): (r: Result<Window>)
    ensures InFile(r, image.file)
  {
    var h := image.header;
    if rva < h.headersSize && rva < |image.file| then Ok(Window(rva, Min(h.headersSize - rva, |image.file| - rva)))
    else SectionsWindow(image, rva, 0)
  }

  method RvaFileWindow(image: Image, rva: uint32) returns (r: Result<Window>)
    ensures r == FileWindow(image, rva)
  {
    var h := image.header;
    if rva < h.headersSize && rva < |image.file| {
      return Ok(Window(rva, Min(h.headersSize - rva, |image.file| - rva)));
    }
    var index := 0;
    while index < |image.sections|
      invariant index <= |image.sections|
      invariant SectionsWindow(image, rva, index) == FileWindow(image, rva)
    {
      var s := image.sections[index];
      if InSection(s, rva) {
        return SectionWindow(image.file, s, rva);
      }
      index := index + 1;
    }
    r := Err(RvaNotMapped);
  }

  // The mapped view: populate_mapping

  function Overlay(bytes: seq<uint8>, at: nat, data: seq<uint8>): (r: seq<uint8>)
    requires at + |data| <= |bytes|
    ensures |r| == |bytes|
  {
    bytes[..at] + data + bytes[at + |data|..]
  }

  function RawBytes(image: Image, s: Section): seq<uint8>
    requires s.rawOffset + s.rawSize <= |image.file|
  {
    image.file[s.rawOffset..s.rawOffset + s.rawSize]
  }

  predicate CopyFits(image: Image, s: Section, size: nat) {
    s.rawSize == 0 || (s.virtualAddress + s.rawSize <= size && s.rawOffset + s.rawSize <= |image.file|)
  }

  /** Copies section after section over what is already mapped. */
  function MapSections(image: Image, bytes: seq<uint8>, from: nat): (r: Result<seq<uint8>>)
    requires from <= |image.sections|
    ensures r.Ok? ==> |r.value| == |bytes|
    decreases |image.sections| - from
  {
    if from == |image.sections| then Ok(bytes)
    else
      var s := image.sections[from];
      if !CopyFits(image, s, |bytes|) then Err(InvalidImage)
      else if s.rawSize == 0 then MapSections(image, bytes, from + 1)
      else MapSections(image, Overlay(bytes, s.virtualAddress, RawBytes(image, s)), from + 1)
  }

  function Zeros(n: nat): (r: seq<uint8>)
    ensures |r| == n
  {
    seq(n, _ => 0)
  }

  predicate Mappable(image: Image) {
    HeaderOk(image.header, |image.file|)
  }

  /** What a fresh mapping of the image holds. */
  function MapImage(image: Image): (r: Result<seq<uint8>>)
    requires Mappable(image)
    ensures r.Ok? ==> |r.value| == image.header.imageSize
  {
    MapSections(image, Overlay(Zeros(image.header.imageSize), 0, image.file[..image.header.headersSize]), 0)
  }

  method Copy(bytes: array<uint8>, at: nat, data: seq<uint8>)
    requires at + |data| <= bytes.Length
    modifies bytes
    ensures bytes[..] == Overlay(old(bytes[..]), at, data)
  {
    forall k | 0 <= k < |data| {
      bytes[at + k] := data[k];
    }
    assert bytes[..] == Overlay(old(bytes[..]), at, data);
  }

  method PopulateMapping(image: Image, bytes: array<uint8>) returns (fault: Option<Error>)
    requires Mappable(image) && bytes.Length == image.header.imageSize && bytes[..] == Zeros(bytes.Length)
    modifies bytes
    ensures MapImage(image) == if fault.None? then Ok(bytes[..]) else Err(fault.value)
  {
    hide Overlay, RawBytes;
    Copy(bytes, 0, image.file[..image.header.headersSize]);
    var index := 0;
    while index < |image.sections|
      invariant index <= |image.sections|
      invariant MapSections(image, bytes[..], index) == MapImage(image)
    {
      var s := image.sections[index];
      if s.rawSize != 0 {
        if !CopyFits(image, s, bytes.Length) {
          return Some(InvalidImage);
        }
        CopyRaw(image, bytes, s);
      }
      index := index + 1;
    }
    fault := None;
  }

  method CopyRaw(image: Image, bytes: array<uint8>, s: Section)
    requires s.rawSize != 0 && CopyFits(image, s, bytes.Length)
    modifies bytes
    ensures |RawBytes(image, s)| == s.rawSize
    ensures bytes[..] == Overlay(old(bytes[..]), s.virtualAddress, RawBytes(image, s))
  {
    Copy(bytes, s.virtualAddress, image.file[s.rawOffset..s.rawOffset + s.rawSize]);
  }

  /** An image that was parsed always maps: the second range checks never fire. */
  lemma {:induction false} ParsedSectionsMap(image: Image, bytes: seq<uint8>, from: nat)
    requires WellFormed(image) && |bytes| == image.header.imageSize && from <= |image.sections|
    ensures MapSections(image, bytes, from).Ok?
    decreases |image.sections| - from
  {
    hide Overlay;
    if from < |image.sections| {
      var s := image.sections[from];
      assert SectionOk(s, |image.file|, image.header.imageSize);
      ParsedSectionsMap(image, if s.rawSize == 0 then bytes else Overlay(bytes, s.virtualAddress, RawBytes(image, s)), from + 1);
    }
  }

  // The two views agree

  /** Two ranges share no RVA. */
  predicate Disjoint(a: nat, alength: nat, b: nat, blength: nat) {
    alength == 0 || blength == 0 || a + alength <= b || b + blength <= a
  }

  /** Headers and raw section ranges are pairwise disjoint in RVA space. */
  predicate RangesDisjoint(image: Image) {
    var s := image.sections;
    && (forall k :: 0 <= k < |s| ==> Disjoint(0, image.header.headersSize, s[k].virtualAddress, s[k].rawSize))
    && (forall j, k :: 0 <= j < k < |s| ==> Disjoint(s[j].virtualAddress, s[j].rawSize, s[k].virtualAddress, s[k].rawSize))
  }

  lemma OverlayKeeps(bytes: seq<uint8>, start: nat, data: seq<uint8>, at: nat, to: nat)
    requires start + |data| <= |bytes| && at <= to <= |bytes| && Disjoint(at, to - at, start, |data|)
    ensures Overlay(bytes, start, data)[at..to] == bytes[at..to]
  {
    var next := Overlay(bytes, start, data);
    forall k | at <= k < to
      ensures next[k] == bytes[k]
    {
      assert k < start || start + |data| <= k;
    }
  }

  /** Sections that do not touch a range leave it as it was. */
  lemma {:induction false} MapSectionsKeeps(image: Image, bytes: seq<uint8>, from: nat, at: nat, to: nat)
    requires from <= |image.sections| && at <= to <= |bytes| && MapSections(image, bytes, from).Ok?
    requires forall k :: from <= k < |image.sections| ==> Disjoint(at, to - at, image.sections[k].virtualAddress, image.sections[k].rawSize)
    ensures MapSections(image, bytes, from).value[at..to] == bytes[at..to]
    decreases |image.sections| - from
  {
    if from < |image.sections| {
      var s := image.sections[from];
      if s.rawSize == 0 {
        MapSectionsKeeps(image, bytes, from + 1, at, to);
      } else {
        var next := Overlay(bytes, s.virtualAddress, RawBytes(image, s));
        MapSectionsKeeps(image, next, from + 1, at, to);
        OverlayKeeps(bytes, s.virtualAddress, RawBytes(image, s), at, to);
      }
    }
  }

  /** Every section's raw bytes end up at its RVA. */
  lemma {:induction false} SectionIsMapped(image: Image, bytes: seq<uint8>, from: nat, n: nat)
    requires from <= n < |image.sections| && image.sections[n].rawSize != 0 && MapSections(image, bytes, from).Ok?
    requires forall k :: n < k < |image.sections| ==>
               Disjoint(image.sections[n].virtualAddress, image.sections[n].rawSize, image.sections[k].virtualAddress, image.sections[k].rawSize)
    ensures var s := image.sections[n];
            && s.rawOffset + s.rawSize <= |image.file| && s.virtualAddress + s.rawSize <= |bytes|
            && MapSections(image, bytes, from).value[s.virtualAddress..s.virtualAddress + s.rawSize] == RawBytes(image, s)
    decreases n - from
  {
    var s := image.sections[from];
    if s.rawSize == 0 {
      SectionIsMapped(image, bytes, from + 1, n);
    } else {
      var next := Overlay(bytes, s.virtualAddress, RawBytes(image, s));
      if from < n {
        SectionIsMapped(image, next, from + 1, n);
      } else {
        MapSectionsKeeps(image, next, from + 1, s.virtualAddress, s.virtualAddress + s.rawSize);
        assert next[s.virtualAddress..s.virtualAddress + s.rawSize] == RawBytes(image, s);
      }
    }
  }

  /** The section that decides an RVA. */
  lemma {:induction false} DecidingSection(image: Image, rva: uint32, from: nat) returns (n: nat)
    requires from <= |image.sections| && SectionsWindow(image, rva, from).Ok?
    ensures from <= n < |image.sections| && InSection(image.sections[n], rva)
    ensures SectionsWindow(image, rva, from) == SectionWindow(image.file, image.sections[n], rva)
    decreases |image.sections| - from
  {
    if InSection(image.sections[from], rva) {
      n := from;
    } else {
      n := DecidingSection(image, rva, from + 1);
    }
  }

  /** Every window lies in the file and equals, byte for byte, the same RVAs of a fresh mapping. */
  lemma WindowIsMapped(image: Image, rva: uint32)
    requires WellFormed(image) && RangesDisjoint(image) && FileWindow(image, rva).Ok?
    ensures MapImage(image).Ok?
    ensures var w, mapped := FileWindow(image, rva).value, MapImage(image).value;
            && 0 < w.available && w.offset + w.available <= |image.file| && rva + w.available <= |mapped|
            && image.file[w.offset..w.offset + w.available] == mapped[rva..rva + w.available]
  {
    hide Overlay, RawBytes, MapSections, SectionsWindow;
    var h, w := image.header, FileWindow(image, rva).value;
    var base := Overlay(Zeros(h.imageSize), 0, image.file[..h.headersSize]);
    ParsedSectionsMap(image, base, 0);
    if rva < h.headersSize && rva < |image.file| {
      MapSectionsKeeps(image, base, 0, 0, h.headersSize);
      HeadersAreMapped(image, MapImage(image).value, rva, w.available);
    } else {
      var n := DecidingSection(image, rva, 0);
      var s := image.sections[n];
      assert SectionOk(s, |image.file|, h.imageSize);
      SectionIsMapped(image, base, 0, n);
      SliceAgrees(image, MapImage(image).value, s, rva - s.virtualAddress, w.available);
    }
  }

  lemma HeadersAreMapped(image: Image, mapped: seq<uint8>, rva: nat, available: nat)
    requires Mappable(image) && |mapped| == image.header.imageSize && rva + available <= image.header.headersSize
    requires mapped[0..image.header.headersSize] ==
             Overlay(Zeros(image.header.imageSize), 0, image.file[..image.header.headersSize])[0..image.header.headersSize]
    ensures image.file[rva..rva + available] == mapped[rva..rva + available]
  {
    var size := image.header.headersSize;
    forall k | 0 <= k < size
      ensures mapped[k] == image.file[k]
    {
      assert mapped[0..size][k] == Overlay(Zeros(image.header.imageSize), 0, image.file[..size])[0..size][k];
    }
  }

  lemma SliceAgrees(image: Image, mapped: seq<uint8>, s: Section, delta: nat, available: nat)
    requires s.rawOffset + s.rawSize <= |image.file| && s.virtualAddress + s.rawSize <= |mapped| && delta + available <= s.rawSize
    requires mapped[s.virtualAddress..s.virtualAddress + s.rawSize] == RawBytes(image, s)
    ensures image.file[s.rawOffset + delta..s.rawOffset + delta + available] ==
            mapped[s.virtualAddress + delta..s.virtualAddress + delta + available]
  {
    SubSlice(image.file, s.rawOffset, s.rawOffset + s.rawSize, delta, available);
    SubSlice(mapped, s.virtualAddress, s.virtualAddress + s.rawSize, delta, available);
  }

  // Reads through the file view

  function ReadRva(image: Image, rva: uint32, width: nat): Result<seq<uint8>>
    requires width > 0
  {
    match FileWindow(image, rva)
    case Err(error) => Err(error)
    case Ok(w) =>
      if w.available < width || w.offset + width > |image.file| then Err(TruncatedFile)
      else Ok(image.file[w.offset..w.offset + width])
  }

  function ReadRva16(image: Image, rva: uint32): Result<uint16> {
    var word := ReadRva(image, rva, 2);
    if word.Ok? then Ok(Load16(word.value)) else Err(word.error)
  }

  function ReadRva32(image: Image, rva: uint32): Result<uint32> {
    var word := ReadRva(image, rva, 4);
    if word.Ok? then Ok(Load32(word.value)) else Err(word.error)
  }

  predicate NoZero(bytes: seq<uint8>) {
    forall k :: 0 <= k < |bytes| ==> bytes[k] != 0
  }

  /** Where the first zero byte of a window is, if it has one. */
  function FindZero(bytes: seq<uint8>): (r: Option<nat>)
    ensures r.Some? ==> r.value < |bytes| && bytes[r.value] == 0 && NoZero(bytes[..r.value])
    ensures r.None? ==> NoZero(bytes)
  {
    if bytes == [] then None
    else if bytes[0] == 0 then Some(0)
    else
      var rest := FindZero(bytes[1..]);
      if rest.None? then None
      else
        assert bytes[..rest.value + 1] == [bytes[0]] + bytes[1..][..rest.value];
        Some(rest.value + 1)
  }

  /** A string that ends inside its window, without its zero. */
  function ReadRvaString(image: Image, rva: uint32): (r: Result<seq<uint8>>)
    ensures r.Ok? ==> NoZero(r.value)
  {
    match FileWindow(image, rva)
    case Err(error) => Err(error)
    case Ok(w) =>
      var zero := FindZero(image.file[w.offset..w.offset + w.available]);
      if zero.None? then Err(TruncatedFile)
      else
        SubSlice(image.file, w.offset, w.offset + w.available, 0, zero.value);
        Ok(image.file[w.offset..w.offset + zero.value])
  }

  /** Integers read through the file are the ones the mapping holds. */
  lemma ReadsAgree(image: Image, rva: uint32, width: nat)
    requires WellFormed(image) && RangesDisjoint(image) && width > 0 && ReadRva(image, rva, width).Ok?
    ensures MapImage(image).Ok? && rva + width <= |MapImage(image).value|
    ensures ReadRva(image, rva, width).value == MapImage(image).value[rva..rva + width]
  {
    hide FileWindow, MapImage, RangesDisjoint, SectionsOk;
    WindowIsMapped(image, rva);
    var w, mapped := FileWindow(image, rva).value, MapImage(image).value;
    SubSlice(image.file, w.offset, w.offset + w.available, 0, width);
    SubSlice(mapped, rva, rva + w.available, 0, width);
  }

  /** A string read through the file is the mapped string up to its zero. */
  lemma StringsAgree(image: Image, rva: uint32)
    requires WellFormed(image) && RangesDisjoint(image) && FileWindow(image, rva).Ok?
    ensures ReadRvaString(image, rva).Ok? ==>
              var s := ReadRvaString(image, rva).value;
              && MapImage(image).Ok? && rva + |s| < |MapImage(image).value|
              && s == MapImage(image).value[rva..rva + |s|] && MapImage(image).value[rva + |s|] == 0
              && NoZero(s)
  {
    hide FileWindow, MapImage, RangesDisjoint, SectionsOk, FindZero;
    WindowIsMapped(image, rva);
    var w, mapped := FileWindow(image, rva).value, MapImage(image).value;
    ZeroAgrees(image.file, w.offset, mapped, rva, w.available);
  }

  lemma ZeroAgrees(a: seq<uint8>, i: nat, b: seq<uint8>, j: nat, length: nat)
    requires i + length <= |a| && j + length <= |b| && a[i..i + length] == b[j..j + length]
    ensures var zero := FindZero(a[i..i + length]);
            zero.Some? ==>
              && a[i..i + zero.value] == b[j..j + zero.value] && b[j + zero.value] == 0
              && NoZero(a[i..i + zero.value])
  {
    hide NoZero;
    var zero := FindZero(a[i..i + length]);
    if zero.Some? {
      SubSlice(a, i, i + length, 0, zero.value);
      SubSlice(b, j, j + length, 0, zero.value);
      assert b[j + zero.value] == b[j..j + length][zero.value] == a[i..i + length][zero.value];
    }
  }

  // Exactly when a window agrees

  predicate Covers(s: Section, rva: nat) {
    s.virtualAddress <= rva < s.virtualAddress + s.rawSize
  }

  /** The last section, from an index on, whose raw bytes cover the RVA: the file offset it takes it from. */
  function LastCover(sections: seq<Section>, rva: nat, from: nat): (r: Option<nat>)
    requires from <= |sections|
    decreases |sections| - from
  {
    if from == |sections| then None
    else
      var later := LastCover(sections, rva, from + 1);
      if later.Some? then later
      else if Covers(sections[from], rva) then Some(sections[from].rawOffset + (rva - sections[from].virtualAddress))
      else None
  }

  /** The file offset whose byte the mapping holds at an RVA; nothing where it stays zero. */
  function Source(image: Image, rva: nat): (r: Option<nat>) {
    var cover := LastCover(image.sections, rva, 0);
    if cover.Some? then cover else if rva < image.header.headersSize then Some(rva) else None
  }

  lemma OverlayAt(bytes: seq<uint8>, at: nat, data: seq<uint8>, k: nat)
    requires at + |data| <= |bytes| && k < |bytes|
    ensures Overlay(bytes, at, data)[k] == if at <= k < at + |data| then data[k - at] else bytes[k]
  {
  }

  lemma {:induction false} SectionByte(image: Image, bytes: seq<uint8>, from: nat, rva: nat)
    requires from <= |image.sections| && rva < |bytes| && MapSections(image, bytes, from).Ok?
    ensures var cover := LastCover(image.sections, rva, from);
            && (cover.Some? ==> cover.value < |image.file|)
            && MapSections(image, bytes, from).value[rva] == if cover.Some? then image.file[cover.value] else bytes[rva]
    decreases |image.sections| - from
  {
    hide Overlay;
    if from < |image.sections| {
      var s := image.sections[from];
      if s.rawSize == 0 {
        SectionByte(image, bytes, from + 1, rva);
      } else {
        SectionByte(image, Overlay(bytes, s.virtualAddress, RawBytes(image, s)), from + 1, rva);
        OverlayAt(bytes, s.virtualAddress, RawBytes(image, s), rva);
      }
    }
  }

  /** The mapping, byte by byte: the last raw range over an RVA decides, then the headers, then zero. */
  lemma MappedByte(image: Image, rva: nat)
    requires WellFormed(image) && rva < image.header.imageSize
    ensures MapImage(image).Ok?
    ensures var source := Source(image, rva);
            && (source.Some? ==> source.value < |image.file|)
            && MapImage(image).value[rva] == if source.Some? then image.file[source.value] else 0
  {
    hide Overlay, MapSections, LastCover;
    var h := image.header;
    var base := Overlay(Zeros(h.imageSize), 0, image.file[..h.headersSize]);
    ParsedSectionsMap(image, base, 0);
    SectionByte(image, base, 0, rva);
    OverlayAt(Zeros(h.imageSize), 0, image.file[..h.headersSize], rva);
  }

  lemma {:induction false} SectionsWindowIgnoresContent(a: Image, b: Image, rva: uint32, from: nat)
    requires a.sections == b.sections && |a.file| == |b.file| && from <= |a.sections|
    ensures SectionsWindow(a, rva, from) == SectionsWindow(b, rva, from)
    decreases |a.sections| - from
  {
    if from < |a.sections| {
      SectionsWindowIgnoresContent(a, b, rva, from + 1);
    }
  }

  /** Where a window lies depends on the headers and the length of the file, not on its bytes. */
  lemma WindowIgnoresContent(image: Image, file: seq<uint8>, rva: uint32)
    requires |file| == |image.file|
    ensures FileWindow(image.(file := file), rva) == FileWindow(image, rva)
    ensures WellFormed(image) ==> WellFormed(image.(file := file))
  {
    SectionsWindowIgnoresContent(image, image.(file := file), rva, 0);
  }

  ghost predicate WindowAgrees(image: Image, rva: uint32) {
    FileWindow(image, rva).Ok? && Mappable(image) && MapImage(image).Ok? ==>
      var w, mapped := FileWindow(image, rva).value, MapImage(image).value;
      && rva + w.available <= |mapped|
      && image.file[w.offset..w.offset + w.available] == mapped[rva..rva + w.available]
  }

  /** The window agrees with the mapping, whatever bytes the file holds. */
  ghost predicate AlwaysAgrees(image: Image, rva: uint32) {
    forall file: seq<uint8> :: |file| == |image.file| ==> WindowAgrees(image.(file := file), rva)
  }

  /** The byte mapped at an RVA comes from this file offset. */
  predicate ComesFrom(image: Image, rva: nat, offset: nat) {
    Source(image, rva) == Some(offset)
  }

  predicate OwnByte(image: Image, rva: nat, offset: nat, k: nat) {
    ComesFrom(image, rva + k, offset + k)
  }

  /** No later raw range takes a byte of the window from another place of the file. */
  predicate OwnsWindow(image: Image, rva: uint32)
    requires FileWindow(image, rva).Ok?
  {
    var w := FileWindow(image, rva).value;
    forall k: nat :: k < w.available ==> OwnByte(image, rva, w.offset, k)
  }

  lemma {:induction false} WindowFits(image: Image, rva: uint32)
    requires WellFormed(image) && FileWindow(image, rva).Ok?
    ensures rva + FileWindow(image, rva).value.available <= image.header.imageSize
  {
    hide SectionsWindow;
    if !(rva < image.header.headersSize && rva < |image.file|) {
      var n := DecidingSection(image, rva, 0);
      assert SectionOk(image.sections[n], |image.file|, image.header.imageSize);
    }
  }

  /** A byte of a window against the byte mapped there, in terms of the source of each. */
  lemma ByteAgrees(image: Image, rva: uint32, k: nat)
    requires WellFormed(image) && FileWindow(image, rva).Ok? && k < FileWindow(image, rva).value.available
    ensures rva + k < image.header.imageSize && MapImage(image).Ok?
    ensures var w, source := FileWindow(image, rva).value, Source(image, rva + k);
            && (source.Some? ==> source.value < |image.file|)
            && MapImage(image).value[rva + k] == if source.Some? then image.file[source.value] else 0
  {
    hide FileWindow, MapImage, Source, SectionsOk;
    WindowFits(image, rva);
    MappedByte(image, rva + k);
  }

  lemma OwnedWindowAgrees(image: Image, rva: uint32)
    requires WellFormed(image) && FileWindow(image, rva).Ok? && OwnsWindow(image, rva)
    ensures WindowAgrees(image, rva)
  {
    hide FileWindow, MapImage, Source, SectionsOk;
    WindowFits(image, rva);
    var w := FileWindow(image, rva).value;
    if MapImage(image).Ok? {
      var mapped := MapImage(image).value;
      var window, part := image.file[w.offset..w.offset + w.available], mapped[rva..rva + w.available];
      forall k | 0 <= k < w.available
        ensures window[k] == part[k]
      {
        assert OwnByte(image, rva, w.offset, k);
        ByteAgrees(image, rva, k);
      }
      assert window == part;
    }
  }

  /** A file that is zero but for one byte. */
  function Spot(n: nat, at: nat): (r: seq<uint8>)
    ensures |r| == n && forall k :: 0 <= k < n ==> r[k] == if k == at then 1 else 0
  {
    seq(n, k => if k == at then 1 else 0)
  }

  lemma StolenByteShows(image: Image, rva: uint32, k: nat)
    requires WellFormed(image) && FileWindow(image, rva).Ok? && k < FileWindow(image, rva).value.available
    requires !OwnByte(image, rva, FileWindow(image, rva).value.offset, k)
    ensures !WindowAgrees(image.(file := Spot(|image.file|, FileWindow(image, rva).value.offset + k)), rva)
  {
    hide FileWindow, MapImage, LastCover, SectionsOk;
    var w := FileWindow(image, rva).value;
    var other := image.(file := Spot(|image.file|, w.offset + k));
    WindowIgnoresContent(image, other.file, rva);
    WindowFits(other, rva);
    ByteAgrees(other, rva, k);
    var mapped := MapImage(other).value;
    assert Source(other, rva + k) == Source(image, rva + k);
    assert other.file[w.offset..w.offset + w.available][k] == 1 && mapped[rva..rva + w.available][k] == 0;
  }

  /** A window agrees for every content of the file if and only if each of its bytes is mapped from its own place. */
  lemma AgreesIffOwned(image: Image, rva: uint32)
    requires WellFormed(image) && FileWindow(image, rva).Ok?
    ensures AlwaysAgrees(image, rva) <==> OwnsWindow(image, rva)
  {
    hide FileWindow, MapImage, Source, WindowAgrees, WellFormed;
    if OwnsWindow(image, rva) {
      forall file: seq<uint8> | |file| == |image.file|
        ensures WindowAgrees(image.(file := file), rva)
      {
        WindowIgnoresContent(image, file, rva);
        OwnershipIgnoresContent(image, file, rva);
        OwnedWindowAgrees(image.(file := file), rva);
      }
    } else {
      var w := FileWindow(image, rva).value;
      var k: nat :| k < w.available && !OwnByte(image, rva, w.offset, k);
      StolenByteShows(image, rva, k);
    }
  }

  lemma OwnershipIgnoresContent(image: Image, file: seq<uint8>, rva: uint32)
    requires |file| == |image.file| && FileWindow(image, rva).Ok? && OwnsWindow(image, rva)
    ensures FileWindow(image.(file := file), rva).Ok? && OwnsWindow(image.(file := file), rva)
  {
    hide FileWindow, LastCover;
    WindowIgnoresContent(image, file, rva);
    var w, other := FileWindow(image, rva).value, image.(file := file);
    forall k: nat | k < w.available
      ensures OwnByte(other, rva, w.offset, k)
    {
      assert OwnByte(image, rva, w.offset, k);
    }
  }

  // Where an RVA's bytes stand in the file

  /** The section claims the RVA, by its virtual or its raw extent. */
  predicate Claims(s: Section, rva: uint32) {
    s.virtualAddress <= rva && (rva < s.virtualAddress + s.virtualSize || rva < s.virtualAddress + s.rawSize)
  }

  /** No earlier section claims the RVA. */
  predicate FirstClaim(image: Image, rva: uint32, from: nat, k: nat) {
    && from <= k < |image.sections| && Claims(image.sections[k], rva)
    && forall j :: from <= j < k ==> !Claims(image.sections[j], rva)
  }

  /** The window begins with the RVA's byte and ends where its range or the file does. */
  predicate Opens(w: Window, start: nat, end: nat, fileSize: nat) {
    w.offset == start && start < end && start < fileSize && start + w.available == if end < fileSize then end else fileSize
  }

  /** The RVA's byte is at this place of the section's raw range. */
  predicate InRaw(w: Window, s: Section, rva: uint32, fileSize: nat) {
    s.virtualAddress <= rva && Opens(w, s.rawOffset + (rva - s.virtualAddress), s.rawOffset + s.rawSize, fileSize)
  }

  lemma {:induction false} SectionsWindowIff(image: Image, rva: uint32, from: nat, w: Window)
    requires from <= |image.sections|
    ensures SectionsWindow(image, rva, from) == Ok(w) <==>
            exists k: nat :: FirstClaim(image, rva, from, k) && InRaw(w, image.sections[k], rva, |image.file|)
    decreases |image.sections| - from
  {
    if from < |image.sections| {
      var s := image.sections[from];
      assert InSection(s, rva) <==> Claims(s, rva);
      if Claims(s, rva) {
        assert FirstClaim(image, rva, from, from);
      } else {
        SectionsWindowIff(image, rva, from + 1, w);
        assert forall k: nat :: FirstClaim(image, rva, from, k) <==> FirstClaim(image, rva, from + 1, k);
      }
    }
  }

  /**
   * The file holds an RVA's bytes in the headers, for an RVA inside them, and otherwise in
   * the raw range of the first section that claims the RVA, if that range reaches it.
   */
  lemma WindowIff(image: Image, rva: uint32, w: Window)
    ensures FileWindow(image, rva) == Ok(w) <==>
            if rva < image.header.headersSize && rva < |image.file| then Opens(w, rva, image.header.headersSize, |image.file|)
            else exists k: nat :: FirstClaim(image, rva, 0, k) && InRaw(w, image.sections[k], rva, |image.file|)
  {
    SectionsWindowIff(image, rva, 0, w);
  }
}
