/**
 * Base relocation of a mapped image: one pass over the relocation directory that only
 * validates, then one that patches the bytes the directory itself lives among.
 */
module Relocation {
  import opened Bytes

  const HEADER_SIZE: nat := 8

  datatype Status = Ok | InvalidArgument | InvalidState | RelocationRequired | InvalidImage | UnsupportedRelocation

  /** The relocation directory's extent and the image's word size. */
  datatype Directory = Directory(start: nat, end: nat, pe32Plus: bool) {
    function Width(): nat { if pe32Plus then 8 else 4 }
  }

  /** Unsigned arithmetic modulo span. */
  function Wrap(v: int, span: nat): (r: nat)
    requires span > 0
    ensures r < span
  {
    v % span
  }

  /** A word of bytes moved by shift, with wrap-around. */
  function Moved(word: seq<uint8>, shift: nat): (r: seq<uint8>)
    ensures |r| == |word|
  {
    Store(Wrap(Load(word) + shift, Span(|word|)), |word|)
  }

  /** bytes with the word at a site moved. */
  function Patch(bytes: seq<uint8>, at: nat, width: nat, shift: nat): (r: seq<uint8>)
    requires at + width <= |bytes|
    ensures |r| == |bytes|
  {
    bytes[..at] + Moved(bytes[at..at + width], shift) + bytes[at + width..]
  }

  datatype Entry = Skip | Site(at: nat) | Bad(status: Status)

  predicate Touches(d: Directory, at: nat) {
    at < d.end && at + d.Width() > d.start
  }

  function ReadEntry(bytes: seq<uint8>, cursor: nat, page: uint32, d: Directory): (e: Entry)
    requires cursor + 2 <= |bytes|
    ensures e.Site? ==> e.at + d.Width() <= |bytes| && !Touches(d, e.at)
    ensures e.Bad? ==> e.status != Ok
  {
    var entry := Load16(bytes[cursor..cursor + 2]);
    var kind, offset := entry / 0x1000, entry % 0x1000;
    if page > UINT32_MAX - offset then Bad(InvalidImage)
    else if kind == 0 then Skip
    else if kind != (if d.pe32Plus then 10 else 3) then Bad(UnsupportedRelocation)
    else if page + offset + d.Width() > |bytes| || Touches(d, page + offset) then Bad(InvalidImage)
    else Site(page + offset)
  }

  /** How far a pass got, and the bytes it left. */
  datatype Pass = Pass(status: Status, bytes: seq<uint8>)

  /** The entries of one block; a pass without a shift only validates. */
  function Entries(bytes: seq<uint8>, cursor: nat, blockEnd: nat, page: uint32, d: Directory, shift: Option<nat>): (r: Pass)
    requires cursor <= blockEnd <= |bytes| && (blockEnd - cursor) % 2 == 0
    ensures |r.bytes| == |bytes|
    decreases blockEnd - cursor
  {
    if cursor == blockEnd then Pass(Ok, bytes)
    else
      match ReadEntry(bytes, cursor, page, d)
      case Bad(status) => Pass(status, bytes)
      case Skip => Entries(bytes, cursor + 2, blockEnd, page, d, shift)
      case Site(at) =>
        var patched := if shift.Some? then Patch(bytes, at, d.Width(), shift.value) else bytes;
        Entries(patched, cursor + 2, blockEnd, page, d, shift)
  }

  datatype Block = Block(page: uint32, end: nat)

  function ReadBlock(bytes: seq<uint8>, cursor: nat, d: Directory): (b: Option<Block>)
    requires cursor < d.end <= |bytes|
    ensures b.Some? ==> cursor + HEADER_SIZE <= b.value.end <= d.end && (b.value.end - cursor) % 2 == 0
  {
    if d.end - cursor < HEADER_SIZE then None
    else
      var size := Load32(bytes[cursor + 4..cursor + 8]);
      if size < HEADER_SIZE || (size - HEADER_SIZE) % 2 != 0 || size > d.end - cursor then None
      else Some(Block(Load32(bytes[cursor..cursor + 4]), cursor + size))
  }

  function Blocks(bytes: seq<uint8>, cursor: nat, d: Directory, shift: Option<nat>): (r: Pass)
    requires cursor <= d.end <= |bytes|
    ensures |r.bytes| == |bytes|
    decreases d.end - cursor
  {
    if cursor == d.end then Pass(Ok, bytes)
    else
      match ReadBlock(bytes, cursor, d)
      case None => Pass(InvalidImage, bytes)
      case Some(block) =>
        var r := Entries(bytes, cursor + HEADER_SIZE, block.end, block.page, d, shift);
        if r.status != Ok then r else Blocks(r.bytes, block.end, d, shift)
  }

  // The loops over the mapped bytes

  method PatchInPlace(bytes: array<uint8>, at: nat, width: nat, shift: nat)
    requires at + width <= bytes.Length
    modifies bytes
    ensures bytes[..] == Patch(old(bytes[..]), at, width, shift)
  {
    var moved := Moved(bytes[at..at + width], shift);
    forall k | 0 <= k < width {
      bytes[at + k] := moved[k];
    }
    assert old(bytes[..])[at..at + width] == old(bytes[at..at + width]);
    assert bytes[..] == Patch(old(bytes[..]), at, width, shift);
  }

  method ProcessEntries(bytes: array<uint8>, from: nat, blockEnd: nat, page: uint32, d: Directory, shift: Option<nat>) returns (status: Status)
    requires from <= blockEnd <= bytes.Length && (blockEnd - from) % 2 == 0
    modifies bytes
    ensures Pass(status, bytes[..]) == Entries(old(bytes[..]), from, blockEnd, page, d, shift)
    ensures shift.None? ==> bytes[..] == old(bytes[..])
  {
    hide ReadEntry, Patch;
    ghost var goal := Entries(bytes[..], from, blockEnd, page, d, shift);
    var cursor := from;
    while cursor < blockEnd
      invariant from <= cursor <= blockEnd && (blockEnd - cursor) % 2 == 0
      invariant Entries(bytes[..], cursor, blockEnd, page, d, shift) == goal
      invariant shift.None? ==> bytes[..] == old(bytes[..])
    {
      match ReadEntry(bytes[..], cursor, page, d) {
        case Bad(bad) => return bad;
        case Skip =>
        case Site(at) =>
          if shift.Some? {
            PatchInPlace(bytes, at, d.Width(), shift.value);
          }
      }
      cursor := cursor + 2;
    }
    status := Ok;
  }

  method ProcessRelocations(bytes: array<uint8>, d: Directory, shift: Option<nat>) returns (status: Status)
    requires d.start <= d.end <= bytes.Length
    modifies bytes
    ensures Pass(status, bytes[..]) == Blocks(old(bytes[..]), d.start, d, shift)
    ensures shift.None? ==> bytes[..] == old(bytes[..])
  {
    hide Entries, ReadBlock;
    ghost var goal := Blocks(bytes[..], d.start, d, shift);
    var cursor := d.start;
    while cursor < d.end
      invariant cursor <= d.end
      invariant Blocks(bytes[..], cursor, d, shift) == goal
      invariant shift.None? ==> bytes[..] == old(bytes[..])
    {
      var block := ReadBlock(bytes[..], cursor, d);
      if block.None? {
        return InvalidImage;
      }
      status := ProcessEntries(bytes, cursor + HEADER_SIZE, block.value.end, block.value.page, d, shift);
      if status != Ok {
        return;
      }
      cursor := block.value.end;
    }
    status := Ok;
  }

  // What a pass finds, apart from what it does

  datatype Found = Found(status: Status, sites: seq<nat>)

  function EntrySites(bytes: seq<uint8>, cursor: nat, blockEnd: nat, page: uint32, d: Directory): (f: Found)
    requires cursor <= blockEnd <= |bytes| && (blockEnd - cursor) % 2 == 0
    decreases blockEnd - cursor
  {
    if cursor == blockEnd then Found(Ok, [])
    else
      match ReadEntry(bytes, cursor, page, d)
      case Bad(status) => Found(status, [])
      case Skip => EntrySites(bytes, cursor + 2, blockEnd, page, d)
      case Site(at) =>
        var rest := EntrySites(bytes, cursor + 2, blockEnd, page, d);
        rest.(sites := [at] + rest.sites)
  }

  function BlockSites(bytes: seq<uint8>, cursor: nat, d: Directory): (f: Found)
    requires cursor <= d.end <= |bytes|
    decreases d.end - cursor
  {
    if cursor == d.end then Found(Ok, [])
    else
      match ReadBlock(bytes, cursor, d)
      case None => Found(InvalidImage, [])
      case Some(block) =>
        var found := EntrySites(bytes, cursor + HEADER_SIZE, block.end, block.page, d);
        if found.status != Ok then found
        else
          var rest := BlockSites(bytes, block.end, d);
          rest.(sites := found.sites + rest.sites)
  }

  predicate SitesFit(sites: seq<nat>, size: nat, d: Directory) {
    forall k :: 0 <= k < |sites| ==> sites[k] + d.Width() <= size && !Touches(d, sites[k])
  }

  /** Every site in turn moved by shift. */
  function MoveSites(bytes: seq<uint8>, sites: seq<nat>, width: nat, shift: nat): (r: seq<uint8>)
    requires forall k :: 0 <= k < |sites| ==> sites[k] + width <= |bytes|
    ensures |r| == |bytes|
    decreases |sites|
  {
    if sites == [] then bytes else MoveSites(Patch(bytes, sites[0], width, shift), sites[1..], width, shift)
  }

  lemma {:induction false} MoveSitesAppend(bytes: seq<uint8>, first: seq<nat>, second: seq<nat>, width: nat, shift: nat)
    requires forall k :: 0 <= k < |first| ==> first[k] + width <= |bytes|
    requires forall k :: 0 <= k < |second| ==> second[k] + width <= |bytes|
    ensures MoveSites(bytes, first + second, width, shift) == MoveSites(MoveSites(bytes, first, width, shift), second, width, shift)
    decreases |first|
  {
    if first == [] {
      assert first + second == second;
    } else {
      assert (first + second)[1..] == first[1..] + second;
      MoveSitesAppend(Patch(bytes, first[0], width, shift), first[1..], second, width, shift);
    }
  }

  /** The directory's own bytes. */
  function Own(bytes: seq<uint8>, d: Directory): seq<uint8>
    requires d.start <= d.end <= |bytes|
  {
    bytes[d.start..d.end]
  }

  lemma PatchKeepsDirectory(bytes: seq<uint8>, at: nat, shift: nat, d: Directory)
    requires d.start <= d.end <= |bytes| && at + d.Width() <= |bytes| && !Touches(d, at)
    ensures Own(Patch(bytes, at, d.Width(), shift), d) == Own(bytes, d)
  {
    hide Moved;
    var patched := Patch(bytes, at, d.Width(), shift);
    forall k | d.start <= k < d.end
      ensures patched[k] == bytes[k]
    {
      assert k < at || at + d.Width() <= k;
    }
  }

  lemma SameSlice(a: seq<uint8>, b: seq<uint8>, d: Directory, from: nat, to: nat)
    requires d.start <= d.end <= |a| && |a| == |b| && Own(a, d) == Own(b, d) && d.start <= from <= to <= d.end
    ensures a[from..to] == b[from..to]
  {
    forall k | from <= k < to
      ensures a[k] == b[k]
    {
      assert Own(a, d)[k - d.start] == Own(b, d)[k - d.start];
    }
  }

  /** What the directory says depends on its own bytes only. */
  lemma {:induction false} EntrySitesDepend(a: seq<uint8>, b: seq<uint8>, cursor: nat, blockEnd: nat, page: uint32, d: Directory)
    requires d.start <= cursor <= blockEnd <= d.end <= |a| == |b| && (blockEnd - cursor) % 2 == 0 && Own(a, d) == Own(b, d)
    ensures EntrySites(a, cursor, blockEnd, page, d) == EntrySites(b, cursor, blockEnd, page, d)
    decreases blockEnd - cursor
  {
    if cursor < blockEnd {
      SameSlice(a, b, d, cursor, cursor + 2);
      EntrySitesDepend(a, b, cursor + 2, blockEnd, page, d);
    }
  }

  lemma {:induction false} BlockSitesDepend(a: seq<uint8>, b: seq<uint8>, cursor: nat, d: Directory)
    requires d.start <= cursor <= d.end <= |a| == |b| && Own(a, d) == Own(b, d)
    ensures BlockSites(a, cursor, d) == BlockSites(b, cursor, d)
    decreases d.end - cursor
  {
    hide EntrySites;
    if cursor < d.end {
      if d.end - cursor >= HEADER_SIZE {
        SameSlice(a, b, d, cursor, cursor + 4);
        SameSlice(a, b, d, cursor + 4, cursor + 8);
      }
      var block := ReadBlock(a, cursor, d);
      assert ReadBlock(b, cursor, d) == block;
      if block.Some? {
        EntrySitesDepend(a, b, cursor + HEADER_SIZE, block.value.end, block.value.page, d);
        BlockSitesDepend(a, b, block.value.end, d);
      }
    }
  }

  lemma {:induction false} EntrySitesFit(bytes: seq<uint8>, cursor: nat, blockEnd: nat, page: uint32, d: Directory)
    requires cursor <= blockEnd <= |bytes| && (blockEnd - cursor) % 2 == 0
    ensures SitesFit(EntrySites(bytes, cursor, blockEnd, page, d).sites, |bytes|, d)
    decreases blockEnd - cursor
  {
    if cursor < blockEnd {
      EntrySitesFit(bytes, cursor + 2, blockEnd, page, d);
    }
  }

  lemma {:induction false} BlockSitesFit(bytes: seq<uint8>, cursor: nat, d: Directory)
    requires cursor <= d.end <= |bytes|
    ensures SitesFit(BlockSites(bytes, cursor, d).sites, |bytes|, d)
    decreases d.end - cursor
  {
    if cursor < d.end && ReadBlock(bytes, cursor, d).Some? {
      var block := ReadBlock(bytes, cursor, d).value;
      EntrySitesFit(bytes, cursor + HEADER_SIZE, block.end, block.page, d);
      BlockSitesFit(bytes, block.end, d);
    }
  }

  function Applied(bytes: seq<uint8>, f: Found, d: Directory, shift: Option<nat>): (r: Pass)
    requires SitesFit(f.sites, |bytes|, d)
  {
    Pass(f.status, if shift.Some? then MoveSites(bytes, f.sites, d.Width(), shift.value) else bytes)
  }

  lemma {:induction false} EntriesApply(bytes: seq<uint8>, cursor: nat, blockEnd: nat, page: uint32, d: Directory, shift: Option<nat>)
    requires d.start <= cursor <= blockEnd <= d.end <= |bytes| && (blockEnd - cursor) % 2 == 0
    ensures SitesFit(EntrySites(bytes, cursor, blockEnd, page, d).sites, |bytes|, d)
    ensures Entries(bytes, cursor, blockEnd, page, d, shift) == Applied(bytes, EntrySites(bytes, cursor, blockEnd, page, d), d, shift)
    ensures Own(Entries(bytes, cursor, blockEnd, page, d, shift).bytes, d) == Own(bytes, d)
    decreases blockEnd - cursor
  {
    hide ReadEntry, Patch, Own;
    EntrySitesFit(bytes, cursor, blockEnd, page, d);
    if cursor < blockEnd {
      var e := ReadEntry(bytes, cursor, page, d);
      if e.Site? && shift.Some? {
        var patched := Patch(bytes, e.at, d.Width(), shift.value);
        PatchKeepsDirectory(bytes, e.at, shift.value, d);
        EntrySitesDepend(bytes, patched, cursor + 2, blockEnd, page, d);
        EntriesApply(patched, cursor + 2, blockEnd, page, d, shift);
        var rest := EntrySites(bytes, cursor + 2, blockEnd, page, d);
        assert ([e.at] + rest.sites)[1..] == rest.sites;
      } else if !e.Bad? {
        EntriesApply(bytes, cursor + 2, blockEnd, page, d, shift);
      }
    }
  }

  /** A pass applies what the untouched directory says, up to the first fault, and leaves the directory as it was. */
  lemma {:induction false} BlocksApply(bytes: seq<uint8>, cursor: nat, d: Directory, shift: Option<nat>)
    requires d.start <= cursor <= d.end <= |bytes|
    ensures SitesFit(BlockSites(bytes, cursor, d).sites, |bytes|, d)
    ensures Blocks(bytes, cursor, d, shift) == Applied(bytes, BlockSites(bytes, cursor, d), d, shift)
    ensures Own(Blocks(bytes, cursor, d, shift).bytes, d) == Own(bytes, d)
    decreases d.end - cursor
  {
    hide ReadBlock, Entries, EntrySites, Own;
    BlockSitesFit(bytes, cursor, d);
    if cursor < d.end && ReadBlock(bytes, cursor, d).Some? {
      var block := ReadBlock(bytes, cursor, d).value;
      var found := EntrySites(bytes, cursor + HEADER_SIZE, block.end, block.page, d);
      EntriesApply(bytes, cursor + HEADER_SIZE, block.end, block.page, d, shift);
      if found.status == Ok {
        var r := Entries(bytes, cursor + HEADER_SIZE, block.end, block.page, d, shift);
        BlockSitesDepend(bytes, r.bytes, block.end, d);
        BlocksApply(r.bytes, block.end, d, shift);
        if shift.Some? {
          BlockSitesFit(bytes, block.end, d);
          MoveSitesAppend(bytes, found.sites, BlockSites(bytes, block.end, d).sites, d.Width(), shift.value);
        }
      }
    }
  }

  // sl_loader_apply_relocations

  datatype Storage = Heap | Virtual | VirtualTainted

  datatype Image = Image(size: uint32, pe32Plus: bool, rva: uint32, length: uint32) {
    function Extent(): Directory { Directory(rva, rva + length, pe32Plus) }
  }

  /** The mapped image, as a value. */
  datatype Mapping = Mapping(bytes: seq<uint8>, loadBase: uint64, storage: Storage, finalized: bool, address: uint64)

  /** The checks before any byte of the directory is read. */
  function Refusal(image: Image, m: Mapping, base: uint64): Status {
    if |m.bytes| != image.size then InvalidArgument
    else if m.finalized || m.storage.VirtualTainted? then InvalidState
    else if m.storage.Virtual? && base != m.address then InvalidState
    else if !image.pe32Plus && base > UINT32_MAX then InvalidArgument
    else if base == m.loadBase then Ok
    else if image.rva == 0 || image.length == 0 then RelocationRequired
    else if image.rva > |m.bytes| || image.length > |m.bytes| - image.rva then InvalidImage
    else Ok
  }

  /** How far words move between two bases. */
  function Shift(from: uint64, to: uint64, width: nat): nat {
    Wrap((to - from) % TWO_64, Span(width))
  }

  /** What the directory says of an image that the checks let through. */
  function Sites(image: Image, m: Mapping): (f: Found)
    requires image.rva + image.length <= |m.bytes|
    ensures SitesFit(f.sites, |m.bytes|, image.Extent())
  {
    var d := image.Extent();
    BlockSitesFit(m.bytes, d.start, d);
    BlockSites(m.bytes, d.start, d)
  }

  datatype Relocated = Relocated(status: Status, mapping: Mapping)

  /** All or nothing: every word the directory names moves and the base follows, or nothing changes. */
  function Relocate(image: Image, m: Mapping, base: uint64): Relocated {
    if Refusal(image, m, base) != Ok || base == m.loadBase then Relocated(Refusal(image, m, base), m)
    else
      var f, width := Sites(image, m), image.Extent().Width();
      if f.status != Ok then Relocated(f.status, m)
      else Relocated(Ok, m.(bytes := MoveSites(m.bytes, f.sites, width, Shift(m.loadBase, base, width)), loadBase := base))
  }

  class MappedImage {
    const bytes: array<uint8>
    var loadBase: uint64
    var storage: Storage
    var finalized: bool
    const address: uint64   // of bytes in the host

    constructor (bytes: array<uint8>, loadBase: uint64, storage: Storage, address: uint64)
      ensures this.bytes == bytes && Value() == Mapping(bytes[..], loadBase, storage, false, address)
    {
      this.bytes, this.loadBase, this.storage, finalized, this.address := bytes, loadBase, storage, false, address;
    }

    function Value(): Mapping
      reads this, bytes
    {
      Mapping(bytes[..], loadBase, storage, finalized, address)
    }

    method ApplyRelocations(image: Image, base: uint64) returns (status: Status)
      modifies this, bytes
      ensures Relocated(status, Value()) == Relocate(image, old(Value()), base)
    {
      hide Blocks, BlockSites, MoveSites, Span;
      status := Refusal(image, Value(), base);
      if status != Ok || base == loadBase {
        return;
      }
      var d := image.Extent();
      ghost var was := bytes[..];
      BlocksApply(was, d.start, d, None);
      status := ProcessRelocations(bytes, d, None);
      if status != Ok {
        return;
      }
      var shift := Shift(loadBase, base, d.Width());
      BlocksApply(was, d.start, d, Some(shift));
      status := ProcessRelocations(bytes, d, Some(shift));
      if status != Ok {
        return;
      }
      loadBase := base;
    }
  }
}
