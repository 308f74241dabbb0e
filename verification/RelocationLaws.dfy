/** Relocations compose: moving an image in two steps is moving it once, and moving it back restores it. */
module RelocationLaws {
  import opened Bytes
  import opened Relocation

  /** Two words are the same word or share no byte. */
  predicate Apart(p: nat, q: nat, width: nat) {
    p == q || p + width <= q || q + width <= p
  }

  predicate AllApart(sites: seq<nat>, width: nat) {
    forall j, k :: 0 <= j < k < |sites| ==> Apart(sites[j], sites[k], width)
  }

  lemma MovedTwice(word: seq<uint8>, x: nat, y: nat, z: nat)
    requires Wrap(x + y, Span(|word|)) == Wrap(z, Span(|word|))
    ensures Moved(Moved(word, x), y) == Moved(word, z)
  {
    hide Moved, Span, Load;
    MovedLoads(word, x);
    MovedAgain(word, Moved(word, x), x, y, z);
  }

  lemma MovedAgain(word: seq<uint8>, once: seq<uint8>, x: nat, y: nat, z: nat)
    requires |once| == |word| && Load(once) == Wrap(Load(word) + x, Span(|word|))
    requires Wrap(x + y, Span(|word|)) == Wrap(z, Span(|word|))
    ensures Moved(once, y) == Moved(word, z)
  {
    hide Load, Store, Span, Wrap;
    WrapsTwice(Load(word), x, y, z, Span(|word|));
  }

  lemma MovedLoads(word: seq<uint8>, x: nat)
    ensures Load(Moved(word, x)) == Wrap(Load(word) + x, Span(|word|))
  {
    hide Load, Store, Span, Wrap;
    LoadStore(Wrap(Load(word) + x, Span(|word|)), |word|);
  }

  lemma WrapsTwice(v: nat, x: nat, y: nat, z: nat, span: nat)
    requires span > 0 && Wrap(x + y, span) == Wrap(z, span)
    ensures Wrap(Wrap(v + x, span) + y, span) == Wrap(v + z, span)
  {
    hide Wrap;
    WrapAdds(v + x, y, span);
    WrapAdds(x + y, v, span);
    WrapAdds(z, v, span);
    assert (v + x) + y == v + (x + y);
  }

  lemma WrapAdds(a: int, b: int, n: nat)
    requires n > 0
    ensures Wrap(Wrap(a, n) + b, n) == Wrap(a + b, n) == Wrap(b + a, n)
  {
    var q, c := a / n, a % n + b;
    assert a == n * q + a % n;
    assert c == n * (c / n) + c % n;
    assert n * q + n * (c / n) == n * (q + c / n);
    ModUnique(a + b, n, q + c / n, c % n);
  }

  lemma ModUnique(a: int, n: nat, q: int, r: int)
    requires n > 0 && a == n * q + r && 0 <= r < n
    ensures a % n == r
  {
    var d := a / n - q;
    assert a == n * (a / n) + a % n;
    assert n * d == n * (a / n) - n * q;
    assert n * -d == -(n * d);
    if d >= 1 {
      TimesAtLeast(n, d);
    } else if d <= -1 {
      TimesAtLeast(n, -d);
    }
  }

  lemma TimesAtLeast(n: nat, d: nat)
    requires d >= 1
    ensures n * d >= n
  {
    assert n * d == n * (d - 1) + n;
  }

  lemma PatchTwice(bytes: seq<uint8>, p: nat, width: nat, x: nat, y: nat, z: nat)
    requires p + width <= |bytes| && Wrap(x + y, Span(width)) == Wrap(z, Span(width))
    ensures Patch(Patch(bytes, p, width, x), p, width, y) == Patch(bytes, p, width, z)
  {
    hide Moved;
    var word := bytes[p..p + width];
    MovedTwice(word, x, y, z);
    assert Patch(bytes, p, width, x)[p..p + width] == Moved(word, x);
  }

  lemma PatchesCommute(bytes: seq<uint8>, p: nat, q: nat, width: nat, x: nat, y: nat)
    requires p + width <= |bytes| && q + width <= |bytes| && Apart(p, q, width)
    ensures Patch(Patch(bytes, p, width, x), q, width, y) == Patch(Patch(bytes, q, width, y), p, width, x)
  {
    hide Patch;
    if p == q {
      PatchTwice(bytes, p, width, x, y, x + y);
      PatchTwice(bytes, p, width, y, x, x + y);
    } else {
      var one, two := Patch(bytes, p, width, x), Patch(bytes, q, width, y);
      PatchOutside(bytes, p, width, x, q, q + width);
      PatchOutside(bytes, q, width, y, p, p + width);
      forall k | 0 <= k < |bytes|
        ensures Patch(one, q, width, y)[k] == Patch(two, p, width, x)[k]
      {
        PatchAt(bytes, p, width, x, k);
        PatchAt(bytes, q, width, y, k);
        PatchAt(one, q, width, y, k);
        PatchAt(two, p, width, x, k);
      }
    }
  }

  /** One byte of a patched image. */
  lemma PatchAt(bytes: seq<uint8>, at: nat, width: nat, shift: nat, k: nat)
    requires at + width <= |bytes| && k < |bytes|
    ensures Patch(bytes, at, width, shift)[k] == if at <= k < at + width then Moved(bytes[at..at + width], shift)[k - at] else bytes[k]
  {
    hide Moved;
  }

  predicate Fit(sites: seq<nat>, width: nat, size: nat) {
    forall k :: 0 <= k < |sites| ==> sites[k] + width <= size
  }

  lemma {:induction false} PatchPastSites(bytes: seq<uint8>, p: nat, sites: seq<nat>, width: nat, x: nat, y: nat)
    requires p + width <= |bytes| && Fit(sites, width, |bytes|)
    requires forall k :: 0 <= k < |sites| ==> Apart(p, sites[k], width)
    ensures Patch(MoveSites(bytes, sites, width, x), p, width, y) == MoveSites(Patch(bytes, p, width, y), sites, width, x)
    decreases |sites|
  {
    hide Patch;
    if sites != [] {
      PatchPastSites(Patch(bytes, sites[0], width, x), p, sites[1..], width, x, y);
      PatchesCommute(bytes, p, sites[0], width, y, x);
    }
  }

  lemma {:induction false} MoveSitesTwice(bytes: seq<uint8>, sites: seq<nat>, width: nat, x: nat, y: nat, z: nat)
    requires Fit(sites, width, |bytes|) && AllApart(sites, width) && Wrap(x + y, Span(width)) == Wrap(z, Span(width))
    ensures MoveSites(MoveSites(bytes, sites, width, x), sites, width, y) == MoveSites(bytes, sites, width, z)
    decreases |sites|
  {
    hide Patch, Span;
    if sites != [] {
      var p, rest := sites[0], sites[1..];
      var once := Patch(bytes, p, width, x);
      PatchPastSites(once, p, rest, width, x, y);
      PatchTwice(bytes, p, width, x, y, z);
      MoveSitesTwice(Patch(bytes, p, width, z), rest, width, x, y, z);
    }
  }

  lemma MovedNowhere(word: seq<uint8>, x: nat)
    requires Wrap(x, Span(|word|)) == 0
    ensures Moved(word, x) == word
  {
    hide Load, Store, Span;
    var span, v := Span(|word|), Load(word);
    WrapAdds(x, v, span);
    ModUnique(v, span, 0, v);
    StoreLoad(word);
  }

  lemma {:induction false} MoveSitesNowhere(bytes: seq<uint8>, sites: seq<nat>, width: nat, x: nat)
    requires Fit(sites, width, |bytes|) && Wrap(x, Span(width)) == 0
    ensures MoveSites(bytes, sites, width, x) == bytes
    decreases |sites|
  {
    hide Moved, Span;
    if sites != [] {
      var word := bytes[sites[0]..sites[0] + width];
      MovedNowhere(word, x);
      assert Patch(bytes, sites[0], width, x) == bytes;
      MoveSitesNowhere(bytes, sites[1..], width, x);
    }
  }

  lemma ShiftsAdd(a: uint64, b: uint64, c: uint64, width: nat)
    requires width == 4 || width == 8
    ensures Wrap(Shift(a, b, width) + Shift(b, c, width), Span(width)) == Wrap(Shift(a, c, width), Span(width))
    ensures Wrap(Shift(a, a, width), Span(width)) == 0
  {
    hide Span, Wrap;
    SpanValues();
    var n, x, y, z := Span(width), (b - a) % TWO_64, (c - b) % TWO_64, (c - a) % TWO_64;
    WrapAdds(x, Wrap(y, n), n);
    WrapAdds(y, x, n);
    WrapAdds(z, 0, n);
    WrapsTogether(x + y, z, width);
    NoShift(a, width);
  }

  lemma WrapsTogether(sum: nat, z: uint64, width: nat)
    requires width == 4 || width == 8
    requires sum == z || sum == z + TWO_64
    ensures Wrap(sum, Span(width)) == Wrap(z, Span(width))
  {
    hide Span;
    SpanValues();
  }

  lemma NoShift(a: uint64, width: nat)
    requires width == 4 || width == 8
    ensures Wrap(Shift(a, a, width), Span(width)) == 0
  {
    hide Span;
    SpanValues();
  }

  lemma PatchInside(bytes: seq<uint8>, at: nat, width: nat, shift: nat, i: nat, j: nat)
    requires i <= j <= width && at + width <= |bytes|
    ensures Patch(bytes, at, width, shift)[at + i..at + j] == Moved(bytes[at..at + width], shift)[i..j]
  {
    hide Moved;
  }

  lemma PatchOutside(bytes: seq<uint8>, at: nat, width: nat, shift: nat, from: nat, to: nat)
    requires at + width <= |bytes| && from <= to <= |bytes| && (to <= at || at + width <= from)
    ensures Patch(bytes, at, width, shift)[from..to] == bytes[from..to]
  {
    hide Moved;
    var next := Patch(bytes, at, width, shift);
    assert forall k :: from <= k < to ==> next[k] == bytes[k];
  }

  /** Bytes outside every site stay as they were. */
  lemma {:induction false} OutsideUntouched(bytes: seq<uint8>, sites: seq<nat>, width: nat, shift: nat, from: nat, to: nat)
    requires Fit(sites, width, |bytes|) && from <= to <= |bytes|
    requires forall k :: 0 <= k < |sites| ==> sites[k] + width <= from || to <= sites[k]
    ensures MoveSites(bytes, sites, width, shift)[from..to] == bytes[from..to]
    decreases |sites|
  {
    hide Patch;
    if sites != [] {
      OutsideUntouched(Patch(bytes, sites[0], width, shift), sites[1..], width, shift, from, to);
      PatchOutside(bytes, sites[0], width, shift, from, to);
    }
  }

  /** A word named once, and overlapping no other named word, moves by exactly one shift. */
  lemma {:induction false} NamedWordMoves(bytes: seq<uint8>, sites: seq<nat>, width: nat, shift: nat, n: nat)
    requires Fit(sites, width, |bytes|) && n < |sites|
    requires forall k :: 0 <= k < |sites| && k != n ==> sites[k] + width <= sites[n] || sites[n] + width <= sites[k]
    ensures MoveSites(bytes, sites, width, shift)[sites[n]..sites[n] + width] == Moved(bytes[sites[n]..sites[n] + width], shift)
    decreases |sites|
  {
    hide Moved, Patch;
    var p := sites[n];
    var patched := Patch(bytes, sites[0], width, shift);
    if n == 0 {
      OutsideUntouched(patched, sites[1..], width, shift, p, p + width);
      PatchInside(bytes, p, width, shift, 0, width);
    } else {
      NamedWordMoves(patched, sites[1..], width, shift, n - 1);
      PatchOutside(bytes, sites[0], width, shift, p, p + width);
    }
  }

  /** A successful relocation leaves the directory, and so the sites, as they were. */
  lemma SitesStay(image: Image, m: Mapping, base: uint64)
    requires Relocate(image, m, base).status == Ok && base != m.loadBase
    ensures image.rva + image.length <= |m.bytes| && |Relocate(image, m, base).mapping.bytes| == |m.bytes|
    ensures Sites(image, Relocate(image, m, base).mapping) == Sites(image, m)
  {
    hide BlockSites, MoveSites, Blocks, Own;
    var d, moved := image.Extent(), Relocate(image, m, base).mapping;
    BlocksApply(m.bytes, d.start, d, Some(Shift(m.loadBase, base, d.Width())));
    BlockSitesDepend(m.bytes, moved.bytes, d.start, d);
  }

  predicate WordsApart(image: Image, m: Mapping) {
    image.rva + image.length <= |m.bytes| ==> AllApart(Sites(image, m).sites, image.Extent().Width())
  }

  /** From A to B to C is from A to C; with C equal to A, every byte is restored. */
  lemma RelocateTwice(image: Image, m: Mapping, b: uint64, c: uint64)
    requires Relocate(image, m, b).status == Ok && WordsApart(image, m)
    ensures Relocate(image, Relocate(image, m, b).mapping, c).status == Relocate(image, m, c).status
    ensures Relocate(image, m, c).status == Ok ==> Relocate(image, Relocate(image, m, b).mapping, c) == Relocate(image, m, c)
  {
    hide Sites, MoveSites, Shift;
    if b != m.loadBase {
      var moved, width := Relocate(image, m, b).mapping, image.Extent().Width();
      SitesStay(image, m, b);
      if c != b && Refusal(image, m, c) == Ok {
        var sites := Sites(image, m).sites;
        ShiftsAdd(m.loadBase, b, c, width);
        MoveSitesTwice(m.bytes, sites, width, Shift(m.loadBase, b, width), Shift(b, c, width), Shift(m.loadBase, c, width));
        if c == m.loadBase {
          ShiftsAdd(c, c, c, width);
          MoveSitesNowhere(m.bytes, sites, width, Shift(c, c, width));
        }
      }
    }
  }

  lemma RelocateBack(image: Image, m: Mapping, b: uint64)
    requires Relocate(image, m, b).status == Ok && Refusal(image, m, m.loadBase) == Ok && WordsApart(image, m)
    ensures Relocate(image, Relocate(image, m, b).mapping, m.loadBase) == Relocated(Ok, m)
  {
    hide Sites, MoveSites;
    RelocateTwice(image, m, b, m.loadBase);
  }
}
