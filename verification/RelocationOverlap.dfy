/** Exactly when an image comes back: no two of the words its directory names may share a byte. */
module RelocationOverlap {
  import opened Bytes
  import opened Relocation
  import opened RelocationLaws

  // Numbers and windows of bytes

  lemma {:induction false} LoadAppend(a: seq<uint8>, b: seq<uint8>)
    ensures Load(a + b) == Load(a) + Span(|a|) * Load(b)
  {
    if a == [] {
      assert a + b == b;
    } else {
      assert (a + b)[1..] == a[1..] + b;
      LoadAppend(a[1..], b);
      Distribute(a[0], Load(a[1..]), Span(|a| - 1), Load(b));
    }
  }

  lemma Distribute(head: int, rest: int, span: int, more: int)
    ensures head + 256 * (rest + span * more) == head + 256 * rest + (256 * span) * more
  {
  }

  lemma {:induction false} SpanAdds(m: nat, n: nat)
    ensures Span(m + n) == Span(m) * Span(n)
  {
    if m > 0 {
      SpanAdds(m - 1, n);
      Distribute(0, 0, Span(m - 1), Span(n));
    }
  }

  lemma LoadSplit(bytes: seq<uint8>, from: nat, middle: nat, to: nat)
    requires from <= middle <= to <= |bytes|
    ensures Load(bytes[from..to]) == Load(bytes[from..middle]) + Span(middle - from) * Load(bytes[middle..to])
  {
    hide Load, Span;
    LoadAppend(bytes[from..middle], bytes[middle..to]);
    assert bytes[from..to] == bytes[from..middle] + bytes[middle..to];
  }

  /** The low bytes of a number are the number modulo their span. */
  lemma LoadLow(bytes: seq<uint8>, from: nat, middle: nat, to: nat)
    requires from <= middle <= to <= |bytes|
    ensures Load(bytes[from..middle]) == Wrap(Load(bytes[from..to]), Span(middle - from))
  {
    hide Load, Span;
    LoadSplit(bytes, from, middle, to);
    ModUnique(Load(bytes[from..to]), Span(middle - from), Load(bytes[middle..to]), Load(bytes[from..middle]));
  }

  lemma WrapWrap(v: int, a: nat, b: nat)
    requires a > 0 && b > 0 && a * b > 0
    ensures Wrap(Wrap(v, a * b), a) == Wrap(v, a)
  {
    var q, r := v / (a * b), v % (a * b);
    assert v == (a * b) * q + r && (a * b) * q == a * (b * q);
    assert r == a * (r / a) + r % a;
    assert a * (b * q) + a * (r / a) == a * (b * q + r / a);
    ModUnique(v, a, b * q + r / a, r % a);
  }

  /** A carry inside the high part of a number is a carry of the number. */
  lemma WrapScales(low: nat, a: nat, v: int, b: nat)
    requires low < a && b > 0 && a * b > 0
    ensures low + a * Wrap(v, b) == Wrap(low + a * v, a * b)
  {
    var q, r := v / b, v % b;
    assert v == b * q + r;
    assert a * v == a * (b * q) + a * r && a * (b * q) == (a * b) * q;
    if b > r + 1 {
      TimesGrows(a, b, r + 1);
    }
    assert a * (r + 1) == a * r + a;
    ModUnique(low + a * v, a * b, q, low + a * r);
  }

  lemma TimesGrows(n: nat, b: int, d: int)
    requires n > 0 && b > d
    ensures n * b > n * d
  {
    TimesAtLeast(n, b - d);
    assert n * (b - d) == n * b - n * d;
  }

  /** A patch adds to the word it is at. */
  lemma PatchLoads(bytes: seq<uint8>, at: nat, width: nat, shift: nat, delta: int)
    requires at + width <= |bytes| && Wrap(shift, Span(width)) == Wrap(delta, Span(width))
    ensures Load(Patch(bytes, at, width, shift)[at..at + width]) == Wrap(Load(bytes[at..at + width]) + delta, Span(width))
  {
    hide Wrap, Load, Span, Moved, Patch;
    var word, n := bytes[at..at + width], Span(width);
    PatchInside(bytes, at, width, shift, 0, width);
    MovedLoads(word, shift);
    assert Moved(word, shift)[0..width] == Moved(word, shift);
    WrapAdds(shift, Load(word), n);
    WrapAdds(delta, Load(word), n);
  }

  /** A window of n bytes that begins at or below a word, and ends inside it: the patch adds to the window's number too. */
  lemma PatchAddsToWindow(bytes: seq<uint8>, u: nat, s: nat, n: nat, width: nat, shift: nat, delta: int)
    requires u + width <= |bytes| && s <= u < s + n <= u + width && Wrap(shift, Span(width)) == Wrap(delta, Span(width))
    ensures Load(Patch(bytes, u, width, shift)[s..s + n]) == Wrap(Load(bytes[s..s + n]) + Span(u - s) * delta, Span(n))
  {
    hide Wrap, Load, Span, Patch;
    var next, to, a, k := Patch(bytes, u, width, shift), s + n, u - s, s + n - u;
    SpanAdds(k, width - k);
    SpanAdds(a, k);
    PatchLoads(bytes, u, width, shift, delta);
    LoadLow(next, u, to, u + width);
    LoadLow(bytes, u, to, u + width);
    var word, high, low := Load(bytes[u..u + width]), Load(bytes[u..to]), Load(bytes[s..u]);
    WrapWrap(word + delta, Span(k), Span(width - k));
    WrapAdds(word, delta, Span(k));
    assert Load(next[u..to]) == Wrap(high + delta, Span(k));
    PatchOutside(bytes, u, width, shift, s, u);
    LoadSplit(next, s, u, to);
    LoadSplit(bytes, s, u, to);
    WrapScales(low, Span(a), high + delta, Span(k));
    assert Span(a) * (high + delta) == Span(a) * high + Span(a) * delta;
  }

  /** What the words that begin in the window weigh there. */
  function Weight(sites: seq<nat>, s: nat, n: nat): nat {
    if sites == [] then 0 else (if s <= sites[0] < s + n then Span(sites[0] - s) else 0) + Weight(sites[1..], s, n)
  }

  /** Every word lies below the window, or begins in it or above and reaches its end. */
  predicate Clears(sites: seq<nat>, s: nat, n: nat, width: nat) {
    forall k :: 0 <= k < |sites| ==> if sites[k] < s then sites[k] + width <= s else s + n <= sites[k] + width
  }

  /** One word's part. */
  lemma MoveAddsToWindow(bytes: seq<uint8>, u: nat, s: nat, n: nat, width: nat, shift: nat, delta: int)
    requires u + width <= |bytes| && s + n <= |bytes| && Wrap(shift, Span(width)) == Wrap(delta, Span(width))
    requires if u < s then u + width <= s else s + n <= u + width
    ensures var c := if s <= u < s + n then Span(u - s) else 0;
            Load(Patch(bytes, u, width, shift)[s..s + n]) == Wrap(Load(bytes[s..s + n]) + c * delta, Span(n))
  {
    hide Patch, Load, Span, Wrap;
    if s <= u < s + n {
      PatchAddsToWindow(bytes, u, s, n, width, shift, delta);
    } else {
      PatchOutside(bytes, u, width, shift, s, s + n);
      assert |bytes[s..s + n]| == n;
      WrapIs(Load(bytes[s..s + n]), Span(n), 0, Load(bytes[s..s + n]));
    }
  }

  lemma AddsOn(window: int, c: int, more: int, delta: int, span: nat)
    requires span > 0
    ensures Wrap(Wrap(window + c * delta, span) + more * delta, span) == Wrap(window + (c + more) * delta, span)
  {
    hide Wrap;
    WrapAdds(window + c * delta, more * delta, span);
    assert (c + more) * delta == c * delta + more * delta;
  }

  lemma {:induction false} MovesAddToWindow(bytes: seq<uint8>, sites: seq<nat>, s: nat, n: nat, width: nat, shift: nat, delta: int)
    requires Fit(sites, width, |bytes|) && Clears(sites, s, n, width) && s + n <= |bytes| && Wrap(shift, Span(width)) == Wrap(delta, Span(width))
    ensures Load(MoveSites(bytes, sites, width, shift)[s..s + n]) == Wrap(Load(bytes[s..s + n]) + Weight(sites, s, n) * delta, Span(n))
    decreases |sites|
  {
    hide Patch, Load, Span, Wrap;
    var window := Load(bytes[s..s + n]);
    if sites == [] {
      assert |bytes[s..s + n]| == n;
      WrapIs(window, Span(n), 0, window);
    } else {
      var u, rest := sites[0], sites[1..];
      MoveAddsToWindow(bytes, u, s, n, width, shift, delta);
      MovesAddToWindow(Patch(bytes, u, width, shift), rest, s, n, width, shift, delta);
      AddsOn(window, if s <= u < s + n then Span(u - s) else 0, Weight(rest, s, n), delta, Span(n));
    }
  }

  /** One pass of moves down by one, and one of moves up by one. */
  lemma DownMoves(bytes: seq<uint8>, sites: seq<nat>, s: nat, n: nat, width: nat, down: nat)
    requires Fit(sites, width, |bytes|) && Clears(sites, s, n, width) && s + n <= |bytes| && Wrap(down, Span(width)) == Wrap(-1, Span(width))
    ensures Load(MoveSites(bytes, sites, width, down)[s..s + n]) == Wrap(Load(bytes[s..s + n]) - Weight(sites, s, n), Span(n))
  {
    hide Load, Span, Wrap, MoveSites, Weight, Clears;
    MovesAddToWindow(bytes, sites, s, n, width, down, -1);
  }

  lemma UpMoves(bytes: seq<uint8>, sites: seq<nat>, s: nat, n: nat, width: nat)
    requires Fit(sites, width, |bytes|) && Clears(sites, s, n, width) && s + n <= |bytes|
    ensures Load(MoveSites(bytes, sites, width, 1)[s..s + n]) == Wrap(Load(bytes[s..s + n]) + Weight(sites, s, n), Span(n))
  {
    hide Load, Span, Wrap, MoveSites, Weight, Clears;
    MovesAddToWindow(bytes, sites, s, n, width, 1, 1);
  }

  lemma WrapIs(v: int, n: nat, q: int, r: int)
    requires n > 0 && v == n * q + r && 0 <= r < n
    ensures Wrap(v, n) == r
  {
    ModUnique(v, n, q, r);
  }

  // Undoing moves

  /** The bytes that moving the sites by the inverse shift leads to these. */
  function Unmoved(bytes: seq<uint8>, sites: seq<nat>, width: nat, back: nat): (r: seq<uint8>)
    requires Fit(sites, width, |bytes|)
    ensures |r| == |bytes|
  {
    if sites == [] then bytes else Patch(Unmoved(bytes, sites[1..], width, back), sites[0], width, back)
  }

  lemma PatchBack(bytes: seq<uint8>, at: nat, width: nat, back: nat, shift: nat)
    requires at + width <= |bytes| && Wrap(back + shift, Span(width)) == 0
    ensures Patch(Patch(bytes, at, width, back), at, width, shift) == bytes
  {
    hide Span;
    var word := bytes[at..at + width];
    WrapIs(0, Span(width), 0, 0);
    PatchTwice(bytes, at, width, back, shift, 0);
    MovedNowhere(word, 0);
  }

  lemma {:induction false} UnmovedMoves(bytes: seq<uint8>, sites: seq<nat>, width: nat, back: nat, shift: nat)
    requires Fit(sites, width, |bytes|) && Wrap(back + shift, Span(width)) == 0
    ensures MoveSites(Unmoved(bytes, sites, width, back), sites, width, shift) == bytes
  {
    hide Patch, Span;
    if sites != [] {
      PatchBack(Unmoved(bytes, sites[1..], width, back), sites[0], width, back, shift);
      UnmovedMoves(bytes, sites[1..], width, back, shift);
    }
  }

  lemma {:induction false} UnmovedKeepsDirectory(bytes: seq<uint8>, sites: seq<nat>, d: Directory, back: nat)
    requires d.start <= d.end <= |bytes| && SitesFit(sites, |bytes|, d)
    ensures Own(Unmoved(bytes, sites, d.Width(), back), d) == Own(bytes, d)
  {
    hide Patch, Own;
    if sites != [] {
      UnmovedKeepsDirectory(bytes, sites[1..], d, back);
      PatchKeepsDirectory(Unmoved(bytes, sites[1..], d.Width(), back), sites[0], back, d);
    }
  }

  // The lowest word that overlaps a higher one

  predicate Distinct(sites: seq<nat>) {
    forall j, k :: 0 <= j < k < |sites| ==> sites[j] != sites[k]
  }

  predicate OverlapsAbove(sites: seq<nat>, s: nat, width: nat) {
    exists u :: u in sites && s < u < s + width
  }

  /** A word that overlaps a higher one, and none below it does. */
  predicate LowestOverlap(sites: seq<nat>, s: nat, width: nat) {
    && s in sites && OverlapsAbove(sites, s, width)
    && forall u :: u in sites && u < s ==> !OverlapsAbove(sites, u, width)
  }

  lemma {:induction false} FindLowest(sites: seq<nat>, width: nat, s: nat) returns (lowest: nat)
    requires s in sites && OverlapsAbove(sites, s, width)
    ensures LowestOverlap(sites, lowest, width)
    decreases s
  {
    if u :| u in sites && u < s && OverlapsAbove(sites, u, width) {
      lowest := FindLowest(sites, width, u);
    } else {
      lowest := s;
    }
  }

  /** The nearest word above. */
  lemma {:induction false} FindNext(sites: seq<nat>, s: nat, t: nat) returns (next: nat)
    requires t in sites && s < t
    ensures next in sites && s < next <= t && forall u :: u in sites && s < u ==> next <= u
    decreases t
  {
    if u :| u in sites && s < u < t {
      next := FindNext(sites, s, u);
    } else {
      next := t;
    }
  }

  lemma SomeOverlap(sites: seq<nat>, width: nat) returns (s: nat)
    requires Distinct(sites) && !AllApart(sites, width)
    ensures s in sites && OverlapsAbove(sites, s, width)
  {
    var j, k :| 0 <= j < k < |sites| && !Apart(sites[j], sites[k], width);
    s := if sites[j] < sites[k] then sites[j] else sites[k];
    var u := if sites[j] < sites[k] then sites[k] else sites[j];
    assert u in sites && s < u < s + width;
  }

  lemma NotAgain(sites: seq<nat>)
    requires Distinct(sites) && sites != []
    ensures sites[0] !in sites[1..] && Distinct(sites[1..])
  {
    assert forall k :: 0 <= k < |sites[1..]| ==> sites[1..][k] == sites[k + 1];
  }

  /** Among distinct words whose only member in the window is its last byte, the weight says whether that one is there. */
  lemma {:induction false} WeightOfLast(sites: seq<nat>, s: nat, t: nat, width: nat)
    requires s <= t && Distinct(sites) && OthersClear(sites, s, t, width)
    ensures Weight(sites, s, t - s + 1) == if t in sites then Span(t - s) else 0
  {
    hide Span, Distinct;
    if sites != [] {
      NotAgain(sites);
      WeightOfLast(sites[1..], s, t, width);
      assert sites == [sites[0]] + sites[1..];
    }
  }

  /** Every word lies below s, or begins at t or above. */
  predicate OthersClear(sites: seq<nat>, s: nat, t: nat, width: nat) {
    forall k :: 0 <= k < |sites| ==> if sites[k] < s then sites[k] + width <= s else t <= sites[k]
  }

  lemma ClearsWindow(sites: seq<nat>, s: nat, t: nat, n: nat, width: nat)
    requires OthersClear(sites, s, t, width) && s + n <= t + width
    ensures Clears(sites, s, n, width)
  {
  }

  // The carry that is lost

  /** All bytes of the word are 0xff: one more and its carry is lost. */
  predicate Full(bytes: seq<uint8>, s: nat, width: nat) {
    s + width <= |bytes| && forall k :: s <= k < s + width ==> bytes[k] == 0xff
  }

  lemma {:induction false} FullLoads(s: seq<uint8>)
    ensures (forall k :: 0 <= k < |s| ==> s[k] == 0xff) <==> Load(s) == Span(|s|) - 1
  {
    if s != [] {
      FullLoads(s[1..]);
      assert forall k :: 1 <= k < |s| ==> s[k] == s[1..][k - 1];
    }
  }

  lemma FullIff(bytes: seq<uint8>, s: nat, n: nat)
    requires s + n <= |bytes|
    ensures Full(bytes, s, n) <==> Load(bytes[s..s + n]) == Span(n) - 1
  {
    hide Load, Span;
    FullLoads(bytes[s..s + n]);
    assert forall k :: s <= k < s + n ==> bytes[k] == bytes[s..s + n][k - s];
  }

  /**
   * Between the two passes the word at s is moved by the words after it in the list,
   * down, and by the words before it, up; the nearest word above it, in one of the two,
   * makes a difference.
   */
  lemma MiddleDiffers(bytes: seq<uint8>, before: seq<nat>, after: seq<nat>, s: nat, t: nat, width: nat, down: nat)
    requires s < t < s + width <= |bytes| && Fit(before, width, |bytes|) && Fit(after, width, |bytes|)
    requires Wrap(down, Span(width)) == Wrap(-1, Span(width))
    requires Distinct(before) && Distinct(after) && ((t in before) != (t in after))
    requires OthersClear(before, s, t, width) && OthersClear(after, s, t, width)
    requires Full(MoveSites(MoveSites(bytes, after, width, down), before, width, 1), s, width)
    ensures !Full(bytes, s, width)
  {
    hide Span, Load, Wrap, Weight, MoveSites, Full, Distinct, OthersClear;
    if Full(bytes, s, width) {
      var up, less := Weight(before, s, t - s + 1), Weight(after, s, t - s + 1);
      OneWeighs(before, after, s, t, width);
      var span, middle := MiddleMoves(bytes, before, after, s, t, width, down, up, less);
      NotAround(span, Span(t - s), up, less, middle);
    }
  }

  lemma OneWeighs(before: seq<nat>, after: seq<nat>, s: nat, t: nat, width: nat)
    requires s < t && Distinct(before) && Distinct(after) && ((t in before) != (t in after))
    requires OthersClear(before, s, t, width) && OthersClear(after, s, t, width)
    ensures OneIs(Weight(before, s, t - s + 1), Weight(after, s, t - s + 1), Span(t - s)) && 0 < Span(t - s) < Span(t - s + 1)
  {
    hide Span, Weight, Distinct, OthersClear;
    WeightOfLast(before, s, t, width);
    WeightOfLast(after, s, t, width);
    SpanGrows(t - s);
  }

  predicate OneIs(a: nat, b: nat, v: nat) {
    (a == v && b == 0) || (a == 0 && b == v)
  }

  /** Full before and after, in the window that ends with the first byte of the word at t. */
  lemma MiddleMoves(bytes: seq<uint8>, before: seq<nat>, after: seq<nat>, s: nat, t: nat, width: nat, down: nat, up: nat, less: nat)
    returns (span: nat, middle: nat)
    requires s < t < s + width <= |bytes| && Fit(before, width, |bytes|) && Fit(after, width, |bytes|)
    requires Wrap(down, Span(width)) == Wrap(-1, Span(width))
    requires OthersClear(before, s, t, width) && OthersClear(after, s, t, width)
    requires Full(bytes, s, width) && Full(MoveSites(MoveSites(bytes, after, width, down), before, width, 1), s, width)
    requires up == Weight(before, s, t - s + 1) && less == Weight(after, s, t - s + 1)
    ensures span == Span(t - s + 1)
    ensures middle == Wrap(span - 1 - less, span) && span - 1 == Wrap(middle + up, span)
  {
    hide Span, Load, Wrap, Weight, MoveSites, OthersClear, Clears, Full;
    var moved, n := MoveSites(bytes, after, width, down), t - s + 1;
    ClearsWindow(before, s, t, n, width);
    ClearsWindow(after, s, t, n, width);
    DownMoves(bytes, after, s, n, width, down);
    UpMoves(moved, before, s, n, width);
    FullPart(bytes, s, n, width);
    FullPart(MoveSites(moved, before, width, 1), s, n, width);
    span, middle := Span(n), Load(moved[s..s + n]);
  }

  lemma FullPart(bytes: seq<uint8>, s: nat, n: nat, width: nat)
    requires n <= width && Full(bytes, s, width)
    ensures s + n <= |bytes| && Load(bytes[s..s + n]) == Span(n) - 1
  {
    hide Load, Span;
    FullIff(bytes, s, n);
  }

  lemma SpanGrows(n: nat)
    ensures 0 < Span(n) < Span(n + 1)
  {
  }

  /** All ones, and one power more or less, is not all ones. */
  lemma NotAround(span: nat, power: nat, up: nat, down: nat, middle: nat)
    requires 0 < power < span && OneIs(up, down, power) && middle == Wrap(span - 1 - down, span)
    ensures Wrap(middle + up, span) != span - 1
  {
    if up == power {
      WrapIs(span - 1, span, 0, span - 1);
      WrapIs(span - 1 + power, span, 1, power - 1);
    } else {
      WrapIs(span - 1 - power, span, 0, span - 1 - power);
    }
  }

  /** Down by one at a word that does not end full: no borrow leaves it. */
  lemma NoBorrow(bytes: seq<uint8>, s: nat, width: nat, down: nat)
    requires s + width < |bytes| && Wrap(down, Span(width)) == Wrap(-1, Span(width)) && !Full(Patch(bytes, s, width, down), s, width)
    ensures Load(Patch(bytes, s, width, down)[s..s + width + 1]) == Load(bytes[s..s + width + 1]) - 1
  {
    hide Span, Load, Patch, Full;
    var next, word, n := Patch(bytes, s, width, down), Load(bytes[s..s + width]), Span(width);
    PatchLoads(bytes, s, width, down, -1);
    FullIff(next, s, width);
    if word == 0 {
      WrapIs(-1, n, -1, n - 1);
    } else {
      WrapIs(word - 1, n, 0, word - 1);
    }
    TopStays(bytes, s, width, down);
  }

  lemma TopStays(bytes: seq<uint8>, s: nat, width: nat, shift: nat)
    requires s + width < |bytes|
    ensures var next := Patch(bytes, s, width, shift);
            Load(next[s..s + width + 1]) - Load(next[s..s + width]) == Load(bytes[s..s + width + 1]) - Load(bytes[s..s + width])
  {
    hide Span, Load, Patch;
    var next := Patch(bytes, s, width, shift);
    PatchOutside(bytes, s, width, shift, s + width, s + width + 1);
    LoadSplit(next, s, s + width, s + width + 1);
    LoadSplit(bytes, s, s + width, s + width + 1);
  }

  /** Up by one at a full word: the carry is lost. */
  lemma CarryLost(bytes: seq<uint8>, s: nat, width: nat)
    requires s + width < |bytes| && Full(bytes, s, width)
    ensures Load(Patch(bytes, s, width, 1)[s..s + width + 1]) == Load(bytes[s..s + width + 1]) - Span(width) + 1
  {
    hide Span, Load, Patch, Full;
    PatchLoads(bytes, s, width, 1, 1);
    FullIff(bytes, s, width);
    WrapIs(Span(width), Span(width), 1, 0);
    TopStays(bytes, s, width, 1);
  }

  /** One pass, with the word at s in the middle. */
  function Pass3(bytes: seq<uint8>, before: seq<nat>, s: nat, after: seq<nat>, width: nat, shift: nat): (r: seq<uint8>)
    requires Fit(before, width, |bytes|) && s + width <= |bytes| && Fit(after, width, |bytes|)
    ensures |r| == |bytes|
  {
    MoveSites(Patch(MoveSites(bytes, before, width, shift), s, width, shift), after, width, shift)
  }

  lemma {:induction false} MoveThreeParts(bytes: seq<uint8>, before: seq<nat>, s: nat, after: seq<nat>, width: nat, shift: nat)
    requires Fit(before, width, |bytes|) && s + width <= |bytes| && Fit(after, width, |bytes|)
    ensures MoveSites(bytes, before + ([s] + after), width, shift) == Pass3(bytes, before, s, after, width, shift)
  {
    hide Patch;
    MoveSitesAppend(bytes, before, [s] + after, width, shift);
    assert ([s] + after)[1..] == after;
  }

  /** The windows' numbers over both passes: the lost carry is what they differ by. */
  lemma CarryIsMissing(v0: nat, v1: int, v2: int, v3: int, v4: int, v5: int, v6: int, a: nat, b: nat, word: nat, span: nat)
    requires 0 < word < span && v0 < span
    requires v1 == Wrap(v0 - a, span) && v2 == v1 - 1 && v3 == Wrap(v2 - b, span)
    requires v4 == Wrap(v3 + a, span) && v5 == v4 - word + 1 && v6 == Wrap(v5 + b, span)
    ensures v6 != v0
  {
    hide Wrap;
    var q1 := Quotient(v0 - a, span);
    var q3 := Quotient(v2 - b, span);
    var q4 := Quotient(v3 + a, span);
    var q6 := Quotient(v5 + b, span);
    var q := q1 + q3 + q4 + q6;
    assert span * q == span * q1 + span * q3 + span * q4 + span * q6;
    assert v6 == v0 - word - span * q;
    NoMultiple(word, span, q);
  }

  lemma Quotient(v: int, span: nat) returns (q: int)
    requires span > 0
    ensures v == span * q + Wrap(v, span)
  {
    q := v / span;
  }

  lemma NoMultiple(word: nat, span: nat, q: int)
    requires 0 < word < span
    ensures word + span * q != 0
  {
    if q >= 0 {
      assert span * q >= 0;
    } else {
      assert span * q == -(span * -q);
      TimesAtLeast(span, -q);
    }
  }

  lemma LosesCarry(bytes: seq<uint8>, before: seq<nat>, s: nat, after: seq<nat>, t: nat, width: nat, down: nat)
    requires s < t < s + width && s + width < |bytes| && Fit(before, width, |bytes|) && Fit(after, width, |bytes|)
    requires Wrap(down, Span(width)) == Wrap(-1, Span(width))
    requires Distinct(before) && Distinct(after) && ((t in before) != (t in after))
    requires OthersClear(before, s, t, width) && OthersClear(after, s, t, width)
    requires Full(MoveSites(Pass3(bytes, before, s, after, width, down), before, width, 1), s, width)
    ensures Pass3(Pass3(bytes, before, s, after, width, down), before, s, after, width, 1) != bytes
  {
    hide Span, Load, Wrap, Weight, MoveSites, Full, Patch, Distinct, OthersClear, Clears;
    var n := width + 1;
    ClearsWindow(before, s, t, n, width);
    ClearsWindow(after, s, t, n, width);
    var one := MoveSites(bytes, before, width, down);
    var two := Patch(one, s, width, down);
    var three := MoveSites(two, after, width, down);
    var four := MoveSites(three, before, width, 1);
    var five := Patch(four, s, width, 1);
    var six := MoveSites(five, after, width, 1);
    MiddleDiffers(two, before, after, s, t, width, down);
    DownMoves(bytes, before, s, n, width, down);
    NoBorrow(one, s, width, down);
    DownMoves(two, after, s, n, width, down);
    UpMoves(three, before, s, n, width);
    CarryLost(four, s, width);
    UpMoves(five, after, s, n, width);
    SpanGrows(width);
    assert |bytes[s..s + n]| == n;
    CarryIsMissing(Load(bytes[s..s + n]), Load(one[s..s + n]), Load(two[s..s + n]), Load(three[s..s + n]), Load(four[s..s + n]),
                   Load(five[s..s + n]), Load(six[s..s + n]), Weight(before, s, n), Weight(after, s, n), Span(width), Span(n));
  }

  /** The content that is the given one between the two halves of the way back. */
  function Rewound(bytes: seq<uint8>, before: seq<nat>, s: nat, after: seq<nat>, width: nat, down: nat): (r: seq<uint8>)
    requires Fit(before, width, |bytes|) && s + width <= |bytes| && Fit(after, width, |bytes|)
    ensures |r| == |bytes|
  {
    Unmoved(Patch(Unmoved(Unmoved(bytes, before, width, down), after, width, 1), s, width, 1), before, width, 1)
  }

  lemma RewoundMoves(bytes: seq<uint8>, before: seq<nat>, s: nat, after: seq<nat>, width: nat, down: nat)
    requires Fit(before, width, |bytes|) && s + width <= |bytes| && Fit(after, width, |bytes|) && Wrap(1 + down, Span(width)) == 0
    ensures MoveSites(Pass3(Rewound(bytes, before, s, after, width, down), before, s, after, width, down), before, width, 1) == bytes
  {
    hide Span, Patch, Wrap, Unmoved, MoveSites;
    var start := Unmoved(bytes, before, width, down);
    var middle := Unmoved(start, after, width, 1);
    UnmovedMoves(Patch(middle, s, width, 1), before, width, 1, down);
    PatchBack(middle, s, width, 1, down);
    UnmovedMoves(start, after, width, 1, down);
    UnmovedMoves(bytes, before, width, down, 1);
  }

  lemma RewoundKeepsDirectory(bytes: seq<uint8>, before: seq<nat>, s: nat, after: seq<nat>, d: Directory, down: nat)
    requires d.start <= d.end <= |bytes| && SitesFit(before, |bytes|, d) && SitesFit([s], |bytes|, d) && SitesFit(after, |bytes|, d)
    ensures s + d.Width() <= |bytes| && Own(Rewound(bytes, before, s, after, d.Width(), down), d) == Own(bytes, d)
  {
    hide Patch, Own, Unmoved;
    assert s == [s][0];
    var start := Unmoved(bytes, before, d.Width(), down);
    var middle := Unmoved(start, after, d.Width(), 1);
    UnmovedKeepsDirectory(bytes, before, d, down);
    UnmovedKeepsDirectory(start, after, d, 1);
    PatchKeepsDirectory(middle, s, 1, d);
    UnmovedKeepsDirectory(Patch(middle, s, d.Width(), 1), before, d, 1);
  }

  /** The word at s filled with ones. */
  function Filled(bytes: seq<uint8>, s: nat, width: nat): (r: seq<uint8>)
    requires s + width <= |bytes|
    ensures |r| == |bytes| && Full(r, s, width)
  {
    bytes[..s] + seq(width, _ => 0xff) + bytes[s + width..]
  }

  /** Moving to base b and back gives the mapping back, if both moves are allowed. */
  ghost predicate Returns(image: Image, m: Mapping, b: uint64) {
    Relocate(image, m, b).status == Ok && Refusal(image, m, m.loadBase) == Ok ==>
      Relocate(image, Relocate(image, m, b).mapping, m.loadBase) == Relocated(Ok, m)
  }

  /** Whatever the rest of the image holds, and wherever it is and goes. */
  ghost predicate AlwaysReturns(image: Image, bytes: seq<uint8>)
    requires image.rva + image.length <= |bytes|
  {
    forall m: Mapping, b: uint64 ::
      |m.bytes| == |bytes| && Own(m.bytes, image.Extent()) == Own(bytes, image.Extent()) ==> Returns(image, m, b)
  }

  /** Words each named once: those before and after s in the list, and the nearest above it, which overlaps it. */
  lemma AroundLowest(sites: seq<nat>, width: nat) returns (before: seq<nat>, s: nat, after: seq<nat>, t: nat)
    requires Distinct(sites) && !AllApart(sites, width)
    ensures sites == before + ([s] + after) && Distinct(before) && Distinct(after)
    ensures s < t < s + width && ((t in before) != (t in after))
    ensures OthersClear(before, s, t, width) && OthersClear(after, s, t, width)
  {
    hide Distinct, AllApart, OthersClear, OverlapsAbove;
    var some := SomeOverlap(sites, width);
    s := FindLowest(sites, width, some);
    t := NextOverlaps(sites, s, width);
    before, after := SplitAt(sites, s);
    ClearOfLowest(sites, before, after, s, t, width);
    ElsewhereOnce(before, after, s, t);
  }

  lemma NextOverlaps(sites: seq<nat>, s: nat, width: nat) returns (t: nat)
    requires OverlapsAbove(sites, s, width)
    ensures t in sites && s < t < s + width && forall u :: u in sites && s < u ==> t <= u
  {
    var u :| u in sites && s < u < s + width;
    t := FindNext(sites, s, u);
  }

  lemma SplitAt(sites: seq<nat>, s: nat) returns (before: seq<nat>, after: seq<nat>)
    requires Distinct(sites) && s in sites
    ensures sites == before + ([s] + after) && Distinct(before + ([s] + after))
  {
    var k :| 0 <= k < |sites| && sites[k] == s;
    before, after := sites[..k], sites[k + 1..];
  }

  /** A word other than s is in one part and not in the other. */
  lemma ElsewhereOnce(before: seq<nat>, after: seq<nat>, s: nat, t: nat)
    requires Distinct(before + ([s] + after)) && t in before + ([s] + after) && t != s
    ensures Distinct(before) && Distinct(after) && ((t in before) != (t in after))
  {
    var sites := before + ([s] + after);
    assert forall k :: 0 <= k < |before| ==> before[k] == sites[k];
    assert forall k :: 0 <= k < |after| ==> after[k] == sites[|before| + 1 + k];
  }

  lemma ClearOfLowest(sites: seq<nat>, before: seq<nat>, after: seq<nat>, s: nat, t: nat, width: nat)
    requires sites == before + ([s] + after) && Distinct(sites)
    requires LowestOverlap(sites, s, width) && forall u :: u in sites && s < u ==> t <= u
    ensures OthersClear(before, s, t, width) && OthersClear(after, s, t, width)
  {
    hide OverlapsAbove;
    forall u | u in sites && u != s
      ensures if u < s then u + width <= s else t <= u
    {
      if u < s {
        NoneAbove(sites, u, s, width);
      }
    }
    forall k | 0 <= k < |before|
      ensures before[k] in sites && before[k] != s
    {
      assert before[k] == sites[k] && sites[|before|] == s;
    }
    forall k | 0 <= k < |after|
      ensures after[k] in sites && after[k] != s
    {
      assert after[k] == sites[|before| + 1 + k] && sites[|before|] == s;
    }
  }

  lemma NoneAbove(sites: seq<nat>, u: nat, s: nat, width: nat)
    requires s in sites && u < s && !OverlapsAbove(sites, u, width)
    ensures u + width <= s
  {
  }

  /**
   * A directory that names each word once: the image comes back from every move,
   * whatever it holds, if and only if no two of the words share a byte.
   */
  lemma ReturnsIffApart(image: Image, bytes: seq<uint8>, sites: seq<nat>)
    requires image.size == |bytes| && image.rva != 0 && image.length != 0 && image.rva + image.length <= |bytes|
    requires BlockSites(bytes, image.rva, image.Extent()) == Found(Ok, sites) && Distinct(sites)
    ensures AlwaysReturns(image, bytes) <==> AllApart(sites, image.Extent().Width())
  {
    hide BlockSites, MoveSites, Own, Relocate, Refusal;
    var d := image.Extent();
    if AllApart(sites, d.Width()) {
      forall m: Mapping, b: uint64 | |m.bytes| == |bytes| && Own(m.bytes, d) == Own(bytes, d)
        ensures Returns(image, m, b)
      {
        BlockSitesDepend(bytes, m.bytes, d.start, d);
        if Relocate(image, m, b).status == Ok && Refusal(image, m, m.loadBase) == Ok {
          RelocateBack(image, m, b);
        }
      }
    } else {
      var m := OverlapStays(image, bytes, sites);
      assert !Returns(image, m, 0);
    }
  }

  /** A counterexample for every overlap, moved from base 1 to base 0 and back. */
  lemma OverlapStays(image: Image, bytes: seq<uint8>, sites: seq<nat>) returns (m: Mapping)
    requires image.size == |bytes| && image.rva != 0 && image.length != 0 && image.rva + image.length <= |bytes|
    requires BlockSites(bytes, image.rva, image.Extent()) == Found(Ok, sites)
    requires Distinct(sites) && !AllApart(sites, image.Extent().Width())
    ensures |m.bytes| == |bytes| && Own(m.bytes, image.Extent()) == Own(bytes, image.Extent())
    ensures Relocate(image, m, 0).status == Ok && m.loadBase == 1 && Refusal(image, m, 1) == Ok
    ensures var back := Relocate(image, Relocate(image, m, 0).mapping, 1);
            back.status == Ok && back.mapping.loadBase == m.loadBase && back.mapping.bytes != m.bytes
  {
    hide BlockSites, MoveSites, Own, Span, Distinct, AllApart, OthersClear, Pass3, Rewound, Filled, Full;
    var d := image.Extent();
    var width, down := d.Width(), Span(d.Width()) - 1;
    var before, s, after, t := AroundLowest(sites, width);
    BlockSitesFit(bytes, d.start, d);
    PartsFit(bytes, before, s, after, t, d);
    var middle := Filled(bytes, s, width);
    var start := Rewound(middle, before, s, after, width, down);
    m := Mapping(start, 1, Heap, false, 0);
    FilledKeepsDirectory(bytes, s, d);
    RewoundKeepsDirectory(middle, before, s, after, d, down);
    BlockSitesDepend(bytes, start, d.start, d);
    SpanValues();
    SitesStay(image, m, 0);
    DownIsMinusOne(width, down);
    RewoundMoves(middle, before, s, after, width, down);
    LosesCarry(start, before, s, after, t, width, down);
    MoveThreeParts(start, before, s, after, width, down);
    MoveThreeParts(Pass3(start, before, s, after, width, down), before, s, after, width, 1);
  }

  lemma DownIsMinusOne(width: nat, down: nat)
    requires down == Span(width) - 1
    ensures Wrap(down, Span(width)) == Wrap(-1, Span(width)) && Wrap(1 + down, Span(width)) == 0
  {
    hide Span;
    WrapIs(down, Span(width), 0, down);
    WrapIs(-1, Span(width), -1, down);
    WrapIs(1 + down, Span(width), 1, 0);
  }

  lemma PartsFit(bytes: seq<uint8>, before: seq<nat>, s: nat, after: seq<nat>, t: nat, d: Directory)
    requires SitesFit(before + ([s] + after), |bytes|, d) && (t in before || t in after)
    ensures SitesFit(before, |bytes|, d) && SitesFit([s], |bytes|, d) && SitesFit(after, |bytes|, d)
    ensures s + d.Width() <= |bytes| && t + d.Width() <= |bytes| && !Touches(d, s)
    ensures Fit(before, d.Width(), |bytes|) && Fit(after, d.Width(), |bytes|)
  {
    var sites := before + ([s] + after);
    assert forall k :: 0 <= k < |before| ==> before[k] == sites[k];
    assert forall k :: 0 <= k < |after| ==> after[k] == sites[|before| + 1 + k];
    assert s == sites[|before|];
  }

  lemma FilledKeepsDirectory(bytes: seq<uint8>, s: nat, d: Directory)
    requires d.start <= d.end <= |bytes| && s + d.Width() <= |bytes| && !Touches(d, s)
    ensures Own(Filled(bytes, s, d.Width()), d) == Own(bytes, d)
  {
  }

  // An accepted image that does not come back

  /** Eight zero bytes, and one block that names the words at 0 and at 2 of them. */
  function OverlappingImage(): (r: (Image, seq<uint8>))
    ensures r.0.size == |r.1| && r.0.rva != 0 && r.0.length != 0 && r.0.rva + r.0.length <= |r.1|
  {
    (Image(20, false, 8, 12), [0, 0, 0, 0, 0, 0, 0, 0] + TheBlock())
  }

  function TheBlock(): seq<uint8> {
    ([0, 0, 0, 0] + [12, 0, 0, 0]) + ([0x00, 0x30] + [0x02, 0x30])
  }

  function Value(word: seq<uint8>): nat
    requires |word| == 4
  {
    word[0] as int + 0x100 * word[1] as int + 0x1_0000 * word[2] as int + 0x100_0000 * word[3] as int
  }

  lemma PatchIs(front: seq<uint8>, word: seq<uint8>, rest: seq<uint8>, shift: nat, moved: seq<uint8>)
    requires |word| == 4 == |moved| && Wrap(Value(word) + shift, TWO_32) == Value(moved)
    ensures Patch(front + word + rest, |front|, 4, shift) == front + moved + rest
  {
    hide Load, Store;
    SpanValues();
    LoadFour(word[0], word[1], word[2], word[3]);
    LoadFour(moved[0], moved[1], moved[2], moved[3]);
    assert word == [word[0], word[1], word[2], word[3]] && moved == [moved[0], moved[1], moved[2], moved[3]];
    StoreLoad(moved);
    assert Moved(word, shift) == moved;
    assert (front + word + rest)[|front|..|front| + 4] == word;
  }

  /** Both words down by one, then both up by one. */
  lemma ZerosMove(shift: nat)
    requires shift == TWO_32 - 1
    ensures var bytes := OverlappingImage().1;
            MoveSites(MoveSites(bytes, [0, 2], 4, shift), [0, 2], 4, 1) == [0, 0, 0, 0, 1, 0, 0, 0] + TheBlock()
  {
    hide Patch, TheBlock, MoveSites;
    var rest, bytes := TheBlock(), OverlappingImage().1;
    var one := [0xff, 0xff, 0xff, 0xff, 0, 0, 0, 0] + rest;
    var two := [0xff, 0xff, 0xfe, 0xff, 0, 0, 0, 0] + rest;
    var three := [0, 0, 0xff, 0xff, 0, 0, 0, 0] + rest;
    var four := [0, 0, 0, 0, 1, 0, 0, 0] + rest;
    PatchIs([], [0, 0, 0, 0], [0, 0, 0, 0] + rest, shift, [0xff, 0xff, 0xff, 0xff]);
    assert bytes == [] + [0, 0, 0, 0] + ([0, 0, 0, 0] + rest) && one == [] + [0xff, 0xff, 0xff, 0xff] + ([0, 0, 0, 0] + rest);
    PatchIs([0xff, 0xff], [0xff, 0xff, 0, 0], [0, 0] + rest, shift, [0xfe, 0xff, 0, 0]);
    assert one == [0xff, 0xff] + [0xff, 0xff, 0, 0] + ([0, 0] + rest) && two == [0xff, 0xff] + [0xfe, 0xff, 0, 0] + ([0, 0] + rest);
    PatchIs([], [0xff, 0xff, 0xfe, 0xff], [0, 0, 0, 0] + rest, 1, [0, 0, 0xff, 0xff]);
    assert two == [] + [0xff, 0xff, 0xfe, 0xff] + ([0, 0, 0, 0] + rest) && three == [] + [0, 0, 0xff, 0xff] + ([0, 0, 0, 0] + rest);
    PatchIs([0, 0], [0xff, 0xff, 0, 0], [0, 0] + rest, 1, [0, 0, 1, 0]);
    assert three == [0, 0] + [0xff, 0xff, 0, 0] + ([0, 0] + rest) && four == [0, 0] + [0, 0, 1, 0] + ([0, 0] + rest);
    MoveTwo(bytes, 0, 2, 4, shift);
    MoveTwo(two, 0, 2, 4, 1);
  }

  lemma MoveTwo(bytes: seq<uint8>, p: nat, q: nat, width: nat, shift: nat)
    requires p + width <= |bytes| && q + width <= |bytes|
    ensures MoveSites(bytes, [p, q], width, shift) == Patch(Patch(bytes, p, width, shift), q, width, shift)
  {
    hide Patch;
    assert [p, q][1..] == [q] && [q][1..] == [];
    assert MoveSites(Patch(bytes, p, width, shift), [q], width, shift) ==
           MoveSites(Patch(Patch(bytes, p, width, shift), q, width, shift), [], width, shift);
  }

  lemma TwoSites()
    ensures var (image, bytes) := OverlappingImage();
            BlockSites(bytes, image.rva, image.Extent()) == Found(Ok, [0, 2])
  {
    hide Load;
    var (image, bytes) := OverlappingImage();
    var d := image.Extent();
    assert bytes[8..12] == [0, 0, 0, 0] && bytes[12..16] == [12, 0, 0, 0];
    assert bytes[16..18] == [0x00, 0x30] && bytes[18..20] == [0x02, 0x30];
    LoadFour(0, 0, 0, 0);
    LoadFour(12, 0, 0, 0);
    LoadTwo(0x00, 0x30);
    LoadTwo(0x02, 0x30);
    assert EntrySites(bytes, 20, 20, 0, d) == Found(Ok, []);
    assert EntrySites(bytes, 18, 20, 0, d) == Found(Ok, [2]);
    assert EntrySites(bytes, 16, 20, 0, d) == Found(Ok, [0, 2]);
    assert BlockSites(bytes, 20, d) == Found(Ok, []);
  }

  /** Its directory is accepted, its mapping moves from base 1 to base 0 and back, and the byte at 4 is one more than before. */
  lemma OverlapNotRestored()
    ensures var (image, bytes) := OverlappingImage();
            var m := Mapping(bytes, 1, Heap, false, 0);
            && BlockSites(bytes, image.rva, image.Extent()) == Found(Ok, [0, 2])
            && Relocate(image, m, 0).status == Ok
            && var back := Relocate(image, Relocate(image, m, 0).mapping, 1);
               back == Relocated(Ok, m.(bytes := bytes[4 := 1]))
  {
    hide BlockSites, MoveSites, TheBlock;
    var (image, bytes) := OverlappingImage();
    var m := Mapping(bytes, 1, Heap, false, 0);
    TwoSites();
    SpanValues();
    SitesStay(image, m, 0);
    ZerosMove(TWO_32 - 1);
    assert [0, 0, 0, 0, 1, 0, 0, 0] + TheBlock() == bytes[4 := 1];
  }
}
