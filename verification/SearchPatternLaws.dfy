/** What a normalised search pattern guarantees: a clean parent path and the original last component. */
module SearchPatternLaws {
  import opened Bytes
  import opened Unicode
  import opened Transcoding
  import opened TranscodingLaws
  import opened SearchPatterns

  // The parent path

  predicate IsClean(c: Component) {
    IsComponent(c) && c != HERE && c != PARENT && !IsWild(c)
  }

  predicate AllClean(stack: seq<Component>) {
    forall k :: 0 <= k < |stack| ==> IsClean(stack[k])
  }

  lemma {:induction false} ResolveIsClean(parts: seq<Component>, stack: seq<Component>)
    requires AllComponents(parts) && AllClean(stack)
    ensures Resolve(parts, stack).Resolved? ==> AllClean(Resolve(parts, stack).stack)
    decreases |parts|
  {
    hide IsWild, IsComponent;
    if parts != [] {
      var c, rest := parts[0], parts[1..];
      if c == HERE {
        ResolveIsClean(rest, stack);
      } else if c == PARENT {
        if stack != [] {
          ResolveIsClean(rest, stack[..|stack| - 1]);
        }
      } else if !IsWild(c) {
        ResolveIsClean(rest, stack + [c]);
      }
    }
  }

  /** A component added behind a separator is one part more. */
  lemma {:induction false} PartsAppend(s: seq<uint8>, c: Component, from: nat)
    requires IsComponent(c) && from <= |s| && (s == [] || s[|s| - 1] != SLASH)
    ensures var longer := if s == [] then c else s + [SLASH] + c;
            Parts(longer, from) == Parts(s, from) + [c]
    decreases |s| - from
  {
    hide Skip, Run;
    if s == [] {
      OnlyPart(c);
    } else {
      var longer, begin := s + [SLASH] + c, Skip(s, from);
      SkipExtends(s, longer, from);
      if begin == |s| {
        LastPart(s, c, from);
      } else {
        var end := Run(s, begin);
        RunExtends(s, longer, begin);
        assert longer[begin..end] == s[begin..end];
        PartsAppend(s, c, end);
        assert [s[begin..end]] + (Parts(s, end) + [c]) == ([s[begin..end]] + Parts(s, end)) + [c];
      }
    }
  }

  lemma OnlyPart(c: Component)
    requires IsComponent(c)
    ensures Parts(c, 0) == [c]
  {
    RunToEnd(c, 0);
    assert c[0..|c|] == c && Parts(c, |c|) == [];
  }

  lemma LastPart(s: seq<uint8>, c: Component, from: nat)
    requires IsComponent(c) && from <= |s| && Skip(s, from) == |s|
    ensures Parts(s, from) == [] && Parts(s + [SLASH] + c, from) == [c]
  {
    var longer := s + [SLASH] + c;
    SkipExtends(s, longer, from);
    assert Skip(longer, |s|) == Skip(longer, |s| + 1);
    RunToEnd(longer, |s| + 1);
    assert longer[|s| + 1..|longer|] == c && Parts(longer, |longer|) == [];
  }

  lemma {:induction false} RunToEnd(s: seq<uint8>, from: nat)
    requires from <= |s| && forall k :: from <= k < |s| ==> s[k] != SLASH
    ensures Run(s, from) == |s| && (from < |s| ==> Skip(s, from) == from)
    decreases |s| - from
  {
    if from < |s| {
      RunToEnd(s, from + 1);
    }
  }

  lemma {:induction false} SkipExtends(s: seq<uint8>, longer: seq<uint8>, from: nat)
    requires from <= |s| < |longer| && s <= longer && longer[|s|] == SLASH
    ensures Skip(s, from) < |s| ==> Skip(longer, from) == Skip(s, from)
    ensures Skip(s, from) == |s| ==> Skip(longer, from) == Skip(longer, |s|)
    decreases |s| - from
  {
    if from < |s| && s[from] == SLASH {
      SkipExtends(s, longer, from + 1);
    }
  }

  lemma {:induction false} RunExtends(s: seq<uint8>, longer: seq<uint8>, from: nat)
    requires from <= |s| < |longer| && s <= longer && longer[|s|] == SLASH
    ensures Run(longer, from) == Run(s, from)
    decreases |s| - from
  {
    if from < |s| && s[from] != SLASH {
      RunExtends(s, longer, from + 1);
    }
  }

  /** The written directory has exactly the components of the stack. */
  lemma {:induction false} PartsOfJoin(stack: seq<Component>)
    requires AllComponents(stack)
    ensures Parts(Join(stack), 0) == stack
    ensures stack != [] ==> Join(stack) != [] && Join(stack)[|Join(stack)| - 1] != SLASH
    decreases |stack|
  {
    if stack != [] {
      var front, last := stack[..|stack| - 1], stack[|stack| - 1];
      assert IsComponent(last) && stack == front + [last];
      PartsOfJoin(front);
      JoinIsEmpty(front);
      JoinPush(front, last);
      PartsAppend(Join(front), last, 0);
    }
  }

  /** The directory is the parent path's resolution, and has no empty, ".", ".." or wildcard component. */
  lemma DirectoryIsClean(path: seq<uint16>)
    requires Normalize(path).Done?
    ensures var s := Slashed(To8(path, false).value);
            var r := Resolve(Parts(s[..LastStart(s)], 0), []);
            r.Resolved? && Parts(Normalize(path).value.directory, 0) == r.stack && AllClean(r.stack)
  {
    hide To8, To16, Slashed;
    var s := Slashed(To8(path, false).value);
    var parts := Parts(s[..LastStart(s)], 0);
    ResolveIsClean(parts, []);
    PartsOfJoin(Resolve(parts, []).stack);
  }

  // Climbing above the root

  predicate IsName(c: Component) {
    c != HERE && c != PARENT
  }

  /** How deep a walk along the components ends: names down, ".." up. */
  function Depth(parts: seq<Component>): int {
    if parts == [] then 0
    else
      var last := parts[|parts| - 1];
      Depth(parts[..|parts| - 1]) + if last == PARENT then -1 else if last == HERE then 0 else 1
  }

  predicate NoWild(parts: seq<Component>) {
    forall k :: 0 <= k < |parts| ==> IsName(parts[k]) ==> !IsWild(parts[k])
  }

  lemma {:induction false} DepthOfRest(parts: seq<Component>)
    requires parts != []
    ensures Depth(parts) == Depth(parts[..1]) + Depth(parts[1..])
    decreases |parts|
  {
    if |parts| == 1 {
      assert parts[1..] == [] && parts[..1] == parts;
    } else {
      var front := parts[..|parts| - 1];
      DepthOfRest(front);
      assert front[..1] == parts[..1] && parts[1..][..|parts| - 2] == front[1..];
    }
  }

  lemma DepthOfOne(parts: seq<Component>)
    requires parts != []
    ensures Depth(parts[..1]) == if parts[0] == PARENT then -1 else if parts[0] == HERE then 0 else 1
  {
    assert parts[..1][..0] == [] && parts[..1][0] == parts[0];
    assert Depth([]) == 0;
  }

  /** A walk from a given depth goes above the root somewhere. */
  ghost predicate GoesAbove(parts: seq<Component>, from: nat) {
    exists k :: 0 <= k <= |parts| && from + Depth(parts[..k]) < 0
  }

  lemma GoesAboveStep(parts: seq<Component>, from: nat, next: int)
    requires parts != [] && next == from + Depth(parts[..1])
    ensures next < 0 ==> GoesAbove(parts, from)
    ensures next >= 0 ==> (GoesAbove(parts, from) <==> GoesAbove(parts[1..], next))
  {
    var rest := parts[1..];
    assert Depth(parts[..0]) == 0;
    if next < 0 {
      assert from + Depth(parts[..1]) < 0;
    } else {
      forall k | 0 <= k <= |rest|
        ensures from + Depth(parts[..k + 1]) == next + Depth(rest[..k])
      {
        DepthOfRest(parts[..k + 1]);
        assert parts[..k + 1][..1] == parts[..1] && parts[..k + 1][1..] == rest[..k];
      }
      if GoesAbove(parts, from) {
        var k :| 0 <= k <= |parts| && from + Depth(parts[..k]) < 0;
        assert parts[..(k - 1) + 1] == parts[..k];
        assert next + Depth(rest[..k - 1]) < 0;
      }
      if GoesAbove(rest, next) {
        var k :| 0 <= k <= |rest| && next + Depth(rest[..k]) < 0;
        assert from + Depth(parts[..k + 1]) < 0;
      }
    }
  }

  /** Without wildcards, resolution fails exactly when a walk along the path goes above its start. */
  lemma {:induction false} ClimbsIffAbove(parts: seq<Component>, stack: seq<Component>)
    requires NoWild(parts)
    ensures Resolve(parts, stack) != Wild
    ensures Resolve(parts, stack).Climbs? <==> GoesAbove(parts, |stack|)
    decreases |parts|
  {
    hide IsWild, GoesAbove, Depth;
    if parts == [] {
      NothingAbove(|stack|);
    } else {
      var c, rest := parts[0], parts[1..];
      DepthOfOne(parts);
      GoesAboveStep(parts, |stack|, |stack| + Depth(parts[..1]));
      assert NoWild(rest);
      if c == HERE {
        ClimbsIffAbove(rest, stack);
      } else if c == PARENT {
        if stack != [] {
          ClimbsIffAbove(rest, stack[..|stack| - 1]);
        }
      } else {
        ClimbsIffAbove(rest, stack + [c]);
      }
    }
  }

  lemma NothingAbove(from: nat)
    ensures !GoesAbove([], from)
  {
    assert forall parts: seq<Component> :: parts == [] ==> parts[..0] == [];
  }

  // The leaf

  predicate IsSeparator(c: nat) {
    c == SLASH || c == BACKSLASH
  }

  predicate NoSeparator(cs: seq<nat>) {
    forall k :: 0 <= k < |cs| ==> !IsSeparator(cs[k])
  }

  /** The index behind the last separator. */
  function LeafIndex(cs: seq<nat>): (j: nat)
    ensures j <= |cs| && (j > 0 ==> IsSeparator(cs[j - 1])) && NoSeparator(cs[j..])
  {
    if cs == [] || IsSeparator(cs[|cs| - 1]) then |cs|
    else
      var j := LeafIndex(cs[..|cs| - 1]);
      assert cs[j..] == cs[..|cs| - 1][j..] + [cs[|cs| - 1]];
      j
  }

  lemma {:induction false} PlainBytes(cs: seq<nat>)
    requires AllScalars(cs) && NoSeparator(cs)
    ensures forall k :: 0 <= k < |Write8(cs)| ==> Write8(cs)[k] != SLASH && Write8(cs)[k] != BACKSLASH
  {
    if cs != [] {
      PlainBytes(cs[1..]);
      assert forall k :: 0 <= k < |Encode8(cs[0])| ==> Encode8(cs[0])[k] != SLASH && Encode8(cs[0])[k] != BACKSLASH;
    }
  }

  lemma {:induction false} PlainUnits(cs: seq<nat>)
    requires AllScalars(cs) && NoSeparator(cs)
    ensures forall k :: 0 <= k < |Write16(cs)| ==> !IsSeparator(Write16(cs)[k])
  {
    if cs != [] {
      PlainUnits(cs[1..]);
    }
  }

  /** Text divides at the last separator, which is one byte and one unit. */
  lemma TextDivides(cs: seq<nat>)
    requires AllScalars(cs)
    ensures var j := LeafIndex(cs);
            && AllScalars(cs[..j]) && AllScalars(cs[j..])
            && Write8(cs) == Write8(cs[..j]) + Write8(cs[j..]) && Write16(cs) == Write16(cs[..j]) + Write16(cs[j..])
            && (j == 0 ==> Write8(cs[..j]) == [] && Write16(cs[..j]) == [])
            && (j > 0 ==> EndsSeparated(Write8(cs[..j])) && EndsSeparated(Write16(cs[..j])))
  {
    hide Encode8, Encode16;
    var j := LeafIndex(cs);
    var a, b := cs[..j], cs[j..];
    assert cs == a + b;
    Write8Appends(a, b);
    Write16Appends(a, b);
    if j > 0 {
      assert a == cs[..j - 1] + [cs[j - 1]];
      Write8More(cs[..j - 1], cs[j - 1]);
      Write16More(cs[..j - 1], cs[j - 1]);
      SeparatorByte(cs[j - 1]);
    }
  }

  predicate EndsSeparated(s: seq<nat>) {
    s != [] && IsSeparator(s[|s| - 1])
  }

  lemma SlashedDivides(front: seq<uint8>, leaf: seq<uint8>)
    requires front == [] || EndsSeparated(front)
    requires forall k :: 0 <= k < |leaf| ==> leaf[k] != SLASH && leaf[k] != BACKSLASH
    ensures LastStart(Slashed(front + leaf)) == |front| && Slashed(front + leaf)[|front|..] == leaf
  {
    LastStartUnique(Slashed(front + leaf), |front|);
  }

  /** Cutting the slashed bytes at their last slash cuts the text at its last separator. */
  lemma LeafBytes(cs: seq<nat>)
    requires AllScalars(cs)
    ensures var s := Slashed(Write8(cs)); s[LastStart(s)..] == Write8(cs[LeafIndex(cs)..])
  {
    hide Encode8, Write8, Write16, Slashed;
    var j := LeafIndex(cs);
    TextDivides(cs);
    PlainBytes(cs[j..]);
    SlashedDivides(Write8(cs[..j]), Write8(cs[j..]));
  }

  lemma SeparatorByte(c: nat)
    requires IsSeparator(c)
    ensures IsScalar(c) && Encode8(c) == [c] && Encode16(c) == [c]
  {
  }

  predicate UnitsPlain(units: seq<uint16>) {
    forall k :: 0 <= k < |units| ==> !IsSeparator(units[k])
  }

  /** The pattern is exactly what follows the last separator of the original path, or all of it. */
  ghost predicate IsLeafOf(pattern: seq<uint16>, path: seq<uint16>) {
    && UnitsPlain(pattern)
    && exists k :: 0 <= k <= |path| && path[k..] == pattern && (k > 0 ==> IsSeparator(path[k - 1]))
  }

  lemma LeafUnits(cs: seq<nat>)
    requires AllScalars(cs)
    ensures IsLeafOf(Write16(cs[LeafIndex(cs)..]), Write16(cs))
  {
    hide Encode8, Write8, Write16;
    var j := LeafIndex(cs);
    TextDivides(cs);
    PlainUnits(cs[j..]);
    var k := |Write16(cs[..j])|;
    assert Write16(cs)[k..] == Write16(cs[j..]);
  }

  /** The leaf survives the detour through UTF-8 unit for unit. */
  lemma LeafIsSuffix(path: seq<uint16>)
    requires Normalize(path).Done?
    ensures IsLeafOf(Normalize(path).value.pattern, path)
  {
    hide Parts, Resolve, Join, Encode8, Encode16;
    var cs := Read16(path, false).value;
    WriteRead16(path);
    LeafBytes(cs);
    LeafUnits(cs);
    var leaf := cs[LeafIndex(cs)..];
    ReadWrite8(leaf, false);
  }

  /** Decoding the leaf never fails: only the path itself can be badly encoded. */
  lemma BadEncodingIffPath(path: seq<uint16>)
    requires path != [] && 0 !in path
    ensures Normalize(path) == Fail(BadEncoding) <==> To8(path, false).None?
  {
    hide Parts, Resolve, Join, Encode8, Encode16;
    if To8(path, false).Some? {
      var cs := Read16(path, false).value;
      LeafBytes(cs);
      ReadWrite8(cs[LeafIndex(cs)..], false);
    }
  }
}
