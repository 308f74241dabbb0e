/** What a search pattern's path means: its components, the place they lead to, and when it is refused. */
module SearchMeaning {
  import opened Bytes
  import opened Transcoding
  import opened TranscodingLaws
  import opened SearchPatterns
  import opened SearchPatternLaws

  // Components, with any number of separators between them

  function Gap(n: nat): (s: seq<uint8>)
    ensures |s| == n
  {
    seq(n, _ => 0x2f)
  }

  /** Components, each behind its separators, and separators at the end. */
  function Woven(parts: seq<Component>, gaps: seq<nat>, tail: nat): seq<uint8>
    requires |gaps| == |parts|
  {
    if parts == [] then Gap(tail) else Gap(gaps[0]) + (parts[0] + Woven(parts[1..], gaps[1..], tail))
  }

  /** Between two components there is a separator. */
  predicate KeptApart(gaps: seq<nat>) {
    forall k :: 1 <= k < |gaps| ==> gaps[k] >= 1
  }

  lemma {:induction false} SkipsGap(front: seq<uint8>, n: nat, rest: seq<uint8>)
    requires rest == [] || rest[0] != 0x2f
    ensures Skip(front + Gap(n) + rest, |front|) == |front| + n
    decreases n
  {
    var s := front + Gap(n) + rest;
    if n > 0 {
      var longer := front + [0x2f];
      assert Gap(n) == [0x2f] + Gap(n - 1);
      assert s == longer + Gap(n - 1) + rest;
      SkipsGap(longer, n - 1, rest);
    }
  }

  lemma {:induction false} RunsOver(front: seq<uint8>, c: seq<uint8>, rest: seq<uint8>)
    requires (rest == [] || rest[0] == 0x2f) && forall k :: 0 <= k < |c| ==> c[k] != 0x2f
    ensures Run(front + c + rest, |front|) == |front| + |c|
    decreases |c|
  {
    var s := front + c + rest;
    if c != [] {
      assert s == (front + [c[0]]) + c[1..] + rest;
      RunsOver(front + [c[0]], c[1..], rest);
    }
  }

  /** However many separators stand before, between and behind them, a path has exactly its components. */
  lemma {:induction false} PartsOfWoven(front: seq<uint8>, parts: seq<Component>, gaps: seq<nat>, tail: nat)
    requires AllComponents(parts) && |gaps| == |parts| && KeptApart(gaps)
    ensures Parts(front + Woven(parts, gaps, tail), |front|) == parts
    decreases |parts|
  {
    hide Skip, Run, Parts, Gap;
    var s := front + Woven(parts, gaps, tail);
    if parts == [] {
      assert s == front + Gap(tail) + [];
      SkipsGap(front, tail, []);
      NoPartsLeft(s, |front|);
    } else {
      var c, rest := parts[0], Woven(parts[1..], gaps[1..], tail);
      var begun := front + Gap(gaps[0]);
      FirstPart(front, Gap(gaps[0]), c, rest);
      SkipsGap(front, gaps[0], c + rest);
      WovenBegins(parts[1..], gaps[1..], tail);
      RunsOver(begun, c, rest);
      PartsStep(s, |front|, |begun|, |begun| + |c|);
      PartsOfWoven(begun + c, parts[1..], gaps[1..], tail);
    }
  }

  lemma FirstPart(front: seq<uint8>, gap: seq<uint8>, c: seq<uint8>, rest: seq<uint8>)
    ensures var s, begun := front + (gap + (c + rest)), front + gap;
            && s == begun + (c + rest) && s == begun + c + rest && s == (begun + c) + rest
            && s[|begun|..|begun| + |c|] == c
  {
  }

  lemma NoPartsLeft(s: seq<uint8>, from: nat)
    requires from <= |s| && Skip(s, from) == |s|
    ensures Parts(s, from) == []
  {
  }

  lemma WovenBegins(parts: seq<Component>, gaps: seq<nat>, tail: nat)
    requires |gaps| == |parts| && (gaps != [] ==> gaps[0] >= 1)
    ensures var s := Woven(parts, gaps, tail); s == [] || s[0] == 0x2f
  {
  }

  // Where they lead

  predicate IsDot(c: Component) { c == [0x2e] }

  predicate IsDotDot(c: Component) { c == [0x2e, 0x2e] }

  lemma {:induction false} ResolveThen(front: seq<Component>, c: Component, stack: seq<Component>)
    ensures Resolve(front + [c], stack) ==
            if Resolve(front, stack).Resolved? then Resolve([c], Resolve(front, stack).stack) else Resolve(front, stack)
    decreases |front|
  {
    hide IsWild;
    if front == [] {
      assert front + [c] == [c];
    } else {
      assert (front + [c])[1..] == front[1..] + [c];
      if front[0] == HERE {
        ResolveThen(front[1..], c, stack);
      } else if front[0] == PARENT {
        if stack != [] {
          ResolveThen(front[1..], c, stack[..|stack| - 1]);
        }
      } else {
        ResolveThen(front[1..], c, stack + [front[0]]);
      }
    }
  }

  /** The walk stands at level k before component j, goes down by it, and never comes back to that level. */
  ghost predicate EntersForGood(parts: seq<Component>, k: nat, j: nat) {
    && j < |parts| && !IsDot(parts[j]) && !IsDotDot(parts[j]) && Depth(parts[..j]) == k
    && forall i :: j < i <= |parts| ==> Depth(parts[..i]) > k
  }

  lemma DepthOn(front: seq<Component>, c: Component)
    ensures Depth(front + [c]) == Depth(front) + if IsDotDot(c) then -1 else if IsDot(c) then 0 else 1
  {
    assert (front + [c])[..|front|] == front;
  }

  lemma EntersOn(front: seq<Component>, c: Component, k: nat, j: nat)
    requires EntersForGood(front, k, j) && Depth(front + [c]) > k
    ensures EntersForGood(front + [c], k, j)
  {
    hide Depth;
    var all := front + [c];
    assert all[..j] == front[..j];
    forall i | j < i <= |all|
      ensures Depth(all[..i]) > k
    {
      if i <= |front| {
        assert all[..i] == front[..i];
      } else {
        assert all[..i] == all;
      }
    }
  }

  lemma EntersLast(front: seq<Component>, c: Component)
    requires !IsDot(c) && !IsDotDot(c) && Depth(front) >= 0
    ensures EntersForGood(front + [c], Depth(front), |front|)
  {
    var all := front + [c];
    DepthOn(front, c);
    assert all[..|front|] == front && all[..|all|] == all;
  }

  /** A resolved path names, level by level, the components by which its walk went down for good. */
  lemma {:induction false} ResolvedIsWalk(parts: seq<Component>) returns (at: seq<nat>)
    requires Resolve(parts, []).Resolved?
    ensures var stack := Resolve(parts, []).stack;
            && |stack| == |at| == Depth(parts)
            && forall k :: 0 <= k < |stack| ==> EntersForGood(parts, k, at[k]) && stack[k] == parts[at[k]]
    decreases |parts|
  {
    hide IsWild, EntersForGood, Depth;
    if parts == [] {
      at := [];
      assert Depth(parts) == 0 by { DepthOfNothing(); }
    } else {
      var front, c := parts[..|parts| - 1], parts[|parts| - 1];
      assert parts == front + [c];
      ResolveThen(front, c, []);
      var before := ResolvedIsWalk(front);
      var stack := Resolve(front, []).stack;
      DepthOn(front, c);
      OneResolves(c, stack);
      if c == HERE {
        at := before;
      } else if c == PARENT {
        at := before[..|before| - 1];
      } else {
        at := before + [|front|];
        EntersLast(front, c);
      }
      forall k | 0 <= k < |at|
        ensures EntersForGood(parts, k, at[k])
      {
        if k < |before| {
          EntersOn(front, c, k, before[k]);
        }
      }
      forall k | 0 <= k < |at|
        ensures at[k] < |parts| && Resolve(parts, []).stack[k] == parts[at[k]]
      {
        EntersInside(parts, k, at[k]);
        if k < |before| {
          EntersInside(front, k, before[k]);
        }
      }
    }
  }

  lemma OneResolves(c: Component, stack: seq<Component>)
    ensures Resolve([c], stack) ==
            if c == HERE then Resolved(stack)
            else if c == PARENT then (if stack == [] then Climbs else Resolved(stack[..|stack| - 1]))
            else if IsWild(c) then Wild else Resolved(stack + [c])
  {
    hide IsWild;
    var one := [c];
    assert one[1..] == [];
  }

  lemma EntersInside(parts: seq<Component>, k: nat, j: nat)
    requires EntersForGood(parts, k, j)
    ensures j < |parts|
  {
  }

  lemma DepthOfNothing()
    ensures forall parts: seq<Component> :: parts == [] ==> Depth(parts) == 0
  {
  }

  /** It resolves exactly when no name in it has a wildcard and its walk never goes above its start. */
  lemma {:induction false} ResolvesIff(parts: seq<Component>, stack: seq<Component>)
    ensures Resolve(parts, stack).Resolved? <==> NoWild(parts) && !GoesAbove(parts, |stack|)
    decreases |parts|
  {
    hide IsWild, GoesAbove;
    if NoWild(parts) {
      ClimbsIffAbove(parts, stack);
    } else {
      WildFails(parts, stack);
    }
  }

  lemma {:induction false} WildFails(parts: seq<Component>, stack: seq<Component>)
    requires !NoWild(parts)
    ensures !Resolve(parts, stack).Resolved?
    decreases |parts|
  {
    hide IsWild;
    var c, rest := parts[0], parts[1..];
    assert forall k :: 1 <= k < |parts| ==> parts[k] == rest[k - 1];
    if c == HERE {
      WildFails(rest, stack);
    } else if c == PARENT {
      if stack != [] {
        WildFails(rest, stack[..|stack| - 1]);
      }
    } else if !IsWild(c) {
      WildFails(rest, stack + [c]);
    }
  }

  // When a path is refused

  /** Either separator. */
  predicate Separates(b: uint8) {
    b == 0x2f || b == 0x5c
  }

  /** The bytes of the path, with one kind of separator. */
  function Plain(b: seq<uint8>): (s: seq<uint8>)
    ensures |s| == |b|
  {
    seq(|b|, k requires 0 <= k < |b| => if Separates(b[k]) then 0x2f else b[k])
  }

  /** The path in UTF-8, cut behind its last separator. */
  predicate CutsAt(b: seq<uint8>, leaf: nat) {
    && leaf <= |b| && (leaf > 0 ==> Separates(b[leaf - 1]))
    && forall k :: leaf <= k < |b| ==> !Separates(b[k])
  }

  predicate HasWildcard(c: Component) {
    exists k :: 0 <= k < |c| && (c[k] == 0x2a || c[k] == 0x3f)
  }

  ghost predicate SomeWild(parts: seq<Component>) {
    exists k :: 0 <= k < |parts| && HasWildcard(parts[k])
  }

  lemma WildIff(parts: seq<Component>)
    ensures SomeWild(parts) <==> !NoWild(parts)
  {
    forall c: Component
      ensures HasWildcard(c) <==> IsName(c) && IsWild(c)
    {
      if IsWild(c) {
        var k :| 0 <= k < |c| && (c[k] == STAR || c[k] == QUESTION);
      }
    }
  }

  /** What is wrong with a path that is text: a drive, an end that is a separator, a leaf or a parent path of no use. */
  ghost predicate Unusable(b: seq<uint8>, leaf: nat)
    requires b != [] && CutsAt(b, leaf)
  {
    || 0x3a in b || Separates(b[0]) || Separates(b[|b| - 1])
    || b[leaf..] == [0x2e] || b[leaf..] == [0x2e, 0x2e]
    || SomeWild(Parts(Plain(b[..leaf]), 0)) || GoesAbove(Parts(Plain(b[..leaf]), 0), 0)
  }

  lemma PlainIsSlashed(b: seq<uint8>)
    ensures Plain(b) == Slashed(b)
  {
  }

  lemma CutIsLast(b: seq<uint8>, leaf: nat)
    requires CutsAt(b, leaf)
    ensures LastStart(Slashed(b)) == leaf
    ensures Slashed(b)[..leaf] == Plain(b[..leaf]) && Slashed(b)[leaf..] == b[leaf..]
  {
    LastStartUnique(Slashed(b), leaf);
  }

  predicate LeadsTo(parts: seq<Component>, directory: seq<uint8>) {
    var r := Resolve(parts, []);
    r.Resolved? && directory == Join(r.stack)
  }

  /** Every refusal of a search pattern, and its cause. */
  lemma RefusedIff(path: seq<uint16>, b: seq<uint8>, leaf: nat)
    requires path != [] && 0 !in path && To8(path, false) == Some(b) && b != [] && CutsAt(b, leaf)
    ensures Normalize(path).Done? <==> !Unusable(b, leaf)
    ensures Normalize(path).Fail? ==> Normalize(path) == Fail(InvalidPath)
    ensures Normalize(path).Done? ==> LeadsTo(Parts(Plain(b[..leaf]), 0), Normalize(path).value.directory)
  {
    hide To8, To16, Parts, Resolve, Join, NoWild, SomeWild, GoesAbove, LastStart;
    WildIff(Parts(Plain(b[..leaf]), 0));
    BadEncodingIffPath(path);
    CutIsLast(b, leaf);
    ResolvesIff(Parts(Plain(b[..leaf]), 0), []);
  }

  /** An empty path, one with a zero unit and one that is not text are told apart. */
  lemma BadPathsTold(path: seq<uint16>)
    ensures Normalize(path) == Fail(InvalidArgument) <==> path == []
    ensures path != [] && 0 in path ==> Normalize(path) == Fail(InvalidPath)
    ensures Normalize(path) == Fail(BadEncoding) <==> path != [] && 0 !in path && To8(path, false).None?
  {
    hide To8, To16, Parts, Resolve, Join;
    if path != [] && 0 !in path {
      BadEncodingIffPath(path);
    }
  }
}
