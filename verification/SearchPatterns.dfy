/** Normalising a search pattern: its parent path resolved in place, and its last component. */
module SearchPatterns {
  import opened Bytes
  import opened Unicode
  import opened Transcoding
  import opened TranscodingLaws

  const SLASH: uint8 := 0x2f
  const BACKSLASH: uint8 := 0x5c
  const COLON: uint8 := 0x3a
  const DOT: uint8 := 0x2e
  const STAR: uint8 := 0x2a
  const QUESTION: uint8 := 0x3f

  type Component = seq<uint8>

  const HERE: Component := [DOT]
  const PARENT: Component := [DOT, DOT]

  // The components of a path

  /** The first index from a given one on that is no separator. */
  function Skip(s: seq<uint8>, from: nat): (i: nat)
    requires from <= |s|
    ensures from <= i <= |s| && (i < |s| ==> s[i] != SLASH)
    ensures from < |s| && s[from] == SLASH ==> i > from
    decreases |s| - from
  {
    if from < |s| && s[from] == SLASH then Skip(s, from + 1) else from
  }

  /** The first separator from an index on, or the end. */
  function Run(s: seq<uint8>, from: nat): (i: nat)
    requires from <= |s|
    ensures from <= i <= |s| && (i < |s| ==> s[i] == SLASH)
    ensures from < |s| && s[from] != SLASH ==> i > from
    ensures forall k :: from <= k < i ==> s[k] != SLASH
    decreases |s| - from
  {
    if from < |s| && s[from] != SLASH then Run(s, from + 1) else from
  }

  predicate IsComponent(c: Component) {
    c != [] && forall k :: 0 <= k < |c| ==> c[k] != SLASH
  }

  predicate AllComponents(parts: seq<Component>) {
    forall k :: 0 <= k < |parts| ==> IsComponent(parts[k])
  }

  function Parts(s: seq<uint8>, from: nat): (parts: seq<Component>)
    requires from <= |s|
    ensures AllComponents(parts)
    decreases |s| - from
  {
    var begin := Skip(s, from);
    var end := Run(s, begin);
    if begin == |s| then [] else [s[begin..end]] + Parts(s, end)
  }

  // Their resolution on a stack

  datatype Resolution = Resolved(stack: seq<Component>) | Climbs | Wild

  predicate IsWild(c: Component) {
    STAR in c || QUESTION in c
  }

  function Resolve(parts: seq<Component>, stack: seq<Component>): Resolution {
    if parts == [] then Resolved(stack)
    else if parts[0] == HERE then Resolve(parts[1..], stack)
    else if parts[0] == PARENT then
      if stack == [] then Climbs else Resolve(parts[1..], stack[..|stack| - 1])
    else if IsWild(parts[0]) then Wild
    else Resolve(parts[1..], stack + [parts[0]])
  }

  function Join(stack: seq<Component>): seq<uint8> {
    if stack == [] then []
    else if |stack| == 1 then stack[0]
    else Join(stack[..|stack| - 1]) + [SLASH] + stack[|stack| - 1]
  }

  lemma JoinPush(stack: seq<Component>, c: Component)
    ensures Join(stack + [c]) == if stack == [] then c else Join(stack) + [SLASH] + c
  {
    assert (stack + [c])[..|stack|] == stack;
  }

  lemma JoinIsEmpty(stack: seq<Component>)
    requires AllComponents(stack)
    ensures Join(stack) == [] <==> stack == []
  {
  }

  /** Where the last component of what has been written begins. */
  function LastStart(s: seq<uint8>): (i: nat)
    ensures i <= |s| && (i > 0 ==> s[i - 1] == SLASH) && forall k :: i <= k < |s| ==> s[k] != SLASH
  {
    if s == [] || s[|s| - 1] == SLASH then |s| else LastStart(s[..|s| - 1])
  }

  lemma LastStartUnique(s: seq<uint8>, i: nat)
    requires i <= |s| && (i > 0 ==> s[i - 1] == SLASH) && forall k :: i <= k < |s| ==> s[k] != SLASH
    ensures LastStart(s) == i
  {
  }

  /** Cutting at the last separator takes the last component off. */
  lemma JoinPop(stack: seq<Component>)
    requires AllComponents(stack) && stack != []
    ensures var i := LastStart(Join(stack)); Join(stack)[..if i > 0 then i - 1 else 0] == Join(stack[..|stack| - 1])
  {
    var s, last := Join(stack), stack[|stack| - 1];
    assert IsComponent(last);
    if |stack| == 1 {
      LastStartUnique(s, 0);
    } else {
      var front := Join(stack[..|stack| - 1]);
      assert s == front + [SLASH] + last;
      LastStartUnique(s, |front| + 1);
    }
  }

  // The in-place resolution

  datatype Fault = InvalidArgument | InvalidPath | BadEncoding

  method SkipSeparators(encoded: array<uint8>, from: nat, end: nat) returns (input: nat)
    requires from <= end <= encoded.Length
    ensures input == Skip(encoded[..end], from)
  {
    input := from;
    while input < end && encoded[input] == SLASH
      invariant from <= input <= end
      invariant Skip(encoded[..end], input) == Skip(encoded[..end], from)
    {
      input := input + 1;
    }
  }

  method SkipComponent(encoded: array<uint8>, from: nat, end: nat) returns (input: nat)
    requires from <= end <= encoded.Length
    ensures input == Run(encoded[..end], from)
  {
    input := from;
    while input < end && encoded[input] != SLASH
      invariant from <= input <= end
      invariant Run(encoded[..end], input) == Run(encoded[..end], from)
    {
      input := input + 1;
    }
  }

  method CutLast(directory: array<uint8>, length: nat) returns (output: nat)
    requires length <= directory.Length
    ensures var i := LastStart(directory[..length]); output == if i > 0 then i - 1 else 0
  {
    output := length;
    while output > 0 && directory[output - 1] != SLASH
      invariant output <= length
      invariant LastStart(directory[..output]) == LastStart(directory[..length])
    {
      assert directory[..output][..output - 1] == directory[..output - 1];
      output := output - 1;
    }
    if output > 0 {
      output := output - 1;
    }
  }

  method AppendComponent(directory: array<uint8>, length: nat, c: Component) returns (output: nat)
    requires length + 1 + |c| <= directory.Length || (length == 0 && |c| <= directory.Length)
    modifies directory
    ensures output == length + |c| + if length != 0 then 1 else 0
    ensures output <= directory.Length
    ensures directory[..output] == if length == 0 then c else old(directory[..length]) + [SLASH] + c
  {
    output := length;
    if output != 0 {
      directory[output] := SLASH;
      output := output + 1;
    }
    forall k | 0 <= k < |c| {
      directory[output + k] := c[k];
    }
    output := output + |c|;
    assert directory[..output] == if length == 0 then c else old(directory[..length]) + [SLASH] + c;
  }

  method CutLastOf(directory: array<uint8>, length: nat, ghost stack: seq<Component>) returns (output: nat)
    requires length <= directory.Length && directory[..length] == Join(stack) && AllComponents(stack) && stack != []
    ensures output <= length && directory[..output] == Join(stack[..|stack| - 1])
  {
    JoinPop(stack);
    output := CutLast(directory, length);
    assert directory[..output] == directory[..length][..output];
  }

  /** One component: skipped, popped for, refused or pushed. */
  method PlaceComponent(directory: array<uint8>, length: nat, c: Component, ghost stack: seq<Component>)
    returns (ok: bool, output: nat, ghost after: seq<Component>)
    requires IsComponent(c) && AllComponents(stack) && length <= directory.Length && directory[..length] == Join(stack)
    requires length + |c| + (if length != 0 then 1 else 0) <= directory.Length
    modifies directory
    ensures var r := Resolve([c], stack); ok == r.Resolved? && (ok ==> after == r.stack)
    ensures AllComponents(after) && output <= length + |c| + (if length != 0 then 1 else 0)
    ensures ok ==> output <= directory.Length && directory[..output] == Join(after)
  {
    hide IsWild, LastStart;
    ok, output, after := true, length, stack;
    JoinIsEmpty(stack);
    assert [c][1..] == [];
    if c == PARENT {
      if length == 0 {
        ok := false;
      } else {
        output := CutLastOf(directory, length, stack);
        after := stack[..|stack| - 1];
      }
    } else if c != HERE {
      if IsWild(c) {
        ok := false;
      } else {
        JoinPush(stack, c);
        output := AppendComponent(directory, length, c);
        after := stack + [c];
      }
    }
  }

  lemma ResolveStep(c: Component, rest: seq<Component>, stack: seq<Component>)
    ensures Resolve([c] + rest, stack) ==
            if Resolve([c], stack).Resolved? then Resolve(rest, Resolve([c], stack).stack) else Resolve([c], stack)
  {
    assert ([c] + rest)[1..] == rest && [c][1..] == [];
  }

  /** Writes the joined stack over a buffer no longer than the path it resolves. */
  method NormalizeDirectory(encoded: array<uint8>, leafStart: nat, directory: array<uint8>) returns (ok: bool, output: nat)
    requires leafStart <= encoded.Length && directory.Length == leafStart + 1 && encoded != directory
    modifies directory
    ensures var r := Resolve(Parts(encoded[..leafStart], 0), []);
            && ok == r.Resolved? && output <= leafStart
            && (ok ==> directory[..output] == Join(r.stack) && directory[output] == 0)
  {
    hide Skip, Run, Resolve, Join;
    ghost var path := encoded[..leafStart];
    ghost var goal := Resolve(Parts(path, 0), []);
    ghost var stack: seq<Component> := [];
    var input := 0;
    output := 0;
    NothingJoined();
    while input < leafStart
      invariant input <= leafStart && output <= input
      invariant encoded[..leafStart] == path
      invariant 0 < input < leafStart ==> path[input] == SLASH
      invariant AllComponents(stack) && directory[..output] == Join(stack)
      invariant Resolve(Parts(path, input), stack) == goal
    {
      var begin := SkipSeparators(encoded, input, leafStart);
      var end := SkipComponent(encoded, begin, leafStart);
      if begin == end {
        PartsAtEnd(path);
        input := end;
        continue;
      }
      var c := encoded[begin..end];
      SamePart(encoded[..], leafStart, begin, end);
      PartsStep(path, input, begin, end);
      ResolveStep(c, Parts(path, end), stack);
      ok, output, stack := PlaceComponent(directory, output, c, stack);
      if !ok {
        return false, 0;
      }
      input := end;
    }
    PartsAtEnd(path);
    NothingToResolve(stack);
    directory[output] := 0;
    ok := true;
  }

  lemma NothingJoined()
    ensures Join([]) == []
  {
  }

  lemma NothingToResolve(stack: seq<Component>)
    ensures Resolve([], stack) == Resolved(stack)
  {
  }

  lemma SamePart(s: seq<uint8>, end: nat, from: nat, to: nat)
    requires from <= to <= end <= |s|
    ensures s[from..to] == s[..end][from..to]
  {
  }

  lemma PartsAtEnd(path: seq<uint8>)
    ensures Parts(path, |path|) == []
  {
  }

  lemma PartsStep(path: seq<uint8>, input: nat, begin: nat, end: nat)
    requires input <= |path| && begin == Skip(path, input) && end == Run(path, begin) && begin < end
    ensures Parts(path, input) == [path[begin..end]] + Parts(path, end)
    ensures IsComponent(path[begin..end])
    ensures ([path[begin..end]] + Parts(path, end))[1..] == Parts(path, end)
  {
  }

  // The whole pattern

  datatype Normalized = Normalized(directory: seq<uint8>, pattern: seq<uint16>)

  datatype Outcome = Done(value: Normalized) | Fail(fault: Fault)

  function Slashed(s: seq<uint8>): (r: seq<uint8>)
    ensures |r| == |s|
  {
    seq(|s|, k requires 0 <= k < |s| => if s[k] == BACKSLASH then SLASH else s[k])
  }

  /** Parent and leaf of a path whose separators are all slashes. */
  function Divide(s: seq<uint8>): Outcome {
    if s == [] || s[0] == SLASH || s[|s| - 1] == SLASH then Fail(InvalidPath)
    else
      var leaf := s[LastStart(s)..];
      if leaf == HERE || leaf == PARENT then Fail(InvalidPath)
      else
        var r := Resolve(Parts(s[..LastStart(s)], 0), []);
        if !r.Resolved? then Fail(InvalidPath)
        else if To16(leaf, false).None? then Fail(BadEncoding)
        else Done(Normalized(Join(r.stack), To16(leaf, false).value))
  }

  function Normalize(path: seq<uint16>): Outcome {
    if path == [] then Fail(InvalidArgument)
    else if 0 in path then Fail(InvalidPath)
    else if To8(path, false).None? then Fail(BadEncoding)
    else if COLON in To8(path, false).value then Fail(InvalidPath)
    else Divide(Slashed(To8(path, false).value))
  }

  method Encode(path: seq<uint16>) returns (encoded: array?<uint8>)
    ensures encoded == null <==> To8(path, false).None?
    ensures encoded != null ==> fresh(encoded) && encoded[..] == To8(path, false).value
  {
    hide Read16;
    var status, length := Utf16ToUtf8(path, false, null);
    if status == Status.InvalidEncoding {
      return null;
    }
    encoded := new uint8[length];
    status, length := Utf16ToUtf8(path, false, encoded);
  }

  method ReplaceSeparators(encoded: array<uint8>) returns (ok: bool)
    modifies encoded
    ensures ok <==> COLON !in old(encoded[..])
    ensures ok ==> encoded[..] == Slashed(old(encoded[..]))
  {
    ghost var was := encoded[..];
    var index := 0;
    while index < encoded.Length
      invariant index <= encoded.Length
      invariant forall k :: 0 <= k < index ==> was[k] != COLON && encoded[k] == Slashed(was)[k]
      invariant forall k :: index <= k < encoded.Length ==> encoded[k] == was[k]
    {
      if encoded[index] == BACKSLASH {
        encoded[index] := SLASH;
      } else if encoded[index] == COLON {
        assert was[index] == COLON;
        return false;
      }
      index := index + 1;
    }
    assert encoded[..] == Slashed(was);
    ok := true;
  }

  method FindLeaf(encoded: array<uint8>) returns (start: nat)
    ensures start == LastStart(encoded[..])
  {
    start := encoded.Length;
    assert encoded[..encoded.Length] == encoded[..];
    while start > 0 && encoded[start - 1] != SLASH
      invariant start <= encoded.Length
      invariant forall k :: start <= k < encoded.Length ==> encoded[k] != SLASH
    {
      start := start - 1;
    }
    LastStartUnique(encoded[..], start);
  }

  method DecodeLeaf(leaf: seq<uint8>) returns (pattern: Option<seq<uint16>>)
    ensures pattern == To16(leaf, false)
  {
    hide Read8;
    var status, length := Utf8ToUtf16(leaf, false, null);
    if status == Status.InvalidEncoding {
      return None;
    }
    var units := new uint16[length];
    ghost var blank := units[..];
    status, length := Utf8ToUtf16(leaf, false, units);
    assert blank[length..] == [] && units[..] == To16(leaf, false).value + [] == To16(leaf, false).value;
    pattern := Some(units[..]);
  }

  method DivideEncoded(encoded: array<uint8>) returns (r: Outcome)
    ensures r == Divide(encoded[..])
  {
    hide Parts, Resolve, Join, To16;
    if encoded.Length == 0 || encoded[0] == SLASH || encoded[encoded.Length - 1] == SLASH {
      return Fail(InvalidPath);
    }
    var start := FindLeaf(encoded);
    var leaf := encoded[start..];
    assert leaf == encoded[..][start..] && encoded[..start] == encoded[..][..start];
    if leaf == HERE || leaf == PARENT {
      return Fail(InvalidPath);
    }
    var directory := new uint8[start + 1];
    var ok, output := NormalizeDirectory(encoded, start, directory);
    if !ok {
      return Fail(InvalidPath);
    }
    var pattern := DecodeLeaf(leaf);
    if pattern.None? {
      return Fail(BadEncoding);
    }
    r := Done(Normalized(directory[..output], pattern.value));
  }

  method NormalizePattern(path: seq<uint16>) returns (r: Outcome)
    ensures r == Normalize(path)
  {
    hide Divide, To8;
    if path == [] {
      return Fail(InvalidArgument);
    }
    var index := 0;
    while index < |path|
      invariant index <= |path| && 0 !in path[..index]
    {
      if path[index] == 0 {
        return Fail(InvalidPath);
      }
      index := index + 1;
    }
    assert path[..|path|] == path;
    var encoded := Encode(path);
    if encoded == null {
      return Fail(BadEncoding);
    }
    var ok := ReplaceSeparators(encoded);
    if !ok {
      return Fail(InvalidPath);
    }
    r := DivideEncoded(encoded);
  }
}
