/** The UTF-8 and UTF-16 converters, strict and lossy, and what they mean in code points. */
module Transcoding {
  import opened Bytes
  import opened Unicode

  datatype Status = Ok | InvalidEncoding | BufferTooSmall

  /** A code point, or in lossy mode the replacement character for one bad unit. */
  function Take(d: Option<Decoded>, lossy: bool): Option<Decoded> {
    if d.None? && lossy then Some(Decoded(REPLACEMENT, 1)) else d
  }

  function Prepend(cs: seq<nat>, rest: Option<seq<nat>>): Option<seq<nat>> {
    if rest.Some? then Some(cs + rest.value) else None
  }

  /** The code points of UTF-8 text; none if it is malformed and not read lossily. */
  function Read8(s: seq<uint8>, lossy: bool): (r: Option<seq<nat>>)
    ensures r.Some? ==> AllScalars(r.value)
    ensures lossy ==> r.Some?
    decreases |s|
  {
    if s == [] then Some([])
    else
      var d := Take(Decode8(s), lossy);
      if d.None? then None else Prepend([d.value.codepoint], Read8(s[d.value.consumed..], lossy))
  }

  function Read16(s: seq<uint16>, lossy: bool): (r: Option<seq<nat>>)
    ensures r.Some? ==> AllScalars(r.value)
    ensures lossy ==> r.Some?
    decreases |s|
  {
    if s == [] then Some([])
    else
      var d := Take(Decode16(s), lossy);
      if d.None? then None else Prepend([d.value.codepoint], Read16(s[d.value.consumed..], lossy))
  }

  // Writing one more code point

  lemma Write8More(cs: seq<nat>, c: nat)
    requires AllScalars(cs) && IsScalar(c)
    ensures AllScalars(cs + [c]) && Write8(cs + [c]) == Write8(cs) + Encode8(c)
  {
    hide Encode8;
    assert [c][1..] == [];
    Write8Appends(cs, [c]);
  }

  lemma Write16More(cs: seq<nat>, c: nat)
    requires AllScalars(cs) && IsScalar(c)
    ensures AllScalars(cs + [c]) && Write16(cs + [c]) == Write16(cs) + Encode16(c)
  {
    hide Encode16;
    assert [c][1..] == [];
    Write16Appends(cs, [c]);
  }

  /** The code points before an offset are done, the rest is still to read. */
  predicate Reading8(source: seq<uint8>, lossy: bool, done: seq<nat>, offset: nat) {
    && offset <= |source| && AllScalars(done)
    && Read8(source, lossy) == Prepend(done, Read8(source[offset..], lossy))
  }

  predicate Reading16(source: seq<uint16>, lossy: bool, done: seq<nat>, offset: nat) {
    && offset <= |source| && AllScalars(done)
    && Read16(source, lossy) == Prepend(done, Read16(source[offset..], lossy))
  }

  lemma ReadingBegins(r: Option<seq<nat>>)
    ensures Prepend([], r) == r
  {
    assert r.Some? ==> [] + r.value == r.value;
  }

  lemma ReadMore8(source: seq<uint8>, lossy: bool, done: seq<nat>, offset: nat)
    requires Reading8(source, lossy, done, offset) && offset < |source|
    ensures var d := Take(Decode8(source[offset..]), lossy);
            if d.None? then Read8(source, lossy).None?
            else IsScalar(d.value.codepoint) && Reading8(source, lossy, done + [d.value.codepoint], offset + d.value.consumed)
  {
    hide Decode8;
    var d := Take(Decode8(source[offset..]), lossy);
    if d.Some? {
      var rest := Read8(source[offset + d.value.consumed..], lossy);
      assert source[offset..][d.value.consumed..] == source[offset + d.value.consumed..];
      assert rest.Some? ==> done + ([d.value.codepoint] + rest.value) == (done + [d.value.codepoint]) + rest.value;
    }
  }

  lemma ReadMore16(source: seq<uint16>, lossy: bool, done: seq<nat>, offset: nat)
    requires Reading16(source, lossy, done, offset) && offset < |source|
    ensures var d := Take(Decode16(source[offset..]), lossy);
            if d.None? then Read16(source, lossy).None?
            else IsScalar(d.value.codepoint) && Reading16(source, lossy, done + [d.value.codepoint], offset + d.value.consumed)
  {
    hide Decode16;
    var d := Take(Decode16(source[offset..]), lossy);
    if d.Some? {
      var rest := Read16(source[offset + d.value.consumed..], lossy);
      assert source[offset..][d.value.consumed..] == source[offset + d.value.consumed..];
      assert rest.Some? ==> done + ([d.value.codepoint] + rest.value) == (done + [d.value.codepoint]) + rest.value;
    }
  }

  lemma ReadingEnds8(source: seq<uint8>, lossy: bool, done: seq<nat>)
    requires Reading8(source, lossy, done, |source|)
    ensures Read8(source, lossy) == Some(done)
  {
    assert done + [] == done;
  }

  lemma ReadingEnds16(source: seq<uint16>, lossy: bool, done: seq<nat>)
    requires Reading16(source, lossy, done, |source|)
    ensures Read16(source, lossy) == Some(done)
  {
    assert done + [] == done;
  }

  // UTF-8 to UTF-16

  method Utf8RequiredUnits(source: seq<uint8>, lossy: bool) returns (required: Option<nat>)
    ensures required.Some? == Read8(source, lossy).Some?
    ensures required.Some? ==> required.value == |Write16(Read8(source, lossy).value)|
  {
    hide Decode8, Encode16, Read8;
    var offset, count := 0, 0;
    ghost var done: seq<nat> := [];
    ReadingBegins(Read8(source, lossy));
    while offset < |source|
      invariant Reading8(source, lossy, done, offset) && count == |Write16(done)|
    {
      var d := Take(DecodeAt8(source, offset), lossy);
      ReadMore8(source, lossy, done, offset);
      if d.None? {
        return None;
      }
      Write16More(done, d.value.codepoint);
      UnitsOf(d.value.codepoint);
      count := count + if d.value.codepoint <= 0xffff then 1 else 2;
      done := done + [d.value.codepoint];
      offset := offset + d.value.consumed;
    }
    ReadingEnds8(source, lossy, done);
    required := Some(count);
  }

  function DecodeAt8(source: seq<uint8>, offset: nat): Option<Decoded>
    requires offset <= |source|
  {
    Decode8(source[offset..])
  }

  function DecodeAt16(source: seq<uint16>, offset: nat): Option<Decoded>
    requires offset <= |source|
  {
    Decode16(source[offset..])
  }

  lemma UnitsOf(c: nat)
    requires IsScalar(c)
    ensures |Encode16(c)| == if c <= 0xffff then 1 else 2
  {
  }

  /** The buffer holds the units so far, and beyond them what it held before. */
  predicate Holding<T(==)>(now: seq<T>, before: seq<T>, front: seq<T>) {
    |front| <= |now| == |before| && now == front + before[|front|..]
  }

  method PutUtf16(destination: array<uint16>, output: nat, c: nat) returns (next: nat)
    requires IsScalar(c) && output + |Encode16(c)| <= destination.Length
    modifies destination
    ensures next == output + |Encode16(c)|
    ensures destination[..] == old(destination[..output]) + Encode16(c) + old(destination[next..])
  {
    if c <= 0xffff {
      destination[output] := c;
      next := output + 1;
    } else {
      destination[output] := 0xd800 + (c - 0x1_0000) / 0x400;
      destination[output + 1] := 0xdc00 + (c - 0x1_0000) % 0x400;
      next := output + 2;
    }
  }

  lemma HoldMore<T>(now: seq<T>, after: seq<T>, before: seq<T>, front: seq<T>, more: seq<T>)
    requires Holding(now, before, front) && |front| + |more| <= |now|
    requires after == now[..|front|] + more + now[|front| + |more|..]
    ensures Holding(after, before, front + more)
  {
  }

  method Utf8ToUtf16(source: seq<uint8>, lossy: bool, destination: array?<uint16>) returns (status: Status, written: nat)
    modifies destination
    ensures status == InvalidEncoding <==> Read8(source, lossy).None?
    ensures status != InvalidEncoding ==> written == |Write16(Read8(source, lossy).value)|
    ensures status == BufferTooSmall <==>
              Read8(source, lossy).Some? && destination != null && destination.Length < |Write16(Read8(source, lossy).value)|
    ensures destination != null && status != Ok ==> destination[..] == old(destination[..])
    ensures destination != null && status == Ok ==>
              destination[..] == Write16(Read8(source, lossy).value) + old(destination[..])[written..]
  {
    hide Decode8, Encode16, Read8;
    var required := Utf8RequiredUnits(source, lossy);
    if required.None? {
      return InvalidEncoding, 0;
    }
    written := required.value;
    if destination == null {
      return Ok, written;
    }
    if destination.Length < written {
      return BufferTooSmall, written;
    }
    var input, output := 0, 0;
    ghost var done: seq<nat> := [];
    ReadingBegins(Read8(source, lossy));
    while input < |source|
      invariant Reading8(source, lossy, done, input) && output == |Write16(done)|
      invariant Holding(destination[..], old(destination[..]), Write16(done))
    {
      ReadMore8(source, lossy, done, input);
      var d := Take(DecodeAt8(source, input), lossy);
      var c := d.value.codepoint;
      Write16Within(source, lossy, done + [c], input + d.value.consumed);
      Write16More(done, c);
      ghost var now := destination[..];
      output := PutUtf16(destination, output, c);
      HoldMore(now, destination[..], old(destination[..]), Write16(done), Encode16(c));
      done := done + [c];
      input := input + d.value.consumed;
    }
    ReadingEnds8(source, lossy, done);
    status := Ok;
  }

  /** The units so far never exceed those required. */
  lemma Write16Within(source: seq<uint8>, lossy: bool, done: seq<nat>, offset: nat)
    requires Reading8(source, lossy, done, offset) && Read8(source, lossy).Some?
    ensures |Write16(done)| <= |Write16(Read8(source, lossy).value)|
  {
    Write16Appends(done, Read8(source[offset..], lossy).value);
  }

  lemma {:induction false} Write16Appends(a: seq<nat>, b: seq<nat>)
    requires AllScalars(a) && AllScalars(b)
    ensures AllScalars(a + b) && Write16(a + b) == Write16(a) + Write16(b)
  {
    hide Encode16;
    if a == [] {
      assert a + b == b;
    } else {
      Write16Appends(a[1..], b);
      assert (a + b)[1..] == a[1..] + b;
    }
  }

  // UTF-16 to UTF-8

  function Utf8Size(c: nat): nat {
    if c <= 0x7f then 1 else if c <= 0x7ff then 2 else if c <= 0xffff then 3 else 4
  }

  lemma BytesOf(c: nat)
    requires IsScalar(c)
    ensures |Encode8(c)| == Utf8Size(c)
  {
  }

  method Utf16RequiredBytes(source: seq<uint16>, lossy: bool) returns (required: Option<nat>)
    ensures required.Some? == Read16(source, lossy).Some?
    ensures required.Some? ==> required.value == |Write8(Read16(source, lossy).value)|
  {
    hide Decode16, Encode8, Read16;
    var offset, count := 0, 0;
    ghost var done: seq<nat> := [];
    ReadingBegins(Read16(source, lossy));
    while offset < |source|
      invariant Reading16(source, lossy, done, offset) && count == |Write8(done)|
    {
      var d := Take(DecodeAt16(source, offset), lossy);
      ReadMore16(source, lossy, done, offset);
      if d.None? {
        return None;
      }
      Write8More(done, d.value.codepoint);
      BytesOf(d.value.codepoint);
      count := count + Utf8Size(d.value.codepoint);
      done := done + [d.value.codepoint];
      offset := offset + d.value.consumed;
    }
    ReadingEnds16(source, lossy, done);
    required := Some(count);
  }

  method PutUtf8(destination: array<uint8>, output: nat, c: nat) returns (next: nat)
    requires IsScalar(c) && output + |Encode8(c)| <= destination.Length
    modifies destination
    ensures next == output + |Encode8(c)|
    ensures destination[..] == old(destination[..output]) + Encode8(c) + old(destination[next..])
  {
    if c <= 0x7f {
      destination[output] := c;
      next := output + 1;
    } else if c <= 0x7ff {
      destination[output] := 0xc0 + c / 0x40;
      destination[output + 1] := 0x80 + c % 0x40;
      next := output + 2;
    } else if c <= 0xffff {
      destination[output] := 0xe0 + c / 0x1000;
      destination[output + 1] := 0x80 + c / 0x40 % 0x40;
      destination[output + 2] := 0x80 + c % 0x40;
      next := output + 3;
    } else {
      destination[output] := 0xf0 + c / 0x4_0000;
      destination[output + 1] := 0x80 + c / 0x1000 % 0x40;
      destination[output + 2] := 0x80 + c / 0x40 % 0x40;
      destination[output + 3] := 0x80 + c % 0x40;
      next := output + 4;
    }
  }

  method Utf16ToUtf8(source: seq<uint16>, lossy: bool, destination: array?<uint8>) returns (status: Status, written: nat)
    modifies destination
    ensures status == InvalidEncoding <==> Read16(source, lossy).None?
    ensures status != InvalidEncoding ==> written == |Write8(Read16(source, lossy).value)|
    ensures status == BufferTooSmall <==>
              Read16(source, lossy).Some? && destination != null && destination.Length < |Write8(Read16(source, lossy).value)|
    ensures destination != null && status != Ok ==> destination[..] == old(destination[..])
    ensures destination != null && status == Ok ==>
              destination[..] == Write8(Read16(source, lossy).value) + old(destination[..])[written..]
  {
    hide Decode16, Encode8, Read16;
    var required := Utf16RequiredBytes(source, lossy);
    if required.None? {
      return InvalidEncoding, 0;
    }
    written := required.value;
    if destination == null {
      return Ok, written;
    }
    if destination.Length < written {
      return BufferTooSmall, written;
    }
    var input, output := 0, 0;
    ghost var done: seq<nat> := [];
    ReadingBegins(Read16(source, lossy));
    while input < |source|
      invariant Reading16(source, lossy, done, input) && output == |Write8(done)|
      invariant Holding(destination[..], old(destination[..]), Write8(done))
    {
      ReadMore16(source, lossy, done, input);
      var d := Take(DecodeAt16(source, input), lossy);
      var c := d.value.codepoint;
      Write8Within(source, lossy, done + [c], input + d.value.consumed);
      Write8More(done, c);
      ghost var now := destination[..];
      output := PutUtf8(destination, output, c);
      HoldMore(now, destination[..], old(destination[..]), Write8(done), Encode8(c));
      done := done + [c];
      input := input + d.value.consumed;
    }
    ReadingEnds16(source, lossy, done);
    status := Ok;
  }

  lemma Write8Within(source: seq<uint16>, lossy: bool, done: seq<nat>, offset: nat)
    requires Reading16(source, lossy, done, offset) && Read16(source, lossy).Some?
    ensures |Write8(done)| <= |Write8(Read16(source, lossy).value)|
  {
    Write8Appends(done, Read16(source[offset..], lossy).value);
  }

  lemma {:induction false} Write8Appends(a: seq<nat>, b: seq<nat>)
    requires AllScalars(a) && AllScalars(b)
    ensures AllScalars(a + b) && Write8(a + b) == Write8(a) + Write8(b)
  {
    hide Encode8;
    if a == [] {
      assert a + b == b;
    } else {
      Write8Appends(a[1..], b);
      assert (a + b)[1..] == a[1..] + b;
    }
  }
}
