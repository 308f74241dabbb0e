/** The converters undo each other, and lossy conversion always yields well-formed text. */
module TranscodingLaws {
  import opened Bytes
  import opened Unicode
  import opened Transcoding

  // Reading undoes writing

  lemma {:induction false} ReadWrite8(cs: seq<nat>, lossy: bool)
    requires AllScalars(cs)
    ensures Read8(Write8(cs), lossy) == Some(cs)
  {
    hide Decode8, Encode8;
    if cs != [] {
      var rest := Write8(cs[1..]);
      DecodeEncode8(cs[0], rest);
      assert (Encode8(cs[0]) + rest)[|Encode8(cs[0])|..] == rest;
      ReadWrite8(cs[1..], lossy);
      assert [cs[0]] + cs[1..] == cs;
    }
  }

  lemma {:induction false} ReadWrite16(cs: seq<nat>, lossy: bool)
    requires AllScalars(cs)
    ensures Read16(Write16(cs), lossy) == Some(cs)
  {
    hide Decode16, Encode16;
    if cs != [] {
      var rest := Write16(cs[1..]);
      DecodeEncode16(cs[0], rest);
      assert (Encode16(cs[0]) + rest)[|Encode16(cs[0])|..] == rest;
      ReadWrite16(cs[1..], lossy);
      assert [cs[0]] + cs[1..] == cs;
    }
  }

  // Writing undoes strict reading

  lemma {:induction false} WriteRead8(s: seq<uint8>)
    requires Read8(s, false).Some?
    ensures Write8(Read8(s, false).value) == s
    decreases |s|
  {
    hide Decode8, Encode8;
    if s != [] {
      var d := Decode8(s).value;
      EncodeDecode8(s);
      WriteRead8(s[d.consumed..]);
      var cs := Read8(s, false).value;
      assert cs[1..] == Read8(s[d.consumed..], false).value;
      assert s == s[..d.consumed] + s[d.consumed..];
    }
  }

  lemma {:induction false} WriteRead16(s: seq<uint16>)
    requires Read16(s, false).Some?
    ensures Write16(Read16(s, false).value) == s
    decreases |s|
  {
    hide Decode16, Encode16;
    if s != [] {
      var d := Decode16(s).value;
      EncodeDecode16(s);
      WriteRead16(s[d.consumed..]);
      var cs := Read16(s, false).value;
      assert cs[1..] == Read16(s[d.consumed..], false).value;
      assert s == s[..d.consumed] + s[d.consumed..];
    }
  }

  /** Strict reading accepts exactly the encodings of scalar values. */
  lemma WellFormed8(s: seq<uint8>)
    ensures Read8(s, false).Some? <==> exists cs: seq<nat> :: AllScalars(cs) && s == Write8(cs)
  {
    if Read8(s, false).Some? {
      WriteRead8(s);
    }
    forall cs: seq<nat> | AllScalars(cs) && s == Write8(cs)
      ensures Read8(s, false).Some?
    {
      ReadWrite8(cs, false);
    }
  }

  lemma WellFormed16(s: seq<uint16>)
    ensures Read16(s, false).Some? <==> exists cs: seq<nat> :: AllScalars(cs) && s == Write16(cs)
  {
    if Read16(s, false).Some? {
      WriteRead16(s);
    }
    forall cs: seq<nat> | AllScalars(cs) && s == Write16(cs)
      ensures Read16(s, false).Some?
    {
      ReadWrite16(cs, false);
    }
  }

  // The conversions as functions

  function To16(s: seq<uint8>, lossy: bool): Option<seq<uint16>> {
    var cs := Read8(s, lossy);
    if cs.Some? then Some(Write16(cs.value)) else None
  }

  function To8(s: seq<uint16>, lossy: bool): Option<seq<uint8>> {
    var cs := Read16(s, lossy);
    if cs.Some? then Some(Write8(cs.value)) else None
  }

  /** Strict conversion to UTF-16 and back is the identity on well-formed UTF-8. */
  lemma ThereAndBack8(s: seq<uint8>, lossy: bool)
    requires To16(s, false).Some?
    ensures To8(To16(s, false).value, lossy) == Some(s)
  {
    WriteRead8(s);
    ReadWrite16(Read8(s, false).value, lossy);
  }

  lemma ThereAndBack16(s: seq<uint16>, lossy: bool)
    requires To8(s, false).Some?
    ensures To16(To8(s, false).value, lossy) == Some(s)
  {
    WriteRead16(s);
    ReadWrite8(Read16(s, false).value, lossy);
  }

  /** On well-formed text lossy conversion is strict conversion. */
  lemma LossyIsStrict8(s: seq<uint8>)
    requires To16(s, false).Some?
    ensures To16(s, true) == To16(s, false)
  {
    WriteRead8(s);
    ReadWrite8(Read8(s, false).value, true);
  }

  lemma LossyIsStrict16(s: seq<uint16>)
    requires To8(s, false).Some?
    ensures To8(s, true) == To8(s, false)
  {
    WriteRead16(s);
    ReadWrite16(Read16(s, false).value, true);
  }

  /** Lossy output is well formed, so a second lossy round trip changes nothing. */
  lemma LossySettles8(s: seq<uint8>)
    ensures To16(s, true).Some? && To8(To16(s, true).value, false).Some?
    ensures var once := To8(To16(s, true).value, true);
            once.Some? && To16(once.value, false).Some? && To8(To16(once.value, true).value, true) == once
  {
    var cs := Read8(s, true).value;
    ReadWrite16(cs, false);
    ReadWrite16(cs, true);
    ReadWrite8(cs, false);
    ReadWrite8(cs, true);
  }

  lemma LossySettles16(s: seq<uint16>)
    ensures To8(s, true).Some? && To16(To8(s, true).value, false).Some?
    ensures var once := To16(To8(s, true).value, true);
            once.Some? && To8(once.value, false).Some? && To16(To8(once.value, true).value, true) == once
  {
    var cs := Read16(s, true).value;
    ReadWrite8(cs, false);
    ReadWrite8(cs, true);
    ReadWrite16(cs, false);
    ReadWrite16(cs, true);
  }
}
