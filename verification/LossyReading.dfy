/** What lossy conversion answers, said without the decoders: every unit that begins no scalar value is U+FFFD. */
module LossyReading {
  import opened Bytes
  import opened Unicode
  import opened Transcoding

  /** Text as its writer would list it: a scalar value, or one unit that belongs to none. */
  datatype Piece = Whole(codepoint: nat) | Stray(value: nat)

  predicate Proper(ps: seq<Piece>, limit: nat) {
    forall k :: 0 <= k < |ps| ==> if ps[k].Whole? then IsScalar(ps[k].codepoint) else ps[k].value < limit
  }

  /** Piece by piece the scalar value itself, and U+FFFD for each stray unit. */
  function Meaning(ps: seq<Piece>): seq<nat> {
    seq(|ps|, k requires 0 <= k < |ps| => if ps[k].Whole? then ps[k].codepoint else 0xfffd)
  }

  lemma MeaningBegins(ps: seq<Piece>)
    requires ps != []
    ensures Meaning(ps) == [if ps[0].Whole? then ps[0].codepoint else 0xfffd] + Meaning(ps[1..])
  {
  }

  // UTF-8

  ghost predicate Begins8(s: seq<uint8>) {
    exists c: nat :: IsScalar(c) && Encode8(c) <= s
  }

  lemma DecodesIffBegins8(s: seq<uint8>)
    ensures Decode8(s).Some? <==> Begins8(s)
  {
    if Decode8(s).Some? {
      EncodeDecode8(s);
      assert Encode8(Decode8(s).value.codepoint) <= s;
    }
    forall c: nat | IsScalar(c) && Encode8(c) <= s
      ensures Decode8(s).Some?
    {
      DecodeEncode8(c, s[|Encode8(c)|..]);
      assert s == Encode8(c) + s[|Encode8(c)|..];
    }
  }

  function Spelled8(ps: seq<Piece>): seq<uint8>
    requires Proper(ps, 0x100)
  {
    if ps == [] then []
    else (if ps[0].Whole? then Encode8(ps[0].codepoint) else [ps[0].value]) + Spelled8(ps[1..])
  }

  /** The text is these pieces, and no stray unit begins the encoding of a scalar value. */
  ghost predicate Splits8(ps: seq<Piece>, s: seq<uint8>) {
    && Proper(ps, 0x100) && s == Spelled8(ps)
    && (ps != [] ==> (ps[0].Stray? ==> !Begins8(s)) && Splits8(ps[1..], Spelled8(ps[1..])))
  }

  lemma {:induction false} SplitIsRead8(ps: seq<Piece>, s: seq<uint8>)
    requires Splits8(ps, s)
    ensures Read8(s, true) == Some(Meaning(ps))
  {
    hide Decode8, Encode8;
    if ps != [] {
      var rest := Spelled8(ps[1..]);
      SplitIsRead8(ps[1..], rest);
      MeaningBegins(ps);
      if ps[0].Whole? {
        DecodeEncode8(ps[0].codepoint, rest);
        assert s[|Encode8(ps[0].codepoint)|..] == rest;
      } else {
        DecodesIffBegins8(s);
        assert s[1..] == rest;
      }
    } else {
      assert Meaning(ps) == [];
    }
  }

  lemma {:induction false} Splittable8(s: seq<uint8>) returns (ps: seq<Piece>)
    ensures Splits8(ps, s)
    decreases |s|
  {
    hide Decode8, Encode8;
    if s == [] {
      ps := [];
    } else {
      var d := Take(Decode8(s), true).value;
      var rest := Splittable8(s[d.consumed..]);
      DecodesIffBegins8(s);
      if Decode8(s).Some? {
        EncodeDecode8(s);
        ps := [Whole(d.codepoint)] + rest;
      } else {
        ps := [Stray(s[0])] + rest;
      }
      assert ps[1..] == rest;
      assert s == s[..d.consumed] + s[d.consumed..];
    }
  }

  /** Lossy reading of UTF-8: scalar values where one begins, and U+FFFD for every other byte, one for one. */
  lemma LossyIff8(s: seq<uint8>, cs: seq<nat>)
    ensures Read8(s, true) == Some(cs) <==> exists ps: seq<Piece> :: Splits8(ps, s) && cs == Meaning(ps)
  {
    var ps := Splittable8(s);
    SplitIsRead8(ps, s);
    forall ps: seq<Piece> | Splits8(ps, s)
      ensures Read8(s, true) == Some(Meaning(ps))
    {
      SplitIsRead8(ps, s);
    }
  }

  // UTF-16

  ghost predicate Begins16(s: seq<uint16>) {
    exists c: nat :: IsScalar(c) && Encode16(c) <= s
  }

  lemma DecodesIffBegins16(s: seq<uint16>)
    ensures Decode16(s).Some? <==> Begins16(s)
  {
    if Decode16(s).Some? {
      EncodeDecode16(s);
      assert Encode16(Decode16(s).value.codepoint) <= s;
    }
    forall c: nat | IsScalar(c) && Encode16(c) <= s
      ensures Decode16(s).Some?
    {
      DecodeEncode16(c, s[|Encode16(c)|..]);
      assert s == Encode16(c) + s[|Encode16(c)|..];
    }
  }

  function Spelled16(ps: seq<Piece>): seq<uint16>
    requires Proper(ps, 0x1_0000)
  {
    if ps == [] then []
    else (if ps[0].Whole? then Encode16(ps[0].codepoint) else [ps[0].value]) + Spelled16(ps[1..])
  }

  ghost predicate Splits16(ps: seq<Piece>, s: seq<uint16>) {
    && Proper(ps, 0x1_0000) && s == Spelled16(ps)
    && (ps != [] ==> (ps[0].Stray? ==> !Begins16(s)) && Splits16(ps[1..], Spelled16(ps[1..])))
  }

  lemma {:induction false} SplitIsRead16(ps: seq<Piece>, s: seq<uint16>)
    requires Splits16(ps, s)
    ensures Read16(s, true) == Some(Meaning(ps))
  {
    hide Decode16, Encode16;
    if ps != [] {
      var rest := Spelled16(ps[1..]);
      SplitIsRead16(ps[1..], rest);
      MeaningBegins(ps);
      if ps[0].Whole? {
        DecodeEncode16(ps[0].codepoint, rest);
        assert s[|Encode16(ps[0].codepoint)|..] == rest;
      } else {
        DecodesIffBegins16(s);
        assert s[1..] == rest;
      }
    } else {
      assert Meaning(ps) == [];
    }
  }

  lemma {:induction false} Splittable16(s: seq<uint16>) returns (ps: seq<Piece>)
    ensures Splits16(ps, s)
    decreases |s|
  {
    hide Decode16, Encode16;
    if s == [] {
      ps := [];
    } else {
      var d := Take(Decode16(s), true).value;
      var rest := Splittable16(s[d.consumed..]);
      DecodesIffBegins16(s);
      if Decode16(s).Some? {
        EncodeDecode16(s);
        ps := [Whole(d.codepoint)] + rest;
      } else {
        ps := [Stray(s[0])] + rest;
      }
      assert ps[1..] == rest;
      assert s == s[..d.consumed] + s[d.consumed..];
    }
  }

  /** Lossy reading of UTF-16: an unpaired surrogate is U+FFFD, one for one, and nothing else is. */
  lemma LossyIff16(s: seq<uint16>, cs: seq<nat>)
    ensures Read16(s, true) == Some(cs) <==> exists ps: seq<Piece> :: Splits16(ps, s) && cs == Meaning(ps)
  {
    var ps := Splittable16(s);
    SplitIsRead16(ps, s);
    forall ps: seq<Piece> | Splits16(ps, s)
      ensures Read16(s, true) == Some(Meaning(ps))
    {
      SplitIsRead16(ps, s);
    }
  }
}
