/** UTF-8 (RFC 3629) and UTF-16 (RFC 2781): code points, their encodings, and decoding one of them. */
module Unicode {
  import opened Bytes

  const REPLACEMENT: nat := 0xfffd

  /** A Unicode scalar value. */
  predicate IsScalar(c: nat) {
    c <= 0x10ffff && !(0xd800 <= c <= 0xdfff)
  }

  predicate AllScalars(cs: seq<nat>) {
    forall k :: 0 <= k < |cs| ==> IsScalar(cs[k])
  }

  // Encodings

  function Encode8(c: nat): (s: seq<uint8>)
    requires IsScalar(c)
    ensures 1 <= |s| <= 4
  {
    if c <= 0x7f then [c]
    else if c <= 0x7ff then [0xc0 + c / 0x40, 0x80 + c % 0x40]
    else if c <= 0xffff then [0xe0 + c / 0x1000, 0x80 + c / 0x40 % 0x40, 0x80 + c % 0x40]
    else [0xf0 + c / 0x4_0000, 0x80 + c / 0x1000 % 0x40, 0x80 + c / 0x40 % 0x40, 0x80 + c % 0x40]
  }

  function Encode16(c: nat): (s: seq<uint16>)
    requires IsScalar(c)
    ensures 1 <= |s| <= 2
  {
    if c <= 0xffff then [c] else [0xd800 + (c - 0x1_0000) / 0x400, 0xdc00 + (c - 0x1_0000) % 0x400]
  }

  function Write8(cs: seq<nat>): seq<uint8>
    requires AllScalars(cs)
  {
    if cs == [] then [] else Encode8(cs[0]) + Write8(cs[1..])
  }

  function Write16(cs: seq<nat>): seq<uint16>
    requires AllScalars(cs)
  {
    if cs == [] then [] else Encode16(cs[0]) + Write16(cs[1..])
  }

  // Decoding one code point

  datatype Decoded = Decoded(codepoint: nat, consumed: nat)

  /** What a first byte above 0x7f announces. */
  datatype Lead = Lead(length: nat, bits: nat, minimum: nat)

  function LeadOf(first: uint8): Option<Lead> {
    if 0xc2 <= first <= 0xdf then Some(Lead(2, first - 0xc0, 0x80))
    else if 0xe0 <= first <= 0xef then Some(Lead(3, first - 0xe0, 0x800))
    else if 0xf0 <= first <= 0xf4 then Some(Lead(4, first - 0xf0, 0x1_0000))
    else None
  }

  predicate IsContinuation(b: uint8) {
    0x80 <= b <= 0xbf
  }

  function Continued(s: seq<uint8>, value: nat, from: nat, length: nat): Option<nat>
    requires from <= length <= |s|
    decreases length - from
  {
    if from == length then Some(value)
    else if !IsContinuation(s[from]) then None
    else Continued(s, value * 0x40 + (s[from] - 0x80), from + 1, length)
  }

  function Decode8(s: seq<uint8>): (r: Option<Decoded>)
    ensures r.Some? ==> 1 <= r.value.consumed <= |s| && IsScalar(r.value.codepoint)
  {
    if s == [] then None
    else if s[0] <= 0x7f then Some(Decoded(s[0], 1))
    else
      var lead := LeadOf(s[0]);
      if lead.None? || lead.value.length > |s| then None
      else
        var value := Continued(s, lead.value.bits, 1, lead.value.length);
        if value.None? || value.value < lead.value.minimum || !IsScalar(value.value) then None
        else Some(Decoded(value.value, lead.value.length))
  }

  method DecodeUtf8(s: seq<uint8>) returns (r: Option<Decoded>)
    ensures r == Decode8(s)
  {
    if s == [] {
      return None;
    }
    if s[0] <= 0x7f {
      return Some(Decoded(s[0], 1));
    }
    var lead := LeadOf(s[0]);
    if lead.None? || lead.value.length > |s| {
      return None;
    }
    var value: nat, index, length := lead.value.bits, 1, lead.value.length;
    while index < length
      invariant 1 <= index <= length
      invariant Continued(s, value, index, length) == Continued(s, lead.value.bits, 1, length)
    {
      if !IsContinuation(s[index]) {
        return None;
      }
      value := value * 0x40 + (s[index] - 0x80);
      index := index + 1;
    }
    if value < lead.value.minimum || !IsScalar(value) {
      return None;
    }
    r := Some(Decoded(value, length));
  }

  /** The code point of a surrogate pair. */
  function Paired(high: int, low: int): int {
    0x1_0000 + (high - 0xd800) * 0x400 + (low - 0xdc00)
  }

  function Decode16(s: seq<uint16>): (r: Option<Decoded>)
    ensures r.Some? ==> 1 <= r.value.consumed <= |s| && IsScalar(r.value.codepoint)
  {
    if s == [] then None
    else if 0xd800 <= s[0] <= 0xdbff then
      if |s| < 2 || s[1] < 0xdc00 || s[1] > 0xdfff then None
      else Some(Decoded(Paired(s[0], s[1]), 2))
    else if 0xdc00 <= s[0] <= 0xdfff then None
    else Some(Decoded(s[0], 1))
  }

  // Decoding undoes encoding, and only an encoding decodes

  lemma TwoBytes(bits: nat, b: nat)
    requires b < 0x40 && 0x80 <= bits * 0x40 + b <= 0x7ff
    ensures Encode8(bits * 0x40 + b) == [0xc0 + bits, 0x80 + b]
  {
  }

  lemma ThreeBytes(bits: nat, a: nat, b: nat)
    requires a < 0x40 && b < 0x40
    requires var c := (bits * 0x40 + a) * 0x40 + b; 0x800 <= c <= 0xffff && IsScalar(c)
    ensures Encode8((bits * 0x40 + a) * 0x40 + b) == [0xe0 + bits, 0x80 + a, 0x80 + b]
  {
  }

  lemma FourBytes(bits: nat, a: nat, b: nat, c: nat)
    requires a < 0x40 && b < 0x40 && c < 0x40
    requires var d := ((bits * 0x40 + a) * 0x40 + b) * 0x40 + c; 0x1_0000 <= d <= 0x10ffff
    ensures Encode8(((bits * 0x40 + a) * 0x40 + b) * 0x40 + c) == [0xf0 + bits, 0x80 + a, 0x80 + b, 0x80 + c]
  {
    var three := (bits * 0x40 + a) * 0x40 + b;
    var d := three * 0x40 + c;
    assert d / 0x40 == three && d % 0x40 == c;
    assert three / 0x40 == bits * 0x40 + a && three % 0x40 == b;
    assert d / 0x1000 == bits * 0x40 + a && d / 0x4_0000 == bits;
  }

  lemma DecodeEncode8(c: nat, rest: seq<uint8>)
    requires IsScalar(c)
    ensures Decode8(Encode8(c) + rest) == Some(Decoded(c, |Encode8(c)|))
  {
    hide Continued, Encode8;
    var s, last, high := Encode8(c) + rest, c % 0x40, c / 0x40;
    assert c == high * 0x40 + last;
    if c <= 0x7f {
      OneByte(c);
    } else if c <= 0x7ff {
      TwoBytes(high, last);
      ContinuedTwo(s, high, last);
    } else {
      var third, top := high % 0x40, high / 0x40;
      assert high == top * 0x40 + third;
      if c <= 0xffff {
        ThreeBytes(top, third, last);
        ContinuedThree(s, top, third, last);
      } else {
        var second, bits := top % 0x40, top / 0x40;
        assert top == bits * 0x40 + second;
        FourBytes(bits, second, third, last);
        ContinuedFour(s, bits, second, third, last);
      }
    }
  }

  lemma ContinuedTwo(s: seq<uint8>, bits: nat, b: nat)
    requires |s| >= 2 && b < 0x40 && s[1] == 0x80 + b
    ensures Continued(s, bits, 1, 2) == Some(bits * 0x40 + b)
  {
    assert Continued(s, bits * 0x40 + b, 2, 2) == Some(bits * 0x40 + b);
  }

  lemma ContinuedThree(s: seq<uint8>, bits: nat, a: nat, b: nat)
    requires |s| >= 3 && a < 0x40 && b < 0x40 && s[1] == 0x80 + a && s[2] == 0x80 + b
    ensures Continued(s, bits, 1, 3) == Some((bits * 0x40 + a) * 0x40 + b)
  {
    assert Continued(s, bits * 0x40 + a, 2, 3) == Continued(s, (bits * 0x40 + a) * 0x40 + b, 3, 3);
  }

  lemma ContinuedFour(s: seq<uint8>, bits: nat, a: nat, b: nat, c: nat)
    requires |s| >= 4 && a < 0x40 && b < 0x40 && c < 0x40 && s[1] == 0x80 + a && s[2] == 0x80 + b && s[3] == 0x80 + c
    ensures Continued(s, bits, 1, 4) == Some(((bits * 0x40 + a) * 0x40 + b) * 0x40 + c)
  {
    var two := bits * 0x40 + a;
    assert Continued(s, two, 2, 4) == Continued(s, two * 0x40 + b, 3, 4);
    assert Continued(s, two * 0x40 + b, 3, 4) == Continued(s, (two * 0x40 + b) * 0x40 + c, 4, 4);
  }

  lemma EncodeDecode8(s: seq<uint8>)
    requires Decode8(s).Some?
    ensures s[..Decode8(s).value.consumed] == Encode8(Decode8(s).value.codepoint)
  {
    hide Continued, Encode8;
    if s[0] <= 0x7f {
      OneByte(s[0]);
    } else {
      var lead := LeadOf(s[0]).value;
      ContinuationsHold(s, lead.bits, 1, lead.length);
      if lead.length == 2 {
        ContinuedTwo(s, lead.bits, s[1] - 0x80);
        TwoBytes(lead.bits, s[1] - 0x80);
      } else if lead.length == 3 {
        ContinuedThree(s, lead.bits, s[1] - 0x80, s[2] - 0x80);
        ThreeBytes(lead.bits, s[1] - 0x80, s[2] - 0x80);
      } else {
        ContinuedFour(s, lead.bits, s[1] - 0x80, s[2] - 0x80, s[3] - 0x80);
        FourBytes(lead.bits, s[1] - 0x80, s[2] - 0x80, s[3] - 0x80);
      }
    }
  }

  lemma OneByte(c: nat)
    requires c <= 0x7f
    ensures Encode8(c) == [c]
  {
  }

  lemma {:induction false} ContinuationsHold(s: seq<uint8>, value: nat, from: nat, length: nat)
    requires from <= length <= |s| && Continued(s, value, from, length).Some?
    ensures forall k :: from <= k < length ==> IsContinuation(s[k])
    decreases length - from
  {
    if from < length {
      ContinuationsHold(s, value * 0x40 + (s[from] - 0x80), from + 1, length);
    }
  }

  lemma DecodeEncode16(c: nat, rest: seq<uint16>)
    requires IsScalar(c)
    ensures Decode16(Encode16(c) + rest) == Some(Decoded(c, |Encode16(c)|))
  {
  }

  lemma EncodeDecode16(s: seq<uint16>)
    requires Decode16(s).Some?
    ensures s[..Decode16(s).value.consumed] == Encode16(Decode16(s).value.codepoint)
  {
  }
}
