/** Machine integers and little-endian byte strings, shared by every other module. */
module Bytes {

  datatype Option<+T> = None | Some(value: T)

  const TWO_32: int := 0x1_0000_0000
  const UINT32_MAX: int := TWO_32 - 1
  const TWO_64: int := 0x1_0000_0000_0000_0000

  type uint8 = x: int | 0 <= x < 0x100
  type uint16 = x: int | 0 <= x < 0x1_0000
  type uint32 = x: int | 0 <= x < 0x1_0000_0000
  type uint64 = x: int | 0 <= x < 0x1_0000_0000_0000_0000

  function One(b: bool): nat {
    if b then 1 else 0
  }

  /** 256 to the power n: the number of values n bytes can hold. */
  function Span(n: nat): (r: nat)
    ensures r > 0
  {
    if n == 0 then 1 else 256 * Span(n - 1)
  }

  lemma SpanValues()
    ensures Span(1) == 0x100 && Span(2) == 0x1_0000
    ensures Span(4) == TWO_32
    ensures Span(8) == TWO_64
  {
    assert Span(2) == 256 * Span(1);
    assert Span(3) == 256 * Span(2);
    assert Span(4) == 256 * Span(3);
    assert Span(5) == 256 * Span(4);
    assert Span(6) == 256 * Span(5);
    assert Span(7) == 256 * Span(6);
  }

  /** The number a little-endian byte string denotes. */
  function Load(s: seq<uint8>): (v: nat)
    ensures v < Span(|s|)
  {
    if |s| == 0 then 0 else s[0] + 256 * Load(s[1..])
  }

  /** The n-byte little-endian form of v, truncated to n bytes. */
  function Store(v: nat, n: nat): (s: seq<uint8>)
    ensures |s| == n
  {
    if n == 0 then [] else [v % 256] + Store(v / 256, n - 1)
  }

  lemma {:induction false} LoadStore(v: nat, n: nat)
    requires v < Span(n)
    ensures Load(Store(v, n)) == v
  {
    if n > 0 {
      LoadStore(v / 256, n - 1);
      assert Store(v, n)[1..] == Store(v / 256, n - 1);
    }
  }

  lemma {:induction false} StoreLoad(s: seq<uint8>)
    ensures Store(Load(s), |s|) == s
  {
    if |s| > 0 {
      StoreLoad(s[1..]);
      assert Load(s) % 256 == s[0] && Load(s) / 256 == Load(s[1..]);
    }
  }

  function Load16(s: seq<uint8>): uint16
    requires |s| == 2
  {
    SpanValues(); Load(s)
  }

  function Load32(s: seq<uint8>): uint32
    requires |s| == 4
  {
    SpanValues(); Load(s)
  }

  function Load64(s: seq<uint8>): uint64
    requires |s| == 8
  {
    SpanValues(); Load(s)
  }

  lemma LoadFour(a: uint8, b: uint8, c: uint8, d: uint8)
    ensures Load([a, b, c, d]) == a + 0x100 * b + 0x1_0000 * c + 0x100_0000 * d
  {
    assert [a, b, c, d][1..] == [b, c, d] && [b, c, d][1..] == [c, d] && [c, d][1..] == [d] && [d][1..] == [];
    assert Load([d]) == d && Load([c, d]) == c + 256 * Load([d]) && Load([b, c, d]) == b + 256 * Load([c, d]);
  }

  lemma LoadTwo(a: uint8, b: uint8)
    ensures Load([a, b]) == a + 0x100 * b
  {
    assert [a, b][1..] == [b] && [b][1..] == [];
    assert Load([b]) == b;
  }

  /** A part of a part is a part of the whole. */
  lemma SubSlice(bytes: seq<uint8>, from: nat, to: nat, at: nat, length: nat)
    requires from <= to <= |bytes| && at + length <= to - from
    ensures bytes[from + at..from + at + length] == bytes[from..to][at..at + length]
  {
    var whole, part := bytes[from..to], bytes[from + at..from + at + length];
    forall k | 0 <= k < length
      ensures part[k] == whole[at + k]
    {
    }
    assert part == whole[at..at + length];
  }
}
