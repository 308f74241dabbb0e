/** Handle values: a tag, a generation and a slot ordinal packed into 64 bits. */
module HandleTokens {
  import opened Bytes

  const CAPACITY: nat := 256
  const TAG: int := 0x534c
  const TAG_UNIT: int := 0x1_0000_0000_0000

  datatype Place = Place(slot: nat, generation: uint32)

  predicate Issuable(p: Place) {
    p.slot < CAPACITY && p.generation != 0
  }

  function Encode(p: Place): uint64
    requires Issuable(p)
  {
    TAG * TAG_UNIT + p.generation * 0x1_0000 + (p.slot + 1)
  }

  function Decode(handle: uint64): (p: Option<Place>)
    ensures p.Some? ==> Issuable(p.value)
  {
    var ordinal, generation := handle % 0x1_0000, handle / 0x1_0000 % TWO_32;
    if handle / TAG_UNIT != TAG || ordinal == 0 then None
    else if ordinal > CAPACITY || generation == 0 then None
    else Some(Place(ordinal - 1, generation))
  }

  lemma DecodeEncode(p: Place)
    requires Issuable(p)
    ensures Decode(Encode(p)) == Some(p)
  {
    var handle := Encode(p);
    var low := p.generation * 0x1_0000 + (p.slot + 1);
    assert low < TAG_UNIT;
    assert handle / TAG_UNIT == TAG;
    assert handle / 0x1_0000 == TAG * TWO_32 + p.generation;
    assert handle % 0x1_0000 == p.slot + 1;
  }

  /** Only the token of a place decodes to it. */
  lemma EncodeDecode(handle: uint64)
    requires Decode(handle).Some?
    ensures Encode(Decode(handle).value) == handle
  {
    var high := handle / 0x1_0000;
    assert handle == high * 0x1_0000 + handle % 0x1_0000;
    assert high == high / TWO_32 * TWO_32 + high % TWO_32;
    assert high / TWO_32 == handle / TAG_UNIT;
  }

  lemma EncodeInjective(p: Place, q: Place)
    requires Issuable(p) && Issuable(q) && Encode(p) == Encode(q)
    ensures p == q
  {
    DecodeEncode(p);
    DecodeEncode(q);
  }

  /** The layout of a handle: the tag 0x534c, 32 bits of generation, 16 bits of slot ordinal; nothing else decodes. */
  lemma TokenIff(handle: uint64, slot: nat, generation: uint32)
    ensures Decode(handle) == Some(Place(slot, generation)) <==>
            slot < 256 && generation > 0 && handle == 0x534c_0000_0000_0000 + 0x1_0000 * generation + slot + 1
  {
    if Decode(handle) == Some(Place(slot, generation)) {
      EncodeDecode(handle);
    }
    if slot < 256 && generation > 0 && handle == 0x534c_0000_0000_0000 + 0x1_0000 * generation + slot + 1 {
      DecodeEncode(Place(slot, generation));
    }
  }
}
