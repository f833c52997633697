/** CRC-32 as section 8 of RFC 1952 gives it: reflected, polynomial 0xEDB88320,
    initial value and final xor all ones. */
module Crc32 {
  import opened Bytes

  function Shift(c: bv32): bv32 {
    if c & 1 == 1 then (c >> 1) ^ 0xEDB8_8320 else c >> 1
  }

  function Shift4(c: bv32): bv32 {
    Shift(Shift(Shift(Shift(c))))
  }

  function AddByte(c: bv32, b: byte): bv32 {
    Shift4(Shift4(c ^ (b as bv32)))
  }

  /** A hasher's running state after taking in `s`. */
  function Update(c: bv32, s: Bytes): bv32
    decreases |s|
  {
    if s == [] then c else Update(AddByte(c, s[0]), s[1..])
  }

  function Crc(s: Bytes): (r: nat)
    ensures r < U32_LIMIT
  {
    (Update(0xFFFF_FFFF, s) ^ 0xFFFF_FFFF) as nat
  }

  /** Hashing in two updates is hashing the concatenation: what lets a frame's
      checksum be taken over its length and its body in turn. */
  lemma {:induction false} UpdateInPieces(c: bv32, a: Bytes, b: Bytes)
    ensures Update(Update(c, a), b) == Update(c, a + b)
    decreases |a|
  {
    if a == [] {
      assert a + b == b;
    } else {
      assert (a + b)[0] == a[0] && (a + b)[1..] == a[1..] + b;
      UpdateInPieces(AddByte(c, a[0]), a[1..], b);
    }
  }

  lemma UpdateOne(c: bv32, s: Bytes, d: bv32)
    requires s != [] && d == AddByte(c, s[0])
    ensures Update(c, s) == Update(d, s[1..])
  {
  }

  /** The checksum of four zero bytes is not zero, so a run of zeros is never a
      frame: a zero length with a zero checksum does not check. */
  lemma FourZeros()
    ensures Crc([0, 0, 0, 0]) == 0x2144_DF1C
  {
    var z: Bytes := [0, 0, 0, 0];
    assert 0 as bv32 == 0x0000_0000;
    assert AddByte(0xFFFF_FFFF, 0) == 0x2DFD_1072;
    UpdateOne(0xFFFF_FFFF, z, 0x2DFD_1072);
    assert z[1..] == [0, 0, 0];
    assert AddByte(0x2DFD_1072, 0) == 0xBE26_ED00;
    UpdateOne(0x2DFD_1072, [0, 0, 0], 0xBE26_ED00);
    var z2: Bytes := [0, 0, 0];
    assert z2[1..] == [0, 0];
    assert AddByte(0xBE26_ED00, 0) == 0x00BE_26ED;
    UpdateOne(0xBE26_ED00, [0, 0], 0x00BE_26ED);
    var z1: Bytes := [0, 0];
    assert z1[1..] == [0];
    assert AddByte(0x00BE_26ED, 0) == 0xDEBB_20E3;
    UpdateOne(0x00BE_26ED, [0], 0xDEBB_20E3);
    var z0: Bytes := [0];
    assert z0[1..] == [];
    assert (0xDEBB_20E3 as bv32) ^ 0xFFFF_FFFF == 0x2144_DF1C;
  }
}
