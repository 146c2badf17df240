/** The bitwise CRC-16 of the key-value store (nimble/host/kv_store/mtb_kvstore.c:378-392). */
module Crc16 {
  import opened LittleEndian

  /** One shift of the 16-bit register, with the CCITT polynomial. */
  function ShiftBit(crc: bv16): bv16 {
    if crc & 0x8000 != 0 then (crc << 1) ^ 0x1021 else crc << 1
  }

  function ShiftBits(crc: bv16, n: nat): bv16 {
    if n == 0 then crc else ShiftBit(ShiftBits(crc, n - 1))
  }

  /** The register after one more message byte. */
  function Feed(crc: bv16, b: bv8): bv16 {
    ShiftBits(crc ^ ((b as bv16) << 8), 8)
  }

  /** The register after a whole message: what both programs are proved to compute. */
  function Crc(data: Bytes, init: bv16): bv16 {
    if data == [] then init else Feed(Crc(data[..|data| - 1], init), data[|data| - 1])
  }

  lemma {:induction false} CrcOfNothing(init: bv16)
    ensures Crc([], init) == init
  {
  }

  /** Feeding a message in two pieces is feeding it whole; this is what makes a CRC taken
      through a small buffer comparable with one taken over the caller's data. */
  lemma {:induction false} CrcOfConcatenation(a: Bytes, b: Bytes, init: bv16)
    ensures Crc(a + b, init) == Crc(b, Crc(a, init))
  {
    if b == [] {
      assert a + b == a;
    } else {
      assert (a + b)[..|a + b| - 1] == a + b[..|b| - 1];
      CrcOfConcatenation(a, b[..|b| - 1], init);
    }
  }

  // ----- The program: a 32-bit register whose upper half is never masked -----

  function Low16(crc: bv32): bv16 {
    (crc & 0xFFFF) as bv16
  }

  /** Whatever sits in the upper half of the 32-bit register, a shift of it acts on the lower
      half exactly as the 16-bit register does. */
  lemma {:induction false} UpperHalfNeverMatters(crc: bv32)
    ensures Low16(if crc & 0x8000 != 0 then (crc << 1) ^ 0x1021 else crc << 1) == ShiftBit(Low16(crc))
  {
  }

  lemma {:induction false} FeedInUpperHalf(crc: bv32, b: bv8)
    ensures Low16(crc ^ ((b as bv32) << 8)) == Low16(crc) ^ ((b as bv16) << 8)
  {
  }

  lemma {:induction false} Low16OfWidened(init: bv16)
    ensures Low16(init as bv32) == init
  {
  }

  method Bitwise(data: Bytes, init: bv16) returns (result: bv16)
    ensures result == Crc(data, init)
  {
    var crc: bv32 := init as bv32;
    Low16OfWidened(init);
    for k := 0 to |data|
      invariant Low16(crc) == Crc(data[..k], init)
    {
      FeedInUpperHalf(crc, data[k]);
      crc := crc ^ ((data[k] as bv32) << 8);
      ghost var start := Low16(crc);
      for i := 0 to 8
        invariant Low16(crc) == ShiftBits(start, i)
      {
        UpperHalfNeverMatters(crc);
        crc := if crc & 0x8000 != 0 then (crc << 1) ^ 0x1021 else crc << 1;
      }
      assert data[..k + 1][..k] == data[..k];
    }
    assert data[..|data|] == data;
    result := Low16(crc);
  }
}
