/** Bytes in a 64-bit lane: the few laws of shifts and exclusive or that the sponge relies on. */
module LaneBits {
  function Xor(x: bv64, y: bv64): (z: bv64) { x ^ y }

  function Wide(b: bv8): (x: bv64) { b as bv64 }

  /** One byte up. */
  function Shift(x: bv64): (z: bv64) { x << 8 }

  /** The next byte below the bytes already gathered. */
  function Gather(t: bv64, b: bv8): (r: bv64) { (t << 8) | (b as bv64) }

  /** A lane shifted up by whole bytes. */
  function Up(x: bv64, bytes: nat): (z: bv64)
  {
    if bytes == 0 then x else Shift(Up(x, bytes - 1))
  }

  lemma XorLeft(x: bv64, y: bv64, z: bv64)
    ensures Xor(Xor(x, y), z) == (x ^ y) ^ z
  {}

  lemma XorRight(x: bv64, y: bv64, z: bv64)
    ensures Xor(x, Xor(y, z)) == (x ^ y) ^ z
  {}

  lemma XorAssoc(x: bv64, y: bv64, z: bv64)
    ensures Xor(Xor(x, y), z) == Xor(x, Xor(y, z))
  {
    hide Xor;
    XorLeft(x, y, z);
    XorRight(x, y, z);
  }

  lemma XorZero(x: bv64)
    ensures Xor(x, 0) == x
  {}

  lemma ShiftXor(x: bv64, y: bv64)
    ensures Shift(Xor(x, y)) == Xor(Shift(x), Shift(y))
  {}

  lemma GatherXor(t: bv64, b: bv8)
    ensures Gather(t, b) == Xor(Wide(b), Shift(t))
  {}

  lemma {:induction false} UpXor(x: bv64, y: bv64, k: nat)
    ensures Up(Xor(x, y), k) == Xor(Up(x, k), Up(y, k))
  {
    hide Xor, Shift;
    if k > 0 {
      UpXor(x, y, k - 1);
      ShiftXor(Up(x, k - 1), Up(y, k - 1));
    }
  }

  lemma {:induction false} UpShift(x: bv64, k: nat)
    ensures Up(Shift(x), k) == Up(x, k + 1)
  {
    hide Shift;
    if k > 0 {
      UpShift(x, k - 1);
    }
  }

  /** The first byte of a run apart from the rest. */
  lemma GatherSplit(t: bv64, b: bv8, k: nat)
    ensures Up(Gather(t, b), k) == Xor(Up(Wide(b), k), Up(t, k + 1))
  {
    hide *;
    GatherXor(t, b);
    UpXor(Wide(b), Shift(t), k);
    UpShift(t, k);
  }

  /** A single byte gathered is itself. */
  lemma GatherOne(b: bv8)
    ensures Gather(0, b) == Wide(b)
  {}

  lemma {:induction false} UpZero(k: nat)
    ensures Up(Wide(0), k) == 0
  {
    if k > 0 {
      UpZero(k - 1);
    }
  }

  /** The closing bit of the padding is the top bit of the last byte of its lane. */
  lemma CloseBit()
    ensures Up(Wide(0x80), 7) == 0x8000_0000_0000_0000
  {
    assert Up(Wide(0x80), 0) == 0x80;
    assert Up(Wide(0x80), 1) == 0x8000;
    assert Up(Wide(0x80), 2) == 0x80_0000;
    assert Up(Wide(0x80), 3) == 0x8000_0000;
    assert Up(Wide(0x80), 4) == 0x80_0000_0000;
    assert Up(Wide(0x80), 5) == 0x8000_0000_0000;
    assert Up(Wide(0x80), 6) == 0x80_0000_0000_0000;
  }

  /** Opening and closing bit in one byte. */
  lemma BothBits(k: nat)
    ensures Up(Wide(0x81), k) == Xor(Up(Wide(0x01), k), Up(Wide(0x80), k))
  {
    assert Wide(0x81) == Xor(Wide(0x01), Wide(0x80));
    hide *;
    UpXor(Wide(0x01), Wide(0x80), k);
  }
}
