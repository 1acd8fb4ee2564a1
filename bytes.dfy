/**
  Facts about bytes as integers, kept apart from the register model so
  that proofs about conversions see nothing else.
 */
module Bytes {
  /** An integer in 0..255 survives the trip through a byte. */
  lemma ByteCast(k: int)
    requires 0 <= k < 0x100
    ensures (k as bv8) as int == k
  {
  }

  /** Below 255, incrementing a byte increments its value. */
  lemma ByteIncrement(x: bv8)
    requires x as int < 255
    ensures (x + 1) as int == x as int + 1
  {
  }

  /** A value below 16 placed in the low nibble under a high nibble `hi`. */
  lemma LowNibble(hi: bv8, k: int)
    requires hi & 0x0f == 0 && 0 <= k < 0x10
    ensures (hi | k as bv8) & 0xf0 == hi
    ensures ((hi | k as bv8) & 0x0f) as int == k
    ensures (hi | k as bv8) as int == hi as int + k
  {
    var b := k as bv8;
    ByteCast(k);
    NibbleOr(hi, b);
    assert hi as int <= 0xf0;
  }

  /** The bit-level half of `LowNibble`: the two nibbles do not overlap. */
  lemma NibbleOr(hi: bv8, b: bv8)
    requires hi & 0x0f == 0 && b < 0x10
    ensures (hi | b) & 0xf0 == hi
    ensures (hi | b) & 0x0f == b
    ensures hi | b == hi + b
  {
  }

  /** Incrementing a byte adds one modulo 256. */
  lemma ByteWrap(x: bv8)
    ensures (x + 1) as int == (x as int + 1) % 256
  {
    if x == 0xff {
      assert x + 1 == 0;
    } else {
      ByteIncrement(x);
    }
  }

  /** Adding one commutes with reduction modulo 256. */
  lemma ModSucc(a: int)
    requires a >= 0
    ensures (a % 256 + 1) % 256 == (a + 1) % 256
  {
    var q, r := a / 256, a % 256;
    assert a == 256 * q + r;
    if r == 255 {
      assert a + 1 == 256 * (q + 1);
    } else {
      assert a + 1 == 256 * q + (r + 1);
    }
  }

  /** Two bytes whose big-endian value is below 256: the high byte is 0. */
  lemma SmallPair(msb: bv8, lsb: bv8, n: int)
    requires msb as int * 0x100 + lsb as int == n && 0 <= n < 0x100
    ensures msb == 0 && lsb as int == n
  {
  }

  /** A byte holding `a` modulo 256 holds `a + 1` modulo 256 once incremented. */
  lemma StepMod(x: bv8, a: int)
    requires a >= 0 && x as int == a % 256
    ensures (x + 1) as int == (a + 1) % 256
  {
    ByteWrap(x);
    ModSucc(a);
  }

  /** A byte's value is its own residue modulo 256. */
  lemma ByteMod(x: bv8)
    ensures x as int % 256 == x as int
  {
    var v := x as int;
    assert 0 <= v < 256;
  }
}
