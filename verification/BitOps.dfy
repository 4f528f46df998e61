/**
 Shifts, masks and complements of machine words, as the source writes them, against the sums and
 differences by which `ZigZag`, `UnZigZag` and `SetBit` are defined. Word arithmetic is modulo the
 word's size.
 */
module BitOps {

  /** The sign of a 32-bit word spread over all its bits: an arithmetic shift to the right by 31. */
  function SignMask(x: bv32): bv32 {
    if x < 0x8000_0000 then 0 else 0xFFFF_FFFF
  }

  function ZigZagWord(x: bv32): bv32 {
    (x << 1) ^ SignMask(x)
  }

  function UnZigZagWord(z: bv32): bv32 {
    (z >> 1) ^ (0 - (z & 1))
  }

  lemma LowBit(z: bv32)
    ensures z & 1 == 0 || z & 1 == 1
  {
  }

  /** The complement of a word is its negation less one. */
  lemma Complement(y: bv32)
    ensures !y == 0 - y - 1 && y ^ (0 - 0) == y && y ^ (0 - 1) == !y
  {
  }

  /** A shift to the left by one doubles. */
  lemma Twice(x: bv32)
    ensures x << 1 == x + x
  {
  }

  /**
   For `n` with the sign clear, the words `n` and `!n` stand for `n` and `-n - 1`: the words of `2n` and
   of `-2(-n - 1) - 1`.
   */
  lemma ZigZagIsShifts(n: bv32)
    requires n < 0x8000_0000
    ensures ZigZagWord(n) == n << 1 && ZigZagWord(!n) == (n << 1) + 1
  {
  }

  /** Half of an even word, else the complement of that, which is `-(z / 2) - 1`. */
  lemma UnZigZagIsShifts(z: bv32)
    ensures UnZigZagWord(z) == if z & 1 == 0 then z >> 1 else !(z >> 1)
  {
    LowBit(z);
    Complement(z >> 1);
  }

  /** The mask of bit `k` of a byte, counted from the most significant. */
  function BitMask(k: nat): bv8
    requires k < 8
  {
    (1 as bv8) << (7 - k)
  }

  /** Setting a bit adds its mask where it is clear; clearing a bit takes its mask away where it is set. */
  lemma SetBitIsMasks(b: bv8, k: nat)
    requires k < 8
    ensures b | BitMask(k) == if b & BitMask(k) == 0 then b + BitMask(k) else b
    ensures b & !BitMask(k) == if b & BitMask(k) == 0 then b else b - BitMask(k)
  {
    var shift := 7 - k;
    assert shift == 0 || shift == 1 || shift == 2 || shift == 3 || shift == 4 || shift == 5 || shift == 6 || shift == 7;
  }
}
