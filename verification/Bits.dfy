/** Bit strings, most significant bit first, and their correspondence with numbers and bytes. */
module Bits {
  import opened Core

  type Bits = seq<bool>

  function Pow2(n: nat): (p: nat)
    ensures p >= 1
  {
    if n == 0 then 1 else 2 * Pow2(n - 1)
  }

  /** The low `n` bits of `v`, most significant first. */
  function ToBits(v: nat, n: nat): (b: Bits)
    ensures |b| == n
  {
    if n == 0 then [] else ToBits(v / 2, n - 1) + [v % 2 == 1]
  }

  function FromBits(b: Bits): nat {
    if b == [] then 0 else 2 * FromBits(b[..|b| - 1]) + if b[|b| - 1] then 1 else 0
  }

  lemma {:induction false} FromToBits(v: nat, n: nat)
    requires v < Pow2(n)
    ensures FromBits(ToBits(v, n)) == v
  {
    if n > 0 {
      FromToBits(v / 2, n - 1);
      assert ToBits(v, n)[..n - 1] == ToBits(v / 2, n - 1);
    }
  }

  lemma {:induction false} FromBitsBound(b: Bits)
    ensures FromBits(b) < Pow2(|b|)
  {
    if b != [] {
      FromBitsBound(b[..|b| - 1]);
    }
  }

  lemma {:induction false} ToFromBits(b: Bits)
    ensures ToBits(FromBits(b), |b|) == b
  {
    if b != [] {
      ToFromBits(b[..|b| - 1]);
      assert FromBits(b) / 2 == FromBits(b[..|b| - 1]);
    }
  }

  /** Powers of two are monotone in the exponent. */
  lemma {:induction false} Pow2Mono(m: nat, n: nat)
    requires m <= n
    ensures Pow2(m) <= Pow2(n)
  {
    if m < n {
      Pow2Mono(m, n - 1);
    }
  }

  lemma {:induction false} Pow2Add(m: nat, n: nat)
    ensures Pow2(m + n) == Pow2(m) * Pow2(n)
  {
    if m > 0 {
      Pow2Add(m - 1, n);
      assert Pow2(m + n) == 2 * Pow2(m - 1 + n);
      assert 2 * (Pow2(m - 1) * Pow2(n)) == (2 * Pow2(m - 1)) * Pow2(n);
    }
  }

  /** The powers that bound the machine integers. */
  lemma Pow2Values()
    ensures Pow2(7) == 128 && Pow2(8) == 256
    ensures Pow2(32) == 0x1_0000_0000 && Pow2(35) == 0x8_0000_0000
    ensures Pow2(63) == 0x8000_0000_0000_0000 && Pow2(64) == 0x1_0000_0000_0000_0000
  {
    assert Pow2(4) == 16;
    Pow2Add(4, 4);
    Pow2Add(8, 8);
    Pow2Add(16, 16);
    Pow2Add(32, 32);
    assert Pow2(64) == 2 * Pow2(63);
    assert Pow2(35) == 2 * Pow2(34) == 4 * Pow2(33) == 8 * Pow2(32);
    assert Pow2(8) == 2 * Pow2(7);
  }

  /** `b` with bit `k` (counted from the most significant of `n`) set to `v`. */
  function SetBit(b: nat, n: nat, k: nat, v: bool): int
    requires k < n
  {
    if ToBits(b, n)[k] == v then b
    else if v then b + Pow2(n - 1 - k)
    else b - Pow2(n - 1 - k)
  }

  /** Setting one bit of a number changes exactly that bit of its bit string. */
  lemma {:induction false} SetBitUpdates(b: nat, n: nat, k: nat, v: bool)
    requires k < n && b < Pow2(n)
    ensures 0 <= SetBit(b, n, k, v) < Pow2(n)
    ensures ToBits(SetBit(b, n, k, v), n) == ToBits(b, n)[k := v]
  {
    if k < n - 1 {
      SetBitUpdates(b / 2, n - 1, k, v);
      assert SetBit(b, n, k, v) == 2 * SetBit(b / 2, n - 1, k, v) + b % 2;
      assert SetBit(b, n, k, v) / 2 == SetBit(b / 2, n - 1, k, v);
    } else {
      assert Pow2(0) == 1;
      assert SetBit(b, n, k, v) / 2 == b / 2;
    }
  }

  /** The bits of a byte string, eight per byte. */
  function BitsOf(bs: seq<byte>): (b: Bits)
    ensures |b| == 8 * |bs|
  {
    seq(8 * |bs|, i requires 0 <= i < 8 * |bs| => ToBits(bs[i / 8], 8)[i % 8])
  }

  lemma BitsOfConcat(a: seq<byte>, b: seq<byte>)
    ensures BitsOf(a + b) == BitsOf(a) + BitsOf(b)
  {
    forall i | 0 <= i < 8 * |a + b|
      ensures BitsOf(a + b)[i] == (BitsOf(a) + BitsOf(b))[i]
    {
      if i >= 8 * |a| {
        assert (i - 8 * |a|) / 8 == i / 8 - |a| && (i - 8 * |a|) % 8 == i % 8;
      }
    }
  }

  lemma BitsOfByte(b: byte)
    ensures BitsOf([b]) == ToBits(b, 8)
  {
  }

  lemma BitsOfSlice(bs: seq<byte>, lo: nat, hi: nat)
    requires lo <= hi <= |bs|
    ensures BitsOf(bs)[8 * lo..8 * hi] == BitsOf(bs[lo..hi])
  {
    assert bs == bs[..lo] + bs[lo..hi] + bs[hi..];
    BitsOfConcat(bs[..lo] + bs[lo..hi], bs[hi..]);
    BitsOfConcat(bs[..lo], bs[lo..hi]);
  }

  lemma BitsOfInjective(a: seq<byte>, b: seq<byte>)
    requires BitsOf(a) == BitsOf(b)
    ensures a == b
  {
    assert |a| == |b|;
    forall i | 0 <= i < |a|
      ensures a[i] == b[i]
    {
      BitsOfSlice(a, i, i + 1);
      BitsOfSlice(b, i, i + 1);
      assert a[i..i + 1] == [a[i]] && b[i..i + 1] == [b[i]];
      BitsOfByte(a[i]);
      BitsOfByte(b[i]);
      assert Pow2(8) == 256;
      FromToBits(a[i], 8);
      FromToBits(b[i], 8);
    }
  }

  function ByteOf(b: Bits): byte
    requires |b| == 8
  {
    FromBitsBound(b);
    assert Pow2(8) == 256;
    FromBits(b)
  }

  /** The bytes whose bits are `b`. */
  function Pack(b: Bits): (bs: seq<byte>)
    requires |b| % 8 == 0
    ensures |bs| == |b| / 8
  {
    seq<byte>(|b| / 8, i requires 0 <= i < |b| / 8 => ByteOf(b[8 * i..8 * i + 8]))
  }

  lemma BitsOfPack(b: Bits)
    requires |b| % 8 == 0
    ensures BitsOf(Pack(b)) == b
  {
    forall i | 0 <= i < |b|
      ensures BitsOf(Pack(b))[i] == b[i]
    {
      ToFromBits(b[8 * (i / 8)..8 * (i / 8) + 8]);
    }
  }

  lemma PackBitsOf(bs: seq<byte>)
    ensures Pack(BitsOf(bs)) == bs
  {
    BitsOfPack(BitsOf(bs));
    BitsOfInjective(Pack(BitsOf(bs)), bs);
  }
}
