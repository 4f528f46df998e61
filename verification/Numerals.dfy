/** The notations of the wire, digit by digit: which bits and bytes stand where for a number. */
module Numerals {
  import opened Core
  import opened Bits
  import opened Bitstream

  // ---- Division by powers of two ----

  lemma TimesMono(x: nat, y: nat, b: nat)
    requires x <= y
    ensures x * b <= y * b
  {
    assert y * b == x * b + (y - x) * b;
  }

  lemma QuotientIs(a: nat, b: nat, t: nat, u: nat)
    requires a == t * b + u && u < b
    ensures a / b == t
  {
    var q := a / b;
    assert q * b <= a < (q + 1) * b;
    if q < t {
      TimesMono(q + 1, t, b);
    } else if t < q {
      TimesMono(t + 1, q, b);
    }
  }

  lemma HalfFirst(a: nat, p: nat)
    requires p > 0
    ensures a / (2 * p) == a / 2 / p
  {
    var q := a / 2;
    var t, u := q / p, q % p;
    assert q == t * p + u;
    assert a == t * (2 * p) + (2 * u + a % 2);
    QuotientIs(a, 2 * p, t, 2 * u + a % 2);
  }

  // ---- Bits ----

  /** Binary digit `k` of `n`, the highest first: the one of weight `2^(n - 1 - k)`. */
  predicate Digit(v: nat, n: nat, k: nat)
    requires k < n
  {
    v / Pow2(n - 1 - k) % 2 == 1
  }

  /** Bits are written highest first. */
  lemma {:induction false} BitDigit(v: nat, n: nat, k: nat)
    requires k < n
    ensures ToBits(v, n)[k] <==> Digit(v, n, k)
  {
    if k < n - 1 {
      BitDigit(v / 2, n - 1, k);
      HalfFirst(v, Pow2(n - 2 - k));
    }
  }

  /** In every byte the first bit is the one of weight 128. */
  lemma ByteDigit(bs: seq<byte>, i: nat, k: nat)
    requires i < |bs| && k < 8
    ensures BitsOf(bs)[8 * i + k] <==> bs[i] / Pow2(7 - k) % 2 == 1
  {
    hide ToBits, Pow2;
    BitDigit(bs[i], 8, k);
    assert (8 * i + k) / 8 == i && (8 * i + k) % 8 == k;
  }

  // ---- Aligned words ----

  lemma {:induction false} Eights(n: nat)
    ensures Pow2(8 * (n + 1)) == 256 * Pow2(8 * n)
  {
    Pow2Add(8, 8 * n);
    Pow2Values();
  }

  lemma SevenFirst(a: nat, p: nat)
    requires p > 0
    ensures a / (128 * p) == a / 128 / p
  {
    var q := a / 128;
    var t, u := q / p, q % p;
    assert q == t * p + u;
    assert a == t * (128 * p) + (128 * u + a % 128);
    QuotientIs(a, 128 * p, t, 128 * u + a % 128);
  }

  lemma EightFirst(a: nat, p: nat)
    requires p > 0
    ensures a / (256 * p) == a / 256 / p
  {
    var q := a / 256;
    var t, u := q / p, q % p;
    assert q == t * p + u;
    assert a == t * (256 * p) + (256 * u + a % 256);
    QuotientIs(a, 256 * p, t, 256 * u + a % 256);
  }

  /** Words are written least significant byte first. */
  lemma {:induction false} WordDigit(v: nat, n: nat, i: nat)
    requires i < n
    ensures LittleEndian(v, n)[i] == v / Pow2(8 * i) % 256
  {
    if i > 0 {
      WordDigit(v / 256, n - 1, i - 1);
      Eights(i - 1);
      EightFirst(v, Pow2(8 * (i - 1)));
    } else {
      assert Pow2(0) == 1;
    }
  }

  // ---- Varints ----

  lemma {:induction false} Sevens(n: nat)
    ensures Pow2(7 * (n + 1)) == 128 * Pow2(7 * n)
  {
    Pow2Add(7, 7 * n);
    Pow2Values();
  }

  /** A varint has the least number of seven-bit groups that hold the number, and at least one. */
  lemma {:induction false} VarintLength(v: nat, n: nat)
    requires n > 0
    ensures |VarBytes(v)| <= n <==> v < Pow2(7 * n)
    decreases n
  {
    Sevens(n - 1);
    if n == 1 {
      assert Pow2(0) == 1;
    } else if v >= 128 {
      VarintLength(v / 128, n - 1);
    } else {
      Pow2Mono(7, 7 * n);
      Pow2Values();
    }
  }

  /** Groups are written lowest first, and every byte but the last has its top bit set. */
  lemma {:induction false} VarintDigit(v: nat, i: nat)
    requires i < |VarBytes(v)|
    ensures VarBytes(v)[i] == v / Pow2(7 * i) % 128 + if i < |VarBytes(v)| - 1 then 128 else 0
    decreases i
  {
    if i > 0 {
      VarintDigit(v / 128, i - 1);
      Sevens(i - 1);
      SevenFirst(v, Pow2(7 * (i - 1)));
    } else {
      assert Pow2(0) == 1;
    }
  }

  // ---- Varints from anywhere ----

  /** `n` bytes that a reader takes for one varint: all but the last have the top bit set, whatever their groups. */
  predicate VarintAt(bs: seq<byte>, off: nat, n: nat) {
    && 1 <= n <= 5 && off + n <= |bs| && bs[off + n - 1] < 128
    && forall i :: off <= i < off + n - 1 ==> bs[i] >= 128
  }

  /** The number that `n` groups stand for. */
  function Groups(bs: seq<byte>, off: nat, n: nat): nat
    requires off + n <= |bs|
  {
    if n == 0 then 0 else Groups(bs, off, n - 1) + bs[off + n - 1] % 128 * Pow2(7 * (n - 1))
  }

  lemma {:induction false} FirstGroup(bs: seq<byte>, off: nat, n: nat)
    requires n > 0 && off + n <= |bs|
    ensures Groups(bs, off, n) == bs[off] % 128 + 128 * Groups(bs, off + 1, n - 1)
  {
    if n > 1 {
      FirstGroup(bs, off, n - 1);
      Sevens(n - 2);
      var last, p := bs[off + n - 1] % 128, Pow2(7 * (n - 2));
      assert last * (128 * p) == 128 * (last * p);
    } else {
      assert Pow2(0) == 1;
    }
  }

  lemma {:induction false} GroupsRead(bs: seq<byte>, off: nat, n: nat, k: nat)
    requires VarintAt(bs, off, n) && k + n <= 5
    ensures VarGroups(bs, off, k) == Some((Groups(bs, off, n), off + n))
    decreases n
  {
    FirstGroup(bs, off, n);
    if n > 1 {
      GroupsRead(bs, off + 1, n - 1, k + 1);
    }
  }

  lemma {:induction false} GroupsEnd(bs: seq<byte>, off: nat, k: nat) returns (n: nat)
    requires k <= 5 && VarGroups(bs, off, k).Some?
    ensures VarintAt(bs, off, n) && k + n <= 5
    decreases 5 - k
  {
    if bs[off] < 128 {
      n := 1;
    } else {
      n := GroupsEnd(bs, off + 1, k + 1);
      n := n + 1;
    }
  }

  /**
   A varint is read exactly where one stands, in up to five bytes, overlong ones included; the
   value is cut to 32 bits.
   */
  lemma VarintRead(bs: seq<byte>, off: nat)
    ensures VarAt(bs, off).Some? <==> exists n :: VarintAt(bs, off, n)
    ensures forall n :: VarintAt(bs, off, n) ==> VarAt(bs, off) == Some((Groups(bs, off, n) % 0x1_0000_0000, off + n))
  {
    forall n | VarintAt(bs, off, n)
      ensures VarAt(bs, off) == Some((Groups(bs, off, n) % 0x1_0000_0000, off + n))
    {
      GroupsRead(bs, off, n, 0);
    }
    if VarAt(bs, off).Some? {
      var n := GroupsEnd(bs, off, 0);
    }
  }

  // ---- Signed numbers ----

  /** Zigzag orders numbers by magnitude, positive ones on even places: 0, -1, 1, -2, 2 and so on. */
  lemma ZigZagOrder(v: i32)
    ensures ZigZag(v) % 2 == 0 <==> v >= 0
    ensures ZigZag(v) == 2 * Abs(v) || (v < 0 && ZigZag(v) + 1 == 2 * Abs(v))
  {
  }

  /** Wrapping keeps the remainder modulo 2^64 and stays within 64 bits. */
  lemma WrapsAround(x: int)
    ensures (WrapI64(x) - x) % 0x1_0000_0000_0000_0000 == 0
    ensures -0x8000_0000_0000_0000 <= x < 0x8000_0000_0000_0000 ==> WrapI64(x) == x
  {
  }

  // ---- Padding ----

  /** Alignment adds fewer than eight bits, all of them zero. */
  lemma PaddingIsZero(s: Bits)
    ensures |PutAlign(s)| % 8 == 0 && |s| <= |PutAlign(s)| < |s| + 8
    ensures forall i :: |s| <= i < |PutAlign(s)| ==> !PutAlign(s)[i]
  {
  }
}
