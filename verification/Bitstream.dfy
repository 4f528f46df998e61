/**
 What each bitstream operation writes and reads, as functions.

 A `Put` function maps the bits written so far to the bits written afterwards, so a
 sequence of writes is a composition of `Put`s. A `Get` function reads from a byte
 string at a bit position and yields the value and the next position, or `None`.
 Each `Back` lemma says that reading at the place where a `Put` wrote gives the value back.
 */
module Bitstream {
  import opened Core
  import opened Bits

  // ---- Writing ----

  function Padding(n: nat): nat {
    (8 - n % 8) % 8
  }

  function PutAlign(s: Bits): (r: Bits)
    ensures s <= r && |r| % 8 == 0
    ensures |s| % 8 == 0 ==> r == s
  {
    s + seq(Padding(|s|), _ => false)
  }

  function PutBit(s: Bits, b: bool): (r: Bits)
    ensures s <= r && |r| == |s| + 1
  {
    s + [b]
  }

  function PutBits(s: Bits, v: nat, n: nat): (r: Bits)
    ensures s <= r && |r| == |s| + n
  {
    s + ToBits(v, n)
  }

  function PutBytes(s: Bits, bs: seq<byte>): (r: Bits)
    ensures s <= r && |r| == |s| + 8 * |bs|
  {
    s + BitsOf(bs)
  }

  /** `v` in `n` bytes, least significant byte first. */
  function LittleEndian(v: nat, n: nat): (bs: seq<byte>)
    ensures |bs| == n
  {
    if n == 0 then [] else [v % 256] + LittleEndian(v / 256, n - 1)
  }

  /** Unsigned LEB128: seven bits a byte, least significant group first, high bit set on all but the last. */
  function VarBytes(v: nat): (bs: seq<byte>)
    ensures |bs| >= 1
  {
    if v < 128 then [v] else [v % 128 + 128] + VarBytes(v / 128)
  }

  function PutVar(s: Bits, v: nat): (r: Bits)
    ensures s <= r && |r| % 8 == |s| % 8 && |r| >= |s| + 8
  {
    PutBytes(s, VarBytes(v))
  }

  /** Zigzag: `(v << 1) ^ (v >> 31)` on 32 bits, which is `2v` for `v >= 0` and the complement of `2v` otherwise. */
  function ZigZag(v: i32): u32 {
    if v >= 0 then 2 * v else -2 * v - 1
  }

  /** `(z >> 1) ^ -(z & 1)` on 32 bits. */
  function UnZigZag(z: u32): i32 {
    if z % 2 == 0 then z / 2 else -(z / 2) - 1
  }

  // ---- Reading ----

  function GetBit(data: seq<byte>, p: nat): (r: Option<(bool, nat)>) {
    if p < 8 * |data| then Some((BitsOf(data)[p], p + 1)) else None
  }

  function GetBits(data: seq<byte>, p: nat, n: nat): (r: Option<(nat, nat)>)
    ensures r.Some? ==> r.value.0 < Pow2(n)
  {
    if n > 64 || p + n > 8 * |data| then None
    else
      FromBitsBound(BitsOf(data)[p..p + n]);
      Some((FromBits(BitsOf(data)[p..p + n]), p + n))
  }

  function GetAlign(data: seq<byte>, p: nat): (r: Option<nat>)
    ensures r.Some? ==> r.value % 8 == 0
  {
    if p + Padding(p) > 8 * |data| then None else Some(p + Padding(p))
  }

  function GetU8(data: seq<byte>, p: nat): Option<(byte, nat)> {
    if p % 8 != 0 || p + 8 > 8 * |data| then None else Some((data[p / 8], p + 8))
  }

  function GetBytes(data: seq<byte>, p: nat, n: nat): Option<(seq<byte>, nat)> {
    if p % 8 != 0 || p + 8 * n > 8 * |data| then None
    else Some((data[p / 8..p / 8 + n], p + 8 * n))
  }

  function FromLittleEndian(bs: seq<byte>): nat {
    if bs == [] then 0 else bs[0] + 256 * FromLittleEndian(bs[1..])
  }

  function Pow256(n: nat): (p: nat)
    ensures p >= 1
  {
    if n == 0 then 1 else 256 * Pow256(n - 1)
  }

  function GetWord(data: seq<byte>, p: nat, n: nat): (r: Option<(nat, nat)>)
    ensures r.Some? ==> r.value.0 < Pow256(n)
  {
    var (bs, q) :- GetBytes(data, p, n);
    FromLittleEndianBound(bs);
    Some((FromLittleEndian(bs), q))
  }

  function GetU16(data: seq<byte>, p: nat): Option<(u16, nat)> {
    assert Pow256(2) == 0x1_0000;
    GetWord(data, p, 2)
  }

  function GetU32(data: seq<byte>, p: nat): Option<(u32, nat)> {
    assert Pow256(4) == 0x1_0000_0000;
    GetWord(data, p, 4)
  }

  function GetU64(data: seq<byte>, p: nat): Option<(u64, nat)> {
    assert Pow256(8) == 0x1_0000_0000_0000_0000;
    GetWord(data, p, 8)
  }

  /**
   The number whose groups of seven bits start at byte `off`, before truncation to
   32 bits, and the offset after it. Group `k` is the first; a fifth continuation is refused.
   */
  function VarGroups(bs: seq<byte>, off: nat, k: nat): (r: Option<(nat, nat)>)
    requires k <= 5
    ensures r.Some? ==> off < r.value.1 <= off + 5 - k && r.value.1 <= |bs|
    decreases 5 - k
  {
    if k == 5 || off >= |bs| then None
    else if bs[off] < 128 then Some((bs[off], off + 1))
    else
      var (v, end) :- VarGroups(bs, off + 1, k + 1);
      Some((bs[off] - 128 + 128 * v, end))
  }

  /** A varint at byte offset `off`: bits above the thirty-second are dropped. */
  function VarAt(bs: seq<byte>, off: nat): (r: Option<(u32, nat)>)
    ensures r.Some? ==> off < r.value.1 <= |bs|
  {
    var (v, end) :- VarGroups(bs, off, 0);
    Some((AsU32(v), end))
  }

  function GetVar(data: seq<byte>, p: nat): (r: Option<(u32, nat)>) {
    if p % 8 != 0 then None
    else
      var (v, end) :- VarAt(data, p / 8);
      Some((v, 8 * end))
  }

  function GetVarS(data: seq<byte>, p: nat): Option<(i32, nat)> {
    var (z, q) :- GetVar(data, p);
    Some((UnZigZag(z), q))
  }

  // ---- Reading back what was written ----

  lemma {:induction false} FromLittleEndianBound(bs: seq<byte>)
    ensures FromLittleEndian(bs) < Pow256(|bs|)
  {
    if bs != [] {
      FromLittleEndianBound(bs[1..]);
    }
  }

  lemma {:induction false} FromToLittleEndian(v: nat, n: nat)
    requires v < Pow256(n)
    ensures FromLittleEndian(LittleEndian(v, n)) == v
  {
    if n > 0 {
      FromToLittleEndian(v / 256, n - 1);
      assert LittleEndian(v, n)[1..] == LittleEndian(v / 256, n - 1);
    }
  }

  lemma BitBack(data: seq<byte>, s: Bits, b: bool)
    requires PutBit(s, b) <= BitsOf(data)
    ensures GetBit(data, |s|) == Some((b, |s| + 1))
  {
    assert PutBit(s, b)[|s|] == b;
  }

  lemma BitsBack(data: seq<byte>, s: Bits, v: nat, n: nat)
    requires n <= 64 && v < Pow2(n)
    requires PutBits(s, v, n) <= BitsOf(data)
    ensures GetBits(data, |s|, n) == Some((v, |s| + n))
  {
    assert BitsOf(data)[|s|..|s| + n] == PutBits(s, v, n)[|s|..] == ToBits(v, n);
    FromToBits(v, n);
  }

  /** Reading no bits yields zero. */
  lemma NoBits(data: seq<byte>, p: nat)
    requires p <= 8 * |data|
    ensures GetBits(data, p, 0) == Some((0, p))
  {
  }

  lemma AlignBack(data: seq<byte>, s: Bits)
    requires PutAlign(s) <= BitsOf(data)
    ensures GetAlign(data, |s|) == Some(|PutAlign(s)|)
  {
  }

  lemma BytesBack(data: seq<byte>, s: Bits, bs: seq<byte>)
    requires |s| % 8 == 0 && PutBytes(s, bs) <= BitsOf(data)
    ensures |s| / 8 + |bs| <= |data|
    ensures data[|s| / 8..|s| / 8 + |bs|] == bs
    ensures GetBytes(data, |s|, |bs|) == Some((bs, |s| + 8 * |bs|))
  {
    var i := |s| / 8;
    BitsOfSlice(data, i, i + |bs|);
    assert BitsOf(data)[8 * i..8 * (i + |bs|)] == PutBytes(s, bs)[|s|..] == BitsOf(bs);
    BitsOfInjective(data[i..i + |bs|], bs);
  }

  lemma WordBack(data: seq<byte>, s: Bits, v: nat, n: nat)
    requires |s| % 8 == 0 && v < Pow256(n)
    requires PutBytes(s, LittleEndian(v, n)) <= BitsOf(data)
    ensures GetWord(data, |s|, n) == Some((v, |s| + 8 * n))
  {
    BytesBack(data, s, LittleEndian(v, n));
    FromToLittleEndian(v, n);
  }

  lemma U16Back(data: seq<byte>, s: Bits, v: u16)
    requires |s| % 8 == 0 && PutBytes(s, LittleEndian(v, 2)) <= BitsOf(data)
    ensures GetU16(data, |s|) == Some((v, |s| + 16))
  {
    assert Pow256(2) == 0x1_0000;
    WordBack(data, s, v, 2);
  }

  lemma U32Back(data: seq<byte>, s: Bits, v: u32)
    requires |s| % 8 == 0 && PutBytes(s, LittleEndian(v, 4)) <= BitsOf(data)
    ensures GetU32(data, |s|) == Some((v, |s| + 32))
  {
    assert Pow256(4) == 0x1_0000_0000;
    WordBack(data, s, v, 4);
  }

  lemma U64Back(data: seq<byte>, s: Bits, v: u64)
    requires |s| % 8 == 0 && PutBytes(s, LittleEndian(v, 8)) <= BitsOf(data)
    ensures GetU64(data, |s|) == Some((v, |s| + 64))
  {
    assert Pow256(8) == 0x1_0000_0000_0000_0000;
    WordBack(data, s, v, 8);
  }

  /** The groups of a number that fits in the groups left are read back as that number. */
  lemma {:induction false} VarGroupsBack(bs: seq<byte>, off: nat, k: nat, v: nat)
    requires k < 5 && v < Pow2(7 * (5 - k))
    requires off + |VarBytes(v)| <= |bs| && bs[off..off + |VarBytes(v)|] == VarBytes(v)
    ensures VarGroups(bs, off, k) == Some((v, off + |VarBytes(v)|))
    decreases 5 - k
  {
    hide Pow2;
    Pow2Values();
    Pow2Split(7 * (4 - k));
    assert bs[off] == VarBytes(v)[0];
    if v >= 128 && k < 4 {
      var rest := VarBytes(v / 128);
      assert bs[off + 1..off + 1 + |rest|] == VarBytes(v)[1..] == rest;
      VarGroupsBack(bs, off + 1, k + 1, v / 128);
    }
  }

  lemma Pow2Split(n: nat)
    ensures Pow2(n + 7) == 128 * Pow2(n)
  {
    assert Pow2(n + 7) == 2 * Pow2(n + 6) == 4 * Pow2(n + 5) == 8 * Pow2(n + 4);
    assert Pow2(n + 4) == 2 * Pow2(n + 3) == 4 * Pow2(n + 2) == 8 * Pow2(n + 1);
  }

  /** Any 32-bit number written as a varint at byte `off` is read back, wherever the reader stops. */
  lemma VarAtBack(bs: seq<byte>, off: nat, v: u32)
    requires off + |VarBytes(v)| <= |bs| && bs[off..off + |VarBytes(v)|] == VarBytes(v)
    ensures VarAt(bs, off) == Some((v, off + |VarBytes(v)|))
  {
    hide VarGroups, VarBytes, Pow2;
    Pow2Values();
    VarGroupsBack(bs, off, 0, v);
  }

  lemma VarBack(data: seq<byte>, s: Bits, v: u32)
    requires |s| % 8 == 0 && PutVar(s, v) <= BitsOf(data)
    ensures GetVar(data, |s|) == Some((v, |PutVar(s, v)|))
  {
    BytesBack(data, s, VarBytes(v));
    VarAtBack(data, |s| / 8, v);
  }

  /** Zigzag is a bijection between the signed and the unsigned 32-bit numbers. */
  lemma ZigZagBijection(v: i32, z: u32)
    ensures UnZigZag(ZigZag(v)) == v
    ensures ZigZag(UnZigZag(z)) == z
  {
  }

  // ---- Whole sequences of writes ----

  /** One call on the bit writer. */
  datatype Write =
    | WBit(b: bool)
    | WBits(v: u64, n: nat)
    | WAlign
    | WU8(v8: byte)
    | WU16(v16: u16)
    | WU32(v32: u32)
    | WU64(v64: u64)
    | WVarU32(u: u32)
    | WVarS32(i: i32)

  /** The arguments the writer accepts when `pos` bits have been written. */
  predicate Accepts(pos: nat, w: Write) {
    match w
    case WBit(_) => true
    case WBits(v, n) => n <= 64 && (n == 0 || n == 64 || v < Pow2(n))
    case WAlign => true
    case _ => pos % 8 == 0
  }

  function PutWrite(s: Bits, w: Write): (r: Bits)
    ensures s <= r
  {
    match w
    case WBit(b) => PutBit(s, b)
    case WBits(v, n) => PutBits(s, v, n)
    case WAlign => PutAlign(s)
    case WU8(v) => PutBytes(s, [v])
    case WU16(v) => PutBytes(s, LittleEndian(v, 2))
    case WU32(v) => PutBytes(s, LittleEndian(v, 4))
    case WU64(v) => PutBytes(s, LittleEndian(v, 8))
    case WVarU32(u) => PutVar(s, u)
    case WVarS32(i) => PutVar(s, ZigZag(i))
  }

  predicate AcceptsAll(s: Bits, ws: seq<Write>)
    decreases |ws|
  {
    ws == [] || (Accepts(|s|, ws[0]) && AcceptsAll(PutWrite(s, ws[0]), ws[1..]))
  }

  function PutWrites(s: Bits, ws: seq<Write>): (r: Bits)
    ensures s <= r
    decreases |ws|
  {
    if ws == [] then s else PutWrites(PutWrite(s, ws[0]), ws[1..])
  }

  /** The read that mirrors `w`, with the value found in place of the one written. */
  function Mirror(data: seq<byte>, p: nat, w: Write): Option<(Write, nat)> {
    match w
    case WBit(_) => var (b, q) :- GetBit(data, p); Some((WBit(b), q))
    case WBits(_, n) =>
      var (v, q) :- GetBits(data, p, n);
      Pow2Mono(n, 64);
      Pow2Values();
      Some((WBits(v, n), q))
    case WAlign => var q :- GetAlign(data, p); Some((WAlign, q))
    case WU8(_) => var (v, q) :- GetU8(data, p); Some((WU8(v), q))
    case WU16(_) => var (v, q) :- GetU16(data, p); Some((WU16(v), q))
    case WU32(_) => var (v, q) :- GetU32(data, p); Some((WU32(v), q))
    case WU64(_) => var (v, q) :- GetU64(data, p); Some((WU64(v), q))
    case WVarU32(_) => var (v, q) :- GetVar(data, p); Some((WVarU32(v), q))
    case WVarS32(_) => var (v, q) :- GetVarS(data, p); Some((WVarS32(v), q))
  }

  function MirrorAll(data: seq<byte>, p: nat, ws: seq<Write>): Option<(seq<Write>, nat)>
    decreases |ws|
  {
    if ws == [] then Some(([], p))
    else
      var (w, q) :- Mirror(data, p, ws[0]);
      var (rest, end) :- MirrorAll(data, q, ws[1..]);
      Some(([w] + rest, end))
  }

  /** A zero-width write is accepted with any value but stores none of it. */
  predicate Faithful(w: Write) {
    w.WBits? && w.n == 0 ==> w.v == 0
  }

  lemma MirrorBack(data: seq<byte>, s: Bits, w: Write)
    requires Accepts(|s|, w) && PutWrite(s, w) <= BitsOf(data)
    ensures Mirror(data, |s|, w).Some?
    ensures Mirror(data, |s|, w).value.1 == |PutWrite(s, w)|
    ensures Mirror(data, |s|, w).value.0 == w <==> Faithful(w)
  {
    match w
    case WBit(b) => BitBack(data, s, b);
    case WBits(v, n) =>
      Pow2Values();
      if n == 0 {
        assert PutBits(s, v, 0) == PutBits(s, 0, 0);
        BitsBack(data, s, 0, 0);
      } else {
        BitsBack(data, s, v, n);
      }
    case WAlign => AlignBack(data, s);
    case WU8(v) => BytesBack(data, s, [v]);
    case WU16(v) => U16Back(data, s, v);
    case WU32(v) => U32Back(data, s, v);
    case WU64(v) => U64Back(data, s, v);
    case WVarU32(u) => VarBack(data, s, u);
    case WVarS32(i) =>
      VarBack(data, s, ZigZag(i));
      ZigZagBijection(i, 0);
  }

  /**
   Every accepted sequence of writes is followed in step by the mirrored reads, and the
   values read are the values written exactly when no zero-width write carried a non-zero value.
   */
  lemma {:induction false} WritesReadBack(data: seq<byte>, s: Bits, ws: seq<Write>)
    requires AcceptsAll(s, ws) && PutWrites(s, ws) <= BitsOf(data)
    ensures MirrorAll(data, |s|, ws).Some?
    ensures MirrorAll(data, |s|, ws).value.1 == |PutWrites(s, ws)|
    ensures MirrorAll(data, |s|, ws).value.0 == ws <==> forall w :: w in ws ==> Faithful(w)
    decreases |ws|
  {
    if ws != [] {
      var s' := PutWrite(s, ws[0]);
      MirrorBack(data, s, ws[0]);
      WritesReadBack(data, s', ws[1..]);
      var w := Mirror(data, |s|, ws[0]).value.0;
      var rest := MirrorAll(data, |s'|, ws[1..]).value.0;
      ConsEqual(w, rest, ws);
    }
  }

  lemma ConsEqual(w: Write, rest: seq<Write>, ws: seq<Write>)
    requires ws != []
    ensures [w] + rest == ws <==> w == ws[0] && rest == ws[1..]
    ensures forall x :: x in ws <==> x == ws[0] || x in ws[1..]
  {
    assert ([w] + rest)[1..] == rest;
    assert ws == [ws[0]] + ws[1..];
  }

  /** Five bits of zero width: accepted by the writer, read back as zero. */
  lemma ZeroWidthWriteLosesItsValue()
    ensures AcceptsAll([], [WBits(5, 0)])
    ensures MirrorAll([], 0, [WBits(5, 0)]).Some?
    ensures MirrorAll([], 0, [WBits(5, 0)]).value.0 != [WBits(5, 0)]
  {
    assert PutWrites(PutWrite([], WBits(5, 0)), []) == [];
    WritesReadBack([], [], [WBits(5, 0)]);
    assert !Faithful(WBits(5, 0));
  }
}
