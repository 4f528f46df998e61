/** Field codecs: how one value of each kind is packed into bits. */
module Fields {
  import opened Core
  import opened Bits
  import opened Bitstream
  import opened BitReaders
  import opened BitWriters
  import opened Schemas

  /** The cast `as u64` of a signed value. */
  function AsU64(v: i64): u64 {
    v % 0x1_0000_0000_0000_0000
  }

  /** `64 - leading_zeros`, the width of a number that ranges over `0..=range`. */
  function RequiredBits(range: nat): nat {
    if range == 0 then 0 else 1 + RequiredBits(range / 2)
  }

  /** `v & ((1 << n) - 1)`. */
  function LowBits(v: nat, n: nat): (r: nat)
    ensures r <= v && r < Pow2(n)
  {
    if n == 0 then 0 else 2 * LowBits(v / 2, n - 1) + v % 2
  }

  /** `v & (1 << k) != 0`. */
  predicate TestBit(v: nat, k: nat) {
    if k == 0 then v % 2 == 1 else TestBit(v / 2, k - 1)
  }

  function EncodeSint(bits: nat, v: i64): (raw: u64)
    requires 1 <= bits <= 64
    ensures raw < Pow2(bits)
  {
    if bits == 64 then Pow2Values(); AsU64(v) else LowBits(AsU64(v), bits)
  }

  /** Sign extension, with the wrap-around of a 63-bit field spelled out. */
  function DecodeSint(bits: nat, raw: u64): i64
    requires 1 <= bits <= 64
  {
    if bits == 64 then WrapI64(raw)
    else if !TestBit(raw, bits - 1) then WrapI64(raw)
    else WrapI64(WrapI64(LowBits(raw, bits)) - WrapI64(Pow2(bits)))
  }

  /** The number of bits a fixed-point field takes. */
  function FixedWidth(lo: i64, hi: i64): nat
    requires lo <= hi
  {
    RequiredBits(hi - lo)
  }

  predicate InSintRange(bits: nat, v: i64)
    requires 1 <= bits
  {
    v + Pow2(bits - 1) >= 0 && v < Pow2(bits - 1)
  }

  /** The values `write_field_value` accepts for a codec. */
  predicate Encodable(c: FieldCodec, v: FieldValue) {
    ValidCodec(c) &&
    match (c, v)
    case (Bool, VBool(_)) => true
    case (UInt(bits), VUInt(u)) => u < Pow2(bits)
    case (SInt(bits), VSInt(i)) => InSintRange(bits, i)
    case (VarUInt, VVarUInt(u)) => u < 0x1_0000_0000
    case (VarSInt, VVarSInt(i)) => -0x8000_0000 <= i < 0x8000_0000
    case (FixedPoint(lo, hi, _), VFixedPoint(q)) => lo <= q <= hi
    case _ => false
  }

  function PutField(s: Bits, c: FieldCodec, v: FieldValue): (r: Bits)
    ensures s <= r
  {
    if !ValidCodec(c) then s else
    match (c, v)
    case (Bool, VBool(b)) => PutBit(s, b)
    case (UInt(bits), VUInt(u)) => PutBits(s, u, bits)
    case (SInt(bits), VSInt(i)) => PutBits(s, EncodeSint(bits, i), bits)
    case (VarUInt, VVarUInt(u)) => PutVar(PutAlign(s), u)
    case (VarSInt, VVarSInt(i)) =>
      if -0x8000_0000 <= i < 0x8000_0000 then PutVar(PutAlign(s), ZigZag(i)) else s
    case (FixedPoint(lo, hi, _), VFixedPoint(q)) =>
      if lo <= q then PutBits(s, q - lo, FixedWidth(lo, hi)) else s
    case _ => s
  }

  function GetField(data: seq<byte>, p: nat, c: FieldCodec): Option<(FieldValue, nat)> {
    if !ValidCodec(c) then None else
    match c
    case Bool => var (b, q) :- GetBit(data, p); Some((VBool(b), q))
    case UInt(bits) =>
      var (u, q) :- GetBits(data, p, bits);
      FitsU64(u, bits);
      Some((VUInt(u), q))
    case SInt(bits) =>
      var (u, q) :- GetBits(data, p, bits);
      FitsU64(u, bits);
      Some((VSInt(DecodeSint(bits, u)), q))
    case VarUInt =>
      var p' :- GetAlign(data, p);
      var (u, q) :- GetVar(data, p');
      Some((VVarUInt(u), q))
    case VarSInt =>
      var p' :- GetAlign(data, p);
      var (i, q) :- GetVarS(data, p');
      Some((VVarSInt(i), q))
    case FixedPoint(lo, hi, _) =>
      var (offset, q) :- GetBits(data, p, FixedWidth(lo, hi));
      if lo + offset > hi then None else Some((VFixedPoint(lo + offset), q))
  }

  lemma FitsU64(u: nat, bits: nat)
    requires bits <= 64 && u < Pow2(bits)
    ensures u < 0x1_0000_0000_0000_0000
  {
    Pow2Mono(bits, 64);
    Pow2Values();
  }

  /** `required_bits` is the least width that holds the range. */
  lemma {:induction false} RequiredBitsLeast(range: nat, n: nat)
    ensures range < Pow2(n) <==> RequiredBits(range) <= n
  {
    if range > 0 && n > 0 {
      RequiredBitsLeast(range / 2, n - 1);
    }
  }

  lemma FixedWidthBound(lo: i64, hi: i64)
    requires lo <= hi
    ensures FixedWidth(lo, hi) <= 64
    ensures hi - lo < Pow2(FixedWidth(lo, hi))
  {
    Pow2Values();
    RequiredBitsLeast(hi - lo, 64);
    RequiredBitsLeast(hi - lo, FixedWidth(lo, hi));
  }

  lemma {:induction false} LowBitsOfSmall(v: nat, n: nat)
    requires v < Pow2(n)
    ensures LowBits(v, n) == v
  {
    if n > 0 {
      LowBitsOfSmall(v / 2, n - 1);
    }
  }

  lemma ExtensionHalves(v: nat, m: nat, n: nat)
    requires 0 < n <= m
    ensures Pow2(n - 1) <= Pow2(m - 1) && Pow2(n) <= Pow2(m)
    ensures (v + (Pow2(m) - Pow2(n))) / 2 == v / 2 + (Pow2(m - 1) - Pow2(n - 1))
    ensures (v + (Pow2(m) - Pow2(n))) % 2 == v % 2
  {
    Pow2Mono(n - 1, m - 1);
    var x, y := Pow2(m - 1), Pow2(n - 1);
    assert Pow2(m) == 2 * x && Pow2(n) == 2 * y;
  }

  /** Masking removes a multiple of `2^n`, here the sign extension from `n` to `m` bits. */
  lemma {:induction false} LowBitsOfExtension(v: nat, m: nat, n: nat)
    requires n <= m
    ensures Pow2(n) <= Pow2(m)
    ensures LowBits(v + (Pow2(m) - Pow2(n)), n) == LowBits(v, n)
  {
    Pow2Mono(n, m);
    if n > 0 {
      hide Pow2;
      LowBitsOfExtension(v / 2, m - 1, n - 1);
      ExtensionHalves(v, m, n);
    }
  }

  lemma {:induction false} TopBit(v: nat, k: nat)
    requires v < Pow2(k + 1)
    ensures TestBit(v, k) <==> v >= Pow2(k)
  {
    if k > 0 {
      TopBit(v / 2, k - 1);
    }
  }

  lemma NegativeAsU64(v: i64)
    requires v < 0
    ensures AsU64(v) == v + 0x1_0000_0000_0000_0000
  {
  }

  /** Subtracting `m` from a number in the upper half of `0..m`, at any width up to 63 bits. */
  lemma WrapSubtract(raw: nat, m: nat)
    requires m <= 0x8000_0000_0000_0000 && raw < m
    ensures WrapI64(raw) == raw
    ensures 2 * raw >= m ==> WrapI64(WrapI64(raw) - WrapI64(m)) == raw - m
  {
    if m < 0x8000_0000_0000_0000 {
      assert WrapI64(m) == m;
    } else {
      assert WrapI64(m) == -0x8000_0000_0000_0000;
    }
  }

  lemma WrapWhole(raw: u64)
    ensures WrapI64(raw) == if raw < 0x8000_0000_0000_0000 then raw else raw - 0x1_0000_0000_0000_0000
  {
  }

  lemma NegativeEncoded(bits: nat, v: i64)
    requires 1 <= bits < 64 && InSintRange(bits, v) && v < 0
    ensures LowBits(AsU64(v), bits) == v + Pow2(bits)
  {
    var low := v + Pow2(bits);
    NegativeAsU64(v);
    assert Pow2(64) == 0x1_0000_0000_0000_0000 by { Pow2Values(); }
    LowBitsOfExtension(low, 64, bits);
    LowBitsOfSmall(low, bits);
  }

  lemma PositiveEncoded(bits: nat, v: i64)
    requires 1 <= bits < 64 && 0 <= v < Pow2(bits - 1)
    ensures LowBits(AsU64(v), bits) == v
  {
    assert AsU64(v) == v;
    assert v < Pow2(bits);
    LowBitsOfSmall(v, bits);
  }

  /** The packed form of a signed value is the value modulo `2^bits`. */
  lemma EncodeSintValue(bits: nat, v: i64)
    requires 1 <= bits <= 64 && InSintRange(bits, v)
    ensures EncodeSint(bits, v) == if v >= 0 then v else v + Pow2(bits)
  {
    if bits == 64 {
      assert Pow2(64) == 0x1_0000_0000_0000_0000 by { Pow2Values(); }
    } else if v >= 0 {
      PositiveEncoded(bits, v);
    } else {
      NegativeEncoded(bits, v);
    }
  }

  /** Sign extension of `bits` raw bits, as arithmetic. */
  lemma DecodeSintValue(bits: nat, raw: u64)
    requires 1 <= bits <= 64 && raw < Pow2(bits)
    ensures DecodeSint(bits, raw) == if raw < Pow2(bits - 1) then raw else raw - Pow2(bits)
  {
    hide TestBit, LowBits, WrapI64;
    Pow2Values();
    WrapWhole(raw);
    if bits < 64 {
      Pow2Mono(bits, 63);
      TopBit(raw, bits - 1);
      LowBitsOfSmall(raw, bits);
      WrapSubtract(raw, Pow2(bits));
    }
  }

  /** Two's-complement packing and sign extension are inverse on every width from 1 to 64. */
  lemma SintBack(bits: nat, v: i64)
    requires 1 <= bits <= 64 && InSintRange(bits, v)
    ensures DecodeSint(bits, EncodeSint(bits, v)) == v
  {
    EncodeSintValue(bits, v);
    DecodeSintValue(bits, EncodeSint(bits, v));
  }

  /** The difference of two 64-bit signed numbers, wrapped and cast to unsigned, is exact. */
  lemma FixedDifference(a: i64, b: i64)
    requires b <= a
    ensures AsU64(WrapI64(a - b)) == a - b
  {
    if a - b < 0x8000_0000_0000_0000 {
      assert WrapI64(a - b) == a - b;
    } else {
      assert WrapI64(a - b) == a - b - 0x1_0000_0000_0000_0000;
    }
  }

  /** Adding an offset to the lower bound with wrap-around lands in range exactly when the true sum does. */
  lemma FixedSum(lo: i64, hi: i64, offset: u64)
    requires lo <= hi
    ensures var value := WrapI64(lo + WrapI64(offset));
            if lo + offset <= hi then value == lo + offset else value < lo || value > hi
  {
    if offset >= 0x8000_0000_0000_0000 {
      assert WrapI64(offset) == offset - 0x1_0000_0000_0000_0000;
    }
  }

  /** A field value that can be written is read back equal, with writer and reader in step. */
  lemma FieldBack(data: seq<byte>, s: Bits, c: FieldCodec, v: FieldValue)
    requires Encodable(c, v)
    requires PutField(s, c, v) <= BitsOf(data)
    ensures GetField(data, |s|, c) == Some((v, |PutField(s, c, v)|))
  {
    hide GetBits;
    match c
    case Bool => BitBack(data, s, v.b);
    case UInt(bits) => BitsBack(data, s, v.u, bits);
    case SInt(bits) =>
      EncodeSintValue(bits, v.i);
      BitsBack(data, s, EncodeSint(bits, v.i), bits);
      SintBack(bits, v.i);
    case VarUInt =>
      AlignBack(data, s);
      VarBack(data, PutAlign(s), v.vu);
    case VarSInt =>
      AlignBack(data, s);
      VarBack(data, PutAlign(s), ZigZag(v.vi));
      ZigZagBijection(v.vi, 0);
    case FixedPoint(lo, hi, _) =>
      FixedWidthBound(lo, hi);
      BitsBack(data, s, v.q - lo, FixedWidth(lo, hi));
  }

  /** Whatever bytes are read, an accepted field value is one the encoder accepts. */
  lemma FieldSound(data: seq<byte>, p: nat, c: FieldCodec)
    requires GetField(data, p, c).Some?
    ensures Encodable(c, GetField(data, p, c).value.0)
  {
    if c.SInt? {
      var (u, _) := GetBits(data, p, c.sbits).value;
      FitsU64(u, c.sbits);
      DecodeSintValue(c.sbits, u);
    }
  }

  /** Writes one field value; the sparse and the dense writer of the repository have this same body. */
  method WriteFieldValue(c: FieldCodec, v: FieldValue, w: BitWriter) returns (r: Outcome)
    requires w.Valid() && ValidCodec(c)
    modifies w`bitPos, w.buf
    ensures w.Puts(r, Encodable(c, v), PutField(old(w.Written()), c, v))
  {
    hide BitsOf, PutVar, EncodeSint, ZigZag, RequiredBits, ToBits;
    match (c, v)
    case (Bool, VBool(b)) =>
      r := w.WriteBit(b);
    case (UInt(bits), VUInt(u)) =>
      if u >= Pow2(bits) {
        return Fail;
      }
      r := w.WriteBits(u, bits);
    case (SInt(bits), VSInt(i)) =>
      if !InSintRange(bits, i) {
        return Fail;
      }
      EncodeSintValue(bits, i);
      r := w.WriteBits(EncodeSint(bits, i), bits);
    case (VarUInt, VVarUInt(u)) =>
      if u >= 0x1_0000_0000 {
        return Fail;
      }
      var _ := w.AlignToByte();
      r := w.WriteVarU32(u);
    case (VarSInt, VVarSInt(i)) =>
      if i < -0x8000_0000 || i >= 0x8000_0000 {
        return Fail;
      }
      var _ := w.AlignToByte();
      r := w.WriteVarS32(i);
    case (FixedPoint(lo, hi, _), VFixedPoint(q)) =>
      if q < lo || q > hi {
        return Fail;
      }
      FixedWidthBound(lo, hi);
      FixedDifference(q, lo);
      FixedDifference(hi, lo);
      var offset := AsU64(WrapI64(q - lo));
      var range := AsU64(WrapI64(hi - lo));
      var bits := RequiredBits(range);
      if bits > 0 {
        r := w.WriteBits(offset, bits);
      } else {
        r := Pass;
      }
    case _ =>
      r := Fail;
  }

  method ReadFieldValue(c: FieldCodec, rd: BitReader) returns (r: Option<FieldValue>)
    requires rd.Valid() && ValidCodec(c)
    modifies rd`bitPos
    ensures rd.Gets(r, GetField(rd.data, old(rd.bitPos), c))
  {
    hide BitsOf, GetBits, GetVar, GetVarS, DecodeSint, RequiredBits;
    match c
    case Bool =>
      var b :- rd.ReadBit();
      return Some(VBool(b));
    case UInt(bits) =>
      var u :- rd.ReadBits(bits);
      FitsU64(u, bits);
      return Some(VUInt(u));
    case SInt(bits) =>
      var u :- rd.ReadBits(bits);
      FitsU64(u, bits);
      return Some(VSInt(DecodeSint(bits, u)));
    case VarUInt =>
      var _ := rd.AlignToByte();
      var u :- rd.ReadVarU32();
      return Some(VVarUInt(u));
    case VarSInt =>
      var _ := rd.AlignToByte();
      var i :- rd.ReadVarS32();
      return Some(VVarSInt(i));
    case FixedPoint(lo, hi, _) =>
      FixedDifference(hi, lo);
      FixedWidthBound(lo, hi);
      var range := AsU64(WrapI64(hi - lo));
      var bits := RequiredBits(range);
      var offset := 0;
      NoBits(rd.data, rd.bitPos);
      if bits > 0 {
        offset :- rd.ReadBits(bits);
      }
      FitsU64(offset, bits);
      FixedSum(lo, hi, offset);
      var value := WrapI64(lo + WrapI64(offset));
      if value < lo || value > hi {
        return None;
      }
      return Some(VFixedPoint(value));
  }
}
