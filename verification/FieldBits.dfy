/** How many bits each field and each packed index takes, and which bits they are. */
module FieldBits {
  import opened Core
  import opened Bits
  import opened Bitstream
  import opened Numerals
  import opened Schemas
  import opened Fields
  import opened Diffs
  import opened UpdateLayouts
  import opened ChangeLists

  // ---- Widths ----

  /** `n` bits hold all numbers up to `range`, and fewer do not. */
  predicate Narrowest(range: nat, n: nat) {
    range < Pow2(n) && (n == 0 || Pow2(n - 1) <= range)
  }

  lemma NarrowestIs(range: nat)
    ensures Narrowest(range, RequiredBits(range))
  {
    var n := RequiredBits(range);
    RequiredBitsLeast(range, n);
    if n > 0 {
      RequiredBitsLeast(range, n - 1);
    }
  }

  lemma NarrowestOnce(range: nat, m: nat, n: nat)
    requires Narrowest(range, m) && Narrowest(range, n)
    ensures m == n
  {
    if m < n {
      Pow2Mono(m, n - 1);
    } else if n < m {
      Pow2Mono(n, m - 1);
    }
  }

  /** The last `n` bits of `r`, after `s`, are the digits of `v`, highest first. */
  predicate EndsInDigits(s: Bits, r: Bits, v: nat, n: nat) {
    && s <= r && |r| == |s| + n
    && forall k :: 0 <= k < n ==> (r[|s| + k] <==> Digit(v, n, k))
  }

  lemma PutsDigits(s: Bits, v: nat, n: nat)
    ensures EndsInDigits(s, PutBits(s, v, n), v, n)
  {
    hide Digit, ToBits;
    forall k | 0 <= k < n
      ensures PutBits(s, v, n)[|s| + k] <==> Digit(v, n, k)
    {
      BitDigit(v, n, k);
    }
  }

  /** The last bits of `r`, from the next byte boundary after `s` on, are the bytes of a varint. */
  predicate EndsInVarint(s: Bits, r: Bits, v: nat) {
    r == PutAlign(s) + BitsOf(VarBytes(v))
  }

  lemma PutsVarint(s: Bits, v: nat)
    ensures EndsInVarint(s, PutVar(PutAlign(s), v), v)
  {
    hide PutAlign, BitsOf, VarBytes;
  }

  lemma PutsBit(s: Bits, b: bool)
    ensures PutBit(s, b) == s + [b]
  {
  }

  // ---- Fields ----

  function RangeOf(c: FieldCodec): nat {
    if c.FixedPoint? && c.minQ <= c.maxQ then c.maxQ - c.minQ else 0
  }

  /**
   The bits of a field, codec by codec: a boolean is one bit; unsigned numbers have the width of
   the codec, signed ones the same in two's complement; fixed-point numbers are written as the
   distance from the minimum in the least width that holds the range; varints start on a byte.
   */
  lemma FieldWritten(s: Bits, c: FieldCodec, v: FieldValue)
    requires Encodable(c, v)
    ensures var r := PutField(s, c, v);
            && (c.Bool? ==> r == s + [v.b])
            && (c.UInt? ==> EndsInDigits(s, r, v.u, c.bits))
            && (c.SInt? ==> EndsInDigits(s, r, if v.i >= 0 then v.i else v.i + Pow2(c.sbits), c.sbits))
            && (c.VarUInt? ==> EndsInVarint(s, r, v.vu))
            && (c.VarSInt? ==> EndsInVarint(s, r, ZigZag(v.vi)))
            && (c.FixedPoint? ==>
                  exists n :: Narrowest(RangeOf(c), n) && EndsInDigits(s, r, v.q - c.minQ, n))
  {
    hide Pow2, EndsInDigits, Narrowest, EncodeSint, RequiredBits, PutBits, PutVar, PutAlign;
    match c
    case UInt(bits) => PutsDigits(s, v.u, bits);
    case SInt(bits) =>
      EncodeSintValue(bits, v.i);
      PutsDigits(s, EncodeSint(bits, v.i), bits);
    case FixedPoint(lo, hi, _) =>
      var n := RequiredBits(RangeOf(c));
      assert RangeOf(c) == hi - lo && FixedWidth(lo, hi) == n;
      NarrowestIs(RangeOf(c));
      PutsDigits(s, v.q - lo, n);
    case VarUInt => PutsVarint(s, v.vu);
    case VarSInt => PutsVarint(s, ZigZag(v.vi));
    case Bool => PutsBit(s, v.b);
  }

  // ---- Which values a codec takes ----

  predicate OfKind(c: FieldCodec, v: FieldValue) {
    || (c.Bool? && v.VBool?)
    || (c.UInt? && v.VUInt?)
    || (c.SInt? && v.VSInt?)
    || (c.VarUInt? && v.VVarUInt?)
    || (c.VarSInt? && v.VVarSInt?)
    || (c.FixedPoint? && v.VFixedPoint?)
  }

  function Lowest(c: FieldCodec): int {
    if c.SInt? && c.sbits > 0 then 0 - Pow2(c.sbits - 1)
    else if c.VarSInt? then -0x8000_0000
    else if c.FixedPoint? then c.minQ
    else 0
  }

  function Highest(c: FieldCodec): int {
    if c.Bool? then 1
    else if c.UInt? then Pow2(c.bits) - 1
    else if c.SInt? && c.sbits > 0 then Pow2(c.sbits - 1) - 1
    else if c.VarUInt? then 0xFFFF_FFFF
    else if c.VarSInt? then 0x7FFF_FFFF
    else if c.FixedPoint? then c.maxQ
    else 0
  }

  /** A codec takes the values of its kind between its ends, both of them included. */
  lemma EncodableIff(c: FieldCodec, v: FieldValue)
    ensures Encodable(c, v) <==> ValidCodec(c) && OfKind(c, v) && Lowest(c) <= Number(v) <= Highest(c)
  {
  }

  /** Integer codecs have 1 to 64 bits; fixed-point ranges are not empty and have a scale. */
  lemma ValidCodecIff(c: FieldCodec)
    ensures ValidCodec(c) <==>
            || c in {Bool, VarUInt, VarSInt}
            || (c.UInt? && c.bits != 0 && c.bits < 65)
            || (c.SInt? && c.sbits != 0 && c.sbits < 65)
            || (c.FixedPoint? && c.scale > 0 && c.maxQ - c.minQ >= 0)
  {
  }

  // ---- Packed indices ----

  function LastIndex(d: ComponentDef): nat {
    if d.fields == [] then 0 else |d.fields| - 1
  }

  /**
   A packed field index has the least width that holds the last index, none for a single field; a
   varint starts on a byte.
   */
  lemma IndexWritten(s: Bits, d: ComponentDef, index: nat)
    ensures exists n ::
              && Narrowest(LastIndex(d), n)
              && EndsInDigits(s, PutIndex(Packed, s, d, index), index, n)
              && (|d.fields| <= 1 <==> n == 0)
    ensures index < 0x1_0000_0000 ==> EndsInVarint(s, PutIndex(Varint, s, d, index), index)
  {
    hide Pow2, EndsInDigits, PutBits, PutVar, PutAlign, Narrowest;
    var n := RequiredBits(LastIndex(d));
    NarrowestIs(LastIndex(d));
    PutsDigits(s, index, n);
    if index < 0x1_0000_0000 {
      PutsVarint(s, index);
    }
  }

  /** The lookup table has the least width for every component of the schema. */
  lemma LookupWidths(lookup: ComponentLookup, schema: Schema, id: u16)
    requires lookup.Agrees(schema) && FindDef(schema.components, id).Some?
    ensures Narrowest(LastIndex(FindDef(schema.components, id).value), lookup.Bits(id))
  {
    hide FindDef;
    NarrowestIs(LastIndex(FindDef(schema.components, id).value));
  }
}
