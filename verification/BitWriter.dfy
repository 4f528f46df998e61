/** The bounded bit writer over a slice of a caller's buffer. */
module BitWriters {
  import opened Core
  import opened Bits
  import opened Bitstream

  /** Writes into `buf[lo..hi]`; `bitPos` bits of that slice have been written. */
  class BitWriter {
    const buf: array<byte>
    const lo: nat
    const hi: nat
    var bitPos: nat

    ghost predicate Valid()
      reads this
    {
      lo <= hi <= buf.Length && bitPos <= Capacity()
    }

    function Capacity(): nat {
      if lo <= hi then 8 * (hi - lo) else 0
    }

    /** Everything written so far. */
    ghost function Written(): Bits
      requires Valid()
      reads this, buf
    {
      BitsOf(buf[lo..hi])[..bitPos]
    }

    /** The writer is usable and the buffer outside its slice is untouched. */
    twostate predicate Kept()
      reads this, buf
    {
      Valid() && buf[..lo] == old(buf[..lo]) && buf[hi..] == old(buf[hi..])
    }

    /**
     What a write promises: it succeeds exactly when its arguments are `good` and the
     result fits; then `target` is what has been written. The rest of the buffer is untouched.
     */
    twostate predicate Puts(r: Outcome, good: bool, target: Bits)
      reads this, buf
    {
      && Kept()
      && (r.Pass? <==> good && |target| <= Capacity())
      && (r.Pass? ==> Written() == target)
    }

    constructor (buf: array<byte>, lo: nat, hi: nat)
      requires lo <= hi <= buf.Length
      ensures Valid() && Written() == []
      ensures this.buf == buf && this.lo == lo && this.hi == hi
    {
      this.buf, this.lo, this.hi := buf, lo, hi;
      bitPos := 0;
    }

    /** Sets or clears one bit of the byte that holds the next position. */
    method WriteBitUnchecked(v: bool)
      requires Valid() && bitPos < Capacity()
      modifies this`bitPos, buf
      ensures Puts(Pass, true, PutBit(old(Written()), v))
    {
      hide BitsOf;
      var byteIdx := lo + bitPos / 8;
      var bitIdx := bitPos % 8;
      ghost var before := buf[lo..hi];
      assert before[bitPos / 8] == buf[byteIdx];
      BitPlaced(before, bitPos, v);
      buf[byteIdx] := SetBit(buf[byteIdx], 8, bitIdx, v);
      bitPos := bitPos + 1;
      assert buf[lo..hi] == before[old(bitPos) / 8 := buf[byteIdx]];
    }

    method WriteBit(v: bool) returns (r: Outcome)
      requires Valid()
      modifies this`bitPos, buf
      ensures Puts(r, true, PutBit(old(Written()), v))
    {
      if bitPos + 1 > Capacity() {
        return Fail;
      }
      WriteBitUnchecked(v);
      return Pass;
    }

    /** Writes the low `n` bits of `v`, the highest of them first. */
    method WriteBits(v: u64, n: nat) returns (r: Outcome)
      requires Valid()
      modifies this`bitPos, buf
      ensures Puts(r, n <= 64 && (n == 0 || n == 64 || v < Pow2(n)), PutBits(old(Written()), v, n))
    {
      if n > 64 {
        return Fail;
      }
      if n == 0 {
        return Pass;
      }
      if n < 64 && v >= Pow2(n) {
        return Fail;
      }
      if bitPos + n > Capacity() {
        return Fail;
      }
      for i := n downto 0
        invariant Puts(Pass, true, PutBits(old(Written()), ShiftRight(v, i), n - i))
        invariant bitPos + i <= Capacity()
      {
        WriteBitUnchecked(ShiftRight(v, i) % 2 == 1);
      }
      return Pass;
    }

    method AlignToByte() returns (r: Outcome)
      requires Valid()
      modifies this`bitPos, buf
      ensures Puts(r, true, PutAlign(old(Written())))
      ensures r.Pass?
      ensures bitPos % 8 == 0 && bitPos < old(bitPos) + 8
      ensures forall i :: old(bitPos) <= i < bitPos ==> !BitsOf(buf[lo..hi])[i]
    {
      hide BitsOf, PutAlign;
      var rem := bitPos % 8;
      if rem == 0 {
        AlignZeros(BitsOf(buf[lo..hi]), bitPos, Written());
        return Pass;
      }
      var padding := 8 - rem;
      AlignIs(Written(), padding);
      if bitPos + padding > Capacity() {
        return Fail;
      }
      for k := 0 to padding
        invariant Puts(Pass, true, old(Written()) + seq(k, _ => false))
        invariant bitPos + padding - k <= Capacity()
      {
        WriteBitUnchecked(false);
      }
      AlignIs(old(Written()), padding);
      AlignZeros(BitsOf(buf[lo..hi]), bitPos, old(Written()));
      return Pass;
    }

    /** Copies bytes to the next position, which must be a byte boundary. */
    method WriteBytesAligned(bs: seq<byte>) returns (r: Outcome)
      requires Valid()
      modifies this`bitPos, buf
      ensures Puts(r, old(bitPos) % 8 == 0, PutBytes(old(Written()), bs))
    {
      hide BitsOf;
      if bitPos % 8 != 0 {
        return Fail;
      }
      if bitPos + 8 * |bs| > Capacity() {
        return Fail;
      }
      var idx := lo + bitPos / 8;
      ghost var before := buf[lo..hi];
      ghost var k := bitPos / 8;
      forall i | 0 <= i < |bs| {
        buf[idx + i] := bs[i];
      }
      bitPos := bitPos + 8 * |bs|;
      ghost var after := buf[lo..hi];
      assert after[..k + |bs|] == before[..k] + bs;
      BytesPlaced(before, after, k, bs);
      return Pass;
    }

    method WriteU8Aligned(v: byte) returns (r: Outcome)
      requires Valid()
      modifies this`bitPos, buf
      ensures Puts(r, old(bitPos) % 8 == 0, PutBytes(old(Written()), [v]))
    {
      r := WriteBytesAligned([v]);
    }

    method WriteU16Aligned(v: u16) returns (r: Outcome)
      requires Valid()
      modifies this`bitPos, buf
      ensures Puts(r, old(bitPos) % 8 == 0, PutBytes(old(Written()), LittleEndian(v, 2)))
    {
      r := WriteBytesAligned(LittleEndian(v, 2));
    }

    method WriteU32Aligned(v: u32) returns (r: Outcome)
      requires Valid()
      modifies this`bitPos, buf
      ensures Puts(r, old(bitPos) % 8 == 0, PutBytes(old(Written()), LittleEndian(v, 4)))
    {
      r := WriteBytesAligned(LittleEndian(v, 4));
    }

    method WriteU64Aligned(v: u64) returns (r: Outcome)
      requires Valid()
      modifies this`bitPos, buf
      ensures Puts(r, old(bitPos) % 8 == 0, PutBytes(old(Written()), LittleEndian(v, 8)))
    {
      r := WriteBytesAligned(LittleEndian(v, 8));
    }

    method WriteVarU32(v: u32) returns (r: Outcome)
      requires Valid()
      modifies this`bitPos, buf
      ensures Puts(r, old(bitPos) % 8 == 0, PutVar(old(Written()), v))
    {
      hide BitsOf, PutVar;
      if bitPos % 8 != 0 {
        return Fail;
      }
      var value := v;
      ghost var target := PutVar(Written(), v);
      while true
        invariant Kept() && bitPos % 8 == 0
        invariant PutVar(Written(), value) == target
        decreases value
      {
        var byt := value % 128;
        var rest := value / 128;
        if rest != 0 {
          byt := byt + 128;
        }
        PutVarStep(Written(), value);
        :- WriteU8Aligned(byt);
        if rest == 0 {
          return Pass;
        }
        value := rest;
      }
    }

    method WriteVarS32(v: i32) returns (r: Outcome)
      requires Valid()
      modifies this`bitPos, buf
      ensures Puts(r, old(bitPos) % 8 == 0, PutVar(old(Written()), ZigZag(v)))
    {
      r := WriteVarU32(ZigZag(v));
    }

    /** The number of bytes touched. */
    method Finish() returns (n: nat)
      requires Valid()
      ensures lo + n <= hi && 8 * n == |PutAlign(Written())|
      ensures bitPos % 8 == 0 ==> BitsOf(buf[lo..lo + n]) == Written()
    {
      hide BitsOf;
      n := (bitPos + 7) / 8;
      if bitPos % 8 == 0 {
        BitsOfSlice(buf[lo..hi], 0, n);
        assert buf[lo..hi][0..n] == buf[lo..lo + n];
      }
    }
  }

  lemma BitAt(bs: seq<byte>, i: nat)
    requires i < 8 * |bs|
    ensures BitsOf(bs)[i] == ToBits(bs[i / 8], 8)[i % 8]
  {
  }

  /** Setting one bit of a byte string appends it to the bits before. */
  lemma BitPlaced(before: seq<byte>, pos: nat, v: bool)
    requires pos < 8 * |before|
    ensures 0 <= SetBit(before[pos / 8], 8, pos % 8, v) < 256
    ensures BitsOf(before[pos / 8 := SetBit(before[pos / 8], 8, pos % 8, v)])[..pos + 1]
         == PutBit(BitsOf(before)[..pos], v)
  {
    hide SetBit, BitsOf, ToBits, Pow2;
    Pow2Values();
    var k := pos / 8;
    SetBitUpdates(before[k], 8, pos % 8, v);
    var after := before[k := SetBit(before[k], 8, pos % 8, v)];
    BitAt(after, pos);
    forall i | 0 <= i < pos
      ensures BitsOf(after)[i] == BitsOf(before)[i]
    {
      BitAt(before, i);
      BitAt(after, i);
      if i / 8 == k {
        assert i % 8 != pos % 8;
      }
    }
  }

  lemma AlignIs(s: Bits, padding: nat)
    requires padding == 8 - |s| % 8 && |s| % 8 != 0
    ensures PutAlign(s) == s + seq(padding, _ => false)
  {
  }

  /** What stands between the old and the new position after aligning. */
  lemma AlignZeros(all: Bits, pos: nat, s: Bits)
    requires pos <= |all| && all[..pos] == PutAlign(s)
    ensures |s| <= pos < |s| + 8 && pos % 8 == 0
    ensures forall i :: |s| <= i < pos ==> !all[i]
  {
    forall i | |s| <= i < pos
      ensures !all[i]
    {
      assert all[i] == all[..pos][i];
    }
  }

  lemma BytesPlaced(before: seq<byte>, after: seq<byte>, k: nat, bs: seq<byte>)
    requires |after| == |before| && k + |bs| <= |before|
    requires after[..k + |bs|] == before[..k] + bs
    ensures BitsOf(after)[..8 * (k + |bs|)] == PutBytes(BitsOf(before)[..8 * k], bs)
  {
    BitsOfSlice(before, 0, k);
    BitsOfSlice(after, 0, k + |bs|);
    BitsOfConcat(before[..k], bs);
  }

  lemma PutVarStep(s: Bits, v: nat)
    ensures PutVar(s, v) == if v < 128 then PutBytes(s, [v]) else PutVar(PutBytes(s, [v % 128 + 128]), v / 128)
  {
    hide BitsOf;
    if v >= 128 {
      BitsOfConcat([v % 128 + 128], VarBytes(v / 128));
    }
  }

  /** `v >> i`. */
  function ShiftRight(v: nat, i: nat): nat {
    if i == 0 then v else ShiftRight(v, i - 1) / 2
  }
}
