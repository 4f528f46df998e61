/** The bounded bit reader over a byte slice. */
module BitReaders {
  import opened Core
  import opened Bits
  import opened Bitstream

  class BitReader {
    const data: seq<byte>
    var bitPos: nat

    ghost predicate Valid()
      reads this
    {
      bitPos <= 8 * |data|
    }

    /** What a read promises: the value of the `Get` function, and a position moved as it says. */
    ghost predicate Gets<T>(r: Option<T>, expected: Option<(T, nat)>)
      reads this
    {
      && Valid()
      && match expected
         case None => r.None?
         case Some(vp) => r == Some(vp.0) && bitPos == vp.1
    }

    constructor (data: seq<byte>)
      ensures Valid() && this.data == data && bitPos == 0
    {
      this.data := data;
      bitPos := 0;
    }

    method ReadBit() returns (r: Option<bool>)
      requires Valid()
      modifies this`bitPos
      ensures Gets(r, GetBit(data, old(bitPos)))
    {
      if bitPos == 8 * |data| {
        return None;
      }
      var bit := ToBits(data[bitPos / 8], 8)[bitPos % 8];
      bitPos := bitPos + 1;
      return Some(bit);
    }

    method ReadBits(n: nat) returns (r: Option<nat>)
      requires Valid()
      modifies this`bitPos
      ensures Gets(r, GetBits(data, old(bitPos), n))
    {
      if n > 64 {
        return None;
      }
      if n == 0 {
        return Some(0);
      }
      if bitPos + n > 8 * |data| {
        return None;
      }
      var value := 0;
      ghost var p := bitPos;
      for k := 0 to n
        invariant Valid() && bitPos == p + k
        invariant value == FromBits(BitsOf(data)[p..p + k])
      {
        NextBit(BitsOf(data), p, k);
        var bit := ReadBit();
        value := 2 * value + if bit.value then 1 else 0;
      }
      return Some(value);
    }

    method AlignToByte() returns (r: Outcome)
      requires Valid()
      modifies this`bitPos
      ensures Valid() && r.Pass? && GetAlign(data, old(bitPos)) == Some(bitPos)
    {
      var rem := bitPos % 8;
      if rem == 0 {
        return Pass;
      }
      var skip := 8 - rem;
      if bitPos + skip > 8 * |data| {
        return Fail;
      }
      bitPos := bitPos + skip;
      return Pass;
    }

    method ReadBytesAligned(n: nat) returns (r: Option<seq<byte>>)
      requires Valid()
      modifies this`bitPos
      ensures Gets(r, GetBytes(data, old(bitPos), n))
    {
      if bitPos % 8 != 0 {
        return None;
      }
      if bitPos + 8 * n > 8 * |data| {
        return None;
      }
      var idx := bitPos / 8;
      bitPos := bitPos + 8 * n;
      return Some(data[idx..idx + n]);
    }

    method ReadU8Aligned() returns (r: Option<byte>)
      requires Valid()
      modifies this`bitPos
      ensures Gets(r, GetU8(data, old(bitPos)))
    {
      if bitPos % 8 != 0 || bitPos + 8 > 8 * |data| {
        return None;
      }
      var idx := bitPos / 8;
      bitPos := bitPos + 8;
      return Some(data[idx]);
    }

    method ReadU16Aligned() returns (r: Option<u16>)
      requires Valid()
      modifies this`bitPos
      ensures Gets(r, GetU16(data, old(bitPos)))
    {
      ghost var p := bitPos;
      var bs :- ReadBytesAligned(2);
      assert GetU16(data, p) == Some((FromLittleEndian(bs), bitPos));
      return Some(FromLittleEndian(bs));
    }

    method ReadU32Aligned() returns (r: Option<u32>)
      requires Valid()
      modifies this`bitPos
      ensures Gets(r, GetU32(data, old(bitPos)))
    {
      ghost var p := bitPos;
      var bs :- ReadBytesAligned(4);
      assert GetU32(data, p) == Some((FromLittleEndian(bs), bitPos));
      return Some(FromLittleEndian(bs));
    }

    method ReadU64Aligned() returns (r: Option<u64>)
      requires Valid()
      modifies this`bitPos
      ensures Gets(r, GetU64(data, old(bitPos)))
    {
      ghost var p := bitPos;
      var bs :- ReadBytesAligned(8);
      assert GetU64(data, p) == Some((FromLittleEndian(bs), bitPos));
      return Some(FromLittleEndian(bs));
    }

    /** Accumulates at most five groups of seven bits, truncating to 32 bits. */
    method ReadVarU32() returns (r: Option<u32>)
      requires Valid()
      modifies this`bitPos
      ensures Gets(r, GetVar(data, old(bitPos)))
    {
      if bitPos % 8 != 0 {
        return None;
      }
      var result: u32 := 0;
      ghost var off := bitPos / 8;
      ghost var number := VarAt(data, off);
      assert ShiftGroups(0, 0) == 0;
      for k := 0 to 5
        invariant Valid() && bitPos == 8 * off
        invariant number == VarFinish(VarGroups(data, off, k), k, result)
      {
        VarStep(data, off, k, result);
        var byt :- ReadU8Aligned();
        off := off + 1;
        result := AsU32(result + ShiftGroups(byt % 128, k));
        if byt < 128 {
          return Some(result);
        }
      }
      return None;
    }

    method ReadVarS32() returns (r: Option<i32>)
      requires Valid()
      modifies this`bitPos
      ensures Gets(r, GetVarS(data, old(bitPos)))
    {
      var z :- ReadVarU32();
      return Some(UnZigZag(z));
    }
  }

  /** `v << 7k`. */
  function ShiftGroups(v: nat, k: nat): nat {
    if k == 0 then v else 128 * ShiftGroups(v, k - 1)
  }

  /** Completes a number whose first `k` groups have been added into `acc`. */
  function VarFinish(rest: Option<(nat, nat)>, k: nat, acc: u32): Option<(u32, nat)> {
    match rest
    case None => None
    case Some(ve) => Some((AsU32(acc + ShiftGroups(ve.0, k)), ve.1))
  }

  lemma VarStep(data: seq<byte>, off: nat, k: nat, acc: u32)
    requires k < 5
    ensures VarFinish(VarGroups(data, off, k), k, acc)
         == if off >= |data| then None
            else
              var next := AsU32(acc + ShiftGroups(data[off] % 128, k));
              if data[off] < 128 then Some((next, off + 1))
              else VarFinish(VarGroups(data, off + 1, k + 1), k + 1, next)
  {
    if off < |data| && data[off] >= 128 {
      var low := data[off] - 128;
      assert low == data[off] % 128;
      var rest := VarGroups(data, off + 1, k + 1);
      if rest.Some? {
        ShiftSum(low, rest.value.0, k);
        ModAdd(acc + ShiftGroups(low, k), ShiftGroups(rest.value.0, k + 1));
      }
    }
  }

  lemma {:induction false} ShiftSum(low: nat, rest: nat, k: nat)
    ensures ShiftGroups(low + 128 * rest, k) == ShiftGroups(low, k) + ShiftGroups(rest, k + 1)
  {
    if k > 0 {
      ShiftSum(low, rest, k - 1);
    }
  }

  lemma NextBit(b: Bits, p: nat, k: nat)
    requires p + k < |b|
    ensures FromBits(b[p..p + k + 1]) == 2 * FromBits(b[p..p + k]) + if b[p + k] then 1 else 0
  {
    assert b[p..p + k + 1][..k] == b[p..p + k];
  }

  lemma ModAdd(x: nat, y: nat)
    ensures AsU32(AsU32(x) + y) == AsU32(x + y)
  {
    var q := x / 0x1_0000_0000;
    assert x + y == AsU32(x) + y + q * 0x1_0000_0000;
  }
}
