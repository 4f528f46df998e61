/** The varint readers, writers and length functions of the wire layer, on byte buffers. */
module Varints {
  import opened Core
  import opened Bits
  import opened Bitstream
  import opened BitReaders

  /** The length function of the delta encoder, by comparison with powers of 128. */
  function VarLen(v: u32): nat {
    if v < 0x80 then 1
    else if v < 0x4000 then 2
    else if v < 0x20_0000 then 3
    else if v < 0x1000_0000 then 4
    else 5
  }

  lemma {:induction false} VarLenAgrees(v: u32)
    ensures |VarBytes(v)| == VarLen(v)
  {
    if v >= 128 {
      VarLenStep(v);
      VarLenAgrees(v / 128);
    }
  }

  lemma VarLenStep(v: u32)
    requires v >= 128
    ensures VarLen(v) == 1 + VarLen(v / 128)
  {
  }

  /** The length function of the wire layer, by repeated shifting. */
  method VarU32Len(v: u32) returns (len: nat)
    ensures len == |VarBytes(v)| && 1 <= len <= 5
  {
    VarLenAgrees(v);
    len := 1;
    var value := v;
    while value >= 0x80
      invariant len + |VarBytes(value)| == |VarBytes(v)| + 1
      decreases value
    {
      value := value / 128;
      len := len + 1;
    }
  }

  lemma VarBytesStep(v: nat)
    ensures VarBytes(v) == if v < 128 then [v] else [v % 128 + 128] + VarBytes(v / 128)
  {
  }

  /** Writes a varint at `at`, seven bits at a time. */
  method WriteVarU32(v: u32, out: array<byte>, at: nat) returns (n: nat)
    requires at + |VarBytes(v)| <= out.Length
    modifies out
    ensures n == |VarBytes(v)|
    ensures out[..] == Splice(old(out[..]), at, VarBytes(v))
  {
    hide VarBytes, Splice;
    ghost var before := out[..];
    ghost var written: seq<byte> := [];
    var value := v;
    n := 0;
    SpliceNothing(before, at);
    while true
      invariant n == |written| && written + VarBytes(value) == VarBytes(v)
      invariant out[..] == Splice(before, at, written)
      decreases value
    {
      var byt: byte := value % 128;
      var rest := value / 128;
      if rest != 0 {
        byt := byt + 128;
      }
      VarBytesStep(value);
      assert VarBytes(value) == if rest == 0 then [byt] else [byt] + VarBytes(rest);
      SetByte(out, at + n, byt);
      SpliceTwice(before, at, written, [byt]);
      n := n + 1;
      if rest == 0 {
        return;
      }
      assert written + ([byt] + VarBytes(rest)) == written + [byt] + VarBytes(rest);
      written := written + [byt];
      value := rest;
    }
  }

  method SetByte(out: array<byte>, at: nat, b: byte)
    requires at < out.Length
    modifies out
    ensures out[..] == Splice(old(out[..]), at, [b])
  {
    out[at] := b;
  }

  /** The reader of section lengths: five rounds on 32 bits. */
  method ReadVarU32Packet(buf: seq<byte>, start: nat) returns (r: Option<(u32, nat)>)
    ensures r == VarAt(buf, start)
  {
    var offset: nat := start;
    var value: u32 := 0;
    for k := 0 to 5
      invariant VarAt(buf, start) == VarFinish(VarGroups(buf, offset, k), k, value)
    {
      VarStep(buf, offset, k, value);
      if offset >= |buf| {
        return None;
      }
      var byt := buf[offset];
      offset := offset + 1;
      value := AsU32(value + ShiftGroups(byt % 128, k));
      if byt < 128 {
        return Some((value, offset));
      }
    }
    return None;
  }

  /** The reader of session headers: accumulates on 64 bits, counts groups, truncates at the end. */
  method ReadVarU32Session(buf: seq<byte>, start: nat) returns (r: Option<(u32, nat)>)
    ensures r == VarAt(buf, start)
  {
    var offset: nat := start;
    var value: nat := 0;
    var count: nat := 0;
    while true
      invariant count < 5 && VarGroups(buf, start, 0) == Plus(VarGroups(buf, offset, count), count, value)
      decreases 5 - count
    {
      PlusStep(buf, offset, count, value);
      if offset >= |buf| {
        return None;
      }
      var byt := buf[offset];
      offset := offset + 1;
      value := value + ShiftGroups(byt % 128, count);
      count := count + 1;
      if byt < 128 {
        return Some((AsU32(value), offset));
      }
      if count >= 5 {
        return None;
      }
    }
  }

  /** Adds the groups already read to the rest of a number. */
  function Plus(rest: Option<(nat, nat)>, count: nat, value: nat): Option<(nat, nat)> {
    match rest
    case None => None
    case Some(ve) => Some((value + ShiftGroups(ve.0, count), ve.1))
  }

  lemma PlusStep(buf: seq<byte>, offset: nat, count: nat, value: nat)
    requires count < 5
    ensures Plus(VarGroups(buf, offset, count), count, value)
         == if offset >= |buf| then None
            else
              var next := value + ShiftGroups(buf[offset] % 128, count);
              if buf[offset] < 128 then Some((next, offset + 1))
              else Plus(VarGroups(buf, offset + 1, count + 1), count + 1, next)
  {
    if offset < |buf| && buf[offset] >= 128 {
      var low := buf[offset] - 128;
      assert low == buf[offset] % 128;
      var rest := VarGroups(buf, offset + 1, count + 1);
      if rest.Some? {
        ShiftSum(low, rest.value.0, count);
      }
    }
  }
}
