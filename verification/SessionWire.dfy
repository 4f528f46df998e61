/** The compact session header: ticks as differences from the last tick both sides have seen. */
module SessionHeaders {
  import opened Core
  import opened Bits
  import opened Bitstream
  import opened Varints
  import opened Wire

  const MAX_SESSION_HEADER: nat := 16

  const SESSION_DELTA: byte := 2

  predicate SessionFull(flags: byte) {
    flags % 2 == 1
  }

  predicate SessionDelta(flags: byte) {
    flags / 2 % 2 == 1
  }

  /** Exactly one snapshot bit and no reserved bit. */
  predicate SessionFlagsOk(flags: byte) {
    SessionFull(flags) != SessionDelta(flags) && flags < 4
  }

  datatype SessionHeader = SessionHeader(flags: byte, tick: u32, baselineTick: u32, payloadLen: u32, headerLen: nat)

  function SessionHeaderBytes(flags: byte, tickDelta: u32, baselineDelta: u32, payloadLen: u32): (bs: seq<byte>)
    ensures |bs| >= 4
  {
    [flags] + VarBytes(tickDelta) + VarBytes(baselineDelta) + VarBytes(payloadLen)
  }

  lemma HeaderLength(flags: byte, tickDelta: u32, baselineDelta: u32, payloadLen: u32)
    ensures |SessionHeaderBytes(flags, tickDelta, baselineDelta, payloadLen)| <= MAX_SESSION_HEADER
  {
    hide VarBytes;
    VarLenAgrees(tickDelta);
    VarLenAgrees(baselineDelta);
    VarLenAgrees(payloadLen);
  }

  /** Ticks are resolved against the receiver's own last tick. */
  function GetSessionHeader(buf: seq<byte>, lastTick: u32): (r: Option<SessionHeader>)
    ensures r.Some? ==> r.value.headerLen <= |buf|
  {
    if buf == [] || !SessionFlagsOk(buf[0]) then None
    else
      var (tickDelta, o1) :- VarAt(buf, 1);
      if tickDelta == 0 || lastTick + tickDelta >= 0x1_0000_0000 then None
      else
        var tick := lastTick + tickDelta;
        var (baselineDelta, o2) :- VarAt(buf, o1);
        if baselineDelta > tick then None
        else
          var baselineTick := tick - baselineDelta;
          if SessionFull(buf[0]) && baselineDelta != 0 then None
          else if SessionDelta(buf[0]) && baselineTick == 0 then None
          else
            var (payloadLen, o3) :- VarAt(buf, o2);
            Some(SessionHeader(buf[0], tick, baselineTick, payloadLen, o3))
  }

  method EncodeSessionHeader(out: array<byte>, lo: nat, hi: nat, flags: byte, tickDelta: u32, baselineDelta: u32,
                             payloadLen: u32)
    returns (r: Option<nat>)
    requires lo <= hi <= out.Length
    modifies out
    ensures var bs := SessionHeaderBytes(flags, tickDelta, baselineDelta, payloadLen);
            && |bs| <= MAX_SESSION_HEADER
            && r == (if MAX_SESSION_HEADER <= hi - lo && SessionFlagsOk(flags) then Some(|bs|) else None)
            && out[..] == if r.Some? then Splice(old(out[..]), lo, bs) else old(out[..])
  {
    hide VarBytes, Splice;
    HeaderLength(flags, tickDelta, baselineDelta, payloadLen);
    if hi - lo < MAX_SESSION_HEADER {
      return None;
    }
    if !SessionFlagsOk(flags) {
      return None;
    }
    ghost var before := out[..];
    var offset := lo;
    SetByte(out, offset, flags);
    offset := offset + 1;
    var n := WriteVarU32(tickDelta, out, offset);
    SpliceTwice(before, lo, [flags], VarBytes(tickDelta));
    offset := offset + n;
    n := WriteVarU32(baselineDelta, out, offset);
    SpliceTwice(before, lo, [flags] + VarBytes(tickDelta), VarBytes(baselineDelta));
    offset := offset + n;
    n := WriteVarU32(payloadLen, out, offset);
    SpliceTwice(before, lo, [flags] + VarBytes(tickDelta) + VarBytes(baselineDelta), VarBytes(payloadLen));
    return Some(offset + n - lo);
  }

  method DecodeSessionHeader(buf: seq<byte>, lastTick: u32) returns (r: Option<SessionHeader>)
    ensures r == GetSessionHeader(buf, lastTick)
  {
    hide VarAt;
    if buf == [] {
      return None;
    }
    var flags := buf[0];
    if !SessionFlagsOk(flags) {
      return None;
    }
    var tickRead :- ReadVarU32Session(buf, 1);
    var (tickDelta, o1) := tickRead;
    if tickDelta == 0 {
      return None;
    }
    if lastTick + tickDelta >= 0x1_0000_0000 {
      return None;
    }
    var tick: u32 := lastTick + tickDelta;
    var baselineRead :- ReadVarU32Session(buf, o1);
    var (baselineDelta, o2) := baselineRead;
    if baselineDelta > tick {
      return None;
    }
    var baselineTick: u32 := tick - baselineDelta;
    if SessionFull(flags) && baselineDelta != 0 {
      return None;
    }
    if SessionDelta(flags) && baselineTick == 0 {
      return None;
    }
    var lenRead :- ReadVarU32Session(buf, o2);
    var (payloadLen, o3) := lenRead;
    return Some(SessionHeader(flags, tick, baselineTick, payloadLen, o3));
  }

  /** What the receiver makes of the three differences. */
  function Resolve(flags: byte, tickDelta: u32, baselineDelta: u32, payloadLen: u32, lastTick: u32,
                   headerLen: nat): Option<SessionHeader> {
    if !SessionFlagsOk(flags) || tickDelta == 0 || lastTick + tickDelta >= 0x1_0000_0000
       || baselineDelta > lastTick + tickDelta
       || (SessionFull(flags) && baselineDelta != 0)
       || (SessionDelta(flags) && lastTick + tickDelta == baselineDelta)
    then None
    else Some(SessionHeader(flags, lastTick + tickDelta, lastTick + tickDelta - baselineDelta, payloadLen, headerLen))
  }

  /** A compact header is read back as the differences that were written, whatever follows it. */
  lemma SessionHeaderBack(flags: byte, tickDelta: u32, baselineDelta: u32, payloadLen: u32, rest: seq<byte>,
                          lastTick: u32)
    ensures var bs := SessionHeaderBytes(flags, tickDelta, baselineDelta, payloadLen);
            GetSessionHeader(bs + rest, lastTick)
              == Resolve(flags, tickDelta, baselineDelta, payloadLen, lastTick, |bs|)
  {
    hide VarBytes, VarAt;
    var bs := SessionHeaderBytes(flags, tickDelta, baselineDelta, payloadLen);
    var buf := bs + rest;
    var o1 := 1 + |VarBytes(tickDelta)|;
    var o2 := o1 + |VarBytes(baselineDelta)|;
    var o3 := o2 + |VarBytes(payloadLen)|;
    assert buf[1..o1] == VarBytes(tickDelta);
    assert buf[o1..o2] == VarBytes(baselineDelta);
    assert buf[o2..o3] == VarBytes(payloadLen);
    VarAtBack(buf, 1, tickDelta);
    VarAtBack(buf, o1, baselineDelta);
    VarAtBack(buf, o2, payloadLen);
  }

  /**
   Ticks are relative. When a receiver whose last tick differs from the sender's accepts a
   compact delta header, it reads both ticks shifted by exactly that difference; they are the
   sender's ticks exactly when the two last ticks are equal. So a lost packet is not noticed here.
   */
  lemma TickShift(tick: u32, baselineTick: u32, payloadLen: u32, rest: seq<byte>, senderLast: u32, receiverLast: u32)
    requires senderLast < tick && baselineTick <= tick
    ensures var bs := SessionHeaderBytes(SESSION_DELTA, tick - senderLast, tick - baselineTick, payloadLen);
            var h := GetSessionHeader(bs + rest, receiverLast);
            var shift := receiverLast - senderLast;
            && (h.Some? <==> tick + shift < 0x1_0000_0000 && baselineTick + shift > 0)
            && (h.Some? ==> h.value.tick == tick + shift && h.value.baselineTick == baselineTick + shift
                            && h.value.payloadLen == payloadLen && h.value.headerLen == |bs|)
            && (h.Some? ==> (h.value.tick == tick && h.value.baselineTick == baselineTick
                             <==> receiverLast == senderLast))
  {
    hide SessionHeaderBytes, GetSessionHeader;
    SessionHeaderBack(SESSION_DELTA, tick - senderLast, tick - baselineTick, payloadLen, rest, receiverLast);
  }
}
