/** Writing a section in place: reserve the longest length, write the body, then shift it down. */
module Sections {
  import opened Core
  import opened Bits
  import opened Bitstream
  import opened BitWriters
  import opened Schemas
  import opened Diffs
  import opened Layouts
  import opened UpdateLayouts
  import opened Scratches
  import opened Varints
  import opened Wire
  import opened EntityEncoders
  import opened UpdateEncoders
  import opened SparseEncoders

  /** A tag byte and the longest varint. */
  const RESERVED: nat := 6

  /** When `write_section` succeeds on a slice of `room` bytes. */
  predicate SectionFits(s: Section, room: int, limits: CodecLimits) {
    |s.body| + RESERVED <= room && |s.body| <= limits.maxSectionBytes && |s.body| < 0x1_0000_0000
  }

  /** A body of whole bytes as a section. */
  function BodySection(tag: SectionTag, bits: Bits): (s: Section)
    requires |bits| % 8 == 0
    ensures 8 * |s.body| == |bits|
  {
    Section(tag, Pack(bits))
  }

  method OpenSection(out: array<byte>, lo: nat, hi: nat) returns (w: BitWriter)
    requires lo + RESERVED <= hi <= out.Length
    ensures fresh(w) && w.Valid() && w.Written() == []
    ensures w.buf == out && w.lo == lo + RESERVED && w.hi == hi
  {
    w := new BitWriter(out, lo + RESERVED, hi);
  }

  /** Moves `n` bytes from `from` down to `to`; the two ranges may overlap. */
  method MoveDown(out: array<byte>, from: nat, to: nat, n: nat)
    requires to <= from && from + n <= out.Length
    modifies out
    ensures out[..] == Splice(old(out[..]), to, old(out[from..from + n]))
  {
    forall i | 0 <= i < n {
      out[to + i] := out[from + i];
    }
  }

  /**
   What writing `s` into `before[lo..hi]` promises: it succeeds exactly when the contents are
   `good` and the section fits; then the section stands at `lo`. Nothing outside changes.
   */
  ghost predicate Appended(before: seq<byte>, after: seq<byte>, lo: nat, hi: nat, r: Option<nat>,
                           good: bool, s: Section, limits: CodecLimits)
    requires lo <= hi <= |before|
  {
    && |after| == |before|
    && after[..lo] == before[..lo]
    && after[hi..] == before[hi..]
    && (r.Some? <==> good && SectionFits(s, hi - lo, limits))
    && (r.Some? ==> r.value == |SectionBytes(s)| <= hi - lo && after[..lo + r.value] == before[..lo] + SectionBytes(s))
  }

  /** Puts the tag and the length in front of the body just written and closes the gap. */
  method CloseSection(tag: SectionTag, out: array<byte>, lo: nat, hi: nat, limits: CodecLimits, w: BitWriter)
    returns (r: Option<nat>)
    requires w.Valid() && w.buf == out && w.lo == lo + RESERVED && w.hi == hi && w.bitPos % 8 == 0
    modifies out
    ensures Appended(old(out[..]), out[..], lo, hi, r, true, BodySection(tag, old(w.Written())), limits)
  {
    hide BitsOf, VarBytes, Splice, Pack;
    var n := w.Finish();
    var bodyStart := lo + RESERVED;
    ghost var body := out[bodyStart..bodyStart + n];
    ghost var s := BodySection(tag, w.Written());
    PackBitsOf(body);
    assert s == Section(tag, body);
    ghost var before := out[..];
    if n > limits.maxSectionBytes || n >= 0x1_0000_0000 {
      return None;
    }
    r := ShiftSection(tag, out, lo, n);
    SectionPlaced(before, lo, hi, s, limits);
  }

  /**
   Writes the head of a section whose body of `n` bytes stands after the reserved bytes, and moves
   the body up to it.
   */
  method ShiftSection(tag: SectionTag, out: array<byte>, lo: nat, n: u32) returns (r: Option<nat>)
    requires lo + RESERVED + n <= out.Length
    modifies out
    ensures var s := Section(tag, old(out[lo + RESERVED..lo + RESERVED + n]));
            |SectionBytes(s)| <= RESERVED + n && r == Some(|SectionBytes(s)|)
            && out[..] == Splice(old(out[..]), lo, SectionBytes(s))
  {
    hide VarBytes, Splice;
    var bodyStart := lo + RESERVED;
    ghost var before := out[..];
    ghost var body := out[bodyStart..bodyStart + n];
    var lenBytes := VarU32Len(n);
    ghost var head := [RawTag(tag)] + VarBytes(n);
    WriteSectionHead(tag, n, out, lo);
    SpliceAway(before, lo, head, bodyStart, bodyStart + n);
    if lenBytes < 5 {
      MoveDown(out, bodyStart, lo + 1 + lenBytes, n);
    } else {
      SpliceSame(out[..], bodyStart, n);
    }
    SpliceTwice(before, lo, head, body);
    return Some(1 + lenBytes + n);
  }

  lemma SectionPlaced(before: seq<byte>, lo: nat, hi: nat, s: Section, limits: CodecLimits)
    requires SectionFits(s, hi - lo, limits) && hi <= |before| && |SectionBytes(s)| <= hi - lo
    ensures Appended(before, Splice(before, lo, SectionBytes(s)), lo, hi, Some(|SectionBytes(s)|), true, s, limits)
  {
    SplicePrefix(before, lo, SectionBytes(s), hi);
  }

  lemma SpliceAway(s: seq<byte>, at: nat, t: seq<byte>, lo: nat, hi: nat)
    requires at + |t| <= lo <= hi <= |s|
    ensures Splice(s, at, t)[lo..hi] == s[lo..hi]
  {
  }

  lemma SpliceSame(s: seq<byte>, at: nat, n: nat)
    requires at + n <= |s|
    ensures Splice(s, at, s[at..at + n]) == s
  {
  }

  lemma SplicePrefix(s: seq<byte>, at: nat, t: seq<byte>, hi: nat)
    requires at + |t| <= hi <= |s|
    ensures Splice(s, at, t)[..at + |t|] == s[..at] + t
    ensures Splice(s, at, t)[..at] == s[..at]
    ensures Splice(s, at, t)[hi..] == s[hi..]
  {
  }

  // ---- The three sections of a delta ----

  function DestroySection(ids: seq<u32>): Section {
    BodySection(EntityDestroy, PutDestroys(ids))
  }

  function CreateSection(schema: Schema, es: seq<EntitySnapshot>): Section {
    BodySection(EntityCreate, PutCreates(schema, es))
  }

  datatype UpdateEncoding = Masked | Sparse

  function UpdateSection(encoding: UpdateEncoding, schema: Schema, us: seq<UpdateEntity>): Section {
    match encoding
    case Masked => BodySection(EntityUpdate, PutMasked(schema, us))
    case Sparse => BodySection(EntityUpdateSparsePacked, PutSparse(Packed, schema, us))
  }

  method WriteDestroySection(baseline: seq<EntitySnapshot>, current: seq<EntitySnapshot>, count: nat,
                             limits: CodecLimits, out: array<byte>, lo: nat, hi: nat)
    returns (r: Option<nat>)
    requires lo <= hi <= out.Length
    requires Sorted(baseline) && Sorted(current) && count == |Missing(baseline, current)|
    modifies out
    ensures Appended(old(out[..]), out[..], lo, hi, r, count <= limits.maxEntitiesDestroy,
                     DestroySection(Ids(Missing(baseline, current))), limits)
  {
    hide BitsOf, PutDestroys, Missing, Pack, SectionBytes;
    if hi - lo < RESERVED {
      return None;
    }
    var w := OpenSection(out, lo, hi);
    var written := EncodeDestroyBody(baseline, current, count, limits, w);
    OutsideKept(old(out[..]), out[..], lo, hi);
    if written.Fail? {
      return None;
    }
    r := CloseSection(EntityDestroy, out, lo, hi, limits, w);
  }

  /** A writer that keeps to its slice leaves everything outside the section alone. */
  lemma OutsideKept(before: seq<byte>, after: seq<byte>, lo: nat, hi: nat)
    requires lo + RESERVED <= hi <= |before| == |after|
    requires after[..lo + RESERVED] == before[..lo + RESERVED]
    ensures after[..lo] == before[..lo]
  {
    assert after[..lo] == after[..lo + RESERVED][..lo];
  }
}
