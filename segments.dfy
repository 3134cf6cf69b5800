/**
 * Segments and sections as the parser enumerates them (forEachSegment,
 * forEachSection, greaterThanAddOrOverflow) and the queries answered from
 * the segment list (preferredLoadAddress, segmentName, getSlide). The
 * enumerators run the load-command walk with a private diagnostics object,
 * so they see the commands of `Walk` and report nothing.
 */
module Segments {
  import opened Wrappers
  import opened Bytes
  import opened LoadCommands
  import opened Seqs

  const LC_SEGMENT: nat := 0x1
  const LC_SEGMENT_64: nat := 0x19
  /** sizeof(segment_command) and sizeof(segment_command_64): the section headers follow. */
  const SEGMENT_COMMAND_SIZE: nat := 56
  const SEGMENT_COMMAND_64_SIZE: nat := 72
  /** sizeof(section) and sizeof(section_64) */
  const SECTION_SIZE: nat := 68
  const SECTION_64_SIZE: nat := 80

  /** "__TEXT" */
  const SEG_TEXT: seq<byte> := [0x5f, 0x5f, 0x54, 0x45, 0x58, 0x54]
  /** "__LINKEDIT" */
  const SEG_LINKEDIT: seq<byte> := [0x5f, 0x5f, 0x4c, 0x49, 0x4e, 0x4b, 0x45, 0x44, 0x49, 0x54]

  /**
   * What forEachSegment hands its visitor for one segment command: the name
   * (`segname` read as a C string), the file offset and size cut to 32 bits,
   * the VM address and size, and `initprot` cut to 8 bits.
   */
  datatype Segment = Segment(cmd: LoadCommand, name: seq<byte>, kind: SegmentKind, fileOffset: nat, fileSize: nat,
                             vmAddr: nat, vmSize: nat, protections: nat)

  predicate IsSegmentCommand(c: LoadCommand)
  {
    c.cmd == LC_SEGMENT_64 || c.cmd == LC_SEGMENT
  }

  function SegmentAt(img: Image, c: LoadCommand): (s: Segment)
    requires IsSegmentCommand(c)
    ensures s.cmd == c && s.name == CStringAt(img.mem, c.addr + 8) && s.kind == KindOf(s.name)
    ensures s.fileOffset < TWO_32 && s.fileSize < TWO_32 && s.protections < 256
    ensures c.cmd == LC_SEGMENT_64 ==> s.fileOffset == U64At(img.mem, c.addr + 40) % TWO_32
    ensures c.cmd == LC_SEGMENT ==> s.vmAddr < TWO_32 && s.vmSize < TWO_32
  {
    var m := img.mem;
    var a := c.addr;
    if c.cmd == LC_SEGMENT_64 then
      Segment(c, CStringAt(m, a + 8), KindOf(CStringAt(m, a + 8)), Wrap32(U64At(m, a + 40)), Wrap32(U64At(m, a + 48)),
              U64At(m, a + 24), U64At(m, a + 32), U32At(m, a + 60) % 256)
    else
      Segment(c, CStringAt(m, a + 8), KindOf(CStringAt(m, a + 8)), U32At(m, a + 32), U32At(m, a + 36),
              U32At(m, a + 24), U32At(m, a + 28), U32At(m, a + 44) % 256)
  }

  /** The segments among `cmds`, in order. */
  function SegmentList(img: Image, cmds: seq<LoadCommand>): (segs: seq<Segment>)
    ensures |segs| <= |cmds|
    ensures forall i :: 0 <= i < |segs| ==> segs[i].cmd in cmds && IsSegmentCommand(segs[i].cmd)
    ensures forall i :: 0 <= i < |segs| ==> segs[i] == SegmentAt(img, segs[i].cmd)
    decreases |cmds|
  {
    if |cmds| == 0 then []
    else
      var rest := SegmentList(img, cmds[1..]);
      if IsSegmentCommand(cmds[0]) then [SegmentAt(img, cmds[0])] + rest else rest
  }

  /**
   * The segment list is complete and ordered: one record per segment
   * command, in the order of the commands, so a segment command that
   * appears twice is reported twice.
   */
  lemma {:induction false} SegmentListExact(img: Image, cmds: seq<LoadCommand>)
    ensures |SegmentList(img, cmds)| == |Filter(cmds, IsSegmentCommand)|
    ensures forall i :: 0 <= i < |SegmentList(img, cmds)| ==>
              SegmentList(img, cmds)[i] == SegmentAt(img, Filter(cmds, IsSegmentCommand)[i])
    decreases |cmds|
  {
    if |cmds| > 0 {
      SegmentListExact(img, cmds[1..]);
      var segs, rest := SegmentList(img, cmds), SegmentList(img, cmds[1..]);
      var f, fr := Filter(cmds, IsSegmentCommand), Filter(cmds[1..], IsSegmentCommand);
      if IsSegmentCommand(cmds[0]) {
        assert f == [cmds[0]] + fr;
        assert segs == [SegmentAt(img, cmds[0])] + rest;
      } else {
        assert f == fr;
      }
    }
  }

  /** Every segment command of `cmds` is reported. */
  lemma SegmentListComplete(img: Image, cmds: seq<LoadCommand>, j: nat)
    requires j < |cmds| && IsSegmentCommand(cmds[j])
    ensures SegmentAt(img, cmds[j]) in SegmentList(img, cmds)
  {
    SegmentListExact(img, cmds);
    var f := Filter(cmds, IsSegmentCommand);
    assert cmds[j] in f;
    var i :| 0 <= i < |f| && f[i] == cmds[j];
    assert SegmentList(img, cmds)[i] == SegmentAt(img, cmds[j]);
  }

  /** MachOParser::forEachSegment with a visitor that never stops: every segment command of the walk. */
  function AllSegments(img: Image): seq<Segment>
  {
    SegmentList(img, Walk(img).cmds)
  }

  /**
   * The two names the visitors compare a segment's name against with
   * `strcmp`, decided once when the segment is read.
   */
  datatype SegmentKind = TextSegment | LinkEditSegment | OtherSegment

  function KindOf(name: seq<byte>): (k: SegmentKind)
    ensures k == TextSegment <==> name == SEG_TEXT
    ensures k == LinkEditSegment <==> name == SEG_LINKEDIT
  {
    if name == SEG_TEXT then TextSegment else if name == SEG_LINKEDIT then LinkEditSegment else OtherSegment
  }

  /** The segment is named `__TEXT`. */
  predicate IsText(s: Segment) { s.kind == TextSegment }

  /** The segment is named `__LINKEDIT`. */
  predicate IsLinkEdit(s: Segment) { s.kind == LinkEditSegment }

  /**
   * MachOParser::preferredLoadAddress: the VM address of the first segment
   * named `__TEXT`, 0 when there is none.
   */
  function PreferredLoadAddress(img: Image): nat
  {
    FirstTextAddress(AllSegments(img))
  }

  /** The VM address of the first `__TEXT` segment of `segs`, 0 when there is none. */
  function FirstTextAddress(segs: seq<Segment>): (r: nat)
    ensures (forall j :: 0 <= j < |segs| ==> !IsText(segs[j])) ==> r == 0
    ensures forall i :: 0 <= i < |segs| && IsText(segs[i]) && (forall j :: 0 <= j < i ==> !IsText(segs[j]))
              ==> r == segs[i].vmAddr
  {
    match FirstIndex(segs, IsText)
    case None => 0
    case Some(i) => segs[i].vmAddr
  }

  /**
   * MachOParser::segmentName: the visitor counts segments and stops at number
   * `segIndex`; past the last segment the result stays null.
   */
  function SegmentName(img: Image, segIndex: nat): (r: Option<seq<byte>>)
    ensures r.Some? <==> segIndex < |AllSegments(img)|
    ensures r.Some? ==> r.value == AllSegments(img)[segIndex].name
  {
    SegmentNameFrom(AllSegments(img), segIndex, 0)
  }

  /** The visitor of segmentName from segment number `cur` on. */
  function SegmentNameFrom(segs: seq<Segment>, target: nat, cur: nat): (r: Option<seq<byte>>)
    requires cur <= target
    ensures r.Some? <==> target - cur < |segs|
    ensures r.Some? ==> r.value == segs[target - cur].name
    decreases |segs|
  {
    if |segs| == 0 then None
    else if cur == target then Some(segs[0].name)
    else SegmentNameFrom(segs[1..], target, cur + 1)
  }

  /** The segment command kind getSlide looks at: the one of the build's pointer width. */
  function NativeSegment(img: Image): (pred: Segment -> bool)
  {
    if img.lp64 then IsText64 else IsText32
  }

  predicate IsText64(s: Segment) { IsText(s) && s.cmd.cmd == LC_SEGMENT_64 }

  predicate IsText32(s: Segment) { IsText(s) && s.cmd.cmd == LC_SEGMENT }

  /** `intptr_t` at the build's pointer width. */
  function SignedPtr(img: Image, u: nat): (r: int)
    requires u < (if img.lp64 then TWO_64 else TWO_32)
    ensures WrapPtr(img, r) == u
    ensures if img.lp64 then -TWO_64 / 2 <= r < TWO_64 / 2 else -TWO_32 / 2 <= r < TWO_32 / 2
  {
    if img.lp64 then Signed64(u) else Signed32(u)
  }

  /**
   * MachOParser::getSlide: the header address minus the VM address of the
   * first `__TEXT` segment of the native kind, in pointer-width arithmetic,
   * read as `intptr_t`; 0 when there is no such segment.
   */
  function GetSlide(img: Image): int
  {
    SlideFrom(img, AllSegments(img))
  }

  function SlideFrom(img: Image, segs: seq<Segment>): (slide: int)
    ensures (forall j :: 0 <= j < |segs| ==> !NativeSegment(img)(segs[j])) ==> slide == 0
    ensures forall i :: 0 <= i < |segs| && NativeSegment(img)(segs[i]) && (forall j :: 0 <= j < i ==> !NativeSegment(img)(segs[j]))
              ==> slide == SlideFor(img, segs[i].vmAddr)
  {
    match FirstIndex(segs, NativeSegment(img))
    case None => 0
    case Some(i) => SlideFor(img, segs[i].vmAddr)
  }

  /**
   * `(uintptr_t)header - vmaddr` read as `intptr_t`: the signed amount that
   * moves `vmAddr` onto the header address in pointer-width arithmetic.
   */
  function SlideFor(img: Image, vmAddr: nat): (slide: int)
    ensures WrapPtr(img, vmAddr + slide) == WrapPtr(img, img.mh)
    ensures if img.lp64 then -TWO_64 / 2 <= slide < TWO_64 / 2 else -TWO_32 / 2 <= slide < TWO_32 / 2
  {
    var slide := SignedPtr(img, WrapPtr(img, WrapPtr(img, img.mh) - vmAddr));
    SlideAdds(img, img.mh, vmAddr, slide);
    slide
  }

  /** Pointer-width subtraction undone by addition. */
  lemma SlideAdds(img: Image, mh: int, vmAddr: nat, slide: int)
    requires WrapPtr(img, slide) == WrapPtr(img, WrapPtr(img, mh) - vmAddr)
    ensures WrapPtr(img, vmAddr + slide) == WrapPtr(img, mh)
  {
    if img.lp64 {
      Wrap64Add(slide, Wrap64(mh) - vmAddr, vmAddr);
      Wrap64Add(Wrap64(mh), mh, 0);
    } else {
      Wrap32Add(slide, Wrap32(mh) - vmAddr, vmAddr);
      Wrap32Add(Wrap32(mh), mh, 0);
    }
  }

  // ---------------------------------------------------------------- sections

  /**
   * greaterThanAddOrOverflow on `uint64_t`: `a > c`, or else `b > c - a`,
   * where the subtraction cannot wrap. This is `a + b > c` without the sum
   * ever overflowing.
   */
  function GreaterThanAddOrOverflow(a: nat, b: nat, c: nat): (r: bool)
    requires a < TWO_64 && b < TWO_64 && c < TWO_64
    ensures r <==> a + b > c
  {
    a > c || b > Wrap64(c - a)
  }

  /**
   * What forEachSection hands its visitor for one section header: the
   * segment's name, number and VM address; the section's name (at most 16
   * characters), flags, address, size, alignment and reserved words; and
   * whether the section lies outside its segment.
   */
  datatype Section = Section(segName: seq<byte>, segIndex: nat, segVMAddr: nat, sectName: seq<byte>, flags: nat,
                             addr: nat, size: nat, align: nat, reserved1: nat, reserved2: nat, illegalSize: bool)

  /** The segment's end as forEachSection computes it, `vmaddr + filesize` in the command's word size. */
  function SegmentEnd(img: Image, seg: Segment): (r: nat)
    requires IsSegmentCommand(seg.cmd)
    ensures r < TWO_64
  {
    var a := seg.cmd.addr;
    if seg.cmd.cmd == LC_SEGMENT_64 then Wrap64(U64At(img.mem, a + 24) + U64At(img.mem, a + 48))
    else Wrap32(U32At(img.mem, a + 24) + U32At(img.mem, a + 36))
  }

  /** Section header `k` of the segment command `seg`, number `segIndex` among the segments. */
  function SectionAt(img: Image, seg: Segment, segIndex: nat, k: nat): (s: Section)
    requires IsSegmentCommand(seg.cmd)
    ensures s.segName == seg.name && s.segIndex == segIndex && s.segVMAddr == seg.vmAddr
    ensures |s.sectName| <= 16
    ensures !s.illegalSize <==> seg.vmAddr <= s.addr && s.addr + s.size <= SegmentEnd(img, seg)
  {
    var m := img.mem;
    if seg.cmd.cmd == LC_SEGMENT_64 then
      var h := seg.cmd.addr + SEGMENT_COMMAND_64_SIZE + k * SECTION_64_SIZE;
      var addr := U64At(m, h + 32);
      var size := U64At(m, h + 40);
      Section(seg.name, segIndex, seg.vmAddr, FixedName(m, h, 16), U32At(m, h + 64), addr, size,
              U32At(m, h + 52), U32At(m, h + 68), U32At(m, h + 72),
              addr < seg.vmAddr || GreaterThanAddOrOverflow(addr, size, SegmentEnd(img, seg)))
    else
      var h := seg.cmd.addr + SEGMENT_COMMAND_SIZE + k * SECTION_SIZE;
      var addr := U32At(m, h + 32);
      var size := U32At(m, h + 36);
      Section(seg.name, segIndex, seg.vmAddr, FixedName(m, h, 16), U32At(m, h + 56), addr, size,
              U32At(m, h + 44), U32At(m, h + 60), U32At(m, h + 64),
              addr < seg.vmAddr || GreaterThanAddOrOverflow(addr, size, SegmentEnd(img, seg)))
  }

  /** The `nsects` field of a segment command. */
  function NSects(img: Image, seg: Segment): nat
  {
    if seg.cmd.cmd == LC_SEGMENT_64 then U32At(img.mem, seg.cmd.addr + 64) else U32At(img.mem, seg.cmd.addr + 48)
  }

  /** Section headers `k` up to `n` of one segment. */
  function SectionsFrom(img: Image, seg: Segment, segIndex: nat, k: nat, n: nat): (r: seq<Section>)
    requires IsSegmentCommand(seg.cmd)
    ensures |r| == if k <= n then n - k else 0
    ensures forall j :: 0 <= j < |r| ==> r[j].segIndex == segIndex
    decreases n - k
  {
    if k >= n then [] else [SectionAt(img, seg, segIndex, k)] + SectionsFrom(img, seg, segIndex, k + 1, n)
  }

  /**
   * MachOParser::forEachSection (the walk over the segment and section
   * arrays) with a visitor that never stops: the sections of every segment
   * in order, segment `i` of `segs` numbered `first + i`. A visitor that
   * stops ends the section loop and the command walk together, so it sees
   * a prefix of this sequence.
   */
  function SectionList(img: Image, segs: seq<Segment>, first: nat): (r: seq<Section>)
    requires forall i :: 0 <= i < |segs| ==> IsSegmentCommand(segs[i].cmd)
    ensures forall j :: 0 <= j < |r| ==> first <= r[j].segIndex < first + |segs|
    decreases |segs|
  {
    if |segs| == 0 then []
    else SectionsFrom(img, segs[0], first, 0, NSects(img, segs[0])) + SectionList(img, segs[1..], first + 1)
  }

  function Sections(img: Image): seq<Section>
  {
    SectionList(img, AllSegments(img), 0)
  }
}
