/**
 * Where an image's segments are in memory: the parser's packed `_data`
 * word (constructor, header(), isRaw(), inRawCache()), the two variants of
 * getLayoutInfo, and the address translations built on them
 * (getLinkEditContent and the content address forEachSection reports).
 */
module Layout {
  import opened Wrappers
  import opened Bytes
  import opened LoadCommands
  import opened Seqs
  import opened Segments

  // ------------------------------------------------------------ _data bits

  /** Which constructor is compiled: the in-process one stores the header address alone. */
  datatype Build = InProcess | OutOfProcess

  /**
   * The constructor's `_data`: the header address with bit 0 set for a raw
   * file outside the dyld cache, or bit 1 set for an image of a raw cache.
   */
  function ParserData(build: Build, mh: nat, headerFlags: nat, dyldCacheIsRaw: bool): nat
  {
    if build == InProcess then mh
    else if !HasBit(headerFlags, 31) then mh + 1
    else if dyldCacheIsRaw then mh + 2
    else mh
  }

  /** header(): `_data & -4` */
  function HeaderOf(data: nat): nat { data - data % 4 }

  /** isRaw(): `_data & 1` */
  predicate IsRaw(data: nat) { data % 2 == 1 }

  /** inRawCache(): `_data & 2` */
  predicate InRawCache(data: nat) { (data / 2) % 2 == 1 }

  /**
   * The constructor and the accessors undo each other for a 4-byte aligned
   * header: header() gives the address back, isRaw() is set exactly for
   * images outside the cache of the out-of-process build, and inRawCache()
   * exactly for cache images when the cache is raw.
   */
  lemma ParserDataRoundTrip(build: Build, mh: nat, headerFlags: nat, dyldCacheIsRaw: bool)
    requires mh % 4 == 0
    ensures HeaderOf(ParserData(build, mh, headerFlags, dyldCacheIsRaw)) == mh
    ensures IsRaw(ParserData(build, mh, headerFlags, dyldCacheIsRaw)) <==> build == OutOfProcess && !HasBit(headerFlags, 31)
    ensures InRawCache(ParserData(build, mh, headerFlags, dyldCacheIsRaw)) <==>
              build == OutOfProcess && HasBit(headerFlags, 31) && dyldCacheIsRaw
  {
    var q := mh / 4;
    assert mh == 4 * q;
    assert (mh + 1) % 4 == 1 && (mh + 1) % 2 == 1 && ((mh + 1) / 2) % 2 == 0 by {
      assert mh + 1 == 4 * q + 1;
      assert (mh + 1) / 2 == 2 * q;
    }
    assert (mh + 2) % 4 == 2 && (mh + 2) % 2 == 0 && ((mh + 2) / 2) % 2 == 1 by {
      assert mh + 2 == 4 * q + 2;
      assert (mh + 2) / 2 == 2 * q + 1;
    }
    assert mh % 2 == 0 && (mh / 2) % 2 == 0 by {
      assert mh / 2 == 2 * q;
    }
  }

  // ------------------------------------------------- in-process layout

  /** The `LayoutInfo` compiled in-process: pointer-width words plus a 32-bit file offset. */
  datatype LayoutInfo = LayoutInfo(slide: nat, textUnslidVMAddr: nat, linkeditUnslidVMAddr: nat, linkeditFileOffset: nat)

  /**
   * MachOParser::getLayoutInfo, in-process: the slide from getSlide, then a
   * pass over the segments in which every `__TEXT` overwrites the text
   * address and every `__LINKEDIT` the link-edit address and file offset.
   * Fields no segment writes keep what `result` held.
   */
  method GetLayoutInfo(img: Image, result: LayoutInfo) returns (r: LayoutInfo)
    ensures r == InProcessLayout(img, AllSegments(img), result)
  {
    var segs := AllSegments(img);
    var slide := WrapPtr(img, GetSlide(img));
    r := result.(slide := slide);
    for k := 0 to |segs|
      invariant r.slide == slide
      invariant r.textUnslidVMAddr == LastTextAddress(img, segs[..k], result.textUnslidVMAddr)
      invariant r.linkeditUnslidVMAddr == LastLinkEdit(img, segs[..k], result).linkeditUnslidVMAddr
      invariant r.linkeditFileOffset == LastLinkEdit(img, segs[..k], result).linkeditFileOffset
    {
      LayoutStep(img, segs, k, result);
      if IsText(segs[k]) {
        r := r.(textUnslidVMAddr := WrapPtr(img, segs[k].vmAddr));
      } else if IsLinkEdit(segs[k]) {
        r := r.(linkeditUnslidVMAddr := WrapPtr(img, segs[k].vmAddr), linkeditFileOffset := segs[k].fileOffset);
      }
    }
    assert segs[..|segs|] == segs;
  }

  /** One more segment: a `__TEXT` overwrites the text address, a `__LINKEDIT` the link-edit fields. */
  lemma LayoutStep(img: Image, segs: seq<Segment>, k: nat, result: LayoutInfo)
    requires k < |segs|
    ensures LastTextAddress(img, segs[..k + 1], result.textUnslidVMAddr) ==
              if IsText(segs[k]) then WrapPtr(img, segs[k].vmAddr) else LastTextAddress(img, segs[..k], result.textUnslidVMAddr)
    ensures LastLinkEdit(img, segs[..k + 1], result) ==
              if IsLinkEdit(segs[k]) then result.(linkeditUnslidVMAddr := WrapPtr(img, segs[k].vmAddr), linkeditFileOffset := segs[k].fileOffset)
              else LastLinkEdit(img, segs[..k], result)
  {
    LastIndexStep(segs, k, IsText);
    LastIndexStep(segs, k, IsLinkEdit);
  }

  /** The in-process `LayoutInfo` after the segments `segs` were visited, starting from `init`. */
  function InProcessLayout(img: Image, segs: seq<Segment>, init: LayoutInfo): LayoutInfo
  {
    LastLinkEdit(img, segs, init).(slide := WrapPtr(img, GetSlide(img)),
                                   textUnslidVMAddr := LastTextAddress(img, segs, init.textUnslidVMAddr))
  }

  /** The text address after visiting `segs`: each `__TEXT` overwrites it. */
  function LastTextAddress(img: Image, segs: seq<Segment>, init: nat): nat
  {
    match LastIndex(segs, IsText)
    case None => init
    case Some(i) => WrapPtr(img, segs[i].vmAddr)
  }

  /** The link-edit fields after visiting `segs`: each `__LINKEDIT` overwrites them. */
  function LastLinkEdit(img: Image, segs: seq<Segment>, init: LayoutInfo): LayoutInfo
  {
    match LastIndex(segs, IsLinkEdit)
    case None => init
    case Some(i) => init.(linkeditUnslidVMAddr := WrapPtr(img, segs[i].vmAddr), linkeditFileOffset := segs[i].fileOffset)
  }

  /**
   * What getLayoutInfo leaves in-process after visiting `segs`: the last
   * `__TEXT` and the last `__LINKEDIT` segment decide, and fields no segment
   * writes keep their old value.
   */
  lemma LayoutInfoLastWins(img: Image, segs: seq<Segment>, result: LayoutInfo, r: LayoutInfo)
    requires r.textUnslidVMAddr == LastTextAddress(img, segs, result.textUnslidVMAddr)
    requires r.linkeditUnslidVMAddr == LastLinkEdit(img, segs, result).linkeditUnslidVMAddr
    requires r.linkeditFileOffset == LastLinkEdit(img, segs, result).linkeditFileOffset
    ensures (forall j :: 0 <= j < |segs| ==> !IsText(segs[j])) ==> r.textUnslidVMAddr == result.textUnslidVMAddr
    ensures forall i :: 0 <= i < |segs| && IsText(segs[i]) && (forall j :: i < j < |segs| ==> !IsText(segs[j])) ==>
              r.textUnslidVMAddr == WrapPtr(img, segs[i].vmAddr)
    ensures (forall j :: 0 <= j < |segs| ==> !IsLinkEdit(segs[j])) ==>
              r.linkeditUnslidVMAddr == result.linkeditUnslidVMAddr && r.linkeditFileOffset == result.linkeditFileOffset
    ensures forall i :: 0 <= i < |segs| && IsLinkEdit(segs[i]) && (forall j :: i < j < |segs| ==> !IsLinkEdit(segs[j])) ==>
              r.linkeditUnslidVMAddr == WrapPtr(img, segs[i].vmAddr) && r.linkeditFileOffset == segs[i].fileOffset
  {
    LastIndexIsLast(segs, IsText);
    LastIndexIsLast(segs, IsLinkEdit);
  }

  /**
   * MachOParser::getLinkEditContent, in-process: the distance from the
   * link-edit file offset, cut to 32 bits, added to the slid link-edit
   * address.
   */
  function LinkEditContent(img: Image, info: LayoutInfo, fileOffset: nat): (addr: nat)
    requires fileOffset < TWO_32 && info.linkeditFileOffset < TWO_32
    ensures info.linkeditFileOffset <= fileOffset ==>
              addr == WrapPtr(img, info.linkeditUnslidVMAddr + info.slide + (fileOffset - info.linkeditFileOffset))
  {
    var offsetInLinkedit := Wrap32(fileOffset - info.linkeditFileOffset);
    var linkeditStart := WrapPtr(img, info.linkeditUnslidVMAddr + info.slide);
    WrapPtrAdd(img, info.linkeditUnslidVMAddr + info.slide, offsetInLinkedit);
    WrapPtr(img, linkeditStart + offsetInLinkedit)
  }

  /** Reducing an operand first does not change a pointer-width sum. */
  lemma WrapPtrAdd(img: Image, a: int, b: int)
    ensures WrapPtr(img, WrapPtr(img, a) + b) == WrapPtr(img, a + b)
  {
    if img.lp64 {
      Wrap64Add(Wrap64(a), a, b);
    } else {
      Wrap32Add(Wrap32(a), a, b);
    }
  }

  /**
   * The in-process content address of a section, as forEachSection hands it
   * on: the slid segment start plus the section's distance from it, which
   * is the slid section address.
   */
  function SectionContent(img: Image, info: LayoutInfo, s: Section): (addr: nat)
    ensures addr == WrapPtr(img, s.addr + info.slide)
  {
    var segContentStart := WrapPtr(img, s.segVMAddr + info.slide);
    var contentAddr := WrapPtr(img, segContentStart + Wrap64(s.addr - s.segVMAddr));
    WrapPtrAdd(img, s.segVMAddr + info.slide, Wrap64(s.addr - s.segVMAddr));
    WrapPtrWrap64(img, s.segVMAddr + info.slide, s.addr - s.segVMAddr);
    contentAddr
  }

  /** A 64-bit reduction of an operand does not change a pointer-width sum either. */
  lemma WrapPtrWrap64(img: Image, a: int, b: int)
    ensures WrapPtr(img, a + Wrap64(b)) == WrapPtr(img, a + b)
  {
    if img.lp64 {
      Wrap64Add(Wrap64(b), b, a);
    } else {
      var k := b / TWO_64;
      assert Wrap64(b) == b - TWO_64 * k;
      assert TWO_64 == TWO_32 * TWO_32;
      assert a + Wrap64(b) == a + b - TWO_32 * (TWO_32 * k);
      Wrap32Multiple(a + b, TWO_32 * k);
    }
  }

  /** With the slide getLayoutInfo stores, a section's content is at its address plus the slide. */
  lemma SectionContentSlid(img: Image, info: LayoutInfo, s: Section, slide: int)
    requires info.slide == WrapPtr(img, slide)
    ensures SectionContent(img, info, s) == WrapPtr(img, s.addr + slide)
  {
    WrapPtrAdd(img, slide, s.addr);
  }

  // --------------------------------------------- out-of-process layout

  /** How an image outside this process is mapped, from inDyldCache() and inRawCache(). */
  datatype Mapping = FileMapped | CacheMapped | RawCacheMapped

  function MappingOf(inCache: bool, rawCache: bool): Mapping
  {
    if !inCache then FileMapped else if rawCache then RawCacheMapped else CacheMapped
  }

  const S_ATTR_LOC_RELOC_BIT: nat := 8
  const S_ATTR_EXT_RELOC_BIT: nat := 9
  const VM_PROT_WRITE_BIT: nat := 1
  const VM_PROT_EXECUTE_BIT: nat := 2
  const LAYOUT_CAPACITY: nat := 128
  const NO_SEGMENT: nat := 0xFFFF_FFFF
  const TWO_61: nat := 0x2000_0000_0000_0000

  /**
   * One entry of the out-of-process `segments[128]` table. The last four
   * fields share one 64-bit word: three one-bit flags and a 61-bit size.
   */
  datatype SegmentInfo = SegmentInfo(mappingOffset: nat, fileOffset: nat, fileSize: nat, segUnslidAddress: nat,
                                     writable: bool, executable: bool, textRelocsAllowed: bool, segSize: nat)

  /** The `__TEXT` address and file offset seen so far; 0 and 0 before any. */
  function TextSoFar(segs: seq<Segment>): (nat, nat)
  {
    match LastIndex(segs, IsText)
    case None => (0, 0)
    case Some(i) => (segs[i].vmAddr, segs[i].fileOffset)
  }

  /**
   * For i386 images: whether some section of a segment with the same name
   * carries external or local relocations (text relocations allowed).
   */
  predicate TextRelocsAllowed(img: Image, segName: seq<byte>)
  {
    HasRelocSection(Sections(img), segName)
  }

  /** Some section in `sects` belongs to a segment named `segName` and has relocations. */
  predicate HasRelocSection(sects: seq<Section>, segName: seq<byte>)
  {
    exists i :: 0 <= i < |sects| && sects[i].segName == segName && HasRelocs(sects[i])
  }

  predicate HasRelocs(s: Section)
  {
    HasBit(s.flags, S_ATTR_EXT_RELOC_BIT) || HasBit(s.flags, S_ATTR_LOC_RELOC_BIT)
  }

  /**
   * The entry the visitor writes for segment `seg` once `text` holds the
   * `__TEXT` values seen up to and including `seg`.
   */
  function SegmentInfoOf(img: Image, seg: Segment, text: (nat, nat), mapping: Mapping, intel32: bool): (e: SegmentInfo)
    ensures e.segSize < TWO_61
  {
    var mappingOffset :=
      match mapping
      case RawCacheMapped => Wrap64(seg.fileOffset - text.1)
      case CacheMapped => Wrap64(seg.vmAddr - text.0)
      case FileMapped => seg.fileOffset;
    SegmentInfo(mappingOffset, seg.fileOffset, seg.fileSize, seg.vmAddr,
                HasBit(seg.protections, VM_PROT_WRITE_BIT), HasBit(seg.protections, VM_PROT_EXECUTE_BIT),
                intel32 && TextRelocsAllowed(img, seg.name), seg.vmSize % TWO_61)
  }

  /** Entry `k` of the table built from `segs`. */
  function EntryAt(img: Image, segs: seq<Segment>, k: nat, mapping: Mapping, intel32: bool): SegmentInfo
    requires k < |segs|
  {
    SegmentInfoOf(img, segs[k], TextSoFar(segs[..k + 1]), mapping, intel32)
  }

  lemma EntryFromText(img: Image, segs: seq<Segment>, k: nat, text: (nat, nat), mapping: Mapping, intel32: bool)
    requires k < |segs| && text == TextSoFar(segs[..k + 1])
    ensures SegmentInfoOf(img, segs[k], text, mapping, intel32) == EntryAt(img, segs, k, mapping, intel32)
  {
  }

  /** The number of entries getLayoutInfo fills: one per segment, 128 at most. */
  function SegmentCount(segs: seq<Segment>): (n: nat)
    ensures n <= LAYOUT_CAPACITY && n <= |segs|
    ensures n < LAYOUT_CAPACITY ==> n == |segs|
  {
    if |segs| < LAYOUT_CAPACITY then |segs| else LAYOUT_CAPACITY
  }

  /** `linkeditSegIndex` after `segs` were visited: the last `__LINKEDIT`, or 0xFFFFFFFF. */
  function LinkEditIndex(segs: seq<Segment>): nat
  {
    match LastIndex(segs, IsLinkEdit)
    case None => NO_SEGMENT
    case Some(i) => i
  }

  /** With at most 128 entries the index is 0xFFFFFFFF exactly when no segment is `__LINKEDIT`, else the last one. */
  lemma LinkEditIndexIsLast(segs: seq<Segment>)
    requires |segs| <= LAYOUT_CAPACITY
    ensures LinkEditIndex(segs) == NO_SEGMENT <==> forall j :: 0 <= j < |segs| ==> !IsLinkEdit(segs[j])
    ensures LinkEditIndex(segs) != NO_SEGMENT ==>
              var r := LinkEditIndex(segs);
              r < |segs| && IsLinkEdit(segs[r]) && forall j :: r < j < |segs| ==> !IsLinkEdit(segs[j])
  {
    LastIndexIsLast(segs, IsLinkEdit);
  }

  /**
   * MachOParser::getLayoutInfo, out-of-process: one entry per segment in
   * order, in `table[0 .. segmentCount)`, until the count passes 127;
   * `linkeditSegIndex` names the last `__LINKEDIT` entry. Entries past the
   * count are left as they were.
   */
  method GetLayoutInfoOutOfProcess(img: Image, mapping: Mapping, intel32: bool, table: array<SegmentInfo>)
    returns (segmentCount: nat, linkeditSegIndex: nat)
    requires table.Length == LAYOUT_CAPACITY
    modifies table
    ensures segmentCount == SegmentCount(AllSegments(img))
    ensures linkeditSegIndex == LinkEditIndex(AllSegments(img)[..segmentCount])
    ensures forall k :: 0 <= k < segmentCount ==> table[k] == EntryAt(img, AllSegments(img), k, mapping, intel32)
    ensures forall k :: segmentCount <= k < LAYOUT_CAPACITY ==> table[k] == old(table[k])
  {
    segmentCount, linkeditSegIndex := FillLayoutTable(img, AllSegments(img), mapping, intel32, table);
  }

  /** The segment visit of the out-of-process getLayoutInfo, over the segments `segs` in load-command order. */
  method FillLayoutTable(img: Image, segs: seq<Segment>, mapping: Mapping, intel32: bool, table: array<SegmentInfo>)
    returns (segmentCount: nat, linkeditSegIndex: nat)
    requires table.Length == LAYOUT_CAPACITY
    modifies table
    ensures segmentCount == SegmentCount(segs)
    ensures linkeditSegIndex == LinkEditIndex(segs[..segmentCount])
    ensures forall k :: 0 <= k < segmentCount ==> table[k] == EntryAt(img, segs, k, mapping, intel32)
    ensures forall k :: segmentCount <= k < LAYOUT_CAPACITY ==> table[k] == old(table[k])
  {
    var n := SegmentCount(segs);
    var textSegAddr: nat, textSegFileOffset: nat := 0, 0;
    segmentCount, linkeditSegIndex := 0, NO_SEGMENT;
    ghost var written: seq<SegmentInfo> := [];
    while segmentCount < n
      invariant segmentCount <= n
      invariant (textSegAddr, textSegFileOffset) == TextSoFar(segs[..segmentCount])
      invariant linkeditSegIndex == LinkEditIndex(segs[..segmentCount])
      invariant |written| == segmentCount && table[..segmentCount] == written
      invariant forall k :: 0 <= k < segmentCount ==> written[k] == EntryAt(img, segs, k, mapping, intel32)
      invariant forall k :: segmentCount <= k < LAYOUT_CAPACITY ==> table[k] == old(table[k])
      decreases n - segmentCount
    {
      var seg := segs[segmentCount];
      LastIndexStep(segs, segmentCount, IsText);
      LastIndexStep(segs, segmentCount, IsLinkEdit);
      if IsText(seg) {
        textSegAddr, textSegFileOffset := seg.vmAddr, seg.fileOffset;
      }
      EntryFromText(img, segs, segmentCount, (textSegAddr, textSegFileOffset), mapping, intel32);
      table[segmentCount] := SegmentInfoOf(img, seg, (textSegAddr, textSegFileOffset), mapping, intel32);
      written := written + [table[segmentCount]];
      assert table[..segmentCount + 1] == table[..segmentCount] + [table[segmentCount]];
      if IsLinkEdit(seg) {
        linkeditSegIndex := segmentCount;
      }
      segmentCount := segmentCount + 1;
    }
  }

  /**
   * The three mapping modes: an image mapped as a file is at its file
   * offsets; in a raw cache a segment is at its file distance from
   * `__TEXT`, in a loaded cache at its VM distance; before any `__TEXT`
   * those distances are from 0.
   */
  lemma MappingOffsetModes(img: Image, segs: seq<Segment>, k: nat, mapping: Mapping, intel32: bool)
    requires k < |segs|
    ensures var e := EntryAt(img, segs, k, mapping, intel32);
      && (mapping == FileMapped ==> e.mappingOffset == segs[k].fileOffset)
      && ((forall j :: 0 <= j <= k ==> !IsText(segs[j])) && mapping == RawCacheMapped ==> e.mappingOffset == Wrap64(segs[k].fileOffset))
      && ((forall j :: 0 <= j <= k ==> !IsText(segs[j])) && mapping == CacheMapped ==> e.mappingOffset == Wrap64(segs[k].vmAddr))
      && (IsText(segs[k]) && mapping != FileMapped ==> e.mappingOffset == 0)
  {
    var prefix := segs[..k + 1];
    LastIndexIsLast(prefix, IsText);
    assert forall j :: 0 <= j <= k ==> prefix[j] == segs[j];
  }

  /**
   * The out-of-process getLinkEditContent: the distance from the link-edit
   * entry's file offset, cut to 32 bits, added to that entry's mapped start.
   */
  function LinkEditContentOutOfProcess(img: Image, table: seq<SegmentInfo>, linkeditSegIndex: nat, fileOffset: nat): (addr: nat)
    requires linkeditSegIndex < |table| && fileOffset < TWO_32
    ensures Wrap32(table[linkeditSegIndex].fileOffset) <= fileOffset ==>
              addr == WrapPtr(img, img.mh + table[linkeditSegIndex].mappingOffset + (fileOffset - Wrap32(table[linkeditSegIndex].fileOffset)))
  {
    var e := table[linkeditSegIndex];
    var offsetInLinkedit := Wrap32(fileOffset - Wrap32(e.fileOffset));
    WrapPtrAdd(img, img.mh + e.mappingOffset, offsetInLinkedit);
    WrapPtr(img, WrapPtr(img, img.mh + e.mappingOffset) + offsetInLinkedit)
  }

  /**
   * The out-of-process content address of a section: its segment's mapped
   * start plus its distance from the segment's VM address. A segment number
   * past the filled entries reads an entry getLayoutInfo never wrote: `None`.
   */
  function SectionContentOutOfProcess(img: Image, table: seq<SegmentInfo>, segmentCount: nat, s: Section): (addr: Option<nat>)
    requires segmentCount <= |table|
    ensures addr.Some? <==> s.segIndex < segmentCount
    ensures addr.Some? ==> addr.value == WrapPtr(img, img.mh + table[s.segIndex].mappingOffset + (s.addr - s.segVMAddr))
  {
    if s.segIndex >= segmentCount then None
    else
      var start := WrapPtr(img, img.mh + table[s.segIndex].mappingOffset);
      WrapPtrAdd(img, img.mh + table[s.segIndex].mappingOffset, Wrap64(s.addr - s.segVMAddr));
      WrapPtrWrap64(img, img.mh + table[s.segIndex].mappingOffset, s.addr - s.segVMAddr);
      Some(WrapPtr(img, start + Wrap64(s.addr - s.segVMAddr)))
  }
}
