/**
 * The process-wide lookups of ffi-iOSDemo/MachO/macho_dlfcn.cpp:
 * hmd_image_find_sym scans one image's classic symbol table, macho_dlsym
 * asks each loaded image's parser for the export, and macho_lookup_sym
 * falls back from macho_dlsym to the symbol tables with a strong/weak rule.
 *
 * The loaded images (`_dyld_image_count`, `_dyld_get_image_name`,
 * `_dyld_get_image_header`, `_dyld_get_image_vmaddr_slide`) are an input
 * sequence; all images share the process memory. Pointers are numbers, 0
 * standing for null, and pointer sums wrap at the width of the process.
 */
module Dlfcn {
  import opened Wrappers
  import opened Bytes
  import opened LoadCommands
  import opened Segments
  import opened LinkEdit
  import opened Trie
  import opened Exports

  /** `N_WEAK_DEF` (0x0080) of `<mach-o/nlist.h>`, a bit of `n_desc`. */
  const N_WEAK_DEF_BIT: nat := 7
  /** '_' */
  const UNDERSCORE: byte := 0x5f
  /** "dyld_sim" */
  const DYLD_SIM_INAME: seq<byte> := [0x64, 0x79, 0x6c, 0x64, 0x5f, 0x73, 0x69, 0x6d]

  /** One loaded image as the `_dyld_get_image_*` accessors report it; a null name is `None`. */
  datatype LoadedImage = LoadedImage(name: Option<seq<byte>>, header: nat, slide: int)

  /** The process: its memory, whether it is built `__LP64__`, and its images in load order. */
  datatype Process = Process(mem: Memory, lp64: bool, images: seq<LoadedImage>)

  function ImageOf(p: Process, i: nat): Image
    requires i < |p.images|
  {
    Image(p.mem, p.images[i].header, p.lp64)
  }

  /** The `'_'`-prefixed name both lookups search for. */
  function Underscored(name: seq<byte>): seq<byte>
  {
    [UNDERSCORE] + name
  }

  lemma UnderscoredIsCString(name: seq<byte>)
    requires CString(name)
    ensures CString(Underscored(name))
  {
  }

  // ------------------------------------------------------------- hmd_image_find_sym

  /** `sizeof(mach_header_t)`: the first command follows the header. */
  function HeaderSize(img: Image): nat
  {
    if img.lp64 then MACH_HEADER_64_SIZE else MACH_HEADER_SIZE
  }

  /** `LC_SEGMENT_CMD` */
  function SegmentCommand(img: Image): nat
  {
    if img.lp64 then LC_SEGMENT_64 else LC_SEGMENT
  }

  /** `sizeof(nlist_t)` */
  function NlistSize(img: Image): nat
  {
    if img.lp64 then NLIST_64_SIZE else NLIST_32_SIZE
  }

  const NLIST_64_SIZE: nat := 16
  const NLIST_32_SIZE: nat := 12

  /** `symb_command` and `linkedit_command` as pointers, 0 while not found. */
  datatype Commands = Commands(symtab: nat, linkedit: nat)

  predicate IsLinkEditSegment(img: Image, ptr: nat)
  {
    U32At(img.mem, ptr) == SegmentCommand(img) && CStringAt(img.mem, ptr + 8) == SEG_LINKEDIT
  }

  /** The command at `ptr` noted: an `LC_SYMTAB`, or else a segment named `__LINKEDIT`, replaces the earlier one. */
  function Note(img: Image, ptr: nat, f: Commands): Commands
  {
    if U32At(img.mem, ptr) == LC_SYMTAB then f.(symtab := ptr)
    else if IsLinkEditSegment(img, ptr) then f.(linkedit := ptr)
    else f
  }

  /** The next command: `cmd_ptr += cmdsize`, unchecked. */
  function NextCommand(img: Image, ptr: nat): nat
  {
    WrapPtr(img, ptr + CmdSizeAt(img, ptr))
  }

  /**
   * The command loop from command `i` at `ptr`: it stops after `ncmds`
   * commands, or as soon as both commands have been found.
   */
  function ScanCommands(img: Image, i: nat, ptr: nat, f: Commands): Commands
    decreases NCmds(img) - i
  {
    if i >= NCmds(img) then f
    else
      var f' := Note(img, ptr, f);
      if f'.symtab != 0 && f'.linkedit != 0 then f'
      else ScanCommands(img, i + 1, NextCommand(img, ptr), f')
  }

  /** The `k`-th command after the one at `ptr`, following `cmdsize`. */
  function CommandPtr(img: Image, ptr: nat, k: nat): nat
    decreases k
  {
    if k == 0 then ptr else CommandPtr(img, NextCommand(img, ptr), k - 1)
  }

  /** What was found is what was looked for: an `LC_SYMTAB` and a `__LINKEDIT` segment command. */
  predicate Genuine(img: Image, f: Commands)
  {
    && (f.symtab != 0 ==> U32At(img.mem, f.symtab) == LC_SYMTAB)
    && (f.linkedit != 0 ==> IsLinkEditSegment(img, f.linkedit))
  }

  lemma {:induction false} ScanCommandsGenuine(img: Image, i: nat, ptr: nat, f: Commands)
    requires Genuine(img, f)
    ensures Genuine(img, ScanCommands(img, i, ptr, f))
    decreases NCmds(img) - i
  {
    if i < NCmds(img) {
      var f' := Note(img, ptr, f);
      if !(f'.symtab != 0 && f'.linkedit != 0) {
        ScanCommandsGenuine(img, i + 1, NextCommand(img, ptr), f');
      }
    }
  }

  /** The commands the loop may reach from command `i` at `ptr` all lie at non-null addresses. */
  predicate NonNullChain(img: Image, i: nat, ptr: nat)
    decreases NCmds(img) - i
  {
    i < NCmds(img) ==> ptr != 0 && NonNullChain(img, i + 1, NextCommand(img, ptr))
  }

  /**
   * A command that is missing after the loop is missing from all the
   * commands up to `ncmds`, as long as none of them sits at the null
   * address: the loop only stops early once both are found.
   */
  lemma {:induction false} ScanCommandsComplete(img: Image, i: nat, ptr: nat, f: Commands)
    requires i <= NCmds(img) && NonNullChain(img, i, ptr)
    ensures var r := ScanCommands(img, i, ptr, f);
      && (r.symtab == 0 ==> forall k :: 0 <= k < NCmds(img) - i ==> U32At(img.mem, CommandPtr(img, ptr, k)) != LC_SYMTAB)
      && (r.linkedit == 0 ==> forall k :: 0 <= k < NCmds(img) - i ==> !IsLinkEditSegment(img, CommandPtr(img, ptr, k)))
    decreases NCmds(img) - i
  {
    if i < NCmds(img) {
      var f' := Note(img, ptr, f);
      var r := ScanCommands(img, i, ptr, f);
      if !(f'.symtab != 0 && f'.linkedit != 0) {
        var next := NextCommand(img, ptr);
        ScanCommandsComplete(img, i + 1, next, f');
        assert r == ScanCommands(img, i + 1, next, f');
        NotedStays(img, i + 1, next, f');
        forall k | 0 < k < NCmds(img) - i
          ensures CommandPtr(img, ptr, k) == CommandPtr(img, next, k - 1)
        {
        }
      }
    }
  }

  /** A command once found is never lost while the commands lie at non-null addresses. */
  lemma {:induction false} NotedStays(img: Image, i: nat, ptr: nat, f: Commands)
    requires NonNullChain(img, i, ptr)
    ensures f.symtab != 0 ==> ScanCommands(img, i, ptr, f).symtab != 0
    ensures f.linkedit != 0 ==> ScanCommands(img, i, ptr, f).linkedit != 0
    decreases NCmds(img) - i
  {
    if i < NCmds(img) {
      var f' := Note(img, ptr, f);
      if !(f'.symtab != 0 && f'.linkedit != 0) {
        NotedStays(img, i + 1, NextCommand(img, ptr), f');
      }
    }
  }

  /** One `nlist_t` entry as the scan reads it. */
  datatype Entry = Entry(strx: nat, desc: nat, value: nat)

  /** `symbol_table[i]` */
  function EntryAt(img: Image, table: nat, i: nat): Entry
  {
    var a := WrapPtr(img, table + NlistSize(img) * i);
    Entry(U32At(img.mem, a), U16At(img.mem, a + 6), if img.lp64 then U64At(img.mem, a + 8) else U32At(img.mem, a + 8))
  }

  /** Entry `i` is taken: a non-zero value and, by `strcmp`, the name `name`. */
  predicate Matches(img: Image, table: nat, strings: nat, i: nat, name: seq<byte>)
  {
    var e := EntryAt(img, table, i);
    e.value != 0 && CStringAt(img.mem, WrapPtr(img, strings + e.strx)) == name
  }

  /** The first entry from `i` on, below `n`, that is taken. */
  function FirstMatch(img: Image, table: nat, strings: nat, n: nat, name: seq<byte>, i: nat): Option<nat>
    decreases n - i
  {
    if i >= n then None
    else if Matches(img, table, strings, i, name) then Some(i)
    else FirstMatch(img, table, strings, n, name, i + 1)
  }

  /** FirstMatch finds the first entry taken. */
  lemma {:induction false} FirstMatchAt(img: Image, table: nat, strings: nat, n: nat, name: seq<byte>, i: nat, k: nat)
    requires i <= k < n && Matches(img, table, strings, k, name)
    requires forall j :: i <= j < k ==> !Matches(img, table, strings, j, name)
    ensures FirstMatch(img, table, strings, n, name, i) == Some(k)
    decreases k - i
  {
    if i < k {
      FirstMatchAt(img, table, strings, n, name, i + 1, k);
    }
  }

  /** FirstMatch finds nothing exactly when no entry is taken. */
  lemma {:induction false} FirstMatchNone(img: Image, table: nat, strings: nat, n: nat, name: seq<byte>, i: nat)
    ensures FirstMatch(img, table, strings, n, name, i).None? <==> forall j :: i <= j < n ==> !Matches(img, table, strings, j, name)
    decreases n - i
  {
    if i < n && !Matches(img, table, strings, i, name) {
      FirstMatchNone(img, table, strings, n, name, i + 1);
    }
  }

  /** `segment_base`: the `__LINKEDIT` segment's `vmaddr - fileoff`, slid. */
  function SegmentBase(img: Image, linkedit: nat, slide: int): nat
  {
    var m := img.mem;
    if img.lp64 then WrapPtr(img, U64At(m, linkedit + 24) - U64At(m, linkedit + 40) + slide)
    else WrapPtr(img, U32At(m, linkedit + 24) - U32At(m, linkedit + 32) + slide)
  }

  /** Where the symbol table, the string table and the symbol count of an image are. */
  datatype Tables = Tables(symbols: nat, strings: nat, nsyms: nat)

  function TablesOf(img: Image, f: Commands, slide: int): Tables
  {
    var base := SegmentBase(img, f.linkedit, slide);
    Tables(WrapPtr(img, base + U32At(img.mem, f.symtab + 8)), WrapPtr(img, base + U32At(img.mem, f.symtab + 16)),
           U32At(img.mem, f.symtab + 12))
  }

  /**
   * What hmd_image_find_sym returns and what it writes to `*is_weak`
   * (`None`: nothing written).
   */
  datatype FindResult = FindResult(addr: nat, weak: Option<bool>)

  /** The commands the loop finds in `img`. */
  function CommandsOf(img: Image): Commands
  {
    ScanCommands(img, 0, WrapPtr(img, img.mh + HeaderSize(img)), Commands(0, 0))
  }

  function ImageFindSym(img: Image, slide: int, name: seq<byte>): FindResult
  {
    if img.mh == 0 then FindResult(0, None)
    else
      var f := CommandsOf(img);
      if f.symtab == 0 || f.linkedit == 0 then FindResult(0, None)
      else
        var t := TablesOf(img, f, slide);
        FoundAt(img, t.symbols, slide, FirstMatch(img, t.symbols, t.strings, t.nsyms, name, 0))
  }

  /** hmd_image_find_sym finds nothing for a null image, without both commands, or when no entry is taken. */
  lemma ImageFindSymNone(img: Image, slide: int, name: seq<byte>, f: Commands, t: Tables)
    requires f == CommandsOf(img) && t == TablesOf(img, f, slide)
    ensures img.mh == 0 || f.symtab == 0 || f.linkedit == 0 ==> ImageFindSym(img, slide, name) == FindResult(0, None)
    ensures img.mh != 0 && f.symtab != 0 && f.linkedit != 0 ==>
              (ImageFindSym(img, slide, name).weak.None? <==>
                 forall j :: 0 <= j < t.nsyms ==> !Matches(img, t.symbols, t.strings, j, name))
  {
    FirstMatchNone(img, t.symbols, t.strings, t.nsyms, name, 0);
  }

  /**
   * Otherwise the first entry of the table with a non-zero value and the
   * name is taken: its value slid, and its `N_WEAK_DEF` bit for `*is_weak`.
   */
  lemma ImageFindSymFirstMatch(img: Image, slide: int, name: seq<byte>, f: Commands, t: Tables, k: nat)
    requires f == CommandsOf(img) && t == TablesOf(img, f, slide)
    requires img.mh != 0 && f.symtab != 0 && f.linkedit != 0
    requires k < t.nsyms && Matches(img, t.symbols, t.strings, k, name)
    requires forall j :: 0 <= j < k ==> !Matches(img, t.symbols, t.strings, j, name)
    ensures ImageFindSym(img, slide, name) ==
              FindResult(WrapPtr(img, EntryAt(img, t.symbols, k).value + slide),
                         Some(HasBit(EntryAt(img, t.symbols, k).desc, N_WEAK_DEF_BIT)))
  {
    FirstMatchAt(img, t.symbols, t.strings, t.nsyms, name, 0, k);
  }

  /** The result for the first entry taken, if any. */
  function FoundAt(img: Image, table: nat, slide: int, m: Option<nat>): FindResult
  {
    match m
    case None => FindResult(0, None)
    case Some(k) =>
      var e := EntryAt(img, table, k);
      FindResult(WrapPtr(img, e.value + slide), Some(HasBit(e.desc, N_WEAK_DEF_BIT)))
  }

  /** ffi-iOSDemo/MachO/macho_dlfcn.cpp hmd_image_find_sym; `isWeak0` is what `*is_weak` held. */
  method HmdImageFindSym(img: Image, slide: int, name: seq<byte>, isWeak0: bool) returns (addr: nat, isWeak: bool)
    ensures var r := ImageFindSym(img, slide, name);
      addr == r.addr && isWeak == (if r.weak.Some? then r.weak.value else isWeak0)
  {
    if img.mh == 0 {
      return 0, isWeak0;
    }
    var f := FindCommands(img);
    if f.symtab == 0 || f.linkedit == 0 {
      return 0, isWeak0;
    }
    var t := TablesOf(img, f, slide);
    addr, isWeak := FindSymbol(img, t, slide, name, isWeak0);
  }

  /** The symbol loop of hmd_image_find_sym. */
  method FindSymbol(img: Image, t: Tables, slide: int, name: seq<byte>, isWeak0: bool) returns (addr: nat, isWeak: bool)
    ensures var r := FoundAt(img, t.symbols, slide, FirstMatch(img, t.symbols, t.strings, t.nsyms, name, 0));
      addr == r.addr && isWeak == (if r.weak.Some? then r.weak.value else isWeak0)
  {
    ghost var goal := FirstMatch(img, t.symbols, t.strings, t.nsyms, name, 0);
    var k: nat := 0;
    while k < t.nsyms
      invariant FirstMatch(img, t.symbols, t.strings, t.nsyms, name, k) == goal
      decreases t.nsyms - k
    {
      var e := EntryAt(img, t.symbols, k);
      if e.value != 0 {
        if CStringAt(img.mem, WrapPtr(img, t.strings + e.strx)) == name {
          return WrapPtr(img, e.value + slide), HasBit(e.desc, N_WEAK_DEF_BIT);
        }
      }
      k := k + 1;
    }
    return 0, isWeak0;
  }

  /** The command loop of hmd_image_find_sym. */
  method FindCommands(img: Image) returns (f: Commands)
    ensures f == CommandsOf(img)
  {
    var symtab: nat, linkedit: nat := 0, 0;
    var ptr := WrapPtr(img, img.mh + HeaderSize(img));
    ghost var goal := CommandsOf(img);
    var n := NCmds(img);
    var i: nat := 0;
    while i < n
      invariant ScanCommands(img, i, ptr, Commands(symtab, linkedit)) == goal
      decreases n - i
    {
      var cmd := U32At(img.mem, ptr);
      if cmd == LC_SYMTAB {
        symtab := ptr;
      } else if cmd == SegmentCommand(img) && CStringAt(img.mem, ptr + 8) == SEG_LINKEDIT {
        linkedit := ptr;
      }
      if symtab != 0 && linkedit != 0 {
        break;
      }
      ptr := NextCommand(img, ptr);
      i := i + 1;
    }
    f := Commands(symtab, linkedit);
  }

  // ------------------------------------------------------------- macho_dlsym

  /** hasExportedSymbol of image `i`, without a dependent finder. */
  function ExportAt(p: Process, init: LinkEditInfo, info0: FoundSymbol, uname: seq<byte>, i: nat): Option<nat>
    requires i < |p.images| && init.layout.linkeditFileOffset < TWO_32
  {
    Exported(ImageOf(p, i), init, uname, None, 1, info0)
  }

  /** What hasExportedSymbol reports for each image, in load order. */
  function ExportsOf(p: Process, init: LinkEditInfo, info0: FoundSymbol, uname: seq<byte>): seq<Option<nat>>
    requires init.layout.linkeditFileOffset < TWO_32
  {
    seq(|p.images|, i requires 0 <= i < |p.images| => ExportAt(p, init, info0, uname, i))
  }

  /** The reports from `i` on until one finds the name. */
  function DlsymFrom(xs: seq<Option<nat>>, i: nat): nat
    decreases |xs| - i
  {
    if i >= |xs| then 0
    else match xs[i]
      case Some(a) => a
      case None => DlsymFrom(xs, i + 1)
  }

  /**
   * macho_dlsym: 0 for a null name; otherwise the address from the first
   * image whose parser reports the underscored name. Every parser starts
   * from the same uninitialised `init` and `info0`.
   */
  function Dlsym(p: Process, init: LinkEditInfo, info0: FoundSymbol, name: Option<seq<byte>>): nat
    requires init.layout.linkeditFileOffset < TWO_32
  {
    match name
    case None => 0
    case Some(n) => DlsymFrom(ExportsOf(p, init, info0, Underscored(n)), 0)
  }

  /** The first exporting image in load order decides. */
  lemma {:induction false} DlsymFirstHit(xs: seq<Option<nat>>, i: nat, k: nat)
    requires i <= k < |xs| && xs[k].Some?
    requires forall j :: i <= j < k ==> xs[j].None?
    ensures DlsymFrom(xs, i) == xs[k].value
    decreases k - i
  {
    if i < k {
      DlsymFirstHit(xs, i + 1, k);
    }
  }

  /** With no exporting image the answer is 0. */
  lemma {:induction false} DlsymNoHit(xs: seq<Option<nat>>, i: nat)
    requires forall j :: i <= j < |xs| ==> xs[j].None?
    ensures DlsymFrom(xs, i) == 0
    decreases |xs| - i
  {
    if i < |xs| {
      DlsymNoHit(xs, i + 1);
    }
  }

  /** NSMachO::macho_dlsym; `handler` is unused by the source and left out. */
  method MachoDlsym(p: Process, init: LinkEditInfo, info0: FoundSymbol, name: Option<seq<byte>>) returns (addr: nat)
    requires name.Some? ==> CString(name.value)
    requires init.layout.linkeditFileOffset < TWO_32
    ensures addr == Dlsym(p, init, info0, name)
  {
    if name.None? {
      return 0;
    }
    var uname := Underscored(name.value);
    UnderscoredIsCString(name.value);
    ghost var xs := ExportsOf(p, init, info0, uname);
    var i: nat := 0;
    while i < |p.images|
      invariant i <= |p.images| == |xs|
      invariant DlsymFrom(xs, i) == DlsymFrom(xs, 0)
      decreases |p.images| - i
    {
      var found, result := HasExportedSymbol(ImageOf(p, i), init, uname, None, 1, info0, 0);
      assert xs[i] == Exported(ImageOf(p, i), init, uname, None, 1, info0);
      if found {
        return result;
      }
      i := i + 1;
    }
    return 0;
  }

  // ------------------------------------------------------------- macho_lookup_sym

  /** strstr's scan: `t` is compared at every offset of `s` from the left. */
  function StrStr(s: seq<byte>, t: seq<byte>): bool
    decreases |s|
  {
    if |t| > |s| then false
    else if s[..|t|] == t then true
    else StrStr(s[1..], t)
  }

  /** The scan finds an occurrence exactly when there is one. */
  lemma {:induction false} StrStrIff(s: seq<byte>, t: seq<byte>)
    ensures StrStr(s, t) <==> Contains(s, t)
    decreases |s|
  {
    if |t| <= |s| && s[..|t|] != t {
      StrStrIff(s[1..], t);
      if Contains(s, t) {
        var i :| 0 <= i <= |s| - |t| && OccursAt(s, t, i);
        assert i != 0;
        assert s[1..][i - 1..i - 1 + |t|] == t;
        assert OccursAt(s[1..], t, i - 1);
      }
      if Contains(s[1..], t) {
        var i :| 0 <= i <= |s[1..]| - |t| && OccursAt(s[1..], t, i);
        assert s[i + 1..i + 1 + |t|] == t;
        assert OccursAt(s, t, i + 1);
      }
    } else if |t| <= |s| {
      assert OccursAt(s, t, 0);
    }
  }

  /** The simulator's dyld, which macho_lookup_sym passes over. */
  predicate Skipped(p: Process, i: nat)
    requires i < |p.images|
  {
    FileType(ImageOf(p, i)) == MH_DYLINKER && p.images[i].name.Some? && StrStr(p.images[i].name.value, DYLD_SIM_INAME)
  }

  /** What the image loop of macho_lookup_sym learns about one image. */
  datatype Candidate = Candidate(skipped: bool, header: nat, hit: FindResult)

  function CandidateAt(p: Process, uname: seq<byte>, i: nat): Candidate
    requires i < |p.images|
  {
    Candidate(Skipped(p, i), p.images[i].header, ImageFindSym(ImageOf(p, i), p.images[i].slide, uname))
  }

  /** The candidates in load order. */
  function Candidates(p: Process, uname: seq<byte>): seq<Candidate>
  {
    seq(|p.images|, i requires 0 <= i < |p.images| => CandidateAt(p, uname, i))
  }

  /** A strong hit: not passed over, not weak, and non-zero. */
  predicate Strong(c: Candidate)
  {
    !c.skipped && c.hit.weak != Some(true) && c.hit.addr != 0
  }

  /**
   * The image loop of macho_lookup_sym from candidate `i`, with
   * `firstWeakImage`/`firstWeakSym` so far: the first strong hit is returned;
   * the first image not passed over is remembered with its address,
   * whatever that is.
   */
  function LookupFrom(cs: seq<Candidate>, i: nat, firstImage: nat, firstSym: nat): nat
    decreases |cs| - i
  {
    if i >= |cs| then (if firstImage != 0 then firstSym else 0)
    else if cs[i].skipped then LookupFrom(cs, i + 1, firstImage, firstSym)
    else if Strong(cs[i]) then cs[i].hit.addr
    else if firstImage == 0 then LookupFrom(cs, i + 1, cs[i].header, cs[i].hit.addr)
    else LookupFrom(cs, i + 1, firstImage, firstSym)
  }

  /** macho_lookup_sym: 0 for a null name; a non-zero macho_dlsym answer; else the image loop. */
  function LookupSym(p: Process, init: LinkEditInfo, info0: FoundSymbol, name: Option<seq<byte>>): nat
    requires init.layout.linkeditFileOffset < TWO_32
  {
    match name
    case None => 0
    case Some(n) =>
      var d := Dlsym(p, init, info0, name);
      if d != 0 then d else LookupFrom(Candidates(p, Underscored(n)), 0, 0, 0)
  }

  /** The first strong hit wins, wherever a weak or empty image came before it. */
  lemma {:induction false} StrongHitWins(cs: seq<Candidate>, i: nat, firstImage: nat, firstSym: nat, k: nat)
    requires i <= k < |cs| && Strong(cs[k])
    requires forall j :: i <= j < k ==> !Strong(cs[j])
    ensures LookupFrom(cs, i, firstImage, firstSym) == cs[k].hit.addr
    decreases k - i
  {
    if i < k {
      if cs[i].skipped {
        StrongHitWins(cs, i + 1, firstImage, firstSym, k);
      } else if firstImage == 0 {
        StrongHitWins(cs, i + 1, cs[i].header, cs[i].hit.addr, k);
      } else {
        StrongHitWins(cs, i + 1, firstImage, firstSym, k);
      }
    }
  }

  /** Without strong hits, a remembered image's address is the answer. */
  lemma {:induction false} RememberedWins(cs: seq<Candidate>, i: nat, firstImage: nat, firstSym: nat)
    requires firstImage != 0
    requires forall j :: i <= j < |cs| ==> !Strong(cs[j])
    ensures LookupFrom(cs, i, firstImage, firstSym) == firstSym
    decreases |cs| - i
  {
    if i < |cs| {
      RememberedWins(cs, i + 1, firstImage, firstSym);
    }
  }

  /**
   * Without strong hits, the answer is the address of the first image not
   * passed over (its weak hit, or 0), not the first weak hit anywhere.
   * Headers are non-null, as dyld reports them.
   */
  lemma {:induction false} FirstImageDecides(cs: seq<Candidate>, i: nat, k: nat)
    requires i <= k < |cs| && !cs[k].skipped && cs[k].header != 0
    requires forall j :: i <= j < |cs| ==> !Strong(cs[j])
    requires forall j :: i <= j < k ==> cs[j].skipped
    ensures LookupFrom(cs, i, 0, 0) == cs[k].hit.addr
    decreases k - i
  {
    if i < k {
      FirstImageDecides(cs, i + 1, k);
    } else {
      RememberedWins(cs, i + 1, cs[i].header, cs[i].hit.addr);
    }
  }

  /** When every image is passed over, the image loop answers 0. */
  lemma {:induction false} AllSkippedIsZero(cs: seq<Candidate>, i: nat)
    requires forall j :: i <= j < |cs| ==> cs[j].skipped
    ensures LookupFrom(cs, i, 0, 0) == 0
    decreases |cs| - i
  {
    if i < |cs| {
      AllSkippedIsZero(cs, i + 1);
    }
  }

  /**
   * macho_lookup_sym after a zero macho_dlsym answer: the first strong hit
   * among the images wins.
   */
  lemma LookupSymStrong(p: Process, init: LinkEditInfo, info0: FoundSymbol, name: seq<byte>, k: nat)
    requires init.layout.linkeditFileOffset < TWO_32
    requires Dlsym(p, init, info0, Some(name)) == 0
    requires k < |p.images|
    requires Strong(Candidates(p, Underscored(name))[k])
    requires forall j :: 0 <= j < k ==> !Strong(Candidates(p, Underscored(name))[j])
    ensures LookupSym(p, init, info0, Some(name)) == ImageFindSym(ImageOf(p, k), p.images[k].slide, Underscored(name)).addr
  {
    StrongHitWins(Candidates(p, Underscored(name)), 0, 0, 0, k);
  }

  /** NSMachO::macho_lookup_sym; `handler` is unused by the source and left out. */
  method MachoLookupSym(p: Process, init: LinkEditInfo, info0: FoundSymbol, name: Option<seq<byte>>) returns (addr: nat)
    requires name.Some? ==> CString(name.value)
    requires init.layout.linkeditFileOffset < TWO_32
    ensures addr == LookupSym(p, init, info0, name)
  {
    if name.None? {
      return 0;
    }
    addr := MachoDlsym(p, init, info0, name);
    if addr != 0 {
      return;
    }
    addr := ImageLoop(p, Underscored(name.value));
  }

  /** The image loop of macho_lookup_sym, over the underscored name. */
  method ImageLoop(p: Process, uname: seq<byte>) returns (addr: nat)
    ensures addr == LookupFrom(Candidates(p, uname), 0, 0, 0)
  {
    ghost var cs := Candidates(p, uname);
    var firstImage: nat, firstSym: nat := 0, 0;
    var i: nat := 0;
    while i < |p.images|
      invariant i <= |p.images| == |cs|
      invariant LookupFrom(cs, i, firstImage, firstSym) == LookupFrom(cs, 0, 0, 0)
      decreases |p.images| - i
    {
      var header := p.images[i].header;
      var skip, address, isWeak := ExamineImage(p, uname, i);
      ghost var fi, fs := firstImage, firstSym;
      if !skip {
        if !isWeak && address != 0 {
          return address;
        }
        if firstImage == 0 {
          firstImage, firstSym := header, address;
        }
      }
      LookupContinue(cs, i, fi, fs, firstImage, firstSym);
      i := i + 1;
    }
    addr := if firstImage != 0 then firstSym else 0;
  }

  /** An image without a strong hit moves the image loop on, remembering it if it is the first not passed over. */
  lemma LookupContinue(cs: seq<Candidate>, i: nat, firstImage: nat, firstSym: nat, firstImage': nat, firstSym': nat)
    requires i < |cs| && !Strong(cs[i])
    requires (firstImage', firstSym') == if !cs[i].skipped && firstImage == 0 then (cs[i].header, cs[i].hit.addr) else (firstImage, firstSym)
    ensures LookupFrom(cs, i, firstImage, firstSym) == LookupFrom(cs, i + 1, firstImage', firstSym')
  {
  }

  /** One iteration of the image loop: the image's name and file type, and hmd_image_find_sym with `isWeak = false`. */
  method ExamineImage(p: Process, uname: seq<byte>, i: nat) returns (skip: bool, address: nat, isWeak: bool)
    requires i < |p.images|
    ensures var c := Candidates(p, uname)[i];
      skip == c.skipped && address == c.hit.addr && isWeak == (c.hit.weak == Some(true)) && p.images[i].header == c.header
  {
    var img := ImageOf(p, i);
    address, isWeak := HmdImageFindSym(img, p.images[i].slide, uname, false);
    skip := FileType(img) == MH_DYLINKER && p.images[i].name.Some? && StrStr(p.images[i].name.value, DYLD_SIM_INAME);
  }
}
