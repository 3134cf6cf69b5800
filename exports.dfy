/**
 * MachOParser::findExportedSymbol and hasExportedSymbol
 * (ffi-iOSDemo/MachO/MachOParser.cpp): the export trie of LC_DYLD_INFO is
 * walked for the name; a terminal record is decoded, a re-export is
 * followed into the dylib a `DependentFinder` supplies, and a name the trie
 * lacks is searched in every re-exported dependent. Images without
 * LC_DYLD_INFO are searched through their global symbols instead.
 *
 * The pure functions (`Lookup` and the layers below it) state the outcome
 * with the diagnostics threaded as a set of messages; the methods perform
 * the same steps on a `Diagnostics` object and are proved to reach the same
 * outcome.
 */
module Exports {
  import opened Wrappers
  import opened Bytes
  import opened Diag
  import opened LoadCommands
  import opened Queries
  import opened Segments
  import opened Layout
  import opened LinkEdit
  import opened Symbols
  import opened Leb128
  import opened Trie

  /** `EXPORT_SYMBOL_FLAGS_*` of `<mach-o/loader.h>`; the kind is the value of the two low bits. */
  const KIND_REGULAR: nat := 0x00
  const KIND_THREAD_LOCAL: nat := 0x01
  const KIND_ABSOLUTE: nat := 0x02
  /** Bit 3 (`0x08`) marks a re-export, bit 4 (`0x10`) a stub with a resolver. */
  const REEXPORT_BIT: nat := 3
  const STUB_AND_RESOLVER_BIT: nat := 4

  /** Offsets of `export_off` and `export_size` in `dyld_info_command`. */
  const EXPORT_OFF_FIELD: nat := 40
  const EXPORT_SIZE_FIELD: nat := 44

  /** `FoundSymbol::Kind` */
  datatype Kind = HeaderOffset | Absolute | ResolverOffset

  /** `FoundSymbol`: pointers are addresses, `foundExtra` an opaque word. */
  datatype FoundSymbol = FoundSymbol(kind: Kind, isThreadLocal: bool, foundInDylib: nat, foundExtra: nat,
                                     value: nat, resolverFuncOffset: nat, foundSymbolName: seq<byte>)

  /**
   * A `DependentFinder` block: given the dependent's index, its load path
   * (null as `None`) and the caller's `extra`, the header address and
   * `extra` of the loaded dependent, or `None` when it is not found.
   */
  type Finder = (nat, Option<seq<byte>>, nat) -> Option<(nat, nat)>

  /** What a lookup returns, what it leaves in `foundInfo`, and the messages in the diagnostics afterwards. */
  datatype Outcome = Outcome(found: bool, info: FoundSymbol, errors: set<Message>)

  predicate HasError(errors: set<Message>, buffer: Option<seq<char>>)
  {
    buffer.Some? || errors != {}
  }

  /** The dependent parser `MachOParser dep(depMH, ...)`: the same process memory and pointer width. */
  function DependentImage(img: Image, mh: nat): Image
  {
    Image(img.mem, mh, img.lp64)
  }

  /** The start address of the export trie: getLinkEditContent at `export_off`. */
  function TrieStart(img: Image, le: LinkEditInfo): nat
    requires le.dyldInfo.Some? && le.layout.linkeditFileOffset < TWO_32
  {
    LinkEditContent(img, le.layout, U32At(img.mem, le.dyldInfo.value.addr + EXPORT_OFF_FIELD))
  }

  /** The `export_size` bytes of the trie. */
  function TrieBytes(img: Image, le: LinkEditInfo): (data: seq<byte>)
    requires le.dyldInfo.Some? && le.layout.linkeditFileOffset < TWO_32
    ensures |data| == U32At(img.mem, le.dyldInfo.value.addr + EXPORT_SIZE_FIELD)
  {
    Slice(img.mem, TrieStart(img, le), U32At(img.mem, le.dyldInfo.value.addr + EXPORT_SIZE_FIELD))
  }

  /** The name of a re-export: the imported name, or the looked-up name when the imported one is empty. */
  function ImportedName(img: Image, addr: nat, sym: seq<byte>): seq<byte>
  {
    var imported := CStringAt(img.mem, addr);
    if imported == [] then sym else imported
  }

  /** The name a re-export passes on is a C string whenever the looked-up one is. */
  lemma ImportedNameIsCString(img: Image, addr: nat, sym: seq<byte>)
    requires CString(sym)
    ensures CString(ImportedName(img, addr, sym))
  {
    CStringAtBytes(img.mem, addr);
  }

  /** The dependent index of a re-export ordinal: `(uint32_t)(ordinal-1)`. */
  function DepIndex(ordinal: nat): (i: nat)
    ensures 1 <= ordinal <= TWO_32 ==> i == ordinal - 1
    ensures ordinal == 0 ==> i == TWO_32 - 1
  {
    Wrap32(ordinal - 1)
  }

  // ------------------------------------------------------------- specification

  /**
   * findExportedSymbol of `sym` in `img`, with `info` the prior contents of
   * `foundInfo`, `errors`/`buffer` the diagnostics, and `init` the
   * uninitialised `LinkEditInfo` every parser starts from. Re-exports are
   * followed at most `fuel` images deep; beyond that the lookup reports
   * nothing found and changes nothing.
   */
  function Lookup(img: Image, init: LinkEditInfo, sym: seq<byte>, extra: nat, info: FoundSymbol,
                  finder: Option<Finder>, fuel: nat, errors: set<Message>, buffer: Option<seq<char>>): (o: Outcome)
    requires init.layout.linkeditFileOffset < TWO_32
    decreases fuel, 4, 0
  {
    if fuel == 0 then Outcome(false, info, errors)
    else Search(img, init, sym, extra, info, finder, fuel, errors, buffer)
  }

  /**
   * The body of findExportedSymbol: getLinkEditPointers, then the trie or,
   * without LC_DYLD_INFO, the global symbols.
   */
  function Search(img: Image, init: LinkEditInfo, sym: seq<byte>, extra: nat, info: FoundSymbol,
                  finder: Option<Finder>, fuel: nat, errors: set<Message>, buffer: Option<seq<char>>): (o: Outcome)
    requires init.layout.linkeditFileOffset < TWO_32 && fuel >= 1
    decreases fuel, 3, 0
  {
    var errs := LinkEditErrors(img, errors, buffer);
    if HasError(errs, buffer) then Outcome(false, info, errs)
    else
      LinkEditPointersOffset(img, init, true);
      var le := LinkEditPointers(img, init, true);
      if le.dyldInfo.Some? then FromTrie(img, init, le, sym, extra, info, finder, fuel, errs, buffer)
      else
        var errs' := LinkEditErrors(img, errs, buffer);
        Legacy(HeaderOf(img.mh), PreferredLoadAddress(img), sym, extra, info,
               SymbolsOf(img, init, Globals, !HasError(errs', buffer)), errs')
  }

  /** The trie branch: walk, then decode the record found or search the re-exported dependents. */
  function FromTrie(img: Image, init: LinkEditInfo, le: LinkEditInfo, sym: seq<byte>, extra: nat, info: FoundSymbol,
                    finder: Option<Finder>, fuel: nat, errors: set<Message>, buffer: Option<seq<char>>): (o: Outcome)
    requires init.layout.linkeditFileOffset < TWO_32
    requires le.dyldInfo.Some? && le.layout.linkeditFileOffset < TWO_32 && fuel >= 1
    decreases fuel, 2, 0
  {
    var data := TrieBytes(img, le);
    var w := TrieWalkSpec(data, sym, HasError(errors, buffer));
    var errs := errors + OptRecorded(w.error);
    match w.pos
    case None => ReExportScan(img, init, sym, extra, info, finder, fuel, Dependents(img), 0, errs, buffer)
    case Some(node) =>
      TrieWalkSound(data, sym, HasError(errors, buffer));
      Record(img, init, TrieStart(img, le), data, node, sym, extra, info, finder, fuel, errs, buffer)
  }

  /**
   * The fallback over forEachDependentDylib from dependent `i` on: each
   * re-exported dependent the finder supplies is searched for the same
   * name, and the first success ends the visit.
   */
  function ReExportScan(img: Image, init: LinkEditInfo, sym: seq<byte>, extra: nat, info: FoundSymbol,
                        finder: Option<Finder>, fuel: nat, deps: seq<Dependent>, i: nat,
                        errors: set<Message>, buffer: Option<seq<char>>): (o: Outcome)
    requires init.layout.linkeditFileOffset < TWO_32 && fuel >= 1
    decreases fuel, 1, |deps| - i
  {
    if i >= |deps| then Outcome(false, info, errors)
    else if !(deps[i].isReExport && finder.Some?) then
      ReExportScan(img, init, sym, extra, info, finder, fuel, deps, i + 1, errors, buffer)
    else
      match finder.value(i, Some(deps[i].loadPath), extra)
      case None => ReExportScan(img, init, sym, extra, info, finder, fuel, deps, i + 1, errors, buffer)
      case Some((mh, depExtra)) =>
        var o := Lookup(DependentImage(img, mh), init, sym, depExtra, info, finder, fuel - 1, errors, buffer);
        if o.found then o
        else ReExportScan(img, init, sym, extra, o.info, finder, fuel, deps, i + 1, o.errors, buffer)
  }

  /** The terminal record at `node` of the trie `data`, which starts at address `start`. */
  function Record(img: Image, init: LinkEditInfo, start: nat, data: seq<byte>, node: nat, sym: seq<byte>, extra: nat,
                  info: FoundSymbol, finder: Option<Finder>, fuel: nat,
                  errors: set<Message>, buffer: Option<seq<char>>): (o: Outcome)
    requires init.layout.linkeditFileOffset < TWO_32 && node <= |data| && fuel >= 1
    decreases fuel, 1, 0
  {
    var flags := ReadUleb(data, node);
    var errs := errors + OptRecorded(flags.error);
    if HasBit(flags.value, REEXPORT_BIT) then
      ReExport(img, init, start, data, flags.next, sym, extra, info, finder, fuel, errs, buffer)
    else Local(img, data, flags.value, flags.next, node, sym, extra, errs, buffer)
  }

  /**
   * A record of this image with the decoded `flags`: the value starts at
   * `p`, and a stub's resolver offset follows the value. The kind is
   * `flags & EXPORT_SYMBOL_FLAGS_KIND_MASK`, that is `flags % 4`.
   */
  function Local(img: Image, data: seq<byte>, flags: nat, p: nat, node: nat, sym: seq<byte>, extra: nat,
                 errors: set<Message>, buffer: Option<seq<char>>): (o: Outcome)
    requires p <= |data|
  {
    var value := ReadUleb(data, p);
    var errs := errors + OptRecorded(value.error);
    var written := FoundSymbol(HeaderOffset, false, HeaderOf(img.mh), extra, value.value, 0, sym);
    if HasError(errs, buffer) then Outcome(false, written, errs)
    else if flags % 4 == KIND_REGULAR then
      if HasBit(flags, STUB_AND_RESOLVER_BIT) then
        var resolver := ReadUleb(data, value.next);
        Outcome(true, written.(resolverFuncOffset := Wrap32(resolver.value)), errs + OptRecorded(resolver.error))
      else Outcome(true, written, errs)
    else if flags % 4 == KIND_THREAD_LOCAL then Outcome(true, written.(isThreadLocal := true), errs)
    else if flags % 4 == KIND_ABSOLUTE then Outcome(true, written.(kind := Absolute), errs)
    else Outcome(false, written, errs + {UnsupportedExportKind(flags, node)})
  }

  /** A re-export record whose ordinal starts at `p`. */
  function ReExport(img: Image, init: LinkEditInfo, start: nat, data: seq<byte>, p: nat, sym: seq<byte>, extra: nat,
                    info: FoundSymbol, finder: Option<Finder>, fuel: nat,
                    errors: set<Message>, buffer: Option<seq<char>>): (o: Outcome)
    requires init.layout.linkeditFileOffset < TWO_32 && p <= |data| && fuel >= 1
    decreases fuel, 0, 1
  {
    if finder.None? then Outcome(false, info, errors)
    else
      var ordinal := ReadUleb(data, p);
      Imported(img, init, ordinal.value, start, ordinal.next, sym, extra, info, finder.value, fuel,
               errors + OptRecorded(ordinal.error), buffer)
  }

  /**
   * The dependent a re-export `ordinal` names, searched for the imported
   * name, which starts `nameAt` bytes into the trie at `start`.
   */
  function Imported(img: Image, init: LinkEditInfo, ordinal: nat, start: nat, nameAt: nat, sym: seq<byte>, extra: nat,
                    info: FoundSymbol, finder: Finder, fuel: nat,
                    errors: set<Message>, buffer: Option<seq<char>>): (o: Outcome)
    requires init.layout.linkeditFileOffset < TWO_32 && fuel >= 1
    decreases fuel, 0, 0
  {
    if ordinal > DependentDylibCount(img) then
      Outcome(false, info, errors + {OrdinalOutOfRange(ordinal, sym)})
    else
      var depIndex := DepIndex(ordinal);
      match finder(depIndex, DependentDylibLoadPath(img, depIndex), extra)
      case None => Outcome(false, info, errors + {DependentNotFound(ordinal, sym)})
      case Some((mh, depExtra)) =>
        Lookup(DependentImage(img, mh), init, ImportedName(img, start + nameAt, sym), depExtra, info, Some(finder), fuel - 1, errors, buffer)
  }

  /** The index of the first symbol named `sym`. */
  function FirstNamed(syms: seq<Symbol>, sym: seq<byte>): (k: Option<nat>)
    ensures k.Some? ==> k.value < |syms| && syms[k.value].name == sym
    ensures k.Some? ==> forall j :: 0 <= j < k.value ==> syms[j].name != sym
    ensures k.None? ==> forall j :: 0 <= j < |syms| ==> syms[j].name != sym
  {
    if |syms| == 0 then None
    else if syms[0].name == sym then Some(0)
    else match FirstNamed(syms[1..], sym)
      case None => None
      case Some(k) => Some(k + 1)
  }

  /**
   * The branch for images without LC_DYLD_INFO, for the image whose
   * header() is `header` and whose preferred load address is `base`, over
   * the global symbols `syms` the scan delivers: the first one named `sym`,
   * its value taken relative to `base`.
   */
  function Legacy(header: nat, base: nat, sym: seq<byte>, extra: nat, info: FoundSymbol, syms: seq<Symbol>,
                  errors: set<Message>): (o: Outcome)
  {
    match FirstNamed(syms, sym)
    case None => Outcome(false, info.(foundInDylib := 0), errors)
    case Some(k) =>
      Outcome(header != 0, FoundSymbol(HeaderOffset, false, header, extra, Wrap64(syms[k].value - base), 0, sym), errors)
  }

  // -------------------------------------------------------------- properties

  /**
   * What every lookup guarantees: messages are only ever added; a lookup
   * that starts with an error in the diagnostics finds nothing and leaves
   * `foundInfo` alone; and a successful lookup never produces
   * `Kind::resolverOffset`, a thread-local symbol being always of kind
   * `headerOffset`.
   */
  predicate Sound(o: Outcome, info: FoundSymbol, errors: set<Message>)
  {
    && errors <= o.errors
    && (o.found ==> o.info.kind != ResolverOffset && (o.info.isThreadLocal ==> o.info.kind == HeaderOffset))
  }

  lemma {:induction false} LookupSound(img: Image, init: LinkEditInfo, sym: seq<byte>, extra: nat, info: FoundSymbol,
                                       finder: Option<Finder>, fuel: nat, errors: set<Message>, buffer: Option<seq<char>>)
    requires init.layout.linkeditFileOffset < TWO_32
    ensures Sound(Lookup(img, init, sym, extra, info, finder, fuel, errors, buffer), info, errors)
    ensures HasError(errors, buffer) ==> !Lookup(img, init, sym, extra, info, finder, fuel, errors, buffer).found
    ensures HasError(errors, buffer) ==> Lookup(img, init, sym, extra, info, finder, fuel, errors, buffer).info == info
    decreases fuel, 4, 0
  {
    if fuel > 0 {
      SearchSound(img, init, sym, extra, info, finder, fuel, errors, buffer);
    }
  }

  lemma {:induction false} SearchSound(img: Image, init: LinkEditInfo, sym: seq<byte>, extra: nat, info: FoundSymbol,
                                       finder: Option<Finder>, fuel: nat, errors: set<Message>, buffer: Option<seq<char>>)
    requires init.layout.linkeditFileOffset < TWO_32 && fuel >= 1
    ensures Sound(Search(img, init, sym, extra, info, finder, fuel, errors, buffer), info, errors)
    ensures HasError(errors, buffer) ==> !Search(img, init, sym, extra, info, finder, fuel, errors, buffer).found
    ensures HasError(errors, buffer) ==> Search(img, init, sym, extra, info, finder, fuel, errors, buffer).info == info
    decreases fuel, 3, 0
  {
    var errs := LinkEditErrors(img, errors, buffer);
    if !HasError(errs, buffer) {
      LinkEditPointersOffset(img, init, true);
      var le := LinkEditPointers(img, init, true);
      if le.dyldInfo.Some? {
        FromTrieSound(img, init, le, sym, extra, info, finder, fuel, errs, buffer);
      }
    }
  }

  lemma {:induction false} FromTrieSound(img: Image, init: LinkEditInfo, le: LinkEditInfo, sym: seq<byte>, extra: nat,
                                         info: FoundSymbol, finder: Option<Finder>, fuel: nat,
                                         errors: set<Message>, buffer: Option<seq<char>>)
    requires init.layout.linkeditFileOffset < TWO_32
    requires le.dyldInfo.Some? && le.layout.linkeditFileOffset < TWO_32 && fuel >= 1
    ensures Sound(FromTrie(img, init, le, sym, extra, info, finder, fuel, errors, buffer), info, errors)
    decreases fuel, 2, 0
  {
    var data := TrieBytes(img, le);
    var w := TrieWalkSpec(data, sym, HasError(errors, buffer));
    var errs := errors + OptRecorded(w.error);
    match w.pos
    case None => ReExportScanSound(img, init, sym, extra, info, finder, fuel, Dependents(img), 0, errs, buffer);
    case Some(node) =>
      TrieWalkSound(data, sym, HasError(errors, buffer));
      RecordSound(img, init, TrieStart(img, le), data, node, sym, extra, info, finder, fuel, errs, buffer);
  }

  lemma {:induction false} ReExportScanSound(img: Image, init: LinkEditInfo, sym: seq<byte>, extra: nat, info: FoundSymbol,
                                             finder: Option<Finder>, fuel: nat, deps: seq<Dependent>, i: nat,
                                             errors: set<Message>, buffer: Option<seq<char>>)
    requires init.layout.linkeditFileOffset < TWO_32 && fuel >= 1
    ensures Sound(ReExportScan(img, init, sym, extra, info, finder, fuel, deps, i, errors, buffer), info, errors)
    decreases fuel, 1, |deps| - i
  {
    if i < |deps| {
      if !(deps[i].isReExport && finder.Some?) {
        ReExportScanSound(img, init, sym, extra, info, finder, fuel, deps, i + 1, errors, buffer);
      } else {
        match finder.value(i, Some(deps[i].loadPath), extra)
        case None => ReExportScanSound(img, init, sym, extra, info, finder, fuel, deps, i + 1, errors, buffer);
        case Some((mh, depExtra)) =>
          var o := Lookup(DependentImage(img, mh), init, sym, depExtra, info, finder, fuel - 1, errors, buffer);
          LookupSound(DependentImage(img, mh), init, sym, depExtra, info, finder, fuel - 1, errors, buffer);
          if !o.found {
            ReExportScanSound(img, init, sym, extra, o.info, finder, fuel, deps, i + 1, o.errors, buffer);
          }
      }
    }
  }

  lemma {:induction false} RecordSound(img: Image, init: LinkEditInfo, start: nat, data: seq<byte>, node: nat, sym: seq<byte>,
                                       extra: nat, info: FoundSymbol, finder: Option<Finder>, fuel: nat,
                                       errors: set<Message>, buffer: Option<seq<char>>)
    requires init.layout.linkeditFileOffset < TWO_32 && node <= |data| && fuel >= 1
    ensures Sound(Record(img, init, start, data, node, sym, extra, info, finder, fuel, errors, buffer), info, errors)
    decreases fuel, 1, 0
  {
    var flags := ReadUleb(data, node);
    var errs := errors + OptRecorded(flags.error);
    if HasBit(flags.value, REEXPORT_BIT) {
      ReExportSound(img, init, start, data, flags.next, sym, extra, info, finder, fuel, errs, buffer);
    } else {
      LocalKinds(img, data, flags.value, flags.next, node, sym, extra, errs, buffer);
    }
  }

  lemma {:induction false} ReExportSound(img: Image, init: LinkEditInfo, start: nat, data: seq<byte>, p: nat, sym: seq<byte>,
                                         extra: nat, info: FoundSymbol, finder: Option<Finder>, fuel: nat,
                                         errors: set<Message>, buffer: Option<seq<char>>)
    requires init.layout.linkeditFileOffset < TWO_32 && p <= |data| && fuel >= 1
    ensures Sound(ReExport(img, init, start, data, p, sym, extra, info, finder, fuel, errors, buffer), info, errors)
    decreases fuel, 0, 1
  {
    if finder.Some? {
      var ordinal := ReadUleb(data, p);
      ReExportReadsOrdinal(img, init, start, data, p, sym, extra, info, finder.value, fuel, errors, buffer);
      ImportedSound(img, init, ordinal.value, start, ordinal.next, sym, extra, info, finder.value, fuel,
                    errors + OptRecorded(ordinal.error), buffer);
    }
  }

  lemma {:induction false} ImportedSound(img: Image, init: LinkEditInfo, ordinal: nat, start: nat, nameAt: nat, sym: seq<byte>,
                                         extra: nat, info: FoundSymbol, finder: Finder, fuel: nat,
                                         errors: set<Message>, buffer: Option<seq<char>>)
    requires init.layout.linkeditFileOffset < TWO_32 && fuel >= 1
    ensures Sound(Imported(img, init, ordinal, start, nameAt, sym, extra, info, finder, fuel, errors, buffer), info, errors)
    decreases fuel, 0, 0
  {
    if ordinal <= DependentDylibCount(img) {
      var depIndex := DepIndex(ordinal);
      match finder(depIndex, DependentDylibLoadPath(img, depIndex), extra)
      case None =>
      case Some((mh, depExtra)) =>
        LookupSound(DependentImage(img, mh), init, ImportedName(img, start + nameAt, sym), depExtra, info, Some(finder), fuel - 1, errors, buffer);
    }
  }

  /**
   * Without a finder no dependent is ever consulted: the lookup is the
   * image's own, whatever the depth allowed.
   */
  lemma NoFinderIsLocal(img: Image, init: LinkEditInfo, sym: seq<byte>, extra: nat, info: FoundSymbol,
                        fuel: nat, errors: set<Message>, buffer: Option<seq<char>>)
    requires init.layout.linkeditFileOffset < TWO_32 && fuel >= 1
    ensures Lookup(img, init, sym, extra, info, None, fuel, errors, buffer)
         == Lookup(img, init, sym, extra, info, None, 1, errors, buffer)
  {
    var errs := LinkEditErrors(img, errors, buffer);
    if !HasError(errs, buffer) {
      LinkEditPointersOffset(img, init, true);
      var le := LinkEditPointers(img, init, true);
      if le.dyldInfo.Some? {
        FromTrieWithoutFinder(img, init, le, sym, extra, info, fuel, errs, buffer);
      }
    }
  }

  lemma FromTrieWithoutFinder(img: Image, init: LinkEditInfo, le: LinkEditInfo, sym: seq<byte>, extra: nat, info: FoundSymbol,
                              fuel: nat, errors: set<Message>, buffer: Option<seq<char>>)
    requires init.layout.linkeditFileOffset < TWO_32
    requires le.dyldInfo.Some? && le.layout.linkeditFileOffset < TWO_32 && fuel >= 1
    ensures FromTrie(img, init, le, sym, extra, info, None, fuel, errors, buffer)
         == FromTrie(img, init, le, sym, extra, info, None, 1, errors, buffer)
  {
    var data := TrieBytes(img, le);
    var w := TrieWalkSpec(data, sym, HasError(errors, buffer));
    var errs := errors + OptRecorded(w.error);
    match w.pos
    case None =>
      ScanWithoutFinder(img, init, sym, extra, info, fuel, Dependents(img), 0, errs, buffer);
      ScanWithoutFinder(img, init, sym, extra, info, 1, Dependents(img), 0, errs, buffer);
    case Some(node) =>
      TrieWalkSound(data, sym, HasError(errors, buffer));
      RecordWithoutFinder(img, init, TrieStart(img, le), data, node, sym, extra, info, fuel, errs, buffer);
  }

  lemma RecordWithoutFinder(img: Image, init: LinkEditInfo, start: nat, data: seq<byte>, node: nat, sym: seq<byte>,
                            extra: nat, info: FoundSymbol, fuel: nat, errors: set<Message>, buffer: Option<seq<char>>)
    requires init.layout.linkeditFileOffset < TWO_32 && node <= |data| && fuel >= 1
    ensures Record(img, init, start, data, node, sym, extra, info, None, fuel, errors, buffer)
         == Record(img, init, start, data, node, sym, extra, info, None, 1, errors, buffer)
  {
  }

  /** The fallback over the dependents finds nothing and records nothing without a finder. */
  lemma {:induction false} ScanWithoutFinder(img: Image, init: LinkEditInfo, sym: seq<byte>, extra: nat, info: FoundSymbol,
                                             fuel: nat, deps: seq<Dependent>, i: nat,
                                             errors: set<Message>, buffer: Option<seq<char>>)
    requires init.layout.linkeditFileOffset < TWO_32 && fuel >= 1
    ensures ReExportScan(img, init, sym, extra, info, None, fuel, deps, i, errors, buffer) == Outcome(false, info, errors)
    decreases |deps| - i
  {
    if i < |deps| {
      ScanWithoutFinder(img, init, sym, extra, info, fuel, deps, i + 1, errors, buffer);
    }
  }

  /** A re-export record with no finder: the lookup fails, recording nothing and leaving `foundInfo` alone. */
  lemma ReExportWithoutFinder(img: Image, init: LinkEditInfo, start: nat, data: seq<byte>, p: nat, sym: seq<byte>, extra: nat,
                              info: FoundSymbol, fuel: nat, errors: set<Message>, buffer: Option<seq<char>>)
    requires init.layout.linkeditFileOffset < TWO_32 && p <= |data| && fuel >= 1
    ensures ReExport(img, init, start, data, p, sym, extra, info, None, fuel, errors, buffer) == Outcome(false, info, errors)
  {
  }

  /**
   * A re-export record with a finder reads the ordinal, then the imported
   * name that follows it in the trie's memory, and looks the ordinal up.
   */
  lemma ReExportReadsOrdinal(img: Image, init: LinkEditInfo, start: nat, data: seq<byte>, p: nat, sym: seq<byte>, extra: nat,
                             info: FoundSymbol, finder: Finder, fuel: nat, errors: set<Message>, buffer: Option<seq<char>>)
    requires init.layout.linkeditFileOffset < TWO_32 && p <= |data| && fuel >= 1
    ensures var ordinal := ReadUleb(data, p);
      ReExport(img, init, start, data, p, sym, extra, info, Some(finder), fuel, errors, buffer)
        == Imported(img, init, ordinal.value, start, ordinal.next, sym, extra, info, finder, fuel,
                    errors + OptRecorded(ordinal.error), buffer)
  {
  }

  /** An ordinal past the last dependent records "ordinal out of range" and fails. */
  lemma ImportedOrdinalOutOfRange(img: Image, init: LinkEditInfo, ordinal: nat, start: nat, nameAt: nat, sym: seq<byte>, extra: nat,
                                  info: FoundSymbol, finder: Finder, fuel: nat, errors: set<Message>, buffer: Option<seq<char>>)
    requires init.layout.linkeditFileOffset < TWO_32 && fuel >= 1
    requires ordinal > |Dependents(img)|
    ensures Imported(img, init, ordinal, start, nameAt, sym, extra, info, finder, fuel, errors, buffer)
         == Outcome(false, info, errors + {OrdinalOutOfRange(ordinal, sym)})
  {
  }

  /**
   * An ordinal naming a dependent: the finder is asked for dependent
   * `ordinal - 1` with its load path; when it fails "dependent dylib not
   * found" is recorded, else the dependent is searched for `name`.
   */
  lemma ImportedFollowsOrdinal(img: Image, init: LinkEditInfo, ordinal: nat, start: nat, nameAt: nat, sym: seq<byte>, extra: nat,
                               info: FoundSymbol, finder: Finder, fuel: nat, errors: set<Message>, buffer: Option<seq<char>>)
    requires init.layout.linkeditFileOffset < TWO_32 && fuel >= 1
    requires 1 <= ordinal <= |Dependents(img)|
    ensures var o := Imported(img, init, ordinal, start, nameAt, sym, extra, info, finder, fuel, errors, buffer);
      var imported := CStringAt(img.mem, start + nameAt);
      var name := if imported == [] then sym else imported;
      match finder(ordinal - 1, Some(Dependents(img)[ordinal - 1].loadPath), extra)
      case None => o == Outcome(false, info, errors + {DependentNotFound(ordinal, sym)})
      case Some((mh, depExtra)) => o == Lookup(DependentImage(img, mh), init, name, depExtra, info, Some(finder), fuel - 1, errors, buffer)
  {
    OrdinalDependent(img, ordinal);
    var path := Some(Dependents(img)[ordinal - 1].loadPath);
    assert DependentDylibLoadPath(img, DepIndex(ordinal)) == path;
    var name := ImportedName(img, start + nameAt, sym);
    match finder(ordinal - 1, path, extra)
    case None =>
    case Some((mh, depExtra)) =>
      assert Imported(img, init, ordinal, start, nameAt, sym, extra, info, finder, fuel, errors, buffer)
          == Lookup(DependentImage(img, mh), init, name, depExtra, info, Some(finder), fuel - 1, errors, buffer);
  }

  /** An ordinal in range is the dependent at index `ordinal - 1`, whose load path the finder gets. */
  lemma OrdinalDependent(img: Image, ordinal: nat)
    requires 1 <= ordinal <= |Dependents(img)|
    ensures ordinal <= DependentDylibCount(img) && DepIndex(ordinal) == ordinal - 1
    ensures DependentDylibLoadPath(img, DepIndex(ordinal)) == Some(Dependents(img)[ordinal - 1].loadPath)
  {
    DependentCountBound(img);
    assert DepIndex(ordinal) == ordinal - 1;
  }

  /**
   * A record of this image: unless a read reported an error, the lookup
   * succeeds exactly for kinds 0 to 2, with the value read, this image's
   * header and `extra`; `ABSOLUTE` sets `Kind::absolute`, `THREAD_LOCAL`
   * sets `isThreadLocal`, and `STUB_AND_RESOLVER` keeps
   * `Kind::headerOffset` and only fills `resolverFuncOffset`, so
   * `Kind::resolverOffset` never appears. Kind 3 records "unsupported
   * exported symbol kind".
   */
  lemma LocalKinds(img: Image, data: seq<byte>, flags: nat, p: nat, node: nat, sym: seq<byte>, extra: nat,
                   errors: set<Message>, buffer: Option<seq<char>>)
    requires p <= |data|
    ensures var o := Local(img, data, flags, p, node, sym, extra, errors, buffer);
      var value := ReadUleb(data, p);
      var errs := errors + OptRecorded(value.error);
      var kind := flags % 4;
      && errors <= o.errors
      && (HasError(errs, buffer) ==> !o.found && o.errors == errs)
      && (!HasError(errs, buffer) ==> (o.found <==> kind != 3))
      && (!HasError(errs, buffer) && kind == 3 ==> o.errors == errs + {UnsupportedExportKind(flags, node)})
      && (o.found ==>
            && o.info.value == value.value && o.info.foundInDylib == HeaderOf(img.mh)
            && o.info.foundExtra == extra && o.info.foundSymbolName == sym
            && (o.info.kind == Absolute <==> kind == KIND_ABSOLUTE)
            && (o.info.kind == HeaderOffset <==> kind != KIND_ABSOLUTE)
            && (o.info.isThreadLocal <==> kind == KIND_THREAD_LOCAL)
            && (o.info.resolverFuncOffset != 0 ==> kind == KIND_REGULAR && HasBit(flags, STUB_AND_RESOLVER_BIT))
            && (kind == KIND_REGULAR && HasBit(flags, STUB_AND_RESOLVER_BIT) ==>
                  o.info.resolverFuncOffset == ReadUleb(data, value.next).value % TWO_32))
  {
  }

  /**
   * The symbol-table branch succeeds exactly when a delivered symbol has
   * the name (and the header address is not null); the value is that of
   * the first such symbol less the preferred load address, modulo 2^64.
   */
  lemma LegacyFirstMatch(header: nat, base: nat, sym: seq<byte>, extra: nat, info: FoundSymbol, syms: seq<Symbol>,
                         errors: set<Message>)
    ensures var o := Legacy(header, base, sym, extra, info, syms, errors);
      && o.errors == errors
      && (o.found <==> header != 0 && exists k :: 0 <= k < |syms| && syms[k].name == sym)
      && (forall k :: 0 <= k < |syms| && syms[k].name == sym && (forall j :: 0 <= j < k ==> syms[j].name != sym) ==>
            o.info.value == Wrap64(syms[k].value - base) && o.info.kind == HeaderOffset && o.info.foundInDylib == header)
  {
  }

  // ----------------------------------------------------------------- methods

  /**
   * MachOParser::findExportedSymbol on the diagnostics `diag`, returning
   * the result and the new contents of `foundInfo`.
   */
  method FindExportedSymbol(diag: Diagnostics, img: Image, init: LinkEditInfo, sym: seq<byte>, extra: nat, info: FoundSymbol,
                            finder: Option<Finder>, fuel: nat) returns (found: bool, info': FoundSymbol)
    requires CString(sym) && init.layout.linkeditFileOffset < TWO_32
    modifies diag`errors
    ensures Outcome(found, info', diag.errors) == Lookup(img, init, sym, extra, info, finder, fuel, old(diag.errors), diag.buffer)
    decreases fuel, 4
  {
    if fuel == 0 {
      return false, info;
    }
    found, info' := SearchImage(diag, img, init, sym, extra, info, finder, fuel);
  }

  method SearchImage(diag: Diagnostics, img: Image, init: LinkEditInfo, sym: seq<byte>, extra: nat, info: FoundSymbol,
                     finder: Option<Finder>, fuel: nat) returns (found: bool, info': FoundSymbol)
    requires CString(sym) && init.layout.linkeditFileOffset < TWO_32 && fuel >= 1
    modifies diag`errors
    ensures Outcome(found, info', diag.errors) == Search(img, init, sym, extra, info, finder, fuel, old(diag.errors), diag.buffer)
    decreases fuel, 3
  {
    var le := GetLinkEditPointers(diag, img, init);
    if diag.HasError() {
      return false, info;
    }
    LinkEditPointersOffset(img, init, true);
    if le.dyldInfo.Some? {
      found, info' := SearchTrie(diag, img, init, le, sym, extra, info, finder, fuel);
    } else {
      found, info' := SearchSymbols(diag, img, init, sym, extra, info);
    }
  }

  /** The branch for images without LC_DYLD_INFO: the global symbols, then the first one with the name. */
  method SearchSymbols(diag: Diagnostics, img: Image, init: LinkEditInfo, sym: seq<byte>, extra: nat, info: FoundSymbol)
    returns (found: bool, info': FoundSymbol)
    requires init.layout.linkeditFileOffset < TWO_32
    modifies diag`errors
    ensures diag.errors == LinkEditErrors(img, old(diag.errors), diag.buffer)
    ensures Outcome(found, info', diag.errors)
         == Legacy(HeaderOf(img.mh), PreferredLoadAddress(img), sym, extra, info,
                   SymbolsOf(img, init, Globals, diag.NoError()), diag.errors)
  {
    var baseAddress := PreferredLoadAddress(img);
    var syms := ForEachSymbol(diag, img, Globals, init);
    found, info' := FirstGlobal(HeaderOf(img.mh), baseAddress, sym, extra, info, syms, diag.errors);
  }

  /**
   * The symbol callback: the first symbol named `sym` sets `foundInfo` from
   * its value less the preferred load address and stops the scan.
   */
  method FirstGlobal(header: nat, baseAddress: nat, sym: seq<byte>, extra: nat, info: FoundSymbol, syms: seq<Symbol>,
                     ghost errors: set<Message>) returns (found: bool, info': FoundSymbol)
    ensures Outcome(found, info', errors) == Legacy(header, baseAddress, sym, extra, info, syms, errors)
  {
    info' := info.(foundInDylib := 0);
    var i := 0;
    while i < |syms|
      invariant i <= |syms|
      invariant forall j :: 0 <= j < i ==> syms[j].name != sym
      invariant info' == info.(foundInDylib := 0)
    {
      if syms[i].name == sym {
        info' := FoundSymbol(HeaderOffset, false, header, extra, Wrap64(syms[i].value - baseAddress), 0, sym);
        break;
      }
      i := i + 1;
    }
    found := info'.foundInDylib != 0;
  }

  /** The trie branch: trieWalk over the export range, then the record or the re-exported dependents. */
  method SearchTrie(diag: Diagnostics, img: Image, init: LinkEditInfo, le: LinkEditInfo, sym: seq<byte>, extra: nat,
                    info: FoundSymbol, finder: Option<Finder>, fuel: nat) returns (found: bool, info': FoundSymbol)
    requires CString(sym) && init.layout.linkeditFileOffset < TWO_32
    requires le.dyldInfo.Some? && le.layout.linkeditFileOffset < TWO_32 && fuel >= 1
    modifies diag`errors
    ensures Outcome(found, info', diag.errors) == FromTrie(img, init, le, sym, extra, info, finder, fuel, old(diag.errors), diag.buffer)
    decreases fuel, 2
  {
    var trieStart := TrieStart(img, le);
    var trie := TrieBytes(img, le);
    ghost var hadError := diag.HasError();
    var node := TrieWalk(diag, trie, sym);
    if node.None? {
      found, info' := ScanReExports(diag, img, init, sym, extra, info, finder, fuel);
    } else {
      TrieWalkSound(trie, sym, hadError);
      found, info' := DecodeRecord(diag, img, init, trieStart, trie, node.value, sym, extra, info, finder, fuel);
    }
  }

  /**
   * The fallback when the trie lacks the name: forEachDependentDylib with
   * `depIndex` counting every dependent, each re-exported one the finder
   * supplies searched in turn until one has the name.
   */
  method ScanReExports(diag: Diagnostics, img: Image, init: LinkEditInfo, sym: seq<byte>, extra: nat, info: FoundSymbol,
                       finder: Option<Finder>, fuel: nat) returns (found: bool, info': FoundSymbol)
    requires CString(sym) && init.layout.linkeditFileOffset < TWO_32 && fuel >= 1
    modifies diag`errors
    ensures Outcome(found, info', diag.errors)
         == ReExportScan(img, init, sym, extra, info, finder, fuel, Dependents(img), 0, old(diag.errors), diag.buffer)
    decreases fuel, 1
  {
    var deps := Dependents(img);
    ghost var goal := ReExportScan(img, init, sym, extra, info, finder, fuel, deps, 0, diag.errors, diag.buffer);
    found, info' := false, info;
    var depIndex := 0;
    while depIndex < |deps| && !found
      invariant depIndex <= |deps|
      invariant !found ==> ReExportScan(img, init, sym, extra, info', finder, fuel, deps, depIndex, diag.errors, diag.buffer) == goal
      invariant found ==> Outcome(true, info', diag.errors) == goal
    {
      var d := deps[depIndex];
      if d.isReExport && finder.Some? {
        var dep := finder.value(depIndex, Some(d.loadPath), extra);
        if dep.Some? {
          var depFound, depInfo := FindExportedSymbol(diag, DependentImage(img, dep.value.0), init, sym, dep.value.1, info',
                                                      finder, fuel - 1);
          found, info' := depFound, depInfo;
        }
      }
      depIndex := depIndex + 1;
    }
  }

  /** The record at `node`: its flags, then a re-export or this image's own symbol. */
  method DecodeRecord(diag: Diagnostics, img: Image, init: LinkEditInfo, start: nat, data: seq<byte>, node: nat, sym: seq<byte>,
                      extra: nat, info: FoundSymbol, finder: Option<Finder>, fuel: nat) returns (found: bool, info': FoundSymbol)
    requires CString(sym) && init.layout.linkeditFileOffset < TWO_32 && node <= |data| && fuel >= 1
    modifies diag`errors
    ensures Outcome(found, info', diag.errors)
         == Record(img, init, start, data, node, sym, extra, info, finder, fuel, old(diag.errors), diag.buffer)
    decreases fuel, 1
  {
    var flags, p := ReadUleb128(diag, data, node);
    if HasBit(flags, REEXPORT_BIT) {
      found, info' := FollowReExport(diag, img, init, start, data, p, sym, extra, info, finder, fuel);
    } else {
      found, info' := DecodeLocal(diag, img, data, flags, p, node, sym, extra);
    }
  }

  /** This image's own symbol: the value, and the kind from the flags. */
  method DecodeLocal(diag: Diagnostics, img: Image, data: seq<byte>, flags: nat, p: nat, node: nat, sym: seq<byte>, extra: nat)
    returns (found: bool, info': FoundSymbol)
    requires p <= |data|
    modifies diag`errors
    ensures Outcome(found, info', diag.errors) == Local(img, data, flags, p, node, sym, extra, old(diag.errors), diag.buffer)
  {
    var value, q := ReadUleb128(diag, data, p);
    info' := FoundSymbol(HeaderOffset, false, HeaderOf(img.mh), extra, value, 0, sym);
    if diag.HasError() {
      return false, info';
    }
    var kind := flags % 4;
    if kind == KIND_REGULAR {
      if HasBit(flags, STUB_AND_RESOLVER_BIT) {
        var resolver, _ := ReadUleb128(diag, data, q);
        info' := info'.(resolverFuncOffset := Wrap32(resolver));
      }
    } else if kind == KIND_THREAD_LOCAL {
      info' := info'.(isThreadLocal := true);
    } else if kind == KIND_ABSOLUTE {
      info' := info'.(kind := Absolute);
    } else {
      diag.Error(UnsupportedExportKind(flags, node));
      return false, info';
    }
    found := true;
  }

  /** A re-export whose ordinal starts at `p`: the dependent is asked for the imported name. */
  method FollowReExport(diag: Diagnostics, img: Image, init: LinkEditInfo, start: nat, data: seq<byte>, p: nat, sym: seq<byte>,
                        extra: nat, info: FoundSymbol, finder: Option<Finder>, fuel: nat) returns (found: bool, info': FoundSymbol)
    requires CString(sym) && init.layout.linkeditFileOffset < TWO_32 && p <= |data| && fuel >= 1
    modifies diag`errors
    ensures Outcome(found, info', diag.errors)
         == ReExport(img, init, start, data, p, sym, extra, info, finder, fuel, old(diag.errors), diag.buffer)
    decreases fuel, 0, 1
  {
    if finder.None? {
      return false, info;
    }
    var ordinal, q := ReadUleb128(diag, data, p);
    found, info' := FollowOrdinal(diag, img, init, ordinal, start, q, sym, extra, info, finder.value, fuel);
    ReExportReadsOrdinal(img, init, start, data, p, sym, extra, info, finder.value, fuel, old(diag.errors), diag.buffer);
  }

  /** The dependent named by `ordinal`, through the finder. */
  method FollowOrdinal(diag: Diagnostics, img: Image, init: LinkEditInfo, ordinal: nat, start: nat, nameAt: nat, sym: seq<byte>,
                       extra: nat, info: FoundSymbol, finder: Finder, fuel: nat) returns (found: bool, info': FoundSymbol)
    requires CString(sym) && init.layout.linkeditFileOffset < TWO_32 && fuel >= 1
    modifies diag`errors
    ensures Outcome(found, info', diag.errors)
         == Imported(img, init, ordinal, start, nameAt, sym, extra, info, finder, fuel, old(diag.errors), diag.buffer)
    decreases fuel, 0, 0
  {
    if ordinal > DependentDylibCount(img) {
      diag.Error(OrdinalOutOfRange(ordinal, sym));
      return false, info;
    }
    var depIndex := DepIndex(ordinal);
    var dep := finder(depIndex, DependentDylibLoadPath(img, depIndex), extra);
    if dep.None? {
      diag.Error(DependentNotFound(ordinal, sym));
      return false, info;
    }
    var importedName := ImportedName(img, start + nameAt, sym);
    ImportedNameIsCString(img, start + nameAt, sym);
    assert Imported(img, init, ordinal, start, nameAt, sym, extra, info, finder, fuel, diag.errors, diag.buffer)
        == Lookup(DependentImage(img, dep.value.0), init, importedName, dep.value.1, info, Some(finder), fuel - 1,
                  diag.errors, diag.buffer);
    found, info' := FindExportedSymbol(diag, DependentImage(img, dep.value.0), init, importedName, dep.value.1, info,
                                       Some(finder), fuel - 1);
  }

  // ------------------------------------------------------------- hasExportedSymbol

  /**
   * The address hasExportedSymbol stores for a lookup's outcome: the dylib's
   * header plus the value, or for `Kind::absolute` the value itself, as a
   * pointer; `None` when the lookup failed. `Kind::resolverOffset`, whose
   * resolver it would call, gives `None` too.
   */
  function AddressOf(img: Image, o: Outcome): Option<nat>
  {
    if !o.found then None
    else match o.info.kind
      case HeaderOffset => Some(WrapPtr(img, o.info.foundInDylib + o.info.value))
      case Absolute => Some(WrapPtr(img, o.info.value))
      case ResolverOffset => None
  }

  /**
   * hasExportedSymbol's answer: the lookup runs with fresh diagnostics, the
   * header as `extra` and `info0` standing for the uninitialised `foundInfo`.
   */
  function Exported(img: Image, init: LinkEditInfo, sym: seq<byte>, finder: Option<Finder>, fuel: nat,
                    info0: FoundSymbol): Option<nat>
    requires init.layout.linkeditFileOffset < TWO_32
  {
    AddressOf(img, Lookup(img, init, sym, HeaderOf(img.mh), info0, finder, fuel, {}, None))
  }

  /**
   * hasExportedSymbol succeeds exactly when findExportedSymbol does: the
   * resolver branch, the only one that yields no address here, is never
   * taken.
   */
  lemma ExportedIffFound(img: Image, init: LinkEditInfo, sym: seq<byte>, finder: Option<Finder>, fuel: nat,
                         info0: FoundSymbol)
    requires init.layout.linkeditFileOffset < TWO_32
    ensures Exported(img, init, sym, finder, fuel, info0).Some?
        <==> Lookup(img, init, sym, HeaderOf(img.mh), info0, finder, fuel, {}, None).found
  {
    LookupSound(img, init, sym, HeaderOf(img.mh), info0, finder, fuel, {}, None);
  }

  /**
   * MachOParser::hasExportedSymbol: `*result` is written only on success;
   * `result0` is what it held before.
   */
  method HasExportedSymbol(img: Image, init: LinkEditInfo, sym: seq<byte>, finder: Option<Finder>, fuel: nat,
                           info0: FoundSymbol, result0: nat) returns (found: bool, result: nat)
    requires CString(sym) && init.layout.linkeditFileOffset < TWO_32
    ensures found <==> Exported(img, init, sym, finder, fuel, info0).Some?
    ensures result == if found then Exported(img, init, sym, finder, fuel, info0).value else result0
  {
    var diag := new Diagnostics(false);
    var info;
    found, info := FindExportedSymbol(diag, img, init, sym, HeaderOf(img.mh), info0, finder, fuel);
    ghost var o := Lookup(img, init, sym, HeaderOf(img.mh), info0, finder, fuel, {}, None);
    LookupSound(img, init, sym, HeaderOf(img.mh), info0, finder, fuel, {}, None);
    result := StoreAddress(img, found, info, result0, o);
  }

  /** The `switch` on `foundInfo.kind` after a lookup whose outcome is `o`. */
  method StoreAddress(img: Image, found: bool, info: FoundSymbol, result0: nat, ghost o: Outcome) returns (result: nat)
    requires o.found == found && o.info == info
    requires found ==> info.kind != ResolverOffset
    ensures AddressOf(img, o).Some? <==> found
    ensures result == if found then AddressOf(img, o).value else result0
  {
    result := result0;
    if found {
      match info.kind
      case HeaderOffset =>
        result := WrapPtr(img, info.foundInDylib + info.value);
      case Absolute =>
        result := WrapPtr(img, info.value);
    }
  }
}
