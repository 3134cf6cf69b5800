/**
 * The classic symbol table (`LC_SYMTAB` / `LC_DYSYMTAB`):
 * MachOParser::forEachGlobalSymbol and forEachLocalSymbol, which hand on the
 * defined external (respectively non-external) section symbols, and
 * MachOParser::findClosestSymbol, which keeps the largest value not above a
 * target address.
 */
module Symbols {
  import opened Wrappers
  import opened Bytes
  import opened Diag
  import opened LoadCommands
  import opened Segments
  import opened Layout
  import opened LinkEdit

  /** The `n_type` masks of `<mach-o/nlist.h>`. */
  const N_STAB: bv8 := 0xe0
  const N_TYPE: bv8 := 0x0e
  const N_EXT: bv8 := 0x01
  /** The `N_TYPE` value of a symbol defined in a section. */
  const N_SECT: bv8 := 0x0e

  const NLIST_64_SIZE: nat := 16
  const NLIST_SIZE: nat := 12

  /** One `nlist` / `nlist_64` entry, read in the width of the file. */
  datatype Nlist = Nlist(strx: nat, ntype: bv8, sect: nat, desc: nat, value: nat)

  /** What a scan hands to its callback for one symbol. */
  datatype Symbol = Symbol(name: seq<byte>, value: nat, ntype: bv8, sect: nat, desc: nat)

  /** forEachGlobalSymbol or forEachLocalSymbol. */
  datatype Which = Globals | Locals

  /**
   * The range a scan walks: where the entries and the string pool are, the
   * string-pool size, and the first index and number of entries.
   */
  datatype SymbolTable = SymbolTable(is64: bool, symbols: nat, strings: nat, maxStringOffset: nat, start: nat, count: nat)

  /**
   * The symbol range of `info`: none without `LC_SYMTAB`; the whole table
   * without `LC_DYSYMTAB`; otherwise the external-definition range (globals)
   * or the local range (locals) of `LC_DYSYMTAB`.
   */
  function TableOf(img: Image, info: LinkEditInfo, which: Which): (t: Option<SymbolTable>)
    requires info.layout.linkeditFileOffset < TWO_32
    ensures t.None? <==> info.symTab.None?
    ensures t.Some? ==> t.value.is64 == img.lp64
    ensures t.Some? && info.dynSymTab.None? ==> t.value.start == 0 && t.value.count == U32At(img.mem, info.symTab.value.addr + 12)
  {
    match info.symTab
    case None => None
    case Some(symTab) =>
      var m := img.mem;
      var range :=
        match info.dynSymTab
        case None => (0, U32At(m, symTab.addr + 12))
        case Some(dy) =>
          if which == Globals then (U32At(m, dy.addr + 16), U32At(m, dy.addr + 20))
          else (U32At(m, dy.addr + 8), U32At(m, dy.addr + 12));
      Some(SymbolTable(Is64(img),
                       LinkEditContent(img, info.layout, U32At(m, symTab.addr + 8)),
                       LinkEditContent(img, info.layout, U32At(m, symTab.addr + 16)),
                       U32At(m, symTab.addr + 20), range.0, range.1))
  }

  /** The `i`-th entry of the range; the index `start + i` is a 32-bit sum. */
  function NlistAt(img: Image, t: SymbolTable, i: nat): (n: Nlist)
    ensures n.strx < TWO_32 && n.value < TWO_64
    ensures !t.is64 ==> n.value < TWO_32
  {
    var index := Wrap32(t.start + i);
    var m := img.mem;
    if t.is64 then
      var a := WrapPtr(img, t.symbols + NLIST_64_SIZE * index);
      Nlist(U32At(m, a), U8At(m, a + 4) as bv8, U8At(m, a + 5), U16At(m, a + 6), U64At(m, a + 8))
    else
      var a := WrapPtr(img, t.symbols + NLIST_SIZE * index);
      Nlist(U32At(m, a), U8At(m, a + 4) as bv8, U8At(m, a + 5), U16At(m, a + 6), U32At(m, a + 8))
  }

  /** The type test of each scan: defined in a section, not a debugging entry, and external or not. */
  predicate Eligible(which: Which, ntype: bv8)
  {
    && ((ntype & N_EXT != 0) <==> which == Globals)
    && ntype & N_TYPE == N_SECT
    && ntype & N_STAB == 0
  }

  /** Entry `i` is handed on: its name lies inside the string pool and its type passes the test. */
  predicate Admitted(img: Image, t: SymbolTable, which: Which, i: nat)
  {
    var n := NlistAt(img, t, i);
    n.strx <= t.maxStringOffset && Eligible(which, n.ntype)
  }

  function SymbolOf(img: Image, t: SymbolTable, n: Nlist): Symbol
  {
    Symbol(CStringAt(img.mem, WrapPtr(img, t.strings + n.strx)), n.value, n.ntype, n.sect, n.desc)
  }

  /** What the scan hands on from the first `k` entries of the range, in order. */
  function Delivered(img: Image, t: SymbolTable, which: Which, k: nat): (syms: seq<Symbol>)
    ensures |syms| <= k
  {
    if k == 0 then []
    else Delivered(img, t, which, k - 1) + (if Admitted(img, t, which, k - 1) then [SymbolOf(img, t, NlistAt(img, t, k - 1))] else [])
  }

  lemma DeliveredNext(img: Image, t: SymbolTable, which: Which, i: nat, n: Nlist)
    requires n == NlistAt(img, t, i)
    ensures n.strx > t.maxStringOffset ==> Delivered(img, t, which, i + 1) == Delivered(img, t, which, i)
    ensures n.strx <= t.maxStringOffset ==>
      Delivered(img, t, which, i + 1) == Delivered(img, t, which, i) + (if Eligible(which, n.ntype) then [SymbolOf(img, t, n)] else [])
  {
  }

  /**
   * A scan hands on exactly the admitted entries: each symbol it delivers is
   * an admitted entry of the range, and each admitted entry is delivered.
   */
  lemma {:induction false} DeliveredIff(img: Image, t: SymbolTable, which: Which, k: nat)
    ensures forall s :: s in Delivered(img, t, which, k) ==>
              exists i :: 0 <= i < k && Admitted(img, t, which, i) && s == SymbolOf(img, t, NlistAt(img, t, i))
    ensures forall i :: 0 <= i < k && Admitted(img, t, which, i) ==>
              SymbolOf(img, t, NlistAt(img, t, i)) in Delivered(img, t, which, k)
  {
    if k > 0 {
      DeliveredIff(img, t, which, k - 1);
    }
  }

  /** Every symbol a scan delivers has the type its scan asks for. */
  lemma {:induction false} DeliveredEligible(img: Image, t: SymbolTable, which: Which, k: nat)
    ensures forall s :: s in Delivered(img, t, which, k) ==> Eligible(which, s.ntype)
  {
    if k > 0 {
      DeliveredEligible(img, t, which, k - 1);
    }
  }

  /**
   * What a scan delivers after getLinkEditPointers: nothing once the
   * diagnostics hold an error or without `LC_SYMTAB`, else the admitted
   * entries of its range.
   */
  function SymbolsOf(img: Image, init: LinkEditInfo, which: Which, noError: bool): seq<Symbol>
    requires init.layout.linkeditFileOffset < TWO_32
  {
    if !noError then []
    else
      LinkEditPointersOffset(img, init, noError);
      match TableOf(img, LinkEditPointers(img, init, noError), which)
      case None => []
      case Some(t) => Delivered(img, t, which, t.count)
  }

  /**
   * MachOParser::forEachGlobalSymbol (`Globals`) and forEachLocalSymbol
   * (`Locals`), returning in order the symbols handed to the callback.
   * `init` is the uninitialised `LinkEditInfo` the scan starts from.
   */
  method ForEachSymbol(diag: Diagnostics, img: Image, which: Which, init: LinkEditInfo) returns (syms: seq<Symbol>)
    requires init.layout.linkeditFileOffset < TWO_32
    modifies diag`errors
    ensures diag.errors == LinkEditErrors(img, old(diag.errors), diag.buffer)
    ensures syms == SymbolsOf(img, init, which, diag.NoError())
  {
    var info := GetLinkEditPointers(diag, img, init);
    if diag.HasError() {
      return [];
    }
    LinkEditPointersOffset(img, init, true);
    var table := TableOf(img, info, which);
    if table.None? {
      return [];
    }
    syms := ScanTable(img, table.value, which);
  }

  /** The loop of the scans over the entries of their range. */
  method ScanTable(img: Image, t: SymbolTable, which: Which) returns (syms: seq<Symbol>)
    ensures syms == Delivered(img, t, which, t.count)
  {
    syms := [];
    var i: nat := 0;
    while i < t.count
      invariant i <= t.count
      invariant syms == Delivered(img, t, which, i)
    {
      var n := NlistAt(img, t, i);
      DeliveredNext(img, t, which, i, n);
      if n.strx > t.maxStringOffset {
        i := i + 1;
        continue;
      }
      if Eligible(which, n.ntype) {
        syms := syms + [SymbolOf(img, t, n)];
      }
      i := i + 1;
    }
  }

  /** One callback of findClosestSymbol: take `s` if it is not above `target` and beats what was kept. */
  function Better(kept: Option<Symbol>, s: Symbol, target: nat): Option<Symbol>
  {
    if s.value <= target && (kept.None? || kept.value.value < s.value) then Some(s) else kept
  }

  /** What findClosestSymbol keeps after the callbacks for `syms`. */
  function ClosestOf(syms: seq<Symbol>, target: nat): Option<Symbol>
  {
    if |syms| == 0 then None
    else Better(ClosestOf(syms[..|syms| - 1], target), syms[|syms| - 1], target)
  }

  /**
   * `syms[i]` is the answer: not above `target`, at least as large as every
   * candidate not above `target`, and strictly larger than every such
   * candidate before it.
   */
  predicate EarliestBest(syms: seq<Symbol>, target: nat, i: nat)
    requires i < |syms|
  {
    && syms[i].value <= target
    && (forall j :: 0 <= j < |syms| && syms[j].value <= target ==> syms[j].value <= syms[i].value)
    && (forall j :: 0 <= j < i && syms[j].value <= target ==> syms[j].value < syms[i].value)
  }

  /**
   * findClosestSymbol keeps nothing exactly when every candidate lies above
   * the target, and otherwise the earliest candidate with the largest value
   * not above it.
   */
  lemma {:induction false} ClosestIsEarliestBest(syms: seq<Symbol>, target: nat)
    ensures ClosestOf(syms, target).None? <==> forall i :: 0 <= i < |syms| ==> syms[i].value > target
    ensures ClosestOf(syms, target).Some? ==>
              exists i :: 0 <= i < |syms| && syms[i] == ClosestOf(syms, target).value && EarliestBest(syms, target, i)
  {
    if |syms| > 0 {
      var ys := syms[..|syms| - 1];
      var s := syms[|syms| - 1];
      ClosestIsEarliestBest(ys, target);
      var kept := ClosestOf(ys, target);
      assert forall j :: 0 <= j < |ys| ==> syms[j] == ys[j];
      if s.value <= target && (kept.None? || kept.value.value < s.value) {
        assert EarliestBest(syms, target, |syms| - 1);
      } else if kept.Some? {
        var i :| 0 <= i < |ys| && ys[i] == kept.value && EarliestBest(ys, target, i);
        assert EarliestBest(syms, target, i);
      }
    }
  }

  /**
   * The callback of findClosestSymbol applied to `syms`, continuing from the
   * name and value kept so far (`name` is None for the null pointer).
   */
  method ConsiderAll(syms: seq<Symbol>, target: nat, name0: Option<seq<byte>>, value0: nat, ghost prior: seq<Symbol>)
    returns (name: Option<seq<byte>>, value: nat)
    requires Keeps(ClosestOf(prior, target), name0, value0)
    ensures Keeps(ClosestOf(prior + syms, target), name, value)
  {
    name, value := name0, value0;
    assert prior + syms[..0] == prior;
    for k := 0 to |syms|
      invariant Keeps(ClosestOf(prior + syms[..k], target), name, value)
    {
      var s := syms[k];
      assert (prior + syms[..k + 1])[..|prior + syms[..k + 1]| - 1] == prior + syms[..k];
      if s.value <= target {
        if name.None? || value < s.value {
          value := s.value;
          name := Some(s.name);
        }
      }
    }
    assert syms[..|syms|] == syms;
  }

  /** The variables `closestNameSoFar` and `closestNValueSoFar` stand for `kept`. */
  predicate Keeps(kept: Option<Symbol>, name: Option<seq<byte>>, value: nat)
  {
    match kept
    case None => name.None? && value == 0
    case Some(s) => name == Some(s.name) && value == s.value
  }

  /**
   * The candidates findClosestSymbol sees: the global symbols, then the
   * local ones, or none when getLinkEditPointers reports an error.
   */
  function Candidates(img: Image, init: LinkEditInfo): seq<Symbol>
    requires init.layout.linkeditFileOffset < TWO_32
  {
    var ok := LinkEditErrors(img, {}, None) == {};
    SymbolsOf(img, init, Globals, ok) + SymbolsOf(img, init, Locals, ok)
  }

  /** The second scan of findClosestSymbol finds an error exactly when the first one did. */
  lemma SecondScanSeesFirst(img: Image)
    ensures var first := LinkEditErrors(img, {}, None);
      (LinkEditErrors(img, first, None) == {}) == (first == {})
  {
  }

  /**
   * MachOParser::findClosestSymbol(uint64_t, ...): with a fresh
   * `Diagnostics`, the global then the local symbols are offered to one
   * running maximum; false when nothing was kept.
   */
  method FindClosestSymbol(img: Image, init: LinkEditInfo, target: nat)
    returns (found: bool, name: seq<byte>, value: nat)
    requires init.layout.linkeditFileOffset < TWO_32
    ensures found <==> ClosestOf(Candidates(img, init), target).Some?
    ensures found ==> (ClosestOf(Candidates(img, init), target).value.name == name &&
                       ClosestOf(Candidates(img, init), target).value.value == value)
    ensures LinkEditErrors(img, {}, None) != {} ==> !found
  {
    var diag := new Diagnostics(false);
    ghost var ok := LinkEditErrors(img, {}, None) == {};
    SecondScanSeesFirst(img);
    var globals := ForEachSymbol(diag, img, Globals, init);
    assert globals == SymbolsOf(img, init, Globals, ok);
    var closestName, closestValue := ConsiderAll(globals, target, None, 0, []);
    assert [] + globals == globals;
    var locals := ForEachSymbol(diag, img, Locals, init);
    assert locals == SymbolsOf(img, init, Locals, ok);
    closestName, closestValue := ConsiderAll(locals, target, closestName, closestValue, globals);
    if closestName.None? {
      return false, [], 0;
    }
    found, name, value := true, closestName.value, closestValue;
  }

  /** A value moved by the slide, as a pointer: `(long)(unslid + slide)`. */
  function Slid(img: Image, unslid: nat, slide: int): nat
  {
    WrapPtr(img, unslid + slide)
  }

  /**
   * MachOParser::findClosestSymbol(const void*, ...), in-process: the
   * address is unslid before the search and the symbol's value slid after.
   */
  method FindClosestSymbolAt(img: Image, init: LinkEditInfo, addr: nat)
    returns (found: bool, name: seq<byte>, symbolAddress: nat)
    requires init.layout.linkeditFileOffset < TWO_32
    ensures found <==> ClosestOf(Candidates(img, init), Wrap64(addr - GetSlide(img))).Some?
    ensures found ==> name == ClosestOf(Candidates(img, init), Wrap64(addr - GetSlide(img))).value.name
    ensures found ==>
      symbolAddress == Slid(img, ClosestOf(Candidates(img, init), Wrap64(addr - GetSlide(img))).value.value, GetSlide(img))
  {
    found, name, symbolAddress := ClosestWithSlide(img, init, addr, GetSlide(img));
  }

  /** The search once the slide is known. */
  method ClosestWithSlide(img: Image, init: LinkEditInfo, addr: nat, slide: int)
    returns (found: bool, name: seq<byte>, symbolAddress: nat)
    requires init.layout.linkeditFileOffset < TWO_32
    ensures found <==> ClosestOf(Candidates(img, init), Wrap64(addr - slide)).Some?
    ensures found ==> name == ClosestOf(Candidates(img, init), Wrap64(addr - slide)).value.name
    ensures found ==> symbolAddress == Slid(img, ClosestOf(Candidates(img, init), Wrap64(addr - slide)).value.value, slide)
  {
    var symbolUnslidAddr;
    found, name, symbolUnslidAddr := FindClosestSymbol(img, init, Wrap64(addr - slide));
    if found {
      symbolAddress := Slid(img, symbolUnslidAddr, slide);
    } else {
      symbolAddress := 0;
    }
  }
}
