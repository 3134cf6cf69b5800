/**
 * The Win64 machine-dependent preparation of
 * darwin_osx/src/x86/bdffcw64_x86_64.c: `bdffc_prep_cif_machdep` turns the
 * return type into the flags and sizes the argument area, the closure
 * preparations check the ABI and write the trampoline, and the closure
 * entry `bdffc_closure_win64_inner` chooses where each argument is read.
 *
 * The flags are type codes. `cif->bytes` is a 32-bit `unsigned`; `uintptr_t`
 * has 64 bits. The entry points are given as addresses.
 */
module FfiWin64 {
  import opened Bytes
  import opened FfiCommon

  // The `bdffc_abi` values of the x86-64 Darwin branch of the target header.
  const ABI_UNIX64: nat := 2
  const ABI_WIN64: nat := 3
  const ABI_GNUW64: nat := 4

  /** `BDFFC_TRAMPOLINE_SIZE` on x86-64. */
  const TRAMPOLINE_SIZE: nat := 24

  /** Registers carry the first four arguments. */
  const REGISTER_ARGS: nat := 4

  /** `sizeof(UINT64)`: every argument occupies one 8-byte slot. */
  const SLOT_SIZE: nat := 8

  /**
   * `leaq -0x7(%rip),%r10; jmpq *0x3(%rip); nopl (%rax)`: the first
   * instruction loads the trampoline's own address, the second jumps
   * through the 8 bytes stored right after the template.
   */
  const TEMPLATE: seq<byte> :=
    [0x4c, 0x8d, 0x15, 0xf9, 0xff, 0xff, 0xff,
     0xff, 0x25, 0x03, 0x00, 0x00, 0x00,
     0x0f, 0x1f, 0x00]

  /** Addresses of the assembly entry points. */
  datatype Stubs = Stubs(closureWin64: nat, goClosureWin64: nat)

  /** The two ABIs this file implements. */
  predicate AbiAccepted(abi: nat)
  {
    abi == ABI_WIN64 || abi == ABI_GNUW64
  }

  // ------------------------------------------------------------- bdffc_prep_cif_machdep

  /** The size switch for aggregates: register-sized ones come back in RAX. */
  function SizeFlags(size: nat): nat
  {
    if size == 8 then TYPE_UINT64
    else if size == 4 then TYPE_SMALL_STRUCT_4B
    else if size == 2 then TYPE_SMALL_STRUCT_2B
    else if size == 1 then TYPE_SMALL_STRUCT_1B
    else TYPE_STRUCT
  }

  /** The return switch: a complex is a struct, and GNU returns long double by reference. */
  function ReturnFlags(abi: nat, rtype: TypeDesc): nat
  {
    var tag := rtype.tag;
    if tag == TYPE_LONGDOUBLE then
      if abi == ABI_GNUW64 then TYPE_STRUCT else tag
    else if tag == TYPE_COMPLEX || tag == TYPE_STRUCT then SizeFlags(rtype.size)
    else tag
  }

  /** `(int) x` of an `unsigned` x. */
  function ToInt32(x: nat): int
  {
    var w := Wrap32(x);
    if w < TWO_32 / 2 then w else w - TWO_32
  }

  /** `cif->bytes`: one 8-byte slot per argument and for a hidden result pointer, at least four. */
  function CifBytes(nargs: nat, flags: nat): nat
  {
    var n := ToInt32(nargs) + (if flags == TYPE_STRUCT then 1 else 0);
    var n' := if n < REGISTER_ARGS then REGISTER_ARGS else n;
    Wrap32(n' * SLOT_SIZE)
  }

  /** `bdffc_prep_cif_machdep`: BAD_ABI writes nothing; BAD_TYPEDEF never happens. */
  method PrepCifMachdep(cif: Cif<nat>) returns (status: Status)
    modifies cif
    ensures status == (if AbiAccepted(cif.abi) then Ok else BadAbi)
    ensures cif.abi == old(cif.abi) && cif.argTypes == old(cif.argTypes) && cif.rtype == old(cif.rtype)
    ensures status == BadAbi ==> cif.flags == old(cif.flags) && cif.bytes == old(cif.bytes)
    ensures status == Ok ==>
      cif.flags == ReturnFlags(cif.abi, cif.rtype) && cif.bytes == CifBytes(|cif.argTypes|, cif.flags)
  {
    if !(cif.abi == ABI_WIN64 || cif.abi == ABI_GNUW64) {
      return BadAbi;
    }
    var flags := cif.rtype.tag;
    if flags == TYPE_LONGDOUBLE {
      if cif.abi == ABI_GNUW64 {
        flags := TYPE_STRUCT;
      }
    } else if flags == TYPE_COMPLEX || flags == TYPE_STRUCT {
      flags := TYPE_STRUCT;
      var size := cif.rtype.size;
      if size == 8 {
        flags := TYPE_UINT64;
      } else if size == 4 {
        flags := TYPE_SMALL_STRUCT_4B;
      } else if size == 2 {
        flags := TYPE_SMALL_STRUCT_2B;
      } else if size == 1 {
        flags := TYPE_SMALL_STRUCT_1B;
      }
    }
    cif.flags := flags;
    var n := ToInt32(|cif.argTypes|);
    n := n + if flags == TYPE_STRUCT then 1 else 0;
    if n < REGISTER_ARGS {
      n := REGISTER_ARGS;
    }
    cif.bytes := Wrap32(n * SLOT_SIZE);
    status := Ok;
  }

  // ------------------------------------------------------------- properties of the preparation

  /**
   * Structs and complex values of 8, 4, 2 and 1 bytes come back as UINT64
   * and the three small-struct codes; any other size stays STRUCT.
   */
  lemma AggregateReturn(abi: nat, rtype: TypeDesc)
    requires rtype.tag == TYPE_STRUCT || rtype.tag == TYPE_COMPLEX
    ensures var f := ReturnFlags(abi, rtype);
      && (f == TYPE_STRUCT <==> rtype.size !in {1, 2, 4, 8})
      && (rtype.size == 8 ==> f == TYPE_UINT64)
      && (rtype.size == 4 ==> f == TYPE_SMALL_STRUCT_4B)
      && (rtype.size == 2 ==> f == TYPE_SMALL_STRUCT_2B)
      && (rtype.size == 1 ==> f == TYPE_SMALL_STRUCT_1B)
  {
  }

  /** Long double becomes STRUCT exactly under GNUW64, whatever its size. */
  lemma LongDoubleReturn(abi: nat, rtype: TypeDesc)
    requires rtype.tag == TYPE_LONGDOUBLE
    ensures ReturnFlags(abi, rtype) == TYPE_STRUCT <==> abi == ABI_GNUW64
    ensures abi != ABI_GNUW64 ==> ReturnFlags(abi, rtype) == rtype.tag
  {
  }

  /** Every other return type keeps its own code. */
  lemma OtherReturn(abi: nat, rtype: TypeDesc)
    requires rtype.tag !in {TYPE_LONGDOUBLE, TYPE_STRUCT, TYPE_COMPLEX}
    ensures ReturnFlags(abi, rtype) == rtype.tag
  {
  }

  /** The result travels through memory (flags STRUCT) only for an aggregate of another size or a GNU long double. */
  lemma StructFlagsIff(abi: nat, rtype: TypeDesc)
    ensures ReturnFlags(abi, rtype) == TYPE_STRUCT <==>
      ((rtype.tag == TYPE_STRUCT || rtype.tag == TYPE_COMPLEX) && rtype.size !in {1, 2, 4, 8})
      || (rtype.tag == TYPE_LONGDOUBLE && abi == ABI_GNUW64)
  {
  }

  /** `cif->bytes` is always a multiple of 8, wrap-around included. */
  lemma CifBytesAligned(nargs: nat, flags: nat)
    ensures CifBytes(nargs, flags) % SLOT_SIZE == 0
  {
    var n := ToInt32(nargs) + (if flags == TYPE_STRUCT then 1 else 0);
    var n' := if n < REGISTER_ARGS then REGISTER_ARGS else n;
    WrapEights(n');
  }

  /** `8 n` reduced to 32 bits is still a multiple of 8. */
  lemma WrapEights(n: int)
    ensures Wrap32(n * SLOT_SIZE) % SLOT_SIZE == 0
  {
    var q := (n * SLOT_SIZE) / TWO_32;
    var r := Wrap32(n * SLOT_SIZE);
    assert n * SLOT_SIZE == TWO_32 * q + r;
    assert r == SLOT_SIZE * (n - 0x2000_0000 * q);
    DivModUnique(r, SLOT_SIZE, n - 0x2000_0000 * q, 0);
  }

  /**
   * While the slot count stays below 2^28 nothing overflows: the area is
   * exactly one slot per argument and hidden pointer, at least four, so at
   * least 32 bytes.
   */
  lemma CifBytesValue(nargs: nat, flags: nat)
    requires nargs < 0x1000_0000
    ensures var s := nargs + (if flags == TYPE_STRUCT then 1 else 0);
      CifBytes(nargs, flags) == SLOT_SIZE * (if s < REGISTER_ARGS then REGISTER_ARGS else s)
    ensures CifBytes(nargs, flags) >= 32
  {
  }

  // ------------------------------------------------------------- closure arguments

  /**
   * Where `bdffc_closure_win64_inner` finds an argument: the saved register
   * `fargs[n]`, the stack slot `args[n]` itself, or the object `args[n]`
   * points to.
   */
  datatype Slot = FArg(index: nat) | Arg(index: nat) | ArgPointee(index: nat)

  /** The slot of the first argument: one past the hidden result pointer. */
  function FirstSlot(flags: nat): nat
  {
    if flags == TYPE_STRUCT then 1 else 0
  }

  /** The choice for one argument in slot `nreg`. */
  function SlotOf(t: TypeDesc, nreg: nat): Slot
  {
    if t.tag == TYPE_DOUBLE || t.tag == TYPE_FLOAT then
      if nreg < REGISTER_ARGS then FArg(nreg) else Arg(nreg)
    else if t.size == 1 || t.size == 2 || t.size == 4 || t.size == 8 then Arg(nreg)
    else ArgPointee(nreg)
  }

  /** The argument loop of `bdffc_closure_win64_inner`: `avalue[i]` for each argument. */
  method ClosureArgSlots(flags: nat, ts: seq<TypeDesc>) returns (avalue: seq<Slot>)
    ensures |avalue| == |ts|
    ensures forall i | 0 <= i < |ts| :: avalue[i] == SlotOf(ts[i], i + FirstSlot(flags))
  {
    var nreg := 0;
    if flags == TYPE_STRUCT {
      nreg := 1;
    }
    avalue := [];
    for i := 0 to |ts|
      invariant nreg == i + FirstSlot(flags)
      invariant |avalue| == i
      invariant forall j | 0 <= j < i :: avalue[j] == SlotOf(ts[j], j + FirstSlot(flags))
    {
      var size := ts[i].size;
      var tag := ts[i].tag;
      var a: Slot;
      if tag == TYPE_DOUBLE || tag == TYPE_FLOAT {
        if nreg < REGISTER_ARGS {
          a := FArg(nreg);
        } else {
          a := Arg(nreg);
        }
      } else if size == 1 || size == 2 || size == 4 || size == 8 {
        a := Arg(nreg);
      } else {
        a := ArgPointee(nreg);
      }
      avalue := avalue + [a];
      nreg := nreg + 1;
    }
  }

  /**
   * The kinds of slot: a float or double in one of the first four slots is
   * read from `fargs`; a 1, 2, 4 or 8-byte value, or a float or double
   * further on, in place from `args`; anything else by reference. The slot
   * index is `nreg` in every case.
   */
  lemma SlotKinds(t: TypeDesc, nreg: nat)
    ensures SlotOf(t, nreg).index == nreg
    ensures SlotOf(t, nreg).FArg? <==> t.tag in {TYPE_FLOAT, TYPE_DOUBLE} && nreg < REGISTER_ARGS
    ensures SlotOf(t, nreg).ArgPointee? <==> t.tag !in {TYPE_FLOAT, TYPE_DOUBLE} && t.size !in {1, 2, 4, 8}
    ensures SlotOf(t, nreg).Arg? <==>
      (t.tag in {TYPE_FLOAT, TYPE_DOUBLE} && nreg >= REGISTER_ARGS)
      || (t.tag !in {TYPE_FLOAT, TYPE_DOUBLE} && t.size in {1, 2, 4, 8})
  {
  }

  /**
   * The slots the closure reads all lie in the argument area the
   * preparation sized: with a struct result every argument moves up one
   * slot, and argument `i`'s slot ends within `cif->bytes`.
   */
  lemma SlotsInFrame(abi: nat, rtype: TypeDesc, ts: seq<TypeDesc>, i: nat)
    requires i < |ts| < 0x1000_0000
    ensures var flags := ReturnFlags(abi, rtype);
      var slot := SlotOf(ts[i], i + FirstSlot(flags)).index;
      && slot == i + (if flags == TYPE_STRUCT then 1 else 0)
      && SLOT_SIZE * (slot + 1) <= CifBytes(|ts|, flags)
  {
    var flags := ReturnFlags(abi, rtype);
    SlotKinds(ts[i], i + FirstSlot(flags));
    CifBytesValue(|ts|, flags);
  }

  // ------------------------------------------------------------- trampolines

  /** The trampoline bytes: the template, then the entry's address at offset 16. */
  function Trampoline(entry: nat): seq<byte>
  {
    TEMPLATE + LeBytes(Wrap64(entry), 8)
  }

  /** A little-endian `int32_t` displacement. */
  function Displacement(s: seq<byte>): int
  {
    var u := FromLe(s);
    if u < TWO_32 / 2 then u else u - TWO_32
  }

  /**
   * The template addresses its own start and the stored entry: the `leaq`
   * ends at 7 and subtracts 7, the `jmpq` ends at 13 and reads 3 bytes
   * further, at the 8 bytes written after the template, which hold the
   * entry point.
   */
  lemma TrampolineTargets(entry: nat)
    requires entry < TWO_64
    ensures var tr := Trampoline(entry);
      && |tr| == TRAMPOLINE_SIZE && tr[..16] == TEMPLATE
      && 7 + Displacement(tr[3..7]) == 0
      && 13 + Displacement(tr[9..13]) == |TEMPLATE|
      && FromLe(tr[|TEMPLATE|..]) == entry
  {
    var tr := Trampoline(entry);
    assert tr[3..7] == [0xf9, 0xff, 0xff, 0xff];
    assert tr[9..13] == [0x03, 0x00, 0x00, 0x00];
    LeWord(0xf9, 0xff, 0xff, 0xff);
    LeWord(0x03, 0x00, 0x00, 0x00);
    assert tr[|TEMPLATE|..] == LeBytes(Wrap64(entry), 8);
    Pow2Word();
    assert 8 * 8 == 64;
    LeRoundTrip(entry, 8);
  }

  /** The value of four little-endian bytes. */
  lemma LeWord(b0: byte, b1: byte, b2: byte, b3: byte)
    ensures FromLe([b0, b1, b2, b3]) == b0 as nat + 0x100 * b1 as nat + 0x1_0000 * b2 as nat + 0x100_0000 * b3 as nat
  {
    assert [b3][1..] == [];
    assert FromLe([b3]) == b3 as nat;
    assert [b2, b3][1..] == [b3];
    assert FromLe([b2, b3]) == b2 as nat + 256 * b3 as nat;
    assert [b1, b2, b3][1..] == [b2, b3];
    assert FromLe([b1, b2, b3]) == b1 as nat + 256 * (b2 as nat + 256 * b3 as nat);
    assert [b0, b1, b2, b3][1..] == [b1, b2, b3];
  }

  /** `bdffc_closure`: the trampoline bytes and what it hands over. */
  class Closure {
    var tramp: array<byte>
    var cif: Cif?<nat>
    var fun: nat
    var userData: nat

    constructor(tramp: array<byte>)
      ensures this.tramp == tramp && cif == null && fun == 0 && userData == 0
    {
      this.tramp := tramp;
      cif := null;
      fun := 0;
      userData := 0;
    }
  }

  /** `bdffc_prep_closure_loc`: BAD_ABI writes nothing; otherwise the 24 trampoline bytes and the fields are set. */
  method PrepClosureLoc(closure: Closure, cif: Cif<nat>, fun: nat, userData: nat, codeloc: nat, stubs: Stubs)
    returns (status: Status)
    requires closure.tramp.Length == TRAMPOLINE_SIZE
    modifies closure, closure.tramp
    ensures status == (if AbiAccepted(cif.abi) then Ok else BadAbi)
    ensures closure.tramp == old(closure.tramp)
    ensures status == BadAbi ==>
      closure.tramp[..] == old(closure.tramp[..]) && closure.cif == old(closure.cif)
      && closure.fun == old(closure.fun) && closure.userData == old(closure.userData)
    ensures status == Ok ==>
      closure.tramp[..] == Trampoline(stubs.closureWin64)
      && closure.cif == cif && closure.fun == fun && closure.userData == userData
  {
    if !(cif.abi == ABI_WIN64 || cif.abi == ABI_GNUW64) {
      return BadAbi;
    }
    var tramp := closure.tramp;
    Store(tramp, 0, TEMPLATE);
    Store(tramp, |TEMPLATE|, LeBytes(Wrap64(stubs.closureWin64), 8));
    assert tramp[..] == TEMPLATE + LeBytes(Wrap64(stubs.closureWin64), 8);
    closure.cif := cif;
    closure.fun := fun;
    closure.userData := userData;
    status := Ok;
  }

  /** `bdffc_go_closure`: the entry point it jumps to and what it hands over. */
  class GoClosure {
    var tramp: nat
    var cif: Cif?<nat>
    var fun: nat

    constructor()
      ensures tramp == 0 && cif == null && fun == 0
    {
      tramp := 0;
      cif := null;
      fun := 0;
    }
  }

  /** `bdffc_prep_go_closure`: BAD_ABI writes nothing. */
  method PrepGoClosure(closure: GoClosure, cif: Cif<nat>, fun: nat, stubs: Stubs) returns (status: Status)
    modifies closure
    ensures status == (if AbiAccepted(cif.abi) then Ok else BadAbi)
    ensures status == BadAbi ==> closure.tramp == old(closure.tramp) && closure.cif == old(closure.cif) && closure.fun == old(closure.fun)
    ensures status == Ok ==> closure.tramp == stubs.goClosureWin64 && closure.cif == cif && closure.fun == fun
  {
    if !(cif.abi == ABI_WIN64 || cif.abi == ABI_GNUW64) {
      return BadAbi;
    }
    closure.tramp := stubs.goClosureWin64;
    closure.cif := cif;
    closure.fun := fun;
    status := Ok;
  }
}
