/**
 * The i386 machine-dependent preparation of darwin_ios/src/x86/bdffc_i386.c:
 * `bdffc_prep_cif_machdep` classifies the return type and sizes the
 * argument frame, and the three closure preparations check the ABI and
 * write their trampolines.
 *
 * `size_t` and `unsigned` are 32 bits wide here. The return kinds
 * `X86_RET_*` come from internal.h, which is not part of this model, so
 * they are symbolic. The entry points the trampolines jump to are given as
 * addresses (`Stubs`).
 */
module FfiI386 {
  import opened Wrappers
  import opened Bytes
  import opened FfiCommon

  // The `bdffc_abi` values of the i386 branch of the target header.
  const ABI_SYSV: nat := 1
  const ABI_THISCALL: nat := 3
  const ABI_FASTCALL: nat := 4
  const ABI_STDCALL: nat := 5
  const ABI_PASCAL: nat := 6
  const ABI_REGISTER: nat := 7
  const ABI_MS_CDECL: nat := 8

  /** This file forces the long double type code to 4, apart from DOUBLE. */
  const LONGDOUBLE_80: nat := 4

  /** `BDFFC_SIZEOF_ARG` where `long` has 32 bits. */
  const SIZEOF_ARG: nat := 4
  const SIZE_BITS: nat := 32

  /** `sizeof(void*)`. */
  const POINTER_SIZE: nat := 4

  /** `BDFFC_TRAMPOLINE_SIZE` on i386. */
  const TRAMPOLINE_SIZE: nat := 12

  // Opcodes the trampolines are made of.
  const OP_MOVL_EAX: byte := 0xb8
  const OP_PUSHL: byte := 0x68
  const OP_JMP: byte := 0xe9

  /** The return kinds of internal.h. */
  datatype X86Ret =
    | RetFloat | RetDouble | RetLDouble
    | RetSint8 | RetUint8 | RetSint16 | RetUint16
    | RetInt64 | RetInt32 | RetVoid
    | RetStructPop | RetStructArg | RetStruct1B | RetStruct2B

  /** Addresses of the assembly entry points. */
  datatype Stubs = Stubs(
    closureI386: nat, closureStdcall: nat, closureRegister: nat,
    closureRawSysv: nat, closureRawThiscall: nat,
    goClosureEax: nat, goClosureEcx: nat, goClosureStdcall: nat)

  /** The return classification: the flags and whether a hidden result pointer takes the first 4 bytes. */
  datatype RetClass = RetClass(flags: X86Ret, hidden: bool)

  // ------------------------------------------------------------- bdffc_prep_cif_machdep

  /** The ABIs the preparation accepts. */
  predicate AbiAccepted(abi: nat)
  {
    abi == ABI_SYSV || abi == ABI_STDCALL || abi == ABI_THISCALL || abi == ABI_FASTCALL
    || abi == ABI_MS_CDECL || abi == ABI_PASCAL || abi == ABI_REGISTER
  }

  /** The ABIs that pass the hidden result pointer as an argument the callee keeps. */
  predicate StructArgAbi(abi: nat)
  {
    abi == ABI_THISCALL || abi == ABI_FASTCALL || abi == ABI_STDCALL || abi == ABI_MS_CDECL
  }

  /** A result returned through memory (the `do_struct` label). */
  function InMemory(abi: nat): RetClass
  {
    RetClass(if StructArgAbi(abi) then RetStructArg else RetStructPop, true)
  }

  /** The classification of a complex result by its element type. */
  function ClassifyComplex(abi: nat, element: nat): Option<RetClass>
  {
    if element == TYPE_DOUBLE || element == LONGDOUBLE_80 || element == TYPE_SINT64 || element == TYPE_UINT64 then
      Some(InMemory(abi))
    else if element == TYPE_FLOAT || element == TYPE_INT || element == TYPE_SINT32 || element == TYPE_UINT32 then
      Some(RetClass(RetInt64, false))
    else if element == TYPE_SINT16 || element == TYPE_UINT16 then
      Some(RetClass(RetInt32, false))
    else if element == TYPE_SINT8 || element == TYPE_UINT8 then
      Some(RetClass(RetStruct2B, false))
    else
      None
  }

  /**
   * The return switch; `None` is BAD_TYPEDEF. X86 is not defined on
   * Darwin, so the small-struct sizes are classified.
   */
  function ClassifyReturn(abi: nat, rtype: TypeDesc): Option<RetClass>
  {
    var tag := rtype.tag;
    if tag == TYPE_VOID then Some(RetClass(RetVoid, false))
    else if tag == TYPE_FLOAT then Some(RetClass(RetFloat, false))
    else if tag == TYPE_DOUBLE then Some(RetClass(RetDouble, false))
    else if tag == LONGDOUBLE_80 then Some(RetClass(RetLDouble, false))
    else if tag == TYPE_UINT8 then Some(RetClass(RetUint8, false))
    else if tag == TYPE_UINT16 then Some(RetClass(RetUint16, false))
    else if tag == TYPE_SINT8 then Some(RetClass(RetSint8, false))
    else if tag == TYPE_SINT16 then Some(RetClass(RetSint16, false))
    else if tag == TYPE_INT || tag == TYPE_SINT32 || tag == TYPE_UINT32 || tag == TYPE_POINTER then
      Some(RetClass(RetInt32, false))
    else if tag == TYPE_SINT64 || tag == TYPE_UINT64 then Some(RetClass(RetInt64, false))
    else if tag == TYPE_STRUCT then
      if rtype.size == 1 then Some(RetClass(RetStruct1B, false))
      else if rtype.size == 2 then Some(RetClass(RetStruct2B, false))
      else if rtype.size == 4 then Some(RetClass(RetInt32, false))
      else if rtype.size == 8 then Some(RetClass(RetInt64, false))
      else Some(InMemory(abi))
    else if tag == TYPE_COMPLEX then ClassifyComplex(abi, rtype.elementTag)
    else None
  }

  /** The status the preparation returns: the ABI is checked before the return type. */
  function PrepStatus(abi: nat, rtype: TypeDesc): Status
  {
    if !AbiAccepted(abi) then BadAbi
    else if ClassifyReturn(abi, rtype).None? then BadTypedef
    else Ok
  }

  /** The running frame size before the first argument. */
  function FrameStart(c: RetClass): nat
  {
    if c.hidden then Align(POINTER_SIZE, SIZEOF_ARG, SIZE_BITS) else 0
  }

  /** One argument: align the total to the argument, then add its size rounded to a slot. */
  function FrameStep(total: nat, t: TypeDesc): nat
  {
    SizeT(Align(total, t.alignment, SIZE_BITS) + Align(t.size, SIZEOF_ARG, SIZE_BITS), SIZE_BITS)
  }

  /** The running frame size after the arguments `ts`. */
  function Frame(start: nat, ts: seq<TypeDesc>): nat
  {
    if ts == [] then start else FrameStep(Frame(start, ts[..|ts| - 1]), ts[|ts| - 1])
  }

  /** `cif->bytes`: the frame rounded to 16. */
  function CifBytes(start: nat, ts: seq<TypeDesc>): nat
  {
    Align(Frame(start, ts), 16, SIZE_BITS)
  }

  /** `bdffc_prep_cif_machdep`: only a successful preparation writes `flags` and `bytes`. */
  method PrepCifMachdep(cif: Cif<X86Ret>) returns (status: Status)
    modifies cif
    ensures status == PrepStatus(cif.abi, cif.rtype)
    ensures cif.abi == old(cif.abi) && cif.argTypes == old(cif.argTypes) && cif.rtype == old(cif.rtype)
    ensures status != Ok ==> cif.flags == old(cif.flags) && cif.bytes == old(cif.bytes)
    ensures status == Ok ==>
      var c := ClassifyReturn(cif.abi, cif.rtype).value;
      cif.flags == c.flags && cif.bytes == CifBytes(FrameStart(c), cif.argTypes)
  {
    var cabi := cif.abi;
    if !AbiAccepted(cabi) {
      return BadAbi;
    }
    var classified := ClassifyReturn(cabi, cif.rtype);
    if classified.None? {
      return BadTypedef;
    }
    var c := classified.value;
    cif.flags := c.flags;
    var bytes := FrameStart(c);
    bytes := FrameLoop(bytes, cif.argTypes);
    cif.bytes := Align(bytes, 16, SIZE_BITS);
    status := Ok;
  }

  /** The argument loop of `bdffc_prep_cif_machdep`. */
  method FrameLoop(start: nat, ts: seq<TypeDesc>) returns (bytes: nat)
    ensures bytes == Frame(start, ts)
  {
    bytes := start;
    for i := 0 to |ts|
      invariant bytes == Frame(start, ts[..i])
    {
      var t := ts[i];
      bytes := Align(bytes, t.alignment, SIZE_BITS);
      bytes := SizeT(bytes + Align(t.size, SIZEOF_ARG, SIZE_BITS), SIZE_BITS);
      assert ts[..i + 1][..i] == ts[..i];
    }
    assert ts[..|ts|] == ts;
  }

  // ------------------------------------------------------------- properties of the preparation

  /** The return types the switch handles, listed independently of the classification. */
  predicate ReturnSupported(rtype: TypeDesc)
  {
    rtype.tag in {TYPE_VOID, TYPE_FLOAT, TYPE_DOUBLE, LONGDOUBLE_80, TYPE_UINT8, TYPE_UINT16,
                  TYPE_SINT8, TYPE_SINT16, TYPE_INT, TYPE_SINT32, TYPE_UINT32, TYPE_POINTER,
                  TYPE_SINT64, TYPE_UINT64, TYPE_STRUCT}
    || (rtype.tag == TYPE_COMPLEX
        && rtype.elementTag in {TYPE_DOUBLE, LONGDOUBLE_80, TYPE_SINT64, TYPE_UINT64, TYPE_FLOAT,
                                TYPE_INT, TYPE_SINT32, TYPE_UINT32, TYPE_SINT16, TYPE_UINT16,
                                TYPE_SINT8, TYPE_UINT8})
  }

  /** BAD_ABI exactly for an ABI outside the seven; BAD_TYPEDEF exactly for an unsupported return type. */
  lemma PrepStatusIff(abi: nat, rtype: TypeDesc)
    ensures PrepStatus(abi, rtype) == BadAbi <==> !AbiAccepted(abi)
    ensures PrepStatus(abi, rtype) == BadTypedef <==> AbiAccepted(abi) && !ReturnSupported(rtype)
    ensures PrepStatus(abi, rtype) == Ok <==> AbiAccepted(abi) && ReturnSupported(rtype)
  {
    ClassifyReturnDefined(abi, rtype);
  }

  /** The classification fails exactly on the unsupported return types. */
  lemma ClassifyReturnDefined(abi: nat, rtype: TypeDesc)
    ensures ClassifyReturn(abi, rtype).Some? <==> ReturnSupported(rtype)
  {
  }

  /**
   * A struct outside the sizes 1, 2, 4 and 8, or a complex of double, long
   * double or 64-bit integers, is returned through memory: STRUCTARG for
   * THISCALL, FASTCALL, STDCALL and MS_CDECL, STRUCTPOP otherwise, with 4
   * bytes reserved for the pointer. No other return type reserves them.
   */
  lemma StructReturn(abi: nat, rtype: TypeDesc)
    requires ClassifyReturn(abi, rtype).Some?
    ensures var c := ClassifyReturn(abi, rtype).value;
      c.hidden <==>
        (rtype.tag == TYPE_STRUCT && rtype.size !in {1, 2, 4, 8})
        || (rtype.tag == TYPE_COMPLEX && rtype.elementTag in {TYPE_DOUBLE, LONGDOUBLE_80, TYPE_SINT64, TYPE_UINT64})
    ensures var c := ClassifyReturn(abi, rtype).value;
      c.hidden ==> c == InMemory(abi)
  {
  }

  /** Memory-returned results are STRUCTARG exactly under THISCALL, FASTCALL, STDCALL and MS_CDECL, else STRUCTPOP. */
  lemma InMemoryFlags(abi: nat)
    ensures InMemory(abi).flags == RetStructArg <==> StructArgAbi(abi)
    ensures InMemory(abi).flags == RetStructPop <==> !StructArgAbi(abi)
  {
  }

  /** A hidden result pointer takes one 4-byte slot before the arguments. */
  lemma InMemoryStart(c: RetClass)
    requires c.hidden
    ensures FrameStart(c) == POINTER_SIZE
  {
    HiddenPointerSlot();
  }

  /** `BDFFC_ALIGN (sizeof(void*), BDFFC_SIZEOF_ARG)` is 4. */
  lemma HiddenPointerSlot()
    ensures Align(POINTER_SIZE, SIZEOF_ARG, SIZE_BITS) == POINTER_SIZE
  {
    Pow2Word32();
    assert SIZEOF_ARG == Pow2(2);
    AlignFixedIff(POINTER_SIZE, 2, SIZE_BITS);
  }

  /** Without a hidden pointer the frame starts at 0. */
  lemma RegisterReturnStart(c: RetClass)
    requires !c.hidden
    ensures FrameStart(c) == 0
  {
  }

  /** Small structs come back in registers: sizes 1 and 2 as STRUCT_1B/2B, 4 as INT32, 8 as INT64. */
  lemma SmallStructReturn(abi: nat, rtype: TypeDesc)
    requires rtype.tag == TYPE_STRUCT && rtype.size in {1, 2, 4, 8}
    ensures ClassifyReturn(abi, rtype) == Some(RetClass(
      if rtype.size == 1 then RetStruct1B else if rtype.size == 2 then RetStruct2B
      else if rtype.size == 4 then RetInt32 else RetInt64, false))
  {
  }

  /**
   * Complex results by element: float and 32-bit integers as INT64, 16-bit
   * integers as INT32, 8-bit integers as STRUCT_2B; anything that is
   * neither these nor a memory-returned element is BAD_TYPEDEF.
   */
  lemma ComplexReturn(abi: nat, rtype: TypeDesc)
    requires rtype.tag == TYPE_COMPLEX
    ensures var e := rtype.elementTag;
      ClassifyReturn(abi, rtype) ==
        if e in {TYPE_FLOAT, TYPE_INT, TYPE_SINT32, TYPE_UINT32} then Some(RetClass(RetInt64, false))
        else if e in {TYPE_SINT16, TYPE_UINT16} then Some(RetClass(RetInt32, false))
        else if e in {TYPE_SINT8, TYPE_UINT8} then Some(RetClass(RetStruct2B, false))
        else if e in {TYPE_DOUBLE, LONGDOUBLE_80, TYPE_SINT64, TYPE_UINT64} then Some(InMemory(abi))
        else None
  {
  }

  /** `cif->bytes` is always a multiple of 16. */
  lemma CifBytesAligned(start: nat, ts: seq<TypeDesc>)
    requires start < TWO_32
    ensures CifBytes(start, ts) % 16 == 0 && CifBytes(start, ts) < TWO_32
  {
    Pow2Word32();
    assert Pow2(4) == 16;
    FrameBound(start, ts);
    AlignMultiple(Frame(start, ts), 4, SIZE_BITS);
    SizeTBound(BitOr(SizeT(Frame(start, ts) - 1, SIZE_BITS), SizeT(16 - 1, SIZE_BITS)) + 1, SIZE_BITS);
  }

  /** The running total stays a 32-bit value. */
  lemma FrameBound(start: nat, ts: seq<TypeDesc>)
    requires start < TWO_32
    ensures Frame(start, ts) < TWO_32
  {
    Pow2Word32();
    if ts != [] {
      var p, t := Frame(start, ts[..|ts| - 1]), ts[|ts| - 1];
      SizeTBound(Align(p, t.alignment, SIZE_BITS) + Align(t.size, SIZEOF_ARG, SIZE_BITS), SIZE_BITS);
    }
  }

  /**
   * One argument's place in the frame, when nothing wraps: its slot starts
   * at the first multiple of its (power-of-two) alignment at or after the
   * running total, and the next total is the slot's end rounded up to 4
   * bytes, so the argument fits and the next one cannot overlap it.
   */
  lemma ArgumentSlot(total: nat, t: TypeDesc, k: nat)
    requires k <= SIZE_BITS && t.alignment == Pow2(k) && total < TWO_32
    requires RoundUp(total, t.alignment) + RoundUp(t.size, SIZEOF_ARG) < TWO_32
    ensures var slot := Align(total, t.alignment, SIZE_BITS);
      && slot % t.alignment == 0 && total <= slot < total + t.alignment
      && FrameStep(total, t) == slot + RoundUp(t.size, SIZEOF_ARG)
      && slot + t.size <= FrameStep(total, t) < slot + t.size + SIZEOF_ARG
      && FrameStep(total, t) % SIZEOF_ARG == slot % SIZEOF_ARG
  {
    var a := t.alignment;
    var slot, pad := RoundUp(total, a), RoundUp(t.size, SIZEOF_ARG);
    AlignedSlot(total, k, a);
    PaddedSize(t.size);
    RoundUpBounds(total, a);
    RoundUpBounds(t.size, SIZEOF_ARG);
    Pow2Word32();
    SizeTOf(slot + pad, SIZE_BITS);
    SlotRemainder(slot, pad);
  }

  /** Aligning a running total that does not wrap gives the next multiple. */
  lemma AlignedSlot(total: nat, k: nat, a: nat)
    requires k <= SIZE_BITS && a == Pow2(k) && total < TWO_32 && RoundUp(total, a) < TWO_32
    ensures Align(total, a, SIZE_BITS) == RoundUp(total, a)
  {
    Pow2Word32();
    AlignPow2(total, k, SIZE_BITS);
    SizeTOf(RoundUp(total, a), SIZE_BITS);
  }

  /** Rounding a size that does not wrap to 4 bytes gives the next multiple of 4. */
  lemma PaddedSize(size: nat)
    requires RoundUp(size, SIZEOF_ARG) < TWO_32
    ensures Align(size, SIZEOF_ARG, SIZE_BITS) == RoundUp(size, SIZEOF_ARG)
  {
    Pow2Word32();
    SizeUnwrapped(size);
    assert SIZEOF_ARG == Pow2(2);
    AlignPow2(size, 2, SIZE_BITS);
  }

  /** A size below 2^32 is its own `size_t`, and its rounding to 4 bytes fits too. */
  lemma SizeUnwrapped(size: nat)
    requires RoundUp(size, SIZEOF_ARG) < TWO_32
    ensures size < TWO_32
    ensures SizeT(RoundUp(size, SIZEOF_ARG), SIZE_BITS) == RoundUp(size, SIZEOF_ARG)
  {
    Pow2Word32();
    RoundUpBounds(size, SIZEOF_ARG);
    SizeTOf(RoundUp(size, SIZEOF_ARG), SIZE_BITS);
  }

  /** Adding a multiple of 4 keeps the remainder by 4. */
  lemma SlotRemainder(slot: nat, padded: nat)
    requires padded % SIZEOF_ARG == 0
    ensures (slot + padded) % SIZEOF_ARG == slot % SIZEOF_ARG
  {
    DivModUnique(slot + padded, SIZEOF_ARG, slot / SIZEOF_ARG + padded / SIZEOF_ARG, slot % SIZEOF_ARG);
  }

  // ------------------------------------------------------------- trampolines

  /** The entry point a closure trampoline jumps to; `None` is BAD_ABI (REGISTER falls through to it). */
  function ClosureDest(abi: nat, stubs: Stubs): Option<nat>
  {
    if abi == ABI_SYSV || abi == ABI_THISCALL || abi == ABI_FASTCALL || abi == ABI_MS_CDECL then
      Some(stubs.closureI386)
    else if abi == ABI_STDCALL || abi == ABI_PASCAL then Some(stubs.closureStdcall)
    else None
  }

  /** The 10 bytes a trampoline writes: `op codeloc; jmp rel32` with the jump relative to the next instruction. */
  function Trampoline(op: byte, codeloc: nat, dest: nat): seq<byte>
  {
    [op] + LeBytes(Wrap32(codeloc), 4) + [OP_JMP] + LeBytes(Wrap32(Wrap32(dest) - Wrap32(Wrap32(codeloc) + 10)), 4)
  }

  /**
   * Decoding a trampoline: the immediate is `codeloc`, and the jump, whose
   * displacement counts from the end of the 10 bytes, lands on `dest`.
   */
  lemma TrampolineJumps(op: byte, codeloc: nat, dest: nat)
    requires codeloc < TWO_32 && dest < TWO_32
    ensures var tr := Trampoline(op, codeloc, dest);
      && |tr| == 10 && tr[0] == op && tr[5] == OP_JMP
      && FromLe(tr[1..5]) == codeloc
      && Wrap32(codeloc + 10 + FromLe(tr[6..10])) == dest
  {
    var imm, rel := Wrap32(codeloc), Wrap32(Wrap32(dest) - Wrap32(Wrap32(codeloc) + 10));
    TrampolineParts(op, imm, rel, Trampoline(op, codeloc, dest));
    WordRoundTrip(imm);
    WordRoundTrip(rel);
    JumpLands(codeloc, dest, Wrap32(codeloc + 10), rel);
  }

  /** Where the four fields of a trampoline lie. */
  lemma TrampolineParts(op: byte, imm: nat, rel: nat, tr: seq<byte>)
    requires tr == [op] + LeBytes(imm, 4) + [OP_JMP] + LeBytes(rel, 4)
    ensures |tr| == 10 && tr[0] == op && tr[5] == OP_JMP
    ensures tr[1..5] == LeBytes(imm, 4) && tr[6..10] == LeBytes(rel, 4)
  {
  }

  /** A 32-bit value reads back from its four stored bytes. */
  lemma WordRoundTrip(x: nat)
    requires x < TWO_32
    ensures FromLe(LeBytes(x, 4)) == x
  {
    Pow2Word32();
    assert 8 * 4 == 32;
    LeRoundTrip(x, 4);
  }

  /** `codeloc + 10 + (dest - (codeloc + 10))` is `dest` modulo 2^32. */
  lemma JumpLands(codeloc: nat, dest: nat, next: nat, rel: nat)
    requires codeloc < TWO_32 && dest < TWO_32
    requires next == Wrap32(codeloc + 10) && rel == Wrap32(dest - next)
    ensures Wrap32(codeloc + 10 + rel) == dest
  {
    var n := codeloc + 10;
    var q := if n < TWO_32 then 0 else 1;
    if n >= TWO_32 {
      Wrap32Multiple(n, 1);
    }
    assert next == n - TWO_32 * q;
    var s := if dest >= next then 0 else 1;
    assert rel == dest - next + TWO_32 * s;
    Wrap32Multiple(n + rel, q + s);
    assert n + rel - TWO_32 * (q + s) == dest;
  }

  /** `bdffc_closure`: the trampoline bytes and what it hands over. */
  class Closure {
    var tramp: array<byte>
    var cif: Cif?<X86Ret>
    var fun: nat
    var userData: nat

    constructor(tramp: array<byte>)
      ensures this.tramp == tramp && cif == null && fun == 0 && userData == 0
    {
      this.tramp := tramp;
      cif := null;
      fun := 0;
      userData := 0;
    }
  }

  /** `bdffc_prep_closure_loc`: BAD_ABI writes nothing; otherwise the trampoline and the fields are set. */
  method PrepClosureLoc(closure: Closure, cif: Cif<X86Ret>, fun: nat, userData: nat, codeloc: nat, stubs: Stubs)
    returns (status: Status)
    requires closure.tramp.Length == TRAMPOLINE_SIZE
    modifies closure, closure.tramp
    ensures status == (if ClosureDest(cif.abi, stubs).Some? then Ok else BadAbi)
    ensures closure.tramp == old(closure.tramp)
    ensures status == BadAbi ==>
      closure.tramp[..] == old(closure.tramp[..]) && closure.cif == old(closure.cif)
      && closure.fun == old(closure.fun) && closure.userData == old(closure.userData)
    ensures status == Ok ==>
      && closure.tramp[..10] == Trampoline(OP_MOVL_EAX, codeloc, ClosureDest(cif.abi, stubs).value)
      && closure.tramp[10..] == old(closure.tramp[10..])
      && closure.cif == cif && closure.fun == fun && closure.userData == userData
  {
    var dest: nat;
    var op: byte := OP_MOVL_EAX;
    var abi := cif.abi;
    if abi == ABI_SYSV || abi == ABI_THISCALL || abi == ABI_FASTCALL || abi == ABI_MS_CDECL {
      dest := stubs.closureI386;
    } else if abi == ABI_STDCALL || abi == ABI_PASCAL {
      dest := stubs.closureStdcall;
    } else if abi == ABI_REGISTER {
      // The missing `break` sends REGISTER on to BAD_ABI.
      dest := stubs.closureRegister;
      op := OP_PUSHL;
      return BadAbi;
    } else {
      return BadAbi;
    }
    WriteTrampoline(closure.tramp, op, codeloc, dest);
    closure.cif := cif;
    closure.fun := fun;
    closure.userData := userData;
    status := Ok;
  }

  /** The stores of the op byte, the immediate, the jump opcode and its displacement. */
  method WriteTrampoline(tramp: array<byte>, op: byte, codeloc: nat, dest: nat)
    requires tramp.Length == TRAMPOLINE_SIZE
    modifies tramp
    ensures tramp[..10] == Trampoline(op, codeloc, dest)
    ensures tramp[10..] == old(tramp[10..])
  {
    tramp[0] := op;
    Store(tramp, 1, LeBytes(Wrap32(codeloc), 4));
    tramp[5] := OP_JMP;
    Store(tramp, 6, LeBytes(Wrap32(Wrap32(dest) - Wrap32(Wrap32(codeloc) + 10)), 4));
    assert tramp[..10] == [op] + LeBytes(Wrap32(codeloc), 4) + [OP_JMP]
      + LeBytes(Wrap32(Wrap32(dest) - Wrap32(Wrap32(codeloc) + 10)), 4);
  }

  // ------------------------------------------------------------- raw closures

  /** The argument types raw closures do not support. */
  predicate RawUnsupported(t: TypeDesc)
  {
    t.tag == TYPE_STRUCT || t.tag == LONGDOUBLE_80
  }

  /** The entry point of a raw closure: only SYSV and THISCALL have one. */
  function RawClosureDest(abi: nat, stubs: Stubs): Option<nat>
  {
    if abi == ABI_THISCALL then Some(stubs.closureRawThiscall)
    else if abi == ABI_SYSV then Some(stubs.closureRawSysv)
    else None
  }

  /** The status of `bdffc_prep_raw_closure_loc`: the argument types are examined before the ABI. */
  function RawStatus(abi: nat, ts: seq<TypeDesc>, stubs: Stubs): Status
  {
    if exists j | 0 <= j < |ts| :: RawUnsupported(ts[j]) then BadTypedef
    else if RawClosureDest(abi, stubs).None? then BadAbi
    else Ok
  }

  /** A struct or long double argument is BAD_TYPEDEF whatever the ABI; otherwise only SYSV and THISCALL succeed. */
  lemma RawStatusIff(abi: nat, ts: seq<TypeDesc>, stubs: Stubs)
    ensures RawStatus(abi, ts, stubs) == BadTypedef <==> exists j | 0 <= j < |ts| :: ts[j].tag in {TYPE_STRUCT, LONGDOUBLE_80}
    ensures RawStatus(abi, ts, stubs) == Ok <==>
      (forall j | 0 <= j < |ts| :: ts[j].tag !in {TYPE_STRUCT, LONGDOUBLE_80}) && (abi == ABI_SYSV || abi == ABI_THISCALL)
  {
  }

  /** `bdffc_prep_raw_closure_loc`: on an error nothing is written. */
  method PrepRawClosureLoc(closure: Closure, cif: Cif<X86Ret>, fun: nat, userData: nat, codeloc: nat, stubs: Stubs)
    returns (status: Status)
    requires closure.tramp.Length == TRAMPOLINE_SIZE
    modifies closure, closure.tramp
    ensures status == RawStatus(cif.abi, cif.argTypes, stubs)
    ensures closure.tramp == old(closure.tramp)
    ensures status != Ok ==>
      closure.tramp[..] == old(closure.tramp[..]) && closure.cif == old(closure.cif)
      && closure.fun == old(closure.fun) && closure.userData == old(closure.userData)
    ensures status == Ok ==>
      && closure.tramp[..10] == Trampoline(OP_MOVL_EAX, codeloc, RawClosureDest(cif.abi, stubs).value)
      && closure.tramp[10..] == old(closure.tramp[10..])
      && closure.cif == cif && closure.fun == fun && closure.userData == userData
  {
    var unsupported := FindRawUnsupported(cif.argTypes);
    if unsupported {
      return BadTypedef;
    }
    var dest: nat;
    if cif.abi == ABI_THISCALL {
      dest := stubs.closureRawThiscall;
    } else if cif.abi == ABI_SYSV {
      dest := stubs.closureRawSysv;
    } else {
      return BadAbi;
    }
    WriteTrampoline(closure.tramp, OP_MOVL_EAX, codeloc, dest);
    closure.cif := cif;
    closure.fun := fun;
    closure.userData := userData;
    status := Ok;
  }

  /** The backward scan over the argument types. */
  method FindRawUnsupported(ts: seq<TypeDesc>) returns (found: bool)
    ensures found <==> exists j | 0 <= j < |ts| :: RawUnsupported(ts[j])
  {
    var i := |ts|;
    while i > 0
      invariant 0 <= i <= |ts|
      invariant forall j | i <= j < |ts| :: !RawUnsupported(ts[j])
    {
      i := i - 1;
      if RawUnsupported(ts[i]) {
        return true;
      }
    }
    return false;
  }

  // ------------------------------------------------------------- Go closures

  /** The registers of the `abi_params` table. */
  datatype Reg = EAX | ECX | EDX

  /** The static chain register of each ABI in the `abi_params` table. */
  function StaticChain(abi: nat): Reg
  {
    if abi == ABI_THISCALL || abi == ABI_FASTCALL then EAX else ECX
  }

  /** The three Go closure entry points. */
  datatype GoEntry = GoEax | GoEcx | GoStdcall

  /** The Go closure entry point of an ABI; `None` is BAD_ABI (REGISTER included). */
  function GoEntryOf(abi: nat): Option<GoEntry>
  {
    if abi == ABI_SYSV || abi == ABI_MS_CDECL then Some(GoEcx)
    else if abi == ABI_THISCALL || abi == ABI_FASTCALL then Some(GoEax)
    else if abi == ABI_STDCALL || abi == ABI_PASCAL then Some(GoStdcall)
    else None
  }

  function GoAddress(e: GoEntry, stubs: Stubs): nat
  {
    match e
    case GoEax => stubs.goClosureEax
    case GoEcx => stubs.goClosureEcx
    case GoStdcall => stubs.goClosureStdcall
  }

  /** The Go closure entry points take the static chain from the register `abi_params` names for the ABI. */
  lemma GoEntryChain(abi: nat)
    requires GoEntryOf(abi).Some?
    ensures GoEntryOf(abi).value == GoEax <==> StaticChain(abi) == EAX
  {
  }

  /**
   * The closure, raw and Go preparations agree with `bdffc_prep_cif_machdep`
   * except on REGISTER: closures and Go closures accept exactly the other
   * six ABIs; raw closures accept SYSV and THISCALL only.
   */
  lemma ClosureAbis(abi: nat, stubs: Stubs)
    ensures ClosureDest(abi, stubs).Some? <==> AbiAccepted(abi) && abi != ABI_REGISTER
    ensures GoEntryOf(abi).Some? <==> AbiAccepted(abi) && abi != ABI_REGISTER
    ensures RawClosureDest(abi, stubs).Some? ==> ClosureDest(abi, stubs).Some?
  {
  }

  /** `bdffc_go_closure`: the entry point it jumps to and what it hands over. */
  class GoClosure {
    var tramp: nat
    var cif: Cif?<X86Ret>
    var fun: nat

    constructor()
      ensures tramp == 0 && cif == null && fun == 0
    {
      tramp := 0;
      cif := null;
      fun := 0;
    }
  }

  /** `bdffc_prep_go_closure`: BAD_ABI writes nothing. */
  method PrepGoClosure(closure: GoClosure, cif: Cif<X86Ret>, fun: nat, stubs: Stubs) returns (status: Status)
    modifies closure
    ensures status == (if GoEntryOf(cif.abi).Some? then Ok else BadAbi)
    ensures status == BadAbi ==> closure.tramp == old(closure.tramp) && closure.cif == old(closure.cif) && closure.fun == old(closure.fun)
    ensures status == Ok ==> closure.tramp == GoAddress(GoEntryOf(cif.abi).value, stubs) && closure.cif == cif && closure.fun == fun
  {
    var dest: nat;
    var abi := cif.abi;
    if abi == ABI_SYSV || abi == ABI_MS_CDECL {
      dest := stubs.goClosureEcx;
    } else if abi == ABI_THISCALL || abi == ABI_FASTCALL {
      dest := stubs.goClosureEax;
    } else if abi == ABI_STDCALL || abi == ABI_PASCAL {
      dest := stubs.goClosureStdcall;
    } else {
      return BadAbi;
    }
    closure.tramp := dest;
    closure.cif := cif;
    closure.fun := fun;
    status := Ok;
  }
}
