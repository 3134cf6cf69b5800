/**
 * What the x86 call-interface preparation files share: the type codes, the
 * status values, the `bdffc_type` and `bdffc_cif` records, the alignment
 * macros of darwin_common/include/bdffc_common.h and little-endian stores.
 *
 * Bitwise `|` and `&` are written out on unbounded naturals, one bit at a
 * time; a conversion to `size_t` of `bits` bits is `SizeT`.
 */
module FfiCommon {
  import opened Bytes

  // Type codes as darwin_ios/include/bdffc_arm64.h numbers them; there
  // LONGDOUBLE is DOUBLE.
  const TYPE_VOID: nat := 0
  const TYPE_INT: nat := 1
  const TYPE_FLOAT: nat := 2
  const TYPE_DOUBLE: nat := 3
  const TYPE_LONGDOUBLE: nat := TYPE_DOUBLE
  const TYPE_UINT8: nat := 5
  const TYPE_SINT8: nat := 6
  const TYPE_UINT16: nat := 7
  const TYPE_SINT16: nat := 8
  const TYPE_UINT32: nat := 9
  const TYPE_SINT32: nat := 10
  const TYPE_UINT64: nat := 11
  const TYPE_SINT64: nat := 12
  const TYPE_STRUCT: nat := 13
  const TYPE_POINTER: nat := 14
  const TYPE_COMPLEX: nat := 15
  const TYPE_LAST: nat := TYPE_COMPLEX
  // The x86 small-struct codes follow the last one.
  const TYPE_SMALL_STRUCT_1B: nat := TYPE_LAST + 1
  const TYPE_SMALL_STRUCT_2B: nat := TYPE_LAST + 2
  const TYPE_SMALL_STRUCT_4B: nat := TYPE_LAST + 3

  /** `bdffc_status` */
  datatype Status = Ok | BadTypedef | BadAbi

  /**
   * `bdffc_type`: `size`, `alignment`, `type` and, for a complex type, the
   * type code of `elements[0]`.
   */
  datatype TypeDesc = TypeDesc(size: nat, alignment: nat, tag: nat, elementTag: nat)

  /**
   * `bdffc_cif`, which the machine-dependent preparation completes in place
   * (`bytes` and `flags`); `nargs` is the length of `argTypes`. The i386
   * flags are return kinds, the Win64 flags type codes.
   */
  class Cif<Flags> {
    var abi: nat
    var argTypes: seq<TypeDesc>
    var rtype: TypeDesc
    var bytes: nat
    var flags: Flags

    constructor(abi: nat, argTypes: seq<TypeDesc>, rtype: TypeDesc, bytes: nat, flags: Flags)
      ensures this.abi == abi && this.argTypes == argTypes && this.rtype == rtype
      ensures this.bytes == bytes && this.flags == flags
    {
      this.abi := abi;
      this.argTypes := argTypes;
      this.rtype := rtype;
      this.bytes := bytes;
      this.flags := flags;
    }
  }

  // ------------------------------------------------------------- bit operations

  /** `x | y` */
  function BitOr(x: nat, y: nat): nat
    decreases x + y
  {
    if x == 0 && y == 0 then 0
    else 2 * BitOr(x / 2, y / 2) + (if x % 2 == 1 || y % 2 == 1 then 1 else 0)
  }

  /** `x & y` */
  function BitAnd(x: nat, y: nat): nat
    decreases x + y
  {
    if x == 0 || y == 0 then 0
    else 2 * BitAnd(x / 2, y / 2) + (if x % 2 == 1 && y % 2 == 1 then 1 else 0)
  }

  /** Conversion to an unsigned `size_t` of `bits` bits. */
  function SizeT(x: int, bits: nat): nat
  {
    x % Pow2(bits)
  }

  lemma DivModUnique(x: int, d: int, q: int, r: int)
    requires d > 0 && x == d * q + r && 0 <= r < d
    ensures x / d == q && x % d == r
  {
    var q', r' := x / d, x % d;
    assert d * (q' - q) == r - r';
    if q' > q {
      MulAtLeast(d, q' - q);
    } else if q' < q {
      MulAtLeast(d, q - q');
    }
  }

  lemma MulAtLeast(d: int, n: int)
    requires d > 0 && n >= 1
    ensures d * n >= d
  {
  }

  /** The remainder by `d == 2p` splits into the low bit and the remainder of the half by `p`. */
  lemma ModDouble(x: nat, p: nat, d: nat)
    requires p > 0 && d == 2 * p
    ensures x % d == x % 2 + 2 * ((x / 2) % p)
  {
    var q := x / 2;
    DivModUnique(x, d, q / p, x % 2 + 2 * (q % p));
  }

  lemma {:induction false} Pow2Le(k: nat, w: nat)
    requires k <= w
    ensures Pow2(k) <= Pow2(w)
    decreases w
  {
    if k < w {
      Pow2Le(k, w - 1);
    }
  }

  lemma {:induction false} Pow2Divides(k: nat, w: nat)
    requires k <= w
    ensures Pow2(k) <= Pow2(w) && Pow2(w) % Pow2(k) == 0
  {
    Pow2Le(k, w);
    Pow2Add(k, w - k);
    DivModUnique(Pow2(w), Pow2(k), Pow2(w - k), 0);
  }

  lemma {:induction false} OrZero(x: nat)
    ensures BitOr(x, 0) == x
    decreases x
  {
    if x > 0 {
      OrZero(x / 2);
    }
  }

  /** Or-ing the mask of the low `k` bits sets exactly those bits. */
  lemma {:induction false} OrLowMask(x: nat, k: nat)
    ensures BitOr(x, Pow2(k) - 1) == x - x % Pow2(k) + Pow2(k) - 1
    decreases k, 1
  {
    if k == 0 {
      OrZero(x);
    } else {
      OrLowMaskStep(x, k);
    }
  }

  /** One bit of OrLowMask: the low bit is set, the rest is the half's result doubled. */
  lemma {:induction false} OrLowMaskStep(x: nat, k: nat)
    requires k > 0
    ensures BitOr(x, Pow2(k) - 1) == x - x % Pow2(k) + Pow2(k) - 1
    decreases k, 0
  {
    var h, p, d := x / 2, Pow2(k - 1), Pow2(k);
    OrLowMask(h, k - 1);
    assert d == 2 * p;
    assert BitOr(h, p - 1) == h - h % p + p - 1;
    OrDoubledMask(x, h, p, d);
  }

  /** OrLowMaskStep over an abstract power of two `p` and its double `d`. */
  lemma OrDoubledMask(x: nat, h: nat, p: nat, d: nat)
    requires h == x / 2 && p > 0 && d == 2 * p
    requires BitOr(h, p - 1) == h - h % p + p - 1
    ensures BitOr(x, d - 1) == x - x % d + d - 1
  {
    OrOddMask(x, d - 1, p);
    ModDouble(x, p, d);
    DoubleStep(x, h, x % 2, h % p, x % d, p, d, BitOr(h, p - 1), BitOr(x, d - 1));
  }

  /** Or-ing with an odd mask sets the low bit and or-s the halves. */
  lemma OrOddMask(x: nat, m: nat, p: nat)
    requires p > 0 && m == 2 * p - 1
    ensures BitOr(x, m) == 2 * BitOr(x / 2, p - 1) + 1
  {
    DivModUnique(m, 2, p - 1, 1);
  }

  /** The linear arithmetic closing OrLowMaskStep, over named terms. */
  lemma DoubleStep(x: int, h: int, r: int, hp: int, xm: int, p: int, d: int, inner: int, outer: int)
    requires x == 2 * h + r && xm == r + 2 * hp && d == 2 * p
    requires inner == h - hp + p - 1 && outer == 2 * inner + 1
    ensures outer == x - xm + d - 1
  {
  }

  lemma {:induction false} AndLowMask(x: nat, w: nat)
    requires x < Pow2(w)
    ensures BitAnd(x, Pow2(w) - 1) == x
    decreases w
  {
    if w > 0 && x > 0 {
      assert (Pow2(w) - 1) / 2 == Pow2(w - 1) - 1 && (Pow2(w) - 1) % 2 == 1;
      AndLowMask(x / 2, w - 1);
    }
  }

  /** And-ing the mask of the bits from `k` up to `w` clears the low `k` bits of a `w`-bit value. */
  lemma {:induction false} AndHighMask(x: nat, k: nat, w: nat)
    requires k <= w && x < Pow2(w) && Pow2(k) <= Pow2(w)
    ensures BitAnd(x, Pow2(w) - Pow2(k)) == x - x % Pow2(k)
    decreases k, 1
  {
    if k == 0 {
      AndLowMask(x, w);
    } else if k == w {
      DivModUnique(x, Pow2(k), 0, x);
    } else if x > 0 {
      AndHighMaskStep(x, k, w);
    } else {
      DivModUnique(0, Pow2(k), 0, 0);
    }
  }

  /** One bit of AndHighMask: the low bit of `x` is cleared, the rest is the half's result doubled. */
  lemma {:induction false} AndHighMaskStep(x: nat, k: nat, w: nat)
    requires 0 < k < w && 0 < x < Pow2(w)
    ensures Pow2(k) <= Pow2(w)
    ensures BitAnd(x, Pow2(w) - Pow2(k)) == x - x % Pow2(k)
    decreases k, 0
  {
    var p := Pow2(k - 1);
    Pow2Le(k, w - 1);
    var m := Pow2(w) - Pow2(k);
    assert Pow2(k) == 2 * p && m > 0;
    assert m / 2 == Pow2(w - 1) - p && m % 2 == 0;
    assert BitAnd(x, m) == 2 * BitAnd(x / 2, m / 2);
    AndHighMask(x / 2, k - 1, w - 1);
    ModDouble(x, p, Pow2(k));
  }

  // ------------------------------------------------------------- alignment

  /** `BDFFC_ALIGN(v, a)` on a `size_t` of `bits` bits. */
  function Align(v: int, a: int, bits: nat): nat
  {
    SizeT(BitOr(SizeT(v - 1, bits), SizeT(a - 1, bits)) + 1, bits)
  }

  /** `ALIGN_DOWN(v, a)` on a `size_t` of `bits` bits. */
  function AlignDown(v: int, a: int, bits: nat): nat
  {
    BitAnd(SizeT(v, bits), SizeT(-a, bits))
  }

  /** The multiple of `a` that is at least `v` and the nearest to it. */
  function RoundUp(v: nat, a: nat): nat
    requires a > 0
  {
    if v % a == 0 then v else v - v % a + a
  }

  /** RoundUp is a multiple of `a` within `a` above `v`, which determines it. */
  lemma RoundUpBounds(v: nat, a: nat)
    requires a > 0
    ensures RoundUp(v, a) % a == 0 && v <= RoundUp(v, a) < v + a
  {
    if v % a != 0 {
      DivModUnique(RoundUp(v, a), a, v / a + 1, 0);
    }
  }

  /** Two multiples of `a` closer than `a` are equal. */
  lemma MultipleUnique(x: nat, y: nat, a: nat)
    requires a > 0 && x % a == 0 && y % a == 0 && x <= y < x + a
    ensures x == y
  {
    DivModUnique(y - x, a, y / a - x / a, 0);
    DivModUnique(y - x, a, 0, y - x);
  }

  lemma SizeTOf(x: int, bits: nat)
    requires 0 <= x < Pow2(bits)
    ensures SizeT(x, bits) == x
  {
    DivModUnique(x, Pow2(bits), 0, x);
  }

  /** The predecessor of a multiple of `a` leaves the largest remainder. */
  lemma PredOfMultiple(m: int, a: int)
    requires 0 < a <= m && m % a == 0
    ensures (m - 1) % a == a - 1
  {
    var c := m / a;
    assert m == a * c;
    assert m - 1 == a * (c - 1) + (a - 1);
    DivModUnique(m - 1, a, c - 1, a - 1);
  }

  /** Clearing the remainder leaves a multiple. */
  lemma RoundDown(v: nat, a: nat)
    requires a > 0
    ensures (v - v % a) % a == 0
  {
    assert v - v % a == a * (v / a);
    DivModUnique(v - v % a, a, v / a, 0);
  }

  lemma SizeTTop(bits: nat)
    ensures SizeT(Pow2(bits), bits) == 0
  {
    DivModUnique(Pow2(bits), Pow2(bits), 1, 0);
  }

  /** A negative value converted to `size_t` counts down from the top. */
  lemma SizeTNeg(a: int, bits: nat)
    requires 0 < a <= Pow2(bits)
    ensures SizeT(-a, bits) == Pow2(bits) - a
  {
    var top := Pow2(bits);
    assert -a == top * (-1) + (top - a);
    DivModUnique(-a, top, -1, top - a);
  }

  /** The remainder of the predecessor. */
  lemma ModPred(v: nat, a: nat)
    requires v >= 1 && a > 0
    ensures (v - 1) % a == if v % a == 0 then a - 1 else v % a - 1
  {
    if v % a == 0 {
      DivModUnique(v - 1, a, v / a - 1, a - 1);
    } else {
      DivModUnique(v - 1, a, v / a, v % a - 1);
    }
  }

  /**
   * BDFFC_ALIGN with a power-of-two alignment is the next multiple,
   * reduced to `size_t`.
   */
  lemma AlignPow2(v: nat, k: nat, bits: nat)
    requires k <= bits && v < Pow2(bits)
    ensures Align(v, Pow2(k), bits) == SizeT(RoundUp(v, Pow2(k)), bits)
  {
    if v == 0 {
      AlignZero(k, bits);
    } else {
      AlignPositive(v, k, bits);
    }
  }

  /** 0 aligns to 0: `0 - 1` is all ones. */
  lemma AlignZero(k: nat, bits: nat)
    requires k <= bits
    ensures Align(0, Pow2(k), bits) == 0 == SizeT(RoundUp(0, Pow2(k)), bits)
  {
    var a, top := Pow2(k), Pow2(bits);
    Pow2Divides(k, bits);
    SizeTOf(a - 1, bits);
    SizeTNeg(1, bits);
    PredOfMultiple(top, a);
    OrLowMask(top - 1, k);
    assert BitOr(SizeT(-1, bits), SizeT(a - 1, bits)) + 1 == top;
    SizeTTop(bits);
    DivModUnique(0, a, 0, 0);
    SizeTOf(0, bits);
  }

  lemma AlignPositive(v: nat, k: nat, bits: nat)
    requires k <= bits && 0 < v < Pow2(bits)
    ensures Align(v, Pow2(k), bits) == SizeT(RoundUp(v, Pow2(k)), bits)
  {
    var a, x := Pow2(k), v - 1;
    Pow2Le(k, bits);
    SizeTOf(a - 1, bits);
    SizeTOf(x, bits);
    OrLowMask(x, k);
    var o := BitOr(x, a - 1);
    OrRoundUp(v, a, o);
    AlignVia(v, a, bits, o);
  }

  /** Setting the low bits of `v - 1` below a power of two, plus one, rounds `v` up. */
  lemma OrRoundUp(v: nat, a: nat, o: int)
    requires v >= 1 && a > 0
    requires o == v - 1 - (v - 1) % a + a - 1
    ensures o + 1 == RoundUp(v, a)
  {
    ModPred(v, a);
    PredRoundUp(v, a, v % a, (v - 1) % a, o);
  }

  /** BDFFC_ALIGN once neither operand wraps and the or is known. */
  lemma AlignVia(v: nat, a: nat, bits: nat, o: nat)
    requires v >= 1 && a > 0
    requires SizeT(v - 1, bits) == v - 1 && SizeT(a - 1, bits) == a - 1
    requires BitOr(v - 1, a - 1) == o && o + 1 == RoundUp(v, a)
    ensures Align(v, a, bits) == SizeT(RoundUp(v, a), bits)
  {
  }

  /** The case analysis closing OrRoundUp, over named terms. */
  lemma PredRoundUp(v: int, a: int, vm: int, xm: int, o: int)
    requires xm == (if vm == 0 then a - 1 else vm - 1)
    requires o == v - 1 - xm + a - 1
    ensures o + 1 == (if vm == 0 then v else v - vm + a)
  {
  }

  /** Without wrap-around, BDFFC_ALIGN gives the multiple of `2^k` within `2^k` above `v`. */
  lemma AlignRoundsUp(v: nat, k: nat, bits: nat)
    requires k <= bits && v < Pow2(bits) && RoundUp(v, Pow2(k)) < Pow2(bits)
    ensures Align(v, Pow2(k), bits) % Pow2(k) == 0
    ensures v <= Align(v, Pow2(k), bits) < v + Pow2(k)
  {
    AlignPow2(v, k, bits);
    RoundUpBounds(v, Pow2(k));
    SizeTOf(RoundUp(v, Pow2(k)), bits);
  }

  /** A value whose next multiple does not fit wraps to 0. */
  lemma AlignWraps(v: nat, k: nat, bits: nat)
    requires k <= bits && v < Pow2(bits) && RoundUp(v, Pow2(k)) >= Pow2(bits)
    ensures Align(v, Pow2(k), bits) == 0
  {
    var a, top := Pow2(k), Pow2(bits);
    AlignPow2(v, k, bits);
    RoundUpBounds(v, a);
    Pow2Divides(k, bits);
    MultipleUnique(top, RoundUp(v, a), a);
    DivModUnique(top, top, 1, 0);
  }

  /** The result of BDFFC_ALIGN with a power-of-two alignment is always a multiple of it. */
  lemma AlignMultiple(v: nat, k: nat, bits: nat)
    requires k <= bits && v < Pow2(bits)
    ensures Align(v, Pow2(k), bits) % Pow2(k) == 0
  {
    if RoundUp(v, Pow2(k)) < Pow2(bits) {
      AlignRoundsUp(v, k, bits);
    } else {
      AlignWraps(v, k, bits);
    }
  }

  /** Aligning an aligned value changes nothing. */
  lemma AlignIdempotent(v: nat, k: nat, bits: nat)
    requires k <= bits && v < Pow2(bits)
    ensures Align(Align(v, Pow2(k), bits), Pow2(k), bits) == Align(v, Pow2(k), bits)
  {
    var r := Align(v, Pow2(k), bits);
    AlignMultiple(v, k, bits);
    SizeTBound(RoundUp(v, Pow2(k)), bits);
    AlignPow2(v, k, bits);
    AlignPow2(r, k, bits);
    SizeTOf(r, bits);
  }

  lemma SizeTBound(x: int, bits: nat)
    ensures SizeT(x, bits) < Pow2(bits)
  {
  }

  /** ALIGN_DOWN with a power-of-two alignment clears the low bits: the greatest multiple not above `v`. */
  lemma AlignDownPow2(v: nat, k: nat, bits: nat)
    requires k <= bits && v < Pow2(bits)
    ensures AlignDown(v, Pow2(k), bits) == v - v % Pow2(k)
    ensures AlignDown(v, Pow2(k), bits) % Pow2(k) == 0
  {
    var a, top := Pow2(k), Pow2(bits);
    Pow2Divides(k, bits);
    SizeTOf(v, bits);
    SizeTNeg(a, bits);
    AndHighMask(v, k, bits);
    RoundDown(v, a);
  }

  /** Without wrap-around, ALIGN_DOWN and BDFFC_ALIGN bracket the value within one alignment unit each. */
  lemma AlignBrackets(v: nat, k: nat, bits: nat)
    requires k <= bits && v < Pow2(bits) && RoundUp(v, Pow2(k)) < Pow2(bits)
    ensures AlignDown(v, Pow2(k), bits) <= v <= Align(v, Pow2(k), bits)
    ensures v - AlignDown(v, Pow2(k), bits) < Pow2(k) && Align(v, Pow2(k), bits) - v < Pow2(k)
  {
    AlignDownPow2(v, k, bits);
    AlignRoundsUp(v, k, bits);
  }

  /** Without wrap-around, each of ALIGN_DOWN and BDFFC_ALIGN returns `v` exactly when `v` is a multiple. */
  lemma AlignFixedIff(v: nat, k: nat, bits: nat)
    requires k <= bits && v < Pow2(bits) && RoundUp(v, Pow2(k)) < Pow2(bits)
    ensures AlignDown(v, Pow2(k), bits) == v <==> v % Pow2(k) == 0
    ensures Align(v, Pow2(k), bits) == v <==> v % Pow2(k) == 0
  {
    AlignDownPow2(v, k, bits);
    AlignPow2(v, k, bits);
    SizeTOf(RoundUp(v, Pow2(k)), bits);
  }

  /** Without wrap-around, no multiple of `2^k` at least `v` lies below BDFFC_ALIGN's result. */
  lemma AlignLeast(v: nat, k: nat, bits: nat, m: nat)
    requires k <= bits && v < Pow2(bits) && RoundUp(v, Pow2(k)) < Pow2(bits)
    requires m % Pow2(k) == 0 && v <= m
    ensures Align(v, Pow2(k), bits) <= m
  {
    var r := Align(v, Pow2(k), bits);
    AlignRoundsUp(v, k, bits);
    if m < r {
      MultipleUnique(m, r, Pow2(k));
    }
  }

  /** No multiple of `2^k` at most `v` lies above ALIGN_DOWN's result. */
  lemma AlignDownGreatest(v: nat, k: nat, bits: nat, m: nat)
    requires k <= bits && v < Pow2(bits)
    requires m % Pow2(k) == 0 && m <= v
    ensures m <= AlignDown(v, Pow2(k), bits)
  {
    var r := AlignDown(v, Pow2(k), bits);
    AlignDownPow2(v, k, bits);
    if r < m {
      MultipleUnique(r, m, Pow2(k));
    }
  }

  // ------------------------------------------------------------- little-endian stores

  /** The `n` little-endian bytes of `x`. */
  function LeBytes(x: nat, n: nat): (s: seq<byte>)
    ensures |s| == n
  {
    if n == 0 then [] else [(x % 256) as byte] + LeBytes(x / 256, n - 1)
  }

  /** The value of little-endian bytes. */
  function FromLe(s: seq<byte>): nat
  {
    if s == [] then 0 else s[0] as nat + 256 * FromLe(s[1..])
  }

  /** `memcpy` of `s` into `a` at `off`, or a word store when `s` is a value's bytes. */
  method Store(a: array<byte>, off: nat, s: seq<byte>)
    requires off + |s| <= a.Length
    modifies a
    ensures a[..] == old(a[..off]) + s + old(a[off + |s|..])
  {
    ghost var before := a[..];
    for j := 0 to |s|
      invariant forall m :: 0 <= m < a.Length ==> a[m] == if off <= m < off + j then s[m - off] else before[m]
    {
      a[off + j] := s[j];
    }
    assert a[..] == before[..off] + s + before[off + |s|..];
  }

  /** Reading back what was stored gives the value, when it fits. */
  lemma {:induction false} LeRoundTrip(x: nat, n: nat)
    requires x < Pow2(8 * n)
    ensures FromLe(LeBytes(x, n)) == x
    decreases n
  {
    if n > 0 {
      Pow2Byte();
      Pow2Add(8, 8 * (n - 1));
      assert x / 256 < Pow2(8 * (n - 1));
      LeRoundTrip(x / 256, n - 1);
      assert LeBytes(x, n)[1..] == LeBytes(x / 256, n - 1);
    }
  }
}
