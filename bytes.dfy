/**
 * Process memory as the parser sees it: a byte at every address and the
 * little-endian word loads over them.
 * Fixed-width unsigned arithmetic of the source is written out with
 * `Wrap32`/`Wrap64`.
 */
module Bytes {

  const TWO_32: int := 0x1_0000_0000
  const TWO_64: int := 0x1_0000_0000_0000_0000

  function Pow2(n: nat): (r: nat)
    ensures r >= 1
  {
    if n == 0 then 1 else 2 * Pow2(n - 1)
  }

  lemma {:induction false} Pow2Add(a: nat, b: nat)
    ensures Pow2(a + b) == Pow2(a) * Pow2(b)
    decreases a
  {
    if a > 0 {
      Pow2Add(a - 1, b);
      assert Pow2(a + b) == 2 * Pow2(a - 1 + b);
    }
  }

  lemma Pow2Byte()
    ensures Pow2(6) == 64 && Pow2(7) == 128 && Pow2(8) == 256
  {
    assert Pow2(4) == 16;
  }

  lemma Pow2Plus7(n: nat)
    ensures Pow2(n + 7) == 128 * Pow2(n)
  {
    Pow2Byte();
    Pow2Add(n, 7);
  }

  lemma Pow2Word32()
    ensures Pow2(16) == 0x1_0000 && Pow2(32) == TWO_32
  {
    Pow2Byte();
    Pow2Add(8, 8);
    Pow2Add(16, 16);
  }

  lemma Pow2Word()
    ensures Pow2(32) == TWO_32 && Pow2(64) == TWO_64 && Pow2(63) == TWO_64 / 2 && Pow2(70) == 64 * TWO_64
  {
    Pow2Byte();
    Pow2Word32();
    Pow2Add(32, 32);
    assert Pow2(64) == TWO_64;
    Pow2Add(1, 63);
    Pow2Add(6, 64);
  }

  /** `x << n` without truncation, as repeated doubling. */
  function Shl(x: nat, n: nat): nat
  {
    if n == 0 then x else 2 * Shl(x, n - 1)
  }

  lemma {:induction false} ShlZero(n: nat)
    ensures Shl(0, n) == 0
  {
    if n > 0 {
      ShlZero(n - 1);
    }
  }

  lemma {:induction false} ShlAdd(a: nat, b: nat, n: nat)
    ensures Shl(a + b, n) == Shl(a, n) + Shl(b, n)
  {
    if n > 0 {
      ShlAdd(a, b, n - 1);
    }
  }

  lemma {:induction false} ShlCompose(x: nat, a: nat, b: nat)
    ensures Shl(Shl(x, a), b) == Shl(x, a + b)
    decreases b
  {
    if b > 0 {
      ShlCompose(x, a, b - 1);
    }
  }

  lemma Shl7(x: nat)
    ensures Shl(x, 7) == 128 * x
  {
    assert Shl(x, 1) == 2 * x;
    assert Shl(x, 3) == 8 * x;
    assert Shl(x, 5) == 32 * x;
  }

  lemma {:induction false} ShlOne(n: nat)
    ensures Shl(1, n) == Pow2(n)
  {
    if n > 0 {
      ShlOne(n - 1);
    }
  }

  /** Reduction of an unbounded result to `uint32_t`. */
  function Wrap32(x: int): (r: nat)
    ensures r < TWO_32
    ensures 0 <= x < TWO_32 ==> r == x
    ensures -TWO_32 <= x < 0 ==> r == x + TWO_32
  {
    x % TWO_32
  }

  /** Reduction of an unbounded result to `uint64_t` / `uintptr_t`. */
  function Wrap64(x: int): (r: nat)
    ensures r < TWO_64
    ensures 0 <= x < TWO_64 ==> r == x
    ensures -TWO_64 <= x < 0 ==> r == x + TWO_64
  {
    x % TWO_64
  }

  /** A multiple of `2^32` vanishes in the reduction to 32 bits. */
  lemma Wrap32Multiple(x: int, k: int)
    ensures Wrap32(x - TWO_32 * k) == Wrap32(x)
  {
    var q := x / TWO_32;
    var r := x % TWO_32;
    assert x - TWO_32 * k == TWO_32 * (q - k) + r;
  }

  /** A multiple of `2^64` vanishes in the reduction to 64 bits. */
  lemma WrapMultiple(x: int, k: int)
    ensures Wrap64(x - TWO_64 * k) == Wrap64(x)
  {
    var q := x / TWO_64;
    var r := x % TWO_64;
    assert x - TWO_64 * k == TWO_64 * (q - k) + r;
  }

  /** Adding the same amount keeps two values equal modulo `2^32`. */
  lemma Wrap32Add(a: int, b: int, c: int)
    requires Wrap32(a) == Wrap32(b)
    ensures Wrap32(a + c) == Wrap32(b + c)
  {
    var qa := a / TWO_32;
    var qb := b / TWO_32;
    assert a + c == (b + c) - TWO_32 * (qb - qa);
    Wrap32Multiple(b + c, qb - qa);
  }

  /** Adding the same amount keeps two values equal modulo `2^64`. */
  lemma Wrap64Add(a: int, b: int, c: int)
    requires Wrap64(a) == Wrap64(b)
    ensures Wrap64(a + c) == Wrap64(b + c)
  {
    var qa := a / TWO_64;
    var qb := b / TWO_64;
    assert a + c == (b + c) - TWO_64 * (qb - qa);
    WrapMultiple(b + c, qb - qa);
  }

  /** The two's-complement reading of a 32-bit pattern (`int32_t`). */
  function Signed32(u: nat): (r: int)
    requires u < TWO_32
    ensures -TWO_32 / 2 <= r < TWO_32 / 2 && Wrap32(r) == u
  {
    if u >= TWO_32 / 2 then u - TWO_32 else u
  }

  /** The two's-complement reading of a 64-bit pattern (`int64_t`). */
  function Signed64(u: nat): (r: int)
    requires u < TWO_64
    ensures -TWO_64 / 2 <= r < TWO_64 / 2 && Wrap64(r) == u
  {
    if u >= TWO_64 / 2 then u - TWO_64 else u
  }

  /** An unsigned 8-bit value (`uint8_t`, `char` read as unsigned). */
  newtype byte = x: int | 0 <= x < 256

  /** Bit `k` of `x` (`x & (1 << k)` is non-zero). */
  predicate HasBit(x: nat, k: nat) {
    (x / Pow2(k)) % 2 == 1
  }

  type u16 = x: nat | x < 0x1_0000
  type u32 = x: nat | x < 0x1_0000_0000
  type u64 = x: nat | x < 0x1_0000_0000_0000_0000

  /**
   * Process memory: the byte stored at each address and the little-endian
   * 16-, 32- and 64-bit loads the parser performs through typed pointers; a
   * C string stops at `limit` at the latest. `Consistent` ties the wide
   * loads to the bytes, and `FromBytes` builds a memory where they agree.
   */
  datatype Memory = Memory(read: int -> byte, read16: int -> u16, read32: int -> u32, read64: int -> u64, limit: nat)

  function LE16(read: int -> byte, addr: int): (r: u16)
  {
    read(addr) as nat + 0x100 * read(addr + 1) as nat
  }

  function LE32(read: int -> byte, addr: int): (r: u32)
  {
    LE16(read, addr) + 0x1_0000 * LE16(read, addr + 2)
  }

  function LE64(read: int -> byte, addr: int): (r: u64)
  {
    LE32(read, addr) + TWO_32 * LE32(read, addr + 4)
  }

  /** Every wide load is the little-endian value of the bytes it covers. */
  ghost predicate Consistent(m: Memory)
  {
    forall a :: m.read16(a) == LE16(m.read, a) && m.read32(a) == LE32(m.read, a) && m.read64(a) == LE64(m.read, a)
  }

  /** The memory holding the bytes `read`, with its wide loads derived from them. */
  function FromBytes(read: int -> byte, limit: nat): (m: Memory)
    ensures Consistent(m) && m.read == read && m.limit == limit
  {
    Memory(read, a => LE16(read, a), a => LE32(read, a), a => LE64(read, a), limit)
  }

  function ByteAt(m: Memory, addr: int): byte
  {
    m.read(addr)
  }

  function U8At(m: Memory, addr: int): (r: nat)
    ensures r < 256
  {
    ByteAt(m, addr) as nat
  }

  function U16At(m: Memory, addr: int): (r: nat)
    ensures r < 0x1_0000
  {
    m.read16(addr)
  }

  function U32At(m: Memory, addr: int): (r: nat)
    ensures r < TWO_32
  {
    m.read32(addr)
  }

  function U64At(m: Memory, addr: int): (r: nat)
    ensures r < TWO_64
  {
    m.read64(addr)
  }

  /** The bytes `[addr, addr + n)`. */
  function Slice(m: Memory, addr: int, n: nat): (s: seq<byte>)
    ensures |s| == n && forall i :: 0 <= i < n ==> s[i] == ByteAt(m, addr + i)
  {
    seq(n, i => ByteAt(m, addr + i))
  }

  /** The NUL-terminated string at `addr` (a `const char*`), without its NUL. */
  function CStringAt(m: Memory, addr: int): (s: seq<byte>)
    decreases m.limit - addr
  {
    if addr >= m.limit || ByteAt(m, addr) == 0 then []
    else [ByteAt(m, addr)] + CStringAt(m, addr + 1)
  }

  /** The string is the bytes from `addr` up to, not including, the first NUL or the end of memory. */
  lemma {:induction false} CStringAtBytes(m: Memory, addr: int)
    ensures var s := CStringAt(m, addr);
      && (forall i :: 0 <= i < |s| ==> s[i] != 0 && s[i] == ByteAt(m, addr + i))
      && (addr + |s| < m.limit ==> ByteAt(m, addr + |s|) == 0)
    decreases m.limit - addr
  {
    if addr < m.limit && ByteAt(m, addr) != 0 {
      CStringAtBytes(m, addr + 1);
    }
  }

  /**
   * The name in a fixed `char[n]` field: the bytes before the first NUL, at
   * most `n` of them (what `strlcpy(copy, name, n + 1)` leaves).
   */
  function FixedName(m: Memory, addr: int, n: nat): (s: seq<byte>)
    ensures |s| <= n
    ensures forall i :: 0 <= i < |s| ==> s[i] != 0 && s[i] == ByteAt(m, addr + i)
    ensures |s| < n ==> ByteAt(m, addr + |s|) == 0
    decreases n
  {
    if n == 0 || ByteAt(m, addr) == 0 then []
    else [ByteAt(m, addr)] + FixedName(m, addr + 1, n - 1)
  }

  /** A C string literal as bytes. */
  function Ascii(s: string): (r: seq<byte>)
    requires forall i :: 0 <= i < |s| ==> s[i] as int < 128
    ensures |r| == |s| && forall i :: 0 <= i < |s| ==> r[i] as int == s[i] as int
  {
    seq(|s|, i requires 0 <= i < |s| => s[i] as int as byte)
  }

  /** `strstr(hay, needle) != NULL` */
  predicate Contains(hay: seq<byte>, needle: seq<byte>) {
    exists i :: 0 <= i <= |hay| - |needle| && OccursAt(hay, needle, i)
  }

  predicate OccursAt(hay: seq<byte>, needle: seq<byte>, i: int) {
    0 <= i <= |hay| - |needle| && hay[i..i + |needle|] == needle
  }
}
