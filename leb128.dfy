/**
 * The LEB128 readers of the Mach-O parser (MachOParser::read_uleb128 and
 * MachOParser::read_sleb128), the variable-length integers of section 7.6 of
 * the DWARF Version 4 standard. Both are static: they see only the byte range
 * they are given, here `data` with the end pointer at `|data|`, and a
 * position `p` into it.
 */
module Leb128 {
  import opened Wrappers
  import opened Bytes
  import opened Diag

  /** The number the 7-bit groups of `s` spell, least significant group first. */
  function LebValue(s: seq<byte>): nat
  {
    if |s| == 0 then 0 else s[0] as nat % 128 + 128 * LebValue(s[1..])
  }

  /** `s` is one LEB128 number: every byte but the last has the continuation bit. */
  predicate Terminated(s: seq<byte>)
  {
    |s| >= 1 && s[|s| - 1] as nat < 128 && forall j :: 0 <= j < |s| - 1 ==> s[j] as nat >= 128
  }

  /** The accumulator step of both loops: a group at `bit`, the rest from `bit + 7` on. */
  lemma GroupStep(low: nat, high: nat, bit: nat)
    ensures Shl(low + 128 * high, bit) == Shl(low, bit) + Shl(high, bit + 7)
  {
    ShlAdd(low, 128 * high, bit);
    Shl7(high);
    ShlCompose(high, 7, bit);
  }

  // ---------------------------------------------------------------- unsigned

  /** What read_uleb128 returns, where it leaves `p`, and what it reports. */
  datatype Uleb = Uleb(value: nat, next: nat, error: Option<Message>)

  /**
   * The groups read from `p` when `left` more bytes may be decoded before
   * the shift passes bit 63 (`left == 10 - bit / 7`), summed without bound.
   */
  function UlebGroups(data: seq<byte>, p: nat, left: nat): (r: Uleb)
    requires p <= |data|
    ensures p <= r.next <= |data|
    decreases left
  {
    if p == |data| then Uleb(0, p, Some(MalformedUleb))
    else if left == 0 then Uleb(0, p, Some(UlebTooBig))
    else if data[p] as nat >= 128 then
      var r := UlebGroups(data, p + 1, left - 1);
      Uleb(data[p] as nat % 128 + 128 * r.value, r.next, r.error)
    else Uleb(data[p] as nat % 128, p + 1, None)
  }

  lemma {:induction false} UlebGroupsShape(data: seq<byte>, p: nat, left: nat)
    requires p <= |data|
    ensures var r := UlebGroups(data, p, left);
      && p <= r.next <= |data| && r.next - p <= left
      && r.value == LebValue(data[p..r.next])
      && (forall k :: p <= k < r.next - 1 ==> data[k] as nat >= 128)
      && (r.error.None? <==> Terminated(data[p..r.next]))
      && (r.error.Some? ==> forall k :: p <= k < r.next ==> data[k] as nat >= 128)
      && (r.error.Some? ==> r.error == Some(MalformedUleb) || r.error == Some(UlebTooBig))
      && (r.error == Some(MalformedUleb) ==> r.next == |data|)
      && (r.error == Some(UlebTooBig) ==> r.next < |data| && r.next - p == left)
    decreases left
  {
    var r := UlebGroups(data, p, left);
    if p == |data| || left == 0 {
      assert data[p..r.next] == [];
    } else if data[p] as nat >= 128 {
      UlebGroupsShape(data, p + 1, left - 1);
      assert data[p..r.next][1..] == data[p + 1..r.next];
      assert data[p..r.next][0] == data[p];
    } else {
      assert data[p..r.next] == [data[p]];
    }
  }

  /** The number of bytes read_uleb128 decodes before its shift passes bit 63. */
  const MAX_GROUPS: nat := 10

  /** read_uleb128 from `p`: the groups reduced to 64 bits, where `p` ends, and the error. */
  function ReadUleb(data: seq<byte>, p: nat): (r: Uleb)
    requires p <= |data|
    ensures p <= r.next <= |data|
  {
    var g := UlebGroups(data, p, MAX_GROUPS);
    Uleb(Wrap64(g.value), g.next, g.error)
  }

  /**
   * read_uleb128 consumes bytes with the continuation bit set up to and
   * including the first without it, at most ten, and returns their 7-bit
   * groups, least significant first, reduced to 64 bits. Reaching the end
   * reports "malformed uleb128" with `p` left at the end; an 11th byte
   * reports "too big" and is not consumed.
   */
  lemma ReadUlebShape(data: seq<byte>, p: nat)
    requires p <= |data|
    ensures var r := ReadUleb(data, p);
      && p <= r.next <= |data| && r.next - p <= 10
      && r.value == Wrap64(LebValue(data[p..r.next]))
      && (forall k :: p <= k < r.next - 1 ==> data[k] as nat >= 128)
      && (r.error.None? <==> Terminated(data[p..r.next]))
      && (r.error.Some? ==> forall k :: p <= k < r.next ==> data[k] as nat >= 128)
      && (r.error.Some? ==> r.error == Some(MalformedUleb) || r.error == Some(UlebTooBig))
      && (r.error == Some(MalformedUleb) ==> r.next == |data|)
      && (r.error == Some(UlebTooBig) ==> r.next < |data| && r.next - p == 10)
  {
    UlebGroupsShape(data, p, MAX_GROUPS);
  }

  /**
   * The loop of read_uleb128 as written, from `p` at shift `bit`, with the
   * shifted groups so far summed in `acc`; the value it leaves is that sum
   * before the reduction to 64 bits. The groups never overlap, so the sum is
   * the source's `|=` and one reduction at the end is the truncation of each
   * `slice << bit`.
   */
  function UlebLoop(data: seq<byte>, p: nat, left: nat, bit: nat, acc: nat): Uleb
    requires p <= |data|
    decreases left
  {
    if p == |data| then Uleb(acc, p, Some(MalformedUleb))
    else if left == 0 then Uleb(acc, p, Some(UlebTooBig))
    else
      var acc' := acc + Shl(data[p] as nat % 128, bit);
      if data[p] as nat >= 128 then UlebLoop(data, p + 1, left - 1, bit + 7, acc')
      else Uleb(acc', p + 1, None)
  }

  lemma {:induction false} UlebLoopGroups(data: seq<byte>, p: nat, left: nat, bit: nat, acc: nat)
    requires p <= |data|
    ensures var g := UlebGroups(data, p, left);
      UlebLoop(data, p, left, bit, acc) == Uleb(acc + Shl(g.value, bit), g.next, g.error)
    decreases left
  {
    ShlZero(bit);
    if p < |data| && left > 0 && data[p] as nat >= 128 {
      var low := data[p] as nat % 128;
      var rest := UlebGroups(data, p + 1, left - 1);
      UlebLoopGroups(data, p + 1, left - 1, bit + 7, acc + Shl(low, bit));
      GroupStep(low, rest.value, bit);
      assert UlebGroups(data, p, left).value == low + 128 * rest.value;
    }
  }

  /** The loop started as read_uleb128 starts it, reduced to 64 bits, computes ReadUleb. */
  lemma UlebLoopStart(data: seq<byte>, p: nat, left: nat, bit: nat, acc: nat)
    requires p <= |data| && left == MAX_GROUPS && bit == 0 && acc == 0
    ensures var l := UlebLoop(data, p, left, bit, acc);
      Uleb(Wrap64(l.value), l.next, l.error) == ReadUleb(data, p)
  {
    var g := UlebGroups(data, p, left);
    UlebLoopGroups(data, p, left, bit, acc);
    assert Shl(g.value, bit) == g.value;
    assert UlebLoop(data, p, left, bit, acc) == g;
  }

  /** MachOParser::read_uleb128: the do-while loop over `p`, reporting into `diag`. */
  method ReadUleb128(diag: Diagnostics, data: seq<byte>, p0: nat) returns (result: nat, p: nat)
    requires p0 <= |data|
    modifies diag`errors
    ensures result == ReadUleb(data, p0).value && p == ReadUleb(data, p0).next
    ensures diag.errors == old(diag.errors) + OptRecorded(ReadUleb(data, p0).error)
  {
    var acc: nat := 0;
    var bit: nat := 0;
    ghost var left: nat := MAX_GROUPS;
    p := p0;
    ghost var r := UlebLoop(data, p0, left, bit, acc);
    UlebLoopStart(data, p0, left, bit, acc);
    while true
      invariant p <= |data| && bit + 7 * left == 70
      invariant UlebLoop(data, p, left, bit, acc) == r
      invariant diag.errors == old(diag.errors)
      decreases |data| - p
    {
      if p == |data| {
        diag.Error(MalformedUleb);
        break;
      }
      var slice := data[p] as nat % 128;
      if bit > 63 {
        diag.Error(UlebTooBig);
        break;
      }
      acc := acc + Shl(slice, bit);
      bit := bit + 7;
      left := left - 1;
      var more := data[p] as nat >= 128;
      p := p + 1;
      if !more {
        break;
      }
    }
    result := Wrap64(acc);
  }

  /** The minimal ULEB128 encoding of `v`. */
  function EncodeUleb(v: nat): (s: seq<byte>)
    decreases v
  {
    if v < 128 then [v as byte] else [(v % 128 + 128) as byte] + EncodeUleb(v / 128)
  }

  /** The encoding is one terminated LEB128 number whose groups spell `v`. */
  lemma {:induction false} EncodeUlebShape(v: nat)
    ensures Terminated(EncodeUleb(v)) && LebValue(EncodeUleb(v)) == v
    decreases v
  {
    var s := EncodeUleb(v);
    if v >= 128 {
      EncodeUlebShape(v / 128);
      assert s[1..] == EncodeUleb(v / 128);
    }
  }

  /** A value below `2^(7k)` takes at most `k` bytes. */
  lemma {:induction false} EncodeUlebLength(v: nat, k: nat)
    requires k >= 1 && v < Pow2(7 * k)
    ensures |EncodeUleb(v)| <= k
    decreases v
  {
    if v >= 128 {
      Pow2Byte();
      assert k != 1;
      Pow2Plus7(7 * (k - 1));
      assert v / 128 < Pow2(7 * (k - 1));
      EncodeUlebLength(v / 128, k - 1);
    }
  }

  /** Decoding a terminated number of at most `left` bytes takes exactly its bytes. */
  lemma {:induction false} UlebGroupsTerminated(data: seq<byte>, p: nat, left: nat, s: seq<byte>)
    requires Terminated(s) && |s| <= left && p + |s| <= |data| && data[p..p + |s|] == s
    ensures UlebGroups(data, p, left) == Uleb(LebValue(s), p + |s|, None)
    decreases left
  {
    assert data[p] == s[0];
    if |s| > 1 {
      assert data[p + 1..p + |s|] == s[1..];
      UlebGroupsTerminated(data, p + 1, left - 1, s[1..]);
    }
  }

  /** Decoding the minimal encoding of any 64-bit value gives the value back and consumes exactly it. */
  lemma UlebRoundTrip(prefix: seq<byte>, v: nat, suffix: seq<byte>)
    requires v < TWO_64
    ensures var data := prefix + EncodeUleb(v) + suffix;
      ReadUleb(data, |prefix|) == Uleb(v, |prefix| + |EncodeUleb(v)|, None)
  {
    var s := EncodeUleb(v);
    var data := prefix + s + suffix;
    EncodeUlebShape(v);
    Pow2Word();
    EncodeUlebLength(v, 10);
    assert data[|prefix|..|prefix| + |s|] == s;
    UlebGroupsTerminated(data, |prefix|, MAX_GROUPS, s);
  }

  // ------------------------------------------------------------------ signed

  /** Bit 6 of a byte (`byte & 0x40`), the sign of the last group. */
  predicate SignGroup(b: byte)
  {
    b as nat % 128 >= 64
  }

  /**
   * Where read_sleb128's loop ends when started at `p` with `last` as the
   * byte read before: the groups read summed without bound, how many bytes
   * were read (`bit == 7 * count`), the last byte read, where `p` stands and
   * the error reported. Unlike read_uleb128 the loop has no bound.
   */
  datatype SlebScan = SlebScan(groups: nat, count: nat, last: byte, next: nat, error: Option<Message>)

  function SlebScanFrom(data: seq<byte>, p: nat, last: byte): SlebScan
    requires p <= |data|
    decreases |data| - p
  {
    if p == |data| then SlebScan(0, 0, last, p, Some(MalformedSleb))
    else if data[p] as nat >= 128 then
      var r := SlebScanFrom(data, p + 1, data[p]);
      SlebScan(data[p] as nat % 128 + 128 * r.groups, r.count + 1, r.last, r.next, r.error)
    else SlebScan(data[p] as nat % 128, 1, data[p], p + 1, None)
  }

  lemma {:induction false} SlebScanShape(data: seq<byte>, p: nat, last: byte)
    requires p <= |data|
    ensures var s := SlebScanFrom(data, p, last);
      && p <= s.next <= |data| && s.next == p + s.count
      && s.groups == LebValue(data[p..s.next])
      && (forall k :: p <= k < s.next - 1 ==> data[k] as nat >= 128)
      && (s.error.None? <==> Terminated(data[p..s.next]))
      && (s.error.Some? ==> s.error == Some(MalformedSleb) && s.next == |data|)
      && (s.error.Some? ==> forall k :: p <= k < s.next ==> data[k] as nat >= 128)
      && s.last == (if s.count == 0 then last else data[s.next - 1])
    decreases |data| - p
  {
    var s := SlebScanFrom(data, p, last);
    if p == |data| {
      assert data[p..s.next] == [];
    } else if data[p] as nat >= 128 {
      SlebScanShape(data, p + 1, data[p]);
      assert data[p..s.next][1..] == data[p + 1..s.next];
      assert data[p..s.next][0] == data[p];
    } else {
      assert data[p..s.next] == [data[p]];
    }
  }

  /** What read_sleb128 returns (None where C++ leaves it undefined), where it leaves `p`, and what it reports. */
  datatype Sleb = Sleb(value: Option<int>, next: nat, error: Option<Message>)

  /**
   * read_sleb128 as written. Each group is shifted to `bit`, and a set sign
   * bit in the last byte read fills the bits from `bit` up with ones,
   * `(-1LL) << bit`, which subtracts `2^bit` from the groups below it. A
   * shift by 64 or more is undefined in C++: an 11th byte is shifted by 70,
   * and after ten bytes the sign extension is a shift by 70.
   */
  function SlebAsWritten(data: seq<byte>, p: nat): Sleb
    requires p <= |data|
  {
    var s := SlebScanFrom(data, p, 0);
    var bit := 7 * s.count;
    var value :=
      if s.count > 10 then None
      else if SignGroup(s.last) then (if bit < 64 then Some(Signed64(Wrap64(s.groups - Pow2(bit)))) else None)
      else Some(Signed64(Wrap64(s.groups)));
    Sleb(value, s.next, s.error)
  }

  /**
   * read_sleb128 with every shift kept inside the 64 bits of the result: a
   * group or a sign extension at `bit >= 64` contributes nothing. The value
   * is then the sign-extended number the groups spell, reduced to `int64_t`.
   */
  function ReadSleb(data: seq<byte>, p: nat): Sleb
    requires p <= |data|
  {
    var s := SlebScanFrom(data, p, 0);
    var signed := if SignGroup(s.last) then s.groups - Pow2(7 * s.count) else s.groups;
    Sleb(Some(Signed64(Wrap64(signed))), s.next, s.error)
  }

  /** Where the source's arithmetic is defined, the corrected reading agrees with it. */
  lemma SlebAsWrittenAgrees(data: seq<byte>, p: nat)
    requires p <= |data|
    ensures var w := SlebAsWritten(data, p);
      var c := ReadSleb(data, p);
      && w.next == c.next && w.error == c.error
      && (w.value.Some? ==> w.value == c.value)
      && (w.value.None? <==> var s := SlebScanFrom(data, p, 0); s.count > 10 || (s.count == 10 && SignGroup(s.last)))
  {
  }

  /**
   * The loop of read_sleb128 from `p` at shift `bit` with `acc` summed so
   * far and `last` the byte read before: the sum, the final shift, the last
   * byte, where `p` ends, and the error.
   */
  datatype SlebState = SlebState(acc: nat, bit: nat, last: byte, next: nat, error: Option<Message>)

  function SlebLoop(data: seq<byte>, p: nat, bit: nat, acc: nat, last: byte): SlebState
    requires p <= |data|
    decreases |data| - p
  {
    if p == |data| then SlebState(acc, bit, last, p, Some(MalformedSleb))
    else
      var acc' := acc + Shl(data[p] as nat % 128, bit);
      if data[p] as nat >= 128 then SlebLoop(data, p + 1, bit + 7, acc', data[p])
      else SlebState(acc', bit + 7, data[p], p + 1, None)
  }

  lemma {:induction false} SlebLoopScan(data: seq<byte>, p: nat, bit: nat, acc: nat, last: byte)
    requires p <= |data|
    ensures var s := SlebScanFrom(data, p, last);
      SlebLoop(data, p, bit, acc, last) == SlebState(acc + Shl(s.groups, bit), bit + 7 * s.count, s.last, s.next, s.error)
    decreases |data| - p
  {
    ShlZero(bit);
    if p < |data| && data[p] as nat >= 128 {
      var low := data[p] as nat % 128;
      var rest := SlebScanFrom(data, p + 1, data[p]);
      SlebLoopScan(data, p + 1, bit + 7, acc + Shl(low, bit), data[p]);
      GroupStep(low, rest.groups, bit);
      assert SlebScanFrom(data, p, last).groups == low + 128 * rest.groups;
    }
  }

  /** A multiple of `2^64` vanishes in the reduction to 64 bits. */
  lemma WrapPow2(x: int, n: nat)
    requires n >= 64
    ensures Wrap64(x - Pow2(n)) == Wrap64(x)
  {
    var k := Pow2(n - 64);
    assert Pow2(n) == TWO_64 * k by {
      Pow2Word();
      Pow2Add(64, n - 64);
    }
    WrapMultiple(x, k);
  }

  /** The loop started as read_sleb128 starts it, with the fixed sign extension, computes ReadSleb. */
  lemma SlebLoopStart(data: seq<byte>, p: nat, bit: nat, acc: nat, last: byte)
    requires p <= |data| && bit == 0 && acc == 0 && last == 0
    ensures var e := SlebLoop(data, p, bit, acc, last);
      var ext := if SignGroup(e.last) && e.bit < 64 then e.acc - Shl(1, e.bit) else e.acc;
      ReadSleb(data, p) == Sleb(Some(Signed64(Wrap64(ext))), e.next, e.error)
  {
    var s := SlebScanFrom(data, p, last);
    SlebLoopScan(data, p, bit, acc, last);
    assert Shl(s.groups, bit) == s.groups;
    var e := SlebLoop(data, p, bit, acc, last);
    ShlOne(e.bit);
    if SignGroup(e.last) && e.bit >= 64 {
      WrapPow2(e.acc, e.bit);
    }
  }

  /**
   * MachOParser::read_sleb128, reporting into `diag`, with the sign
   * extension guarded by `bit < 64`; the groups are summed without bound, so
   * one reduction to 64 bits at the end drops those past bit 63.
   */
  method ReadSleb128(diag: Diagnostics, data: seq<byte>, p0: nat) returns (result: int, p: nat)
    requires p0 <= |data|
    modifies diag`errors
    ensures ReadSleb(data, p0).value == Some(result) && p == ReadSleb(data, p0).next
    ensures diag.errors == old(diag.errors) + OptRecorded(ReadSleb(data, p0).error)
  {
    var acc: nat := 0;
    var bit: nat := 0;
    var b: byte := 0;
    p := p0;
    ghost var total := SlebLoop(data, p, bit, acc, b);
    SlebLoopStart(data, p, bit, acc, b);
    while true
      invariant p <= |data|
      invariant SlebLoop(data, p, bit, acc, b) == total
      invariant diag.errors == old(diag.errors)
      decreases |data| - p
    {
      if p == |data| {
        diag.Error(MalformedSleb);
        break;
      }
      b := data[p];
      p := p + 1;
      acc := acc + Shl(b as nat % 128, bit);
      bit := bit + 7;
      if b as nat < 128 {
        break;
      }
    }
    var ext: int := acc;
    if SignGroup(b) && bit < 64 {
      ext := acc - Shl(1, bit);
    }
    result := Signed64(Wrap64(ext));
  }

  /** The minimal signed LEB128 encoding of `v`: groups until the rest is all sign. */
  function EncodeSleb(v: int): (s: seq<byte>)
    decreases if v >= 0 then v else -v - 1
  {
    var low := v % 128;
    var rest := v / 128;
    if (rest == 0 && low < 64) || (rest == -1 && low >= 64) then [low as byte]
    else [(low + 128) as byte] + EncodeSleb(rest)
  }

  /**
   * `s` is one terminated LEB128 number whose last group carries the sign of
   * `v` in bit 6; its groups spell `v`, or `v + 2^(7n)` for a negative `v`
   * of `n` bytes.
   */
  predicate EncodesSigned(s: seq<byte>, v: int)
  {
    && Terminated(s) && (SignGroup(s[|s| - 1]) <==> v < 0)
    && LebValue(s) == (if v < 0 then v + Pow2(7 * |s|) else v)
  }

  lemma {:induction false} EncodeSlebShape(v: int)
    ensures EncodesSigned(EncodeSleb(v), v)
    decreases if v >= 0 then v else -v - 1
  {
    var rest := v / 128;
    if (rest == 0 && v % 128 < 64) || (rest == -1 && v % 128 >= 64) {
      EncodeSlebLast(v);
    } else {
      EncodeSlebShape(rest);
      EncodeSlebCons(v);
    }
  }

  /** A value whose rest is all sign is one byte. */
  lemma EncodeSlebLast(v: int)
    requires (v / 128 == 0 && v % 128 < 64) || (v / 128 == -1 && v % 128 >= 64)
    ensures EncodesSigned(EncodeSleb(v), v)
  {
    var s := EncodeSleb(v);
    assert s == [(v % 128) as byte];
    Pow2Byte();
    assert LebValue(s) == v % 128;
  }

  /** A byte with the continuation bit in front of a terminated number. */
  lemma ConsGroup(b: byte, t: seq<byte>)
    requires b as nat >= 128 && Terminated(t)
    ensures var s := [b] + t;
      && Terminated(s) && s[|s| - 1] == t[|t| - 1]
      && LebValue(s) == b as nat % 128 + 128 * LebValue(t)
  {
    var s := [b] + t;
    assert s[1..] == t;
  }

  /** A value with more groups is its low group and the encoding of the rest. */
  lemma EncodeSlebCons(v: int)
    requires !((v / 128 == 0 && v % 128 < 64) || (v / 128 == -1 && v % 128 >= 64))
    requires EncodesSigned(EncodeSleb(v / 128), v / 128)
    ensures EncodesSigned(EncodeSleb(v), v)
  {
    var low := v % 128;
    var rest := v / 128;
    var t := EncodeSleb(rest);
    assert EncodeSleb(v) == [(low + 128) as byte] + t;
    DivMod128(v);
    SignedCons(v, low, rest, t);
  }

  lemma DivMod128(v: int)
    ensures v == 128 * (v / 128) + v % 128 && 0 <= v % 128 < 128
    ensures v / 128 < 0 <==> v < 0
  {
  }

  lemma SignedCons(v: int, low: nat, rest: int, t: seq<byte>)
    requires v == 128 * rest + low && low < 128 && (rest < 0 <==> v < 0)
    requires EncodesSigned(t, rest)
    ensures EncodesSigned([(low + 128) as byte] + t, v)
  {
    ConsGroup((low + 128) as byte, t);
    EncodeSlebStep(v, low, rest, |t|, LebValue(t));
  }

  /** The value equation of one more group. */
  lemma EncodeSlebStep(v: int, low: nat, rest: int, n: nat, tail: nat)
    requires v == 128 * rest + low && (rest < 0 <==> v < 0)
    requires tail == (if rest < 0 then rest + Pow2(7 * n) else rest)
    ensures low + 128 * tail == (if v < 0 then v + Pow2(7 * (n + 1)) else v)
  {
    Pow2Plus7(7 * n);
  }

  /** A value in `[-2^(7k-1), 2^(7k-1))` takes at most `k` bytes. */
  lemma {:induction false} EncodeSlebLength(v: int, k: nat)
    requires k >= 1
    requires -(Pow2(7 * k - 1) as int) <= v < Pow2(7 * k - 1)
    ensures |EncodeSleb(v)| <= k
    decreases k
  {
    var rest := v / 128;
    Pow2Byte();
    if k == 1 {
      assert -64 <= v < 64;
    } else {
      Pow2Plus7(7 * (k - 1) - 1);
      assert 7 * (k - 1) - 1 + 7 == 7 * k - 1;
      EncodeSlebLength(rest, k - 1);
    }
  }

  /** Scanning a terminated number reads exactly its bytes. */
  lemma {:induction false} SlebScanTerminated(data: seq<byte>, p: nat, last: byte, s: seq<byte>)
    requires Terminated(s) && p + |s| <= |data| && data[p..p + |s|] == s
    ensures SlebScanFrom(data, p, last) == SlebScan(LebValue(s), |s|, s[|s| - 1], p + |s|, None)
    decreases |s|
  {
    assert data[p] == s[0];
    if |s| > 1 {
      assert data[p + 1..p + |s|] == s[1..];
      SlebScanTerminated(data, p + 1, data[p], s[1..]);
    }
  }

  /** Every `int64_t` fits in ten bytes. */
  lemma EncodeSlebInt64(v: int)
    requires -TWO_64 / 2 <= v < TWO_64 / 2
    ensures |EncodeSleb(v)| <= 10
  {
    Pow2Word();
    Pow2Add(63, 6);
    EncodeSlebLength(v, 10);
  }

  /** Decoding the minimal encoding of any `int64_t` gives it back and consumes exactly it. */
  lemma SlebRoundTrip(prefix: seq<byte>, v: int, suffix: seq<byte>)
    requires -TWO_64 / 2 <= v < TWO_64 / 2
    ensures var data := prefix + EncodeSleb(v) + suffix;
      ReadSleb(data, |prefix|) == Sleb(Some(v), |prefix| + |EncodeSleb(v)|, None)
  {
    var s := EncodeSleb(v);
    var data := prefix + s + suffix;
    EncodeSlebShape(v);
    assert EncodesSigned(s, v);
    assert data[|prefix|..|prefix| + |s|] == s;
    SlebScanTerminated(data, |prefix|, 0, s);
  }

  /**
   * The source as written fails that round trip: INT64_MIN is encoded as
   * nine bytes 0x80 and a final 0x7f, and after those ten bytes the sign
   * extension shifts by 70.
   */
  lemma SlebAsWrittenMinInt64()
    ensures var data := EncodeSleb(-TWO_64 / 2);
      && data == [0x80, 0x80, 0x80, 0x80, 0x80, 0x80, 0x80, 0x80, 0x80, 0x7f]
      && SlebAsWritten(data, 0).value == None
      && ReadSleb(data, 0).value == Some(-TWO_64 / 2)
  {
    EncodeMinInt64();
    assert -TWO_64 / 2 == -0x8000000000000000;
    var data := EncodeSleb(-TWO_64 / 2);
    EncodeSlebShape(-TWO_64 / 2);
    assert EncodesSigned(data, -TWO_64 / 2);
    SlebScanTerminated(data, 0, 0, data);
    SlebRoundTrip([], -TWO_64 / 2, []);
    assert [] + data + [] == data;
  }

  /** `-2^21` is three bytes 0x80 and a final 0x7f. */
  lemma EncodeNegPow21()
    ensures EncodeSleb(-0x200000) == [0x80, 0x80, 0x80, 0x7f]
  {
    assert EncodeSleb(-1) == [0x7f];
    EncodeSlebZeroGroup(-1);
    EncodeSlebZeroGroup(-0x80);
    EncodeSlebZeroGroup(-0x4000);
  }

  /** `-2^42` is six bytes 0x80 and a final 0x7f. */
  lemma EncodeNegPow42()
    ensures EncodeSleb(-0x40000000000) == [0x80, 0x80, 0x80, 0x80, 0x80, 0x80, 0x7f]
  {
    EncodeNegPow21();
    EncodeSlebZeroGroup(-0x200000);
    EncodeSlebZeroGroup(-0x10000000);
    EncodeSlebZeroGroup(-0x800000000);
  }

  /** INT64_MIN, `-2^63`, is nine bytes 0x80 and a final 0x7f. */
  lemma EncodeMinInt64()
    ensures EncodeSleb(-0x8000000000000000) == [0x80, 0x80, 0x80, 0x80, 0x80, 0x80, 0x80, 0x80, 0x80, 0x7f]
  {
    EncodeNegPow42();
    EncodeSlebZeroGroup(-0x40000000000);
    EncodeSlebZeroGroup(-0x2000000000000);
    EncodeSlebZeroGroup(-0x100000000000000);
  }

  /** A zero low group of a negative value is one byte 0x80 in front of the rest. */
  lemma EncodeSlebZeroGroup(w: int)
    requires w <= -1
    ensures EncodeSleb(128 * w) == [0x80] + EncodeSleb(w)
  {
    DivMod128(128 * w);
  }
}
