/**
 * The Mach-O header and the walk over its load commands
 * (MachOParser::forEachLoadCommand, wellFormedMachHeaderAndLoadCommands,
 * isMachO). An image is a header address inside process memory.
 */
module LoadCommands {
  import opened Wrappers
  import opened Bytes
  import opened Diag

  const MH_MAGIC: nat := 0xfeedface
  const MH_MAGIC_64: nat := 0xfeedfacf
  const MACH_HEADER_SIZE: nat := 28
  const MACH_HEADER_64_SIZE: nat := 32
  const MH_DYLIB: nat := 6
  const MH_DYLINKER: nat := 7
  /** Header flag bit marking an image that lives in the dyld shared cache. */
  const MH_IN_DYLD_CACHE: nat := 0x8000_0000

  /**
   * A parser over the image whose `mach_header` is at address `mh`.
   * `lp64` is the compile-time pointer width (`__LP64__`), which also decides
   * `is64()` in the in-process build.
   */
  datatype Image = Image(mem: Memory, mh: nat, lp64: bool)

  function Magic(img: Image): nat { U32At(img.mem, img.mh) }
  function CpuType(img: Image): nat { U32At(img.mem, img.mh + 4) }
  function FileType(img: Image): nat { U32At(img.mem, img.mh + 12) }
  function NCmds(img: Image): nat { U32At(img.mem, img.mh + 16) }
  function SizeOfCmds(img: Image): nat { U32At(img.mem, img.mh + 20) }
  function HeaderFlags(img: Image): nat { U32At(img.mem, img.mh + 24) }

  /** `uintptr_t` arithmetic at the build's pointer width. */
  function WrapPtr(img: Image, x: int): (r: nat)
    ensures r < TWO_64
  {
    if img.lp64 then Wrap64(x) else Wrap32(x)
  }

  /** The first load command follows the 32- or 64-bit header; other magics have none. */
  function StartCmds(img: Image): (r: Option<nat>)
    ensures r.Some? <==> Magic(img) == MH_MAGIC || Magic(img) == MH_MAGIC_64
    ensures Magic(img) == MH_MAGIC_64 ==> r == Some(img.mh + MACH_HEADER_64_SIZE)
    ensures Magic(img) == MH_MAGIC ==> r == Some(img.mh + MACH_HEADER_SIZE)
  {
    if Magic(img) == MH_MAGIC_64 then Some(img.mh + MACH_HEADER_64_SIZE)
    else if Magic(img) == MH_MAGIC then Some(img.mh + MACH_HEADER_SIZE)
    else None
  }

  /** One load command as the walk hands it to a visitor. */
  datatype LoadCommand = LoadCommand(index: nat, addr: nat, cmd: nat, cmdsize: nat)

  function CommandAt(img: Image, index: nat, addr: nat): LoadCommand
  {
    LoadCommand(index, addr, U32At(img.mem, addr), CmdSizeAt(img, addr))
  }

  /** The `cmdsize` field of the command at `addr`. */
  function CmdSizeAt(img: Image, addr: nat): nat
  {
    U32At(img.mem, addr + 4)
  }

  /**
   * The size check on command `index` at `addr` of `cmdsize` bytes: too
   * small below 8 bytes, too large when its end leaves `[start, end]`.
   */
  function Violation(start: nat, end: nat, index: nat, addr: nat, cmdsize: nat): (e: Option<Message>)
    ensures e == None <==> 8 <= cmdsize && start <= addr + cmdsize <= end
    ensures e.Some? ==> e.value.LoadCommandTooSmall? || e.value.LoadCommandTooLarge?
  {
    var next := addr + cmdsize;
    if cmdsize < 8 then Some(LoadCommandTooSmall(index, cmdsize))
    else if next > end || next < start then Some(LoadCommandTooLarge(index, cmdsize))
    else None
  }

  /** The number of addresses a pointer of the build's width can hold. */
  function PtrLimit(img: Image): (r: nat)
    ensures r == TWO_32 || r == TWO_64
  {
    if img.lp64 then TWO_64 else TWO_32
  }

  /**
   * The size check as the source computes it: `nextCmd` is a pointer sum,
   * so it wraps at the pointer width before the two comparisons.
   */
  function ViolationWrapped(img: Image, start: nat, end: nat, index: nat, addr: nat, cmdsize: nat): Option<Message>
  {
    var next := WrapPtr(img, addr + cmdsize);
    if cmdsize < 8 then Some(LoadCommandTooSmall(index, cmdsize))
    else if next > end || next < start then Some(LoadCommandTooLarge(index, cmdsize))
    else None
  }

  /**
   * When the command area lies inside the address space and a 32-bit
   * `cmdsize` cannot carry `nextCmd` around it back into the area, the
   * wrapped check and `Violation` agree: a sum that wraps lands below
   * `startCmds` (the `nextCmd < startCmds` test) exactly where the
   * unbounded sum lies past `cmdsEnd`.
   */
  lemma ViolationWrappedAgrees(img: Image, start: nat, end: nat, index: nat, addr: nat, cmdsize: nat)
    requires start <= addr <= end < PtrLimit(img)
    requires cmdsize < TWO_32 && end - start + cmdsize < PtrLimit(img)
    ensures ViolationWrapped(img, start, end, index, addr, cmdsize) == Violation(start, end, index, addr, cmdsize)
    ensures addr + cmdsize >= PtrLimit(img) ==> WrapPtr(img, addr + cmdsize) < start
  {
    var L := PtrLimit(img);
    if addr + cmdsize >= L {
      assert addr + cmdsize - L < L;
      assert WrapPtr(img, addr + cmdsize) == addr + cmdsize - L;
    } else {
      assert WrapPtr(img, addr + cmdsize) == addr + cmdsize;
    }
  }

  /** On a 64-bit build the agreement needs only that the area ends below 2^64. */
  lemma ViolationWrappedAgrees64(img: Image, start: nat, end: nat, index: nat, addr: nat, cmdsize: nat)
    requires img.lp64 && start <= addr <= end < TWO_64 && end - start < TWO_32 && cmdsize < TWO_32
    ensures ViolationWrapped(img, start, end, index, addr, cmdsize) == Violation(start, end, index, addr, cmdsize)
  {
    ViolationWrappedAgrees(img, start, end, index, addr, cmdsize);
  }

  /** The commands that pass the check, in order, and the first violation if any. */
  datatype WalkResult = WalkResult(cmds: seq<LoadCommand>, error: Option<Message>)

  function WalkFrom(img: Image, start: nat, end: nat, i: nat, cur: nat, n: nat): WalkResult
    decreases n - i, 1
  {
    if i >= n then WalkResult([], None) else WalkCommand(img, start, end, i, cur, n)
  }

  /** The walk from command `i < n`: checked, then followed by the rest. */
  function WalkCommand(img: Image, start: nat, end: nat, i: nat, cur: nat, n: nat): WalkResult
    requires i < n
    decreases n - i, 0
  {
    var c := CommandAt(img, i, cur);
    var v := Violation(start, end, i, cur, c.cmdsize);
    if v.Some? then WalkResult([], v)
    else
      var rest := WalkFrom(img, start, end, i + 1, cur + c.cmdsize, n);
      WalkResult([c] + rest.cmds, rest.error)
  }

  /** The full walk of the image's load commands, as forEachLoadCommand performs it with a visitor that never stops. */
  function Walk(img: Image): WalkResult
  {
    match StartCmds(img)
    case None => WalkResult([], Some(NoMagic))
    case Some(s) => WalkFrom(img, s, s + SizeOfCmds(img), 0, s, NCmds(img))
  }

  function CmdsEnd(img: Image): nat
    requires StartCmds(img).Some?
  {
    StartCmds(img).value + SizeOfCmds(img)
  }

  /** Where the command after `cmds` starts when the first one is at `start`. */
  function NextAddr(start: nat, cmds: seq<LoadCommand>): nat
    decreases |cmds|
  {
    if |cmds| == 0 then start else NextAddr(start + cmds[0].cmdsize, cmds[1..])
  }

  /**
   * `cmds` is a chain of checked commands read from memory, numbered from
   * `i0`, the first at `cur`, each starting where the previous one ends,
   * every one at least 8 bytes and ending inside `[start, end]`.
   */
  ghost predicate Chain(img: Image, start: nat, end: nat, i0: nat, cur: nat, cmds: seq<LoadCommand>)
  {
    Contiguous(cur, cmds)
    && forall k :: 0 <= k < |cmds| ==>
         cmds[k] == CommandAt(img, i0 + k, cmds[k].addr)
         && cmds[k].cmdsize >= 8
         && start <= cmds[k].addr
         && cmds[k].addr + cmds[k].cmdsize <= end
  }

  /** Each command starts where the previous one ends, the first at `cur`. */
  ghost predicate Contiguous(cur: nat, cmds: seq<LoadCommand>)
    decreases |cmds|
  {
    |cmds| == 0 || (cmds[0].addr == cur && Contiguous(cur + cmds[0].cmdsize, cmds[1..]))
  }

  /** One step of the walk from command `i`. */
  lemma WalkFromStep(img: Image, start: nat, end: nat, i: nat, cur: nat, n: nat)
    requires i < n
    ensures var c := CommandAt(img, i, cur);
      var w := WalkFrom(img, start, end, i, cur, n);
      var rest := WalkFrom(img, start, end, i + 1, cur + c.cmdsize, n);
      && (Violation(start, end, i, cur, c.cmdsize).Some? ==> w == WalkResult([], Violation(start, end, i, cur, c.cmdsize)))
      && (Violation(start, end, i, cur, c.cmdsize).None? ==> w == WalkResult([c] + rest.cmds, rest.error))
  {
  }

  lemma {:induction false} WalkFromCount(img: Image, start: nat, end: nat, i: nat, cur: nat, n: nat)
    requires i <= n
    ensures var w := WalkFrom(img, start, end, i, cur, n);
      i + |w.cmds| <= n && (w.error.None? <==> i + |w.cmds| == n)
    decreases n - i
  {
    if i < n {
      var c := CommandAt(img, i, cur);
      WalkFromStep(img, start, end, i, cur, n);
      WalkFromCount(img, start, end, i + 1, cur + c.cmdsize, n);
    }
  }

  lemma {:induction false} WalkFromError(img: Image, start: nat, end: nat, i: nat, cur: nat, n: nat)
    requires i <= n
    ensures var w := WalkFrom(img, start, end, i, cur, n);
      w.error.Some? ==> w.error == Violation(start, end, i + |w.cmds|, NextAddr(cur, w.cmds), CmdSizeAt(img, NextAddr(cur, w.cmds)))
    decreases n - i
  {
    if i < n {
      var c := CommandAt(img, i, cur);
      WalkFromStep(img, start, end, i, cur, n);
      if Violation(start, end, i, cur, c.cmdsize).None? {
        WalkFromError(img, start, end, i + 1, cur + c.cmdsize, n);
        var w := WalkFrom(img, start, end, i, cur, n);
        var rest := WalkFrom(img, start, end, i + 1, cur + c.cmdsize, n);
        assert w.cmds[1..] == rest.cmds;
      }
    }
  }

  lemma {:induction false} WalkFromChain(img: Image, start: nat, end: nat, i: nat, cur: nat, n: nat)
    requires i <= n && start <= cur
    ensures Chain(img, start, end, i, cur, WalkFrom(img, start, end, i, cur, n).cmds)
    decreases n - i
  {
    var w := WalkFrom(img, start, end, i, cur, n);
    if i < n {
      var c := CommandAt(img, i, cur);
      WalkFromStep(img, start, end, i, cur, n);
      if Violation(start, end, i, cur, c.cmdsize).None? {
        WalkFromChain(img, start, end, i + 1, cur + c.cmdsize, n);
        var rest := WalkFrom(img, start, end, i + 1, cur + c.cmdsize, n);
        assert w.cmds[1..] == rest.cmds;
        forall k | 0 <= k < |w.cmds|
          ensures w.cmds[k] == CommandAt(img, i + k, w.cmds[k].addr)
          ensures w.cmds[k].cmdsize >= 8 && start <= w.cmds[k].addr
          ensures w.cmds[k].addr + w.cmds[k].cmdsize <= end
        {
          if k > 0 { assert w.cmds[k] == rest.cmds[k - 1]; }
        }
      }
    }
  }

  /**
   * What the walk guarantees about the commands it hands out: each is at
   * least 8 bytes, lies inside the command area, follows its predecessor,
   * there are at most `ncmds` of them, and when the walk ends early the
   * error describes exactly the first command that failed the check.
   */
  lemma WalkShape(img: Image)
    ensures var w := Walk(img);
      |w.cmds| <= NCmds(img)
      && (StartCmds(img).None? ==> w == WalkResult([], Some(NoMagic)))
      && (StartCmds(img).Some? ==>
            var s := StartCmds(img).value;
            Chain(img, s, CmdsEnd(img), 0, s, w.cmds)
            && (w.error.None? <==> |w.cmds| == NCmds(img))
            && (w.error.Some? ==> w.error == Violation(s, CmdsEnd(img), |w.cmds|, NextAddr(s, w.cmds), CmdSizeAt(img, NextAddr(s, w.cmds)))))
  {
    if StartCmds(img).Some? {
      var s := StartCmds(img).value;
      WalkFromCount(img, s, CmdsEnd(img), 0, s, NCmds(img));
      WalkFromError(img, s, CmdsEnd(img), 0, s, NCmds(img));
      WalkFromChain(img, s, CmdsEnd(img), 0, s, NCmds(img));
    }
  }

  /** The commands a visitor sees when it asks to stop at the first `c` with `stop(c)`. */
  function UntilStop(cmds: seq<LoadCommand>, stop: LoadCommand -> bool): seq<LoadCommand>
  {
    if |cmds| == 0 then []
    else if stop(cmds[0]) then [cmds[0]]
    else [cmds[0]] + UntilStop(cmds[1..], stop)
  }

  /**
   * Stopping is final: the visitor sees a prefix of the commands, all but the
   * last of which it let pass, and it misses commands only after asking to stop.
   */
  lemma {:induction false} UntilStopPrefix(cmds: seq<LoadCommand>, stop: LoadCommand -> bool)
    ensures var r := UntilStop(cmds, stop);
      |r| <= |cmds| && r == cmds[..|r|]
      && (forall k :: 0 <= k < |r| - 1 ==> !stop(r[k]))
      && (|r| < |cmds| ==> |r| > 0 && stop(r[|r| - 1]))
    decreases |cmds|
  {
    if |cmds| > 0 && !stop(cmds[0]) {
      UntilStopPrefix(cmds[1..], stop);
      var r := UntilStop(cmds, stop);
      var r' := UntilStop(cmds[1..], stop);
      assert r == [cmds[0]] + r';
      forall k | 0 <= k < |r| - 1 ensures !stop(r[k]) {
        if k > 0 { assert r[k] == r'[k - 1]; }
      }
    }
  }

  /** The visitor of a walk that never asks to stop. */
  predicate NeverStop(c: LoadCommand) { false }

  /** A visitor that never stops sees every command of the walk. */
  lemma {:induction false} UntilStopNever(cmds: seq<LoadCommand>)
    ensures UntilStop(cmds, NeverStop) == cmds
    ensures !Stopped(cmds, NeverStop)
    decreases |cmds|
  {
    if |cmds| > 0 {
      UntilStopNever(cmds[1..]);
      assert cmds == [cmds[0]] + cmds[1..];
    }
  }

  /** True when the visitor asked to stop somewhere in `cmds`. */
  predicate Stopped(cmds: seq<LoadCommand>, stop: LoadCommand -> bool)
  {
    exists k :: 0 <= k < |cmds| && stop(cmds[k])
  }

  /**
   * MachOParser::forEachLoadCommand with a visitor that stops at the first
   * command satisfying `stop`: the visitor sees the walk's commands up to and
   * including that one, and the walk's error is recorded only when the
   * visitor did not stop first.
   */
  method ForEachLoadCommand(diag: Diagnostics, img: Image, stop: LoadCommand -> bool)
    returns (visited: seq<LoadCommand>)
    modifies diag`errors
    ensures visited == UntilStop(Walk(img).cmds, stop)
    ensures diag.errors == old(diag.errors)
      + (if Stopped(visited, stop) then {} else OptRecorded(Walk(img).error))
  {
    visited := [];
    var start := StartCmds(img);
    if start.None? {
      diag.Error(NoMagic);
      return;
    }
    var s := start.value;
    var cmdsEnd := s + SizeOfCmds(img);
    var n := NCmds(img);
    var cur: nat := s;
    var i: nat := 0;
    ghost var target := UntilStop(Walk(img).cmds, stop);
    ghost var err := Walk(img).error;
    AppendEmpty(target);
    while i < n
      invariant i <= n
      invariant target == visited + UntilStop(WalkFrom(img, s, cmdsEnd, i, cur, n).cmds, stop)
      invariant err == WalkFrom(img, s, cmdsEnd, i, cur, n).error
      invariant !Stopped(visited, stop)
      invariant diag.errors == old(diag.errors)
      decreases n - i
    {
      var c := CommandAt(img, i, cur);
      var next := cur + c.cmdsize;
      if c.cmdsize < 8 || next > cmdsEnd || next < s {
        VisitViolation(img, s, cmdsEnd, i, cur, n, stop, visited, target, err);
        diag.Error(if c.cmdsize < 8 then LoadCommandTooSmall(i, c.cmdsize) else LoadCommandTooLarge(i, c.cmdsize));
        return;
      }
      StoppedSnoc(visited, c, stop);
      if stop(c) {
        VisitStop(img, s, cmdsEnd, i, cur, n, stop, visited, target);
        visited := visited + [c];
        return;
      }
      VisitAdvance(img, s, cmdsEnd, i, cur, n, stop, visited, target, err, c, next);
      visited := visited + [c];
      cur := next;
      i := i + 1;
    }
    AppendEmpty(visited);
  }

  /** An iteration of ForEachLoadCommand that meets a command failing the size check. */
  lemma VisitViolation(img: Image, start: nat, end: nat, i: nat, cur: nat, n: nat, stop: LoadCommand -> bool,
                       visited: seq<LoadCommand>, target: seq<LoadCommand>, err: Option<Message>)
    requires i < n
    requires target == visited + UntilStop(WalkFrom(img, start, end, i, cur, n).cmds, stop)
    requires err == WalkFrom(img, start, end, i, cur, n).error
    requires Violation(start, end, i, cur, CmdSizeAt(img, cur)).Some?
    ensures target == visited
    ensures err == Violation(start, end, i, cur, CmdSizeAt(img, cur))
  {
    WalkFromStep(img, start, end, i, cur, n);
    AppendEmpty(visited);
  }

  /** An iteration of ForEachLoadCommand whose visitor asks to stop. */
  lemma VisitStop(img: Image, start: nat, end: nat, i: nat, cur: nat, n: nat, stop: LoadCommand -> bool,
                  visited: seq<LoadCommand>, target: seq<LoadCommand>)
    requires i < n
    requires target == visited + UntilStop(WalkFrom(img, start, end, i, cur, n).cmds, stop)
    requires Violation(start, end, i, cur, CmdSizeAt(img, cur)).None?
    requires stop(CommandAt(img, i, cur))
    ensures target == visited + [CommandAt(img, i, cur)]
  {
    WalkFromStep(img, start, end, i, cur, n);
    var w := WalkFrom(img, start, end, i, cur, n);
    assert w.cmds[0] == CommandAt(img, i, cur);
  }

  /** An iteration of ForEachLoadCommand that moves on to the next command. */
  lemma VisitAdvance(img: Image, start: nat, end: nat, i: nat, cur: nat, n: nat, stop: LoadCommand -> bool,
                     visited: seq<LoadCommand>, target: seq<LoadCommand>, err: Option<Message>,
                     c: LoadCommand, next: nat)
    requires i < n
    requires target == visited + UntilStop(WalkFrom(img, start, end, i, cur, n).cmds, stop)
    requires err == WalkFrom(img, start, end, i, cur, n).error
    requires c == CommandAt(img, i, cur) && next == cur + c.cmdsize
    requires Violation(start, end, i, cur, c.cmdsize).None?
    requires !stop(c)
    ensures target == (visited + [c]) + UntilStop(WalkFrom(img, start, end, i + 1, next, n).cmds, stop)
    ensures err == WalkFrom(img, start, end, i + 1, next, n).error
  {
    WalkFromStep(img, start, end, i, cur, n);
    var w := WalkFrom(img, start, end, i, cur, n);
    var after := WalkFrom(img, start, end, i + 1, next, n);
    assert w.cmds[0] == c && w.cmds[1..] == after.cmds;
    AppendAssoc(visited, [c], UntilStop(after.cmds, stop));
  }

  lemma AppendAssoc(a: seq<LoadCommand>, b: seq<LoadCommand>, c: seq<LoadCommand>)
    ensures a + (b + c) == (a + b) + c
  {
  }

  lemma AppendEmpty(a: seq<LoadCommand>)
    ensures [] + a == a && a + [] == a
  {
  }

  lemma StoppedSnoc(cmds: seq<LoadCommand>, c: LoadCommand, stop: LoadCommand -> bool)
    requires !Stopped(cmds, stop)
    ensures Stopped(cmds + [c], stop) <==> stop(c)
  {
    if stop(c) {
      assert (cmds + [c])[|cmds|] == c;
    }
  }

  /**
   * MachOParser::wellFormedMachHeaderAndLoadCommands: true exactly when the
   * header has a Mach-O magic and every one of the `ncmds` commands passes
   * the size check.
   */
  method WellFormedMachHeaderAndLoadCommands(img: Image) returns (ok: bool)
    ensures ok <==> Walk(img).error.None?
    ensures ok ==> |Walk(img).cmds| == NCmds(img)
  {
    WalkShape(img);
    var start := StartCmds(img);
    if start.None? {
      return false;
    }
    var s := start.value;
    var cmdsEnd := s + SizeOfCmds(img);
    var n := NCmds(img);
    var cur: nat := s;
    var i: nat := 0;
    while i < n
      invariant i <= n
      invariant Walk(img).error == WalkFrom(img, s, cmdsEnd, i, cur, n).error
      decreases n - i
    {
      var size := CmdSizeAt(img, cur);
      var next := cur + size;
      if size < 8 || next > cmdsEnd || next < s {
        return false;
      }
      cur := next;
      i := i + 1;
    }
    return true;
  }

  /**
   * MachOParser::isMachO with the compile-time magic and CPU passed in:
   * accepts a mapping of at least 4096 bytes with the required magic and
   * CPU type, and records the first reason for refusing otherwise.
   */
  method IsMachO(diag: Diagnostics, img: Image, mappedLength: nat, requiredMagic: nat, requiredCpu: nat)
    returns (ok: bool)
    modifies diag`errors
    ensures ok <==> mappedLength >= 4096 && Magic(img) == requiredMagic && CpuType(img) == requiredCpu
    ensures diag.errors == old(diag.errors) + (
      if mappedLength < 4096 then {FileTooShort}
      else if Magic(img) != requiredMagic then {NotMachO}
      else if CpuType(img) != requiredCpu then {WrongCpuType}
      else {})
  {
    if mappedLength < 4096 {
      diag.Error(FileTooShort);
      return false;
    }
    if Magic(img) != requiredMagic {
      diag.Error(NotMachO);
      return false;
    }
    if CpuType(img) != requiredCpu {
      diag.Error(WrongCpuType);
      return false;
    }
    return true;
  }
}
