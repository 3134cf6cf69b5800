/**
 * The small first-match queries of MachOParser: platform and deployment
 * version, the dylib's own install name, its dependents and run paths, and
 * the FairPlay encryption range. Each runs the load-command walk with a
 * private diagnostics object, so it sees the commands of `Walk` and no
 * error reaches the caller.
 */
module Queries {
  import opened Wrappers
  import opened Bytes
  import opened LoadCommands
  import opened Seqs

  const LC_REQ_DYLD: nat := 0x8000_0000
  const LC_LOAD_DYLIB: nat := 0xc
  const LC_ID_DYLIB: nat := 0xd
  const LC_LOAD_WEAK_DYLIB: nat := 0x18 + LC_REQ_DYLD
  const LC_RPATH: nat := 0x1c + LC_REQ_DYLD
  const LC_REEXPORT_DYLIB: nat := 0x1f + LC_REQ_DYLD
  const LC_ENCRYPTION_INFO: nat := 0x21
  const LC_LOAD_UPWARD_DYLIB: nat := 0x23 + LC_REQ_DYLD
  const LC_VERSION_MIN_MACOSX: nat := 0x24
  const LC_VERSION_MIN_IPHONEOS: nat := 0x25
  const LC_ENCRYPTION_INFO_64: nat := 0x2c
  const LC_VERSION_MIN_TVOS: nat := 0x2f
  const LC_VERSION_MIN_WATCHOS: nat := 0x30
  const LC_BUILD_VERSION: nat := 0x32

  const CPU_TYPE_I386: nat := 7
  const CPU_TYPE_X86_64: nat := 0x0100_0007
  const CPU_TYPE_ARM: nat := 12
  const CPU_TYPE_ARM64: nat := 0x0100_000c

  /** The `platform` values of `LC_BUILD_VERSION` the parser knows. */
  const PLATFORM_MACOS: nat := 1
  const PLATFORM_IOS: nat := 2
  const PLATFORM_TVOS: nat := 3
  const PLATFORM_WATCHOS: nat := 4
  const PLATFORM_BRIDGEOS: nat := 5

  datatype Platform = Unknown | MacOS | IOS | TvOS | WatchOS | BridgeOS

  // ------------------------------------------------------------- platform

  predicate IsVersionCommand(c: LoadCommand)
  {
    c.cmd in {LC_VERSION_MIN_IPHONEOS, LC_VERSION_MIN_MACOSX, LC_VERSION_MIN_TVOS, LC_VERSION_MIN_WATCHOS, LC_BUILD_VERSION}
  }

  /**
   * What getPlatformAndVersion stores from one version command. An
   * `LC_BUILD_VERSION` with a platform value the switch does not list leaves
   * `*platform` as the caller had it, which is `None` here.
   */
  datatype VersionInfo = VersionInfo(platform: Option<Platform>, minOS: nat, sdk: nat)

  function VersionAt(img: Image, c: LoadCommand): (v: VersionInfo)
    requires IsVersionCommand(c)
    ensures v.platform.None? <==> c.cmd == LC_BUILD_VERSION && !(1 <= U32At(img.mem, c.addr + 8) <= 5)
    ensures v.platform != Some(Unknown)
  {
    var m := img.mem;
    if c.cmd == LC_BUILD_VERSION then
      var p := U32At(m, c.addr + 8);
      var platform :=
        if p == PLATFORM_MACOS then Some(MacOS)
        else if p == PLATFORM_IOS then Some(IOS)
        else if p == PLATFORM_TVOS then Some(TvOS)
        else if p == PLATFORM_WATCHOS then Some(WatchOS)
        else if p == PLATFORM_BRIDGEOS then Some(BridgeOS)
        else None;
      VersionInfo(platform, U32At(m, c.addr + 12), U32At(m, c.addr + 16))
    else
      var platform :=
        if c.cmd == LC_VERSION_MIN_IPHONEOS then IOS
        else if c.cmd == LC_VERSION_MIN_MACOSX then MacOS
        else if c.cmd == LC_VERSION_MIN_TVOS then TvOS
        else WatchOS;
      VersionInfo(Some(platform), U32At(m, c.addr + 8), U32At(m, c.addr + 12))
  }

  /**
   * MachOParser::getPlatformAndVersion: the first version command of the
   * walk decides; `None` is the `false` result.
   */
  function GetPlatformAndVersion(img: Image): Option<VersionInfo>
  {
    FirstVersion(img, Walk(img).cmds)
  }

  function FirstVersion(img: Image, cmds: seq<LoadCommand>): (r: Option<VersionInfo>)
    ensures r.None? <==> forall j :: 0 <= j < |cmds| ==> !IsVersionCommand(cmds[j])
    ensures forall i :: 0 <= i < |cmds| && IsVersionCommand(cmds[i]) && (forall j :: 0 <= j < i ==> !IsVersionCommand(cmds[j]))
              ==> r == Some(VersionAt(img, cmds[i]))
  {
    match FirstIndex(cmds, IsVersionCommand)
    case None => None
    case Some(i) => Some(VersionAt(img, cmds[i]))
  }

  /** The platform guessed from the CPU type of an old binary without a version command. */
  function PlatformOfCpu(cputype: nat): (p: Platform)
    ensures p == IOS <==> cputype == CPU_TYPE_ARM || cputype == CPU_TYPE_ARM64
    ensures p != IOS ==> p == MacOS
  {
    if cputype == CPU_TYPE_X86_64 || cputype == CPU_TYPE_I386 then MacOS
    else if cputype == CPU_TYPE_ARM64 || cputype == CPU_TYPE_ARM then IOS
    else MacOS
  }

  /**
   * MachOParser::platform: the version command's platform, or the CPU
   * guess when there is none; `None` where the source returns an unset
   * variable.
   */
  function PlatformOf(img: Image): (p: Option<Platform>)
    ensures GetPlatformAndVersion(img).None? ==> p == Some(PlatformOfCpu(CpuType(img)))
    ensures GetPlatformAndVersion(img).Some? ==> p == GetPlatformAndVersion(img).value.platform
    ensures p != Some(Unknown)
  {
    match GetPlatformAndVersion(img)
    case Some(v) => v.platform
    case None => Some(PlatformOfCpu(CpuType(img)))
  }

  /**
   * MachOParser::isSimulatorBinary: an Intel binary whose version command
   * names a platform other than macOS. `None` where the comparison reads
   * the unset platform.
   */
  function IsSimulatorBinary(img: Image): (r: Option<bool>)
    ensures r == Some(true) <==>
      && (CpuType(img) == CPU_TYPE_I386 || CpuType(img) == CPU_TYPE_X86_64)
      && GetPlatformAndVersion(img).Some?
      && GetPlatformAndVersion(img).value.platform.Some?
      && GetPlatformAndVersion(img).value.platform != Some(MacOS)
    ensures r.None? ==> PlatformOf(img).None?
  {
    if CpuType(img) == CPU_TYPE_I386 || CpuType(img) == CPU_TYPE_X86_64 then
      match GetPlatformAndVersion(img)
      case None => Some(false)
      case Some(v) => if v.platform.None? then None else Some(v.platform.value != MacOS)
    else Some(false)
  }

  // ---------------------------------------------------- dylib load commands

  /** The `dylib` part of a `dylib_command`: its path and its versions. */
  datatype Dylib = Dylib(name: seq<byte>, compatVersion: nat, currentVersion: nat)

  /** The path at `name.offset` from the command and the versions that follow it. */
  function DylibAt(img: Image, c: LoadCommand): Dylib
  {
    var m := img.mem;
    Dylib(CStringAt(m, c.addr + U32At(m, c.addr + 8)), U32At(m, c.addr + 20), U32At(m, c.addr + 16))
  }

  predicate IsIdDylib(c: LoadCommand) { c.cmd == LC_ID_DYLIB }

  /** MachOParser::getDylibInstallName: the first `LC_ID_DYLIB` of the walk. */
  function GetDylibInstallName(img: Image): Option<Dylib>
  {
    FirstIdDylib(img, Walk(img).cmds)
  }

  function FirstIdDylib(img: Image, cmds: seq<LoadCommand>): (r: Option<Dylib>)
    ensures r.None? <==> forall j :: 0 <= j < |cmds| ==> !IsIdDylib(cmds[j])
    ensures forall i :: 0 <= i < |cmds| && IsIdDylib(cmds[i]) && (forall j :: 0 <= j < i ==> !IsIdDylib(cmds[j]))
              ==> r == Some(DylibAt(img, cmds[i]))
  {
    match FirstIndex(cmds, IsIdDylib)
    case None => None
    case Some(i) => Some(DylibAt(img, cmds[i]))
  }

  /**
   * MachOParser::installName, with its assertions as the precondition: a
   * dylib that has an install name, which is that of its first `LC_ID_DYLIB`.
   */
  function InstallName(img: Image): (name: seq<byte>)
    requires FileType(img) == MH_DYLIB && GetDylibInstallName(img).Some?
    ensures exists i :: 0 <= i < |Walk(img).cmds| && IsIdDylib(Walk(img).cmds[i]) && name == DylibAt(img, Walk(img).cmds[i]).name
              && forall j :: 0 <= j < i ==> !IsIdDylib(Walk(img).cmds[j])
  {
    var cmds := Walk(img).cmds;
    var i := FirstIndex(cmds, IsIdDylib).value;
    assert IsIdDylib(cmds[i]) && forall j :: 0 <= j < i ==> !IsIdDylib(cmds[j]);
    GetDylibInstallName(img).value.name
  }

  predicate IsDependentCommand(c: LoadCommand)
  {
    c.cmd in {LC_LOAD_DYLIB, LC_LOAD_WEAK_DYLIB, LC_REEXPORT_DYLIB, LC_LOAD_UPWARD_DYLIB}
  }

  /** What forEachDependentDylib hands its visitor for one dependent. */
  datatype Dependent = Dependent(loadPath: seq<byte>, isWeak: bool, isReExport: bool, isUpward: bool,
                                 compatVersion: nat, currentVersion: nat)

  function DependentAt(img: Image, c: LoadCommand): Dependent
  {
    var d := DylibAt(img, c);
    Dependent(d.name, c.cmd == LC_LOAD_WEAK_DYLIB, c.cmd == LC_REEXPORT_DYLIB, c.cmd == LC_LOAD_UPWARD_DYLIB,
              d.compatVersion, d.currentVersion)
  }

  /** MachOParser::forEachDependentDylib with a visitor that never stops. */
  function Dependents(img: Image): seq<Dependent>
  {
    DependentList(img, Walk(img).cmds)
  }

  function DependentList(img: Image, cmds: seq<LoadCommand>): seq<Dependent>
    decreases |cmds|
  {
    if |cmds| == 0 then []
    else if IsDependentCommand(cmds[0]) then [DependentAt(img, cmds[0])] + DependentList(img, cmds[1..])
    else DependentList(img, cmds[1..])
  }

  /** MachOParser::dependentDylibCount: the visitor's counter over the walk. */
  function DependentDylibCount(img: Image): (n: nat)
    ensures n == |Dependents(img)|
  {
    CountDependents(img, Walk(img).cmds, 0)
  }

  /** The counter after visiting `cmds`, starting from `count`. */
  function CountDependents(img: Image, cmds: seq<LoadCommand>, count: nat): (n: nat)
    ensures n == count + |DependentList(img, cmds)|
    decreases |cmds|
  {
    if |cmds| == 0 then count
    else CountDependents(img, cmds[1..], if IsDependentCommand(cmds[0]) then count + 1 else count)
  }

  /**
   * MachOParser::dependentDylibLoadPath: the visitor stops at dependent
   * number `depIndex`; past the last dependent the result stays null.
   */
  function DependentDylibLoadPath(img: Image, depIndex: nat): (r: Option<seq<byte>>)
    ensures r.Some? <==> depIndex < DependentDylibCount(img)
    ensures r.Some? ==> r.value == Dependents(img)[depIndex].loadPath
  {
    LoadPathFrom(img, Walk(img).cmds, depIndex, 0)
  }

  /** The visitor of dependentDylibLoadPath from dependent number `cur` on. */
  function LoadPathFrom(img: Image, cmds: seq<LoadCommand>, target: nat, cur: nat): (r: Option<seq<byte>>)
    requires cur <= target
    ensures r.Some? <==> target - cur < |DependentList(img, cmds)|
    ensures r.Some? ==> r.value == DependentList(img, cmds)[target - cur].loadPath
    decreases |cmds|
  {
    if |cmds| == 0 then None
    else if !IsDependentCommand(cmds[0]) then LoadPathFrom(img, cmds[1..], target, cur)
    else if cur == target then Some(DependentAt(img, cmds[0]).loadPath)
    else LoadPathFrom(img, cmds[1..], target, cur + 1)
  }

  /**
   * There are fewer than 2^32 dependents, each being one of at most `ncmds`
   * commands: the `uint32_t` counter of dependentDylibCount never wraps.
   */
  lemma DependentCountBound(img: Image)
    ensures DependentDylibCount(img) <= NCmds(img) < TWO_32
  {
    WalkShape(img);
    DependentListLength(img, Walk(img).cmds);
  }

  lemma {:induction false} DependentListLength(img: Image, cmds: seq<LoadCommand>)
    ensures |DependentList(img, cmds)| <= |cmds|
    decreases |cmds|
  {
    if |cmds| > 0 {
      DependentListLength(img, cmds[1..]);
    }
  }

  /** Every visited dependent comes from a dylib-loading command, with the flags of its kind. */
  lemma {:induction false} DependentsFromCommands(img: Image, cmds: seq<LoadCommand>, k: nat)
    requires k < |DependentList(img, cmds)|
    ensures exists c :: c in cmds && IsDependentCommand(c) && DependentList(img, cmds)[k] == DependentAt(img, c)
    ensures DependentList(img, cmds)[k].isWeak ==> !DependentList(img, cmds)[k].isReExport && !DependentList(img, cmds)[k].isUpward
    ensures DependentList(img, cmds)[k].isReExport ==> !DependentList(img, cmds)[k].isUpward
    decreases |cmds|
  {
    if IsDependentCommand(cmds[0]) && k == 0 {
      assert cmds[0] in cmds;
    } else {
      var k' := if IsDependentCommand(cmds[0]) then k - 1 else k;
      DependentsFromCommands(img, cmds[1..], k');
      var c :| c in cmds[1..] && IsDependentCommand(c) && DependentList(img, cmds[1..])[k'] == DependentAt(img, c);
      assert c in cmds;
    }
  }

  // ------------------------------------------------------------------ rpaths

  predicate IsRPath(c: LoadCommand) { c.cmd == LC_RPATH }

  /** The path at `path.offset` from an `LC_RPATH` command. */
  function RPathAt(img: Image, c: LoadCommand): seq<byte>
  {
    CStringAt(img.mem, c.addr + U32At(img.mem, c.addr + 8))
  }

  /** MachOParser::forEachRPath with a visitor that never stops. */
  function RPaths(img: Image): seq<seq<byte>>
  {
    RPathList(img, Walk(img).cmds)
  }

  function RPathList(img: Image, cmds: seq<LoadCommand>): (r: seq<seq<byte>>)
    ensures |r| <= |cmds|
    ensures (forall j :: 0 <= j < |cmds| ==> !IsRPath(cmds[j])) ==> r == []
    ensures forall j :: 0 <= j < |cmds| && IsRPath(cmds[j]) ==> RPathAt(img, cmds[j]) in r
    decreases |cmds|
  {
    if |cmds| == 0 then []
    else
      var rest := RPathList(img, cmds[1..]);
      assert forall j :: 1 <= j < |cmds| ==> cmds[j] == cmds[1..][j - 1];
      if IsRPath(cmds[0]) then [RPathAt(img, cmds[0])] + rest else rest
  }

  /**
   * The path list is exact: one path per `LC_RPATH` command, in command
   * order, the `i`-th being that of the `i`-th `LC_RPATH`.
   */
  lemma {:induction false} RPathListExact(img: Image, cmds: seq<LoadCommand>)
    ensures |RPathList(img, cmds)| == |Filter(cmds, IsRPath)|
    ensures forall i :: 0 <= i < |RPathList(img, cmds)| ==> RPathList(img, cmds)[i] == RPathAt(img, Filter(cmds, IsRPath)[i])
    decreases |cmds|
  {
    if |cmds| > 0 {
      RPathListExact(img, cmds[1..]);
      var paths, rest := RPathList(img, cmds), RPathList(img, cmds[1..]);
      var f, fr := Filter(cmds, IsRPath), Filter(cmds[1..], IsRPath);
      if IsRPath(cmds[0]) {
        assert f == [cmds[0]] + fr;
        assert paths == [RPathAt(img, cmds[0])] + rest;
      } else {
        assert f == fr;
      }
    }
  }

  // -------------------------------------------------------------- encryption

  predicate IsEncryptionInfo(c: LoadCommand)
  {
    c.cmd == LC_ENCRYPTION_INFO || c.cmd == LC_ENCRYPTION_INFO_64
  }

  /** The result of isFairPlayEncrypted and the two reference parameters it fills. */
  datatype Encryption = Encryption(encrypted: bool, textOffset: nat, size: nat)

  /**
   * MachOParser::isFairPlayEncrypted: the first encryption command of the
   * walk decides; only `cryptid == 1` copies its range, and the answer is
   * whether the copied offset is non-zero.
   */
  function IsFairPlayEncrypted(img: Image): Encryption
  {
    FirstEncryption(img, Walk(img).cmds)
  }

  function FirstEncryption(img: Image, cmds: seq<LoadCommand>): (r: Encryption)
    ensures (forall j :: 0 <= j < |cmds| ==> !IsEncryptionInfo(cmds[j])) ==> r == Encryption(false, 0, 0)
    ensures forall i :: 0 <= i < |cmds| && IsEncryptionInfo(cmds[i]) && (forall j :: 0 <= j < i ==> !IsEncryptionInfo(cmds[j]))
              ==> r == EncryptionAt(img, cmds[i])
  {
    match FirstIndex(cmds, IsEncryptionInfo)
    case None => Encryption(false, 0, 0)
    case Some(i) => EncryptionAt(img, cmds[i])
  }

  /**
   * The visitor on an `encryption_info_command`: `cryptid == 1` copies
   * `cryptoff` and `cryptsize`, any other `cryptid` leaves both 0.
   */
  function EncryptionAt(img: Image, c: LoadCommand): (r: Encryption)
    ensures r.encrypted <==> r.textOffset != 0
    ensures U32At(img.mem, c.addr + 16) == 1 ==> r.textOffset == U32At(img.mem, c.addr + 8) && r.size == U32At(img.mem, c.addr + 12)
    ensures U32At(img.mem, c.addr + 16) != 1 ==> r == Encryption(false, 0, 0)
  {
    if U32At(img.mem, c.addr + 16) == 1 then
      var off := U32At(img.mem, c.addr + 8);
      Encryption(off != 0, off, U32At(img.mem, c.addr + 12))
    else Encryption(false, 0, 0)
  }

  // ------------------------------------------------------------ header flags

  const MH_HAS_TLV_DESCRIPTORS_BIT: nat := 23
  const MH_IN_DYLD_CACHE_BIT: nat := 31

  /** MachOParser::hasThreadLocalVariables: `MH_HAS_TLV_DESCRIPTORS` (0x800000) is set. */
  predicate HasThreadLocalVariables(img: Image): (r: bool)
    ensures r <==> HeaderFlags(img) % 0x100_0000 >= 0x80_0000
  {
    Pow2Byte();
    Pow2Add(8, 8);
    Pow2Add(16, 7);
    Bit23AsRemainder(HeaderFlags(img));
    HasBit(HeaderFlags(img), MH_HAS_TLV_DESCRIPTORS_BIT)
  }

  /** MachOParser::inDyldCache: the top bit of the 32-bit `flags` word. */
  predicate InDyldCache(img: Image): (r: bool)
    ensures r <==> HeaderFlags(img) >= MH_IN_DYLD_CACHE
  {
    Pow2Word32();
    Pow2Add(31, 1);
    HasBit(HeaderFlags(img), MH_IN_DYLD_CACHE_BIT)
  }

  /** Bit 23 of a number is set exactly when its remainder modulo 2^24 reaches 2^23. */
  lemma Bit23AsRemainder(x: nat)
    ensures (x / 0x80_0000) % 2 == 1 <==> x % 0x100_0000 >= 0x80_0000
  {
    var q, r := x / 0x100_0000, x % 0x100_0000;
    assert x == q * 0x100_0000 + r;
    assert x / 0x80_0000 == 2 * q + r / 0x80_0000;
  }
}
