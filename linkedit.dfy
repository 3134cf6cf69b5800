/**
 * MachOParser::getLinkEditLoadCommands and getLinkEditPointers: one pass
 * over the load commands that remembers the link-edit commands the symbol
 * and export lookups need. A command with the wrong size or a second
 * command of a kind is reported and the pass goes on; the field is
 * overwritten every time, so the last command of a kind is the one kept.
 */
module LinkEdit {
  import opened Wrappers
  import opened Bytes
  import opened Diag
  import opened LoadCommands
  import opened Segments
  import opened Layout
  import opened Queries
  import opened Seqs

  const LC_SYMTAB: nat := 0x2
  const LC_DYSYMTAB: nat := 0xb
  const LC_UUID: nat := 0x1b
  const LC_CODE_SIGNATURE: nat := 0x1d
  const LC_SEGMENT_SPLIT_INFO: nat := 0x1e
  const LC_DYLD_INFO: nat := 0x22
  const LC_DYLD_INFO_ONLY: nat := 0x22 + LC_REQ_DYLD
  const LC_FUNCTION_STARTS: nat := 0x26
  const LC_DATA_IN_CODE: nat := 0x29

  /** `sizeof` of the command structures of `<mach-o/loader.h>`. */
  const DYLD_INFO_COMMAND_SIZE: nat := 48
  const SYMTAB_COMMAND_SIZE: nat := 24
  const DYSYMTAB_COMMAND_SIZE: nat := 80
  const LINKEDIT_DATA_COMMAND_SIZE: nat := 16
  const UUID_COMMAND_SIZE: nat := 24
  const VERSION_MIN_COMMAND_SIZE: nat := 16
  const BUILD_VERSION_COMMAND_SIZE: nat := 24
  const BUILD_TOOL_VERSION_SIZE: nat := 8
  const ENCRYPTION_INFO_COMMAND_SIZE: nat := 20
  const ENCRYPTION_INFO_COMMAND_64_SIZE: nat := 24

  /**
   * `LinkEditInfo`: one optional command per pointer field. The parser
   * never writes `linkeditCmd`, and only getLinkEditPointers writes `layout`.
   */
  datatype LinkEditInfo = LinkEditInfo(
    dyldInfo: Option<LoadCommand>, symTab: Option<LoadCommand>, dynSymTab: Option<LoadCommand>,
    linkeditCmd: Option<LoadCommand>, splitSegInfo: Option<LoadCommand>, functionStarts: Option<LoadCommand>,
    dataInCode: Option<LoadCommand>, codeSig: Option<LoadCommand>, layout: LayoutInfo)

  /**
   * What a link-edit command is remembered in: one of the seven pointer
   * fields, or one of the three "seen" flags. `LC_DYLD_INFO` and
   * `LC_DYLD_INFO_ONLY` share a field, the four `LC_VERSION_MIN_*` and
   * `LC_BUILD_VERSION` share `hasVersion`, the two encryption commands
   * share `hasEncrypt`.
   */
  datatype Slot =
    | DyldInfoField | SymTabField | DynSymTabField | SplitSegInfoField
    | FunctionStartsField | DataInCodeField | CodeSigField
    | UuidFlag | VersionFlag | EncryptFlag

  /** The name a command goes by in its error messages; `None` for the commands the pass ignores. */
  function NameOf(cmd: nat): Option<CmdName>
  {
    if cmd == LC_DYLD_INFO || cmd == LC_DYLD_INFO_ONLY then Some(DyldInfo)
    else if cmd == LC_SYMTAB then Some(Symtab)
    else if cmd == LC_DYSYMTAB then Some(Dysymtab)
    else if cmd == LC_SEGMENT_SPLIT_INFO then Some(SegmentSplitInfo)
    else if cmd == LC_FUNCTION_STARTS then Some(FunctionStarts)
    else if cmd == LC_DATA_IN_CODE then Some(DataInCode)
    else if cmd == LC_CODE_SIGNATURE then Some(CodeSignature)
    else if cmd == LC_UUID then Some(Uuid)
    else if IsVersionMin(cmd) then Some(VersionMin)
    else if cmd == LC_BUILD_VERSION then Some(BuildVersion)
    else if cmd == LC_ENCRYPTION_INFO then Some(EncryptionInfo)
    else if cmd == LC_ENCRYPTION_INFO_64 then Some(EncryptionInfo64)
    else None
  }

  predicate IsVersionMin(cmd: nat)
  {
    cmd == LC_VERSION_MIN_IPHONEOS || cmd == LC_VERSION_MIN_MACOSX || cmd == LC_VERSION_MIN_TVOS || cmd == LC_VERSION_MIN_WATCHOS
  }

  function SlotOf(n: CmdName): Slot
  {
    match n
    case DyldInfo => DyldInfoField
    case Symtab => SymTabField
    case Dysymtab => DynSymTabField
    case SegmentSplitInfo => SplitSegInfoField
    case FunctionStarts => FunctionStartsField
    case DataInCode => DataInCodeField
    case CodeSignature => CodeSigField
    case Uuid => UuidFlag
    case VersionMin => VersionFlag
    case BuildVersion => VersionFlag
    case EncryptionInfo => EncryptFlag
    case EncryptionInfo64 => EncryptFlag
  }

  predicate InSlot(c: LoadCommand, slot: Slot)
  {
    NameOf(c.cmd).Some? && SlotOf(NameOf(c.cmd).value) == slot
  }

  predicate IsPointerField(slot: Slot)
  {
    !(slot.UuidFlag? || slot.VersionFlag? || slot.EncryptFlag?)
  }

  /**
   * The `cmdsize` a command must have: its structure's size, and for
   * `LC_BUILD_VERSION` that plus 8 bytes per tool (`ntools` at offset 20),
   * a `size_t` sum that wraps on a 32-bit build.
   */
  function ExpectedSize(img: Image, c: LoadCommand, n: CmdName): nat
  {
    match n
    case DyldInfo => DYLD_INFO_COMMAND_SIZE
    case Symtab => SYMTAB_COMMAND_SIZE
    case Dysymtab => DYSYMTAB_COMMAND_SIZE
    case Uuid => UUID_COMMAND_SIZE
    case VersionMin => VERSION_MIN_COMMAND_SIZE
    case BuildVersion => WrapPtr(img, BUILD_VERSION_COMMAND_SIZE + U32At(img.mem, c.addr + 20) * BUILD_TOOL_VERSION_SIZE)
    case EncryptionInfo => ENCRYPTION_INFO_COMMAND_SIZE
    case EncryptionInfo64 => ENCRYPTION_INFO_COMMAND_64_SIZE
    case _ => LINKEDIT_DATA_COMMAND_SIZE
  }

  /**
   * The expected sizes: the fixed structures lie between 16 and 80 bytes;
   * `LC_BUILD_VERSION` needs exactly `24 + 8 * ntools` on a 64-bit build,
   * where the sum cannot wrap, and that sum reduced modulo 2^32 on a 32-bit
   * build, so there a huge `ntools` can wrap back to a small size.
   */
  lemma ExpectedSizeValue(img: Image, c: LoadCommand, n: CmdName)
    ensures n != BuildVersion ==> 16 <= ExpectedSize(img, c, n) <= 80
    ensures n == BuildVersion && img.lp64 ==>
              ExpectedSize(img, c, n) == BUILD_VERSION_COMMAND_SIZE + 8 * U32At(img.mem, c.addr + 20)
    ensures n == BuildVersion && !img.lp64 ==>
              ExpectedSize(img, c, n) < TWO_32 && ExpectedSize(img, c, n) % 8 == 0
              && (ExpectedSize(img, c, n) - (BUILD_VERSION_COMMAND_SIZE + 8 * U32At(img.mem, c.addr + 20))) % TWO_32 == 0
  {
  }

  /** On a 32-bit build, 2^29 tools make the expected `LC_BUILD_VERSION` size wrap to 24. */
  lemma ExpectedSizeWraps32(img: Image, c: LoadCommand)
    requires !img.lp64 && U32At(img.mem, c.addr + 20) == 0x2000_0000
    ensures ExpectedSize(img, c, BuildVersion) == BUILD_VERSION_COMMAND_SIZE
  {
  }

  /**
   * is64() in the in-process build: the process's pointer width
   * (`sizeof(void*) == 8`), whatever magic the image's header carries.
   */
  predicate Is64(img: Image) { img.lp64 }

  /**
   * The pass's state between two commands: the last command seen of each
   * kind (for the three flags only its presence matters), and the reports
   * so far.
   */
  datatype Scan = Scan(seen: map<Slot, LoadCommand>, msgs: seq<Message>)

  /** Whether a command of `slot` was seen: its field is non-null or its flag set. */
  predicate Seen(st: Scan, slot: Slot)
  {
    slot in st.seen
  }

  function Lookup(st: Scan, slot: Slot): Option<LoadCommand>
  {
    if slot in st.seen then Some(st.seen[slot]) else None
  }

  /** The `LinkEditInfo` the state stands for; fields the pass does not write keep `result`'s values. */
  function Info(result: LinkEditInfo, st: Scan): LinkEditInfo
  {
    result.(dyldInfo := Lookup(st, DyldInfoField), symTab := Lookup(st, SymTabField),
            dynSymTab := Lookup(st, DynSymTabField), splitSegInfo := Lookup(st, SplitSegInfoField),
            functionStarts := Lookup(st, FunctionStartsField), dataInCode := Lookup(st, DataInCodeField),
            codeSig := Lookup(st, CodeSigField))
  }

  /** The command a pointer field holds. */
  function Field(info: LinkEditInfo, slot: Slot): Option<LoadCommand>
    requires IsPointerField(slot)
  {
    match slot
    case DyldInfoField => info.dyldInfo
    case SymTabField => info.symTab
    case DynSymTabField => info.dynSymTab
    case SplitSegInfoField => info.splitSegInfo
    case FunctionStartsField => info.functionStarts
    case DataInCodeField => info.dataInCode
    case CodeSigField => info.codeSig
  }

  /** The report shared by every case: a wrong size first, otherwise a repeat. */
  function SingletonReport(c: LoadCommand, size: nat, seen: bool, n: CmdName): Option<Message>
  {
    if c.cmdsize != size then Some(CommandSizeWrong(n)) else if seen then Some(MultipleCommands(n)) else None
  }

  /** The report for one command: size first, then repetition, then the encryption width. */
  function StepMessage(img: Image, st: Scan, c: LoadCommand): Option<Message>
  {
    match NameOf(c.cmd)
    case None => None
    case Some(n) =>
      var report := SingletonReport(c, ExpectedSize(img, c, n), Seen(st, SlotOf(n)), n);
      if report.Some? then report
      else if n == EncryptionInfo && Is64(img) then Some(EncryptionInfoIn64Bit)
      else if n == EncryptionInfo64 && !Is64(img) then Some(EncryptionInfo64In32Bit)
      else None
  }

  function AsSeq(m: Option<Message>): seq<Message>
  {
    match m
    case Some(x) => [x]
    case None => []
  }

  /** The state after one command: its field or flag is written whatever was reported. */
  function ScanStep(img: Image, st: Scan, c: LoadCommand): Scan
  {
    match NameOf(c.cmd)
    case None => st
    case Some(n) => Scan(st.seen[SlotOf(n) := c], st.msgs + AsSeq(StepMessage(img, st, c)))
  }

  /** The state after the commands `cmds`; it reports at most once per command. */
  function ScanOf(img: Image, cmds: seq<LoadCommand>): (st: Scan)
    ensures |st.msgs| <= |cmds|
    decreases |cmds|
  {
    if |cmds| == 0 then Scan(map[], [])
    else ScanStep(img, ScanOf(img, cmds[..|cmds| - 1]), cmds[|cmds| - 1])
  }

  /** One more command: the state before it, stepped. */
  lemma ScanOfStep(img: Image, cmds: seq<LoadCommand>, k: nat)
    requires k < |cmds|
    ensures ScanOf(img, cmds[..k + 1]) == ScanStep(img, ScanOf(img, cmds[..k]), cmds[k])
  {
    assert cmds[..k + 1][..k] == cmds[..k];
  }

  /** One step writes the command's own slot and no other, and appends its report. */
  lemma StepEffect(img: Image, st: Scan, c: LoadCommand)
    ensures forall slot :: Lookup(ScanStep(img, st, c), slot) == if InSlot(c, slot) then Some(c) else Lookup(st, slot)
    ensures ScanStep(img, st, c).msgs == st.msgs + AsSeq(StepMessage(img, st, c))
  {
  }

  /** A field or flag is set exactly when some command of its kind was visited. */
  lemma {:induction false} ScanSeen(img: Image, cmds: seq<LoadCommand>, slot: Slot)
    ensures Seen(ScanOf(img, cmds), slot) <==> exists i :: 0 <= i < |cmds| && InSlot(cmds[i], slot)
    decreases |cmds|
  {
    if |cmds| > 0 {
      var prefix := cmds[..|cmds| - 1];
      ScanSeen(img, prefix, slot);
      StepEffect(img, ScanOf(img, prefix), cmds[|cmds| - 1]);
      assert forall i :: 0 <= i < |prefix| ==> prefix[i] == cmds[i];
      if exists i :: 0 <= i < |cmds| && InSlot(cmds[i], slot) {
        var i :| 0 <= i < |cmds| && InSlot(cmds[i], slot);
        if i < |prefix| {
          assert InSlot(prefix[i], slot);
        }
      }
    }
  }

  /** The reports are exactly the per-command reports, each made in the state before that command. */
  lemma {:induction false} ScanMessages(img: Image, cmds: seq<LoadCommand>, m: Message)
    ensures m in ScanOf(img, cmds).msgs <==> exists j :: 0 <= j < |cmds| && MessageAt(img, cmds, j) == Some(m)
    decreases |cmds|
  {
    if |cmds| > 0 {
      var k := |cmds| - 1;
      var prefix := cmds[..k];
      ScanMessages(img, prefix, m);
      StepEffect(img, ScanOf(img, prefix), cmds[k]);
      assert MessageAt(img, cmds, k) == StepMessage(img, ScanOf(img, prefix), cmds[k]);
      assert ScanOf(img, cmds).msgs == ScanOf(img, prefix).msgs + AsSeq(MessageAt(img, cmds, k));
      forall j | 0 <= j < k
        ensures MessageAt(img, prefix, j) == MessageAt(img, cmds, j)
      {
        assert prefix[..j] == cmds[..j];
      }
    }
  }

  /** The report made for `cmds[j]`, in the state the commands before it left. */
  function MessageAt(img: Image, cmds: seq<LoadCommand>, j: nat): Option<Message>
    requires j < |cmds|
  {
    StepMessage(img, ScanOf(img, cmds[..j]), cmds[j])
  }

  /** Before `cmds[j]`, a slot is seen exactly when an earlier command is of its kind. */
  lemma SeenBefore(img: Image, cmds: seq<LoadCommand>, j: nat, slot: Slot)
    requires j <= |cmds|
    ensures Seen(ScanOf(img, cmds[..j]), slot) <==> exists i :: 0 <= i < j && InSlot(cmds[i], slot)
  {
    ScanSeen(img, cmds[..j], slot);
    assert forall i :: 0 <= i < j ==> cmds[..j][i] == cmds[i];
  }

  /** `cmds[j]` is an `n` command of the right size, and an earlier command shares its field or flag. */
  predicate RepeatAt(img: Image, cmds: seq<LoadCommand>, j: int, n: CmdName)
  {
    0 <= j < |cmds| && NameOf(cmds[j].cmd) == Some(n) && cmds[j].cmdsize == ExpectedSize(img, cmds[j], n) &&
    exists i :: 0 <= i < j && InSlot(cmds[i], SlotOf(n))
  }

  /**
   * "multiple" is reported for a command of the right size exactly when an
   * earlier command shares its field or flag, so an `LC_BUILD_VERSION` after
   * an `LC_VERSION_MIN_*` (or the reverse) counts as a repeat.
   */
  lemma MultipleIff(img: Image, cmds: seq<LoadCommand>, n: CmdName)
    ensures MultipleCommands(n) in ScanOf(img, cmds).msgs <==>
              exists j :: RepeatAt(img, cmds, j, n)
  {
    ScanMessages(img, cmds, MultipleCommands(n));
    forall j | 0 <= j < |cmds|
      ensures MessageAt(img, cmds, j) == Some(MultipleCommands(n)) <==> RepeatAt(img, cmds, j, n)
    {
      SeenBefore(img, cmds, j, SlotOf(n));
    }
  }

  /** A size report names exactly the commands whose `cmdsize` is wrong. */
  lemma SizeWrongIff(img: Image, cmds: seq<LoadCommand>, n: CmdName)
    ensures CommandSizeWrong(n) in ScanOf(img, cmds).msgs <==>
              exists j :: 0 <= j < |cmds| && NameOf(cmds[j].cmd) == Some(n) && cmds[j].cmdsize != ExpectedSize(img, cmds[j], n)
  {
    ScanMessages(img, cmds, CommandSizeWrong(n));
  }

  /** `cmds[j]` is a `cmd` command of size `size` and the first encryption command of all. */
  predicate FirstEncryptionCommand(cmds: seq<LoadCommand>, j: int, cmd: nat, size: nat)
  {
    0 <= j < |cmds| && cmds[j].cmd == cmd && cmds[j].cmdsize == size &&
    forall i :: 0 <= i < j ==> !InSlot(cmds[i], EncryptFlag)
  }

  /** One command's width report: a first `LC_ENCRYPTION_INFO` of the right size in a 64-bit file. */
  lemma Encryption32Report(img: Image, st: Scan, c: LoadCommand)
    ensures StepMessage(img, st, c) == Some(EncryptionInfoIn64Bit) <==>
              c.cmd == LC_ENCRYPTION_INFO && c.cmdsize == ENCRYPTION_INFO_COMMAND_SIZE && !Seen(st, EncryptFlag) && Is64(img)
  {
  }

  /** One command's width report: a first `LC_ENCRYPTION_INFO_64` of the right size in a 32-bit file. */
  lemma Encryption64Report(img: Image, st: Scan, c: LoadCommand)
    ensures StepMessage(img, st, c) == Some(EncryptionInfo64In32Bit) <==>
              c.cmd == LC_ENCRYPTION_INFO_64 && c.cmdsize == ENCRYPTION_INFO_COMMAND_64_SIZE && !Seen(st, EncryptFlag) && !Is64(img)
  {
  }

  /**
   * `LC_ENCRYPTION_INFO` in a 64-bit file is reported only when it is the
   * first encryption command and its size is right.
   */
  lemma Encryption32In64Iff(img: Image, cmds: seq<LoadCommand>)
    ensures EncryptionInfoIn64Bit in ScanOf(img, cmds).msgs <==>
              Is64(img) && exists j :: FirstEncryptionCommand(cmds, j, LC_ENCRYPTION_INFO, ENCRYPTION_INFO_COMMAND_SIZE)
  {
    ScanMessages(img, cmds, EncryptionInfoIn64Bit);
    forall j | 0 <= j < |cmds|
      ensures MessageAt(img, cmds, j) == Some(EncryptionInfoIn64Bit) <==>
                Is64(img) && FirstEncryptionCommand(cmds, j, LC_ENCRYPTION_INFO, ENCRYPTION_INFO_COMMAND_SIZE)
    {
      SeenBefore(img, cmds, j, EncryptFlag);
      Encryption32Report(img, ScanOf(img, cmds[..j]), cmds[j]);
    }
  }

  /**
   * `LC_ENCRYPTION_INFO_64` in a 32-bit file is reported only when it is the
   * first encryption command and its size is right.
   */
  lemma Encryption64In32Iff(img: Image, cmds: seq<LoadCommand>)
    ensures EncryptionInfo64In32Bit in ScanOf(img, cmds).msgs <==>
              !Is64(img) && exists j :: FirstEncryptionCommand(cmds, j, LC_ENCRYPTION_INFO_64, ENCRYPTION_INFO_COMMAND_64_SIZE)
  {
    ScanMessages(img, cmds, EncryptionInfo64In32Bit);
    forall j | 0 <= j < |cmds|
      ensures MessageAt(img, cmds, j) == Some(EncryptionInfo64In32Bit) <==>
                !Is64(img) && FirstEncryptionCommand(cmds, j, LC_ENCRYPTION_INFO_64, ENCRYPTION_INFO_COMMAND_64_SIZE)
    {
      SeenBefore(img, cmds, j, EncryptFlag);
      Encryption64Report(img, ScanOf(img, cmds[..j]), cmds[j]);
    }
  }

  /** The command kept for a slot is the last command of that kind; none is kept when none was visited. */
  lemma {:induction false} LookupLastWins(img: Image, cmds: seq<LoadCommand>, slot: Slot)
    ensures Lookup(ScanOf(img, cmds), slot).None? <==> forall i :: 0 <= i < |cmds| ==> !InSlot(cmds[i], slot)
    ensures forall i :: 0 <= i < |cmds| && InSlot(cmds[i], slot) && (forall j :: i < j < |cmds| ==> !InSlot(cmds[j], slot)) ==>
              Lookup(ScanOf(img, cmds), slot) == Some(cmds[i])
    decreases |cmds|
  {
    if |cmds| > 0 {
      var prefix := cmds[..|cmds| - 1];
      LookupLastWins(img, prefix, slot);
      StepEffect(img, ScanOf(img, prefix), cmds[|cmds| - 1]);
      assert forall i :: 0 <= i < |prefix| ==> prefix[i] == cmds[i];
    }
  }

  /**
   * Last wins: a pointer field is null exactly when no command of its kind
   * was visited, and otherwise holds the last such command; `linkeditCmd`
   * and `layout` are never written.
   */
  lemma ScanLastWins(img: Image, result: LinkEditInfo, cmds: seq<LoadCommand>, slot: Slot)
    requires IsPointerField(slot)
    ensures Field(Info(result, ScanOf(img, cmds)), slot).None? <==> forall i :: 0 <= i < |cmds| ==> !InSlot(cmds[i], slot)
    ensures forall i :: 0 <= i < |cmds| && InSlot(cmds[i], slot) && (forall j :: i < j < |cmds| ==> !InSlot(cmds[j], slot)) ==>
              Field(Info(result, ScanOf(img, cmds)), slot) == Some(cmds[i])
    ensures Info(result, ScanOf(img, cmds)).linkeditCmd == result.linkeditCmd
    ensures Info(result, ScanOf(img, cmds)).layout == result.layout
  {
    LookupLastWins(img, cmds, slot);
  }

  /** Recorded sets grow by one message per appended report. */
  lemma RecordedSnoc(msgs: seq<Message>, m: Option<Message>)
    ensures Recorded(msgs + AsSeq(m)) == Recorded(msgs) + OptRecorded(m)
  {
  }

  /**
   * MachOParser::getLinkEditLoadCommands: the fields and the reports of the
   * pass over the walk's commands, plus the walk's own error; then, only if
   * nothing at all was reported (before or during the pass), an
   * `LC_DYSYMTAB` without `LC_SYMTAB` is reported.
   */
  method GetLinkEditLoadCommands(diag: Diagnostics, img: Image, result: LinkEditInfo) returns (r: LinkEditInfo)
    modifies diag`errors
    ensures var st := ScanOf(img, Walk(img).cmds);
      var errs := old(diag.errors) + OptRecorded(Walk(img).error) + Recorded(st.msgs);
      && r == Info(result, st)
      && diag.errors == errs +
           (if diag.buffer.None? && errs == {} && r.dynSymTab.Some? && r.symTab.None? then {DysymtabWithoutSymtab} else {})
  {
    var cmds := ForEachLoadCommand(diag, img, NeverStop);
    UntilStopNever(Walk(img).cmds);
    r := VisitAll(diag, img, cmds, result);
    if diag.NoError() && r.dynSymTab.Some? && r.symTab.None? {
      diag.Error(DysymtabWithoutSymtab);
    }
  }

  /** The walk's visitor applied to every command in order. */
  method VisitAll(diag: Diagnostics, img: Image, cmds: seq<LoadCommand>, result: LinkEditInfo) returns (r: LinkEditInfo)
    modifies diag`errors
    ensures r == Info(result, ScanOf(img, cmds))
    ensures diag.errors == old(diag.errors) + Recorded(ScanOf(img, cmds).msgs)
  {
    r := Info(result, Scan(map[], []));
    var hasUUID, hasVersion, hasEncrypt := false, false, false;
    for k := 0 to |cmds|
      invariant var st := ScanOf(img, cmds[..k]);
        r == Info(result, st) && hasUUID == Seen(st, UuidFlag) && hasVersion == Seen(st, VersionFlag) && hasEncrypt == Seen(st, EncryptFlag)
      invariant diag.errors == old(diag.errors) + Recorded(ScanOf(img, cmds[..k]).msgs)
    {
      var c := cmds[k];
      ghost var st := ScanOf(img, cmds[..k]);
      ScanOfStep(img, cmds, k);
      RecordedSnoc(st.msgs, StepMessage(img, st, c));
      r, hasUUID, hasVersion, hasEncrypt := VisitLinkEditCommand(diag, img, c, r, hasUUID, hasVersion, hasEncrypt, result, st);
    }
    assert cmds[..|cmds|] == cmds;
  }

  /** The size and repeat checks every case of the `switch` starts with. */
  method CheckSingleton(diag: Diagnostics, c: LoadCommand, size: nat, seen: bool, n: CmdName)
    modifies diag`errors
    ensures diag.errors == old(diag.errors) + OptRecorded(SingletonReport(c, size, seen, n))
  {
    if c.cmdsize != size {
      diag.Error(CommandSizeWrong(n));
    } else if seen {
      diag.Error(MultipleCommands(n));
    }
  }

  /** `info` with the pointer field of `slot` set to `c`. */
  function SetField(info: LinkEditInfo, slot: Slot, c: LoadCommand): (r: LinkEditInfo)
    requires IsPointerField(slot)
    ensures Field(r, slot) == Some(c)
    ensures forall other :: IsPointerField(other) && other != slot ==> Field(r, other) == Field(info, other)
    ensures r.linkeditCmd == info.linkeditCmd && r.layout == info.layout
  {
    match slot
    case DyldInfoField => info.(dyldInfo := Some(c))
    case SymTabField => info.(symTab := Some(c))
    case DynSymTabField => info.(dynSymTab := Some(c))
    case SplitSegInfoField => info.(splitSegInfo := Some(c))
    case FunctionStartsField => info.(functionStarts := Some(c))
    case DataInCodeField => info.(dataInCode := Some(c))
    case CodeSigField => info.(codeSig := Some(c))
  }

  /** The `info` a state stands for holds in each pointer field what the state kept for that slot. */
  lemma InfoFields(result: LinkEditInfo, st: Scan)
    ensures forall slot :: IsPointerField(slot) ==> Field(Info(result, st), slot) == Lookup(st, slot)
  {
  }

  /** Two infos agreeing on every pointer field and on the fields the pass leaves alone are equal. */
  lemma InfoExt(a: LinkEditInfo, b: LinkEditInfo)
    requires forall slot :: IsPointerField(slot) ==> Field(a, slot) == Field(b, slot)
    requires a.linkeditCmd == b.linkeditCmd && a.layout == b.layout
    ensures a == b
  {
    assert Field(a, DyldInfoField) == Field(b, DyldInfoField);
    assert Field(a, SymTabField) == Field(b, SymTabField);
    assert Field(a, DynSymTabField) == Field(b, DynSymTabField);
    assert Field(a, SplitSegInfoField) == Field(b, SplitSegInfoField);
    assert Field(a, FunctionStartsField) == Field(b, FunctionStartsField);
    assert Field(a, DataInCodeField) == Field(b, DataInCodeField);
    assert Field(a, CodeSigField) == Field(b, CodeSigField);
  }

  /** The report for a command whose name is `n`. */
  lemma StepMessageOf(img: Image, st: Scan, c: LoadCommand, n: CmdName)
    requires NameOf(c.cmd) == Some(n)
    ensures var report := SingletonReport(c, ExpectedSize(img, c, n), Seen(st, SlotOf(n)), n);
      StepMessage(img, st, c) ==
        if report.Some? then report
        else if n == EncryptionInfo && Is64(img) then Some(EncryptionInfoIn64Bit)
        else if n == EncryptionInfo64 && !Is64(img) then Some(EncryptionInfo64In32Bit)
        else None
  {
  }

  /** A command of a pointer field's kind overwrites that field and leaves the flags alone. */
  lemma FieldStep(img: Image, st: Scan, c: LoadCommand, n: CmdName, result: LinkEditInfo)
    requires NameOf(c.cmd) == Some(n) && IsPointerField(SlotOf(n))
    ensures Info(result, ScanStep(img, st, c)) == SetField(Info(result, st), SlotOf(n), c)
    ensures forall slot :: !IsPointerField(slot) ==> Seen(ScanStep(img, st, c), slot) == Seen(st, slot)
  {
    StepEffect(img, st, c);
    InfoFields(result, st);
    InfoFields(result, ScanStep(img, st, c));
    InfoExt(SetField(Info(result, st), SlotOf(n), c), Info(result, ScanStep(img, st, c)));
  }

  /** A command of a flag's kind sets that flag and leaves every pointer field alone. */
  lemma FlagStep(img: Image, st: Scan, c: LoadCommand, n: CmdName, result: LinkEditInfo)
    requires NameOf(c.cmd) == Some(n) && !IsPointerField(SlotOf(n))
    ensures Info(result, ScanStep(img, st, c)) == Info(result, st)
    ensures forall slot :: !IsPointerField(slot) ==> Seen(ScanStep(img, st, c), slot) == (Seen(st, slot) || slot == SlotOf(n))
  {
    StepEffect(img, st, c);
    InfoFields(result, st);
    InfoFields(result, ScanStep(img, st, c));
    InfoExt(Info(result, st), Info(result, ScanStep(img, st, c)));
  }

  /** A case of the `switch` that fills a pointer field: check, then overwrite. */
  method RecordField(diag: Diagnostics, img: Image, c: LoadCommand, n: CmdName, r0: LinkEditInfo,
                     ghost result: LinkEditInfo, ghost st: Scan) returns (r: LinkEditInfo)
    requires NameOf(c.cmd) == Some(n) && IsPointerField(SlotOf(n))
    requires r0 == Info(result, st)
    modifies diag`errors
    ensures r == Info(result, ScanStep(img, st, c))
    ensures forall slot :: !IsPointerField(slot) ==> Seen(ScanStep(img, st, c), slot) == Seen(st, slot)
    ensures diag.errors == old(diag.errors) + OptRecorded(StepMessage(img, st, c))
  {
    InfoFields(result, st);
    StepMessageOf(img, st, c, n);
    CheckSingleton(diag, c, ExpectedSize(img, c, n), Field(r0, SlotOf(n)).Some?, n);
    r := SetField(r0, SlotOf(n), c);
    FieldStep(img, st, c, n, result);
  }

  /** A case of the `switch` that sets `hasUUID` or `hasVersion`: check only. */
  method CheckFlag(diag: Diagnostics, img: Image, c: LoadCommand, n: CmdName, seen: bool,
                   ghost result: LinkEditInfo, ghost st: Scan)
    requires NameOf(c.cmd) == Some(n) && (SlotOf(n) == UuidFlag || SlotOf(n) == VersionFlag)
    requires seen == Seen(st, SlotOf(n))
    modifies diag`errors
    ensures Info(result, ScanStep(img, st, c)) == Info(result, st)
    ensures forall slot :: !IsPointerField(slot) ==> Seen(ScanStep(img, st, c), slot) == (Seen(st, slot) || slot == SlotOf(n))
    ensures diag.errors == old(diag.errors) + OptRecorded(StepMessage(img, st, c))
  {
    StepMessageOf(img, st, c, n);
    CheckSingleton(diag, c, ExpectedSize(img, c, n), seen, n);
    FlagStep(img, st, c, n, result);
  }

  /** The two encryption cases: size, repeat, then the width of the file. */
  method CheckEncryption(diag: Diagnostics, img: Image, c: LoadCommand, n: CmdName, seen: bool,
                         ghost result: LinkEditInfo, ghost st: Scan)
    requires NameOf(c.cmd) == Some(n) && SlotOf(n) == EncryptFlag
    requires seen == Seen(st, EncryptFlag)
    modifies diag`errors
    ensures Info(result, ScanStep(img, st, c)) == Info(result, st)
    ensures forall slot :: !IsPointerField(slot) ==> Seen(ScanStep(img, st, c), slot) == (Seen(st, slot) || slot == EncryptFlag)
    ensures diag.errors == old(diag.errors) + OptRecorded(StepMessage(img, st, c))
  {
    StepMessageOf(img, st, c, n);
    if n == EncryptionInfo {
      if c.cmdsize != ENCRYPTION_INFO_COMMAND_SIZE {
        diag.Error(CommandSizeWrong(EncryptionInfo));
      } else if seen {
        diag.Error(MultipleCommands(EncryptionInfo));
      } else if Is64(img) {
        diag.Error(EncryptionInfoIn64Bit);
      }
    } else {
      if c.cmdsize != ENCRYPTION_INFO_COMMAND_64_SIZE {
        diag.Error(CommandSizeWrong(EncryptionInfo64));
      } else if seen {
        diag.Error(MultipleCommands(EncryptionInfo64));
      } else if !Is64(img) {
        diag.Error(EncryptionInfo64In32Bit);
      }
    }
    FlagStep(img, st, c, n, result);
  }

  /**
   * The visitor block of getLinkEditLoadCommands for one command: the
   * `switch` on the command type. Each case reports into `diag` and writes
   * the field or flag of the command's kind.
   */
  method VisitLinkEditCommand(diag: Diagnostics, img: Image, c: LoadCommand, r0: LinkEditInfo,
                              hasUUID0: bool, hasVersion0: bool, hasEncrypt0: bool, ghost result: LinkEditInfo, ghost st: Scan)
    returns (r: LinkEditInfo, hasUUID: bool, hasVersion: bool, hasEncrypt: bool)
    requires r0 == Info(result, st)
    requires hasUUID0 == Seen(st, UuidFlag) && hasVersion0 == Seen(st, VersionFlag) && hasEncrypt0 == Seen(st, EncryptFlag)
    modifies diag`errors
    ensures var st' := ScanStep(img, st, c);
      && r == Info(result, st')
      && hasUUID == Seen(st', UuidFlag) && hasVersion == Seen(st', VersionFlag) && hasEncrypt == Seen(st', EncryptFlag)
    ensures diag.errors == old(diag.errors) + OptRecorded(StepMessage(img, st, c))
  {
    r, hasUUID, hasVersion, hasEncrypt := r0, hasUUID0, hasVersion0, hasEncrypt0;
    if c.cmd == LC_DYLD_INFO || c.cmd == LC_DYLD_INFO_ONLY {
      r := RecordField(diag, img, c, DyldInfo, r, result, st);
    } else if c.cmd == LC_SYMTAB {
      r := RecordField(diag, img, c, Symtab, r, result, st);
    } else if c.cmd == LC_DYSYMTAB {
      r := RecordField(diag, img, c, Dysymtab, r, result, st);
    } else if c.cmd == LC_SEGMENT_SPLIT_INFO {
      r := RecordField(diag, img, c, SegmentSplitInfo, r, result, st);
    } else if c.cmd == LC_FUNCTION_STARTS {
      r := RecordField(diag, img, c, FunctionStarts, r, result, st);
    } else if c.cmd == LC_DATA_IN_CODE {
      r := RecordField(diag, img, c, DataInCode, r, result, st);
    } else if c.cmd == LC_CODE_SIGNATURE {
      r := RecordField(diag, img, c, CodeSignature, r, result, st);
    } else if c.cmd == LC_UUID {
      CheckFlag(diag, img, c, Uuid, hasUUID, result, st);
      hasUUID := true;
    } else if IsVersionMin(c.cmd) {
      CheckFlag(diag, img, c, VersionMin, hasVersion, result, st);
      hasVersion := true;
    } else if c.cmd == LC_BUILD_VERSION {
      CheckFlag(diag, img, c, BuildVersion, hasVersion, result, st);
      hasVersion := true;
    } else if c.cmd == LC_ENCRYPTION_INFO {
      CheckEncryption(diag, img, c, EncryptionInfo, hasEncrypt, result, st);
      hasEncrypt := true;
    } else if c.cmd == LC_ENCRYPTION_INFO_64 {
      CheckEncryption(diag, img, c, EncryptionInfo64, hasEncrypt, result, st);
      hasEncrypt := true;
    }
  }

  /**
   * The diagnostics after getLinkEditLoadCommands, from the messages `errs0`
   * and the `buffer` it finds there.
   */
  function LinkEditErrors(img: Image, errs0: set<Message>, buffer: Option<seq<char>>): (errs: set<Message>)
    ensures errs0 <= errs
  {
    var st := ScanOf(img, Walk(img).cmds);
    var before := errs0 + OptRecorded(Walk(img).error) + Recorded(st.msgs);
    before + (if buffer.None? && before == {} && Lookup(st, DynSymTabField).Some? && Lookup(st, SymTabField).None?
              then {DysymtabWithoutSymtab} else {})
  }

  /** What getLinkEditPointers fills in: the layout is only computed when nothing has been reported. */
  function LinkEditPointers(img: Image, result: LinkEditInfo, noError: bool): LinkEditInfo
  {
    var info := Info(result, ScanOf(img, Walk(img).cmds));
    if noError then info.(layout := InProcessLayout(img, AllSegments(img), result.layout)) else info
  }

  /** The 32-bit link-edit file offset stays a 32-bit value through getLinkEditPointers. */
  lemma LinkEditPointersOffset(img: Image, result: LinkEditInfo, noError: bool)
    requires result.layout.linkeditFileOffset < TWO_32
    ensures LinkEditPointers(img, result, noError).layout.linkeditFileOffset < TWO_32
  {
    var segs := AllSegments(img);
    match LastIndex(segs, IsLinkEdit)
    case None =>
    case Some(i) => assert segs[i] == SegmentAt(img, segs[i].cmd);
  }

  /**
   * MachOParser::getLinkEditPointers: the link-edit commands, and the
   * in-process layout only when no error has been recorded by then.
   */
  method GetLinkEditPointers(diag: Diagnostics, img: Image, result: LinkEditInfo) returns (r: LinkEditInfo)
    modifies diag`errors
    ensures diag.errors == LinkEditErrors(img, old(diag.errors), diag.buffer)
    ensures r == LinkEditPointers(img, result, diag.NoError())
  {
    r := GetLinkEditLoadCommands(diag, img, result);
    if diag.NoError() {
      var layout := GetLayoutInfo(img, r.layout);
      r := r.(layout := layout);
    }
  }
}
