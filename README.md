# Mach-O parser, process symbol lookup and FFI preparation, in Dafny

This project models three parts of an iOS/macOS FFI demo repository and
proves properties of them.

1. **The Mach-O structural parser** (`NSMachO::MachOParser` and its
   `Diagnostics` sink). It works over an image already mapped in memory. It
   covers:
   - the checked walk of the load commands;
   - the link-edit singleton commands;
   - the segment and section tables and the in-process and out-of-process
     layouts;
   - the classic symbol table and the closest-symbol lookup;
   - the ULEB128/SLEB128 readers and the export-trie walk;
   - the export-record decoding with re-exports through a dependent finder;
   - the small first-match queries: platform, install name, dependents,
     rpaths, encryption.
2. **The process-wide lookups** of `macho_dlfcn.cpp`:
   - `hmd_image_find_sym`, a scan of one image's symbol table;
   - `macho_dlsym`, the first export in load order;
   - `macho_lookup_sym`, the strong/weak fallback.
3. **The FFI call-interface preparation** of the x86 back ends:
   - `prep_cif_machdep` of i386 and Win64: ABI check, return classification
     and frame size;
   - the closure preparations, with their trampoline bytes;
   - the argument-slot selection of the Win64 closure entry;
   - the `BDFFC_ALIGN` and `ALIGN_DOWN` macros.

**Memory and images.** Memory is a total map from addresses to bytes. A
consistent set of little-endian word loads goes with it (`Bytes.Memory`). An
image is a header address in that memory plus the process's pointer width.
Pointers are numbers, with 0 for null. Address computations that the model
carries into memory (slides, link-edit and section content, symbol addresses,
FFI trampolines) wrap at the pointer width (`LoadCommands.WrapPtr`), and so
does the `size_t` sum that gives the expected `LC_BUILD_VERSION` size
(`LinkEdit.ExpectedSize`). Two parts
use unbounded offsets instead:
- The load-command walk adds `cmdsize` without wrapping.
  `LoadCommands.ViolationWrappedAgrees` proves that the source's wrapped check
  gives the same verdict whenever the command area lies inside the address
  space. Its `nextCmd < startCmds` test can then fire only for a sum that
  wrapped, which the unbounded check rejects as lying past `cmdsEnd`.
- The export trie works on offsets into its bytes. See "## Left out" for the
  one pointer comparison whose wrap-around it does not follow.

**Style.** The source's loops are methods. Each is proved against a pure
specification function, and the properties are lemmas about those functions.
`Diagnostics` is a class whose `errors` set the methods extend. A visitor
that can stop the walk is a stop predicate, and the method returns the
prefix it visited.

Modules, one file each, in dependency order:

| module | what it holds |
|---|---|
| `Wrappers`, `Bytes`, `Seqs` | Option/Result, bytes, powers of two, wrapping, memory loads, sequence searches |
| `Diag` | the diagnostics sink |
| `LoadCommands` | header fields, the load-command walk, `isMachO` |
| `Segments` | segment/section enumeration, slide, `segmentName` |
| `Layout` | parser data word, `LayoutInfo` in both builds, link-edit and section content addresses |
| `Queries` | platform, install name, dependents, rpaths, encryption |
| `LinkEdit` | `getLinkEditLoadCommands` / `getLinkEditPointers` |
| `Symbols` | global/local symbol scans, `findClosestSymbol` |
| `Leb128` | `read_uleb128`, `read_sleb128` and their encoders |
| `Trie` | `trieWalk` |
| `Exports` | `findExportedSymbol`, `hasExportedSymbol` |
| `Dlfcn` | `hmd_image_find_sym`, `macho_dlsym`, `macho_lookup_sym` |
| `FfiCommon` | type tags, `Cif`, `BDFFC_ALIGN`, `ALIGN_DOWN`, byte stores |
| `FfiI386` | `bdffc_i386.c` preparation and closures |
| `FfiWin64` | `bdffcw64_x86_64.c` preparation, closures and argument slots |

**Build configuration.** `MachOParser.h` sets `DYLD_IN_PROCESS` to 1, so the
compiled `LayoutInfo` is the four-field in-process one.
- `Layout.GetLayoutInfo` models that build.
- `Layout.GetLayoutInfoOutOfProcess` models the other branch, with the mapping
  mode (file, raw cache, cache) as a parameter.
- Pointer width is a field of the image. The in-process slide follows the
  `__LP64__` branch chosen by it.
- `is64()` in this build is `sizeof(void*) == 8` (`MachOParser.cpp:1161-1167`),
  the process's pointer width and not the image's magic (`LinkEdit.Is64`). It
  decides the encryption-width reports of `getLinkEditLoadCommands` and the
  `nlist` width of the symbol scans.

**Where the code and its documented design differ, the model follows the
code:**
- `macho_lookup_sym` without a strong hit returns what the first non-skipped
  image produced, weak hit or 0 (`macho_dlfcn.cpp:123-132`). This is not the
  first weak hit of the pass. `Dlfcn.FirstImageDecides` states it.
- A re-export ordinal of 1 is not "self". Every ordinal `n` names dependent
  `n - 1` (`MachOParser.cpp:817-828`).
- A stub-and-resolver export keeps `Kind::headerOffset` and only fills
  `resolverFuncOffset`, so `Kind::resolverOffset` is never produced
  (`MachOParser.cpp:846-849`).
- A re-export met without a dependent finder returns false and records
  nothing (`MachOParser.cpp:810-811`). It is not reported as an error.

## Model

| member | source | states |
|---|---|---|
| Diag.Recorded | ffi-iOSDemo/MachO/MachOParser.h:59 | the `std::set` of messages: a message is recorded exactly when it was reported, so duplicates collapse |
| Diag.OptRecorded | ffi-iOSDemo/MachO/MachOParser.cpp:48-55 | a report that formats no string (`tmperr` null) adds nothing; otherwise exactly its message |
| Diag.Diagnostics.constructor | ffi-iOSDemo/MachO/MachOParser.cpp:31-35 | a new sink has no prefix, a null buffer and no errors |
| Diag.Diagnostics.WithPrefix | ffi-iOSDemo/MachO/MachOParser.cpp:37-41 | a prefixed sink keeps its prefix and starts with a null buffer and no errors |
| Diag.Diagnostics.Error | ffi-iOSDemo/MachO/MachOParser.cpp:48-70 | `error` inserts the message into the set (once), after which `hasError` holds |
| Diag.Diagnostics.ErrorAll | ffi-iOSDemo/MachO/MachOParser.cpp:48-55 | a series of reports adds exactly the set of their messages |
| Diag.Diagnostics.ClearError | ffi-iOSDemo/MachO/MachOParser.cpp:78-92 | `clearError` frees only the buffer; afterwards `hasError` holds iff the error set is non-empty |
| LoadCommands.StartCmds | ffi-iOSDemo/MachO/MachOParser.cpp:298-307 | the commands start after the 32- or 64-bit header chosen by magic; any other magic has no commands |
| LoadCommands.Violation | ffi-iOSDemo/MachO/MachOParser.cpp:311-319 | a command is rejected exactly when `cmdsize < 8` or it ends outside `[startCmds, startCmds+sizeofcmds]`, with the too-small or too-large message |
| LoadCommands.ViolationWrappedAgrees | ffi-iOSDemo/MachO/MachOParser.cpp:311-319 | with the command area inside the address space, the check on the wrapped `nextCmd` gives the same verdict as on the unbounded sum, and a wrapped sum lies below `startCmds` |
| LoadCommands.ViolationWrappedAgrees64 | ffi-iOSDemo/MachO/MachOParser.cpp:311-319 | on a 64-bit build that agreement holds for every command area ending below 2^64 |
| LoadCommands.WalkFromStep | ffi-iOSDemo/MachO/MachOParser.cpp:310-324 | one step of the walk: a violation ends it with that error, otherwise the command is kept and the walk goes on at `cmd + cmdsize` |
| LoadCommands.WalkFromCount | ffi-iOSDemo/MachO/MachOParser.cpp:310 | at most `ncmds` commands are visited, and the walk is error-free exactly when all `ncmds` are |
| LoadCommands.WalkFromError | ffi-iOSDemo/MachO/MachOParser.cpp:311-319 | an error is the violation of the first command not visited |
| LoadCommands.WalkFromChain | ffi-iOSDemo/MachO/MachOParser.cpp:310-324 | every visited command has `cmdsize >= 8`, lies inside the command area and starts where the previous one ends |
| LoadCommands.WalkShape | ffi-iOSDemo/MachO/MachOParser.cpp:296-325 | the whole walk: bad magic gives one error and no command; otherwise a checked chain of at most `ncmds` commands ending at the first violation |
| LoadCommands.UntilStopPrefix | ffi-iOSDemo/MachO/MachOParser.cpp:320-322 | a visitor that stops sees a prefix of the commands, and nothing after the command where it stopped |
| LoadCommands.UntilStopNever | ffi-iOSDemo/MachO/MachOParser.cpp:310-324 | a visitor that never stops sees every command of the walk |
| LoadCommands.ForEachLoadCommand | ffi-iOSDemo/MachO/MachOParser.cpp:296-325 | the loop visits the stop-prefix of the walk, and records the walk's error only if the visitor did not stop first |
| LoadCommands.StoppedSnoc | ffi-iOSDemo/MachO/MachOParser.cpp:320-322 | the walk has stopped after a new command exactly when the visitor stopped at that command |
| LoadCommands.WellFormedMachHeaderAndLoadCommands | ffi-iOSDemo/MachO/MachOParser.cpp:254-274 | true exactly when the full walk finds no violation, and then all `ncmds` commands were visited |
| LoadCommands.IsMachO | ffi-iOSDemo/MachO/MachOParser.cpp:215-252 | accepts exactly a mapping of at least 4096 bytes with the required magic and CPU type, and records the first failing check's single message |
| Segments.SegmentAt | ffi-iOSDemo/MachO/MachOParser.cpp:1011-1017 | a segment's name, kind, and its file offset and size truncated to 32 bits (the 64-bit command's `(uint32_t)` casts) |
| Segments.SegmentList | ffi-iOSDemo/MachO/MachOParser.cpp:1007-1021 | every reported segment is `SegmentAt` of a segment command among the commands, and there are no more segments than commands |
| Segments.SegmentListExact | ffi-iOSDemo/MachO/MachOParser.cpp:1007-1021 | the list has one record per segment command, in command order: its `i`-th record is `SegmentAt` of the `i`-th segment command |
| Segments.SegmentListComplete | ffi-iOSDemo/MachO/MachOParser.cpp:1007-1021 | every segment command of the walk is reported |
| Segments.KindOf | ffi-iOSDemo/MachO/MachOParser.cpp:553-558 | the `strcmp` tests: text exactly for `__TEXT`, link-edit exactly for `__LINKEDIT` |
| Segments.FirstTextAddress | ffi-iOSDemo/MachO/MachOParser.cpp:327-337 | `preferredLoadAddress` is the vmaddr of the first `__TEXT` segment, 0 without one |
| Segments.SegmentName | ffi-iOSDemo/MachO/MachOParser.cpp:1271-1283 | `segmentName(i)` is the name of segment `i`, null exactly when `i` is not below the segment count |
| Segments.SegmentNameFrom | ffi-iOSDemo/MachO/MachOParser.cpp:1274-1281 | the counting visitor finds the segment `target - cur` places further on, if there is one |
| Segments.SignedPtr | ffi-iOSDemo/MachO/MachOParser.cpp:1226-1234 | the conversion to `intptr_t` keeps the bit pattern and yields a signed value of the pointer width |
| Segments.SlideFrom | ffi-iOSDemo/MachO/MachOParser.cpp:1217-1242 | `getSlide` is taken from the first native-width `__TEXT` segment and is 0 without one |
| Segments.SlideFor | ffi-iOSDemo/MachO/MachOParser.cpp:1226-1234 | the slide moves the segment's vmaddr onto the header address, modulo the pointer width |
| Segments.SlideAdds | ffi-iOSDemo/MachO/MachOParser.cpp:1226-1234 | any value congruent to `header - vmaddr` slides `vmaddr` to the header |
| Segments.GreaterThanAddOrOverflow | ffi-iOSDemo/MachO/MachOParser.cpp:19-21 | on 64-bit operands the test is exactly `a + b > c` over unbounded integers, overflow included |
| Segments.SegmentEnd | ffi-iOSDemo/MachO/MachOParser.cpp:669-685 | the end `vmaddr + filesize` the section check compares against, computed in the command's own width (64 or 32 bits) and so below 2^64 |
| Segments.SectionAt | ffi-iOSDemo/MachO/MachOParser.cpp:662-687 | each section carries its segment's name, index and vmaddr; `illegalSectionSize` is false exactly when the section lies inside its segment |
| Segments.SectionsFrom | ffi-iOSDemo/MachO/MachOParser.cpp:662-689 | the inner loop yields one record per section of the segment, all tagged with that segment's index |
| Segments.SectionList | ffi-iOSDemo/MachO/MachOParser.cpp:651-692 | `forEachSection` numbers segments consecutively, and each section's index is that of its segment |
| Layout.ParserDataRoundTrip | ffi-iOSDemo/MachO/MachOParser.cpp:118-156 | the `_data` word gives back the header address; `isRaw` and `inRawCache` are its low bits as the constructor sets them in each build |
| Layout.GetLayoutInfo | ffi-iOSDemo/MachO/MachOParser.cpp:547-560 | the in-process layout: the slide, and the last `__TEXT` and `__LINKEDIT` values over all segments |
| Layout.LayoutStep | ffi-iOSDemo/MachO/MachOParser.cpp:552-560 | one segment of the visitor: `__TEXT` replaces the text address, `__LINKEDIT` the link-edit address and file offset, and nothing else changes |
| Layout.LayoutInfoLastWins | ffi-iOSDemo/MachO/MachOParser.cpp:552-560 | each field holds the last matching segment's value, or its prior value when no segment matches |
| Layout.LinkEditContent | ffi-iOSDemo/MachO/MachOParser.cpp:533-538 | the in-process link-edit address is `linkeditUnslidVMAddr + slide + (fileOffset - linkeditFileOffset)` |
| Layout.SectionContent | ffi-iOSDemo/MachO/MachOParser.cpp:537-538 | a section's content address is its vmaddr plus the slide, wrapped to the pointer width |
| Layout.SectionContentSlid | ffi-iOSDemo/MachO/MachOParser.cpp:537-538 | any slide congruent to the stored one gives the same address |
| Layout.SegmentInfoOf | ffi-iOSDemo/MachO/MachOParser.h:148-151 | `segSize` keeps only 61 bits |
| Layout.EntryFromText | ffi-iOSDemo/MachO/MachOParser.cpp:569-608 | the record built for segment `k` uses the `__TEXT` values seen up to and including `k` |
| Layout.SegmentCount | ffi-iOSDemo/MachO/MachOParser.cpp:612-614 | at most 128 records are written, and fewer only when there are fewer segments |
| Layout.LinkEditIndexIsLast | ffi-iOSDemo/MachO/MachOParser.cpp:565-611 | `linkeditSegIndex` stays `0xFFFFFFFF` exactly when no written segment is `__LINKEDIT`, else it is the last such |
| Layout.GetLayoutInfoOutOfProcess | ffi-iOSDemo/MachO/MachOParser.cpp:562-615 | the out-of-process table: the count, the link-edit index, entry `k` as specified, and entries past the count untouched |
| Layout.FillLayoutTable | ffi-iOSDemo/MachO/MachOParser.cpp:568-615 | the segment loop writes `segments[segmentCount]` and stops once the count passes 127 |
| Layout.MappingOffsetModes | ffi-iOSDemo/MachO/MachOParser.cpp:586-601 | `mappingOffset` is `fileOffset` outside a cache; before `__TEXT` is seen it is `fileOffset - 0` in a raw cache and `vmAddr - 0` in a mapped cache |
| Layout.LinkEditContentOutOfProcess | ffi-iOSDemo/MachO/MachOParser.cpp:540-542 | the out-of-process link-edit address is the header plus the link-edit segment's mapping offset plus the 32-bit offset inside it |
| Layout.SectionContentOutOfProcess | ffi-iOSDemo/MachO/MachOParser.cpp:540-542 | a section's content is found through its segment's mapping offset, and only for a segment that has a record |
| Queries.VersionAt | ffi-iOSDemo/MachO/MachOParser.cpp:345-404 | each version command gives its platform; an `LC_BUILD_VERSION` platform outside 1..5 leaves it unset, and `unknown` is never produced |
| Queries.FirstVersion | ffi-iOSDemo/MachO/MachOParser.cpp:339-408 | `getPlatformAndVersion` answers from the first version command, and fails exactly when there is none |
| Queries.PlatformOfCpu | ffi-iOSDemo/MachO/MachOParser.cpp:181-190 | without a version command, ARM and ARM64 are iOS and every other CPU is macOS |
| Queries.PlatformOf | ffi-iOSDemo/MachO/MachOParser.cpp:173-191 | `platform()` is the version command's platform, or the CPU default when there is none |
| Queries.IsSimulatorBinary | ffi-iOSDemo/MachO/MachOParser.cpp:411-425 | true exactly for an i386/x86_64 image whose version command names a platform other than macOS |
| Queries.FirstIdDylib | ffi-iOSDemo/MachO/MachOParser.cpp:428-444 | the install name comes from the first `LC_ID_DYLIB`, and there is none without one |
| Queries.InstallName | ffi-iOSDemo/MachO/MachOParser.cpp:446-453 | a dylib's install name is the name of its first `LC_ID_DYLIB` command |
| Queries.DependentDylibCount | ffi-iOSDemo/MachO/MachOParser.cpp:456-463 | the count equals the number of dependent-dylib commands |
| Queries.CountDependents | ffi-iOSDemo/MachO/MachOParser.cpp:458-461 | the counting visitor adds one per dependent command |
| Queries.DependentDylibLoadPath | ffi-iOSDemo/MachO/MachOParser.cpp:465-477 | the path of dependent `i`, null exactly when `i` is not below the count |
| Queries.LoadPathFrom | ffi-iOSDemo/MachO/MachOParser.cpp:468-475 | the counting visitor finds the dependent `target - cur` places further on, if there is one |
| Queries.DependentCountBound | ffi-iOSDemo/MachO/MachOParser.cpp:456-463 | there are at most `ncmds` dependents, so the count fits in 32 bits |
| Queries.DependentsFromCommands | ffi-iOSDemo/MachO/MachOParser.cpp:480-499 | each dependent comes from a dependent command, with weak, re-export and upward mutually exclusive as the command kind sets them |
| Queries.RPathList | ffi-iOSDemo/MachO/MachOParser.cpp:501-511 | every `LC_RPATH` path is reported, and nothing is reported without one |
| Queries.RPathListExact | ffi-iOSDemo/MachO/MachOParser.cpp:501-511 | `forEachRPath` reports one path per `LC_RPATH` command, in command order: the `i`-th path is that of the `i`-th `LC_RPATH` |
| Queries.FirstEncryption | ffi-iOSDemo/MachO/MachOParser.cpp:1290-1308 | `isFairPlayEncrypted` answers from the first encryption command, and is false without one |
| Queries.EncryptionAt | ffi-iOSDemo/MachO/MachOParser.cpp:1296-1303 | with `cryptid == 1` the text offset and size are the command's; the result is "encrypted" exactly when the text offset is non-zero |
| Queries.HasThreadLocalVariables | ffi-iOSDemo/MachO/MachOParser.cpp:168-171 | true exactly when `MH_HAS_TLV_DESCRIPTORS` (0x800000, bit 23) is set in the header flags |
| Queries.InDyldCache | ffi-iOSDemo/MachO/MachOParser.cpp:163-166 | true exactly when the top bit (0x80000000) of the 32-bit header flags is set, that is when the flags are at least 0x80000000 |
| LinkEdit.ScanOf | ffi-iOSDemo/MachO/MachOParser.cpp:899-994 | the visitor records at most one message per command |
| LinkEdit.ScanOfStep | ffi-iOSDemo/MachO/MachOParser.cpp:899-994 | the scan of a prefix extended by one command is one visitor step |
| LinkEdit.StepEffect | ffi-iOSDemo/MachO/MachOParser.cpp:900-993 | a step overwrites only the slot of its command, whatever was reported, and appends at most its message |
| LinkEdit.ScanSeen | ffi-iOSDemo/MachO/MachOParser.cpp:896-898 | a slot or flag is set after the scan exactly when some command of its kind occurred (also lines 956, 966, 973, 982, 991) |
| LinkEdit.ScanMessages | ffi-iOSDemo/MachO/MachOParser.cpp:899-994 | the recorded messages are exactly those of the individual commands |
| LinkEdit.SeenBefore | ffi-iOSDemo/MachO/MachOParser.cpp:905 | before command `j`, a slot is seen exactly when an earlier command has its kind (also lines 954, 964, 971, 978, 987) |
| LinkEdit.MultipleIff | ffi-iOSDemo/MachO/MachOParser.cpp:903-988 | "multiple" is recorded exactly when a correctly sized command (by `ExpectedSize`, wrapped at the `size_t` width) repeats an earlier one of its kind (the version commands share one flag) |
| LinkEdit.SizeWrongIff | ffi-iOSDemo/MachO/MachOParser.cpp:903-985 | "size wrong" is recorded exactly when some command of that kind has a `cmdsize` other than `ExpectedSize`, whose `LC_BUILD_VERSION` sum wraps at the `size_t` width |
| LinkEdit.ExpectedSizeValue | ffi-iOSDemo/MachO/MachOParser.cpp:903-985 | the fixed structures need 16 to 80 bytes; `LC_BUILD_VERSION` needs `24 + 8 * ntools` on a 64-bit build and that sum modulo 2^32, a multiple of 8, on a 32-bit build |
| LinkEdit.ExpectedSizeWraps32 | ffi-iOSDemo/MachO/MachOParser.cpp:969 | on a 32-bit build, `ntools = 2^29` makes the expected size wrap to 24, so a 24-byte command passes the check |
| LinkEdit.Encryption32Report | ffi-iOSDemo/MachO/MachOParser.cpp:975-983 | a correctly sized, first `LC_ENCRYPTION_INFO` reports "found in 64-bit" exactly in a 64-bit process (`is64()` is the pointer width) |
| LinkEdit.Encryption64Report | ffi-iOSDemo/MachO/MachOParser.cpp:984-992 | a correctly sized, first `LC_ENCRYPTION_INFO_64` reports "found in 32-bit" exactly in a 32-bit process |
| LinkEdit.Encryption32In64Iff | ffi-iOSDemo/MachO/MachOParser.cpp:975-983 | over the whole scan, the 64-bit message occurs exactly when the process is 64-bit and the first encryption command is such an `LC_ENCRYPTION_INFO` |
| LinkEdit.Encryption64In32Iff | ffi-iOSDemo/MachO/MachOParser.cpp:984-992 | over the whole scan, the 32-bit message occurs exactly when the process is 32-bit and the first encryption command is such an `LC_ENCRYPTION_INFO_64` |
| LinkEdit.LookupLastWins | ffi-iOSDemo/MachO/MachOParser.cpp:907-949 | each slot holds the last command of its kind, or none when there is none |
| LinkEdit.ScanLastWins | ffi-iOSDemo/MachO/MachOParser.cpp:889-949 | each `LinkEditInfo` pointer holds the last command of its kind, null without one, and `linkeditCmd` is never assigned |
| LinkEdit.RecordedSnoc | ffi-iOSDemo/MachO/MachOParser.cpp:48-55 | recording one more optional message adds exactly it |
| LinkEdit.GetLinkEditLoadCommands | ffi-iOSDemo/MachO/MachOParser.cpp:887-998 | the result is the scan's last-wins fields; the errors are the walk's, the visitor's, and "LC_DYSYMTAB but no LC_SYMTAB" only when no earlier error exists |
| LinkEdit.VisitAll | ffi-iOSDemo/MachO/MachOParser.cpp:899-994 | visiting all commands yields the scan's fields and records its messages |
| LinkEdit.CheckSingleton | ffi-iOSDemo/MachO/MachOParser.cpp:903-906 | the size check comes first, then the repeat check |
| LinkEdit.SetField | ffi-iOSDemo/MachO/MachOParser.cpp:907-949 | storing a pointer changes that field only |
| LinkEdit.InfoFields | ffi-iOSDemo/MachO/MachOParser.cpp:889-895 | the fields of the result are the scan's slots |
| LinkEdit.StepMessageOf | ffi-iOSDemo/MachO/MachOParser.cpp:900-993 | a command's message is its singleton report, followed by the encryption width check against the process's pointer width |
| LinkEdit.FieldStep | ffi-iOSDemo/MachO/MachOParser.cpp:907-949 | a pointer-valued command overwrites its field |
| LinkEdit.FlagStep | ffi-iOSDemo/MachO/MachOParser.cpp:956-991 | a flag-only command leaves the pointer fields unchanged |
| LinkEdit.RecordField | ffi-iOSDemo/MachO/MachOParser.cpp:901-949 | one pointer case of the switch: report, then overwrite |
| LinkEdit.CheckFlag | ffi-iOSDemo/MachO/MachOParser.cpp:951-974 | the UUID and version cases: report, then set the flag |
| LinkEdit.CheckEncryption | ffi-iOSDemo/MachO/MachOParser.cpp:975-992 | the encryption cases: size, repeat, then the process-width check, then set the flag |
| LinkEdit.VisitLinkEditCommand | ffi-iOSDemo/MachO/MachOParser.cpp:900-993 | the visitor body performs exactly one scan step on the fields, the flags and the sink |
| LinkEdit.LinkEditErrors | ffi-iOSDemo/MachO/MachOParser.cpp:1000-1005 | extraction only adds errors |
| LinkEdit.LinkEditPointersOffset | ffi-iOSDemo/MachO/MachOParser.cpp:1000-1005 | the link-edit file offset of the layout stays a 32-bit value |
| LinkEdit.GetLinkEditPointers | ffi-iOSDemo/MachO/MachOParser.cpp:1000-1005 | the load-command scan, then the layout only when no error exists |
| Symbols.TableOf | ffi-iOSDemo/MachO/MachOParser.cpp:694-712 | without `LC_SYMTAB` nothing is scanned; without `LC_DYSYMTAB` the partition is the whole table; entries are `nlist_64` exactly in a 64-bit process (`is64()`) |
| Symbols.NlistAt | ffi-iOSDemo/MachO/MachOParser.cpp:715-727 | an entry's string index is 32 bits, and a 32-bit entry's value is 32 bits |
| Symbols.Delivered | ffi-iOSDemo/MachO/MachOParser.cpp:714-729 | no more symbols are delivered than entries scanned |
| Symbols.DeliveredNext | ffi-iOSDemo/MachO/MachOParser.cpp:717-720 | an entry with `n_strx > strsize` is skipped; otherwise it is delivered exactly when it passes the type filter |
| Symbols.DeliveredIff | ffi-iOSDemo/MachO/MachOParser.cpp:714-729 | every delivered symbol is an admitted entry of the partition with its name and value |
| Symbols.DeliveredEligible | ffi-iOSDemo/MachO/MachOParser.cpp:719-758 | globals are `N_EXT`, `N_SECT` and not `N_STAB`; locals are `N_SECT`, not `N_EXT` and not `N_STAB` |
| Symbols.ForEachSymbol | ffi-iOSDemo/MachO/MachOParser.cpp:694-770 | the link-edit errors are recorded, and the symbols delivered are those of the partition, read as `nlist_64` exactly in a 64-bit process, none after an error |
| Symbols.ScanTable | ffi-iOSDemo/MachO/MachOParser.cpp:714-729 | the loop delivers exactly the admitted entries in table order |
| Symbols.ClosestIsEarliestBest | ffi-iOSDemo/MachO/MachOParser.cpp:1178-1193 | the closest symbol has the largest value not above the target, and the earliest of equals wins |
| Symbols.ConsiderAll | ffi-iOSDemo/MachO/MachOParser.cpp:1179-1184 | the running `closestNValueSoFar`/`closestNameSoFar` equal the closest symbol of everything seen |
| Symbols.SecondScanSeesFirst | ffi-iOSDemo/MachO/MachOParser.cpp:1186 | the local scan reruns extraction on the same sink, so it fails exactly when the global one did |
| Symbols.FindClosestSymbol | ffi-iOSDemo/MachO/MachOParser.cpp:1173-1201 | true exactly when an eligible global or local symbol lies at or below the target, returning the closest; false whenever extraction reports an error |
| Symbols.FindClosestSymbolAt | ffi-iOSDemo/MachO/MachOParser.cpp:1206-1215 | the address form unslides the address by `getSlide`, and reslides the result |
| Symbols.ClosestWithSlide | ffi-iOSDemo/MachO/MachOParser.cpp:1208-1213 | the lookup for a given slide |
| Leb128.GroupStep | ffi-iOSDemo/MachO/MachOParser.cpp:1132-1152 | or-ing a group at `bit` equals adding it, the rest starting at `bit + 7` |
| Leb128.UlebGroups | ffi-iOSDemo/MachO/MachOParser.cpp:1120-1136 | the unsigned loop never moves `p` past the end |
| Leb128.UlebGroupsShape | ffi-iOSDemo/MachO/MachOParser.cpp:1120-1136 | the loop consumes continuation bytes and the first byte without one, at most `left`, and sums their groups |
| Leb128.ReadUleb | ffi-iOSDemo/MachO/MachOParser.cpp:1116-1138 | `read_uleb128` leaves `p` inside the range |
| Leb128.ReadUlebShape | ffi-iOSDemo/MachO/MachOParser.cpp:1116-1138 | at most 10 bytes; the value is their groups, least significant first, reduced to 64 bits; reaching `end` reports "malformed" with `p == end`; an 11th byte reports "too big" and is not consumed |
| Leb128.UlebLoopGroups | ffi-iOSDemo/MachO/MachOParser.cpp:1120-1136 | the loop as written (`result \|= slice << bit`) computes the group sum |
| Leb128.UlebLoopStart | ffi-iOSDemo/MachO/MachOParser.cpp:1118-1119 | started at `result = 0, bit = 0`, the loop computes `ReadUleb` |
| Leb128.ReadUleb128 | ffi-iOSDemo/MachO/MachOParser.cpp:1116-1138 | the method returns `ReadUleb`'s value and position and records its error |
| Leb128.EncodeUlebShape | ffi-iOSDemo/MachO/MachOParser.cpp:1116-1138 | the minimal encoding of `v` is one terminated number whose groups spell `v` |
| Leb128.EncodeUlebLength | ffi-iOSDemo/MachO/MachOParser.cpp:1127-1130 | a value below `2^(7k)` takes at most `k` bytes |
| Leb128.UlebGroupsTerminated | ffi-iOSDemo/MachO/MachOParser.cpp:1120-1136 | decoding a terminated number of at most `left` bytes consumes exactly it |
| Leb128.UlebRoundTrip | ffi-iOSDemo/MachO/MachOParser.cpp:1116-1138 | decoding the minimal encoding of any 64-bit `v`, wherever it sits, gives `v` and ends just past it, without error |
| Leb128.SlebScanShape | ffi-iOSDemo/MachO/MachOParser.cpp:1146-1154 | the signed loop reads continuation bytes through the first without one, without bound, with `bit == 7 * count` |
| Leb128.SlebAsWrittenAgrees | ffi-iOSDemo/MachO/MachOParser.cpp:1141-1159 | wherever the source's shifts are defined, the corrected reader gives the same value, position and error |
| Leb128.SlebLoopScan | ffi-iOSDemo/MachO/MachOParser.cpp:1146-1154 | the loop as written computes the group sum and the final shift |
| Leb128.SlebLoopStart | ffi-iOSDemo/MachO/MachOParser.cpp:1143-1157 | started at zero with the guarded sign extension, the loop computes `ReadSleb` |
| Leb128.ReadSleb128 | ffi-iOSDemo/MachO/MachOParser.cpp:1141-1159 | the method returns `ReadSleb`'s value and position and records "malformed sleb128" on reaching the end |
| Leb128.EncodeSlebShape | ffi-iOSDemo/MachO/MachOParser.cpp:1155-1157 | the minimal signed encoding of `v` is terminated, its last group's bit 6 is the sign, and its groups spell `v` (plus `2^(7n)` when negative) |
| Leb128.EncodeSlebLength | ffi-iOSDemo/MachO/MachOParser.cpp:1141-1159 | a value within `±2^(7k-1)` takes at most `k` bytes |
| Leb128.EncodeSlebInt64 | ffi-iOSDemo/MachO/MachOParser.cpp:1141-1159 | every `int64_t` takes at most 10 bytes |
| Leb128.SlebScanTerminated | ffi-iOSDemo/MachO/MachOParser.cpp:1146-1154 | the signed loop over a terminated number consumes exactly it |
| Leb128.SlebRoundTrip | ffi-iOSDemo/MachO/MachOParser.cpp:1141-1159 | the corrected reader decodes the minimal encoding of every `int64_t` back to it, ending just past it |
| Leb128.SlebAsWrittenMinInt64 | ffi-iOSDemo/MachO/MachOParser.cpp:1152-1157 | `INT64_MIN` is encoded as ten bytes, and reading it as written shifts by 70, so its value is undefined |
| Trie.EdgeEnd | ffi-iOSDemo/MachO/MachOParser.cpp:1054-1063 | an edge label ends at a NUL inside the trie |
| Trie.EdgeEndFirst | ffi-iOSDemo/MachO/MachOParser.cpp:1054-1063 | it is the first NUL; there is none exactly when no NUL lies before the end |
| Trie.UlebEnd | ffi-iOSDemo/MachO/MachOParser.cpp:1068-1070 | skipping a ULEB128 ends just past a byte without the continuation bit |
| Trie.UlebEndFirst | ffi-iOSDemo/MachO/MachOParser.cpp:1068-1070 | it is the first such byte |
| Trie.TerminalSize | ffi-iOSDemo/MachO/MachOParser.cpp:1030-1037 | the terminal size is one byte, or a ULEB128 when above 127, and the position moves forward |
| Trie.ScanChildrenSkip | ffi-iOSDemo/MachO/MachOParser.cpp:1064-1075 | a mismatched edge is skipped with its offset, and the scan goes on with the next child |
| Trie.ScanChildrenStep | ffi-iOSDemo/MachO/MachOParser.cpp:1049-1090 | one child: a missing NUL fails, a mismatch skips, a match reads the child offset and rejects 0 or past-end offsets |
| Trie.Terminal | ffi-iOSDemo/MachO/MachOParser.cpp:1030-1047 | a node answers only with an empty residual name and a non-zero terminal size; otherwise its children start inside the trie |
| Trie.ConcatCons | ffi-iOSDemo/MachO/MachOParser.cpp:1087 | consuming labels one after another consumes their concatenation |
| Trie.NodeWalkSound | ffi-iOSDemo/MachO/MachOParser.cpp:1029-1111 | from any node, a result is a terminal node reached by labels that spell the rest of the name |
| Trie.NodeWalkDescends | ffi-iOSDemo/MachO/MachOParser.cpp:1041-1047 | a node that does not answer continues with its children |
| Trie.NodeWalkLeaf | ffi-iOSDemo/MachO/MachOParser.cpp:1038-1045 | a node that answers or fails is sound |
| Trie.DescendSound | ffi-iOSDemo/MachO/MachOParser.cpp:1091-1110 | descending through a matched edge keeps soundness |
| Trie.ScanMatchedPrefix | ffi-iOSDemo/MachO/MachOParser.cpp:1055-1088 | a matched edge is a prefix of the residual name |
| Trie.TrieWalkSound | ffi-iOSDemo/MachO/MachOParser.cpp:1023-1113 | the walk descends at most 126 times; a result is just past the terminal size of a node with non-zero terminal size whose edge labels concatenate to the whole name |
| Trie.PrefixAtSnoc | ffi-iOSDemo/MachO/MachOParser.cpp:1056-1060 | the edge stays a match after one more byte exactly when that byte is the next byte of the name |
| Trie.ScanEdge | ffi-iOSDemo/MachO/MachOParser.cpp:1050-1063 | the edge loop ends at the label's NUL and reports whether the label matches |
| Trie.SkipUleb | ffi-iOSDemo/MachO/MachOParser.cpp:1068-1070 | the skip loop ends just past the ULEB128 |
| Trie.ScanChildrenLoop | ffi-iOSDemo/MachO/MachOParser.cpp:1048-1090 | the children loop returns the specified match, skip-through or failure, with its message |
| Trie.ScanChild | ffi-iOSDemo/MachO/MachOParser.cpp:1050-1089 | one iteration of the children loop meets its specification |
| Trie.ReadChildAt | ffi-iOSDemo/MachO/MachOParser.cpp:1079-1086 | reading a matched child's offset fails on a ULEB error, on 0, or past the end |
| Trie.AlreadyVisited | ffi-iOSDemo/MachO/MachOParser.cpp:1096-1101 | the visited search is true exactly when the offset is among those recorded |
| Trie.CheckTerminal | ffi-iOSDemo/MachO/MachOParser.cpp:1030-1045 | the node-start code returns exactly when the specification answers |
| Trie.NodeWalkStops | ffi-iOSDemo/MachO/MachOParser.cpp:1038-1040 | a terminal match ends the walk there |
| Trie.NodeWalkPastEnd | ffi-iOSDemo/MachO/MachOParser.cpp:1029 | a node at or past the end returns null without error (also line 1112) |
| Trie.DescendEnds | ffi-iOSDemo/MachO/MachOParser.cpp:1109-1110 | when no child matches, the walk ends with null |
| Trie.DescendRefused | ffi-iOSDemo/MachO/MachOParser.cpp:1096-1106 | a node visited before ("cycle") or the 127th descent ("too deep") ends the walk with null and its error |
| Trie.DescendMatched | ffi-iOSDemo/MachO/MachOParser.cpp:1102-1107 | otherwise the offset is recorded and the walk goes on at that node |
| Trie.TrieWalk | ffi-iOSDemo/MachO/MachOParser.cpp:1023-1113 | the method returns the specified position, with offset 0 marked visited first, and records the specified error |
| Trie.WalkNode | ffi-iOSDemo/MachO/MachOParser.cpp:1029-1111 | one pass of the outer loop meets `NodeWalk` |
| Trie.FollowChild | ffi-iOSDemo/MachO/MachOParser.cpp:1046-1110 | the children scan and the descent meet `Descend` |
| Trie.Enter | ffi-iOSDemo/MachO/MachOParser.cpp:1091-1107 | entering a matched child meets `Descend` for that match |
| Exports.TrieBytes | ffi-iOSDemo/MachO/MachOParser.cpp:780-781 | the trie is `export_size` bytes at the link-edit content address of `export_off` |
| Exports.ImportedNameIsCString | ffi-iOSDemo/MachO/MachOParser.cpp:814-816 | the imported name, or the original when it is empty, is a C string |
| Exports.DepIndex | ffi-iOSDemo/MachO/MachOParser.cpp:822 | ordinal `n` names dependent `n - 1`; ordinal 0 wraps to `0xFFFFFFFF` |
| Exports.FirstNamed | ffi-iOSDemo/MachO/MachOParser.cpp:870-881 | the legacy scan stops at the first global with an equal name |
| Exports.LookupSound | ffi-iOSDemo/MachO/MachOParser.cpp:773-884 | errors are only added; with an error already present nothing is found and nothing changes |
| Exports.SearchSound | ffi-iOSDemo/MachO/MachOParser.cpp:775-778 | the same for one image, after link-edit extraction |
| Exports.FromTrieSound | ffi-iOSDemo/MachO/MachOParser.cpp:779-865 | the same for the trie branch |
| Exports.ReExportScanSound | ffi-iOSDemo/MachO/MachOParser.cpp:783-806 | the same for the re-exported dependents |
| Exports.RecordSound | ffi-iOSDemo/MachO/MachOParser.cpp:807-864 | the same for a terminal record |
| Exports.ReExportSound | ffi-iOSDemo/MachO/MachOParser.cpp:809-834 | the same for a re-export record |
| Exports.ImportedSound | ffi-iOSDemo/MachO/MachOParser.cpp:818-833 | the same for an ordinal lookup |
| Exports.NoFinderIsLocal | ffi-iOSDemo/MachO/MachOParser.cpp:788-811 | without a finder the lookup is confined to the image: the result is that of any finder that finds nothing |
| Exports.FromTrieWithoutFinder | ffi-iOSDemo/MachO/MachOParser.cpp:783-811 | without a finder, a trie miss finds nothing, and a re-export record finds nothing and records nothing |
| Exports.RecordWithoutFinder | ffi-iOSDemo/MachO/MachOParser.cpp:809-811 | a re-export record without a finder returns false and records nothing |
| Exports.ScanWithoutFinder | ffi-iOSDemo/MachO/MachOParser.cpp:788 | without a finder no dependent is searched |
| Exports.ReExportWithoutFinder | ffi-iOSDemo/MachO/MachOParser.cpp:810-811 | a re-export without a finder changes nothing |
| Exports.ReExportReadsOrdinal | ffi-iOSDemo/MachO/MachOParser.cpp:813-816 | a re-export reads the ordinal, then the imported name in place |
| Exports.ImportedOrdinalOutOfRange | ffi-iOSDemo/MachO/MachOParser.cpp:818-821 | an ordinal above `dependentDylibCount()` records "out of range" and finds nothing |
| Exports.ImportedFollowsOrdinal | ffi-iOSDemo/MachO/MachOParser.cpp:822-833 | otherwise the finder gets `ordinal - 1` and that dependent's load path; a miss records "not found", a hit searches the dependent for the imported name |
| Exports.OrdinalDependent | ffi-iOSDemo/MachO/MachOParser.cpp:818-825 | an in-range ordinal names an existing dependent |
| Exports.LocalKinds | ffi-iOSDemo/MachO/MachOParser.cpp:835-863 | a local record: an error stops it; kind 3 reports "unsupported"; absolute sets `absolute`; thread-local sets `isThreadLocal`; stub-and-resolver keeps `headerOffset` and fills only `resolverFuncOffset` |
| Exports.LegacyFirstMatch | ffi-iOSDemo/MachO/MachOParser.cpp:866-883 | without `LC_DYLD_INFO`, found exactly when a global has the name; the first such gives `n_value - preferredLoadAddress` |
| Exports.FindExportedSymbol | ffi-iOSDemo/MachO/MachOParser.cpp:773-884 | the method's result, `foundInfo` and errors are those of `Lookup` |
| Exports.SearchImage | ffi-iOSDemo/MachO/MachOParser.cpp:775-883 | one image's search meets `Search` |
| Exports.SearchSymbols | ffi-iOSDemo/MachO/MachOParser.cpp:868-870 | the legacy branch's global symbols and errors |
| Exports.FirstGlobal | ffi-iOSDemo/MachO/MachOParser.cpp:870-882 | the legacy visitor meets `Legacy` |
| Exports.SearchTrie | ffi-iOSDemo/MachO/MachOParser.cpp:779-865 | the trie branch meets `FromTrie` |
| Exports.ScanReExports | ffi-iOSDemo/MachO/MachOParser.cpp:783-806 | the re-exported dependents are searched in order until the first hit |
| Exports.DecodeRecord | ffi-iOSDemo/MachO/MachOParser.cpp:807-864 | the terminal record meets `Record` |
| Exports.DecodeLocal | ffi-iOSDemo/MachO/MachOParser.cpp:835-864 | the local record meets `Local` |
| Exports.FollowReExport | ffi-iOSDemo/MachO/MachOParser.cpp:809-834 | the re-export meets `ReExport` |
| Exports.FollowOrdinal | ffi-iOSDemo/MachO/MachOParser.cpp:818-833 | the ordinal lookup meets `Imported` |
| Exports.ExportedIffFound | ffi-iOSDemo/MachO/MachOParser.cpp:1251-1267 | an address exists exactly when `findExportedSymbol` succeeds |
| Exports.HasExportedSymbol | ffi-iOSDemo/MachO/MachOParser.cpp:1245-1269 | true exactly when the symbol is exported, and then `*result` is its address; otherwise `*result` is untouched |
| Exports.StoreAddress | ffi-iOSDemo/MachO/MachOParser.cpp:1252-1258 | a header offset is added to the image's header; an absolute value is the address itself |
| Dlfcn.UnderscoredIsCString | ffi-iOSDemo/MachO/macho_dlfcn.cpp:97-143 | the `'_'`-prefixed name is still a C string |
| Dlfcn.ScanCommandsGenuine | ffi-iOSDemo/MachO/macho_dlfcn.cpp:46-62 | the symtab and linkedit found are an `LC_SYMTAB` and a `__LINKEDIT` segment command |
| Dlfcn.ScanCommandsComplete | ffi-iOSDemo/MachO/macho_dlfcn.cpp:46-66 | a command missing after the loop is missing from all `ncmds` commands; the loop stops only once both are found |
| Dlfcn.NotedStays | ffi-iOSDemo/MachO/macho_dlfcn.cpp:49-60 | once found, a command stays found |
| Dlfcn.FirstMatchAt | ffi-iOSDemo/MachO/macho_dlfcn.cpp:73-84 | the scan finds the first entry with a non-zero value and an equal name |
| Dlfcn.FirstMatchNone | ffi-iOSDemo/MachO/macho_dlfcn.cpp:73-86 | the scan finds nothing exactly when no entry matches |
| Dlfcn.ImageFindSymNone | ffi-iOSDemo/MachO/macho_dlfcn.cpp:41-66 | a null image, or one missing `LC_SYMTAB` or `__LINKEDIT`, gives 0 and leaves `is_weak` alone |
| Dlfcn.ImageFindSymFirstMatch | ffi-iOSDemo/MachO/macho_dlfcn.cpp:68-86 | otherwise the first match gives `n_value + slide` and `is_weak` from `N_WEAK_DEF`; no match gives 0 |
| Dlfcn.HmdImageFindSym | ffi-iOSDemo/MachO/macho_dlfcn.cpp:39-87 | the method returns `ImageFindSym`'s address and sets `is_weak` only on a hit |
| Dlfcn.FindSymbol | ffi-iOSDemo/MachO/macho_dlfcn.cpp:73-86 | the symbol loop returns the first match's address and weak bit |
| Dlfcn.FindCommands | ffi-iOSDemo/MachO/macho_dlfcn.cpp:46-62 | the command loop computes `CommandsOf` |
| Dlfcn.DlsymFirstHit | ffi-iOSDemo/MachO/macho_dlfcn.cpp:147-154 | the first image in load order that exports the name decides |
| Dlfcn.DlsymNoHit | ffi-iOSDemo/MachO/macho_dlfcn.cpp:156 | no image exporting it gives 0 |
| Dlfcn.MachoDlsym | ffi-iOSDemo/MachO/macho_dlfcn.cpp:137-157 | a null name gives 0; otherwise the first export of `'_'` + name in load order, searched without a finder |
| Dlfcn.StrStrIff | ffi-iOSDemo/MachO/macho_dlfcn.cpp:114 | `strstr` is non-null exactly when the name contains "dyld_sim" |
| Dlfcn.StrongHitWins | ffi-iOSDemo/MachO/macho_dlfcn.cpp:118-121 | the first non-skipped image with a non-weak, non-zero hit is returned at once |
| Dlfcn.RememberedWins | ffi-iOSDemo/MachO/macho_dlfcn.cpp:123-132 | once an image is remembered and no strong hit follows, its address is the result |
| Dlfcn.FirstImageDecides | ffi-iOSDemo/MachO/macho_dlfcn.cpp:123-132 | without a strong hit, the result is what the first non-skipped image computed (its weak hit or 0), not the first weak hit anywhere |
| Dlfcn.AllSkippedIsZero | ffi-iOSDemo/MachO/macho_dlfcn.cpp:113-132 | if every image is skipped the result is 0 |
| Dlfcn.LookupSymStrong | ffi-iOSDemo/MachO/macho_dlfcn.cpp:94-121 | when `macho_dlsym` fails, a first strong hit is the result |
| Dlfcn.MachoLookupSym | ffi-iOSDemo/MachO/macho_dlfcn.cpp:91-133 | a null name gives 0; a non-zero `macho_dlsym` result is returned without scanning; otherwise the image fold |
| Dlfcn.ImageLoop | ffi-iOSDemo/MachO/macho_dlfcn.cpp:102-132 | the image loop with `firstWeakImage`/`firstWeakSym` computes the fold |
| Dlfcn.LookupContinue | ffi-iOSDemo/MachO/macho_dlfcn.cpp:123-127 | only the first non-skipped image is remembered |
| Dlfcn.ExamineImage | ffi-iOSDemo/MachO/macho_dlfcn.cpp:108-116 | one image: its symbol-table hit and whether it is a skipped `dyld_sim` dynamic linker |
| FfiCommon.Cif.constructor | darwin_ios/include/bdffc_arm64.h:225-235 | a call interface holds its ABI, argument types, return type, bytes and flags |
| FfiCommon.AlignPow2 | darwin_common/include/bdffc_common.h:77-78 | `BDFFC_ALIGN(v, 2^k)` is `v` rounded up to a multiple of `2^k`, reduced modulo the width of `size_t` |
| FfiCommon.AlignZero | darwin_common/include/bdffc_common.h:78 | `BDFFC_ALIGN(0, a)` is 0, through the wrap-around of `0 - 1` |
| FfiCommon.AlignRoundsUp | darwin_common/include/bdffc_common.h:77-78 | without overflow the result is at least `v`, below `v + a`, and a multiple of `a` |
| FfiCommon.AlignWraps | darwin_common/include/bdffc_common.h:78 | a `v` within `a - 1` of `SIZE_MAX` wraps to 0 |
| FfiCommon.AlignMultiple | darwin_common/include/bdffc_common.h:78 | the result is always a multiple of `a` |
| FfiCommon.AlignIdempotent | darwin_common/include/bdffc_common.h:78 | aligning twice is aligning once |
| FfiCommon.AlignLeast | darwin_common/include/bdffc_common.h:77-78 | without overflow the result is the smallest multiple of `a` that is at least `v` |
| FfiCommon.AlignDownPow2 | darwin_common/include/bdffc_common.h:79-80 | `ALIGN_DOWN(v, 2^k)` (`v & -a`) is `v` rounded down to a multiple of `a` |
| FfiCommon.AlignDownGreatest | darwin_common/include/bdffc_common.h:79-80 | it is the largest multiple of `a` that is at most `v` |
| FfiCommon.AlignBrackets | darwin_common/include/bdffc_common.h:77-80 | `ALIGN_DOWN(v, a) <= v <= BDFFC_ALIGN(v, a)` |
| FfiCommon.AlignFixedIff | darwin_common/include/bdffc_common.h:77-80 | each macro returns `v` itself exactly when `v` is a multiple of `a` |
| FfiCommon.Store | darwin_ios/src/x86/bdffc_i386.c:537-542 | byte stores into an array change exactly the bytes written |
| FfiI386.PrepCifMachdep | darwin_ios/src/x86/bdffc_i386.c:57-185 | the status is the ABI check then the return classification; on error `flags` and `bytes` are untouched; otherwise `flags` is the class and `bytes` the aligned frame size |
| FfiI386.FrameLoop | darwin_ios/src/x86/bdffc_i386.c:175-181 | the argument loop computes `Frame` |
| FfiI386.PrepStatusIff | darwin_ios/src/x86/bdffc_i386.c:63-75 | `BAD_ABI` exactly for an ABI outside SYSV/STDCALL/THISCALL/FASTCALL/MS_CDECL/PASCAL/REGISTER; `BAD_TYPEDEF` exactly for an accepted ABI with an unsupported return type (also lines 166-172) |
| FfiI386.ClassifyReturnDefined | darwin_ios/src/x86/bdffc_i386.c:77-172 | the return switch has a case exactly for the supported types and complex elements |
| FfiI386.StructReturn | darwin_ios/src/x86/bdffc_i386.c:113-169 | a hidden struct-return pointer is used exactly for structs of other sizes than 1/2/4/8 and for complex double/long double/64-bit; its class is the in-memory one |
| FfiI386.InMemoryFlags | darwin_ios/src/x86/bdffc_i386.c:127-139 | in memory: `STRUCTARG` for THISCALL/FASTCALL/STDCALL/MS_CDECL, `STRUCTPOP` otherwise |
| FfiI386.InMemoryStart | darwin_ios/src/x86/bdffc_i386.c:141 | with a hidden pointer the frame starts at 4 |
| FfiI386.HiddenPointerSlot | darwin_ios/src/x86/bdffc_i386.c:141 | `BDFFC_ALIGN(sizeof(void*), BDFFC_SIZEOF_ARG)` is 4 |
| FfiI386.RegisterReturnStart | darwin_ios/src/x86/bdffc_i386.c:60 | otherwise the frame starts at 0 |
| FfiI386.SmallStructReturn | darwin_ios/src/x86/bdffc_i386.c:114-125 | structs of size 1, 2, 4, 8 return in registers as `STRUCT_1B`, `STRUCT_2B`, `INT32`, `INT64` |
| FfiI386.ComplexReturn | darwin_ios/src/x86/bdffc_i386.c:144-169 | float/int/32-bit elements give `INT64`, 16-bit `INT32`, 8-bit `STRUCT_2B`, double/long double/64-bit memory, others `BAD_TYPEDEF` |
| FfiI386.CifBytesAligned | darwin_ios/src/x86/bdffc_i386.c:182 | `cif->bytes` is a multiple of 16 |
| FfiI386.FrameBound | darwin_ios/src/x86/bdffc_i386.c:175-181 | the frame total stays a 32-bit `size_t` |
| FfiI386.ArgumentSlot | darwin_ios/src/x86/bdffc_i386.c:179-180 | each argument first aligns the total to its alignment, then adds its size rounded up to 4 |
| FfiI386.AlignedSlot | darwin_ios/src/x86/bdffc_i386.c:179 | the aligned total is the rounded-up total when it does not wrap |
| FfiI386.PaddedSize | darwin_ios/src/x86/bdffc_i386.c:180 | the padded size is the size rounded up to `BDFFC_SIZEOF_ARG` |
| FfiI386.TrampolineJumps | darwin_ios/src/x86/bdffc_i386.c:536-542 | the 10 bytes: op at 0, `codeloc` at 1..5, 0xe9 at 5, and a jump at 6..10 that lands on `dest` modulo 2^32 |
| FfiI386.TrampolineParts | darwin_ios/src/x86/bdffc_i386.c:537-542 | the layout of the op byte, immediate, jump opcode and displacement |
| FfiI386.JumpLands | darwin_ios/src/x86/bdffc_i386.c:542 | `codeloc + 10 + (dest - (codeloc + 10))` is `dest` modulo 2^32 |
| FfiI386.Closure.constructor | darwin_ios/include/bdffc_arm64.h:308-318 | a fresh closure holds its trampoline buffer and no cif, function or user data |
| FfiI386.PrepClosureLoc | darwin_ios/src/x86/bdffc_i386.c:506-549 | an accepted ABI writes the trampoline to its stub and stores cif, fun and user data; REGISTER (missing `break`) and unknown ABIs give `BAD_ABI` and write nothing |
| FfiI386.WriteTrampoline | darwin_ios/src/x86/bdffc_i386.c:536-542 | the first 10 bytes become the trampoline and the rest are unchanged |
| FfiI386.ClosureAbis | darwin_ios/src/x86/bdffc_i386.c:517-534 | closures accept every checked ABI except REGISTER; Go closures accept all but REGISTER (also lines 561-578) |
| FfiI386.RawStatusIff | darwin_ios/src/x86/bdffc_i386.c:609-627 | `BAD_TYPEDEF` exactly when a STRUCT or LONGDOUBLE argument exists, before the ABI; then only SYSV and THISCALL are accepted |
| FfiI386.PrepRawClosureLoc | darwin_ios/src/x86/bdffc_i386.c:594-641 | the status is `RawStatus`; on `OK` the trampoline and fields are written, otherwise nothing |
| FfiI386.FindRawUnsupported | darwin_ios/src/x86/bdffc_i386.c:609-615 | the argument loop finds an unsupported argument exactly when one exists |
| FfiI386.GoEntryChain | darwin_ios/src/x86/bdffc_i386.c:230-239 | the Go stub taking the closure in EAX serves exactly the ABIs whose static chain is EAX (also lines 561-578) |
| FfiI386.GoClosure.constructor | darwin_ios/include/bdffc_arm64.h:436-440 | a fresh Go closure has no trampoline, cif or function |
| FfiI386.PrepGoClosure | darwin_ios/src/x86/bdffc_i386.c:555-585 | SYSV/MS_CDECL use the ECX stub, THISCALL/FASTCALL the EAX stub, STDCALL/PASCAL the STDCALL stub; REGISTER and others give `BAD_ABI` and write nothing |
| FfiWin64.PrepCifMachdep | darwin_osx/src/x86/bdffcw64_x86_64.c:53-109 | only WIN64/GNUW64 are accepted, else `BAD_ABI` with nothing written; `BAD_TYPEDEF` is never returned; `flags` is the return class and `bytes` the frame size |
| FfiWin64.AggregateReturn | darwin_osx/src/x86/bdffcw64_x86_64.c:77-95 | struct and complex results of size 8 give `UINT64`, 4/2/1 the small-struct codes, other sizes `STRUCT` |
| FfiWin64.LongDoubleReturn | darwin_osx/src/x86/bdffcw64_x86_64.c:72-76 | long double becomes `STRUCT` only under GNUW64 |
| FfiWin64.OtherReturn | darwin_osx/src/x86/bdffcw64_x86_64.c:67-97 | every other type keeps its own code |
| FfiWin64.StructFlagsIff | darwin_osx/src/x86/bdffcw64_x86_64.c:67-97 | the flags are `STRUCT` exactly for aggregates of other sizes and GNUW64 long double |
| FfiWin64.CifBytesAligned | darwin_osx/src/x86/bdffcw64_x86_64.c:102-106 | `cif->bytes` is a multiple of 8 |
| FfiWin64.CifBytesValue | darwin_osx/src/x86/bdffcw64_x86_64.c:102-106 | `bytes = 8 * max(4, nargs + (flags == STRUCT))`, so at least 32 |
| FfiWin64.ClosureArgSlots | darwin_osx/src/x86/bdffcw64_x86_64.c:278-305 | the loop fills `avalue[i]` from slot `i` plus one for a struct return |
| FfiWin64.SlotKinds | darwin_osx/src/x86/bdffcw64_x86_64.c:292-302 | float/double in slots below 4 come from `fargs`; sizes 1/2/4/8 are read in place; others by reference |
| FfiWin64.SlotsInFrame | darwin_osx/src/x86/bdffcw64_x86_64.c:102-106 | every argument slot lies inside the frame that `prep_cif` sized (also lines 278-305) |
| FfiWin64.TrampolineTargets | darwin_osx/src/x86/bdffcw64_x86_64.c:200-220 | the 24 bytes are the 16-byte template followed by the 8-byte entry address, which the template's rip-relative loads read |
| FfiWin64.Closure.constructor | darwin_ios/include/bdffc_arm64.h:308-318 | a fresh closure holds its trampoline buffer and no cif, function or user data |
| FfiWin64.PrepClosureLoc | darwin_osx/src/x86/bdffcw64_x86_64.c:193-227 | WIN64/GNUW64 write the trampoline and fields; others give `BAD_ABI` and write nothing |
| FfiWin64.GoClosure.constructor | darwin_ios/include/bdffc_arm64.h:436-440 | a fresh Go closure has no trampoline, cif or function |
| FfiWin64.PrepGoClosure | darwin_osx/src/x86/bdffcw64_x86_64.c:229-247 | WIN64/GNUW64 store the stub, cif and function; others give `BAD_ABI` and write nothing |

## Left out

- Formatting and echo of diagnostics (`vasprintf`, `fprintf` to stderr, the verbose prefix) are not modelled. A message is a datatype value with the formatted parameters, so equal strings are equal values. `errorMessage()` concatenation is left out with them.
- The `printf`/`fprintf` calls in `findExportedSymbol` and `macho_lookup_sym`, and the `wname` bookkeeping that only feeds them, are I/O and left out.
- Debug-only `assert`s (`assertNoError`, `assert(ordinal >= 1)`) are not modelled; a re-export ordinal of 0 wraps to index `0xFFFFFFFF` as in a release build.
- Queries.InstallName: keeps debug-build semantics. Its two `assert`s (`MachOParser.cpp:448,451`) are its precondition. In a release build the second `assert`, and the `getDylibInstallName` call inside it, vanish, so `result` is returned uninitialised; the model does not describe that build.
- The resolver call of `hasExportedSymbol` (`Kind::resolverOffset`) is a foreign call. It is unreachable because that kind is never produced; `Exports.StoreAddress` requires it away.
- The compile-time choice of magic and CPU type in `isMachO`, and `_s_archInfos`, are parameters.
- The host image list (`_dyld_image_count`, `_dyld_get_image_*`) is an input sequence of name, header and slide.
- The `handler` argument of `macho_dlsym`/`macho_lookup_sym` is unused by the source and absent here.
- Trie.TrieWalk: reads at or after the end of the trie (edge label, child count) report the model's own `TrieReadPastEnd` instead of reading out of bounds.
- Exports.FindExportedSymbol: re-exports are followed at most `fuel` images deep; deeper chains find nothing, where the source recurses without bound.
- Exports.HasExportedSymbol: inherits the same `fuel` bound.
- Dlfcn.MachoDlsym: inherits the same `fuel` bound through `hasExportedSymbol`.
- Dlfcn.ScanCommandsComplete: assumes no command of the unchecked walk sits at address 0 (`NonNullChain`), since a command there would reset the found pointer to null.
- Dlfcn.NotedStays: assumes the same `NonNullChain` hypothesis.
- `hmd_image_find_sym`'s command walk is unchecked in the source; the model follows it literally over total memory instead of validating it.
- `LoadCommands.ForEachLoadCommand`: a count above the commands actually present reads `cmdsize` past the area; here that read is a memory load and the bounds check rejects it.
- Where the model wraps pointer arithmetic at the pointer width, C's undefined pointer overflow is not distinguished from wrap-around.
- LoadCommands.Walk: `cmdsEnd = startCmds + sizeofcmds` and `cmd + cmdsize` are unbounded sums. They agree with the source's wrapped pointers while the command area lies inside the address space (`ViolationWrappedAgrees`). A header so close to the top of memory that `cmdsEnd` wraps is not modelled.
- Trie.Terminal: `children = p + terminalSize` (`MachOParser.cpp:1041-1042`) is compared with the end of the trie as an unbounded offset. A ULEB128 terminal size large enough to wrap the pointer past the top of memory passes the source's check and reads outside the trie; the model rejects it with the "extends past end" message. The child-offset test at line 1083 cannot differ, because line 1092 rejects the same offsets with the same message.
- The uninitialised `LinkEditInfo`/`FoundSymbol` a caller passes in are explicit parameters (`init`, `info`).
- Queries.VersionAt: an `LC_BUILD_VERSION` platform outside the five known values leaves the caller's `*platform` untouched (`MachOParser.cpp` lines 383-400); the model reports no platform (`None`) rather than the caller's uninitialised value, and `platform()` then returns whatever that value was, which the model cannot know.
- Null image headers in `macho_lookup_sym` are not modelled: the source dereferences the header before any check.
- X86_RET_* values come from `internal.h`, which is not part of this model; they are a symbolic datatype (`FfiI386.X86Ret`).
- `bdffc_x86_64.h` is not part of this model. Win64 type codes follow `bdffc_arm64.h`, where `LONGDOUBLE` equals `DOUBLE` (3), so the long-double return case also covers double.
- The FFI call paths (`bdffc_call`, `bdffc_call_int`, `bdffc_closure_inner`, `bdffc_raw_call`, `extend_basic_type`) use `alloca`, raw memory and assembly stubs. They are left out except the Win64 argument-slot loop.
- Assembly stub addresses and entry points are opaque parameters (`Stubs`).
- FfiWin64.CifBytesValue: `nargs * 8` overflowing `int` is undefined in C; the model wraps it to 32 bits, and the exact value is stated only for `nargs < 2^28`.
- FfiWin64.ClosureArgSlots: `avalue` is returned as a sequence of slot descriptions rather than pointers written into a caller array.
- Concurrency: the source takes no locks and the model is sequential.

## Findings

| source | as written | input that shows it | evidently intended | confidence | as-written member | corrected member |
|---|---|---|---|---|---|---|
| ffi-iOSDemo/MachO/MachOParser.cpp:1152-1157 | `read_sleb128` shifts each group by `bit` and sign-extends with `(-1LL) << bit` even when `bit >= 64`, which C++ leaves undefined | the 10-byte encoding of `INT64_MIN` (nine 0x80 bytes, then 0x7f): the sign extension shifts by 70 | groups and sign bits past bit 63 contribute nothing, so every `int64_t` round-trips | not executed | Leb128.SlebAsWrittenMinInt64 | Leb128.SlebRoundTrip |
