/**
 * The diagnostics sink of the Mach-O parser (class `Diagnostics` in
 * ffi-iOSDemo/MachO/MachOParser.h). Every fallible parsing step reports here
 * instead of aborting. Messages are kept in a set, so a message that is
 * reported twice is stored once.
 */
module Diag {
  import opened Wrappers
  import opened Bytes

  /** The load-command names that appear in link-edit error messages. */
  datatype CmdName =
    | DyldInfo | Symtab | Dysymtab | SegmentSplitInfo | FunctionStarts
    | DataInCode | CodeSignature | Uuid | VersionMin | BuildVersion
    | EncryptionInfo | EncryptionInfo64

  /**
   * One constructor per error text of the parser. The parameters are the
   * values that the text formats, so two reports are the same string exactly
   * when they are the same `Message`.
   */
  datatype Message =
    | FileTooShort
    | NotMachO
    | WrongCpuType
    | NoMagic
    | LoadCommandTooSmall(index: nat, size: nat)
    | LoadCommandTooLarge(index: nat, size: nat)
    | MalformedUleb
    | UlebTooBig
    | MalformedSleb
    | TrieTerminalPastEnd(terminalSize: nat)
    | TrieChildPastEnd
    | TrieChildOutOfRange(nodeOffset: nat)
    | TrieCycle(nodeOffset: nat)
    | TrieTooDeep
      /** Not a message of the source: a read at or after the end of the trie. */
    | TrieReadPastEnd
    | OrdinalOutOfRange(ordinal: nat, symbol: seq<byte>)
    | DependentNotFound(ordinal: nat, symbol: seq<byte>)
    | UnsupportedExportKind(flags: nat, nodeOffset: nat)
    | CommandSizeWrong(cmd: CmdName)
    | MultipleCommands(cmd: CmdName)
    | EncryptionInfoIn64Bit
    | EncryptionInfo64In32Bit
    | DysymtabWithoutSymtab

  /** The set of distinct messages in a sequence of reports. */
  function Recorded(msgs: seq<Message>): (s: set<Message>)
    ensures forall msg :: msg in s <==> msg in msgs
  {
    set msg | msg in msgs
  }

  /** The message carried by an optional report, as a set. */
  function OptRecorded(e: Option<Message>): (s: set<Message>)
    ensures e.None? <==> s == {}
    ensures forall msg :: msg in s <==> e == Some(msg)
  {
    if e.Some? then {e.value} else {}
  }

  class Diagnostics {
    /** Never set to a non-null value by the parser; only `ClearError` touches it. */
    var buffer: Option<seq<char>>
    var prefix: seq<char>
    var errors: set<Message>
    var verbose: bool

    constructor (verbose: bool)
      ensures this.verbose == verbose && prefix == [] && buffer == None && errors == {}
    {
      this.verbose := verbose;
      prefix := [];
      buffer := None;
      errors := {};
    }

    constructor WithPrefix(prefix: seq<char>, verbose: bool)
      ensures this.verbose == verbose && this.prefix == prefix && buffer == None && errors == {}
    {
      this.verbose := verbose;
      this.prefix := prefix;
      buffer := None;
      errors := {};
    }

    predicate HasError()
      reads this
    {
      buffer.Some? || errors != {}
    }

    predicate NoError()
      reads this
    {
      !HasError()
    }

    /** Records one message; a message already present is not duplicated. */
    method Error(msg: Message)
      modifies this`errors
      ensures errors == old(errors) + {msg}
      ensures HasError()
    {
      errors := errors + {msg};
    }

    /** Records every message of `msgs`, in order. */
    method ErrorAll(msgs: seq<Message>)
      modifies this`errors
      ensures errors == old(errors) + Recorded(msgs)
    {
      var i := 0;
      while i < |msgs|
        invariant 0 <= i <= |msgs|
        invariant errors == old(errors) + Recorded(msgs[..i])
      {
        assert Recorded(msgs[..i + 1]) == Recorded(msgs[..i]) + {msgs[i]} by {
          assert msgs[..i + 1] == msgs[..i] + [msgs[i]];
        }
        Error(msgs[i]);
        i := i + 1;
      }
      assert msgs[..i] == msgs;
    }

    /** Releases the buffer only: the recorded messages stay. */
    method ClearError()
      modifies this`buffer
      ensures buffer == None
      ensures HasError() <==> errors != {}
    {
      buffer := None;
    }
  }
}
