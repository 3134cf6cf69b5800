/**
 * MachOParser::trieWalk: the descent through the export trie of
 * `<mach-o/loader.h>` along the edges whose labels spell a symbol. The trie
 * is `data` (start at 0, end at `|data|`); positions are indices into it.
 * Each node holds a ULEB128 terminal size, that many bytes of export
 * information, a child count and, per child, a NUL-terminated edge label and
 * the ULEB128 offset of the child node.
 *
 * Reads the source performs at or after the end of the trie (the edge label,
 * the child count) report `TrieReadPastEnd` here instead; a child offset
 * whose ULEB128 runs off the end reports the source's "child node extends
 * past end of trie".
 */
module Trie {
  import opened Wrappers
  import opened Bytes
  import opened Diag
  import opened Leb128

  /** The size of `visitedNodeOffsets`. */
  const MAX_VISITED: nat := 128

  /** A C string: no NUL inside. */
  predicate CString(sym: seq<byte>)
  {
    forall i :: 0 <= i < |sym| ==> sym[i] != 0
  }

  /** `edge` continues the symbol at `s`: the next `|edge|` bytes of `sym` are that label. */
  predicate PrefixAt(edge: seq<byte>, sym: seq<byte>, s: nat)
  {
    s + |edge| <= |sym| && sym[s..s + |edge|] == edge
  }

  /** The position of the first NUL at or after `p`, if there is one before the end. */
  function EdgeEnd(data: seq<byte>, p: nat): (q: Option<nat>)
    requires p <= |data|
    ensures q.Some? ==> p <= q.value < |data| && data[q.value] == 0
    decreases |data| - p
  {
    if p == |data| then None
    else if data[p] == 0 then Some(p)
    else EdgeEnd(data, p + 1)
  }

  /** EdgeEnd finds the first NUL: none comes before it, and when there is none the trie holds none from `p` on. */
  lemma {:induction false} EdgeEndFirst(data: seq<byte>, p: nat)
    requires p <= |data|
    ensures var q := EdgeEnd(data, p);
      && (q.Some? ==> forall k :: p <= k < q.value ==> data[k] != 0)
      && (q.None? ==> forall k :: p <= k < |data| ==> data[k] != 0)
    decreases |data| - p
  {
    if p < |data| && data[p] != 0 {
      EdgeEndFirst(data, p + 1);
    }
  }

  /** The position just past the ULEB128 starting at `p`, if it ends before the end of the trie. */
  function UlebEnd(data: seq<byte>, p: nat): (q: Option<nat>)
    requires p <= |data|
    ensures q.Some? ==> p < q.value <= |data| && data[q.value - 1] < 128
    decreases |data| - p
  {
    if p == |data| then None
    else if data[p] < 128 then Some(p + 1)
    else UlebEnd(data, p + 1)
  }

  /** UlebEnd stops at the first byte without the continuation bit: every byte before it has the bit. */
  lemma {:induction false} UlebEndFirst(data: seq<byte>, p: nat)
    requires p <= |data|
    ensures var q := UlebEnd(data, p);
      && (q.Some? ==> forall k :: p <= k < q.value - 1 ==> data[k] >= 128)
      && (q.None? ==> forall k :: p <= k < |data| ==> data[k] >= 128)
    decreases |data| - p
  {
    if p < |data| && data[p] >= 128 {
      UlebEndFirst(data, p + 1);
    }
  }

  /** The node's terminal size: one byte below 128, else a ULEB128. */
  function TerminalSize(data: seq<byte>, p: nat): (t: Uleb)
    requires p < |data|
    ensures p < t.next <= |data|
  {
    if data[p] as nat > 127 then
      ReadUlebShape(data, p);
      ReadUleb(data, p)
    else Uleb(data[p] as nat, p + 1, None)
  }

  /** What the scan of a node's children finds. `Fail(None)` stops without a new report. */
  datatype ChildScan = NoMatch | Matched(edge: seq<byte>, offset: nat) | Fail(error: Option<Message>)

  /**
   * The children from `p` on, `remaining` of them: the first whose label
   * continues the symbol at `s` decides; a child whose label does not is
   * skipped with its offset.
   */
  function ScanChildren(data: seq<byte>, sym: seq<byte>, s: nat, p: nat, remaining: nat, hadError: bool): ChildScan
    requires p <= |data|
    decreases remaining, 1
  {
    if remaining == 0 then NoMatch
    else FromChild(data, sym, s, p, remaining, hadError)
  }

  /** The child at `p`, with `remaining` children left including it. */
  function FromChild(data: seq<byte>, sym: seq<byte>, s: nat, p: nat, remaining: nat, hadError: bool): ChildScan
    requires p <= |data| && remaining > 0
    decreases remaining, 0
  {
    match EdgeEnd(data, p)
    case None => Fail(Some(TrieReadPastEnd))
    case Some(q) =>
      if !PrefixAt(data[p..q], sym, s) then
        match UlebEnd(data, q + 1)
        case None => Fail(Some(TrieChildPastEnd))
        case Some(next) => ScanChildren(data, sym, s, next, remaining - 1, hadError)
      else ReadChild(data, p, q, hadError)
  }

  /**
   * The child whose label runs from `p` to the NUL at `q`: its ULEB128
   * offset follows the NUL and must be a non-zero position inside the trie.
   */
  function ReadChild(data: seq<byte>, p: nat, q: nat, hadError: bool): ChildScan
    requires p <= q < |data|
  {
    var u := ReadUleb(data, q + 1);
    if u.error.Some? then Fail(u.error)
    else if hadError then Fail(None)
    else if u.value == 0 || u.value > |data| then Fail(Some(TrieChildOutOfRange(u.value)))
    else Matched(data[p..q], u.value)
  }

  /** A child whose label does not continue the symbol is skipped. */
  lemma ScanChildrenSkip(data: seq<byte>, sym: seq<byte>, s: nat, p: nat, remaining: nat, hadError: bool, q: nat, next: nat)
    requires p <= |data| && remaining > 0
    requires EdgeEnd(data, p) == Some(q) && !PrefixAt(data[p..q], sym, s) && UlebEnd(data, q + 1) == Some(next)
    ensures ScanChildren(data, sym, s, p, remaining, hadError) == ScanChildren(data, sym, s, next, remaining - 1, hadError)
  {
  }

  /** One step of the children scan, case by case. */
  lemma ScanChildrenStep(data: seq<byte>, sym: seq<byte>, s: nat, p: nat, remaining: nat, hadError: bool)
    requires p <= |data| && remaining > 0
    ensures var r := ScanChildren(data, sym, s, p, remaining, hadError);
      && (EdgeEnd(data, p).None? ==> r == Fail(Some(TrieReadPastEnd)))
      && (EdgeEnd(data, p).Some? ==>
            var q := EdgeEnd(data, p).value;
            && (PrefixAt(data[p..q], sym, s) ==> r == ReadChild(data, p, q, hadError))
            && (!PrefixAt(data[p..q], sym, s) && UlebEnd(data, q + 1).None? ==> r == Fail(Some(TrieChildPastEnd)))
            && (!PrefixAt(data[p..q], sym, s) && UlebEnd(data, q + 1).Some? ==>
                  r == ScanChildren(data, sym, s, UlebEnd(data, q + 1).value, remaining - 1, hadError)))
  {
  }

  /**
   * The outcome of the walk from `node` with `s` bytes of the symbol
   * matched: the position returned, the report, the labels of the edges
   * followed from here, and the node the walk stops at.
   */
  datatype Walked = Walked(pos: Option<nat>, error: Option<Message>, labels: seq<seq<byte>>, node: nat)

  /**
   * The outer loop of trieWalk from `node`, with the offsets in `visited`
   * already entered. `hadError` is whether the diagnostics held an error
   * before the walk; a report during the walk ends it.
   */
  function NodeWalk(data: seq<byte>, sym: seq<byte>, node: nat, s: nat, visited: seq<nat>, hadError: bool): (w: Walked)
    requires 1 <= |visited| < MAX_VISITED
    decreases MAX_VISITED - |visited|, 1
  {
    if node >= |data| then Walked(None, None, [], node)
    else
      match Terminal(data, sym, node, s, hadError)
      case Some(w) => w
      case None =>
        var children := Children(data, node);
        Descend(data, sym, node, s, visited, hadError, ScanChildren(data, sym, s, children + 1, data[children] as nat, hadError))
  }

  /** The position of the child count: past the terminal size and the export information. */
  function Children(data: seq<byte>, node: nat): nat
    requires node < |data|
  {
    TerminalSize(data, node).next + TerminalSize(data, node).value
  }

  /**
   * The part of one iteration before the children: the walk ends here
   * (Some) when the terminal size cannot be read, when the symbol is used up
   * at a terminal node, or when the export information reaches the end of
   * the trie; None when the child count is inside the trie.
   */
  function Terminal(data: seq<byte>, sym: seq<byte>, node: nat, s: nat, hadError: bool): (w: Option<Walked>)
    requires node < |data|
    ensures w.None? ==> Children(data, node) < |data|
    ensures w.Some? ==> w.value.labels == [] && w.value.node == node
    ensures w.Some? && w.value.pos.Some? ==>
      && s == |sym| && w.value.error.None?
      && TerminalSize(data, node).value != 0 && w.value.pos.value == TerminalSize(data, node).next
  {
    var t := TerminalSize(data, node);
    if data[node] > 127 && (t.error.Some? || hadError) then Some(Walked(None, t.error, [], node))
    else if s == |sym| && t.value != 0 then Some(Walked(Some(t.next), None, [], node))
    else if t.next + t.value > |data| then Some(Walked(None, Some(TrieTerminalPastEnd(t.value)), [], node))
    else if t.next + t.value == |data| then Some(Walked(None, Some(TrieReadPastEnd), [], node))
    else None
  }

  /**
   * The end of one iteration of the outer loop: no child matched (the walk
   * ends), the scan failed, or the walk moves to the matched child unless it
   * was visited before or `visited` is full.
   */
  function Descend(data: seq<byte>, sym: seq<byte>, node: nat, s: nat, visited: seq<nat>, hadError: bool, scan: ChildScan): (w: Walked)
    requires 1 <= |visited| < MAX_VISITED
    decreases MAX_VISITED - |visited|, 0
  {
    match scan
    case NoMatch => Walked(None, None, [], node)
    case Fail(e) => Walked(None, e, [], node)
    case Matched(edge, off) =>
      if off in visited then Walked(None, Some(TrieCycle(off)), [], node)
      else if |visited| + 1 >= MAX_VISITED then Walked(None, Some(TrieTooDeep), [], node)
      else
        var w := NodeWalk(data, sym, off, s + |edge|, visited + [off], hadError);
        w.(labels := [edge] + w.labels)
  }

  /** trieWalk from the root, whose offset 0 is entered before the walk. */
  function TrieWalkSpec(data: seq<byte>, sym: seq<byte>, hadError: bool): Walked
  {
    NodeWalk(data, sym, 0, 0, [0], hadError)
  }

  function Concat(labels: seq<seq<byte>>): seq<byte>
  {
    if |labels| == 0 then [] else labels[0] + Concat(labels[1..])
  }

  /** Concatenation splits after the first label. */
  lemma ConcatCons(edge: seq<byte>, rest: seq<seq<byte>>)
    ensures Concat([edge] + rest) == edge + Concat(rest)
  {
    assert ([edge] + rest)[1..] == rest;
  }

  /** What the soundness of a walk from `node` with `s` bytes matched says about its outcome `w`. */
  predicate SoundFrom(data: seq<byte>, sym: seq<byte>, s: nat, visited: seq<nat>, w: Walked)
    requires s <= |sym|
  {
    && |visited| + |w.labels| < MAX_VISITED
    && (w.pos.Some? ==>
          && w.node < |data| && w.error.None?
          && TerminalSize(data, w.node).value != 0 && w.pos.value == TerminalSize(data, w.node).next
          && sym[s..] == Concat(w.labels))
  }

  /**
   * The walk only succeeds at a node with a non-zero terminal size, once the
   * labels of the edges followed spell the rest of the symbol, and returns
   * the position just past the terminal-size field. It follows fewer edges
   * than there are free entries in `visited`.
   */
  lemma {:induction false} NodeWalkSound(data: seq<byte>, sym: seq<byte>, node: nat, s: nat, visited: seq<nat>, hadError: bool)
    requires 1 <= |visited| < MAX_VISITED && s <= |sym|
    ensures SoundFrom(data, sym, s, visited, NodeWalk(data, sym, node, s, visited, hadError))
    decreases MAX_VISITED - |visited|, 1
  {
    if Descends(data, sym, node, s, hadError) {
      var children := Children(data, node);
      NodeWalkDescends(data, sym, node, s, visited, hadError, children);
      ScanMatchedPrefix(data, sym, s, children + 1, data[children] as nat, hadError);
      DescendSound(data, sym, node, s, visited, hadError, ScanChildren(data, sym, s, children + 1, data[children] as nat, hadError));
    } else {
      NodeWalkLeaf(data, sym, node, s, visited, hadError);
    }
  }

  /** The iteration at `node` reaches the children scan. */
  predicate Descends(data: seq<byte>, sym: seq<byte>, node: nat, s: nat, hadError: bool)
  {
    node < |data| && Terminal(data, sym, node, s, hadError).None?
  }

  lemma NodeWalkDescends(data: seq<byte>, sym: seq<byte>, node: nat, s: nat, visited: seq<nat>, hadError: bool, children: nat)
    requires 1 <= |visited| < MAX_VISITED && Descends(data, sym, node, s, hadError) && children == Children(data, node)
    ensures children < |data|
    ensures NodeWalk(data, sym, node, s, visited, hadError)
        == Descend(data, sym, node, s, visited, hadError, ScanChildren(data, sym, s, children + 1, data[children] as nat, hadError))
  {
  }

  /** An iteration that does not reach the children scan follows no edge and succeeds only at a terminal. */
  lemma NodeWalkLeaf(data: seq<byte>, sym: seq<byte>, node: nat, s: nat, visited: seq<nat>, hadError: bool)
    requires 1 <= |visited| < MAX_VISITED && s <= |sym| && !Descends(data, sym, node, s, hadError)
    ensures SoundFrom(data, sym, s, visited, NodeWalk(data, sym, node, s, visited, hadError))
  {
    var w := NodeWalk(data, sym, node, s, visited, hadError);
    assert w.labels == [];
    if w.pos.Some? {
      assert sym[s..] == [];
    }
  }

  lemma {:induction false} DescendSound(data: seq<byte>, sym: seq<byte>, node: nat, s: nat, visited: seq<nat>, hadError: bool, scan: ChildScan)
    requires 1 <= |visited| < MAX_VISITED && s <= |sym|
    requires scan.Matched? ==> PrefixAt(scan.edge, sym, s)
    ensures SoundFrom(data, sym, s, visited, Descend(data, sym, node, s, visited, hadError, scan))
    decreases MAX_VISITED - |visited|, 0
  {
    if scan.Matched? && scan.offset !in visited && |visited| + 1 < MAX_VISITED {
      var s' := s + |scan.edge|;
      var rest := NodeWalk(data, sym, scan.offset, s', visited + [scan.offset], hadError);
      assert Descend(data, sym, node, s, visited, hadError, scan) == rest.(labels := [scan.edge] + rest.labels);
      NodeWalkSound(data, sym, scan.offset, s', visited + [scan.offset], hadError);
      ConcatCons(scan.edge, rest.labels);
      assert sym[s..] == sym[s..s'] + sym[s'..];
    }
  }

  /** A matched child's label continues the symbol. */
  lemma {:induction false} ScanMatchedPrefix(data: seq<byte>, sym: seq<byte>, s: nat, p: nat, remaining: nat, hadError: bool)
    requires p <= |data|
    ensures var r := ScanChildren(data, sym, s, p, remaining, hadError);
      r.Matched? ==> PrefixAt(r.edge, sym, s) && 0 < r.offset <= |data|
    decreases remaining
  {
    if remaining > 0 {
      match EdgeEnd(data, p)
      case None =>
      case Some(q) =>
        if !PrefixAt(data[p..q], sym, s) {
          match UlebEnd(data, q + 1)
          case None =>
          case Some(next) => ScanMatchedPrefix(data, sym, s, next, remaining - 1, hadError);
        }
    }
  }

  /**
   * trieWalk's result for a symbol: when it returns a position, the labels
   * followed from the root spell the whole symbol, the node reached has a
   * non-zero terminal size and the position is just past that size; at
   * most 126 edges are followed.
   */
  lemma TrieWalkSound(data: seq<byte>, sym: seq<byte>, hadError: bool)
    ensures var w := TrieWalkSpec(data, sym, hadError);
      && |w.labels| <= 126
      && (w.pos.Some? ==>
            && Concat(w.labels) == sym && w.node < |data|
            && TerminalSize(data, w.node).value != 0 && w.pos.value == TerminalSize(data, w.node).next)
  {
    NodeWalkSound(data, sym, 0, 0, [0], hadError);
    assert sym[0..] == sym;
  }

  // ------------------------------------------------------------------ method

  /** A label extended by one byte continues the symbol when the label does and the byte is the next one. */
  lemma PrefixAtSnoc(a: seq<byte>, c: byte, sym: seq<byte>, s: nat)
    ensures PrefixAt(a + [c], sym, s) <==> PrefixAt(a, sym, s) && s + |a| < |sym| && sym[s + |a|] == c
  {
    if PrefixAt(a + [c], sym, s) {
      assert sym[s..s + |a|] == (a + [c])[..|a|];
    }
    if PrefixAt(a, sym, s) && s + |a| < |sym| && sym[s + |a|] == c {
      assert sym[s..s + |a| + 1] == sym[s..s + |a|] + [sym[s + |a|]];
    }
  }

  /**
   * The edge-label scan of trieWalk: advances to the label's NUL, comparing
   * it with the symbol from `s` until the first difference. `ok` is false
   * when the end of the trie comes first.
   */
  method ScanEdge(data: seq<byte>, sym: seq<byte>, s: nat, p0: nat) returns (ok: bool, p: nat, wrongEdge: bool, ss: nat)
    requires p0 <= |data| && s <= |sym|
    ensures ok <==> EdgeEnd(data, p0).Some?
    ensures ok ==> p == EdgeEnd(data, p0).value
    ensures ok ==> (!wrongEdge <==> PrefixAt(data[p0..p], sym, s))
    ensures ok && !wrongEdge ==> ss == s + (p - p0)
  {
    p, ss, wrongEdge := p0, s, false;
    while p < |data| && data[p] != 0
      invariant p0 <= p <= |data|
      invariant EdgeEnd(data, p0) == EdgeEnd(data, p)
      invariant !wrongEdge <==> PrefixAt(data[p0..p], sym, s)
      invariant !wrongEdge ==> ss == s + (p - p0)
      decreases |data| - p
    {
      var c := data[p];
      assert data[p0..p + 1] == data[p0..p] + [c];
      PrefixAtSnoc(data[p0..p], c, sym, s);
      if !wrongEdge {
        if ss >= |sym| || c != sym[ss] {
          wrongEdge := true;
        }
        ss := ss + 1;
      }
      p := p + 1;
    }
    ok := p < |data|;
  }

  /** The skip over a ULEB128 child offset: past every byte with the high bit, then one more. */
  method SkipUleb(data: seq<byte>, p0: nat) returns (ok: bool, p: nat)
    requires p0 <= |data|
    ensures ok <==> UlebEnd(data, p0).Some?
    ensures ok ==> p == UlebEnd(data, p0).value
  {
    p := p0;
    while p < |data| && data[p] >= 128
      invariant p0 <= p <= |data|
      invariant UlebEnd(data, p0) == UlebEnd(data, p)
      decreases |data| - p
    {
      p := p + 1;
    }
    if p == |data| {
      return false, p;
    }
    ok, p := true, p + 1;
  }

  /**
   * The loop over a node's children: each edge label is scanned; a label that
   * continues the symbol reads the child offset and ends the loop, any
   * other is skipped with its offset.
   */
  method ScanChildrenLoop(diag: Diagnostics, data: seq<byte>, sym: seq<byte>, s: nat, p0: nat, count: nat, ghost hadError: bool)
    returns (r: ChildScan)
    requires p0 <= |data| && s <= |sym| && diag.HasError() == hadError
    modifies diag`errors
    ensures var spec := ScanChildren(data, sym, s, p0, count, hadError);
      && (r.Fail? <==> spec.Fail?)
      && (!r.Fail? ==> r == spec)
      && diag.errors == old(diag.errors) + (if spec.Fail? then OptRecorded(spec.error) else {})
  {
    ghost var spec := ScanChildren(data, sym, s, p0, count, hadError);
    var p: nat := p0;
    var childrenRemaining: nat := count;
    while childrenRemaining > 0
      invariant p <= |data|
      invariant ScanChildren(data, sym, s, p, childrenRemaining, hadError) == spec
      invariant diag.errors == old(diag.errors) && diag.HasError() == hadError
      decreases childrenRemaining
    {
      var done, next;
      done, r, next := ScanChild(diag, data, sym, s, p, childrenRemaining, hadError);
      if done {
        return;
      }
      p := next;
      childrenRemaining := childrenRemaining - 1;
    }
    return NoMatch;
  }

  /**
   * One child of the loop: either the scan ends here (`done`, with the
   * outcome `r`) or the child is skipped and the next one starts at `next`.
   */
  method ScanChild(diag: Diagnostics, data: seq<byte>, sym: seq<byte>, s: nat, p: nat, remaining: nat, ghost hadError: bool)
    returns (done: bool, r: ChildScan, next: nat)
    requires p <= |data| && s <= |sym| && remaining > 0 && diag.HasError() == hadError
    modifies diag`errors
    ensures var spec := ScanChildren(data, sym, s, p, remaining, hadError);
      && (done ==> (r.Fail? <==> spec.Fail?) && (!r.Fail? ==> r == spec))
      && (done ==> diag.errors == old(diag.errors) + (if spec.Fail? then OptRecorded(spec.error) else {}))
      && (!done ==> next <= |data| && diag.errors == old(diag.errors))
      && (!done ==> ScanChildren(data, sym, s, next, remaining - 1, hadError) == spec)
  {
    var ok, q, wrongEdge, ss := ScanEdge(data, sym, s, p);
    if !ok {
      ScanChildrenStep(data, sym, s, p, remaining, hadError);
      diag.Error(TrieReadPastEnd);
      return true, Fail(Some(TrieReadPastEnd)), 0;
    }
    if !wrongEdge {
      ScanChildrenStep(data, sym, s, p, remaining, hadError);
      r := ReadChildAt(diag, data, p, q);
      return true, r, 0;
    }
    var skipped;
    skipped, next := SkipUleb(data, q + 1);
    if !skipped {
      ScanChildrenStep(data, sym, s, p, remaining, hadError);
      diag.Error(TrieChildPastEnd);
      return true, Fail(Some(TrieChildPastEnd)), 0;
    }
    ScanChildrenSkip(data, sym, s, p, remaining, hadError, q, next);
    done, r := false, NoMatch;
  }

  /** The read of a matched child's offset, with its range check. */
  method ReadChildAt(diag: Diagnostics, data: seq<byte>, p: nat, q: nat) returns (r: ChildScan)
    requires p <= q < |data|
    modifies diag`errors
    ensures var spec := ReadChild(data, p, q, old(diag.HasError()));
      && (r.Fail? <==> spec.Fail?)
      && (!r.Fail? ==> r == spec)
      && diag.errors == old(diag.errors) + (if spec.Fail? then OptRecorded(spec.error) else {})
  {
    var nodeOffset, after := ReadUleb128(diag, data, q + 1);
    if diag.HasError() {
      return Fail(None);
    }
    if nodeOffset == 0 || nodeOffset > |data| {
      diag.Error(TrieChildOutOfRange(nodeOffset));
      return Fail(Some(TrieChildOutOfRange(nodeOffset)));
    }
    return Matched(data[p..q], nodeOffset);
  }

  /** Whether `off` is among the first `count` entries of `visited`: the cycle check's loop. */
  method AlreadyVisited(visited: array<nat>, count: nat, off: nat) returns (found: bool)
    requires count <= visited.Length
    ensures found <==> off in visited[..count]
  {
    for i := 0 to count
      invariant off !in visited[..i]
    {
      assert visited[..i + 1] == visited[..i] + [visited[i]];
      if visited[i] == off {
        return true;
      }
    }
    assert visited[..count] == visited[..count];
    return false;
  }

  /**
   * The start of one iteration of trieWalk's loop: reads the terminal size
   * at `p` and either ends the walk (`stop`, with the result `r`) or gives
   * the position of the child count.
   */
  method CheckTerminal(diag: Diagnostics, data: seq<byte>, sym: seq<byte>, s: nat, p: nat, ghost hadError: bool)
    returns (stop: bool, r: Option<nat>, children: nat)
    requires p < |data| && diag.HasError() == hadError
    modifies diag`errors
    ensures var w := Terminal(data, sym, p, s, hadError);
      && (stop <==> w.Some?)
      && (stop ==> r == w.value.pos && diag.errors == old(diag.errors) + OptRecorded(w.value.error))
      && (!stop ==> children == Children(data, p) && diag.errors == old(diag.errors))
  {
    var terminalSize: nat := data[p] as nat;
    var q: nat := p + 1;
    if terminalSize > 127 {
      ReadUlebShape(data, p);
      terminalSize, q := ReadUleb128(diag, data, p);
      if diag.HasError() {
        return true, None, 0;
      }
    }
    if s == |sym| && terminalSize != 0 {
      return true, Some(q), 0;
    }
    if q + terminalSize > |data| {
      diag.Error(TrieTerminalPastEnd(terminalSize));
      return true, None, 0;
    }
    if q + terminalSize == |data| {
      diag.Error(TrieReadPastEnd);
      return true, None, 0;
    }
    return false, None, q + terminalSize;
  }

  /** An iteration that stops before the children ends the walk with the outcome Terminal gives. */
  lemma NodeWalkStops(data: seq<byte>, sym: seq<byte>, node: nat, s: nat, visited: seq<nat>, hadError: bool)
    requires 1 <= |visited| < MAX_VISITED && node < |data| && Terminal(data, sym, node, s, hadError).Some?
    ensures NodeWalk(data, sym, node, s, visited, hadError) == Terminal(data, sym, node, s, hadError).value
  {
  }

  /** A walk from outside the trie finds nothing and reports nothing. */
  lemma NodeWalkPastEnd(data: seq<byte>, sym: seq<byte>, node: nat, s: nat, visited: seq<nat>, hadError: bool)
    requires 1 <= |visited| < MAX_VISITED && node >= |data|
    ensures NodeWalk(data, sym, node, s, visited, hadError) == Walked(None, None, [], node)
  {
  }

  /** A children scan that matches nothing or fails ends the walk, with the scan's report. */
  lemma DescendEnds(data: seq<byte>, sym: seq<byte>, node: nat, s: nat, visited: seq<nat>, hadError: bool, scan: ChildScan)
    requires 1 <= |visited| < MAX_VISITED && !scan.Matched?
    ensures var w := Descend(data, sym, node, s, visited, hadError, scan);
      w.pos.None? && w.error == (if scan.Fail? then scan.error else None)
  {
  }

  /** A matched child visited before, or one that would overflow `visited`, ends the walk with a report. */
  lemma DescendRefused(data: seq<byte>, sym: seq<byte>, node: nat, s: nat, visited: seq<nat>, hadError: bool, edge: seq<byte>, off: nat)
    requires 1 <= |visited| < MAX_VISITED && (off in visited || |visited| + 1 >= MAX_VISITED)
    ensures var w := Descend(data, sym, node, s, visited, hadError, Matched(edge, off));
      && w.pos.None?
      && w.error == Some(if off in visited then TrieCycle(off) else TrieTooDeep)
  {
  }

  /** Moving to a matched child that is new and fits in `visited` continues the walk from it. */
  lemma DescendMatched(data: seq<byte>, sym: seq<byte>, node: nat, s: nat, visited: seq<nat>, hadError: bool, edge: seq<byte>, off: nat)
    requires 1 <= |visited| && |visited| + 1 < MAX_VISITED && off !in visited
    ensures var w := Descend(data, sym, node, s, visited, hadError, Matched(edge, off));
      var next := NodeWalk(data, sym, off, s + |edge|, visited + [off], hadError);
      w.pos == next.pos && w.error == next.error
  {
    var next := NodeWalk(data, sym, off, s + |edge|, visited + [off], hadError);
    assert Descend(data, sym, node, s, visited, hadError, Matched(edge, off)) == next.(labels := [edge] + next.labels);
  }

  /**
   * MachOParser::trieWalk: the position of the export information of `sym`,
   * or None; reports go to `diag`, and an error already in `diag` ends the
   * walk at the first ULEB128 read.
   */
  method TrieWalk(diag: Diagnostics, data: seq<byte>, sym: seq<byte>) returns (r: Option<nat>)
    requires CString(sym)
    modifies diag`errors
    ensures r == TrieWalkSpec(data, sym, old(diag.HasError())).pos
    ensures diag.errors == old(diag.errors) + OptRecorded(TrieWalkSpec(data, sym, old(diag.HasError())).error)
  {
    ghost var hadError := diag.HasError();
    ghost var top := TrieWalkSpec(data, sym, hadError);
    var visited := new nat[MAX_VISITED];
    visited[0] := 0;
    var count: nat := 1;
    var p: nat := 0;
    var s: nat := 0;
    ghost var seen: seq<nat> := [0];
    assert visited[..count] == seen;
    while p < |data|
      invariant 1 <= count < MAX_VISITED && s <= |sym|
      invariant visited.Length == MAX_VISITED && |seen| == count && visited[..count] == seen
      invariant NodeWalk(data, sym, p, s, seen, hadError).pos == top.pos
      invariant NodeWalk(data, sym, p, s, seen, hadError).error == top.error
      invariant diag.errors == old(diag.errors) && diag.HasError() == hadError
      decreases MAX_VISITED - count + (if p < |data| then 1 else 0)
    {
      var stop, result;
      stop, result, p, s, count, seen := WalkNode(diag, data, sym, visited, count, p, s, seen, hadError);
      if stop {
        return result;
      }
    }
    NodeWalkPastEnd(data, sym, p, s, seen, hadError);
    return None;
  }

  /**
   * One iteration of trieWalk's loop at `node`, with the offsets `seen` in
   * the first `count` entries of `visited`: either the walk ends here
   * (`stop`, with the result `r`) or it moves on to `next` with `s'` bytes
   * of the symbol matched, the walk from there having the same outcome.
   */
  method WalkNode(diag: Diagnostics, data: seq<byte>, sym: seq<byte>, visited: array<nat>, count: nat, node: nat, s: nat,
                  ghost seen: seq<nat>, ghost hadError: bool)
    returns (stop: bool, r: Option<nat>, next: nat, s': nat, count': nat, ghost seen': seq<nat>)
    requires visited.Length == MAX_VISITED && 1 <= count < MAX_VISITED && |seen| == count && visited[..count] == seen
    requires node < |data| && s <= |sym| && diag.HasError() == hadError
    modifies diag`errors, visited
    ensures var w := NodeWalk(data, sym, node, s, seen, hadError);
      && (stop ==> r == w.pos && diag.errors == old(diag.errors) + OptRecorded(w.error))
      && (!stop ==> diag.errors == old(diag.errors))
      && (!stop ==> 1 <= count' < MAX_VISITED && s' <= |sym| && |seen'| == count' && visited[..count'] == seen')
      && (!stop ==> (count' == count && next >= |data|) || count' == count + 1)
      && (!stop ==> NodeWalk(data, sym, next, s', seen', hadError).pos == w.pos)
      && (!stop ==> NodeWalk(data, sym, next, s', seen', hadError).error == w.error)
  {
    var result, children;
    stop, result, children := CheckTerminal(diag, data, sym, s, node, hadError);
    if stop {
      NodeWalkStops(data, sym, node, s, seen, hadError);
      return true, result, 0, 0, 0, [];
    }
    NodeWalkDescends(data, sym, node, s, seen, hadError, children);
    stop, r, next, s', count', seen' := FollowChild(diag, data, sym, visited, count, node, s, seen, hadError, children);
  }

  /**
   * The children scan of an iteration and the move to the matched child;
   * `children` is the position of the child count.
   */
  method FollowChild(diag: Diagnostics, data: seq<byte>, sym: seq<byte>, visited: array<nat>, count: nat, node: nat, s: nat,
                     ghost seen: seq<nat>, ghost hadError: bool, children: nat)
    returns (stop: bool, r: Option<nat>, next: nat, s': nat, count': nat, ghost seen': seq<nat>)
    requires visited.Length == MAX_VISITED && 1 <= count < MAX_VISITED && |seen| == count && visited[..count] == seen
    requires children < |data| && s <= |sym| && diag.HasError() == hadError
    modifies diag`errors, visited
    ensures var w := Descend(data, sym, node, s, seen, hadError, ScanChildren(data, sym, s, children + 1, data[children] as nat, hadError));
      && (stop ==> r == w.pos && diag.errors == old(diag.errors) + OptRecorded(w.error))
      && (!stop ==> diag.errors == old(diag.errors))
      && (!stop ==> 1 <= count' < MAX_VISITED && s' <= |sym| && |seen'| == count' && visited[..count'] == seen')
      && (!stop ==> (count' == count && next >= |data|) || count' == count + 1)
      && (!stop ==> NodeWalk(data, sym, next, s', seen', hadError).pos == w.pos)
      && (!stop ==> NodeWalk(data, sym, next, s', seen', hadError).error == w.error)
  {
    ghost var spec := ScanChildren(data, sym, s, children + 1, data[children] as nat, hadError);
    var scan := ScanChildrenLoop(diag, data, sym, s, children + 1, data[children] as nat, hadError);
    if scan.Fail? {
      DescendEnds(data, sym, node, s, seen, hadError, spec);
      return true, None, 0, 0, 0, [];
    }
    if scan.NoMatch? {
      DescendEnds(data, sym, node, s, seen, hadError, spec);
      NodeWalkPastEnd(data, sym, |data|, s, seen, hadError);
      return false, None, |data|, s, count, seen;
    }
    ScanMatchedPrefix(data, sym, s, children + 1, data[children] as nat, hadError);
    stop, r, next, s', count', seen' := Enter(diag, data, sym, visited, count, node, s, seen, hadError, scan.edge, scan.offset);
  }

  /**
   * The move to the matched child at `off` along `edge`: the cycle check
   * against the offsets entered so far, then the entry of `off`, which
   * fails once `visited` is full.
   */
  method Enter(diag: Diagnostics, data: seq<byte>, sym: seq<byte>, visited: array<nat>, count: nat, node: nat, s: nat,
               ghost seen: seq<nat>, ghost hadError: bool, edge: seq<byte>, off: nat)
    returns (stop: bool, r: Option<nat>, next: nat, s': nat, count': nat, ghost seen': seq<nat>)
    requires visited.Length == MAX_VISITED && 1 <= count < MAX_VISITED && |seen| == count && visited[..count] == seen
    requires PrefixAt(edge, sym, s)
    modifies diag`errors, visited
    ensures var w := Descend(data, sym, node, s, seen, hadError, Matched(edge, off));
      && (stop ==> r == w.pos && diag.errors == old(diag.errors) + OptRecorded(w.error))
      && (!stop ==> diag.errors == old(diag.errors))
      && (!stop ==> 1 <= count' < MAX_VISITED && s' <= |sym| && |seen'| == count' && visited[..count'] == seen')
      && (!stop ==> count' == count + 1)
      && (!stop ==> NodeWalk(data, sym, next, s', seen', hadError).pos == w.pos)
      && (!stop ==> NodeWalk(data, sym, next, s', seen', hadError).error == w.error)
  {
    var cycle := AlreadyVisited(visited, count, off);
    if cycle {
      DescendRefused(data, sym, node, s, seen, hadError, edge, off);
      diag.Error(TrieCycle(off));
      return true, None, 0, 0, 0, [];
    }
    visited[count] := off;
    if count + 1 >= MAX_VISITED {
      DescendRefused(data, sym, node, s, seen, hadError, edge, off);
      diag.Error(TrieTooDeep);
      return true, None, 0, 0, 0, [];
    }
    DescendMatched(data, sym, node, s, seen, hadError, edge, off);
    assert visited[..count + 1] == seen + [off];
    return false, None, off, s + |edge|, count + 1, seen + [off];
  }
}
