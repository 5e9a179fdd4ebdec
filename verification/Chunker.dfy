/** The whole chunker (`chunk_blocks_inner`), token-offset retiling, and the total that ingest stores. */
module Chunker {
  import opened Wrappers
  import opened Utf8
  import opened ChunkSplit
  import opened KeptBlocks
  import opened ChunkParents
  import opened ChunkRuns
  import opened ChunkExact
  import opened ChunkWords
  import opened ChunkPacking

  // ----- retiling -----

  predicate TokensMeet(chunks: seq<Chunk>, i: int) {
    0 < i < |chunks| && chunks[i - 1].tokenEnd == chunks[i].tokenStart
  }

  /** The token ranges meet end to start and run from `lo` to `hi`. */
  ghost predicate TokensTile(chunks: seq<Chunk>, lo: int, hi: int) {
    && (forall i :: 0 < i < |chunks| ==> TokensMeet(chunks, i))
    && (if chunks == [] then lo == hi else chunks[0].tokenStart == lo && chunks[|chunks| - 1].tokenEnd == hi)
  }

  ghost predicate EndsIncrease(chunks: seq<Chunk>) {
    forall i, j :: 0 <= i < j < |chunks| ==> chunks[i].charEnd < chunks[j].charEnd
  }

  /** Tokens of the parent's text before `boundary`; none for an empty prefix. */
  function PrefixTokens(src: Bytes, start: nat, boundary: nat, count: Counter): nat {
    var end := if boundary < |src| then boundary else |src|;
    if end <= start then 0 else count(src[start..end])
  }

  /** Where the tile of child `i` starts: past every earlier child's end. */
  function TileStart(src: Bytes, start: nat, children: seq<Chunk>, i: nat): nat
    requires i <= |children|
  {
    if i == 0 then start
    else
      var end := if children[i - 1].charEnd < |src| then children[i - 1].charEnd else |src|;
      var before := TileStart(src, start, children, i - 1);
      if end < before then before else end
  }

  function RetiledChild(src: Bytes, start: nat, count: Counter, lo: int, hi: int, children: seq<Chunk>, i: nat): Chunk
    requires i < |children|
  {
    children[i].(
      tokenStart := lo + PrefixTokens(src, start, TileStart(src, start, children, i), count),
      tokenEnd := if i == |children| - 1 then hi else lo + PrefixTokens(src, start, children[i].charEnd, count))
  }

  /** Reassigns token offsets in place, leaving everything else of each child alone. */
  method RetileChildTokenOffsets(src: Bytes, start: nat, count: Counter, lo: int, hi: int, children: array<Chunk>)
    modifies children
    ensures forall i :: 0 <= i < children.Length ==>
      children[i] == RetiledChild(src, start, count, lo, hi, old(children[..]), i)
  {
    if children.Length == 0 {
      return;
    }
    ghost var was := children[..];
    var n := children.Length - 1;
    var tileStart := start;
    for i := 0 to n
      invariant tileStart == TileStart(src, start, was, i)
      invariant forall j :: i <= j < children.Length ==> children[j] == was[j]
      invariant forall j :: 0 <= j < i ==> children[j] == RetiledChild(src, start, count, lo, hi, was, j)
    {
      var childEnd := if children[i].charEnd < |src| then children[i].charEnd else |src|;
      children[i] := children[i].(tokenStart := lo + PrefixTokens(src, start, tileStart, count),
                                  tokenEnd := lo + PrefixTokens(src, start, childEnd, count));
      tileStart := if childEnd < tileStart then tileStart else childEnd;
    }
    children[n] := children[n].(tokenStart := lo + PrefixTokens(src, start, tileStart, count), tokenEnd := hi);
  }

  lemma {:induction false} TileStartIsPreviousEnd(src: Bytes, start: nat, children: seq<Chunk>, i: nat)
    requires 0 < i <= |children| && EndsIncrease(children)
    requires EndsWithin(children, start, |src|)
    ensures TileStart(src, start, children, i) == children[i - 1].charEnd
  {
    if i > 1 {
      TileStartIsPreviousEnd(src, start, children, i - 1);
    }
  }

  ghost predicate EndsWithin(children: seq<Chunk>, start: nat, end: nat) {
    forall k :: 0 <= k < |children| ==> start < children[k].charEnd <= end
  }

  lemma RetiledChildTokens(src: Bytes, start: nat, count: Counter, lo: int, hi: int, children: seq<Chunk>, i: nat)
    requires i < |children| && EndsIncrease(children) && EndsWithin(children, start, |src|)
    ensures RetiledChild(src, start, count, lo, hi, children, i).tokenStart
         == lo + if i == 0 then 0 else count(src[start..children[i - 1].charEnd])
    ensures RetiledChild(src, start, count, lo, hi, children, i).tokenEnd
         == if i == |children| - 1 then hi else lo + count(src[start..children[i].charEnd])
  {
    if i > 0 {
      TileStartIsPreviousEnd(src, start, children, i);
    }
  }

  ghost predicate Retiled(src: Bytes, start: nat, count: Counter, lo: int, hi: int, children: seq<Chunk>,
                          retiled: seq<Chunk>) {
    && |retiled| == |children|
    && forall i :: 0 <= i < |children| ==> retiled[i] == RetiledChild(src, start, count, lo, hi, children, i)
  }

  /** Children whose ends increase are retiled to meet end to start over exactly the parent's range, however much
      their spans overlap. */
  lemma RetiledTokensTile(src: Bytes, start: nat, count: Counter, lo: int, hi: int, children: seq<Chunk>,
                          retiled: seq<Chunk>)
    requires children != [] && EndsIncrease(children) && EndsWithin(children, start, |src|)
    requires Retiled(src, start, count, lo, hi, children, retiled)
    ensures TokensTile(retiled, lo, hi)
  {
    var n := |retiled| - 1;
    RetiledChildTokens(src, start, count, lo, hi, children, 0);
    RetiledChildTokens(src, start, count, lo, hi, children, n);
    forall i | 0 < i < |retiled|
      ensures TokensMeet(retiled, i)
    {
      RetiledChildTokens(src, start, count, lo, hi, children, i - 1);
      RetiledChildTokens(src, start, count, lo, hi, children, i);
    }
  }

  /** No tile is negative when longer prefixes of the parent never cost less. */
  lemma RetiledWidths(src: Bytes, start: nat, end: nat, count: Counter, lo: int, children: seq<Chunk>,
                      retiled: seq<Chunk>, i: nat)
    requires i < |children| && EndsIncrease(children) && start <= end <= |src| && EndsWithin(children, start, end)
    requires PrefixMonotone(count, src[start..end])
    requires Retiled(src, start, count, lo, lo + count(src[start..end]), children, retiled)
    ensures retiled[i].tokenStart <= retiled[i].tokenEnd
  {
    var text := src[start..end];
    RetiledChildTokens(src, start, count, lo, lo + count(text), children, i);
    assert EndsWithin(children, start, |src|);
    var q := children[i].charEnd - start;
    SliceHead(src, start, end, children[i].charEnd);
    assert text[..end - start] == text;
    assert count(text[..q]) <= count(text[..end - start]);
    if i > 0 {
      var p := children[i - 1].charEnd - start;
      assert children[i - 1].charEnd < children[i].charEnd;
      SliceHead(src, start, end, children[i - 1].charEnd);
      assert count(text[..p]) <= count(text[..q]);
    }
  }

  // ----- the result -----

  datatype Group = Group(parent: Chunk, children: seq<Chunk>)

  function Flatten(groups: seq<Group>): seq<Chunk> {
    if groups == [] then []
    else Flatten(groups[..|groups| - 1]) + [groups[|groups| - 1].parent] + groups[|groups| - 1].children
  }

  /** Child `i` is a source slice inside its parent. */
  ghost predicate IsSliceWithin(src: Bytes, g: Group, i: int) {
    && 0 <= i < |g.children| && IsSlice(src, g.children[i])
    && g.parent.charStart <= g.children[i].charStart && g.children[i].charEnd <= g.parent.charEnd
  }

  ghost predicate Increases(children: seq<Chunk>, i: int, j: int) {
    0 <= i < j < |children| ==>
      children[i].charStart < children[j].charStart && children[i].charEnd < children[j].charEnd
  }

  /** A parent is a source slice; its children are slices inside it, strictly increasing at both ends, that start
      where it starts and end where it ends; and their token ranges tile its own, whose width is its count. */
  ghost predicate WellFormedGroup(src: Bytes, count: Counter, g: Group, ordinal: nat) {
    && IsSlice(src, g.parent) && g.parent.level == 0 && g.parent.parent.None?
    && g.children != [] && ChildrenOf(g.children, ordinal)
    && (forall i :: 0 <= i < |g.children| ==> IsSliceWithin(src, g, i))
    && (forall i, j :: Increases(g.children, i, j))
    && g.children[0].charStart == g.parent.charStart
    && g.children[|g.children| - 1].charEnd == g.parent.charEnd
    && g.parent.tokenEnd - g.parent.tokenStart == count(g.parent.text)
    && TokensTile(g.children, g.parent.tokenStart, g.parent.tokenEnd)
  }

  predicate ParentsMeet(groups: seq<Group>, k: int) {
    0 < k < |groups| && groups[k - 1].parent.tokenEnd == groups[k].parent.tokenStart
  }

  ghost predicate WellFormedGroups(src: Bytes, count: Counter, groups: seq<Group>) {
    && EachWellFormed(src, count, groups)
    && (forall j, k :: 0 <= j < k < |groups| ==> groups[j].parent.charEnd <= groups[k].parent.charStart)
    && (forall k :: 0 < k < |groups| ==> ParentsMeet(groups, k))
    && (groups != [] ==> groups[0].parent.tokenStart == 0)
  }

  ghost predicate InGroups(groups: seq<Group>, p: nat) {
    exists k :: 0 <= k < |groups| && groups[k].parent.charStart <= p < groups[k].parent.charEnd
      && InChildren(groups[k].children, p)
  }

  ghost predicate GroupsBounded(count: Counter, groups: seq<Group>) {
    forall k :: 0 <= k < |groups| ==> count(groups[k].parent.text) <= PARENT_LIMIT && Bounded(count, groups[k].children)
  }

  datatype Outcome = Panicked | Chunks(chunks: seq<Chunk>)

  /** One parent with its retiled children, `run` being the children before retiling. */
  method BuildGroup(src: Bytes, win: ParentWindow, count: Counter, ordinal: nat, tokenStart: int)
    returns (g: Group, panicked: bool, ghost run: seq<Chunk>)
    requires SpansItsBlocks(src, win)
    ensures !panicked ==> WellFormedGroup(src, count, g, ordinal)
    ensures !panicked ==> SpansWindow(src, count, win, g) && g.parent.tokenStart == tokenStart
    ensures !panicked ==> MadeFrom(src, count, win, ordinal, g)
    ensures !panicked && Monotone(count, src) ==> NonNegative(g)
    ensures !panicked && Assumed(src, count, win.blocks) ==> Bounded(count, g.children)
    ensures panicked ==> StopsIn(src, count, win, ordinal, run)
    ensures Monotone(count, src) ==> (panicked <==> CanStop(src, win, count, ordinal, |win.blocks|))
    ensures OneByteChars(src) ==> !panicked
  {
    WindowSpan(src, win);
    var tokenEnd := tokenStart + count(win.text);
    var parent := Chunk(None, 0, win.sectionPath, win.blockType, win.text, tokenStart, tokenEnd, win.charStart,
                        win.charEnd);
    var children;
    children, panicked := BuildChildChunks(src, win, count, ordinal);
    run := children;
    if panicked {
      g := Group(parent, []);
      return;
    }
    var retiled := RetileAll(src, win.charStart, count, tokenStart, tokenEnd, children);
    g := Group(parent, retiled);
    GroupFromWindow(src, win, count, children, g, ordinal);
    if Monotone(count, src) {
      TilesNonNegative(src, win, count, children, g);
    }
  }

  lemma TilesNonNegative(src: Bytes, win: ParentWindow, count: Counter, children: seq<Chunk>, g: Group)
    requires SpansItsBlocks(src, win) && Chain(src, win, children) && Monotone(count, src)
    requires g.parent.tokenEnd == g.parent.tokenStart + count(win.text)
    requires Retiled(src, win.charStart, count, g.parent.tokenStart, g.parent.tokenEnd, children, g.children)
    ensures NonNegative(g)
  {
    WindowSpan(src, win);
    ChainEnds(src, win, children);
    assert IsSpan(src, win.charStart, win.charEnd) && EndsWithin(children, win.charStart, win.charEnd);
    forall i | 0 <= i < |g.children|
      ensures g.children[i].tokenStart <= g.children[i].tokenEnd
    {
      RetiledWidths(src, win.charStart, win.charEnd, count, g.parent.tokenStart, children, g.children, i);
    }
  }

  method RetileAll(src: Bytes, start: nat, count: Counter, lo: int, hi: int, children: seq<Chunk>)
    returns (retiled: seq<Chunk>)
    ensures Retiled(src, start, count, lo, hi, children, retiled)
  {
    var arr := new Chunk[|children|](i requires 0 <= i < |children| => children[i]);
    assert arr[..] == children;
    RetileChildTokenOffsets(src, start, count, lo, hi, arr);
    retiled := arr[..];
  }

  lemma GroupFromWindow(src: Bytes, win: ParentWindow, count: Counter, children: seq<Chunk>, g: Group, ordinal: nat)
    requires SpansItsBlocks(src, win) && Covers(src, win, children, |win.blocks|) && ChildrenOf(children, ordinal)
    requires AllLabelled(win, children) && AllOverlap(src, count, children) && AllFull(src, win, count, children)
    requires g.parent.tokenEnd == g.parent.tokenStart + count(win.text)
    requires g.parent == Chunk(None, 0, win.sectionPath, win.blockType, win.text,
                               g.parent.tokenStart, g.parent.tokenEnd, win.charStart, win.charEnd)
    requires Retiled(src, win.charStart, count, g.parent.tokenStart, g.parent.tokenEnd, children, g.children)
    ensures WellFormedGroup(src, count, g, ordinal) && SpansWindow(src, count, win, g)
    ensures Bounded(count, children) ==> Bounded(count, g.children)
  {
    SpansKept(src, win, count, children, g.children, g.parent.tokenStart, g.parent.tokenEnd);
    GroupWellFormed(src, win, count, children, g, ordinal);
    CoverageKept(src, win, children, g.children);
    LabelsKept(src, win, count, children, g.children, g.parent.tokenStart, g.parent.tokenEnd);
    FullKept(src, win, count, children, g.children, g.parent.tokenStart, g.parent.tokenEnd);
  }

  lemma GroupWellFormed(src: Bytes, win: ParentWindow, count: Counter, children: seq<Chunk>, g: Group, ordinal: nat)
    requires SpansItsBlocks(src, win) && Covers(src, win, children, |win.blocks|) && ChildrenOf(g.children, ordinal)
    requires Chain(src, win, g.children) && g.parent.tokenEnd == g.parent.tokenStart + count(win.text)
    requires g.parent == Chunk(None, 0, win.sectionPath, win.blockType, win.text,
                               g.parent.tokenStart, g.parent.tokenEnd, win.charStart, win.charEnd)
    requires Retiled(src, win.charStart, count, g.parent.tokenStart, g.parent.tokenEnd, children, g.children)
    ensures WellFormedGroup(src, count, g, ordinal)
  {
    WindowSpan(src, win);
    ChainEnds(src, win, children);
    RetiledTokensTile(src, win.charStart, count, g.parent.tokenStart, g.parent.tokenEnd, children, g.children);
    ChainGroup(src, win, g);
  }

  /** The spans of a group whose children chain over its window. */
  lemma ChainGroup(src: Bytes, win: ParentWindow, g: Group)
    requires Chain(src, win, g.children) && g.parent.charStart == win.charStart && g.parent.charEnd == win.charEnd
    ensures forall i :: 0 <= i < |g.children| ==> IsSliceWithin(src, g, i)
    ensures forall i, j :: Increases(g.children, i, j)
  {
  }

  lemma FullKept(src: Bytes, win: ParentWindow, count: Counter, children: seq<Chunk>, retiled: seq<Chunk>, lo: int,
                 hi: int)
    requires Retiled(src, win.charStart, count, lo, hi, children, retiled) && AllFull(src, win, count, children)
    ensures AllFull(src, win, count, retiled)
  {
    forall i | 0 <= i < |retiled|
      ensures ChildFull(src, win, count, retiled[i])
    {
      assert ChildFull(src, win, count, children[i]);
      SameSpanFull(src, win, count, children[i], retiled[i]);
    }
  }

  lemma SameSpanFull(src: Bytes, win: ParentWindow, count: Counter, c: Chunk, c': Chunk)
    requires ChildFull(src, win, count, c) && c'.charStart == c.charStart && c'.charEnd == c.charEnd
    ensures ChildFull(src, win, count, c')
  {
    if k: nat :| CutFrom(win, count, c, k) {
      assert CutFrom(win, count, c', k);
    } else {
      var s: nat, k: nat :| PackedFrom(src, win, count, c, s, k);
      assert PackedFrom(src, win, count, c', s, k);
    }
  }

  lemma LabelsKept(src: Bytes, win: ParentWindow, count: Counter, children: seq<Chunk>, retiled: seq<Chunk>, lo: int,
                   hi: int)
    requires Retiled(src, win.charStart, count, lo, hi, children, retiled) && AllLabelled(win, children)
    requires AllOverlap(src, count, children)
    ensures AllLabelled(win, retiled) && AllOverlap(src, count, retiled)
  {
    forall i | 0 < i < |retiled|
      ensures OverlapsAt(src, count, retiled, i)
    {
      assert OverlapsAt(src, count, children, i);
    }
    forall i | 0 <= i < |retiled|
      ensures LabelledAt(win, retiled, i)
    {
      assert LabelledAt(win, children, i);
      var end := if i == 0 then win.charStart else children[i - 1].charEnd;
      var k: nat :| LabelledLike(win, end, children[i], k);
      assert LabelledLike(win, end, retiled[i], k);
    }
  }

  lemma CoverageKept(src: Bytes, win: ParentWindow, children: seq<Chunk>, retiled: seq<Chunk>)
    requires SpansItsBlocks(src, win) && Covers(src, win, children, |win.blocks|)
    requires forall p: nat :: InChildren(children, p) ==> InChildren(retiled, p)
    ensures forall p: nat :: InBlocks(win.blocks, p) ==> win.charStart <= p < win.charEnd && InChildren(retiled, p)
  {
    assert win.blocks[..|win.blocks|] == win.blocks;
    forall p: nat | InBlocks(win.blocks, p)
      ensures win.charStart <= p < win.charEnd && InChildren(retiled, p)
    {
      InsideWindow(src, win, p);
    }
  }

  lemma ChainEnds(src: Bytes, win: ParentWindow, children: seq<Chunk>)
    requires Chain(src, win, children)
    ensures EndsWithin(children, win.charStart, |src|) && EndsIncrease(children)
  {
    forall k | 0 <= k < |children|
      ensures win.charStart < children[k].charEnd <= |src|
    {
      assert IsSlice(src, children[k]) && win.charStart <= children[k].charStart;
    }
  }

  lemma WindowSpan(src: Bytes, win: ParentWindow)
    requires SpansItsBlocks(src, win)
    ensures win.charStart < win.charEnd <= |src| && IsBoundary(src, win.charStart) && IsBoundary(src, win.charEnd)
  {
    var n := |win.blocks| - 1;
    assert win.blocks[0].OfSource(src) && win.blocks[n].OfSource(src);
    assert n > 0 ==> win.blocks[0].charEnd <= win.blocks[n].charStart;
  }

  lemma InsideWindow(src: Bytes, win: ParentWindow, p: nat)
    requires SpansItsBlocks(src, win) && InBlocks(win.blocks, p)
    ensures win.charStart <= p < win.charEnd
  {
    var n := |win.blocks| - 1;
    var i :| 0 <= i <= n && win.blocks[i].charStart <= p < win.blocks[i].charEnd;
    assert win.blocks[0].OfSource(src) && win.blocks[n].OfSource(src);
    assert i > 0 ==> win.blocks[0].charEnd <= win.blocks[i].charStart;
    assert i < n ==> win.blocks[i].charEnd <= win.blocks[n].charStart;
  }

  /** Everything but the token offsets survives retiling. */
  lemma SpansKept(src: Bytes, win: ParentWindow, count: Counter, children: seq<Chunk>, retiled: seq<Chunk>, lo: int,
                  hi: int)
    requires Retiled(src, win.charStart, count, lo, hi, children, retiled)
    ensures Chain(src, win, children) ==> Chain(src, win, retiled)
    ensures forall n: nat :: ChildrenOf(children, n) ==> ChildrenOf(retiled, n)
    ensures Bounded(count, children) ==> Bounded(count, retiled)
    ensures forall p: nat :: InChildren(children, p) ==> InChildren(retiled, p)
  {
    forall p: nat | InChildren(children, p)
      ensures InChildren(retiled, p)
    {
      var i :| 0 <= i < |children| && children[i].charStart <= p < children[i].charEnd;
      assert retiled[i].charStart <= p < retiled[i].charEnd;
    }
  }

  /** The parent has its window's span, text and labels, and the children hold all of the window's block bytes, each
      labelled like the first block that reaches past the child before it, and overlapping that child within budget. */
  ghost predicate SpansWindow(src: Bytes, count: Counter, win: ParentWindow, g: Group) {
    && g.parent.charStart == win.charStart && g.parent.charEnd == win.charEnd && g.parent.text == win.text
    && g.parent.sectionPath == win.sectionPath && g.parent.blockType == win.blockType
    && AllLabelled(win, g.children) && AllOverlap(src, count, g.children) && AllFull(src, win, count, g.children)
    && forall p: nat :: InBlocks(win.blocks, p) ==> win.charStart <= p < win.charEnd && InChildren(g.children, p)
  }

  ghost predicate BuiltFrom(src: Bytes, count: Counter, windows: seq<ParentWindow>, groups: seq<Group>) {
    |groups| <= |windows| && forall k :: 0 <= k < |groups| ==> SpansWindow(src, count, windows[k], groups[k])
  }

  /** The children are a run over the window with retiled token ranges. */
  ghost predicate MadeFrom(src: Bytes, count: Counter, win: ParentWindow, ordinal: nat, g: Group) {
    exists run: seq<Chunk> :: IsRun(src, win, count, ordinal, run)
      && Retiled(src, win.charStart, count, g.parent.tokenStart, g.parent.tokenEnd, run, g.children)
  }

  ghost predicate AllMade(src: Bytes, count: Counter, windows: seq<ParentWindow>, groups: seq<Group>) {
    |groups| <= |windows| && forall k :: 0 <= k < |groups| ==> MadeFrom(src, count, windows[k], k, groups[k])
  }

  /** No child has a negative token range. */
  ghost predicate NonNegative(g: Group) {
    forall i :: 0 <= i < |g.children| ==> g.children[i].tokenStart <= g.children[i].tokenEnd
  }

  /** Some run over window `i` stops in a hard split. */
  ghost predicate WindowStops(src: Bytes, count: Counter, windows: seq<ParentWindow>, i: nat) {
    i < |windows| && CanStop(src, windows[i], count, i, |windows[i].blocks|)
  }

  ghost predicate SomeWindowStops(src: Bytes, count: Counter, windows: seq<ParentWindow>) {
    exists i: nat :: WindowStops(src, count, windows, i)
  }

  /** Chunks a block list: the windows and groups are those of the blocks that hold text, and every byte of such a block
      ends in a parent and one of its children. For monotone counts it panics if and only if some run over one of its
      parent windows stops in a hard split, and for any count only there. So it never does when blocks of more than 129
      tokens have only one-byte characters; nor, under the token assumptions, when they have no word of more than 113
      tokens. */
  method ChunkBlocks(src: Bytes, allBlocks: seq<Block>, count: Counter)
    returns (r: Outcome, ghost kept: seq<Block>, ghost windows: seq<ParentWindow>, ghost groups: seq<Group>,
             ghost stopped: seq<Chunk>)
    requires TextOfSource(src, allBlocks)
    ensures Kept(allBlocks, kept)
    ensures Monotone(count, src) ==> (r.Panicked? <==> SomeWindowStops(src, count, windows))
    ensures r.Panicked? ==> |groups| < |windows| && StopsIn(src, count, windows[|groups|], |groups|, stopped)
    ensures OneByteChars(src) || AllNarrow(src, count, kept) || ShortWords(src, count, kept) ==> r.Chunks?
    ensures Packs(src, kept, windows, |kept|) && Greedy(count, kept, windows)
    ensures r.Chunks? ==> r.chunks == Flatten(groups) && Chunked(src, count, kept, windows, groups)
    ensures r.Chunks? ==> forall p: nat :: InText(allBlocks, p) ==> InGroups(groups, p)
  {
    var blocks := NonBlankBlocks(allBlocks);
    ghost var at := NonBlankKept(allBlocks);
    kept := blocks;
    KeptOfSource(src, allBlocks, kept, at);
    r, windows, groups, stopped := ChunkKept(src, blocks, count);
  }

  /** The groups of a finished run. */
  ghost predicate Chunked(src: Bytes, count: Counter, kept: seq<Block>, windows: seq<ParentWindow>,
                          groups: seq<Group>) {
    && WellFormedGroups(src, count, groups) && |groups| == |windows| && BuiltFrom(src, count, windows, groups)
    && AllMade(src, count, windows, groups)
    && (Monotone(count, src) ==> forall k :: 0 <= k < |groups| ==> NonNegative(groups[k]))
    && (Assumed(src, count, kept) ==> GroupsBounded(count, groups))
  }

  /** Chunks the blocks that hold text. */
  method ChunkKept(src: Bytes, blocks: seq<Block>, count: Counter)
    returns (r: Outcome, ghost windows: seq<ParentWindow>, ghost groups: seq<Group>, ghost stopped: seq<Chunk>)
    requires OfSource(src, blocks)
    ensures Monotone(count, src) ==> (r.Panicked? <==> SomeWindowStops(src, count, windows))
    ensures r.Panicked? ==> |groups| < |windows| && StopsIn(src, count, windows[|groups|], |groups|, stopped)
    ensures OneByteChars(src) || AllNarrow(src, count, blocks) || ShortWords(src, count, blocks) ==> r.Chunks?
    ensures Packs(src, blocks, windows, |blocks|) && Greedy(count, blocks, windows)
    ensures r.Chunks? ==> r.chunks == Flatten(groups) && Chunked(src, count, blocks, windows, groups)
    ensures r.Chunks? ==> forall p: nat :: InBlocks(blocks, p) ==> InGroups(groups, p)
  {
    var parents := BuildParentWindows(src, blocks, count);
    windows := parents;
    groups := [];
    var result: seq<Chunk> := [];
    var offset := 0;
    for i := 0 to |parents|
      invariant |groups| == i && result == Flatten(groups)
      invariant offset == if i == 0 then 0 else groups[i - 1].parent.tokenEnd
      invariant Progress(src, count, blocks, windows, groups)
    {
      var g, panicked;
      g, panicked, stopped := BuildGroup(src, parents[i], count, i, offset);
      if panicked {
        WhyStopped(src, count, blocks, windows, i, stopped);
        return Panicked, windows, groups, stopped;
      }
      result := result + [g.parent] + g.children;
      FlattenSnoc(groups, g);
      AppendProgress(src, count, blocks, windows, groups, g);
      groups := groups + [g];
      offset := g.parent.tokenEnd;
    }
    AllBytesGrouped(src, count, blocks, windows, groups);
    r, stopped := Chunks(result), [];
  }

  /** A run over the window that stops in a hard split. */
  ghost predicate StopsIn(src: Bytes, count: Counter, win: ParentWindow, ordinal: nat, stopped: seq<Chunk>) {
    IsRun(src, win, count, ordinal, stopped) && StopsBefore(src, win, count, stopped, |win.blocks|)
  }

  /** The groups made so far. */
  ghost predicate Progress(src: Bytes, count: Counter, blocks: seq<Block>, windows: seq<ParentWindow>,
                           groups: seq<Group>) {
    && WellFormedGroups(src, count, groups) && BuiltFrom(src, count, windows, groups)
    && AllMade(src, count, windows, groups)
    && (Monotone(count, src) ==> AllCalm(src, count, windows, groups))
    && (Assumed(src, count, blocks) ==> GroupsBounded(count, groups))
  }

  ghost predicate AllCalm(src: Bytes, count: Counter, windows: seq<ParentWindow>, groups: seq<Group>) {
    forall k: nat :: k < |groups| ==> NonNegative(groups[k]) && !WindowStops(src, count, windows, k)
  }

  lemma WhyStopped(src: Bytes, count: Counter, blocks: seq<Block>, windows: seq<ParentWindow>, i: nat,
                   stopped: seq<Chunk>)
    requires i < |windows| && SpansItsBlocks(src, windows[i]) && ClosedFull(count, blocks, windows[i])
    requires StopsIn(src, count, windows[i], i, stopped)
    requires Assumed(src, count, blocks) ==> Assumed(src, count, windows[i].blocks)
    ensures SomeWindowStops(src, count, windows) && !AllNarrow(src, count, blocks) && !ShortWords(src, count, blocks)
  {
    var win := windows[i];
    assert WindowStops(src, count, windows, i);
    PackedWindow(src, count, blocks, win);
    if AllNarrow(src, count, blocks) {
      NarrowNeverStops(src, count, win, stopped, |win.blocks|);
    }
    if ShortWords(src, count, blocks) {
      ShortWordsNeverStop(src, count, win, stopped, |win.blocks|);
    }
  }

  lemma AppendProgress(src: Bytes, count: Counter, blocks: seq<Block>, windows: seq<ParentWindow>, groups: seq<Group>,
                       g: Group)
    requires Packs(src, blocks, windows, |blocks|) && Progress(src, count, blocks, windows, groups)
    requires |groups| < |windows| && WellFormedGroup(src, count, g, |groups|)
    requires SpansWindow(src, count, windows[|groups|], g) && MadeFrom(src, count, windows[|groups|], |groups|, g)
    requires g.parent.tokenStart == if groups == [] then 0 else groups[|groups| - 1].parent.tokenEnd
    requires Monotone(count, src) ==> NonNegative(g) && !WindowStops(src, count, windows, |groups|)
    requires Assumed(src, count, blocks) ==> WithinLimit(src, count, windows)
    requires Assumed(src, count, windows[|groups|].blocks) ==> Bounded(count, g.children)
    ensures Progress(src, count, blocks, windows, groups + [g])
  {
    AppendGroup(src, count, windows, groups, g);
    AppendBounded(src, count, blocks, windows, groups, g);
    AppendMade(src, count, windows, groups, g);
    if Monotone(count, src) {
      AppendCalm(src, count, windows, groups, g);
    }
  }

  lemma AppendMade(src: Bytes, count: Counter, windows: seq<ParentWindow>, groups: seq<Group>, g: Group)
    requires |groups| < |windows| && MadeFrom(src, count, windows[|groups|], |groups|, g)
    requires AllMade(src, count, windows, groups)
    ensures AllMade(src, count, windows, groups + [g])
  {
    forall k | 0 <= k <= |groups|
      ensures MadeFrom(src, count, windows[k], k, (groups + [g])[k])
    {
      assert k < |groups| ==> MadeFrom(src, count, windows[k], k, groups[k]);
    }
  }

  lemma AppendCalm(src: Bytes, count: Counter, windows: seq<ParentWindow>, groups: seq<Group>, g: Group)
    requires AllCalm(src, count, windows, groups) && NonNegative(g) && !WindowStops(src, count, windows, |groups|)
    ensures AllCalm(src, count, windows, groups + [g])
  {
  }

  lemma AllBytesGrouped(src: Bytes, count: Counter, blocks: seq<Block>, windows: seq<ParentWindow>, groups: seq<Group>)
    requires Packs(src, blocks, windows, |blocks|) && BuiltFrom(src, count, windows, groups) && |groups| == |windows|
    ensures forall p: nat :: InBlocks(blocks, p) ==> InGroups(groups, p)
  {
    forall p: nat | InBlocks(blocks, p)
      ensures InGroups(groups, p)
    {
      assert blocks[..|blocks|] == blocks;
      var k :| 0 <= k < |windows| && InBlocks(windows[k].blocks, p);
      assert SpansWindow(src, count, windows[k], groups[k]);
    }
  }

  lemma AppendGroup(src: Bytes, count: Counter, windows: seq<ParentWindow>, groups: seq<Group>, g: Group)
    requires forall j, k :: 0 <= j < k < |windows| ==> windows[j].charEnd <= windows[k].charStart
    requires WellFormedGroups(src, count, groups) && BuiltFrom(src, count, windows, groups)
    requires |groups| < |windows| && WellFormedGroup(src, count, g, |groups|)
    requires SpansWindow(src, count, windows[|groups|], g)
    requires g.parent.tokenStart == if groups == [] then 0 else groups[|groups| - 1].parent.tokenEnd
    ensures WellFormedGroups(src, count, groups + [g]) && BuiltFrom(src, count, windows, groups + [g])
  {
    AppendBuilt(src, count, windows, groups, g);
    AppendMeets(groups, g);
    AppendOrdered(src, count, windows, groups, g);
    AppendEach(src, count, groups, g);
  }

  ghost predicate EachWellFormed(src: Bytes, count: Counter, groups: seq<Group>) {
    forall k :: 0 <= k < |groups| ==> WellFormedGroup(src, count, groups[k], k)
  }

  lemma AppendEach(src: Bytes, count: Counter, groups: seq<Group>, g: Group)
    requires EachWellFormed(src, count, groups) && WellFormedGroup(src, count, g, |groups|)
    ensures EachWellFormed(src, count, groups + [g])
  {
    forall k | 0 <= k < |groups + [g]|
      ensures WellFormedGroup(src, count, (groups + [g])[k], k)
    {
      assert k < |groups| ==> WellFormedGroup(src, count, groups[k], k);
    }
  }

  lemma AppendOrdered(src: Bytes, count: Counter, windows: seq<ParentWindow>, groups: seq<Group>, g: Group)
    requires forall j, k :: 0 <= j < k < |windows| ==> windows[j].charEnd <= windows[k].charStart
    requires BuiltFrom(src, count, windows, groups + [g])
    ensures forall j, k :: 0 <= j < k < |groups + [g]| ==>
      (groups + [g])[j].parent.charEnd <= (groups + [g])[k].parent.charStart
  {
    var groups' := groups + [g];
    forall j, k | 0 <= j < k < |groups'|
      ensures groups'[j].parent.charEnd <= groups'[k].parent.charStart
    {
      assert SpansWindow(src, count, windows[j], groups'[j]) && SpansWindow(src, count, windows[k], groups'[k]);
    }
  }

  lemma AppendBuilt(src: Bytes, count: Counter, windows: seq<ParentWindow>, groups: seq<Group>, g: Group)
    requires BuiltFrom(src, count, windows, groups) && |groups| < |windows|
    requires SpansWindow(src, count, windows[|groups|], g)
    ensures BuiltFrom(src, count, windows, groups + [g])
  {
    forall k | 0 <= k <= |groups|
      ensures SpansWindow(src, count, windows[k], (groups + [g])[k])
    {
      assert k < |groups| ==> SpansWindow(src, count, windows[k], groups[k]);
    }
  }

  lemma AppendMeets(groups: seq<Group>, g: Group)
    requires forall k :: 0 < k < |groups| ==> ParentsMeet(groups, k)
    requires groups != [] ==> groups[|groups| - 1].parent.tokenEnd == g.parent.tokenStart
    ensures forall k :: 0 < k < |groups + [g]| ==> ParentsMeet(groups + [g], k)
  {
    forall k | 0 < k < |groups + [g]|
      ensures ParentsMeet(groups + [g], k)
    {
      assert k < |groups| ==> ParentsMeet(groups, k);
    }
  }

  lemma AppendBounded(src: Bytes, count: Counter, blocks: seq<Block>, windows: seq<ParentWindow>, groups: seq<Group>,
                      g: Group)
    requires |groups| < |windows| && g.parent.text == windows[|groups|].text
    requires Assumed(src, count, blocks) ==> WithinLimit(src, count, windows) && GroupsBounded(count, groups)
    requires Assumed(src, count, windows[|groups|].blocks) ==> Bounded(count, g.children)
    ensures Assumed(src, count, blocks) ==> GroupsBounded(count, groups + [g])
  {
    if Assumed(src, count, blocks) {
      assert Assumed(src, count, windows[|groups|].blocks);
    }
  }

  lemma FlattenSnoc(groups: seq<Group>, g: Group)
    ensures Flatten(groups + [g]) == Flatten(groups) + [g.parent] + g.children
  {
    assert (groups + [g])[..|groups|] == groups;
  }

  /** No byte lies in two parents. */
  lemma OneParentPerByte(src: Bytes, count: Counter, groups: seq<Group>, p: nat, j: nat, k: nat)
    requires WellFormedGroups(src, count, groups) && j < |groups| && k < |groups|
    requires groups[j].parent.charStart <= p < groups[j].parent.charEnd
    requires groups[k].parent.charStart <= p < groups[k].parent.charEnd
    ensures j == k
  {
  }

  /** The token total that ingest stores: the summed widths of the level-0 chunks. */
  function TotalTokens(chunks: seq<Chunk>): int {
    if chunks == [] then 0
    else TotalTokens(chunks[..|chunks| - 1]) +
         (var c := chunks[|chunks| - 1]; if c.level == 0 then c.tokenEnd - c.tokenStart else 0)
  }

  lemma {:induction false} TotalSkipsChildren(chunks: seq<Chunk>, children: seq<Chunk>)
    requires forall i :: 0 <= i < |children| ==> children[i].level == 1
    ensures TotalTokens(chunks + children) == TotalTokens(chunks)
  {
    if children == [] {
      assert chunks + children == chunks;
    } else {
      var n := |children| - 1;
      assert (chunks + children)[..|chunks| + n] == chunks + children[..n];
      TotalSkipsChildren(chunks, children[..n]);
    }
  }

  lemma TotalOfGroup(head: seq<Chunk>, parent: Chunk, children: seq<Chunk>)
    requires parent.level == 0 && forall i :: 0 <= i < |children| ==> children[i].level == 1
    ensures TotalTokens(head + [parent] + children) == TotalTokens(head) + (parent.tokenEnd - parent.tokenStart)
  {
    var chunks := head + [parent];
    assert chunks[..|chunks| - 1] == head;
    TotalSkipsChildren(chunks, children);
  }

  /** What the total depends on: levels, and parents whose token ranges meet from zero on. */
  ghost predicate Levelled(g: Group) {
    g.parent.level == 0 && forall i :: 0 <= i < |g.children| ==> g.children[i].level == 1
  }

  lemma {:induction false} TotalOfGroups(groups: seq<Group>)
    requires forall k :: 0 <= k < |groups| ==> Levelled(groups[k])
    requires forall k :: 0 < k < |groups| ==> ParentsMeet(groups, k)
    requires groups != [] ==> groups[0].parent.tokenStart == 0
    ensures TotalTokens(Flatten(groups)) == if groups == [] then 0 else groups[|groups| - 1].parent.tokenEnd
    decreases |groups|
  {
    if groups != [] {
      var n := |groups| - 1;
      var head := groups[..n];
      forall k | 0 < k < n
        ensures ParentsMeet(head, k)
      {
        assert ParentsMeet(groups, k);
      }
      TotalOfGroups(head);
      assert Levelled(groups[n]) && (n > 0 ==> ParentsMeet(groups, n));
      TotalOfGroup(Flatten(head), groups[n].parent, groups[n].children);
    }
  }

  /** The parents' token ranges tile zero to the total that ingest stores. */
  lemma ParentsTileTotal(src: Bytes, count: Counter, groups: seq<Group>)
    requires WellFormedGroups(src, count, groups)
    ensures TotalTokens(Flatten(groups)) == if groups == [] then 0 else groups[|groups| - 1].parent.tokenEnd
  {
    forall k | 0 <= k < |groups|
      ensures Levelled(groups[k])
    {
      assert WellFormedGroup(src, count, groups[k], k);
    }
    TotalOfGroups(groups);
  }
}
