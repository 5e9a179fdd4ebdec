/** Packing blocks into parent windows (`build_parent_windows`). */
module ChunkParents {
  import opened Wrappers
  import opened Utf8
  import opened ChunkSplit

  datatype ParentWindow = ParentWindow(
    text: Bytes, sectionPath: string, blockType: Option<string>,
    charStart: nat, charEnd: nat, blocks: seq<Block>)

  /** A window is the verbatim source span from its first block to its last, labelled like its first block. */
  ghost predicate SpansItsBlocks(src: Bytes, w: ParentWindow) {
    && w.blocks != [] && OfSource(src, w.blocks)
    && w.charStart == w.blocks[0].charStart
    && w.charEnd == w.blocks[|w.blocks| - 1].charEnd
    && w.text == src[w.charStart..w.charEnd]
    && w.sectionPath == w.blocks[0].sectionPath && w.blockType == Some(w.blocks[0].blockType)
  }

  ghost predicate InWindows(windows: seq<ParentWindow>, p: nat) {
    exists k :: 0 <= k < |windows| && InBlocks(windows[k].blocks, p)
  }

  /** The windows are ordered and disjoint, stop before block `s`, and their blocks are exactly the bytes
      of the first `s` blocks. */
  ghost predicate Packs(src: Bytes, blocks: seq<Block>, windows: seq<ParentWindow>, s: nat) {
    && s <= |blocks|
    && (forall k :: 0 <= k < |windows| ==> SpansItsBlocks(src, windows[k]))
    && (forall j, k :: 0 <= j < k < |windows| ==> windows[j].charEnd <= windows[k].charStart)
    && (forall k, b :: 0 <= k < |windows| && s <= b < |blocks| ==> windows[k].charEnd <= blocks[b].charStart)
    && (forall p :: InBlocks(blocks[..s], p) <==> InWindows(windows, p))
  }

  ghost predicate Assumed(src: Bytes, count: Counter, blocks: seq<Block>) {
    OfSource(src, blocks) && TokenAssumptions(count, src) && BlankGaps(src, blocks)
  }

  ghost predicate WithinLimit(src: Bytes, count: Counter, windows: seq<ParentWindow>) {
    forall k :: 0 <= k < |windows| ==> Assumed(src, count, windows[k].blocks) && count(windows[k].text) <= PARENT_LIMIT
  }

  /** The running per-block sum that decides packing. */
  function TokenSum(count: Counter, blocks: seq<Block>): nat {
    if blocks == [] then 0 else TokenSum(count, blocks[..|blocks| - 1]) + count(blocks[|blocks| - 1].text)
  }

  lemma SumSnoc(count: Counter, blocks: seq<Block>, b: Block)
    ensures TokenSum(count, blocks + [b]) == TokenSum(count, blocks) + count(b.text)
  {
    assert (blocks + [b])[..|blocks|] == blocks;
  }

  /** The window holds the whole blocks before block `k`, within the limit, and block `k` would have overrun it. */
  ghost predicate RunsUpTo(count: Counter, blocks: seq<Block>, w: ParentWindow, k: nat) {
    && |w.blocks| <= k <= |blocks| && w.blocks == blocks[k - |w.blocks|..k]
    && TokenSum(count, w.blocks) <= PARENT_LIMIT
    && (k < |blocks| ==> TokenSum(count, w.blocks) + count(blocks[k].text) > PARENT_LIMIT)
  }

  /** The window is a piece of block `k`, which is over the limit by itself. */
  predicate IsPieceOf(count: Counter, blocks: seq<Block>, w: ParentWindow, k: nat) {
    && k < |blocks| && count(blocks[k].text) > PARENT_LIMIT
    && blocks[k].charStart <= w.charStart && w.charEnd <= blocks[k].charEnd
  }

  /** Packing is greedy: a window is closed only because the next block does not fit, or is a piece of an
      oversized one. */
  ghost predicate ClosedFull(count: Counter, blocks: seq<Block>, w: ParentWindow) {
    (exists k: nat :: RunsUpTo(count, blocks, w, k)) || exists k: nat :: IsPieceOf(count, blocks, w, k)
  }

  ghost predicate Greedy(count: Counter, blocks: seq<Block>, windows: seq<ParentWindow>) {
    forall j :: 0 <= j < |windows| ==> ClosedFull(count, blocks, windows[j])
  }

  function FlushParentWindow(src: Bytes, blocks: seq<Block>, charStart: nat, charEnd: nat): ParentWindow
    requires charStart <= charEnd <= |src|
  {
    ParentWindow(src[charStart..charEnd],
                 if blocks == [] then "" else blocks[0].sectionPath,
                 if blocks == [] then None else Some(blocks[0].blockType),
                 charStart, charEnd, blocks)
  }

  lemma FlushKeepsPacking(src: Bytes, blocks: seq<Block>, windows: seq<ParentWindow>, s: nat, k: nat)
    requires OfSource(src, blocks) && Packs(src, blocks, windows, s) && s < k <= |blocks|
    ensures Packs(src, blocks,
                  windows + [FlushParentWindow(src, blocks[s..k], blocks[s].charStart, blocks[k - 1].charEnd)], k)
  {
    var cur := blocks[s..k];
    var w := FlushParentWindow(src, cur, blocks[s].charStart, blocks[k - 1].charEnd);
    FlushSpans(src, blocks, s, k, w);
    FlushedMembership(blocks, windows, s, k, w);
    FlushOrdered(src, blocks, windows, s, k, w);
  }

  lemma FlushSpans(src: Bytes, blocks: seq<Block>, s: nat, k: nat, w: ParentWindow)
    requires OfSource(src, blocks) && s < k <= |blocks| && blocks[s].charStart <= blocks[k - 1].charEnd <= |src|
    requires w == FlushParentWindow(src, blocks[s..k], blocks[s].charStart, blocks[k - 1].charEnd)
    ensures SpansItsBlocks(src, w)
  {
    var cur := blocks[s..k];
    assert cur[0] == blocks[s] && cur[|cur| - 1] == blocks[k - 1];
  }

  lemma FlushOrdered(src: Bytes, blocks: seq<Block>, windows: seq<ParentWindow>, s: nat, k: nat, w: ParentWindow)
    requires OfSource(src, blocks) && Packs(src, blocks, windows, s) && s < k <= |blocks|
    requires w.charStart == blocks[s].charStart && w.charEnd == blocks[k - 1].charEnd
    ensures forall i, j :: 0 <= i < j < |windows + [w]| ==> (windows + [w])[i].charEnd <= (windows + [w])[j].charStart
    ensures forall i, b :: 0 <= i < |windows + [w]| && k <= b < |blocks| ==>
      (windows + [w])[i].charEnd <= blocks[b].charStart
  {
  }

  lemma FlushedMembership(blocks: seq<Block>, windows: seq<ParentWindow>, s: nat, k: nat, w: ParentWindow)
    requires s <= k <= |blocks| && w.blocks == blocks[s..k]
    requires forall p :: InBlocks(blocks[..s], p) <==> InWindows(windows, p)
    ensures forall p :: InBlocks(blocks[..k], p) <==> InWindows(windows + [w], p)
  {
    forall p
      ensures InBlocks(blocks[..k], p) <==> InWindows(windows + [w], p)
    {
      SplitMembership(blocks, s, k, p);
      AppendMembership(windows, w, p);
    }
  }

  lemma SplitMembership(blocks: seq<Block>, s: nat, k: nat, p: nat)
    requires s <= k <= |blocks|
    ensures InBlocks(blocks[..k], p) <==> InBlocks(blocks[..s], p) || InBlocks(blocks[s..k], p)
  {
    if InBlocks(blocks[..k], p) {
      var i :| 0 <= i < k && blocks[i].charStart <= p < blocks[i].charEnd;
      if i < s {
        assert blocks[..s][i] == blocks[i];
      } else {
        assert blocks[s..k][i - s] == blocks[i];
      }
    }
    if InBlocks(blocks[..s], p) {
      var i :| 0 <= i < s && blocks[..s][i].charStart <= p < blocks[..s][i].charEnd;
      assert blocks[..k][i] == blocks[..s][i];
    }
    if InBlocks(blocks[s..k], p) {
      var i :| 0 <= i < k - s && blocks[s..k][i].charStart <= p < blocks[s..k][i].charEnd;
      assert blocks[..k][s + i] == blocks[s..k][i];
    }
  }

  lemma AppendMembership(windows: seq<ParentWindow>, w: ParentWindow, p: nat)
    ensures InWindows(windows + [w], p) <==> InWindows(windows, p) || InBlocks(w.blocks, p)
  {
    if InWindows(windows, p) {
      var k :| 0 <= k < |windows| && InBlocks(windows[k].blocks, p);
      assert (windows + [w])[k] == windows[k];
    }
    if InBlocks(w.blocks, p) {
      assert (windows + [w])[|windows|] == w;
    }
  }

  // ----- splitting an oversized block into parents -----

  function SegmentWindow(src: Bytes, block: Block, span: (nat, nat)): ParentWindow
    requires span.0 <= span.1 <= |src|
  {
    var text := src[span.0..span.1];
    ParentWindow(text, block.sectionPath, Some(block.blockType), span.0, span.1,
                 [Block(block.blockType, block.sectionPath, text, span.0, span.1)])
  }

  /** Like `Packs`, with block `s` packed up to byte `cut`. */
  ghost predicate PacksUpTo(src: Bytes, blocks: seq<Block>, windows: seq<ParentWindow>, s: nat, cut: nat) {
    && s < |blocks|
    && blocks[s].charStart <= cut <= blocks[s].charEnd
    && (forall k :: 0 <= k < |windows| ==> SpansItsBlocks(src, windows[k]) && windows[k].charEnd <= cut)
    && (forall j, k :: 0 <= j < k < |windows| ==> windows[j].charEnd <= windows[k].charStart)
    && (forall p: nat :: InWindows(windows, p) <==> InBlocks(blocks[..s], p) || blocks[s].charStart <= p < cut)
  }

  lemma PieceKeepsPacking(src: Bytes, blocks: seq<Block>, windows: seq<ParentWindow>, s: nat, count: Counter,
                          span: (nat, nat))
    requires OfSource(src, blocks) && PacksUpTo(src, blocks, windows, s, span.0)
    requires IsPiece(src, count, PARENT_LIMIT, span.0, span.1) && span.1 <= blocks[s].charEnd
    ensures PacksUpTo(src, blocks, windows + [SegmentWindow(src, blocks[s], span)], s, span.1)
  {
    var w := SegmentWindow(src, blocks[s], span);
    forall p: nat
      ensures InWindows(windows + [w], p) <==> InBlocks(blocks[..s], p) || blocks[s].charStart <= p < span.1
    {
      AppendMembership(windows, w, p);
      assert InBlocks(w.blocks, p) <==> w.blocks[0].charStart <= p < w.blocks[0].charEnd;
    }
  }

  lemma PieceWithinLimit(src: Bytes, count: Counter, windows: seq<ParentWindow>, block: Block, span: (nat, nat))
    requires TokenAssumptions(count, src) && WithinLimit(src, count, windows)
    requires IsPiece(src, count, PARENT_LIMIT, span.0, span.1)
    ensures WithinLimit(src, count, windows + [SegmentWindow(src, block, span)])
  {
    assert CheapCharAt(count, src, span.0);
  }

  lemma PieceKept(src: Bytes, count: Counter, blocks: seq<Block>, windows: seq<ParentWindow>, s: nat, span: (nat, nat))
    requires s < |blocks| && count(blocks[s].text) > PARENT_LIMIT && Greedy(count, blocks, windows)
    requires IsPiece(src, count, PARENT_LIMIT, span.0, span.1)
    requires blocks[s].charStart <= span.0 && span.1 <= blocks[s].charEnd
    requires Assumed(src, count, blocks) ==> WithinLimit(src, count, windows)
    ensures var windows' := windows + [SegmentWindow(src, blocks[s], span)];
      Greedy(count, blocks, windows') && (Assumed(src, count, blocks) ==> WithinLimit(src, count, windows'))
  {
    assert IsPieceOf(count, blocks, SegmentWindow(src, blocks[s], span), s);
    if Assumed(src, count, blocks) {
      PieceWithinLimit(src, count, windows, blocks[s], span);
    }
  }

  lemma BlockDone(src: Bytes, blocks: seq<Block>, windows: seq<ParentWindow>, s: nat)
    requires OfSource(src, blocks) && s < |blocks| && PacksUpTo(src, blocks, windows, s, blocks[s].charEnd)
    ensures Packs(src, blocks, windows, s + 1)
  {
    forall p: nat
      ensures InBlocks(blocks[..s + 1], p) <==> InWindows(windows, p)
    {
      SplitMembership(blocks, s, s + 1, p);
      assert InBlocks(blocks[s..s + 1], p) <==> blocks[s].charStart <= p < blocks[s].charEnd by {
        assert blocks[s..s + 1][0] == blocks[s];
      }
    }
  }

  /** One window per piece, appended in order. */
  method SplitOversizedParentBlock(src: Bytes, blocks: seq<Block>, s: nat, count: Counter, windows: seq<ParentWindow>)
    returns (windows': seq<ParentWindow>)
    requires OfSource(src, blocks) && s < |blocks| && Closed(src, count, blocks, windows, s)
    requires count(blocks[s].text) > PARENT_LIMIT
    ensures Closed(src, count, blocks, windows', s + 1)
  {
    var block := blocks[s];
    var spans := SplitOversized(src, block, PARENT_LIMIT, count);
    windows' := windows;
    for i := 0 to |spans|
      invariant PacksUpTo(src, blocks, windows', s, if i == 0 then block.charStart else spans[i - 1].1)
      invariant Assumed(src, count, blocks) ==> WithinLimit(src, count, windows')
      invariant Greedy(count, blocks, windows')
    {
      assert IsPiece(src, count, PARENT_LIMIT, spans[i].0, spans[i].1) && (i > 0 ==> Abut(spans, i));
      TileInside(src, count, PARENT_LIMIT, spans, block.charStart, block.charEnd, i);
      PieceKeepsPacking(src, blocks, windows', s, count, spans[i]);
      PieceKept(src, count, blocks, windows', s, spans[i]);
      windows' := windows' + [SegmentWindow(src, block, spans[i])];
    }
    BlockDone(src, blocks, windows', s);
  }

  lemma TileInside(src: Bytes, count: Counter, limit: nat, spans: seq<(nat, nat)>, lo: nat, hi: nat, i: nat)
    requires Tiles(src, count, limit, spans, lo, hi) && i < |spans|
    ensures lo <= spans[i].0 && spans[i].1 <= hi
  {
    var j := i;
    while j > 0
      invariant 0 <= j <= i && spans[j].0 <= spans[i].0
    {
      assert IsPiece(src, count, limit, spans[j - 1].0, spans[j - 1].1) && Abut(spans, j);
      j := j - 1;
    }
    j := i;
    while j < |spans| - 1
      invariant i <= j < |spans| && spans[i].1 <= spans[j].1
    {
      assert IsPiece(src, count, limit, spans[j + 1].0, spans[j + 1].1) && Abut(spans, j + 1);
      j := j + 1;
    }
  }

  // ----- the packing loop -----

  /** Extending an open window by block `k` keeps the per-block sum an over-estimate of the merged count. */
  lemma SumOverestimates(src: Bytes, count: Counter, blocks: seq<Block>, s: nat, k: nat)
    requires Assumed(src, count, blocks) && s < k < |blocks|
    ensures count(src[blocks[s].charStart..blocks[k].charEnd])
         <= count(src[blocks[s].charStart..blocks[k - 1].charEnd]) + count(blocks[k].text)
  {
    assert blocks[k - 1].OfSource(src) && blocks[k].OfSource(src) && blocks[s].OfSource(src);
    assert s < k - 1 ==> blocks[s].charEnd <= blocks[k - 1].charStart;
    assert BlankGapBefore(src, blocks, k);
    MergeSpans(count, src, blocks[s].charStart, blocks[k - 1].charEnd, blocks[k].charStart, blocks[k].charEnd);
  }

  lemma GapsOfSlice(src: Bytes, count: Counter, blocks: seq<Block>, s: nat, k: nat)
    requires Assumed(src, count, blocks) && s <= k <= |blocks|
    ensures Assumed(src, count, blocks[s..k])
  {
    var cur := blocks[s..k];
    forall i | 0 < i < |cur|
      ensures BlankGapBefore(src, cur, i)
    {
      assert BlankGapBefore(src, blocks, s + i);
      assert cur[i - 1] == blocks[s + i - 1] && cur[i] == blocks[s + i];
    }
  }

  /** The open window holds blocks `s` to `k`, and its running sum over-estimates its merged count. */
  ghost predicate IsOpen(src: Bytes, count: Counter, blocks: seq<Block>, s: nat, k: nat,
                         current: seq<Block>, start: nat, end: nat, tokens: nat)
  {
    && s <= k <= |blocks| && current == blocks[s..k]
    && tokens == TokenSum(count, current) && tokens <= PARENT_LIMIT
    && (s < k ==> start == blocks[s].charStart && end == blocks[k - 1].charEnd && start <= end <= |src|)
    && (s < k && Assumed(src, count, blocks) ==> count(src[start..end]) <= tokens)
  }

  lemma ExtendOpen(src: Bytes, count: Counter, blocks: seq<Block>, s: nat, k: nat,
                   current: seq<Block>, start: nat, end: nat, tokens: nat)
    requires OfSource(src, blocks) && k < |blocks|
    requires IsOpen(src, count, blocks, s, k, current, start, end, tokens)
    requires tokens + count(blocks[k].text) <= PARENT_LIMIT
    ensures IsOpen(src, count, blocks, s, k + 1, current + [blocks[k]],
                   if s == k then blocks[k].charStart else start, blocks[k].charEnd, tokens + count(blocks[k].text))
  {
    SumSnoc(count, current, blocks[k]);
    assert blocks[s].OfSource(src) && blocks[k].OfSource(src);
    assert s < k ==> blocks[s].charEnd <= blocks[k].charStart;
    if s < k && Assumed(src, count, blocks) {
      SumOverestimates(src, count, blocks, s, k);
    }
  }

  lemma NothingOpen(src: Bytes, count: Counter, blocks: seq<Block>, k: nat, start: nat, end: nat)
    requires k <= |blocks|
    ensures IsOpen(src, count, blocks, k, k, [], start, end, 0)
  {
  }

  /** The windows closed so far: they pack the first `s` blocks, greedily and, under the assumptions, within
      the limit. */
  ghost predicate Closed(src: Bytes, count: Counter, blocks: seq<Block>, windows: seq<ParentWindow>, s: nat) {
    && Packs(src, blocks, windows, s) && Greedy(count, blocks, windows)
    && (Assumed(src, count, blocks) ==> WithinLimit(src, count, windows))
  }

  method Flush(src: Bytes, count: Counter, ghost blocks: seq<Block>, windows: seq<ParentWindow>, ghost s: nat,
               ghost k: nat,
               current: seq<Block>, start: nat, end: nat, ghost tokens: nat)
    returns (windows': seq<ParentWindow>)
    requires OfSource(src, blocks) && Closed(src, count, blocks, windows, s) && s < k
    requires IsOpen(src, count, blocks, s, k, current, start, end, tokens)
    requires k < |blocks| ==> tokens + count(blocks[k].text) > PARENT_LIMIT
    ensures Closed(src, count, blocks, windows', k)
  {
    var w := FlushParentWindow(src, current, start, end);
    FlushKeepsPacking(src, blocks, windows, s, k);
    FlushGreedy(count, blocks, windows, s, k, w);
    FlushWithinLimit(src, count, blocks, windows, s, k, w, tokens);
    windows' := windows + [w];
  }

  lemma FlushGreedy(count: Counter, blocks: seq<Block>, windows: seq<ParentWindow>, s: nat, k: nat, w: ParentWindow)
    requires Greedy(count, blocks, windows) && s < k <= |blocks| && w.blocks == blocks[s..k]
    requires TokenSum(count, w.blocks) <= PARENT_LIMIT
    requires k < |blocks| ==> TokenSum(count, w.blocks) + count(blocks[k].text) > PARENT_LIMIT
    ensures Greedy(count, blocks, windows + [w])
  {
    assert RunsUpTo(count, blocks, w, k);
  }

  lemma FlushWithinLimit(src: Bytes, count: Counter, blocks: seq<Block>, windows: seq<ParentWindow>, s: nat, k: nat,
                                            w: ParentWindow, tokens: nat)
    requires s < k <= |blocks| && w.blocks == blocks[s..k] && tokens <= PARENT_LIMIT
    requires Assumed(src, count, blocks) ==> WithinLimit(src, count, windows) && count(w.text) <= tokens
    ensures Assumed(src, count, blocks) ==> WithinLimit(src, count, windows + [w])
  {
    if Assumed(src, count, blocks) {
      GapsOfSlice(src, count, blocks, s, k);
    }
  }

  /** Closes the open window when block `k` would overrun it. */
  method MakeRoom(src: Bytes, count: Counter, blocks: seq<Block>, windows: seq<ParentWindow>, ghost s: nat, k: nat,
                  current: seq<Block>, start: nat, end: nat, tokens: nat)
    returns (windows': seq<ParentWindow>, current': seq<Block>, tokens': nat, ghost s': nat)
    requires OfSource(src, blocks) && Closed(src, count, blocks, windows, s) && k < |blocks|
    requires IsOpen(src, count, blocks, s, k, current, start, end, tokens)
    ensures Closed(src, count, blocks, windows', s') && IsOpen(src, count, blocks, s', k, current', start, end, tokens')
    ensures (current' == [] && s' == k)
      || (current' == current != [] && tokens' + count(blocks[k].text) <= PARENT_LIMIT)
  {
    windows', current', tokens', s' := windows, current, tokens, s;
    var blockTokens := count(blocks[k].text);
    if current != [] && (blockTokens > PARENT_LIMIT || tokens + blockTokens > PARENT_LIMIT) {
      windows' := Flush(src, count, blocks, windows, s, k, current, start, end, tokens);
      current', tokens', s' := [], 0, k;
      NothingOpen(src, count, blocks, k, start, end);
    }
  }

  /** Packs the blocks into windows: every block byte in exactly one, greedily, oversized blocks cut into pieces. */
  method BuildParentWindows(src: Bytes, blocks: seq<Block>, count: Counter) returns (windows: seq<ParentWindow>)
    requires OfSource(src, blocks)
    ensures Packs(src, blocks, windows, |blocks|) && Greedy(count, blocks, windows)
    ensures Assumed(src, count, blocks) ==> WithinLimit(src, count, windows)
  {
    windows := [];
    var current: seq<Block> := [];
    var currentStart: nat, currentEnd: nat, currentTokens: nat := 0, 0, 0;
    ghost var s: nat := 0;
    NothingOpen(src, count, blocks, 0, 0, 0);
    for k := 0 to |blocks|
      invariant IsOpen(src, count, blocks, s, k, current, currentStart, currentEnd, currentTokens)
      invariant Closed(src, count, blocks, windows, s)
    {
      var block := blocks[k];
      var blockTokens := count(block.text);
      windows, current, currentTokens, s :=
        MakeRoom(src, count, blocks, windows, s, k, current, currentStart, currentEnd, currentTokens);
      if blockTokens > PARENT_LIMIT {
        windows := SplitOversizedParentBlock(src, blocks, k, count, windows);
        s := k + 1;
        NothingOpen(src, count, blocks, k + 1, currentStart, currentEnd);
      } else {
        ExtendOpen(src, count, blocks, s, k, current, currentStart, currentEnd, currentTokens);
        if current == [] {
          currentStart := block.charStart;
        }
        currentEnd := block.charEnd;
        currentTokens := currentTokens + blockTokens;
        current := current + [block];
      }
    }
    if current != [] {
      windows := Flush(src, count, blocks, windows, s, |blocks|, current, currentStart, currentEnd, currentTokens);
    }
  }
}
