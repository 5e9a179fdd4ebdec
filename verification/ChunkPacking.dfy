/** The packing loop over a parent's blocks (`build_child_chunks`, `flush_child_window`). */
module ChunkPacking {
  import opened Wrappers
  import opened Utf8
  import opened ChunkSplit
  import opened ChunkParents
  import opened ChunkRuns
  import opened ChunkExact
  import opened ChunkChildren

  /** The open child window. */
  class ChildAccumulator {
    var blocks: seq<Block>
    var charStart: nat
    var charEnd: nat
    var tokens: nat

    constructor ()
      ensures blocks == [] && charStart == 0 && charEnd == 0 && tokens == 0
    {
      blocks, charStart, charEnd, tokens := [], 0, 0, 0;
    }
  }

  /** Children plus the open window span the first `k` blocks: closed when `open` is empty, and otherwise
      the window ends with block `k - 1` and may follow the children. */
  ghost predicate Packing(src: Bytes, win: ParentWindow, count: Counter, children: seq<Chunk>, k: nat,
                          open: seq<Block>, start: nat, end: nat, tokens: nat)
  {
    && SpansItsBlocks(src, win) && k <= |win.blocks|
    && if open == [] then Covers(src, win, children, k)
       else
         && k > 0 && start < end == win.blocks[k - 1].charEnd <= |src|
         && Chain(src, win, children)
         && Follows(src, win, children, OpenChild(src, start, end))
         && (forall p: nat :: InBlocks(win.blocks[..k], p) ==> InChildren(children, p) || start <= p < end)
         && (Assumed(src, count, win.blocks) ==> count(src[start..end]) <= tokens <= CHILD_LIMIT)
  }

  /** The open window may start with block `s`, at byte `start`. */
  ghost predicate OpenedAt(src: Bytes, win: ParentWindow, count: Counter, children: seq<Chunk>, s: nat, start: nat) {
    EndsBefore(win, children, s) && count(win.blocks[s].text) <= CHILD_LIMIT
      && PackStarts(src, win, count, children, s, start)
  }

  /** The open blocks are those from `s` to `k`, and the running sum is that of the overlap and of the blocks. */
  ghost predicate SumFrom(src: Bytes, win: ParentWindow, count: Counter, children: seq<Chunk>, s: nat, k: nat,
                          open: seq<Block>, start: nat, tokens: nat)
  {
    && s < k <= |win.blocks| && open == win.blocks[s..k] && win.blocks[s].charStart <= |src|
    && OpenedAt(src, win, count, children, s, start)
    && tokens == SeedOverlapTokens(src, start, win.blocks[s].charStart, count) + TokenSum(count, open) <= CHILD_LIMIT
  }

  /** `SumFrom` the only block the open window can start with. */
  ghost predicate IsSum(src: Bytes, win: ParentWindow, count: Counter, children: seq<Chunk>, k: nat, open: seq<Block>,
                        start: nat, tokens: nat)
  {
    |open| <= k && forall s: nat :: k - |open| <= s <= k - |open| ==>
      SumFrom(src, win, count, children, s, k, open, start, tokens)
  }

  /** The open window, closed before block `k`, is the next child. */
  lemma FlushPacked(src: Bytes, win: ParentWindow, count: Counter, parent: nat, children: seq<Chunk>, k: nat,
                    open: seq<Block>, tokens: nat, c: Chunk)
    returns (s: nat)
    requires IsSum(src, win, count, children, k, open, c.charStart, tokens) && 0 < k <= |win.blocks| && open != []
    requires k < |win.blocks| ==> tokens + count(win.blocks[k].text) > CHILD_LIMIT
    requires c.charStart <= c.charEnd <= |src| && c.charEnd == win.blocks[k - 1].charEnd
    requires c == Chunk(Some(parent), 1, open[0].sectionPath, Some(open[0].blockType), src[c.charStart..c.charEnd],
                        0, 0, c.charStart, c.charEnd)
    ensures PackedAt(src, win, count, parent, children, c, s, k)
  {
    s := k - |open|;
    assert SumFrom(src, win, count, children, s, k, open, c.charStart, tokens);
    assert open[0] == win.blocks[s];
  }

  lemma FlushMade(src: Bytes, win: ParentWindow, count: Counter, parent: nat, children: seq<Chunk>, c: Chunk, s: nat,
                  k: nat)
    requires SpansItsBlocks(src, win) && PackedAt(src, win, count, parent, children, c, s, k)
    requires Sound(src, win, count, parent, children) && IsRun(src, win, count, parent, children)
    requires Assumed(src, count, win.blocks) ==> count(c.text) <= CHILD_LIMIT
    ensures Sound(src, win, count, parent, children + [c]) && IsRun(src, win, count, parent, children + [c])
  {
    PackedShape(src, win, count, parent, children, c, s, k);
    AppendSound(src, win, count, parent, children, c, s);
    AppendRun(src, win, count, parent, children, c);
  }

  lemma ExtendSum(src: Bytes, win: ParentWindow, count: Counter, children: seq<Chunk>, k: nat, open: seq<Block>,
                  start: nat, tokens: nat)
    requires IsSum(src, win, count, children, k, open, start, tokens) && k < |win.blocks|
    requires tokens + count(win.blocks[k].text) <= CHILD_LIMIT
    ensures IsSum(src, win, count, children, k + 1, open + [win.blocks[k]], start, tokens + count(win.blocks[k].text))
  {
    var s := k - |open|;
    assert SumFrom(src, win, count, children, s, k, open, start, tokens);
    SumSnoc(count, open, win.blocks[k]);
    assert SumFrom(src, win, count, children, s, k + 1, open + [win.blocks[k]], start,
                   tokens + count(win.blocks[k].text));
  }

  lemma OpenSum(src: Bytes, win: ParentWindow, count: Counter, children: seq<Chunk>, k: nat, start: nat, tokens: nat)
    requires k < |win.blocks| && win.blocks[k].charStart <= |src| && OpenedAt(src, win, count, children, k, start)
    requires tokens == SeedOverlapTokens(src, start, win.blocks[k].charStart, count)
      + count(win.blocks[k].text) <= CHILD_LIMIT
    ensures IsSum(src, win, count, children, k + 1, [win.blocks[k]], start, tokens)
  {
    SumSnoc(count, [], win.blocks[k]);
    assert [] + [win.blocks[k]] == [win.blocks[k]];
    assert SumFrom(src, win, count, children, k, k + 1, [win.blocks[k]], start, tokens);
  }

  ghost function OpenChild(src: Bytes, start: nat, end: nat): Chunk
    requires start <= end <= |src|
  {
    Chunk(None, 1, "", None, src[start..end], 0, 0, start, end)
  }

  /** What is pending before block `k` with no window open: the overlap with a packed child before it, nothing at the
      start or after a hard split. */
  ghost predicate IsPending(src: Bytes, win: ParentWindow, count: Counter, children: seq<Chunk>, k: nat,
                            pending: Option<nat>)
    requires k <= |win.blocks|
  {
    if k == 0 || count(win.blocks[k - 1].text) > CHILD_LIMIT then pending.None?
    else
      && children != []
      && var last := children[|children| - 1];
         if pending.Some? then SeedsAt(src, count, last, pending.value) else NeverSeeds(src, count, last)
  }

  /** The start the packing loop chooses for block `k`. */
  function OpeningStart(src: Bytes, win: ParentWindow, count: Counter, k: nat, pending: Option<nat>): nat
    requires k < |win.blocks|
  {
    if pending.Some? && SeedFits(src, win, count, k, pending.value) then pending.value else win.blocks[k].charStart
  }

  lemma PendingOpens(src: Bytes, win: ParentWindow, count: Counter, children: seq<Chunk>, k: nat, pending: Option<nat>)
    requires k < |win.blocks| && Covers(src, win, children, k) && IsPending(src, win, count, children, k, pending)
    requires count(win.blocks[k].text) <= CHILD_LIMIT
    ensures OpenedAt(src, win, count, children, k, OpeningStart(src, win, count, k, pending))
  {
    if pending.Some? {
      var last := children[|children| - 1];
      forall start: nat | SeedsAt(src, count, last, start)
        ensures start == pending.value
      {
        SeedUnique(src, count, last, start, pending.value);
      }
    }
  }

  /** Appends the open window, if any, and clears it. */
  method FlushChildWindow(src: Bytes, ghost win: ParentWindow, ghost count: Counter, ghost k: nat, parent: nat,
                          acc: ChildAccumulator, children: seq<Chunk>)
    returns (children': seq<Chunk>)
    requires Packing(src, win, count, children, k, acc.blocks, acc.charStart, acc.charEnd, acc.tokens)
    requires acc.blocks != [] ==> IsSum(src, win, count, children, k, acc.blocks, acc.charStart, acc.tokens)
    requires Sound(src, win, count, parent, children) && IsRun(src, win, count, parent, children)
    requires acc.blocks != [] && k < |win.blocks| ==> acc.tokens + count(win.blocks[k].text) > CHILD_LIMIT
    modifies acc
    ensures acc.blocks == [] && Covers(src, win, children', k)
    ensures Sound(src, win, count, parent, children') && IsRun(src, win, count, parent, children')
    ensures old(acc.blocks) == [] ==> children' == children
    ensures old(acc.blocks) != [] ==>
      && |children'| == |children| + 1 && children'[..|children|] == children
      && children'[|children|].charStart == old(acc.charStart) && children'[|children|].charEnd == old(acc.charEnd)
  {
    children' := children;
    if acc.blocks != [] {
      var c := Chunk(Some(parent), 1, acc.blocks[0].sectionPath, Some(acc.blocks[0].blockType),
                     src[acc.charStart..acc.charEnd], 0, 0, acc.charStart, acc.charEnd);
      Flushed(src, win, count, parent, children, k, acc.blocks, acc.tokens, c);
      children' := children + [c];
      acc.blocks, acc.charStart, acc.charEnd, acc.tokens := [], 0, 0, 0;
    }
  }

  lemma Flushed(src: Bytes, win: ParentWindow, count: Counter, parent: nat, children: seq<Chunk>, k: nat,
                open: seq<Block>, tokens: nat, c: Chunk)
    requires open != [] && Packing(src, win, count, children, k, open, c.charStart, c.charEnd, tokens)
    requires IsSum(src, win, count, children, k, open, c.charStart, tokens)
    requires k < |win.blocks| ==> tokens + count(win.blocks[k].text) > CHILD_LIMIT
    requires Sound(src, win, count, parent, children) && IsRun(src, win, count, parent, children)
    requires c == Chunk(Some(parent), 1, open[0].sectionPath, Some(open[0].blockType), src[c.charStart..c.charEnd],
                        0, 0, c.charStart, c.charEnd)
    ensures Covers(src, win, children + [c], k)
    ensures Sound(src, win, count, parent, children + [c]) && IsRun(src, win, count, parent, children + [c])
  {
    FlushCovers(src, win, count, children, k, open, c.charStart, c.charEnd, tokens, c);
    var s := FlushPacked(src, win, count, parent, children, k, open, tokens, c);
    FlushMade(src, win, count, parent, children, c, s, k);
  }

  lemma FlushCovers(src: Bytes, win: ParentWindow, count: Counter, children: seq<Chunk>, k: nat, open: seq<Block>,
                    start: nat, end: nat, tokens: nat, c: Chunk)
    requires open != [] && Packing(src, win, count, children, k, open, start, end, tokens)
    requires c.charStart == start && c.charEnd == end && c.text == src[start..end]
    ensures Covers(src, win, children + [c], k)
  {
    AppendChild(src, win, children, c);
  }

  /** Opens a window with block `k`, seeded with the pending overlap when both fit. */
  method OpenWindow(src: Bytes, win: ParentWindow, count: Counter, k: nat, acc: ChildAccumulator,
                    ghost children: seq<Chunk>, pending: Option<nat>)
    returns (pending': Option<nat>)
    requires SpansItsBlocks(src, win) && k < |win.blocks| && Covers(src, win, children, k)
    requires acc.blocks == [] && IsPending(src, win, count, children, k, pending)
    requires count(win.blocks[k].text) <= CHILD_LIMIT
    modifies acc
    ensures pending' == pending || pending'.None?
    ensures acc.blocks == [win.blocks[k]]
    ensures acc.charStart == OpeningStart(src, win, count, k, pending)
    ensures Packing(src, win, count, children, k + 1, acc.blocks, acc.charStart, acc.charEnd, acc.tokens)
    ensures IsSum(src, win, count, children, k + 1, acc.blocks, acc.charStart, acc.tokens)
  {
    var block := win.blocks[k];
    StartFrontier(src, win, children, k);
    var blockTokens := count(block.text);
    var overlapTokens := if pending.Some? then SeedOverlapTokens(src, pending.value, block.charStart, count) else 0;
    if overlapTokens + blockTokens > CHILD_LIMIT {
      pending' := None;
      acc.charStart := block.charStart;
      acc.tokens := 0;
    } else {
      pending' := pending;
      acc.charStart := if pending.Some? then pending.value else block.charStart;
      acc.tokens := overlapTokens;
    }
    acc.charEnd := block.charEnd;
    acc.tokens := acc.tokens + blockTokens;
    acc.blocks := acc.blocks + [block];
    OpenedPacking(src, win, count, children, k, acc.charStart, acc.tokens, block);
    PendingOpens(src, win, count, children, k, pending);
    OpenSum(src, win, count, children, k, acc.charStart, acc.tokens);
  }

  lemma OpenedFollows(src: Bytes, win: ParentWindow, count: Counter, children: seq<Chunk>, k: nat, start: nat)
    requires k < |win.blocks| && AtFrontier(src, win, children, k, win.blocks[k].charStart)
    requires Covers(src, win, children, k)
    requires start == win.blocks[k].charStart || (children != [] && IsSeed(src, count, children[|children| - 1], start))
    ensures start <= win.blocks[k].charStart < win.blocks[k].charEnd <= |src|
    ensures Follows(src, win, children, OpenChild(src, start, win.blocks[k].charEnd))
  {
    assert win.blocks[k].OfSource(src);
    if children != [] {
      LastBeforeFrontier(src, win, children, k, win.blocks[k].charStart);
      assert IsSlice(src, children[|children| - 1]) && win.charStart <= children[|children| - 1].charStart;
    } else {
      assert k == 0;
    }
  }

  lemma OpenedCovers(win: ParentWindow, children: seq<Chunk>, k: nat, start: nat, p: nat)
    requires k < |win.blocks| && start <= win.blocks[k].charStart
    requires InBlocks(win.blocks[..k], p) ==> InChildren(children, p)
    requires InBlocks(win.blocks[..k + 1], p)
    ensures InChildren(children, p) || start <= p < win.blocks[k].charEnd
  {
    SplitMembership(win.blocks, k, k + 1, p);
  }

  lemma OpenedPacking(src: Bytes, win: ParentWindow, count: Counter, children: seq<Chunk>, k: nat, start: nat,
                      tokens: nat, block: Block)
    requires k < |win.blocks| && AtFrontier(src, win, children, k, win.blocks[k].charStart)
    requires Covers(src, win, children, k) && block == win.blocks[k]
    requires start == block.charStart || (children != [] && IsSeed(src, count, children[|children| - 1], start))
    requires tokens <= CHILD_LIMIT && block.charStart <= |src|
    requires start <= block.charStart <= |src| ==>
      tokens == count(block.text) + (if start < block.charStart then count(src[start..block.charStart]) else 0)
    ensures Packing(src, win, count, children, k + 1, [block], start, block.charEnd, tokens)
  {
    OpenedFollows(src, win, count, children, k, start);
    forall p: nat | InBlocks(win.blocks[..k + 1], p)
      ensures InChildren(children, p) || start <= p < block.charEnd
    {
      OpenedCovers(win, children, k, start, p);
    }
    if Assumed(src, count, win.blocks) {
      assert block.OfSource(src);
      if start < block.charStart {
        MergeSpans(count, src, start, block.charStart, block.charStart, block.charEnd);
      }
    }
  }

  lemma ExtendedPacking(src: Bytes, win: ParentWindow, count: Counter, children: seq<Chunk>, k: nat,
                        open: seq<Block>, start: nat, end: nat, tokens: nat)
    requires open != [] && k < |win.blocks|
    requires Packing(src, win, count, children, k, open, start, end, tokens)
    requires tokens + count(win.blocks[k].text) <= CHILD_LIMIT
    ensures Packing(src, win, count, children, k + 1, open + [win.blocks[k]], start, win.blocks[k].charEnd,
                    tokens + count(win.blocks[k].text))
  {
    var block := win.blocks[k];
    BlockWithin(src, win, k);
    assert end <= block.charStart;
    ExtendedCovers(win, children, k, start, end);
    if Assumed(src, count, win.blocks) {
      assert BlankGapBefore(src, win.blocks, k);
      MergeSpans(count, src, start, end, block.charStart, block.charEnd);
    }
  }

  lemma ExtendedCovers(win: ParentWindow, children: seq<Chunk>, k: nat, start: nat, end: nat)
    requires k < |win.blocks| && start < end <= win.blocks[k].charStart <= win.blocks[k].charEnd
    requires forall p: nat :: InBlocks(win.blocks[..k], p) ==> InChildren(children, p) || start <= p < end
    ensures forall p: nat :: InBlocks(win.blocks[..k + 1], p) ==>
      InChildren(children, p) || start <= p < win.blocks[k].charEnd
  {
    forall p: nat | InBlocks(win.blocks[..k + 1], p)
      ensures InChildren(children, p) || start <= p < win.blocks[k].charEnd
    {
      SplitMembership(win.blocks, k, k + 1, p);
    }
  }

  lemma BlockWithin(src: Bytes, win: ParentWindow, k: nat)
    requires SpansItsBlocks(src, win) && k < |win.blocks|
    ensures win.blocks[k].OfSource(src) && win.blocks[k].charEnd <= win.charEnd
  {
    assert win.blocks[|win.blocks| - 1].OfSource(src);
    assert k < |win.blocks| - 1 ==> win.blocks[k].charEnd <= win.blocks[|win.blocks| - 1].charStart;
  }

  /** Closes the open window and opens the next with block `k`, seeded with the tail of the window just closed. */
  method Reopen(src: Bytes, win: ParentWindow, count: Counter, k: nat, parent: nat, acc: ChildAccumulator,
                children: seq<Chunk>)
    returns (children': seq<Chunk>, pending: Option<nat>)
    requires k < |win.blocks| && acc.blocks != []
    requires Sound(src, win, count, parent, children) && IsRun(src, win, count, parent, children)
    requires acc.tokens + count(win.blocks[k].text) > CHILD_LIMIT && count(win.blocks[k].text) <= CHILD_LIMIT
    requires Packing(src, win, count, children, k, acc.blocks, acc.charStart, acc.charEnd, acc.tokens)
    requires IsSum(src, win, count, children, k, acc.blocks, acc.charStart, acc.tokens)
    modifies acc
    ensures acc.blocks == [win.blocks[k]] && |children'| == |children| + 1
    ensures Sound(src, win, count, parent, children') && IsRun(src, win, count, parent, children')
    ensures Packing(src, win, count, children', k + 1, acc.blocks, acc.charStart, acc.charEnd, acc.tokens)
    ensures IsSum(src, win, count, children', k + 1, acc.blocks, acc.charStart, acc.tokens)
  {
    LastIsPacked(src, win, count, children, k, acc.blocks, acc.charStart, acc.tokens);
    children' := FlushChildWindow(src, win, count, k, parent, acc, children);
    assert IsSlice(src, children'[|children'| - 1]);
    pending := OverlapBackOff(src, win, Some(children'[|children'| - 1]), count);
    pending := OpenWindow(src, win, count, k, acc, children', pending);
  }

  /** The last open block fits by itself. */
  lemma LastIsPacked(src: Bytes, win: ParentWindow, count: Counter, children: seq<Chunk>, k: nat, open: seq<Block>,
                     start: nat, tokens: nat)
    requires IsSum(src, win, count, children, k, open, start, tokens) && open != []
    ensures 0 < k <= |win.blocks| && count(win.blocks[k - 1].text) <= CHILD_LIMIT
  {
    assert SumFrom(src, win, count, children, k - |open|, k, open, start, tokens);
    assert open[|open| - 1] == win.blocks[k - 1];
  }

  /** Closes the open window and hard-splits block `k`. */
  method CutBlock(src: Bytes, win: ParentWindow, count: Counter, k: nat, parent: nat, acc: ChildAccumulator,
                  children: seq<Chunk>)
    returns (children': seq<Chunk>, panicked: bool)
    requires k < |win.blocks| && count(win.blocks[k].text) > CHILD_LIMIT
    requires Sound(src, win, count, parent, children) && IsRun(src, win, count, parent, children)
    requires Packing(src, win, count, children, k, acc.blocks, acc.charStart, acc.charEnd, acc.tokens)
    requires acc.blocks != [] ==> IsSum(src, win, count, children, k, acc.blocks, acc.charStart, acc.tokens)
    modifies acc
    ensures acc.blocks == []
    ensures Sound(src, win, count, parent, children') && IsRun(src, win, count, parent, children')
    ensures panicked ==> StopsBefore(src, win, count, children', k + 1)
    ensures !panicked ==> Packing(src, win, count, children', k + 1, acc.blocks, acc.charStart, acc.charEnd, acc.tokens)
    ensures Monotone(count, src) ==> (panicked <==> CanStop(src, win, count, parent, k + 1))
    ensures OneByteChars(src) ==> !panicked
  {
    children' := FlushChildWindow(src, win, count, k, parent, acc, children);
    children', panicked := SplitOversizedChildBlock(src, win, k, parent, count, children');
  }

  /** Takes block `k` into the open window. */
  method Extend(src: Bytes, win: ParentWindow, count: Counter, k: nat, acc: ChildAccumulator,
                ghost children: seq<Chunk>)
    requires k < |win.blocks| && acc.blocks != [] && acc.tokens + count(win.blocks[k].text) <= CHILD_LIMIT
    requires Packing(src, win, count, children, k, acc.blocks, acc.charStart, acc.charEnd, acc.tokens)
    requires IsSum(src, win, count, children, k, acc.blocks, acc.charStart, acc.tokens)
    modifies acc
    ensures acc.blocks == old(acc.blocks) + [win.blocks[k]] && acc.charStart == old(acc.charStart)
    ensures Packing(src, win, count, children, k + 1, acc.blocks, acc.charStart, acc.charEnd, acc.tokens)
    ensures IsSum(src, win, count, children, k + 1, acc.blocks, acc.charStart, acc.tokens)
  {
    ExtendedPacking(src, win, count, children, k, acc.blocks, acc.charStart, acc.charEnd, acc.tokens);
    ExtendSum(src, win, count, children, k, acc.blocks, acc.charStart, acc.tokens);
    var blocks, tokens := acc.blocks + [win.blocks[k]], acc.tokens + count(win.blocks[k].text);
    acc.blocks, acc.charEnd, acc.tokens := blocks, win.blocks[k].charEnd, tokens;
  }

  /** One step of the packing loop: block `k` extends the open window, closes it and opens the next, or is
      hard-split. */
  method PackBlock(src: Bytes, win: ParentWindow, count: Counter, k: nat, parent: nat, acc: ChildAccumulator,
                   children: seq<Chunk>, pending: Option<nat>)
    returns (children': seq<Chunk>, pending': Option<nat>, panicked: bool)
    requires k < |win.blocks|
    requires Sound(src, win, count, parent, children) && IsRun(src, win, count, parent, children)
    requires Packing(src, win, count, children, k, acc.blocks, acc.charStart, acc.charEnd, acc.tokens)
    requires if acc.blocks == [] then IsPending(src, win, count, children, k, pending)
             else IsSum(src, win, count, children, k, acc.blocks, acc.charStart, acc.tokens)
    modifies acc
    ensures !panicked ==>
      && Packing(src, win, count, children', k + 1, acc.blocks, acc.charStart, acc.charEnd, acc.tokens)
      && if acc.blocks == [] then IsPending(src, win, count, children', k + 1, pending')
         else IsSum(src, win, count, children', k + 1, acc.blocks, acc.charStart, acc.tokens)
    ensures Sound(src, win, count, parent, children') && IsRun(src, win, count, parent, children')
    ensures panicked ==> StopsBefore(src, win, count, children', k + 1)
    ensures OneByteChars(src) ==> !panicked
  {
    children', pending', panicked := children, pending, false;
    var block := win.blocks[k];
    var blockTokens := count(block.text);
    if blockTokens > CHILD_LIMIT {
      children', panicked := CutBlock(src, win, count, k, parent, acc, children);
      pending' := None;
    } else if acc.blocks == [] {
      pending' := OpenWindow(src, win, count, k, acc, children, pending);
    } else if acc.tokens + blockTokens > CHILD_LIMIT {
      children', pending' := Reopen(src, win, count, k, parent, acc, children);
    } else {
      Extend(src, win, count, k, acc, children);
    }
  }

  /** All children of one parent window, made one after the other: they chain from the window's start to its end, cover
      every block byte, and keep the token bound, or stop in a hard split. For monotone counts they stop if and only if
      some run over the window does. */
  method BuildChildChunks(src: Bytes, win: ParentWindow, count: Counter, parent: nat)
    returns (children: seq<Chunk>, panicked: bool)
    requires SpansItsBlocks(src, win)
    ensures !panicked ==> Covers(src, win, children, |win.blocks|)
    ensures Sound(src, win, count, parent, children) && IsRun(src, win, count, parent, children)
    ensures panicked ==> StopsBefore(src, win, count, children, |win.blocks|)
    ensures Monotone(count, src) ==> (panicked <==> CanStop(src, win, count, parent, |win.blocks|))
    ensures OneByteChars(src) ==> !panicked
  {
    children, panicked := PackAll(src, win, count, parent);
    StopsExactly(src, win, count, parent, children, |win.blocks|, panicked);
  }

  /** The packing loop. */
  method PackAll(src: Bytes, win: ParentWindow, count: Counter, parent: nat)
    returns (children: seq<Chunk>, panicked: bool)
    requires SpansItsBlocks(src, win)
    ensures !panicked ==> Covers(src, win, children, |win.blocks|)
    ensures Sound(src, win, count, parent, children) && IsRun(src, win, count, parent, children)
    ensures panicked ==> StopsBefore(src, win, count, children, |win.blocks|)
    ensures OneByteChars(src) ==> !panicked
  {
    children, panicked := [], false;
    var acc := new ChildAccumulator();
    var pending: Option<nat> := None;
    for k := 0 to |win.blocks|
      invariant Packing(src, win, count, children, k, acc.blocks, acc.charStart, acc.charEnd, acc.tokens)
      invariant if acc.blocks == [] then IsPending(src, win, count, children, k, pending)
                else IsSum(src, win, count, children, k, acc.blocks, acc.charStart, acc.tokens)
      invariant Sound(src, win, count, parent, children) && IsRun(src, win, count, parent, children)
    {
      children, pending, panicked := PackBlock(src, win, count, k, parent, acc, children, pending);
      if panicked {
        StopsLater(src, win, count, children, k + 1, |win.blocks|);
        return;
      }
    }
    children := FlushChildWindow(src, win, count, |win.blocks|, parent, acc, children);
  }
}
