/** Finding the overlap between children and hard-splitting an oversized block into children (`overlap_back_off`,
    `split_oversized_child_block`). */
module ChunkChildren {
  import opened Wrappers
  import opened Utf8
  import opened ChunkSplit
  import opened ChunkParents
  import opened ChunkRuns
  import opened ChunkExact

  /** The earliest offset after a whitespace character from which the tail costs at most the overlap budget. */
  method EarliestTail(text: Bytes, count: Counter) returns (start: Option<nat>)
    ensures start.Some? ==> TailFits(text, count, start.value) && IsBoundary(text, start.value)
    ensures start.Some? ==> forall b: nat :: b < start.value ==> !TailFits(text, count, b)
    ensures start.None? ==> forall b: nat :: !TailFits(text, count, b)
  {
    for i := 0 to |text|
      invariant forall j :: 0 <= j < i && IsCut(text, j, true) ==>
        NextBoundary(text, j) == |text| || count(text[NextBoundary(text, j)..]) > CHILD_OVERLAP_TOKENS
    {
      if IsCut(text, i, true) {
        var b := NextBoundary(text, i);
        if b < |text| && count(text[b..]) <= CHILD_OVERLAP_TOKENS {
          return Some(b);
        }
      }
    }
    return None;
  }

  /** Where the next child may start inside the previous one, if anywhere. */
  method OverlapBackOff(src: Bytes, win: ParentWindow, last: Option<Chunk>, count: Counter) returns (start: Option<nat>)
    requires last.Some? ==> IsSlice(src, last.value) && last.value.charEnd <= win.charEnd
    ensures start.Some? ==> last.Some? && SeedsAt(src, count, last.value, start.value)
    ensures last.Some? && start.None? ==> NeverSeeds(src, count, last.value)
    ensures last.Some? && start.None? ==> forall b: nat :: !TailFits(last.value.text, count, b)
  {
    if last.None? {
      return None;
    }
    var prev := last.value;
    start := EarliestTail(prev.text, count);
    if start.Some? {
      SliceBoundary(src, prev.charStart, prev.charEnd, start.value);
      assert prev.text[start.value..] == src[prev.charStart + start.value..prev.charEnd];
      start := Some(prev.charStart + start.value);
    }
  }

  /** The forced one-byte advance is a legal cut exactly when the character at the frontier is one byte long;
      otherwise slicing the child panics. */
  lemma FrontierIsBoundary(src: Bytes, winStart: nat, segLen: nat, consumedEnd: nat, blockEnd: nat)
    requires consumedEnd < blockEnd <= |src| && winStart + segLen <= blockEnd
    requires IsBoundary(src, consumedEnd) && IsBoundary(src, blockEnd) && IsBoundary(src, winStart + segLen)
    ensures IsBoundary(src, AdvanceFrontier(winStart, segLen, consumedEnd, blockEnd))
       <==> (winStart + segLen > consumedEnd || NextBoundary(src, consumedEnd) == consumedEnd + 1)
  {
    if winStart + segLen <= consumedEnd && IsBoundary(src, consumedEnd + 1) {
      NextIs(src, consumedEnd, consumedEnd + 1);
    }
  }

  /** A forced advance costs the overlap plus one character. */
  lemma ForcedAdvanceBounded(src: Bytes, count: Counter, winStart: nat, prevEnd: nat, frontier: nat)
    requires TokenAssumptions(count, src) && winStart <= prevEnd <= frontier < |src|
    requires IsBlank(src[prevEnd..frontier]) && count(src[winStart..prevEnd]) <= CHILD_OVERLAP_TOKENS
    requires IsBoundary(src, frontier) && IsBoundary(src, frontier + 1)
    ensures count(src[winStart..frontier + 1]) <= CHILD_LIMIT
  {
    NextIs(src, frontier, frontier + 1);
    assert CheapCharAt(count, src, frontier);
    MergeSpans(count, src, winStart, prevEnd, frontier, frontier + 1);
  }

  lemma PieceBounded(src: Bytes, count: Counter, lo: nat, hi: nat)
    requires TokenAssumptions(count, src) && IsPiece(src, count, CHILD_LIMIT, lo, hi)
    ensures count(src[lo..hi]) <= CHILD_LIMIT
  {
    assert CheapCharAt(count, src, lo);
  }

  lemma HardSplitBounded(src: Bytes, win: ParentWindow, count: Counter, children: seq<Chunk>, k: nat,
                         winStart: nat, segLen: nat, f: nat, absEnd: nat)
    requires AtFrontier(src, win, children, k, f) && Assumed(src, count, win.blocks)
    requires winStart == f || (children != [] && IsSeed(src, count, children[|children| - 1], winStart))
    requires winStart <= f < absEnd <= |src| && IsBoundary(src, absEnd)
    requires IsPiece(src, count, CHILD_LIMIT, winStart, winStart + segLen)
    requires absEnd == if winStart + segLen <= f then f + 1 else winStart + segLen
    ensures count(src[winStart..absEnd]) <= CHILD_LIMIT
  {
    if absEnd == winStart + segLen {
      PieceBounded(src, count, winStart, absEnd);
    } else {
      LastBeforeFrontier(src, win, children, k, f);
      ForcedAdvanceBounded(src, count, winStart, children[|children| - 1].charEnd, f);
    }
  }

  /** Where the next hard-split child starts: inside the last child when an overlap is possible. */
  method StartStep(src: Bytes, win: ParentWindow, count: Counter, k: nat, children: seq<Chunk>, f: nat)
    returns (start: nat)
    requires AtFrontier(src, win, children, k, f)
    ensures start <= f && IsBoundary(src, start) && HardStarts(src, count, children, f, start)
    ensures start == f || (children != [] && SeedsAt(src, count, children[|children| - 1], start))
    ensures children != [] ==> children[|children| - 1].charStart < start
  {
    if children == [] {
      return f;
    }
    var last := children[|children| - 1];
    LastBeforeFrontier(src, win, children, k, f);
    assert IsSlice(src, last) && last.charEnd <= win.charEnd;
    var overlap := OverlapBackOff(src, win, Some(last), count);
    start := if overlap.Some? && overlap.value < f then overlap.value else f;
  }

  /** The next hard-split child: it starts inside the last child when an overlap is possible, and passes
      the frontier. */
  method HardSplitStep(src: Bytes, win: ParentWindow, k: nat, parent: nat, count: Counter, children: seq<Chunk>, f: nat)
    returns (c: Chunk, panicked: bool, ghost segLen: nat)
    requires AtFrontier(src, win, children, k, f) && f < win.blocks[k].charEnd
    requires count(win.blocks[k].text) > CHILD_LIMIT
    ensures !panicked ==> PassesFrontier(src, win, children, k, f, c)
    ensures !panicked ==> CutAt(src, win, count, parent, children, c, k, f, segLen)
    ensures !panicked && Assumed(src, count, win.blocks) ==> count(c.text) <= CHILD_LIMIT
    ensures OneByteChars(src) ==> !panicked
    ensures panicked ==> StopsAt(src, win, count, children, k, f, c.charStart, segLen)
  {
    var block := win.blocks[k];
    var winStart := StartStep(src, win, count, k, children, f);
    var len := NextCut(src, count, CHILD_LIMIT, winStart, block.charEnd);
    segLen := len;
    var absEnd := AdvanceFrontier(winStart, len, f, block.charEnd);
    FrontierIsBoundary(src, winStart, segLen, f, block.charEnd);
    panicked := !IsBoundary(src, absEnd);
    c := Chunk(Some(parent), 1, block.sectionPath, Some(block.blockType), src[winStart..absEnd], 0, 0, winStart,
               absEnd);
    if !panicked && Assumed(src, count, win.blocks) {
      HardSplitBounded(src, win, count, children, k, winStart, segLen, f, absEnd);
    }
  }

  lemma StepKept(src: Bytes, win: ParentWindow, count: Counter, parent: nat, children: seq<Chunk>, c: Chunk, k: nat,
                 f: nat, len: nat)
    requires Sound(src, win, count, parent, children) && IsRun(src, win, count, parent, children)
    requires CutAt(src, win, count, parent, children, c, k, f, len)
    requires Assumed(src, count, win.blocks) ==> count(c.text) <= CHILD_LIMIT
    ensures Sound(src, win, count, parent, children + [c]) && IsRun(src, win, count, parent, children + [c])
  {
    CutShape(src, win, count, parent, children, c, k, f, len);
    AppendSound(src, win, count, parent, children, c, k);
    AppendRun(src, win, count, parent, children, c);
  }

  /** The hard-splitting loop over block `k`. `panicked` reports a forced advance into the middle of a character. */
  method HardSplit(src: Bytes, win: ParentWindow, k: nat, parent: nat, count: Counter, children: seq<Chunk>)
    returns (children': seq<Chunk>, panicked: bool)
    requires SpansItsBlocks(src, win) && k < |win.blocks| && Covers(src, win, children, k)
    requires Sound(src, win, count, parent, children) && IsRun(src, win, count, parent, children)
    requires count(win.blocks[k].text) > CHILD_LIMIT
    ensures !panicked ==> AtFrontier(src, win, children', k, win.blocks[k].charEnd)
    ensures Sound(src, win, count, parent, children') && IsRun(src, win, count, parent, children')
    ensures children <= children' && (panicked ==> StopsBefore(src, win, count, children', k + 1))
    ensures OneByteChars(src) ==> !panicked
  {
    StartFrontier(src, win, children, k);
    children', panicked := children, false;
    var consumedEnd := win.blocks[k].charStart;
    while consumedEnd < win.blocks[k].charEnd
      invariant AtFrontier(src, win, children', k, consumedEnd)
      invariant Sound(src, win, count, parent, children') && IsRun(src, win, count, parent, children')
      invariant children <= children'
    {
      var c;
      ghost var segLen;
      c, panicked, segLen := HardSplitStep(src, win, k, parent, count, children', consumedEnd);
      if panicked {
        return;
      }
      HardSplitFollows(src, win, children', k, consumedEnd, c);
      StepKept(src, win, count, parent, children', c, k, consumedEnd, segLen);
      children' := children' + [c];
      consumedEnd := c.charEnd;
    }
  }

  /** Hard-splits block `k`. For monotone counts it panics if and only if some run over the window stops by
      this block. */
  method SplitOversizedChildBlock(src: Bytes, win: ParentWindow, k: nat, parent: nat, count: Counter,
                                  children: seq<Chunk>)
    returns (children': seq<Chunk>, panicked: bool)
    requires SpansItsBlocks(src, win) && k < |win.blocks| && Covers(src, win, children, k)
    requires Sound(src, win, count, parent, children) && IsRun(src, win, count, parent, children)
    requires count(win.blocks[k].text) > CHILD_LIMIT
    ensures !panicked ==> Covers(src, win, children', k + 1)
    ensures Sound(src, win, count, parent, children') && IsRun(src, win, count, parent, children')
    ensures children <= children' && (panicked ==> StopsBefore(src, win, count, children', k + 1))
    ensures Monotone(count, src) ==> (panicked <==> CanStop(src, win, count, parent, k + 1))
    ensures OneByteChars(src) ==> !panicked
  {
    children', panicked := HardSplit(src, win, k, parent, count, children);
    HardSplitEnds(src, win, count, parent, children', k, panicked);
  }

  lemma HardSplitEnds(src: Bytes, win: ParentWindow, count: Counter, parent: nat, children: seq<Chunk>, k: nat,
                      panicked: bool)
    requires SpansItsBlocks(src, win) && k < |win.blocks| && IsRun(src, win, count, parent, children)
    requires if panicked then StopsBefore(src, win, count, children, k + 1)
             else AtFrontier(src, win, children, k, win.blocks[k].charEnd)
    ensures !panicked ==> Covers(src, win, children, k + 1)
    ensures Monotone(count, src) ==> (panicked <==> CanStop(src, win, count, parent, k + 1))
  {
    if !panicked {
      HardSplitDone(src, win, children, k);
    }
    StopsExactly(src, win, count, parent, children, k + 1, panicked);
  }

  lemma HardSplitDone(src: Bytes, win: ParentWindow, children: seq<Chunk>, k: nat)
    requires k < |win.blocks| && AtFrontier(src, win, children, k, win.blocks[k].charEnd)
    ensures Covers(src, win, children, k + 1)
  {
    assert win.blocks[k].OfSource(src);
    forall p: nat | InBlocks(win.blocks[..k + 1], p)
      ensures InChildren(children, p)
    {
      SplitMembership(win.blocks, k, k + 1, p);
      if InBlocks(win.blocks[k..k + 1], p) {
        assert win.blocks[k].charStart <= p < win.blocks[k].charEnd;
      }
    }
  }
}
