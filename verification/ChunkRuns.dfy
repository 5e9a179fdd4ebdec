/** The children of one parent window: their spans, and how each follows from those before it. */
module ChunkRuns {
  import opened Wrappers
  import opened Utf8
  import opened ChunkSplit
  import opened ChunkParents

  /** `parent` is the ordinal of the enclosing parent; a parent has none and level 0. */
  datatype Chunk = Chunk(
    parent: Option<nat>, level: nat, sectionPath: string, blockType: Option<string>, text: Bytes,
    tokenStart: int, tokenEnd: int, charStart: nat, charEnd: nat)

  ghost predicate IsSlice(src: Bytes, c: Chunk) {
    && c.charStart < c.charEnd <= |src|
    && IsBoundary(src, c.charStart) && IsBoundary(src, c.charEnd)
    && c.text == src[c.charStart..c.charEnd]
  }

  ghost predicate InChildren(children: seq<Chunk>, p: nat) {
    exists i :: 0 <= i < |children| && children[i].charStart <= p < children[i].charEnd
  }

  /** Source slices inside the window, with strictly increasing starts and ends, the first at the window's start. */
  ghost predicate Chain(src: Bytes, win: ParentWindow, children: seq<Chunk>) {
    && (forall i :: 0 <= i < |children| ==>
          IsSlice(src, children[i]) && win.charStart <= children[i].charStart && children[i].charEnd <= win.charEnd)
    && (forall i, j :: 0 <= i < j < |children| ==>
          children[i].charStart < children[j].charStart && children[i].charEnd < children[j].charEnd)
    && (children != [] ==> children[0].charStart == win.charStart)
  }

  /** `c` may follow `children` in a chain. */
  ghost predicate Follows(src: Bytes, win: ParentWindow, children: seq<Chunk>, c: Chunk) {
    && IsSlice(src, c) && win.charStart <= c.charStart && c.charEnd <= win.charEnd
    && if children == [] then c.charStart == win.charStart
       else var last := children[|children| - 1]; last.charStart < c.charStart && last.charEnd < c.charEnd
  }

  /** The children end where block `k - 1` ends and cover the first `k` blocks. */
  ghost predicate Covers(src: Bytes, win: ParentWindow, children: seq<Chunk>, k: nat) {
    && Chain(src, win, children) && k <= |win.blocks|
    && (k == 0 ==> children == [])
    && (k > 0 ==> children != [] && children[|children| - 1].charEnd == win.blocks[k - 1].charEnd)
    && forall p: nat :: InBlocks(win.blocks[..k], p) ==> InChildren(children, p)
  }

  /** As `Covers`, plus the bytes of block `k` before `cut`. */
  ghost predicate CoversUpTo(src: Bytes, win: ParentWindow, children: seq<Chunk>, k: nat, cut: nat) {
    && k < |win.blocks| && Chain(src, win, children)
    && win.blocks[k].charStart < cut <= win.blocks[k].charEnd
    && children != [] && children[|children| - 1].charEnd == cut
    && forall p: nat :: InBlocks(win.blocks[..k], p) || win.blocks[k].charStart <= p < cut ==> InChildren(children, p)
  }

  ghost predicate Bounded(count: Counter, children: seq<Chunk>) {
    forall i :: 0 <= i < |children| ==> count(children[i].text) <= CHILD_LIMIT
  }

  /** Every chunk is a child of the given parent. */
  ghost predicate ChildrenOf(children: seq<Chunk>, parent: nat) {
    forall i :: 0 <= i < |children| ==> children[i].parent == Some(parent) && children[i].level == 1
  }

  lemma AppendChild(src: Bytes, win: ParentWindow, children: seq<Chunk>, c: Chunk)
    requires Chain(src, win, children) && Follows(src, win, children, c)
    ensures Chain(src, win, children + [c])
    ensures forall p: nat :: InChildren(children + [c], p) <==> InChildren(children, p) || c.charStart <= p < c.charEnd
  {
    AppendToChain(src, win, children, c);
    forall p: nat
      ensures InChildren(children + [c], p) <==> InChildren(children, p) || c.charStart <= p < c.charEnd
    {
      InChildrenSnoc(children, c, p);
    }
  }

  lemma AppendToChain(src: Bytes, win: ParentWindow, children: seq<Chunk>, c: Chunk)
    requires Chain(src, win, children) && Follows(src, win, children, c)
    ensures Chain(src, win, children + [c])
  {
    var n := |children|;
    forall i | 0 <= i < n
      ensures children[i].charStart < c.charStart && children[i].charEnd < c.charEnd
    {
      assert i < n - 1 ==>
        children[i].charStart < children[n - 1].charStart && children[i].charEnd < children[n - 1].charEnd;
    }
  }

  lemma InChildrenSnoc(children: seq<Chunk>, c: Chunk, p: nat)
    ensures InChildren(children + [c], p) <==> InChildren(children, p) || c.charStart <= p < c.charEnd
  {
    if InChildren(children, p) {
      var i :| 0 <= i < |children| && children[i].charStart <= p < children[i].charEnd;
      assert (children + [c])[i] == children[i];
    }
    if c.charStart <= p < c.charEnd {
      assert (children + [c])[|children|] == c;
    }
  }

  // ----- overlap -----

  /** A whitespace character of `text` ends at `b`, strictly inside `text`. */
  ghost predicate EndsWhitespace(text: Bytes, b: nat) {
    b < |text| && exists i :: 0 <= i < b && IsCut(text, i, true) && NextBoundary(text, i) == b
  }

  ghost predicate TailFits(text: Bytes, count: Counter, b: nat) {
    EndsWhitespace(text, b) && count(text[b..]) <= CHILD_OVERLAP_TOKENS
  }

  /** Every tail of `prev` within the overlap budget starts at `start` or later. */
  ghost predicate NoEarlierTail(count: Counter, prev: Chunk, start: nat) {
    forall b: nat :: TailFits(prev.text, count, b) ==> start <= prev.charStart + b
  }

  /** `start` lies strictly inside `prev`, after a whitespace character, with a tail within the overlap budget. */
  ghost predicate IsSeed(src: Bytes, count: Counter, prev: Chunk, start: nat) {
    && prev.charStart < start < prev.charEnd <= |src| && IsBoundary(src, start)
    && TailFits(prev.text, count, start - prev.charStart)
    && count(src[start..prev.charEnd]) <= CHILD_OVERLAP_TOKENS
  }

  /** The overlap start inside `last`: its earliest seed. */
  ghost predicate SeedsAt(src: Bytes, count: Counter, last: Chunk, start: nat) {
    IsSeed(src, count, last, start) && NoEarlierTail(count, last, start)
  }

  ghost predicate NeverSeeds(src: Bytes, count: Counter, last: Chunk) {
    forall start: nat :: !SeedsAt(src, count, last, start)
  }

  function SeedOverlapTokens(src: Bytes, overlapStart: nat, blockStart: nat, count: Counter): nat
    requires blockStart <= |src|
  {
    if overlapStart >= blockStart then 0 else count(src[overlapStart..blockStart])
  }

  // ----- labels, overlap and greedy packing -----

  /** The first block that reaches past byte `end`. */
  predicate IsNextBlock(win: ParentWindow, end: nat, k: nat) {
    k < |win.blocks| && end < win.blocks[k].charEnd && (k > 0 ==> win.blocks[k - 1].charEnd <= end)
  }

  function EndOf(win: ParentWindow, children: seq<Chunk>): nat {
    if children == [] then win.charStart else children[|children| - 1].charEnd
  }

  /** Child `i` has the section path and type of the first block that reaches past the child before it. */
  ghost predicate LabelledAt(win: ParentWindow, children: seq<Chunk>, i: int) {
    0 <= i < |children| && Labelled(win, if i == 0 then win.charStart else children[i - 1].charEnd, children[i])
  }

  ghost predicate Labelled(win: ParentWindow, end: nat, c: Chunk) {
    exists k: nat :: LabelledLike(win, end, c, k)
  }

  predicate LabelledLike(win: ParentWindow, end: nat, c: Chunk, k: nat) {
    IsNextBlock(win, end, k) && c.sectionPath == win.blocks[k].sectionPath
      && c.blockType == Some(win.blocks[k].blockType)
  }

  ghost predicate AllLabelled(win: ParentWindow, children: seq<Chunk>) {
    forall i :: 0 <= i < |children| ==> LabelledAt(win, children, i)
  }

  /** A child that starts before the end of the one before it starts at an overlap seed inside it. */
  ghost predicate StartsAfter(src: Bytes, count: Counter, prev: Chunk, start: nat) {
    prev.charEnd <= start || IsSeed(src, count, prev, start)
  }

  ghost predicate OverlapsAt(src: Bytes, count: Counter, children: seq<Chunk>, i: int) {
    0 < i < |children| && StartsAfter(src, count, children[i - 1], children[i].charStart)
  }

  ghost predicate AllOverlap(src: Bytes, count: Counter, children: seq<Chunk>) {
    forall i :: 0 < i < |children| ==> OverlapsAt(src, count, children, i)
  }

  lemma AppendOverlap(src: Bytes, count: Counter, children: seq<Chunk>, c: Chunk)
    requires AllOverlap(src, count, children)
    requires children != [] ==> StartsAfter(src, count, children[|children| - 1], c.charStart)
    ensures AllOverlap(src, count, children + [c])
  {
    forall i | 0 < i <= |children|
      ensures OverlapsAt(src, count, children + [c], i)
    {
      assert i < |children| ==> OverlapsAt(src, count, children, i);
    }
  }

  /** The child is packed from blocks `s` to `k`: its overlap and blocks are within the limit, and block `k` would have
      overrun it. */
  ghost predicate PackedFrom(src: Bytes, win: ParentWindow, count: Counter, c: Chunk, s: nat, k: nat) {
    && s < k <= |win.blocks| && win.blocks[s].charStart <= |src| && c.charEnd == win.blocks[k - 1].charEnd
    && var tokens := SeedOverlapTokens(src, c.charStart, win.blocks[s].charStart, count)
          + TokenSum(count, win.blocks[s..k]);
       tokens <= CHILD_LIMIT && (k < |win.blocks| ==> tokens + count(win.blocks[k].text) > CHILD_LIMIT)
  }

  /** The child ends inside block `k`, which is over the limit by itself. */
  predicate CutFrom(win: ParentWindow, count: Counter, c: Chunk, k: nat) {
    k < |win.blocks| && count(win.blocks[k].text) > CHILD_LIMIT
      && win.blocks[k].charStart < c.charEnd <= win.blocks[k].charEnd
  }

  /** Packing is greedy: a child is closed only because the next block does not fit, or is cut from an oversized one. */
  ghost predicate ChildFull(src: Bytes, win: ParentWindow, count: Counter, c: Chunk) {
    (exists s: nat, k: nat :: PackedFrom(src, win, count, c, s, k)) || exists k: nat :: CutFrom(win, count, c, k)
  }

  ghost predicate AllFull(src: Bytes, win: ParentWindow, count: Counter, children: seq<Chunk>) {
    forall i :: 0 <= i < |children| ==> ChildFull(src, win, count, children[i])
  }

  // ----- the frontier of a hard split -----

  /** Where the next hard-split child ends: the cut, or one byte past the frontier when the cut does not pass it. */
  function AdvanceFrontier(winStart: nat, segLen: nat, consumedEnd: nat, blockEnd: nat): (end: nat)
    ensures consumedEnd < blockEnd ==> consumedEnd < end <= blockEnd
  {
    var cut := if winStart + segLen < blockEnd then winStart + segLen else blockEnd;
    if cut <= consumedEnd then (if consumedEnd + 1 < blockEnd then consumedEnd + 1 else blockEnd) else cut
  }

  /** The children so far end at byte `f`, the frontier inside block `k`, or before the block when `f` is its start. */
  ghost predicate AtFrontier(src: Bytes, win: ParentWindow, children: seq<Chunk>, k: nat, f: nat) {
    && SpansItsBlocks(src, win) && k < |win.blocks| && IsBoundary(src, f)
    && win.blocks[k].charStart <= f <= win.blocks[k].charEnd <= win.charEnd
    && (|| (f == win.blocks[k].charStart && Covers(src, win, children, k))
        || CoversUpTo(src, win, children, k, f))
  }

  lemma StartFrontier(src: Bytes, win: ParentWindow, children: seq<Chunk>, k: nat)
    requires SpansItsBlocks(src, win) && k < |win.blocks| && Covers(src, win, children, k)
    ensures AtFrontier(src, win, children, k, win.blocks[k].charStart)
  {
    assert win.blocks[k].OfSource(src) && win.blocks[|win.blocks| - 1].OfSource(src);
    assert k < |win.blocks| - 1 ==> win.blocks[k].charEnd <= win.blocks[|win.blocks| - 1].charStart;
  }

  /** Between the last child and the frontier lies nothing but the blank gap between two blocks. */
  lemma LastBeforeFrontier(src: Bytes, win: ParentWindow, children: seq<Chunk>, k: nat, f: nat)
    requires AtFrontier(src, win, children, k, f) && children != []
    ensures children[|children| - 1].charEnd <= f
    ensures BlankGaps(src, win.blocks) ==> IsBlank(src[children[|children| - 1].charEnd..f])
  {
    if !CoversUpTo(src, win, children, k, f) {
      assert k > 0 && win.blocks[k - 1].charEnd <= win.blocks[k].charStart;
      assert BlankGaps(src, win.blocks) ==> BlankGapBefore(src, win.blocks, k);
    }
  }

  /** `c` covers the frontier and starts after the last child starts. */
  ghost predicate PassesFrontier(src: Bytes, win: ParentWindow, children: seq<Chunk>, k: nat, f: nat, c: Chunk)
    requires k < |win.blocks|
  {
    && IsSlice(src, c) && c.charStart <= f < c.charEnd <= win.blocks[k].charEnd
    && (if children == [] then c.charStart == f else children[|children| - 1].charStart < c.charStart)
  }

  lemma HardSplitFollows(src: Bytes, win: ParentWindow, children: seq<Chunk>, k: nat, f: nat, c: Chunk)
    requires AtFrontier(src, win, children, k, f) && PassesFrontier(src, win, children, k, f, c)
    ensures AtFrontier(src, win, children + [c], k, c.charEnd)
  {
    if children != [] {
      LastBeforeFrontier(src, win, children, k, f);
      assert IsSlice(src, children[|children| - 1]);
    } else {
      assert k == 0 && f == win.charStart;
    }
    AppendChild(src, win, children, c);
    forall p: nat | InBlocks(win.blocks[..k], p) || win.blocks[k].charStart <= p < c.charEnd
      ensures InChildren(children + [c], p)
    {
    }
  }

  /** A frontier inside a block makes that block the next one. */
  lemma FrontierNext(src: Bytes, win: ParentWindow, children: seq<Chunk>, k: nat, f: nat)
    requires AtFrontier(src, win, children, k, f) && f < win.blocks[k].charEnd
    ensures IsNextBlock(win, EndOf(win, children), k)
  {
    assert win.blocks[k].OfSource(src);
    assert k > 0 ==> win.blocks[k - 1].charEnd <= win.blocks[k].charStart;
    if children != [] {
      LastBeforeFrontier(src, win, children, k, f);
    }
  }

  // ----- how each child follows from those before it -----

  function ChildChunk(src: Bytes, win: ParentWindow, k: nat, parent: nat, start: nat, end: nat): Chunk
    requires k < |win.blocks| && start <= end <= |src|
  {
    Chunk(Some(parent), 1, win.blocks[k].sectionPath, Some(win.blocks[k].blockType), src[start..end], 0, 0, start, end)
  }

  /** A hard-split child starts at the overlap, or at the frontier when there is none. */
  ghost predicate HardStarts(src: Bytes, count: Counter, children: seq<Chunk>, f: nat, start: nat) {
    if children == [] then start == f
    else
      || SeedsAt(src, count, children[|children| - 1], start)
      || (start == f && NeverSeeds(src, count, children[|children| - 1]))
  }

  /** `c` is the hard-split child after `children`, cut from oversized block `k` at frontier `f`: it runs from the
      overlap to the cut of the rest, `len` bytes on, or one byte past the frontier. */
  ghost predicate CutAt(src: Bytes, win: ParentWindow, count: Counter, parent: nat, children: seq<Chunk>, c: Chunk,
                        k: nat, f: nat, len: nat)
  {
    && AtFrontier(src, win, children, k, f) && f < win.blocks[k].charEnd <= |src|
    && count(win.blocks[k].text) > CHILD_LIMIT
    && HardStarts(src, count, children, f, c.charStart) && c.charStart <= f
    && IsSplit(count, src[c.charStart..win.blocks[k].charEnd], CHILD_LIMIT, len)
    && c.charEnd == AdvanceFrontier(c.charStart, len, f, win.blocks[k].charEnd) && IsBoundary(src, c.charEnd)
    && c == ChildChunk(src, win, k, parent, c.charStart, c.charEnd)
  }

  /** The children end where block `s` is next. */
  predicate EndsBefore(win: ParentWindow, children: seq<Chunk>, s: nat) {
    && s < |win.blocks|
    && if s == 0 then children == []
       else children != [] && children[|children| - 1].charEnd == win.blocks[s - 1].charEnd
  }

  predicate SeedFits(src: Bytes, win: ParentWindow, count: Counter, s: nat, start: nat) {
    && s < |win.blocks| && win.blocks[s].charStart <= |src|
    && SeedOverlapTokens(src, start, win.blocks[s].charStart, count) + count(win.blocks[s].text) <= CHILD_LIMIT
  }

  ghost predicate NoSeedFits(src: Bytes, win: ParentWindow, count: Counter, last: Chunk, s: nat) {
    forall start: nat :: SeedsAt(src, count, last, start) ==> !SeedFits(src, win, count, s, start)
  }

  /** A packed child starts at the overlap with a packed child before it when that fits with its first block, and with
      that block otherwise. */
  ghost predicate PackStarts(src: Bytes, win: ParentWindow, count: Counter, children: seq<Chunk>, s: nat, start: nat)
    requires s < |win.blocks|
  {
    if children == [] || s == 0 || count(win.blocks[s - 1].text) > CHILD_LIMIT then start == win.blocks[s].charStart
    else
      var last := children[|children| - 1];
      || (SeedsAt(src, count, last, start) && SeedFits(src, win, count, s, start))
      || (start == win.blocks[s].charStart && NoSeedFits(src, win, count, last, s))
  }

  /** `c` is the child after `children` packed from blocks `s` to `k`. */
  ghost predicate PackedAt(src: Bytes, win: ParentWindow, count: Counter, parent: nat, children: seq<Chunk>, c: Chunk,
                           s: nat, k: nat)
  {
    && EndsBefore(win, children, s) && count(win.blocks[s].text) <= CHILD_LIMIT
    && PackStarts(src, win, count, children, s, c.charStart) && PackedFrom(src, win, count, c, s, k)
    && c.charStart <= c.charEnd <= |src| && c == ChildChunk(src, win, s, parent, c.charStart, c.charEnd)
  }

  /** `c` is what the splitter makes of the window after `children`. */
  ghost predicate NextChild(src: Bytes, win: ParentWindow, count: Counter, parent: nat, children: seq<Chunk>,
                            c: Chunk) {
    || (exists k: nat, f: nat, len: nat :: CutAt(src, win, count, parent, children, c, k, f, len))
    || (exists s: nat, k: nat :: PackedAt(src, win, count, parent, children, c, s, k))
  }

  ghost predicate ChildAt(src: Bytes, win: ParentWindow, count: Counter, parent: nat, children: seq<Chunk>, i: int) {
    0 <= i < |children| && NextChild(src, win, count, parent, children[..i], children[i])
  }

  /** The children are made one after the other, from the first on. */
  ghost predicate IsRun(src: Bytes, win: ParentWindow, count: Counter, parent: nat, children: seq<Chunk>) {
    forall i :: 0 <= i < |children| ==> ChildAt(src, win, count, parent, children, i)
  }

  lemma AppendRun(src: Bytes, win: ParentWindow, count: Counter, parent: nat, children: seq<Chunk>, c: Chunk)
    requires IsRun(src, win, count, parent, children) && NextChild(src, win, count, parent, children, c)
    ensures IsRun(src, win, count, parent, children + [c])
  {
    var all := children + [c];
    forall i | 0 <= i < |all|
      ensures ChildAt(src, win, count, parent, all, i)
    {
      if i < |children| {
        assert ChildAt(src, win, count, parent, children, i) && all[..i] == children[..i];
      } else {
        assert all[..i] == children;
      }
    }
  }

  lemma CutShape(src: Bytes, win: ParentWindow, count: Counter, parent: nat, children: seq<Chunk>, c: Chunk, k: nat,
                 f: nat, len: nat)
    requires CutAt(src, win, count, parent, children, c, k, f, len)
    ensures Shaped(src, win, count, parent, children, c, k)
  {
    assert CutFrom(win, count, c, k);
    FrontierNext(src, win, children, k, f);
    if children != [] {
      LastBeforeFrontier(src, win, children, k, f);
    }
  }

  lemma PackedShape(src: Bytes, win: ParentWindow, count: Counter, parent: nat, children: seq<Chunk>, c: Chunk, s: nat,
                    k: nat)
    requires SpansItsBlocks(src, win) && PackedAt(src, win, count, parent, children, c, s, k)
    ensures Shaped(src, win, count, parent, children, c, s)
  {
    assert win.blocks[s].OfSource(src);
    assert s > 0 ==> win.blocks[s - 1].charEnd <= win.blocks[s].charStart;
  }

  /** What the children carry besides their spans: parent, labels, bounded overlap, greedy packing and, under the
      assumptions, the token bound. */
  ghost predicate Sound(src: Bytes, win: ParentWindow, count: Counter, parent: nat, children: seq<Chunk>) {
    && ChildrenOf(children, parent) && AllLabelled(win, children) && AllOverlap(src, count, children)
    && AllFull(src, win, count, children)
    && (Assumed(src, count, win.blocks) ==> Bounded(count, children))
  }

  /** A child of such shape may follow sound children. */
  ghost predicate Shaped(src: Bytes, win: ParentWindow, count: Counter, parent: nat, children: seq<Chunk>, c: Chunk,
                         s: nat) {
    && c.parent == Some(parent) && c.level == 1
    && LabelledLike(win, EndOf(win, children), c, s) && ChildFull(src, win, count, c)
    && (children != [] ==> StartsAfter(src, count, children[|children| - 1], c.charStart))
  }

  lemma AppendSound(src: Bytes, win: ParentWindow, count: Counter, parent: nat, children: seq<Chunk>, c: Chunk, s: nat)
    requires Sound(src, win, count, parent, children) && Shaped(src, win, count, parent, children, c, s)
    requires Assumed(src, count, win.blocks) ==> count(c.text) <= CHILD_LIMIT
    ensures Sound(src, win, count, parent, children + [c])
  {
    AppendLabelled(win, children, c, s);
    AppendOverlap(src, count, children, c);
  }

  lemma AppendLabelled(win: ParentWindow, children: seq<Chunk>, c: Chunk, k: nat)
    requires AllLabelled(win, children) && LabelledLike(win, EndOf(win, children), c, k)
    ensures AllLabelled(win, children + [c])
  {
    forall i | 0 <= i <= |children|
      ensures LabelledAt(win, children + [c], i)
    {
      if i < |children| {
        assert LabelledAt(win, children, i);
      } else {
        assert Labelled(win, EndOf(win, children), c);
      }
    }
  }

  // ----- where a hard split panics -----

  /** Why a hard split panics: the last child ends before or at byte `f` of the oversized block `k`, the text from the
      overlap start `start` is cut `len` bytes on, not past `f`, and the character at `f` is longer than the one byte
      the frontier is then forced on by. */
  ghost predicate StopsAt(src: Bytes, win: ParentWindow, count: Counter, children: seq<Chunk>, k: nat, f: nat,
                          start: nat, len: nat) {
    && AtFrontier(src, win, children, k, f) && f < win.blocks[k].charEnd <= |src|
    && count(win.blocks[k].text) > CHILD_LIMIT
    && children != [] && SeedsAt(src, count, children[|children| - 1], start)
    && start + len <= f && IsSplit(count, src[start..win.blocks[k].charEnd], CHILD_LIMIT, len)
    && NextBoundary(src, f) > f + 1
  }

  ghost predicate Stops(src: Bytes, win: ParentWindow, count: Counter, children: seq<Chunk>) {
    exists k: nat, f: nat, start: nat, len: nat :: StopsAt(src, win, count, children, k, f, start, len)
  }
}
