/** Sources on which the splitter never panics: what it may have to cut has short words, or one-byte characters only. */
module ChunkWords {
  import opened Utf8
  import opened ChunkSplit
  import opened ChunkParents
  import opened ChunkRuns
  import opened ChunkExact

  // ----- one-byte characters -----

  predicate OneByteAt(src: Bytes, i: int) {
    0 <= i < |src| && (IsBoundary(src, i) ==> NextBoundary(src, i) == i + 1)
  }

  /** A block that the child splitter may have to cut in several places has only one-byte characters. */
  ghost predicate NarrowIfCut(src: Bytes, count: Counter, b: Block) {
    count(b.text) > CHILD_LIMIT ==> forall i :: b.charStart <= i < b.charEnd ==> OneByteAt(src, i)
  }

  // ----- short words -----

  /** A stretch of characters with no whitespace after its first one. */
  ghost predicate IsWord(src: Bytes, a: int, e: int) {
    && 0 <= a < e <= |src| && IsBoundary(src, a) && IsBoundary(src, e)
    && forall i :: a < i < e && IsBoundary(src, i) ==> !IsWhitespaceAt(src, i)
  }

  ghost predicate ShortAt(src: Bytes, count: Counter, a: int, e: int) {
    IsWord(src, a, e) ==> count(src[a..e]) <= CHILD_LIMIT - CHILD_OVERLAP_TOKENS
  }

  /** A block that the child splitter may have to cut in several places has no word over 113 tokens. */
  ghost predicate ShortIfCut(src: Bytes, count: Counter, b: Block) {
    count(b.text) > CHILD_LIMIT ==> forall a, e :: b.charStart <= a < e <= b.charEnd ==> ShortAt(src, count, a, e)
  }

  /** The first place after `p` where `text` may be cut before whitespace, or its end. */
  function NextSpace(text: Bytes, p: nat): (q: nat)
    requires p < |text|
    ensures p < q <= |text| && (q < |text| ==> IsCut(text, q, true))
    decreases |text| - p
  {
    if p + 1 == |text| || IsCut(text, p + 1, true) then p + 1 else NextSpace(text, p + 1)
  }

  lemma {:induction false} NoSpaceBefore(text: Bytes, p: nat, i: nat)
    requires p < |text| && p < i < NextSpace(text, p)
    ensures i < |text| && !IsCut(text, i, true)
    decreases |text| - p
  {
    if i > p + 1 {
      NoSpaceBefore(text, p + 1, i);
    }
  }

  /** Whitespace of the source is whitespace of a slice that ends at a boundary. */
  lemma SpaceInSlice(src: Bytes, lo: nat, hi: nat, i: nat)
    requires lo < i < hi <= |src| && IsBoundary(src, hi) && IsBoundary(src, i) && IsWhitespaceAt(src, i)
    ensures IsCut(src[lo..hi], i - lo, true)
  {
    var t := src[lo..hi];
    assert t[i - lo] == src[i];
    assert i + 1 < hi ==> t[i + 1 - lo] == src[i + 1];
    assert i + 2 < hi ==> t[i + 2 - lo] == src[i + 2];
  }

  lemma WordUpTo(src: Bytes, lo: nat, hi: nat, f: nat)
    requires lo < f < hi <= |src| && IsBoundary(src, lo) && IsBoundary(src, f) && IsBoundary(src, hi)
    ensures IsWord(src, f, lo + NextSpace(src[lo..hi], f - lo))
  {
    var q := NextSpace(src[lo..hi], f - lo);
    if q < hi - lo {
      SliceBoundary(src, lo, hi, q);
    }
    forall i | f < i < lo + q && IsBoundary(src, i)
      ensures !IsWhitespaceAt(src, i)
    {
      NoSpaceBefore(src[lo..hi], f - lo, i - lo);
      if IsWhitespaceAt(src, i) {
        SpaceInSlice(src, lo, hi, i);
      }
    }
  }

  /** A cut of an overlap and a short word after it passes the word. */
  lemma SplitPassesWord(count: Counter, text: Bytes, p: nat, len: nat)
    requires p < |text| && PrefixMonotone(count, text) && IsSplit(count, text, CHILD_LIMIT, len)
    requires Fits(count, text, CHILD_LIMIT, NextSpace(text, p))
    ensures len > p
  {
    var q := NextSpace(text, p);
    if q == |text| {
      assert text[..q] == text;
    } else {
      assert IsCut(text, q, false);
    }
  }

  lemma ShortWord(src: Bytes, count: Counter, b: Block, a: nat, e: nat)
    requires ShortIfCut(src, count, b) && count(b.text) > CHILD_LIMIT && b.charStart <= a < e <= b.charEnd
    requires IsWord(src, a, e)
    ensures count(src[a..e]) <= CHILD_LIMIT - CHILD_OVERLAP_TOKENS
  {
    assert ShortAt(src, count, a, e);
  }

  /** An overlap that ends at `prevEnd` and the word at the frontier `f`, only whitespace between them, fit together. */
  lemma WordFits(src: Bytes, b: Block, count: Counter, start: nat, prevEnd: nat, f: nat)
    requires TokenAssumptions(count, src) && ShortIfCut(src, count, b) && count(b.text) > CHILD_LIMIT
    requires start < prevEnd <= f < b.charEnd <= |src| && b.charStart <= f
    requires IsBoundary(src, start) && IsBoundary(src, f) && IsBoundary(src, b.charEnd)
    requires count(src[start..prevEnd]) <= CHILD_OVERLAP_TOKENS && IsBlank(src[prevEnd..f])
    ensures Fits(count, src[start..b.charEnd], CHILD_LIMIT, NextSpace(src[start..b.charEnd], f - start))
  {
    var e := start + NextSpace(src[start..b.charEnd], f - start);
    WordUpTo(src, start, b.charEnd, f);
    ShortWord(src, count, b, f, e);
    MergeSpans(count, src, start, prevEnd, f, e);
    SliceHead(src, start, b.charEnd, e);
  }

  /** Within short words the cut of the rest always passes the frontier. */
  lemma ShortPasses(src: Bytes, win: ParentWindow, count: Counter, children: seq<Chunk>, k: nat, f: nat, start: nat,
                    len: nat)
    requires Monotone(count, src) && Assumed(src, count, win.blocks)
    requires AtFrontier(src, win, children, k, f) && f < win.blocks[k].charEnd <= |src|
    requires count(win.blocks[k].text) > CHILD_LIMIT && ShortIfCut(src, count, win.blocks[k])
    requires children != [] && IsSeed(src, count, children[|children| - 1], start) && start < win.blocks[k].charEnd
    requires IsSplit(count, src[start..win.blocks[k].charEnd], CHILD_LIMIT, len)
    ensures start + len > f
  {
    var hi := win.blocks[k].charEnd;
    LastBeforeFrontier(src, win, children, k, f);
    assert win.blocks[k].OfSource(src);
    WordFits(src, win.blocks[k], count, start, children[|children| - 1].charEnd, f);
    assert IsSpan(src, start, hi);
    SplitPassesWord(count, src[start..hi], f - start, len);
  }

  // ----- no run stops -----

  ghost predicate AllNarrow(src: Bytes, count: Counter, blocks: seq<Block>) {
    forall i :: 0 <= i < |blocks| ==> NarrowIfCut(src, count, blocks[i])
  }

  /** The token assumptions hold, counts are monotone, and words are short in every block that may have to be cut. */
  ghost predicate ShortWords(src: Bytes, count: Counter, blocks: seq<Block>) {
    Monotone(count, src) && Assumed(src, count, blocks) && AllShort(src, count, blocks)
  }

  ghost predicate AllShort(src: Bytes, count: Counter, blocks: seq<Block>) {
    forall i :: 0 <= i < |blocks| ==> ShortIfCut(src, count, blocks[i])
  }

  lemma NarrowAt(src: Bytes, count: Counter, b: Block, i: nat)
    requires NarrowIfCut(src, count, b) && count(b.text) > CHILD_LIMIT && b.charStart <= i < b.charEnd
    ensures OneByteAt(src, i)
  {
  }

  lemma NarrowNeverStops(src: Bytes, count: Counter, w: ParentWindow, children: seq<Chunk>, n: nat)
    requires AllNarrow(src, count, w.blocks)
    ensures !StopsBefore(src, w, count, children, n)
  {
    if k: nat, f: nat, start: nat, len: nat :| k < n && StopsAt(src, w, count, children, k, f, start, len) {
      NarrowAt(src, count, w.blocks[k], f);
    }
  }

  /** Under the token assumptions and for monotone counts, a window whose oversized blocks have short words never
      makes the splitter panic, whatever its script. */
  lemma ShortWordsNeverStop(src: Bytes, count: Counter, w: ParentWindow, children: seq<Chunk>, n: nat)
    requires ShortWords(src, count, w.blocks)
    ensures !StopsBefore(src, w, count, children, n)
  {
    if k: nat, f: nat, start: nat, len: nat :| k < n && StopsAt(src, w, count, children, k, f, start, len) {
      assert ShortIfCut(src, count, w.blocks[k]);
      ShortPasses(src, w, count, children, k, f, start, len);
    }
  }

  // ----- from the blocks to the windows they are packed into -----

  /** Narrow and short blocks make narrow and short windows: a window holds whole blocks, or a piece of one that is
      itself cut. */
  lemma PackedWindow(src: Bytes, count: Counter, blocks: seq<Block>, w: ParentWindow)
    requires SpansItsBlocks(src, w) && ClosedFull(count, blocks, w)
    ensures AllNarrow(src, count, blocks) ==> AllNarrow(src, count, w.blocks)
    ensures AllShort(src, count, blocks) ==> AllShort(src, count, w.blocks)
  {
    if k: nat :| IsPieceOf(count, blocks, w, k) {
      forall i | 0 <= i < |w.blocks|
        ensures NarrowIfCut(src, count, blocks[k]) ==> NarrowIfCut(src, count, w.blocks[i])
        ensures ShortIfCut(src, count, blocks[k]) ==> ShortIfCut(src, count, w.blocks[i])
      {
        BlockInside(src, w, i);
        PartOf(src, count, blocks[k], w.blocks[i]);
      }
    }
  }

  lemma BlockInside(src: Bytes, w: ParentWindow, i: nat)
    requires SpansItsBlocks(src, w) && i < |w.blocks|
    ensures w.charStart <= w.blocks[i].charStart && w.blocks[i].charEnd <= w.charEnd
  {
    var n := |w.blocks| - 1;
    assert w.blocks[0].OfSource(src) && w.blocks[n].OfSource(src);
    assert i > 0 ==> w.blocks[0].charEnd <= w.blocks[i].charStart;
    assert i < n ==> w.blocks[i].charEnd <= w.blocks[n].charStart;
  }

  lemma PartOf(src: Bytes, count: Counter, b: Block, part: Block)
    requires count(b.text) > CHILD_LIMIT && b.charStart <= part.charStart && part.charEnd <= b.charEnd
    ensures NarrowIfCut(src, count, b) ==> NarrowIfCut(src, count, part)
    ensures ShortIfCut(src, count, b) ==> ShortIfCut(src, count, part)
  {
  }
}
