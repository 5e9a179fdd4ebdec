/** Cutting one oversized text: the binary searches of `find_split` and the segment loop of
    `split_oversized`. A token count is any function of the bytes. */
module ChunkSplit {
  import opened Wrappers
  import opened Utf8

  type Counter = Bytes -> nat

  const CHILD_LIMIT: nat := 128 + 1
  const PARENT_LIMIT: nat := 512 + 1
  const CHILD_OVERLAP_TOKENS: nat := 16

  /** Block texts are verbatim source slices when `OfSource` holds; offsets are bytes. */
  datatype Block = Block(blockType: string, sectionPath: string, text: Bytes, charStart: nat, charEnd: nat) {
    predicate OfSource(src: Bytes) {
      && charStart < charEnd <= |src|
      && IsBoundary(src, charStart) && IsBoundary(src, charEnd)
      && text == src[charStart..charEnd]
    }
  }

  ghost predicate Ordered(blocks: seq<Block>) {
    forall i, j :: 0 <= i < j < |blocks| ==> blocks[i].charEnd <= blocks[j].charStart
  }

  ghost predicate OfSource(src: Bytes, blocks: seq<Block>) {
    (forall i :: 0 <= i < |blocks| ==> blocks[i].OfSource(src)) && Ordered(blocks)
  }

  /** Byte `p` lies in one of the blocks. */
  ghost predicate InBlocks(blocks: seq<Block>, p: nat) {
    exists i :: 0 <= i < |blocks| && blocks[i].charStart <= p < blocks[i].charEnd
  }

  // ----- what the token bounds assume of the tokenizer and of the gaps between blocks -----

  predicate MergeFits(count: Counter, a: Bytes, gap: Bytes, b: Bytes) {
    count(a + gap + b) <= count(a) + count(b)
  }

  /** Joining two texts, directly or across whitespace, never costs more than the two apart. */
  ghost predicate MergesCheaply(count: Counter) {
    forall a, gap, b {:trigger MergeFits(count, a, gap, b)} :: IsBlank(gap) ==> MergeFits(count, a, gap, b)
  }

  /** A single character costs few enough tokens to follow a full overlap. */
  ghost predicate CheapChars(count: Counter, src: Bytes) {
    forall i :: CheapCharAt(count, src, i)
  }

  predicate CheapCharAt(count: Counter, src: Bytes, i: int) {
    0 <= i < |src| && IsBoundary(src, i) ==> count(src[i..NextBoundary(src, i)]) <= CHILD_LIMIT - CHILD_OVERLAP_TOKENS
  }

  /** Only whitespace lies between block `i` and the block before it. */
  predicate BlankGapBefore(src: Bytes, blocks: seq<Block>, i: int) {
    && 0 < i < |blocks|
    && blocks[i - 1].charEnd <= blocks[i].charStart <= |src|
    && IsBlank(src[blocks[i - 1].charEnd..blocks[i].charStart])
  }

  ghost predicate BlankGaps(src: Bytes, blocks: seq<Block>) {
    forall i :: 0 < i < |blocks| ==> BlankGapBefore(src, blocks, i)
  }

  ghost predicate TokenAssumptions(count: Counter, src: Bytes) {
    MergesCheaply(count) && CheapChars(count, src)
  }

  lemma MergeSpans(count: Counter, src: Bytes, a: nat, b: nat, c: nat, d: nat)
    requires MergesCheaply(count)
    requires a <= b <= c <= d <= |src|
    requires IsBlank(src[b..c])
    ensures count(src[a..d]) <= count(src[a..b]) + count(src[c..d])
  {
    assert MergeFits(count, src[a..b], src[b..c], src[c..d]);
    assert src[a..b] + src[b..c] + src[c..d] == src[a..d];
  }

  // ----- find_split -----

  /** Byte offsets of the characters of `text` from `from` on (`char_indices`), or of its whitespace characters. */
  function CharIndices(text: Bytes, from: nat, onlyWhitespace: bool): (cuts: seq<nat>)
    requires from <= |text|
    ensures forall i :: 0 <= i < |cuts| ==> from <= cuts[i] < |text| && IsCut(text, cuts[i], onlyWhitespace)
    ensures forall i, j :: 0 <= i < j < |cuts| ==> cuts[i] < cuts[j]
    ensures forall p :: from <= p < |text| && IsCut(text, p, onlyWhitespace) ==> p in cuts
    decreases |text| - from
  {
    if from == |text| then []
    else if IsCut(text, from, onlyWhitespace) then [from] + CharIndices(text, from + 1, onlyWhitespace)
    else CharIndices(text, from + 1, onlyWhitespace)
  }

  predicate IsCut(text: Bytes, p: nat, onlyWhitespace: bool)
    requires p < |text|
  {
    IsBoundary(text, p) && (onlyWhitespace ==> IsWhitespaceAt(text, p))
  }

  predicate Fits(count: Counter, text: Bytes, limit: nat, p: nat)
    requires p <= |text|
  {
    count(text[..p]) <= limit
  }

  ghost predicate PrefixMonotone(count: Counter, text: Bytes) {
    forall p, q :: 0 <= p <= q <= |text| ==> count(text[..p]) <= count(text[..q])
  }

  /** `p` is a fitting cut of the given kind and no later one fits. */
  ghost predicate IsLastFitting(count: Counter, text: Bytes, limit: nat, onlyWhitespace: bool, p: nat) {
    && 0 < p < |text| && IsCut(text, p, onlyWhitespace) && Fits(count, text, limit, p)
    && forall q :: p < q < |text| && IsCut(text, q, onlyWhitespace) ==> !Fits(count, text, limit, q)
  }

  ghost predicate NoneFits(count: Counter, text: Bytes, limit: nat, onlyWhitespace: bool) {
    forall q :: 0 < q < |text| && IsCut(text, q, onlyWhitespace) ==> !Fits(count, text, limit, q)
  }

  /** The binary search both halves of `find_split` run over their candidate cuts. */
  method LastFitting(text: Bytes, count: Counter, limit: nat, onlyWhitespace: bool) returns (best: Option<nat>)
    requires text != []
    ensures best.Some? ==>
      0 < best.value < |text| && IsCut(text, best.value, onlyWhitespace) && Fits(count, text, limit, best.value)
    ensures PrefixMonotone(count, text) ==>
      if best.Some? then IsLastFitting(count, text, limit, onlyWhitespace, best.value)
      else NoneFits(count, text, limit, onlyWhitespace)
  {
    var cuts := CharIndices(text, 1, onlyWhitespace);
    var lo, hi := 0, |cuts|;
    best := None;
    while lo < hi
      invariant 0 <= lo <= hi <= |cuts|
      invariant best.Some? ==> best.value in cuts && Fits(count, text, limit, best.value)
      invariant PrefixMonotone(count, text) ==>
        && (forall i :: hi <= i < |cuts| ==> !Fits(count, text, limit, cuts[i]))
        && (forall i :: 0 <= i < lo ==> best.Some? && cuts[i] <= best.value)
    {
      var mid := lo + (hi - lo) / 2;
      var cut := cuts[mid];
      if count(text[..cut]) <= limit {
        best := Some(cut);
        lo := mid + 1;
      } else {
        if PrefixMonotone(count, text) {
          forall i | mid <= i < hi
            ensures !Fits(count, text, limit, cuts[i])
          {
            MisfitsLater(count, text, limit, cut, cuts[i]);
          }
        }
        hi := mid;
      }
    }
  }

  lemma MisfitsLater(count: Counter, text: Bytes, limit: nat, p: nat, q: nat)
    requires PrefixMonotone(count, text) && p <= q <= |text| && !Fits(count, text, limit, p)
    ensures !Fits(count, text, limit, q)
  {
  }

  /** A boundary past the start: the whole text when it fits, else a fitting cut or the first character. For monotone
      counts the last fitting whitespace cut, else the last fitting cut, else the first character. */
  ghost predicate IsSplit(count: Counter, text: Bytes, limit: nat, cut: nat)
    requires text != []
  {
    && 1 <= cut <= |text| && IsBoundary(text, cut)
    && (Fits(count, text, limit, cut) || cut == NextBoundary(text, 0))
    && (count(text) <= limit ==> cut == |text|)
    && (count(text) > limit && PrefixMonotone(count, text) ==>
          || IsLastFitting(count, text, limit, true, cut)
          || (NoneFits(count, text, limit, true) && IsLastFitting(count, text, limit, false, cut))
          || (NoneFits(count, text, limit, false) && cut == NextBoundary(text, 0)))
  }

  /** Where to cut `text` so that its head stays within `limit` tokens. */
  method FindSplit(text: Bytes, count: Counter, limit: nat) returns (cut: nat)
    ensures text == [] ==> cut == if count(text) <= limit then 0 else 1
    ensures text != [] ==> IsSplit(count, text, limit, cut)
  {
    if count(text) <= limit {
      assert text[..|text|] == text;
      return |text|;
    }
    if text == [] {
      return 1;
    }
    var best := LastFitting(text, count, limit, true);
    if best.Some? {
      return best.value;
    }
    best := LastFitting(text, count, limit, false);
    cut := if best.Some? then best.value else NextBoundary(text, 0);
  }

  // ----- split_oversized -----

  /** The span is non-empty, on boundaries, and within `limit` tokens unless it is a single character. */
  ghost predicate IsPiece(src: Bytes, count: Counter, limit: nat, lo: nat, hi: nat) {
    && lo < hi <= |src| && IsBoundary(src, lo) && IsBoundary(src, hi)
    && (count(src[lo..hi]) <= limit || hi == NextBoundary(src, lo))
  }

  predicate Abut(spans: seq<(nat, nat)>, i: int) {
    0 < i < |spans| && spans[i - 1].1 == spans[i].0
  }

  /** Consecutive pieces from `lo` to `hi`. */
  ghost predicate Tiles(src: Bytes, count: Counter, limit: nat, spans: seq<(nat, nat)>, lo: nat, hi: nat) {
    && (forall i :: 0 <= i < |spans| ==> IsPiece(src, count, limit, spans[i].0, spans[i].1))
    && (forall i :: 0 < i < |spans| ==> Abut(spans, i))
    && (if spans == [] then lo == hi else spans[0].0 == lo && spans[|spans| - 1].1 == hi)
  }

  lemma AppendPiece(src: Bytes, count: Counter, limit: nat, spans: seq<(nat, nat)>, lo: nat, mid: nat, hi: nat)
    requires Tiles(src, count, limit, spans, lo, mid) && IsPiece(src, count, limit, mid, hi)
    ensures Tiles(src, count, limit, spans + [(mid, hi)], lo, hi)
  {
    forall i | 0 < i <= |spans|
      ensures Abut(spans + [(mid, hi)], i)
    {
      assert i < |spans| ==> Abut(spans, i);
    }
  }

  /** Cutting the rest of a span with `find_split` yields a piece of the source. */
  method NextCut(src: Bytes, count: Counter, limit: nat, lo: nat, hi: nat) returns (len: nat)
    requires lo < hi <= |src| && IsBoundary(src, lo) && IsBoundary(src, hi)
    ensures 1 <= len <= hi - lo && IsPiece(src, count, limit, lo, lo + len)
    ensures IsSplit(count, src[lo..hi], limit, len)
  {
    len := FindSplit(src[lo..hi], count, limit);
    SliceBoundary(src, lo, hi, len);
    SliceNextBoundary(src, lo, hi);
    assert src[lo..hi][..len] == src[lo..lo + len];
  }

  method NextPiece(src: Bytes, count: Counter, limit: nat, lo: nat, hi: nat) returns (len: nat)
    requires lo < hi <= |src| && IsBoundary(src, lo) && IsBoundary(src, hi)
    ensures 1 <= len <= hi - lo && IsPiece(src, count, limit, lo, lo + len)
  {
    len := NextCut(src, count, limit, lo, hi);
  }

  /** Cuts an oversized block into consecutive pieces. */
  method SplitOversized(src: Bytes, block: Block, limit: nat, count: Counter) returns (spans: seq<(nat, nat)>)
    requires block.OfSource(src)
    ensures spans != []
    ensures Tiles(src, count, if limit < 1 then 1 else limit, spans, block.charStart, block.charEnd)
  {
    var limit' := if limit < 1 then 1 else limit;
    spans := [];
    var segStart := 0;
    while segStart < |block.text|
      invariant 0 <= segStart <= |block.text|
      invariant IsBoundary(src, block.charStart + segStart)
      invariant Tiles(src, count, limit', spans, block.charStart, block.charStart + segStart)
    {
      assert block.text[segStart..] == src[block.charStart + segStart..block.charEnd];
      var segLen := NextPiece(src, count, limit', block.charStart + segStart, block.charEnd);
      var segEnd := segStart + segLen;
      AppendPiece(src, count, limit', spans, block.charStart, block.charStart + segStart, block.charStart + segEnd);
      spans := spans + [(block.charStart + segStart, block.charStart + segEnd)];
      segStart := segEnd;
    }
  }
}
