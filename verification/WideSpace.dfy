/** A well-formed source on which the whole chunker panics, with every assumption about tokens met. */
module WideSpace {
  import opened Wrappers
  import opened Utf8
  import opened ChunkSplit
  import opened KeptBlocks
  import opened ChunkParents
  import opened ChunkRuns
  import opened ChunkExact
  import opened ChunkChildren
  import opened Chunker

  // ----- a token count that meets the assumptions -----

  predicate IsLetter(b: Byte) {
    b == 0x61 || b == 0x62
  }

  function Letters(s: Bytes): nat {
    if s == [] then 0 else Letters(s[..|s| - 1]) + if IsLetter(s[|s| - 1]) then 1 else 0
  }

  /** Eight tokens a letter, nothing for anything else. */
  function LetterTokens(): Counter {
    (s: Bytes) => 8 * Letters(s)
  }

  lemma {:induction false} LettersConcat(a: Bytes, b: Bytes)
    ensures Letters(a + b) == Letters(a) + Letters(b)
    decreases |b|
  {
    if b == [] {
      assert a + b == a;
    } else {
      var n := |b| - 1;
      assert (a + b)[..|a| + n] == a + b[..n];
      LettersConcat(a, b[..n]);
    }
  }

  lemma {:induction false} NoLetters(s: Bytes)
    requires forall i :: 0 <= i < |s| ==> !IsLetter(s[i])
    ensures Letters(s) == 0
    decreases |s|
  {
    if s != [] {
      NoLetters(s[..|s| - 1]);
    }
  }

  lemma {:induction false} OnlyLetters(s: Bytes)
    requires forall i :: 0 <= i < |s| ==> IsLetter(s[i])
    ensures Letters(s) == |s|
    decreases |s|
  {
    if s != [] {
      OnlyLetters(s[..|s| - 1]);
    }
  }

  lemma BlankHasNoLetters(gap: Bytes)
    requires IsBlank(gap)
    ensures Letters(gap) == 0
  {
    forall i | 0 <= i < |gap|
      ensures !IsLetter(gap[i])
    {
      if IsLetter(gap[i]) {
        assert IsBoundary(gap, i);
      }
    }
    NoLetters(gap);
  }

  lemma LettersMerge()
    ensures MergesCheaply(LetterTokens())
  {
    forall a, gap, b | IsBlank(gap)
      ensures MergeFits(LetterTokens(), a, gap, b)
    {
      BlankHasNoLetters(gap);
      LettersConcat(a + gap, b);
      LettersConcat(a, gap);
    }
  }

  /** The bytes of a character after its first one are no letters. */
  lemma LettersCheap(src: Bytes)
    ensures CheapChars(LetterTokens(), src)
  {
    forall i | 0 <= i < |src| && IsBoundary(src, i)
      ensures Letters(src[i..NextBoundary(src, i)]) <= 1
    {
      var n := NextBoundary(src, i);
      var rest := src[i + 1..n];
      forall k | 0 <= k < |rest|
        ensures !IsLetter(rest[k])
      {
        assert !IsBoundary(src, i + 1 + k);
      }
      NoLetters(rest);
      assert src[i..n] == [src[i]] + rest;
      LettersConcat([src[i]], rest);
      OneByte(src[i]);
    }
    forall i
      ensures CheapCharAt(LetterTokens(), src, i)
    {
    }
  }

  lemma OneByte(b: Byte)
    ensures Letters([b]) == if IsLetter(b) then 1 else 0
  {
    assert [b][..0] == [];
  }

  lemma LettersMonotone(src: Bytes)
    ensures Monotone(LetterTokens(), src)
  {
    forall lo, hi | IsSpan(src, lo, hi)
      ensures PrefixMonotone(LetterTokens(), src[lo..hi])
    {
      PrefixLetters(src[lo..hi]);
    }
  }

  lemma PrefixLetters(text: Bytes)
    ensures PrefixMonotone(LetterTokens(), text)
  {
    forall p, q | 0 <= p <= q <= |text|
      ensures Letters(text[..p]) <= Letters(text[..q])
    {
      assert text[..q] == text[..p] + text[p..q];
      LettersConcat(text[..p], text[p..q]);
    }
  }

  // ----- the source -----

  const HEAD: Bytes := [0x61, 0x20, 0x61]
  const WIDE: Bytes := [0xE3, 0x80, 0x80]

  function Word(): Bytes {
    seq(20, i => 0x62)
  }

  /** "a a", an ideographic space (U+3000) and a long word. */
  function PanicSource(): Bytes {
    HEAD + WIDE + Word()
  }

  lemma {:induction false} AsciiValid(s: Bytes)
    requires forall i :: 0 <= i < |s| ==> s[i] < 0x80
    ensures Valid(s)
    decreases |s|
  {
    if s != [] {
      assert CharLen(s) == 1;
      AsciiValid(s[1..]);
    }
  }

  lemma PanicSourceValid()
    ensures Valid(PanicSource())
  {
    AsciiValid(HEAD);
    assert CharLen(WIDE) == 3 && WIDE[3..] == [];
    assert Valid(WIDE);
    AsciiValid(Word());
    ValidConcat(HEAD, WIDE);
    ValidConcat(HEAD + WIDE, Word());
  }

  lemma WideBytes()
    ensures var src := PanicSource();
      && |src| == 26 && src[3] == 0xE3 && src[4] == 0x80 && src[5] == 0x80
      && !IsBoundary(src, 4) && IsBoundary(src, 3) && NextBoundary(src, 3) > 4
  {
    assert PanicSource()[4] == 0x80;
  }

  lemma SourceLetters()
    ensures var src := PanicSource();
      && Letters(src) == 22 && Letters(src[2..]) == 21 && Letters(src[0..3]) == 2 && Letters(src[2..3]) == 1
  {
    var src := PanicSource();
    OneByte(0x61);
    NoLetters([0x20]);
    NoLetters(WIDE);
    OnlyLetters(Word());
    LettersConcat([0x61], [0x20]);
    LettersConcat([0x61] + [0x20], [0x61]);
    assert HEAD == [0x61] + [0x20] + [0x61];
    LettersConcat(HEAD, WIDE);
    LettersConcat(HEAD + WIDE, Word());
    assert src[2..] == [0x61] + (WIDE + Word());
    LettersConcat(WIDE, Word());
    LettersConcat([0x61], WIDE + Word());
    assert src[0..3] == HEAD && src[2..3] == [0x61];
  }

  function PanicBlock(): Block {
    Block("paragraph", "", PanicSource(), 0, |PanicSource()|)
  }

  /** The whole source is one block of one window. */
  function PanicWindow(): ParentWindow {
    ParentWindow(PanicSource(), "", Some("paragraph"), 0, |PanicSource()|, [PanicBlock()])
  }

  lemma PanicBlockIsSource()
    ensures PanicBlock().OfSource(PanicSource()) && OfSource(PanicSource(), [PanicBlock()])
    ensures HoldsText(PanicBlock()) && TextOfSource(PanicSource(), [PanicBlock()])
  {
    var src := PanicSource();
    WideBytes();
    assert src[0..|src|] == src && src[0] == 0x61;
    assert IsBoundary(src, 0) && !IsWhitespaceAt(src, 0);
  }

  lemma PanicWindowSpans()
    ensures SpansItsBlocks(PanicSource(), PanicWindow()) && AtFrontier(PanicSource(), PanicWindow(), [], 0, 0)
  {
    PanicBlockIsSource();
    StartFrontier(PanicSource(), PanicWindow(), [], 0);
  }

  // ----- the cuts -----

  /** With exactly one last fitting whitespace cut, the split is that cut. */
  lemma OnlyCut(text: Bytes, p: nat)
    requires text != [] && LetterTokens()(text) > CHILD_LIMIT
    requires 0 < p < |text| && IsCut(text, p, true) && Fits(LetterTokens(), text, CHILD_LIMIT, p)
    requires forall q :: p < q < |text| ==> !IsCut(text, q, true)
    ensures IsSplit(LetterTokens(), text, CHILD_LIMIT, p)
  {
    assert IsLastFitting(LetterTokens(), text, CHILD_LIMIT, true, p);
  }

  lemma OnlyWideSpace(text: Bytes, p: nat)
    requires p == if |text| == 24 then 1 else 3
    requires text == PanicSource() || text == PanicSource()[2..]
    ensures p < |text| && IsCut(text, p, true)
    ensures forall q :: p < q < |text| ==> !IsCut(text, q, true)
  {
    assert text[p] == 0xE3 && text[p + 1] == 0x80 && text[p + 2] == 0x80;
    forall q | p < q < |text|
      ensures !IsCut(text, q, true)
    {
      assert text[q] == if q < p + 3 then 0x80 else 0x62;
    }
  }

  /** The first cut is before the wide space. */
  lemma FirstCut()
    ensures IsSplit(LetterTokens(), PanicSource()[0..26], CHILD_LIMIT, 3)
  {
    var src := PanicSource();
    WideBytes();
    SourceLetters();
    assert src[0..26] == src && src[..3] == src[0..3];
    OnlyWideSpace(src, 3);
    OnlyCut(src, 3);
  }

  /** So is the second, seen from the overlap. */
  lemma SecondCut()
    ensures IsSplit(LetterTokens(), PanicSource()[2..26], CHILD_LIMIT, 1)
  {
    var src := PanicSource();
    WideBytes();
    SourceLetters();
    assert src[2..26] == src[2..] && src[2..][..1] == src[2..3];
    OnlyWideSpace(src[2..], 1);
    OnlyCut(src[2..], 1);
  }

  function FirstChild(): Chunk {
    Chunk(Some(0), 1, "", Some("paragraph"), HEAD, 0, 0, 0, 3)
  }

  /** The overlap of "a a" starts after its space. */
  lemma LetterOverlap()
    ensures SeedsAt(PanicSource(), LetterTokens(), FirstChild(), 2)
  {
    var src, text := PanicSource(), HEAD;
    WideBytes();
    SourceLetters();
    assert src[2..3] == [0x61] == text[2..];
    NextIs(text, 1, 2);
    assert IsCut(text, 1, true) && !IsCut(text, 0, true);
    assert TailFits(text, LetterTokens(), 2);
    assert IsBoundary(src, 2);
    forall b: nat | TailFits(text, LetterTokens(), b)
      ensures 2 <= b
    {
    }
  }

  lemma FirstIsCut()
    ensures CutAt(PanicSource(), PanicWindow(), LetterTokens(), 0, [], FirstChild(), 0, 0, 3)
  {
    PanicWindowSpans();
    WideBytes();
    SourceLetters();
    FirstCut();
    assert PanicSource()[0..3] == HEAD;
  }

  lemma FirstIsRun()
    ensures IsRun(PanicSource(), PanicWindow(), LetterTokens(), 0, [FirstChild()])
    ensures AtFrontier(PanicSource(), PanicWindow(), [FirstChild()], 0, 3)
  {
    FirstIsCut();
    AppendRun(PanicSource(), PanicWindow(), LetterTokens(), 0, [], FirstChild());
    assert [] + [FirstChild()] == [FirstChild()];
    WideBytes();
    HardSplitFollows(PanicSource(), PanicWindow(), [], 0, 0, FirstChild());
  }

  /** The second step finds the same cut again, and the forced one-byte advance lands inside the wide space. */
  lemma SecondStops()
    ensures StopsAt(PanicSource(), PanicWindow(), LetterTokens(), [FirstChild()], 0, 3, 2, 1)
  {
    FirstIsRun();
    LetterOverlap();
    SecondCut();
    WideBytes();
    SourceLetters();
  }

  lemma WindowCanStop()
    ensures CanStop(PanicSource(), PanicWindow(), LetterTokens(), 0, 1)
  {
    FirstIsRun();
    SecondStops();
    assert StopsBefore(PanicSource(), PanicWindow(), LetterTokens(), [FirstChild()], 1);
  }

  /** Any packing of the one block is the one window. */
  lemma OneWindow(windows: seq<ParentWindow>)
    requires Packs(PanicSource(), [PanicBlock()], windows, 1) && Greedy(LetterTokens(), [PanicBlock()], windows)
    ensures windows != [] && windows[0] == PanicWindow()
  {
    var blocks := [PanicBlock()];
    WideBytes();
    SourceLetters();
    assert blocks[..1] == blocks && blocks[0].charStart <= 0 < blocks[0].charEnd;
    assert InBlocks(blocks[..1], 0);
    assert InWindows(windows, 0);
    var w := windows[0];
    assert ClosedFull(LetterTokens(), blocks, w) && SpansItsBlocks(PanicSource(), w);
    var k: nat :| RunsUpTo(LetterTokens(), blocks, w, k);
    assert w.blocks == blocks;
    assert PanicSource()[0..26] == PanicSource();
  }

  lemma AssumptionsMet()
    ensures Assumed(PanicSource(), LetterTokens(), [PanicBlock()]) && Monotone(LetterTokens(), PanicSource())
  {
    PanicBlockIsSource();
    LettersMerge();
    LettersCheap(PanicSource());
    LettersMonotone(PanicSource());
  }

  /** The hard split of the one block panics. */
  method SplitterPanics() returns (children: seq<Chunk>, panicked: bool)
    ensures panicked
  {
    WideBytes();
    SourceLetters();
    PanicWindowSpans();
    AssumptionsMet();
    WindowCanStop();
    children, panicked := SplitOversizedChildBlock(PanicSource(), PanicWindow(), 0, 0, LetterTokens(), []);
  }

  /** On well-formed UTF-8 and a monotone count that meets every token assumption, the chunker panics. */
  method WideSpacePanics() returns (src: Bytes, blocks: seq<Block>, count: Counter, r: Outcome)
    ensures Valid(src) && TextOfSource(src, blocks) && Assumed(src, count, blocks) && Monotone(count, src)
    ensures src == PanicSource() && blocks == [PanicBlock()] && r.Panicked?
  {
    src, blocks, count := PanicSource(), [PanicBlock()], LetterTokens();
    PanicSourceValid();
    PanicBlockIsSource();
    AssumptionsMet();
    WindowCanStop();
    ghost var kept, windows, groups, stopped;
    r, kept, windows, groups, stopped := ChunkBlocks(src, blocks, count);
    KeptAlone(PanicBlock(), kept);
    OneWindow(windows);
    assert WindowStops(src, count, windows, 0);
  }
}
