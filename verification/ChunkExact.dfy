/** For token counts that never fall on longer prefixes the children of a window are determined one after the other,
    so the windows on which the splitter panics can be told exactly; and a condition on the words of a source under
    which it never does. */
module ChunkExact {
  import opened Utf8
  import opened ChunkSplit
  import opened ChunkParents
  import opened ChunkRuns

  predicate IsSpan(src: Bytes, lo: int, hi: int) {
    0 <= lo <= hi <= |src|
  }

  ghost predicate Monotone(count: Counter, src: Bytes) {
    forall lo, hi :: IsSpan(src, lo, hi) ==> PrefixMonotone(count, src[lo..hi])
  }

  // ----- every choice of the splitter is determined -----

  lemma SplitUnique(count: Counter, text: Bytes, limit: nat, a: nat, b: nat)
    requires text != [] && PrefixMonotone(count, text)
    requires IsSplit(count, text, limit, a) && IsSplit(count, text, limit, b)
    ensures a == b
  {
    if count(text) > limit {
      LastUnique(count, text, limit, true, a, b);
      LastUnique(count, text, limit, false, a, b);
    }
  }

  lemma LastUnique(count: Counter, text: Bytes, limit: nat, onlyWhitespace: bool, a: nat, b: nat)
    ensures IsLastFitting(count, text, limit, onlyWhitespace, a) ==>
      IsLastFitting(count, text, limit, onlyWhitespace, b) ==> a == b
    ensures IsLastFitting(count, text, limit, onlyWhitespace, a) ==> !NoneFits(count, text, limit, onlyWhitespace)
    ensures IsLastFitting(count, text, limit, onlyWhitespace, b) ==> !NoneFits(count, text, limit, onlyWhitespace)
  {
  }

  lemma SeedUnique(src: Bytes, count: Counter, last: Chunk, a: nat, b: nat)
    requires SeedsAt(src, count, last, a) && SeedsAt(src, count, last, b)
    ensures a == b
  {
    assert TailFits(last.text, count, a - last.charStart) && TailFits(last.text, count, b - last.charStart);
  }

  lemma NextBlockUnique(src: Bytes, win: ParentWindow, end: nat, j: nat, k: nat)
    requires SpansItsBlocks(src, win) && IsNextBlock(win, end, j) && IsNextBlock(win, end, k)
    ensures j == k
  {
    if j < k {
      NextBlockLeast(src, win, end, j, k);
    } else if k < j {
      NextBlockLeast(src, win, end, k, j);
    }
  }

  lemma NextBlockLeast(src: Bytes, win: ParentWindow, end: nat, j: nat, k: nat)
    requires SpansItsBlocks(src, win) && j < k && IsNextBlock(win, end, k)
    ensures !IsNextBlock(win, end, j)
  {
    EndsOrdered(src, win, j, k - 1);
  }

  lemma EndsOrdered(src: Bytes, win: ParentWindow, j: nat, k: nat)
    requires SpansItsBlocks(src, win) && j <= k < |win.blocks|
    ensures win.blocks[j].charEnd <= win.blocks[k].charEnd
  {
    assert win.blocks[k].OfSource(src);
    assert j < k ==> win.blocks[j].charEnd <= win.blocks[k].charStart;
  }

  lemma EndsBeforeNext(src: Bytes, win: ParentWindow, children: seq<Chunk>, s: nat)
    requires SpansItsBlocks(src, win) && EndsBefore(win, children, s)
    ensures IsNextBlock(win, EndOf(win, children), s)
  {
    assert win.blocks[s].OfSource(src);
    assert s > 0 ==> win.blocks[s - 1].charEnd <= win.blocks[s].charStart;
  }

  lemma FrontierUnique(src: Bytes, win: ParentWindow, children: seq<Chunk>, k: nat, f: nat, g: nat)
    requires AtFrontier(src, win, children, k, f) && AtFrontier(src, win, children, k, g)
    ensures f == g
  {
    assert k > 0 ==> win.blocks[k - 1].charEnd <= win.blocks[k].charStart;
  }

  lemma HardStartUnique(src: Bytes, count: Counter, children: seq<Chunk>, f: nat, a: nat, b: nat)
    requires HardStarts(src, count, children, f, a) && HardStarts(src, count, children, f, b)
    ensures a == b
  {
    if children != [] {
      var last := children[|children| - 1];
      if SeedsAt(src, count, last, a) && SeedsAt(src, count, last, b) {
        SeedUnique(src, count, last, a, b);
      }
    }
  }

  lemma CutUnique(src: Bytes, win: ParentWindow, count: Counter, parent: nat, children: seq<Chunk>,
                  c: Chunk, k: nat, f: nat, len: nat, c': Chunk, k': nat, f': nat, len': nat)
    requires Monotone(count, src) && SpansItsBlocks(src, win)
    requires CutAt(src, win, count, parent, children, c, k, f, len)
    requires CutAt(src, win, count, parent, children, c', k', f', len')
    ensures c == c'
  {
    FrontierNext(src, win, children, k, f);
    FrontierNext(src, win, children, k', f');
    NextBlockUnique(src, win, EndOf(win, children), k, k');
    FrontierUnique(src, win, children, k, f, f');
    HardStartUnique(src, count, children, f, c.charStart, c'.charStart);
    assert IsSpan(src, c.charStart, win.blocks[k].charEnd);
    SplitUnique(count, src[c.charStart..win.blocks[k].charEnd], CHILD_LIMIT, len, len');
  }

  lemma PackStartUnique(src: Bytes, win: ParentWindow, count: Counter, children: seq<Chunk>, s: nat, a: nat, b: nat)
    requires s < |win.blocks| && PackStarts(src, win, count, children, s, a)
    requires PackStarts(src, win, count, children, s, b)
    ensures a == b
  {
    if !(children == [] || s == 0 || count(win.blocks[s - 1].text) > CHILD_LIMIT) {
      var last := children[|children| - 1];
      if SeedsAt(src, count, last, a) && SeedsAt(src, count, last, b) {
        SeedUnique(src, count, last, a, b);
      }
    }
  }

  lemma {:induction false} SumGrows(count: Counter, blocks: seq<Block>, s: nat, j: nat, k: nat)
    requires s <= j < k <= |blocks|
    ensures TokenSum(count, blocks[s..k]) >= TokenSum(count, blocks[s..j]) + count(blocks[j].text)
    decreases k
  {
    assert blocks[s..k][..k - 1 - s] == blocks[s..k - 1];
    if j < k - 1 {
      SumGrows(count, blocks, s, j, k - 1);
    }
  }

  lemma PackedUnique(src: Bytes, win: ParentWindow, count: Counter, parent: nat, children: seq<Chunk>,
                     c: Chunk, s: nat, k: nat, c': Chunk, s': nat, k': nat)
    requires SpansItsBlocks(src, win)
    requires PackedAt(src, win, count, parent, children, c, s, k)
    requires PackedAt(src, win, count, parent, children, c', s', k')
    ensures c == c'
  {
    EndsBeforeNext(src, win, children, s);
    EndsBeforeNext(src, win, children, s');
    NextBlockUnique(src, win, EndOf(win, children), s, s');
    PackStartUnique(src, win, count, children, s, c.charStart, c'.charStart);
    PackEndUnique(src, win, count, c, s, k, c', k');
  }

  lemma PackEndUnique(src: Bytes, win: ParentWindow, count: Counter, c: Chunk, s: nat, k: nat, c': Chunk, k': nat)
    requires PackedFrom(src, win, count, c, s, k) && PackedFrom(src, win, count, c', s, k')
    requires c.charStart == c'.charStart
    ensures k == k'
  {
    if k < k' {
      SumGrows(count, win.blocks, s, k, k');
    } else if k' < k {
      SumGrows(count, win.blocks, s, k', k);
    }
  }

  /** A block that is packed next is no oversized one to be cut next. */
  lemma CutNotPacked(src: Bytes, win: ParentWindow, count: Counter, parent: nat, children: seq<Chunk>,
                     c: Chunk, s: nat, k: nat, j: nat, f: nat)
    requires PackedAt(src, win, count, parent, children, c, s, k)
    requires AtFrontier(src, win, children, j, f) && f < win.blocks[j].charEnd
    ensures count(win.blocks[j].text) <= CHILD_LIMIT
  {
    EndsBeforeNext(src, win, children, s);
    FrontierNext(src, win, children, j, f);
    NextBlockUnique(src, win, EndOf(win, children), s, j);
  }

  /** For monotone counts a window and its first children determine the next one. */
  lemma NextUnique(src: Bytes, win: ParentWindow, count: Counter, parent: nat, children: seq<Chunk>, c: Chunk,
                   c': Chunk)
    requires Monotone(count, src) && SpansItsBlocks(src, win)
    requires NextChild(src, win, count, parent, children, c) && NextChild(src, win, count, parent, children, c')
    ensures c == c'
  {
    if k: nat, f: nat, len: nat :| CutAt(src, win, count, parent, children, c, k, f, len) {
      if k': nat, f': nat, len': nat :| CutAt(src, win, count, parent, children, c', k', f', len') {
        CutUnique(src, win, count, parent, children, c, k, f, len, c', k', f', len');
      } else {
        var s': nat, e': nat :| PackedAt(src, win, count, parent, children, c', s', e');
        CutNotPacked(src, win, count, parent, children, c', s', e', k, f);
      }
    } else {
      var s: nat, e: nat :| PackedAt(src, win, count, parent, children, c, s, e);
      if k': nat, f': nat, len': nat :| CutAt(src, win, count, parent, children, c', k', f', len') {
        CutNotPacked(src, win, count, parent, children, c, s, e, k', f');
      } else {
        var s': nat, e': nat :| PackedAt(src, win, count, parent, children, c', s', e');
        PackedUnique(src, win, count, parent, children, c, s, e, c', s', e');
      }
    }
  }

  lemma RunStep(src: Bytes, win: ParentWindow, count: Counter, parent: nat, run: seq<Chunk>, i: nat)
    requires IsRun(src, win, count, parent, run) && i < |run|
    ensures NextChild(src, win, count, parent, run[..i], run[i])
  {
    assert ChildAt(src, win, count, parent, run, i);
  }

  lemma SameNext(src: Bytes, win: ParentWindow, count: Counter, parent: nat, a: seq<Chunk>, b: seq<Chunk>, i: nat)
    requires Monotone(count, src) && SpansItsBlocks(src, win)
    requires IsRun(src, win, count, parent, a) && IsRun(src, win, count, parent, b)
    requires i < |a| && i < |b| && a[..i] == b[..i]
    ensures a[i] == b[i]
  {
    RunStep(src, win, count, parent, a, i);
    RunStep(src, win, count, parent, b, i);
    NextUnique(src, win, count, parent, a[..i], a[i], b[i]);
  }

  lemma PrefixSnoc(a: seq<Chunk>, b: seq<Chunk>, i: nat)
    requires i < |a| && i < |b| && a[..i] == b[..i] && a[i] == b[i]
    ensures a[..i + 1] == b[..i + 1]
  {
    assert a[..i + 1] == a[..i] + [a[i]] && b[..i + 1] == b[..i] + [b[i]];
  }

  /** Two runs over a window agree as far as both go. */
  lemma {:induction false} RunsAgree(src: Bytes, win: ParentWindow, count: Counter, parent: nat, a: seq<Chunk>,
                                     b: seq<Chunk>, i: nat)
    requires Monotone(count, src) && SpansItsBlocks(src, win)
    requires IsRun(src, win, count, parent, a) && IsRun(src, win, count, parent, b) && i <= |a| && i <= |b|
    ensures a[..i] == b[..i]
    decreases i
  {
    if i > 0 {
      RunsAgree(src, win, count, parent, a, b, i - 1);
      SameNext(src, win, count, parent, a, b, i - 1);
      PrefixSnoc(a, b, i - 1);
    }
  }

  // ----- the windows that panic -----

  /** Where the splitter stops it makes no further child. */
  lemma StopIsFinal(src: Bytes, win: ParentWindow, count: Counter, parent: nat, children: seq<Chunk>, k: nat, f: nat,
                    start: nat, len: nat, c: Chunk)
    requires Monotone(count, src) && StopsAt(src, win, count, children, k, f, start, len)
    ensures !NextChild(src, win, count, parent, children, c)
  {
    if k': nat, f': nat, len': nat :| CutAt(src, win, count, parent, children, c, k', f', len') {
      FrontierNext(src, win, children, k, f);
      FrontierNext(src, win, children, k', f');
      NextBlockUnique(src, win, EndOf(win, children), k, k');
      FrontierUnique(src, win, children, k, f, f');
      HardStartUnique(src, count, children, f, c.charStart, start);
      assert IsSpan(src, start, win.blocks[k].charEnd);
      SplitUnique(count, src[start..win.blocks[k].charEnd], CHILD_LIMIT, len, len');
    } else if s: nat, e: nat :| PackedAt(src, win, count, parent, children, c, s, e) {
      CutNotPacked(src, win, count, parent, children, c, s, e, k, f);
    }
  }

  /** The run made so far stops inside one of the first `n` blocks. */
  ghost predicate StopsBefore(src: Bytes, win: ParentWindow, count: Counter, run: seq<Chunk>, n: nat) {
    exists k: nat, f: nat, start: nat, len: nat :: k < n && StopsAt(src, win, count, run, k, f, start, len)
  }

  lemma StopsLater(src: Bytes, win: ParentWindow, count: Counter, run: seq<Chunk>, m: nat, n: nat)
    requires StopsBefore(src, win, count, run, m) && m <= n
    ensures StopsBefore(src, win, count, run, n)
  {
    var k: nat, f: nat, start: nat, len: nat :| k < m && StopsAt(src, win, count, run, k, f, start, len);
  }

  /** Some run over the window stops inside one of its first `n` blocks, before a character longer than the one byte the
      frontier is forced on by. */
  ghost predicate CanStop(src: Bytes, win: ParentWindow, count: Counter, parent: nat, n: nat) {
    exists run: seq<Chunk> :: IsRun(src, win, count, parent, run) && StopsBefore(src, win, count, run, n)
  }

  /** A run that gets past the first `n` blocks excludes one that stops in them. */
  lemma DoneExcludesStop(src: Bytes, win: ParentWindow, count: Counter, parent: nat, run: seq<Chunk>, done: seq<Chunk>,
                         n: nat)
    requires Monotone(count, src) && SpansItsBlocks(src, win)
    requires IsRun(src, win, count, parent, run) && IsRun(src, win, count, parent, done) && Covers(src, win, done, n)
    ensures !StopsBefore(src, win, count, run, n)
  {
    if k: nat, f: nat, start: nat, len: nat :| k < n && StopsAt(src, win, count, run, k, f, start, len) {
      if |run| < |done| {
        GoesOn(src, win, count, parent, run, done);
        StopIsFinal(src, win, count, parent, run, k, f, start, len, done[|run|]);
      } else {
        RunsAgree(src, win, count, parent, run, done, |done|);
        EndsPast(src, win, run, done, n, k, f);
      }
    }
  }

  /** A run that goes on from one past block `k` has no frontier inside it. */
  lemma EndsPast(src: Bytes, win: ParentWindow, run: seq<Chunk>, done: seq<Chunk>, n: nat, k: nat, f: nat)
    requires SpansItsBlocks(src, win) && k < n && Covers(src, win, done, n)
    requires |done| <= |run| && run[..|done|] == done[..|done|] && AtFrontier(src, win, run, k, f)
    ensures f >= win.blocks[k].charEnd
  {
    EndsOrdered(src, win, k, n - 1);
    LastBeforeFrontier(src, win, run, k, f);
    assert run[|done| - 1] == run[..|done|][|done| - 1] == done[..|done|][|done| - 1];
    LastEnds(src, win, run, |done| - 1);
  }

  lemma GoesOn(src: Bytes, win: ParentWindow, count: Counter, parent: nat, run: seq<Chunk>, done: seq<Chunk>)
    requires Monotone(count, src) && SpansItsBlocks(src, win)
    requires IsRun(src, win, count, parent, run) && IsRun(src, win, count, parent, done) && |run| < |done|
    ensures NextChild(src, win, count, parent, run, done[|run|])
  {
    RunsAgree(src, win, count, parent, run, done, |run|);
    RunStep(src, win, count, parent, done, |run|);
    assert run[..|run|] == run;
  }

  lemma LastEnds(src: Bytes, win: ParentWindow, run: seq<Chunk>, i: nat)
    requires Chain(src, win, run) && i < |run|
    ensures run[i].charEnd <= run[|run| - 1].charEnd
  {
  }

  /** For monotone counts, a splitter that covers the first `n` blocks or stops in one of them stops if and only if some
      run over the window does. */
  lemma StopsExactly(src: Bytes, win: ParentWindow, count: Counter, parent: nat, children: seq<Chunk>, n: nat,
                     panicked: bool)
    requires SpansItsBlocks(src, win) && IsRun(src, win, count, parent, children)
    requires if panicked then StopsBefore(src, win, count, children, n) else Covers(src, win, children, n)
    ensures Monotone(count, src) ==> (panicked <==> CanStop(src, win, count, parent, n))
  {
    if Monotone(count, src) && !panicked && CanStop(src, win, count, parent, n) {
      var run: seq<Chunk> :| IsRun(src, win, count, parent, run) && StopsBefore(src, win, count, run, n);
      DoneExcludesStop(src, win, count, parent, run, children, n);
    }
  }
}
