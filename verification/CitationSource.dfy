/** Bounded snippets and source views around a cited span (`citation_source.rs`), over well-formed UTF-8 buffers. */
module CitationSource {
  import opened Wrappers
  import opened Utf8
  import opened Numbers

  const WINDOW: nat := 240
  const MAX_SNIPPET: nat := 1200
  const VIEW_CAP: nat := 256 * 1024
  const MAX_MARKED: nat := 4 * 1024

  // ----- boundaries -----

  /** `r` is the largest boundary at or before `i`, or the end of the buffer. */
  ghost predicate IsFloor(s: Bytes, i: nat, r: nat) {
    && r <= i && IsBoundary(s, r) && forall k :: r < k <= Min(i, |s|) ==> !IsBoundary(s, k)
  }

  /** `r` is the smallest boundary at or after `i`, capped at the end of the buffer. */
  ghost predicate IsCeil(s: Bytes, i: nat, r: nat) {
    && Min(i, |s|) <= r && IsBoundary(s, r) && forall k :: Min(i, |s|) <= k < r ==> !IsBoundary(s, k)
  }

  method FloorBoundary(s: Bytes, from: nat) returns (i: nat)
    ensures IsFloor(s, from, i)
    ensures Valid(s) ==> Min(from, |s|) <= i + 3
  {
    if from >= |s| {
      return |s|;
    }
    i := from;
    while i > 0 && !IsBoundary(s, i)
      invariant i <= from && forall k :: i < k <= from ==> !IsBoundary(s, k)
    {
      i := i - 1;
    }
    if Valid(s) {
      ghost var lo, hi := BoundaryNear(s, from);
    }
  }

  method CeilBoundary(s: Bytes, from: nat) returns (i: nat)
    ensures IsCeil(s, from, i)
    ensures Valid(s) ==> i <= Min(from, |s|) + 3
  {
    if from >= |s| {
      return |s|;
    }
    i := from;
    while i < |s| && !IsBoundary(s, i)
      invariant from <= i <= |s| && forall k :: from <= k < i ==> !IsBoundary(s, k)
    {
      i := i + 1;
    }
    if Valid(s) {
      ghost var lo, hi := BoundaryNear(s, from);
    }
  }

  predicate IsTerminator(b: Byte) {
    b == 0x2E || b == 0x3F || b == 0x21
  }

  /** `i` begins a sentence or paragraph. */
  predicate IsCleanStart(s: Bytes, i: nat)
    requires i <= |s|
  {
    || i == 0
    || (i >= 2 && s[i - 1] == 0x0A && s[i - 2] == 0x0A)
    || (i >= 2 && s[i - 1] == 0x20 && IsTerminator(s[i - 2]))
  }

  /** `i` ends a sentence or paragraph. */
  predicate IsCleanEnd(s: Bytes, i: nat)
    requires i <= |s|
  {
    || i == |s|
    || (i >= 1 && IsTerminator(s[i - 1]) && (s[i] == 0x20 || s[i] == 0x0A))
    || (s[i] == 0x0A && i + 1 < |s| && s[i + 1] == 0x0A)
  }

  predicate EndsWith(t: Bytes, x: Bytes) {
    |x| <= |t| && t[|t| - |x|..] == x
  }

  predicate StartsWith(t: Bytes, x: Bytes) {
    |x| <= |t| && t[..|x|] == x
  }

  /** Text starts cleanly at the beginning, after a blank line, or after a full stop, question or exclamation mark and
      a space. */
  lemma CleanStartForms(s: Bytes, i: nat)
    requires i <= |s|
    ensures IsCleanStart(s, i) <==>
      || i == 0 || EndsWith(s[..i], [0x0A, 0x0A])
      || EndsWith(s[..i], [0x2E, 0x20]) || EndsWith(s[..i], [0x3F, 0x20]) || EndsWith(s[..i], [0x21, 0x20])
  {
    assert i >= 2 ==> s[..i][i - 2..] == [s[i - 2], s[i - 1]];
  }

  /** Text ends cleanly at the end, before a blank line, or after such a mark before a space or a line break. */
  lemma CleanEndForms(s: Bytes, i: nat)
    requires i <= |s|
    ensures IsCleanEnd(s, i) <==>
      || i == |s| || StartsWith(s[i..], [0x0A, 0x0A])
      || ((EndsWith(s[..i], [0x2E]) || EndsWith(s[..i], [0x3F]) || EndsWith(s[..i], [0x21]))
          && (StartsWith(s[i..], [0x20]) || StartsWith(s[i..], [0x0A])))
  {
    assert i >= 1 ==> s[..i][i - 1..] == [s[i - 1]];
    assert i < |s| ==> s[i..][..1] == [s[i]];
    assert i + 1 < |s| ==> s[i..][..2] == [s[i], s[i + 1]];
  }

  /** `i` is the nearest clean start at or left of `from`, not before `floor` unless `from` is; without one, it is
      `from` moved to a boundary. */
  ghost predicate SnapsStart(s: Bytes, from: nat, floor: nat, i: nat) {
    && i <= from && IsBoundary(s, i)
    && if IsCleanStart(s, i) && Min(from, floor) <= i then NoCleanStart(s, i + 1, from)
       else IsFloor(s, from, i) && NoCleanStart(s, Min(from, floor), from)
  }

  ghost predicate NoCleanStart(s: Bytes, lo: nat, hi: nat) {
    forall k :: lo <= k <= hi && IsBoundary(s, k) ==> !IsCleanStart(s, k)
  }

  ghost predicate NoCleanEnd(s: Bytes, lo: nat, hi: nat) {
    forall k :: lo <= k < hi && IsBoundary(s, k) ==> !IsCleanEnd(s, k)
  }

  /** `i` is the nearest clean end at or right of `from`, not after `ceil` unless `from` is; without one, it is `from`
      moved to a boundary. */
  ghost predicate SnapsEnd(s: Bytes, from: nat, ceil: nat, i: nat) {
    && from <= i <= |s| && IsBoundary(s, i)
    && if IsCleanEnd(s, i) && i <= Max(from, ceil) then NoCleanEnd(s, from, i)
       else IsCeil(s, from, i) && NoCleanEnd(s, from, Max(from, ceil) + 1)
  }

  /** The nearest clean start at or left of `from`, down to `floor`; without one, `from` moved to a boundary. */
  method SnapStartOutward(s: Bytes, from: nat, floor: nat) returns (i: nat)
    requires Valid(s) && from <= |s|
    ensures SnapsStart(s, from, floor, i) && (Min(from, floor) <= i || from <= i + 3)
  {
    i := from;
    while !(IsBoundary(s, i) && IsCleanStart(s, i)) && i > floor
      invariant i <= from && Min(from, floor) <= i
      invariant NoCleanStart(s, i + 1, from)
    {
      i := i - 1;
    }
    if !(IsBoundary(s, i) && IsCleanStart(s, i)) {
      NoneFromHere(s, i, from);
      i := FloorBoundary(s, from);
    }
  }

  lemma NoneFromHere(s: Bytes, i: nat, from: nat)
    requires NoCleanStart(s, i + 1, from) && (IsBoundary(s, i) ==> !IsCleanStart(s, i))
    ensures NoCleanStart(s, i, from)
  {
  }

  /** The nearest clean end at or right of `from`, up to `ceil`; without one, `from` moved to a boundary. */
  method SnapEndOutward(s: Bytes, from: nat, ceil: nat) returns (i: nat)
    requires Valid(s) && from <= |s| && ceil <= |s|
    ensures SnapsEnd(s, from, ceil, i) && (i <= Max(from, ceil) || i <= from + 3)
  {
    i := from;
    while !(IsBoundary(s, i) && IsCleanEnd(s, i)) && i < ceil
      invariant from <= i <= |s| && i <= Max(from, ceil)
      invariant NoCleanEnd(s, from, i)
    {
      i := i + 1;
    }
    if !(IsBoundary(s, i) && IsCleanEnd(s, i)) {
      NoneUpTo(s, from, i);
      i := CeilBoundary(s, from);
    }
  }

  lemma NoneUpTo(s: Bytes, from: nat, i: nat)
    requires NoCleanEnd(s, from, i) && (IsBoundary(s, i) ==> !IsCleanEnd(s, i))
    ensures NoCleanEnd(s, from, i + 1)
  {
  }

  // ----- spans -----

  /** Clamps a stored span to the buffer and moves its ends outward to boundaries. */
  method ClampSpan(s: Bytes, charStart: nat, charEnd: nat) returns (start: nat, end: nat)
    ensures start <= end <= |s| && IsBoundary(s, start) && IsBoundary(s, end)
    ensures IsFloor(s, Min(charStart, Min(charEnd, |s|)), start) && IsCeil(s, Min(charEnd, |s|), end)
  {
    var e := Min(charEnd, |s|);
    start := FloorBoundary(s, Min(charStart, e));
    end := CeilBoundary(s, e);
  }

  /** The stored span, clamped to the buffer and widened to boundaries; or, when that is longer than the ceiling, its
      head up to the first boundary at or after the ceiling. */
  ghost predicate IsMarked(s: Bytes, charStart: nat, charEnd: nat, start: nat, end: nat, truncated: bool) {
    && IsFloor(s, Min(charStart, Min(charEnd, |s|)), start)
    && (if truncated then
          && IsCeil(s, start + MAX_MARKED, end)
          && forall k :: Min(charEnd, |s|) <= k <= start + MAX_MARKED ==> !IsBoundary(s, k)
        else IsCeil(s, Min(charEnd, |s|), end) && end - start <= MAX_MARKED)
  }

  /** The marked span: the clamped one, cut down to the ceiling when it is longer. */
  method MarkedSpan(s: Bytes, charStart: nat, charEnd: nat) returns (start: nat, end: nat, truncated: bool)
    requires Valid(s)
    ensures start <= end <= |s| && IsBoundary(s, start) && IsBoundary(s, end)
    ensures end - start <= MAX_MARKED + 3
    ensures IsMarked(s, charStart, charEnd, start, end, truncated)
  {
    start, end := ClampSpan(s, charStart, charEnd);
    truncated := end - start > MAX_MARKED;
    if truncated {
      end := CeilBoundary(s, start + MAX_MARKED);
    }
  }

  datatype Snippet = Snippet(before: Bytes, marked: Bytes, after: Bytes, truncatedBefore: bool, truncatedAfter: bool)

  /** The segments are adjacent slices of the buffer, cut at boundaries. */
  ghost predicate AreSlices(s: Bytes, before: Bytes, marked: Bytes, after: Bytes, a: nat, b: nat, c: nat, d: nat) {
    && a <= b <= c <= d <= |s|
    && IsBoundary(s, a) && IsBoundary(s, b) && IsBoundary(s, c) && IsBoundary(s, d)
    && before == s[a..b] && marked == s[b..c] && after == s[c..d]
  }

  /** How far from the marked span the context may reach: half of what the span leaves of the snippet, and no less than
      the base window. */
  function Reach(marked: nat): nat {
    Max(SatSub(MAX_SNIPPET, marked) / 2, WINDOW)
  }

  /** On each side the context takes the base window, and goes on to the nearest sentence or paragraph edge within
      reach. */
  ghost predicate InContext(s: Bytes, from: nat, start: nat, end: nat, to: nat)
    requires start <= end
  {
    && SnapsStart(s, SatSub(start, WINDOW), SatSub(start, Reach(end - start)), from)
    && SnapsEnd(s, Min(end + WINDOW, |s|), Min(end + Reach(end - start), |s|), to)
  }

  lemma ReachFits(marked: nat)
    ensures Reach(marked) >= WINDOW
    ensures marked + 2 * Reach(marked) <= Max(MAX_SNIPPET, marked + 2 * WINDOW)
  {
  }

  method ContextAround(s: Bytes, start: nat, end: nat) returns (from: nat, to: nat)
    requires Valid(s) && start <= end <= |s| && IsBoundary(s, end)
    ensures from <= start && end <= to <= |s| && IsBoundary(s, from) && IsBoundary(s, to)
    ensures to - from <= Max(MAX_SNIPPET, end - start + 2 * (WINDOW + 3))
    ensures InContext(s, from, start, end, to)
  {
    var side := Reach(end - start);
    ReachFits(end - start);
    from := SnapStartOutward(s, SatSub(start, WINDOW), SatSub(start, side));
    to := SnapEndOutward(s, Min(end + WINDOW, |s|), Min(end + side, |s|));
  }

  method ComputeSnippet(s: Bytes, charStart: nat, charEnd: nat)
    returns (r: Snippet, ghost cut: bool, ghost a: nat, ghost b: nat, ghost c: nat, ghost d: nat)
    requires Valid(s)
    ensures AreSlices(s, r.before, r.marked, r.after, a, b, c, d)
    ensures |r.marked| <= MAX_MARKED + 3
    ensures |r.before| + |r.marked| + |r.after| <= Max(MAX_SNIPPET, |r.marked| + 2 * (WINDOW + 3))
    ensures IsMarked(s, charStart, charEnd, b, c, cut)
    ensures r.truncatedBefore == (a > 0) && r.truncatedAfter == (cut || d < |s|)
    ensures InContext(s, a, b, c, d)
  {
    var start, end, shortened := MarkedSpan(s, charStart, charEnd);
    var from, to := ContextAround(s, start, end);
    r := Snippet(s[from..start], s[start..end], s[end..to], from > 0, shortened || to < |s|);
    cut := shortened;
    a, b, c, d := from, start, end, to;
  }

  /** The window takes half of what the marked span leaves of the cap on each side, widened to boundaries. */
  ghost predicate Surrounds(s: Bytes, from: nat, start: nat, end: nat, to: nat)
    requires start <= end
  {
    var half := SatSub(VIEW_CAP, end - start) / 2;
    IsFloor(s, SatSub(start, half), from) && IsCeil(s, end + half, to)
  }

  /** A window of about the view cap around the marked span. */
  method WindowAround(s: Bytes, start: nat, end: nat) returns (from: nat, to: nat)
    requires Valid(s) && start <= end <= |s| && end - start <= MAX_MARKED + 3 && IsBoundary(s, end)
    ensures from <= start && end <= to <= |s| && IsBoundary(s, from) && IsBoundary(s, to)
    ensures to - from <= VIEW_CAP + 6
    ensures Surrounds(s, from, start, end, to)
  {
    var half := SatSub(VIEW_CAP, end - start) / 2;
    from := FloorBoundary(s, SatSub(start, half));
    to := CeilBoundary(s, Min(end + half, |s|));
  }

  datatype SourceView = SourceView(before: Bytes, marked: Bytes, after: Bytes, truncated: bool)

  /** The view of a source without a span: its text, or its head up to the cap. */
  method HeadView(s: Bytes) returns (r: SourceView, ghost cut: nat)
    requires Valid(s)
    ensures AreSlices(s, r.before, r.marked, r.after, 0, cut, cut, cut)
    ensures r.marked == [] && r.after == []
    ensures |s| <= VIEW_CAP ==> r.before == s
    ensures r.truncated == (|s| > VIEW_CAP)
    ensures |s| > VIEW_CAP ==> IsFloor(s, VIEW_CAP, cut) && |r.before| <= VIEW_CAP
  {
    if |s| <= VIEW_CAP {
      return SourceView(s, [], [], false), |s|;
    }
    var n := FloorBoundary(s, VIEW_CAP);
    return SourceView(s[..n], [], [], true), n;
  }

  /** Where a view with a span is cut: the marked span and the text shown around it. */
  method ViewCuts(s: Bytes, charStart: nat, charEnd: nat)
    returns (a: nat, b: nat, c: nat, d: nat, cut: bool)
    requires Valid(s)
    ensures a <= b <= c <= d <= |s| && IsBoundary(s, a) && IsBoundary(s, b) && IsBoundary(s, c) && IsBoundary(s, d)
    ensures c - b <= MAX_MARKED + 3
    ensures |s| <= VIEW_CAP ==> a == 0 && d == |s|
    ensures |s| > VIEW_CAP ==> d - a <= VIEW_CAP + 6 && Surrounds(s, a, b, c, d)
    ensures IsMarked(s, charStart, charEnd, b, c, cut)
  {
    b, c, cut := MarkedSpan(s, charStart, charEnd);
    if |s| <= VIEW_CAP {
      a, d := 0, |s|;
    } else {
      a, d := WindowAround(s, b, c);
    }
  }

  /** The whole source, split at the span, or a window of it around the span or at its head. */
  method ComputeSourceView(s: Bytes, span: Option<(nat, nat)>)
    returns (r: SourceView, ghost cut: bool, ghost a: nat, ghost b: nat, ghost c: nat, ghost d: nat)
    requires Valid(s)
    ensures AreSlices(s, r.before, r.marked, r.after, a, b, c, d)
    ensures |r.marked| <= MAX_MARKED + 3
    ensures |s| <= VIEW_CAP ==> r.before + r.marked + r.after == s
    ensures |s| > VIEW_CAP ==> |r.before| + |r.marked| + |r.after| <= VIEW_CAP + 6
    ensures r.truncated == (cut || |s| > VIEW_CAP)
    ensures span.None? ==> !cut && a == 0 && r.marked == [] && r.after == [] && |r.before| <= VIEW_CAP
    ensures span.Some? ==> IsMarked(s, span.value.0, span.value.1, b, c, cut)
    ensures span.Some? && |s| > VIEW_CAP ==> Surrounds(s, a, b, c, d)
  {
    if span.None? {
      r, d := HeadView(s);
      cut, a, b, c := false, 0, d, d;
      assert r.before + [] + [] == r.before;
    } else {
      var from, start, end, to, shortened := ViewCuts(s, span.value.0, span.value.1);
      r := SourceView(s[from..start], s[start..end], s[end..to], shortened || |s| > VIEW_CAP);
      cut, a, b, c, d := shortened, from, start, end, to;
      Rejoined(s, from, start, end, to);
    }
  }

  lemma Rejoined(s: Bytes, a: nat, b: nat, c: nat, d: nat)
    requires a <= b <= c <= d <= |s|
    ensures s[a..b] + s[b..c] + s[c..d] == s[a..d] && s[0..|s|] == s
  {
  }

  /** Slices of a well-formed buffer cut at boundaries are well-formed. */
  lemma {:induction false} SliceValid(s: Bytes, a: nat, b: nat)
    requires Valid(s) && a <= b <= |s| && IsBoundary(s, a) && IsBoundary(s, b)
    ensures Valid(s[a..b])
    decreases b - a
  {
    if a < b {
      SuffixValid(s, a);
      var n := NextBoundary(s, a);
      assert n <= b;
      SliceValid(s, n, b);
      var t := s[a..b];
      assert s[a..][..n - a] == t[..n - a];
      SameCharLen(s[a..], t, n - a);
      assert t[n - a..] == s[n..b];
    }
  }

  lemma SameCharLen(s: Bytes, t: Bytes, n: nat)
    requires CharLen(s) == n > 0 && n <= |t| && n <= |s| && s[..n] == t[..n]
    ensures CharLen(t) == n
  {
    assert forall i :: 0 <= i < n ==> s[..n][i] == t[..n][i];
    assert forall i :: 0 <= i < n ==> s[i] == t[i];
  }
}
