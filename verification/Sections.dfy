/** The document outline (`build_sections`). */
module Sections {
  import opened Utf8
  import opened ChunkSplit

  datatype Heading = Heading(level: nat, title: Bytes, start: nat)
  datatype Section = Section(level: nat, ordinal: nat, title: Bytes, charStart: nat, charEnd: nat)

  // ----- headings -----

  /** `path.split(" > ").count()`. */
  function SegmentCount(path: string): (n: nat)
    ensures n >= 1
  {
    if |path| < 3 then 1
    else if path[..3] == " > " then 1 + SegmentCount(path[3..])
    else SegmentCount(path[1..])
  }

  const SEPARATOR := " > "

  predicate SeparatorAt(s: string, i: nat) {
    i + 3 <= |s| && s[i..i + 3] == SEPARATOR
  }

  /** A segment with the separator after it, which the last one has not. */
  function Followed(s: string, last: bool): string {
    if last then s else s + SEPARATOR
  }

  /** The first separator is the one after the segment. */
  ghost predicate IsSegment(s: string, last: bool) {
    forall i: nat :: i < |s| ==> !SeparatorAt(Followed(s, last), i)
  }

  /** A segment trail, joined. */
  function Trail(segments: seq<string>): string {
    if segments == [] then ""
    else if |segments| == 1 then segments[0]
    else segments[0] + (SEPARATOR + Trail(segments[1..]))
  }

  ghost predicate IsTrail(segments: seq<string>) {
    segments != [] && forall k :: 0 <= k < |segments| ==> IsSegment(segments[k], k == |segments| - 1)
  }

  lemma {:induction false} CountSkips(s: string, rest: string, last: bool)
    requires IsSegment(s, last) && (if last then rest == "" else SEPARATOR <= rest)
    ensures SegmentCount(s + rest) == if last then 1 else SegmentCount(rest)
  {
    if s == "" {
      assert s + rest == rest;
    } else {
      SegmentTail(s, last);
      assert (s + rest)[1..] == s[1..] + rest;
      NoSeparator(s, rest, last);
      CountSkips(s[1..], rest, last);
    }
  }

  lemma SeparatorShifts(s: string, i: nat)
    requires s != ""
    ensures SeparatorAt(s, i + 1) <==> SeparatorAt(s[1..], i)
  {
    assert i + 4 <= |s| ==> s[1..][i..i + 3] == s[i + 1..i + 4];
  }

  lemma SegmentTail(s: string, last: bool)
    requires s != ""
    ensures IsSegment(s, last) <==> !SeparatorAt(Followed(s, last), 0) && IsSegment(s[1..], last)
  {
    assert Followed(s[1..], last) == Followed(s, last)[1..];
    forall i: nat
      ensures SeparatorAt(Followed(s, last), i + 1) <==> SeparatorAt(Followed(s[1..], last), i)
    {
      SeparatorShifts(Followed(s, last), i);
    }
    if !SeparatorAt(Followed(s, last), 0) && IsSegment(s[1..], last) {
      forall i: nat | i < |s|
        ensures !SeparatorAt(Followed(s, last), i)
      {
        assert i > 0 ==> !SeparatorAt(Followed(s[1..], last), i - 1);
      }
    }
    if IsSegment(s, last) {
      assert !SeparatorAt(Followed(s, last), 0);
      forall i: nat | i < |s| - 1
        ensures !SeparatorAt(Followed(s[1..], last), i)
      {
        assert !SeparatorAt(Followed(s, last), i + 1);
      }
    }
  }

  lemma NoSeparator(s: string, rest: string, last: bool)
    requires s != "" && (if last then rest == "" else SEPARATOR <= rest)
    ensures SeparatorAt(s + rest, 0) <==> SeparatorAt(Followed(s, last), 0)
  {
    assert (s + rest)[..|Followed(s, last)|] == Followed(s, last);
    PrefixSeparator(s + rest, |Followed(s, last)|);
  }

  lemma PrefixSeparator(s: string, n: nat)
    requires n <= |s| && (n >= 3 || n == |s|)
    ensures SeparatorAt(s, 0) <==> SeparatorAt(s[..n], 0)
  {
    assert n >= 3 ==> s[..n][0..3] == s[0..3];
    assert n == |s| ==> s[..n] == s;
  }

  /** A trail of segments is counted segment by segment. */
  lemma {:induction false} SegmentsCounted(segments: seq<string>)
    requires IsTrail(segments)
    ensures SegmentCount(Trail(segments)) == |segments|
  {
    if |segments| == 1 {
      assert segments[0] + "" == segments[0];
      CountSkips(segments[0], "", true);
    } else {
      var rest := SEPARATOR + Trail(segments[1..]);
      CountSkips(segments[0], rest, false);
      assert rest[3..] == Trail(segments[1..]) && rest[..3] == SEPARATOR;
      SegmentsCounted(segments[1..]);
    }
  }

  /** The text before the first separator of `path`, or all of it. */
  lemma {:induction false} FirstSegment(path: string) returns (n: nat)
    ensures n <= |path| && IsSegment(path[..n], n == |path|) && (n < |path| ==> SeparatorAt(path, n))
  {
    if path == "" {
      return 0;
    }
    if SeparatorAt(path, 0) {
      return 0;
    }
    n := FirstSegment(path[1..]);
    assert n < |path| - 1 ==> path[1..][n..n + 3] == path[n + 1..n + 4];
    n := n + 1;
    StillSegment(path, n);
  }

  lemma StillSegment(path: string, n: nat)
    requires 0 < n <= |path| && !SeparatorAt(path, 0) && (n < |path| ==> SeparatorAt(path, n))
    requires IsSegment(path[1..][..n - 1], n == |path|)
    ensures IsSegment(path[..n], n == |path|)
  {
    assert path[..n][1..] == path[1..][..n - 1];
    assert path == path[..n] + path[n..];
    assert n < |path| ==> SEPARATOR == path[n..][..3];
    NoSeparator(path[..n], path[n..], n == |path|);
    SegmentTail(path[..n], n == |path|);
  }

  /** Every path is a trail of segments: splitting it at separators, from the left, is unambiguous. */
  lemma {:induction false} PathIsTrail(path: string) returns (segments: seq<string>)
    ensures IsTrail(segments) && path == Trail(segments)
    decreases |path|
  {
    var n := FirstSegment(path);
    if n == |path| {
      assert path[..n] == path;
      return [path];
    }
    var rest := PathIsTrail(path[n + 3..]);
    segments := [path[..n]] + rest;
    assert segments[1..] == rest;
    assert path == path[..n] + (path[n..n + 3] + path[n + 3..]);
  }

  /** The count is narrowed to eight bits before it is clamped to 1..=6. */
  function LevelOf(path: string): (l: nat)
    ensures 1 <= l <= 6
    ensures SegmentCount(path) < 256 ==> l == if SegmentCount(path) < 6 then SegmentCount(path) else 6
  {
    var n := SegmentCount(path) % 256;
    if n < 1 then 1 else if n > 6 then 6 else n
  }

  predicate IsHeading(b: Block) {
    b.blockType == "heading" && b.sectionPath != ""
  }

  function HeadingOf(b: Block): Heading {
    Heading(LevelOf(b.sectionPath), b.text, b.charStart)
  }

  function Headings(blocks: seq<Block>): seq<Heading> {
    if blocks == [] then []
    else Headings(blocks[..|blocks| - 1]) + (var b := blocks[|blocks| - 1]; if IsHeading(b) then [HeadingOf(b)] else [])
  }

  /** The headings are those of the blocks at the increasing places `at`: all heading blocks with a section path, with
      their own text and start. */
  ghost predicate HeadingsAt(blocks: seq<Block>, hs: seq<Heading>, at: seq<nat>) {
    && |at| == |hs| && (forall j, k :: 0 <= j < k < |at| ==> at[j] < at[k])
    && (forall k :: 0 <= k < |at| ==>
          && at[k] < |blocks| && hs[k].title == blocks[at[k]].text && hs[k].start == blocks[at[k]].charStart
          && hs[k].level == LevelOf(blocks[at[k]].sectionPath))
    && (forall i :: 0 <= i < |blocks| ==>
          (i in at <==> blocks[i].blockType == "heading" && blocks[i].sectionPath != ""))
  }

  lemma HeadingNext(blocks: seq<Block>, hs: seq<Heading>, at: seq<nat>, b: Block)
    requires HeadingsAt(blocks, hs, at) && b.blockType == "heading" && b.sectionPath != ""
    ensures HeadingsAt(blocks + [b], hs + [HeadingOf(b)], at + [|blocks|])
  {
  }

  lemma OtherNext(blocks: seq<Block>, hs: seq<Heading>, at: seq<nat>, b: Block)
    requires HeadingsAt(blocks, hs, at) && !(b.blockType == "heading" && b.sectionPath != "")
    ensures HeadingsAt(blocks + [b], hs, at)
  {
  }

  /** The outline's headings are exactly the heading blocks, in order. */
  lemma {:induction false} HeadingsExactly(blocks: seq<Block>) returns (at: seq<nat>)
    ensures HeadingsAt(blocks, Headings(blocks), at)
    decreases |blocks|
  {
    if blocks == [] {
      return [];
    }
    var n := |blocks| - 1;
    var head, b := blocks[..n], blocks[n];
    at := HeadingsExactly(head);
    assert blocks == head + [b];
    if IsHeading(b) {
      HeadingNext(head, Headings(head), at, b);
      at := at + [n];
    } else {
      OtherNext(head, Headings(head), at, b);
      assert Headings(blocks) == Headings(head);
    }
  }

  function DocEnd(blocks: seq<Block>): (n: nat)
    ensures forall i :: 0 <= i < |blocks| ==> blocks[i].charEnd <= n
    ensures n > 0 ==> exists i :: 0 <= i < |blocks| && blocks[i].charEnd == n
  {
    if blocks == [] then 0
    else
      var k := |blocks| - 1;
      var n := DocEnd(blocks[..k]);
      assert forall i :: 0 <= i < k ==> blocks[..k][i] == blocks[i];
      if n < blocks[k].charEnd then blocks[k].charEnd else n
  }

  // ----- reference definitions -----

  /** Headings of level `l` among the first `k` since the last shallower one. */
  function SinceShallower(hs: seq<Heading>, k: nat, l: nat): nat
    requires k <= |hs|
  {
    if k == 0 || hs[k - 1].level < l then 0
    else SinceShallower(hs, k - 1, l) + if hs[k - 1].level == l then 1 else 0
  }

  /** The first heading after `i` that is not deeper, or the number of headings. */
  function NextNotDeeper(hs: seq<Heading>, l: nat, i: nat): (k: nat)
    requires i <= |hs|
    ensures i <= k <= |hs| && (k < |hs| ==> hs[k].level <= l) && forall j :: i <= j < k ==> hs[j].level > l
    decreases |hs| - i
  {
    if i == |hs| || hs[i].level <= l then i else NextNotDeeper(hs, l, i + 1)
  }

  function EndOf(hs: seq<Heading>, docEnd: nat, i: nat): nat
    requires i < |hs|
  {
    var k := NextNotDeeper(hs, hs[i].level, i + 1);
    if k < |hs| then hs[k].start else docEnd
  }

  function SectionOf(hs: seq<Heading>, docEnd: nat, i: nat): Section
    requires i < |hs|
  {
    Section(hs[i].level, 1 + SinceShallower(hs, i, hs[i].level), hs[i].title, hs[i].start, EndOf(hs, docEnd, i))
  }

  // ----- the outline -----

  method CollectHeadings(blocks: seq<Block>) returns (raw: seq<Heading>)
    ensures raw == Headings(blocks)
  {
    raw := [];
    for k := 0 to |blocks|
      invariant raw == Headings(blocks[..k])
    {
      assert blocks[..k + 1][..k] == blocks[..k];
      if IsHeading(blocks[k]) {
        raw := raw + [HeadingOf(blocks[k])];
      }
    }
    assert blocks[..|blocks|] == blocks;
  }

  lemma {:induction false} LevelsInRange(blocks: seq<Block>)
    ensures forall i :: 0 <= i < |Headings(blocks)| ==> 1 <= Headings(blocks)[i].level <= 6
    decreases |blocks|
  {
    if blocks != [] {
      LevelsInRange(blocks[..|blocks| - 1]);
    }
  }

  /** The counters hold, for every level, the headings seen since the last shallower one. */
  ghost predicate Counts(hs: seq<Heading>, k: nat, counters: seq<nat>)
    requires k <= |hs|
  {
    |counters| == 7 && forall l :: 1 <= l <= 6 ==> counters[l] == SinceShallower(hs, k, l)
  }

  /** Counts one more heading and resets every deeper counter. */
  method CountHeading(counters: array<nat>, ghost hs: seq<Heading>, ghost k: nat, level: nat)
    requires k < |hs| && level == hs[k].level && 1 <= level <= 6 && Counts(hs, k, counters[..])
    modifies counters
    ensures Counts(hs, k + 1, counters[..])
  {
    counters[level] := counters[level] + 1;
    for deeper := level + 1 to 7
      invariant counters[level] == SinceShallower(hs, k, level) + 1
      invariant forall l :: 1 <= l < level ==> counters[l] == SinceShallower(hs, k, l)
      invariant forall l :: level < l < deeper ==> counters[l] == 0
    {
      counters[deeper] := 0;
    }
  }

  /** One section per heading: its ordinal among same-level headings since the last shallower one, and its extent to the
      next heading that is not deeper. */
  method BuildSections(blocks: seq<Block>) returns (out: seq<Section>)
    ensures |out| == |Headings(blocks)|
    ensures forall i :: 0 <= i < |out| ==> out[i] == SectionOf(Headings(blocks), DocEnd(blocks), i)
  {
    var docEnd := DocEnd(blocks);
    var raw := CollectHeadings(blocks);
    LevelsInRange(blocks);
    var counters := new nat[7](_ => 0);
    out := [];
    for i := 0 to |raw|
      invariant Counts(raw, i, counters[..])
      invariant |out| == i && forall k :: 0 <= k < i ==> out[k] == SectionOf(raw, docEnd, k)
    {
      var h := raw[i];
      CountHeading(counters, raw, i, h.level);
      var end := FindEnd(raw, docEnd, i);
      out := out + [Section(h.level, counters[h.level], h.title, h.start, end)];
    }
  }

  /** Where the section of heading `i` ends: the next heading that is not deeper, or the end of the document. */
  method FindEnd(raw: seq<Heading>, docEnd: nat, i: nat) returns (end: nat)
    requires i < |raw|
    ensures end == EndOf(raw, docEnd, i)
  {
    var k := i + 1;
    while k < |raw| && raw[k].level > raw[i].level
      invariant i + 1 <= k <= |raw|
      invariant NextNotDeeper(raw, raw[i].level, i + 1) == NextNotDeeper(raw, raw[i].level, k)
    {
      k := k + 1;
    }
    end := if k < |raw| then raw[k].start else docEnd;
  }

  // ----- the outline is laminar -----

  ghost predicate InDocumentOrder(blocks: seq<Block>) {
    && (forall i :: 0 <= i < |blocks| ==> blocks[i].charStart <= blocks[i].charEnd)
    && (forall i, j :: 0 <= i < j < |blocks| ==> blocks[i].charStart <= blocks[j].charStart)
  }

  /** Headings start in order and no later than the document ends. */
  ghost predicate HeadingsOrdered(hs: seq<Heading>, docEnd: nat) {
    && (forall i :: 0 <= i < |hs| ==> hs[i].start <= docEnd)
    && (forall i, j :: 0 <= i < j < |hs| ==> hs[i].start <= hs[j].start)
  }

  lemma {:induction false} HeadingsInOrder(blocks: seq<Block>, docEnd: nat, last: nat)
    requires InDocumentOrder(blocks)
    requires forall i :: 0 <= i < |blocks| ==> blocks[i].charEnd <= docEnd && blocks[i].charStart <= last
    ensures HeadingsOrdered(Headings(blocks), docEnd)
    ensures forall i :: 0 <= i < |Headings(blocks)| ==> Headings(blocks)[i].start <= last
    decreases |blocks|
  {
    if blocks != [] {
      var n := |blocks| - 1;
      assert forall i :: 0 <= i < n ==> blocks[..n][i] == blocks[i];
      HeadingsInOrder(blocks[..n], docEnd, blocks[n].charStart);
    }
  }

  /** A later section lies after an earlier one, or inside it and strictly deeper. */
  lemma SectionsNest(hs: seq<Heading>, docEnd: nat, i: nat, j: nat)
    requires HeadingsOrdered(hs, docEnd) && i < j < |hs|
    ensures var a, b := SectionOf(hs, docEnd, i), SectionOf(hs, docEnd, j);
      || a.charEnd <= b.charStart
      || (a.charStart <= b.charStart && b.charEnd <= a.charEnd && a.level < b.level)
  {
    var k := NextNotDeeper(hs, hs[i].level, i + 1);
    var m := NextNotDeeper(hs, hs[j].level, j + 1);
    if j < k && k < |hs| {
      assert hs[k].level <= hs[i].level < hs[j].level;
      assert m <= k;
      assert m < k ==> hs[m].start <= hs[k].start;
    }
  }

  /** For every ordered block list the sections are laminar. */
  lemma OutlineIsLaminar(blocks: seq<Block>, i: nat, j: nat)
    requires InDocumentOrder(blocks) && i < j < |Headings(blocks)|
    ensures var hs := Headings(blocks);
      var a, b := SectionOf(hs, DocEnd(blocks), i), SectionOf(hs, DocEnd(blocks), j);
      || a.charEnd <= b.charStart
      || (a.charStart <= b.charStart && b.charEnd <= a.charEnd && a.level < b.level)
  {
    HeadingsInOrder(blocks, DocEnd(blocks), if blocks == [] then 0 else blocks[|blocks| - 1].charStart);
    SectionsNest(Headings(blocks), DocEnd(blocks), i, j);
  }
}
