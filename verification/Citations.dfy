/** Citation markers in an answer and the citations grouped from them (`citation.rs`). */
module Citations {
  import opened Wrappers
  import opened Chars
  import opened FirstSeen
  import opened ContextFit

  const USIZE_MAX: nat := 0xFFFF_FFFF_FFFF_FFFF
  const U32_MODULUS: nat := 0x1_0000_0000

  predicate IsDigit(c: char) {
    '0' <= c <= '9'
  }

  // ----- the text between the brackets -----

  /** First position at or after `i` holding `c`, or the length. */
  function IndexFrom(s: string, c: char, i: nat): (k: nat)
    requires i <= |s|
    ensures i <= k <= |s| && (k < |s| ==> s[k] == c)
    decreases |s| - i
  {
    if i == |s| || s[i] == c then i else IndexFrom(s, c, i + 1)
  }

  lemma {:induction false} IndexFromIsFirst(s: string, c: char, i: nat)
    requires i <= |s|
    ensures c !in s[i..IndexFrom(s, c, i)]
    decreases |s| - i
  {
    if i < |s| && s[i] != c {
      IndexFromIsFirst(s, c, i + 1);
      var k := IndexFrom(s, c, i + 1);
      assert s[i..k] == [s[i]] + s[i + 1..k];
    }
  }

  lemma {:induction false} IndexFromIs(s: string, c: char, i: nat, k: nat)
    requires i <= k <= |s| && c !in s[i..k] && (k < |s| ==> s[k] == c)
    ensures IndexFrom(s, c, i) == k
    decreases k - i
  {
    if i < k {
      assert s[i] == s[i..k][0] && s[i + 1..k] == s[i..k][1..];
      IndexFromIs(s, c, i + 1, k);
    }
  }

  /** `str::split(',')`: the parts between commas, at least one. */
  function SplitCommas(s: string): (parts: seq<string>)
    ensures parts != []
    decreases |s|
  {
    var k := IndexFrom(s, ',', 0);
    if k == |s| then [s] else [s[..k]] + SplitCommas(s[k + 1..])
  }

  /** `str::trim`. */
  function Trim(s: string): string {
    if s == "" then ""
    else if IsWhitespace(s[0]) then Trim(s[1..])
    else if IsWhitespace(s[|s| - 1]) then Trim(s[..|s| - 1])
    else s
  }

  function DecimalValue(t: string): nat {
    if t == "" then 0
    else 10 * DecimalValue(t[..|t| - 1]) + (if IsDigit(t[|t| - 1]) then t[|t| - 1] as int - '0' as int else 0)
  }

  /** A part is a bare integer that a machine word can hold. */
  predicate IsNumber(t: string) {
    t != "" && (forall i :: 0 <= i < |t| ==> IsDigit(t[i])) && DecimalValue(t) <= USIZE_MAX
  }

  predicate IsNumberList(inner: string) {
    forall k :: 0 <= k < |SplitCommas(inner)| ==> IsNumber(Trim(SplitCommas(inner)[k]))
  }

  function NumbersOf(inner: string): seq<nat> {
    seq(|SplitCommas(inner)|, k requires 0 <= k < |SplitCommas(inner)| => DecimalValue(Trim(SplitCommas(inner)[k])))
  }

  /** Parses a comma-separated list of bare integers, all or nothing. */
  method ParseMarkerList(inner: string) returns (ns: Option<seq<nat>>)
    ensures ns == if IsNumberList(inner) then Some(NumbersOf(inner)) else None
  {
    var parts := SplitCommas(inner);
    var found: seq<nat> := [];
    for k := 0 to |parts|
      invariant forall j :: 0 <= j < k ==> IsNumber(Trim(parts[j]))
      invariant found == NumbersOf(inner)[..k]
    {
      var t := Trim(parts[k]);
      if !IsNumber(t) {
        return None;
      }
      found := found + [DecimalValue(t)];
    }
    assert NumbersOf(inner)[..|parts|] == NumbersOf(inner);
    return Some(found);
  }

  lemma {:induction false} TrimmedChars(s: string, c: char)
    requires c in s && !IsWhitespace(c)
    ensures c in Trim(s)
    decreases |s|
  {
    if IsWhitespace(s[0]) {
      assert c in s[1..];
      TrimmedChars(s[1..], c);
    } else if IsWhitespace(s[|s| - 1]) {
      assert s == s[..|s| - 1] + [s[|s| - 1]];
      TrimmedChars(s[..|s| - 1], c);
    }
  }

  lemma {:induction false} PartHolds(s: string, c: char) returns (k: nat)
    requires c in s && c != ','
    ensures k < |SplitCommas(s)| && c in SplitCommas(s)[k]
    decreases |s|
  {
    var n := IndexFrom(s, ',', 0);
    if n == |s| || c in s[..n] {
      return 0;
    }
    assert s == s[..n] + [','] + s[n + 1..];
    k := PartHolds(s[n + 1..], c);
    k := k + 1;
  }

  /** A valid list holds no bracket, so no marker starts inside another. */
  lemma NoBracketInList(inner: string)
    requires IsNumberList(inner)
    ensures '[' !in inner
  {
    if '[' in inner {
      var k := PartHolds(inner, '[');
      TrimmedChars(SplitCommas(inner)[k], '[');
    }
  }

  // ----- scanning the answer -----

  /** The text from the `[` at `i` up to the next `]`, if there is one and it is a valid list. */
  function MarkerAt(s: string, i: nat): seq<nat>
    requires i < |s|
  {
    var close := IndexFrom(s, ']', i + 1);
    if s[i] == '[' && close < |s| then ListOr(s[i + 1..close]) else []
  }

  function ListOr(inner: string): seq<nat> {
    if IsNumberList(inner) then NumbersOf(inner) else []
  }

  /** The markers' numbers, by position. */
  function MarkerLists(s: string): seq<seq<nat>> {
    seq(|s|, i requires 0 <= i < |s| => MarkerAt(s, i))
  }

  /** The numbers of the first `i` lists, each with its position, in order. */
  function Gather(lists: seq<seq<nat>>, i: nat): seq<(nat, nat)>
    requires i <= |lists|
  {
    if i == 0 then [] else Gather(lists, i - 1) + At(i - 1, lists[i - 1])
  }

  function AllMarkers(s: string): seq<(nat, nat)> {
    Gather(MarkerLists(s), |s|)
  }

  function At(i: nat, ns: seq<nat>): seq<(nat, nat)> {
    seq(|ns|, k requires 0 <= k < |ns| => (i, ns[k]))
  }

  lemma AtHolds(i: nat, ns: seq<nat>, x: (nat, nat))
    ensures x in At(i, ns) <==> x.0 == i && x.1 in ns
  {
    if x.0 == i && x.1 in ns {
      var k :| 0 <= k < |ns| && ns[k] == x.1;
      assert At(i, ns)[k] == x;
    }
  }

  lemma {:induction false} GatherHolds(lists: seq<seq<nat>>, j: nat, i: nat, n: nat)
    requires j <= |lists|
    ensures (i, n) in Gather(lists, j) <==> i < j && n in lists[i]
    decreases j
  {
    if j > 0 {
      GatherHolds(lists, j - 1, i, n);
      AtHolds(j - 1, lists[j - 1], (i, n));
    }
  }

  /** `n` is one of the numbers between the `[` at `i` and the next `]`, at `close`. */
  ghost predicate IsMarker(s: string, i: nat, n: nat, close: nat) {
    && i < close < |s| && s[i] == '[' && s[close] == ']' && ']' !in s[i + 1..close]
    && IsNumberList(s[i + 1..close]) && n in NumbersOf(s[i + 1..close])
  }

  /** The markers are exactly the numbers of every `[` whose text up to the next `]` is a valid integer list. */
  lemma MarkersExactly(s: string, i: nat, n: nat)
    ensures (i, n) in AllMarkers(s) <==> exists close :: IsMarker(s, i, n, close)
  {
    GatherHolds(MarkerLists(s), |s|, i, n);
    if i < |s| {
      assert MarkerLists(s)[i] == MarkerAt(s, i);
      if n in MarkerAt(s, i) {
        MarkerCloses(s, i, n);
      }
      if c: nat :| IsMarker(s, i, n, c) {
        IndexFromIs(s, ']', i + 1, c);
      }
    }
  }

  lemma MarkerCloses(s: string, i: nat, n: nat)
    requires i < |s| && n in MarkerAt(s, i)
    ensures IsMarker(s, i, n, IndexFrom(s, ']', i + 1))
  {
    IndexFromIsFirst(s, ']', i + 1);
  }

  lemma {:induction false} SkipEmpty(lists: seq<seq<nat>>, i: nat, j: nat)
    requires i <= j <= |lists| && forall k :: i <= k < j ==> lists[k] == []
    ensures Gather(lists, i) == Gather(lists, j)
    decreases j
  {
    if i < j {
      SkipEmpty(lists, i, j - 1);
      assert At(j - 1, []) == [];
    }
  }

  /** Text without an opening bracket holds no marker. */
  lemma SkipPlain(s: string, i: nat, j: nat)
    requires i <= j <= |s| && '[' !in s[i..j]
    ensures Gather(MarkerLists(s), i) == Gather(MarkerLists(s), j)
  {
    forall k | i <= k < j
      ensures MarkerLists(s)[k] == []
    {
      assert s[k] == s[i..j][k - i];
    }
    SkipEmpty(MarkerLists(s), i, j);
  }

  lemma GatherStep(s: string, i: nat, ns: seq<nat>, next: nat)
    requires i < next <= |s| && ns == MarkerAt(s, i) && '[' !in s[i + 1..next]
    ensures Gather(MarkerLists(s), next) == Gather(MarkerLists(s), i) + At(i, ns)
  {
    SkipPlain(s, i + 1, next);
    assert MarkerLists(s)[i] == ns;
  }

  /** Scans for markers, skipping each one found: exactly the numbers of every `[` whose text up to the next `]` is a
      valid integer list, in order. */
  method ParseMarkers(s: string) returns (markers: seq<(nat, nat)>)
    ensures markers == AllMarkers(s)
  {
    markers := [];
    var i := 0;
    while i < |s|
      invariant 0 <= i <= |s|
      invariant markers == Gather(MarkerLists(s), i)
    {
      var ns, next := MarkerStep(s, i);
      GatherStep(s, i, ns, next);
      markers := markers + At(i, ns);
      i := next;
    }
  }

  lemma NoBracketThrough(s: string, i: nat, close: nat)
    requires i <= close < |s| && s[close] == ']' && '[' !in s[i..close]
    ensures '[' !in s[i..close + 1]
  {
    assert s[i..close + 1] == s[i..close] + [']'];
  }

  /** The numbers found at `i`, and where the scan goes on. */
  method MarkerStep(s: string, i: nat) returns (ns: seq<nat>, next: nat)
    requires i < |s|
    ensures i < next <= |s| && ns == MarkerAt(s, i) && '[' !in s[i + 1..next]
  {
    var close := IndexFrom(s, ']', i + 1);
    if s[i] == '[' && close < |s| {
      var parsed := ParseMarkerList(s[i + 1..close]);
      if parsed.Some? {
        NoBracketInList(s[i + 1..close]);
        NoBracketThrough(s, i + 1, close);
        return parsed.value, close + 1;
      }
    }
    return [], i + 1;
  }

  // ----- grouping by source -----

  predicate InRange(n: nat, len: nat) {
    1 <= n <= len
  }

  datatype Locator = Locator(chunkId: string, anchor: Option<string>)
  datatype Citation = Citation(sourceId: string, ordinal: nat, markers: seq<nat>, locators: seq<Locator>)
  datatype Group = Group(sourceId: string, locators: seq<Locator>, markers: seq<nat>)

  /** The numbers that name a unit, in order of appearance. */
  function Cited(ns: seq<(nat, nat)>, len: nat): seq<nat> {
    if ns == [] then []
    else Cited(ns[..|ns| - 1], len) + (var n := ns[|ns| - 1].1; if InRange(n, len) then [n] else [])
  }

  /** The cited numbers are the numbers of the markers that name a unit. */
  lemma {:induction false} CitedExactly(ns: seq<(nat, nat)>, len: nat, n: nat)
    ensures n in Cited(ns, len) <==> InRange(n, len) && exists i :: (i, n) in ns
    decreases |ns|
  {
    if ns != [] {
      var k := |ns| - 1;
      CitedExactly(ns[..k], len, n);
      assert ns == ns[..k] + [ns[k]];
      if n == ns[k].1 {
        assert (ns[k].0, n) in ns;
      }
    }
  }

  function UnitOf(units: seq<Unit>, n: nat): Unit {
    if InRange(n, |units|) then units[n - 1] else Unit("", "", None, "")
  }

  function LocatorOf(units: seq<Unit>, n: nat): Locator {
    Locator(UnitOf(units, n).chunkId, UnitOf(units, n).locator)
  }

  function SourcesOf(units: seq<Unit>, ns: seq<nat>): seq<string> {
    seq(|ns|, i requires 0 <= i < |ns| => UnitOf(units, ns[i]).sourceId)
  }

  /** The numbers that name a unit of the given source, in order. */
  function OfSource(units: seq<Unit>, ns: seq<nat>, source: string): seq<nat> {
    if ns == [] then []
    else
      var n := ns[|ns| - 1];
      OfSource(units, ns[..|ns| - 1], source) + if UnitOf(units, n).sourceId == source then [n] else []
  }

  predicate HasChunk(ls: seq<Locator>, chunk: string) {
    exists i :: 0 <= i < |ls| && ls[i].chunkId == chunk
  }

  function AddLocator(ls: seq<Locator>, l: Locator): seq<Locator> {
    if HasChunk(ls, l.chunkId) then ls else ls + [l]
  }

  /** One locator per chunk, the first one seen. */
  function LocatorsOf(units: seq<Unit>, ns: seq<nat>): seq<Locator> {
    if ns == [] then [] else AddLocator(LocatorsOf(units, ns[..|ns| - 1]), LocatorOf(units, ns[|ns| - 1]))
  }

  /** The locators are distinct by chunk, cover every cited chunk, and each is some cited unit's. */
  lemma {:induction false} LocatorsCover(units: seq<Unit>, ns: seq<nat>)
    ensures forall i, j :: 0 <= i < j < |LocatorsOf(units, ns)| ==>
      LocatorsOf(units, ns)[i].chunkId != LocatorsOf(units, ns)[j].chunkId
    ensures forall n :: n in ns ==> HasChunk(LocatorsOf(units, ns), UnitOf(units, n).chunkId)
    ensures forall l :: l in LocatorsOf(units, ns) ==> exists n :: n in ns && l == LocatorOf(units, n)
    decreases |ns|
  {
    if ns != [] {
      var head, n := ns[..|ns| - 1], ns[|ns| - 1];
      var ls := LocatorsOf(units, head);
      LocatorsCover(units, head);
      assert ns == head + [n];
      var ls' := AddLocator(ls, LocatorOf(units, n));
      forall m | m in ns
        ensures HasChunk(ls', UnitOf(units, m).chunkId)
      {
        if m in head {
          KeepsChunk(ls, LocatorOf(units, n), UnitOf(units, m).chunkId);
        } else {
          AddsChunk(ls, LocatorOf(units, n));
        }
      }
      forall l | l in ls'
        ensures exists m :: m in ns && l == LocatorOf(units, m)
      {
        if l in ls {
          var m :| m in head && l == LocatorOf(units, m);
          assert m in ns;
        } else {
          assert n in ns && l == LocatorOf(units, n);
        }
      }
    }
  }

  lemma KeepsChunk(ls: seq<Locator>, l: Locator, chunk: string)
    requires HasChunk(ls, chunk)
    ensures HasChunk(AddLocator(ls, l), chunk)
  {
    var i :| 0 <= i < |ls| && ls[i].chunkId == chunk;
    assert AddLocator(ls, l)[i] == ls[i];
  }

  lemma AddsChunk(ls: seq<Locator>, l: Locator)
    ensures HasChunk(AddLocator(ls, l), l.chunkId)
  {
    if !HasChunk(ls, l.chunkId) {
      assert AddLocator(ls, l)[|ls|] == l;
    }
  }

  function GroupOf(units: seq<Unit>, ns: seq<nat>, source: string): Group {
    var own := OfSource(units, ns, source);
    Group(source, LocatorsOf(units, own), Distinct(own))
  }

  function GroupsOf(units: seq<Unit>, ns: seq<nat>): seq<Group> {
    GroupsFor(units, ns, Distinct(SourcesOf(units, ns)))
  }

  function GroupsFor(units: seq<Unit>, ns: seq<nat>, sources: seq<string>): seq<Group> {
    seq(|sources|, k requires 0 <= k < |sources| => GroupOf(units, ns, sources[k]))
  }

  lemma OfSourceSnoc(units: seq<Unit>, ns: seq<nat>, n: nat, source: string)
    ensures OfSource(units, ns + [n], source) ==
      OfSource(units, ns, source) + if UnitOf(units, n).sourceId == source then [n] else []
  {
    assert (ns + [n])[..|ns|] == ns;
  }

  lemma {:induction false} OfSourceMembers(units: seq<Unit>, ns: seq<nat>, source: string)
    ensures forall n :: n in OfSource(units, ns, source) <==> n in ns && UnitOf(units, n).sourceId == source
    decreases |ns|
  {
    if ns != [] {
      OfSourceMembers(units, ns[..|ns| - 1], source);
      assert ns == ns[..|ns| - 1] + [ns[|ns| - 1]];
    }
  }

  /** The group of a source after one more number. */
  lemma GroupSnoc(units: seq<Unit>, ns: seq<nat>, n: nat, source: string)
    ensures var g := GroupOf(units, ns, source);
      GroupOf(units, ns + [n], source) ==
        if UnitOf(units, n).sourceId != source then g
        else Group(source, AddLocator(g.locators, LocatorOf(units, n)),
                   if n in g.markers then g.markers else g.markers + [n])
  {
    var own := OfSource(units, ns, source);
    OfSourceSnoc(units, ns, n, source);
    if UnitOf(units, n).sourceId == source {
      DistinctSnoc(own, n);
      assert (own + [n])[..|own|] == own;
    } else {
      assert own + [] == own;
    }
  }

  lemma SourcesSnoc(units: seq<Unit>, ns: seq<nat>, n: nat)
    ensures var s := UnitOf(units, n).sourceId; var seen := Distinct(SourcesOf(units, ns));
      Distinct(SourcesOf(units, ns + [n])) == if s in seen then seen else seen + [s]
  {
    assert SourcesOf(units, ns + [n]) == SourcesOf(units, ns) + [UnitOf(units, n).sourceId];
    DistinctSnoc(SourcesOf(units, ns), UnitOf(units, n).sourceId);
  }

  function Added(units: seq<Unit>, g: Group, n: nat): Group {
    Group(g.sourceId, AddLocator(g.locators, LocatorOf(units, n)),
          if n in g.markers then g.markers else g.markers + [n])
  }

  /** A number of a source already seen changes that source's group only. */
  lemma KnownSource(units: seq<Unit>, ns: seq<nat>, n: nat, at: nat)
    requires at < |GroupsOf(units, ns)| && GroupsOf(units, ns)[at].sourceId == UnitOf(units, n).sourceId
    ensures GroupsOf(units, ns + [n]) == GroupsOf(units, ns)[at := Added(units, GroupsOf(units, ns)[at], n)]
  {
    var seen := Distinct(SourcesOf(units, ns));
    SourcesSnoc(units, ns, n);
    assert seen[at] == UnitOf(units, n).sourceId;
    KnownAt(units, ns, n, seen, at);
  }

  lemma KnownAt(units: seq<Unit>, ns: seq<nat>, n: nat, sources: seq<string>, at: nat)
    requires at < |sources| && sources[at] == UnitOf(units, n).sourceId
    requires forall i, j :: 0 <= i < j < |sources| ==> sources[i] != sources[j]
    ensures var groups := GroupsFor(units, ns, sources);
      GroupsFor(units, ns + [n], sources) == groups[at := Added(units, groups[at], n)]
  {
    var groups, groups' := GroupsFor(units, ns, sources), GroupsFor(units, ns + [n], sources);
    forall k | 0 <= k < |sources|
      ensures groups'[k] == if k == at then Added(units, groups[at], n) else groups[k]
    {
      GroupSnoc(units, ns, n, sources[k]);
    }
  }

  /** A number of a new source opens a group at the end. */
  lemma UnknownSource(units: seq<Unit>, ns: seq<nat>, n: nat)
    requires UnitOf(units, n).sourceId !in SourcesOf(units, ns)
    ensures GroupsOf(units, ns + [n])
      == GroupsOf(units, ns) + [Group(UnitOf(units, n).sourceId, [LocatorOf(units, n)], [n])]
  {
    var seen := Distinct(SourcesOf(units, ns));
    SourcesSnoc(units, ns, n);
    UnknownAt(units, ns, n, seen);
    NewGroup(units, ns, n);
  }

  lemma UnknownAt(units: seq<Unit>, ns: seq<nat>, n: nat, sources: seq<string>)
    requires UnitOf(units, n).sourceId !in sources
    ensures var source := UnitOf(units, n).sourceId;
      GroupsFor(units, ns + [n], sources + [source])
        == GroupsFor(units, ns, sources) + [GroupOf(units, ns + [n], source)]
  {
    forall k | 0 <= k < |sources|
      ensures GroupOf(units, ns + [n], sources[k]) == GroupOf(units, ns, sources[k])
    {
      GroupSnoc(units, ns, n, sources[k]);
    }
  }

  lemma NewGroup(units: seq<Unit>, ns: seq<nat>, n: nat)
    requires UnitOf(units, n).sourceId !in SourcesOf(units, ns)
    ensures GroupOf(units, ns + [n], UnitOf(units, n).sourceId)
      == Group(UnitOf(units, n).sourceId, [LocatorOf(units, n)], [n])
  {
    NewSource(units, ns, UnitOf(units, n).sourceId);
    GroupSnoc(units, ns, n, UnitOf(units, n).sourceId);
    assert AddLocator([], LocatorOf(units, n)) == [LocatorOf(units, n)];
  }

  lemma {:induction false} NewSource(units: seq<Unit>, ns: seq<nat>, source: string)
    requires source !in SourcesOf(units, ns)
    ensures OfSource(units, ns, source) == []
    decreases |ns|
  {
    if ns != [] {
      var n := |ns| - 1;
      assert SourcesOf(units, ns)[n] == UnitOf(units, ns[n]).sourceId;
      assert SourcesOf(units, ns[..n]) == SourcesOf(units, ns)[..n];
      NewSource(units, ns[..n], source);
    }
  }

  /** Adds one cited number to its source's group, opening the group when the source is new. */
  method AddNumber(units: seq<Unit>, ghost ns: seq<nat>, n: nat, groups: seq<Group>) returns (groups': seq<Group>)
    requires InRange(n, |units|) && groups == GroupsOf(units, ns)
    ensures groups' == GroupsOf(units, ns + [n])
  {
    var source := units[n - 1].sourceId;
    var at := FindGroup(groups, source);
    if at < |groups| {
      KnownSource(units, ns, n, at);
      groups' := groups[at := Added(units, groups[at], n)];
    } else {
      assert source !in SourcesOf(units, ns) by {
        var seen := Distinct(SourcesOf(units, ns));
        assert forall k :: 0 <= k < |seen| ==> groups[k].sourceId == seen[k];
      }
      UnknownSource(units, ns, n);
      groups' := groups + [Group(source, [LocatorOf(units, n)], [n])];
    }
  }

  method FindGroup(groups: seq<Group>, source: string) returns (at: nat)
    ensures at <= |groups| && (at < |groups| ==> groups[at].sourceId == source)
    ensures forall k :: 0 <= k < at ==> groups[k].sourceId != source
  {
    at := 0;
    while at < |groups| && groups[at].sourceId != source
      invariant at <= |groups|
      invariant forall k :: 0 <= k < at ==> groups[k].sourceId != source
    {
      at := at + 1;
    }
  }

  // ----- sorting -----

  predicate Increasing(s: seq<nat>) {
    forall i, j :: 0 <= i < j < |s| ==> s[i] < s[j]
  }

  function Insert(s: seq<nat>, x: nat): (r: seq<nat>)
    requires Increasing(s) && x !in s
    ensures Increasing(r) && forall y :: y in r <==> y == x || y in s
  {
    if s == [] || x < s[0] then [x] + s
    else
      assert forall y :: y in s <==> y == s[0] || y in s[1..];
      var rest := Insert(s[1..], x);
      assert s[0] in s && forall j :: 0 <= j < |s[1..]| ==> s[1..][j] == s[j + 1] > s[0];
      assert forall y :: y in s[1..] ==> s[0] < y;
      assert forall y :: y in rest ==> s[0] < y;
      assert forall i :: 0 <= i < |rest| ==> rest[i] in rest;
      [s[0]] + rest
  }

  /** `sort_unstable` on distinct numbers: the same numbers, in increasing order. */
  function Sorted(s: seq<nat>): (r: seq<nat>)
    requires forall i, j :: 0 <= i < j < |s| ==> s[i] != s[j]
    ensures Increasing(r) && forall y :: y in r <==> y in s
  {
    if s == [] then []
    else
      assert forall y :: y in s <==> y == s[0] || y in s[1..];
      Insert(Sorted(s[1..]), s[0])
  }

  function CitationOf(g: Group, ordinal: nat): Citation
    requires forall i, j :: 0 <= i < j < |g.markers| ==> g.markers[i] != g.markers[j]
  {
    Citation(g.sourceId, ordinal, Sorted(g.markers), g.locators)
  }

  // ----- extraction -----

  function CitationsOf(units: seq<Unit>, ns: seq<nat>): seq<Citation> {
    var groups := GroupsOf(units, ns);
    seq(|groups|, k requires 0 <= k < |groups| => CitationOf(groups[k], k + 1))
  }

  method GroupMarkers(markers: seq<(nat, nat)>, units: seq<Unit>) returns (groups: seq<Group>)
    ensures groups == GroupsOf(units, Cited(markers, |units|))
  {
    groups := [];
    for k := 0 to |markers|
      invariant groups == GroupsOf(units, Cited(markers[..k], |units|))
    {
      var n := markers[k].1;
      assert markers[..k + 1][..k] == markers[..k];
      if InRange(n, |units|) {
        groups := AddNumber(units, Cited(markers[..k], |units|), n, groups);
      } else {
        assert Cited(markers[..k], |units|) + [] == Cited(markers[..k], |units|);
      }
    }
    assert markers[..|markers|] == markers;
  }

  lemma NextCitation(units: seq<Unit>, ns: seq<nat>, k: nat)
    requires k < |GroupsOf(units, ns)|
    ensures |CitationsOf(units, ns)| == |GroupsOf(units, ns)|
    ensures CitationsOf(units, ns)[k] == CitationOf(GroupsOf(units, ns)[k], k + 1)
  {
  }

  lemma PrefixSnoc(cites: seq<Citation>, k: nat)
    requires k < |cites|
    ensures cites[..k] + [cites[k]] == cites[..k + 1] && cites[..|cites|] == cites
  {
  }

  method NumberGroups(groups: seq<Group>, ghost units: seq<Unit>, ghost ns: seq<nat>) returns (cites: seq<Citation>)
    requires groups == GroupsOf(units, ns)
    ensures cites == CitationsOf(units, ns)
  {
    cites := [];
    for k := 0 to |groups|
      invariant k <= |CitationsOf(units, ns)| && cites == CitationsOf(units, ns)[..k]
    {
      NextCitation(units, ns, k);
      PrefixSnoc(CitationsOf(units, ns), k);
      cites := cites + [CitationOf(groups[k], k + 1)];
    }
  }

  /** The answer's citations: the groups of its in-range numbers, in first-appearance order. Marker numbers fit
      32 bits. */
  method ExtractCitations(answer: string, units: seq<Unit>) returns (cites: seq<Citation>)
    requires |units| < U32_MODULUS
    ensures cites == CitationsOf(units, Cited(AllMarkers(answer), |units|))
  {
    var markers := ParseMarkers(answer);
    var groups := GroupMarkers(markers, units);
    cites := NumberGroups(groups, units, Cited(markers, |units|));
  }

  /** The citation's marker set is increasing and holds exactly the cited numbers of its source. */
  ghost predicate MarkersExact(units: seq<Unit>, ns: seq<nat>, c: Citation) {
    && Increasing(c.markers)
    && forall n :: n in c.markers <==> n in ns && UnitOf(units, n).sourceId == c.sourceId
  }

  lemma CitationExact(units: seq<Unit>, ns: seq<nat>, k: nat)
    requires k < |CitationsOf(units, ns)|
    ensures MarkersExact(units, ns, CitationsOf(units, ns)[k])
    ensures CitationsOf(units, ns)[k].ordinal == k + 1
    ensures CitationsOf(units, ns)[k].sourceId == Distinct(SourcesOf(units, ns))[k]
  {
    OfSourceMembers(units, ns, Distinct(SourcesOf(units, ns))[k]);
  }

  lemma NumberIsCited(units: seq<Unit>, ns: seq<nat>, n: nat) returns (k: nat)
    requires n in ns
    ensures k < |CitationsOf(units, ns)| && n in CitationsOf(units, ns)[k].markers
  {
    var sources := Distinct(SourcesOf(units, ns));
    var i :| 0 <= i < |ns| && ns[i] == n;
    assert SourcesOf(units, ns)[i] == UnitOf(units, n).sourceId;
    assert UnitOf(units, n).sourceId in sources;
    k :| 0 <= k < |sources| && sources[k] == UnitOf(units, n).sourceId;
    CitationExact(units, ns, k);
  }

  ghost predicate IsCited(cites: seq<Citation>, n: nat) {
    exists k :: 0 <= k < |cites| && n in cites[k].markers
  }

  /** Of two citations, the first one's source is cited first, and they share no number. */
  ghost predicate InOrder(units: seq<Unit>, ns: seq<nat>, cites: seq<Citation>, j: int, k: int) {
    0 <= j < k < |cites| ==>
      && IndexOf(SourcesOf(units, ns), cites[j].sourceId) < IndexOf(SourcesOf(units, ns), cites[k].sourceId)
      && forall n :: n in cites[j].markers ==> n !in cites[k].markers
  }

  lemma CitationsOrdered(units: seq<Unit>, ns: seq<nat>, j: nat, k: nat)
    requires j < k < |CitationsOf(units, ns)|
    ensures InOrder(units, ns, CitationsOf(units, ns), j, k)
  {
    CitationExact(units, ns, j);
    CitationExact(units, ns, k);
    FirstSeenOrder(SourcesOf(units, ns), j, k);
  }

  /** Citations partition the cited numbers by source: sources in order of first appearance, ordinals counting from one,
      disjoint exact marker sets, and every cited number in one of them. */
  lemma CitationsPartition(units: seq<Unit>, ns: seq<nat>)
    ensures var cites := CitationsOf(units, ns);
      && (forall k :: 0 <= k < |cites| ==> cites[k].ordinal == k + 1 && MarkersExact(units, ns, cites[k]))
      && (forall j, k :: InOrder(units, ns, cites, j, k))
      && (forall n :: n in ns <==> IsCited(cites, n))
  {
    var cites := CitationsOf(units, ns);
    forall k | 0 <= k < |cites|
      ensures cites[k].ordinal == k + 1 && MarkersExact(units, ns, cites[k])
    {
      CitationExact(units, ns, k);
    }
    forall j, k
      ensures InOrder(units, ns, cites, j, k)
    {
      if 0 <= j < k < |cites| {
        CitationsOrdered(units, ns, j, k);
      }
    }
    forall n | n in ns
      ensures IsCited(cites, n)
    {
      var k := NumberIsCited(units, ns, n);
    }
  }

  ghost predicate HasMarker(answer: string, n: nat) {
    exists i :: (i, n) in AllMarkers(answer)
  }

  /** An answer's citations hold exactly the in-range numbers of its markers. */
  lemma AnswerCitations(answer: string, units: seq<Unit>, n: nat)
    ensures IsCited(CitationsOf(units, Cited(AllMarkers(answer), |units|)), n)
      <==> 1 <= n <= |units| && HasMarker(answer, n)
  {
    var ns := Cited(AllMarkers(answer), |units|);
    CitedExactly(AllMarkers(answer), |units|, n);
    CitationsPartition(units, ns);
  }

  /** A citation's locators are those of its own numbers: one per chunk, every cited chunk among them. */
  lemma CitationLocators(units: seq<Unit>, ns: seq<nat>, k: nat)
    requires k < |CitationsOf(units, ns)|
    ensures var c := CitationsOf(units, ns)[k];
      && (forall i, j :: 0 <= i < j < |c.locators| ==> c.locators[i].chunkId != c.locators[j].chunkId)
      && (forall n :: n in c.markers ==> HasChunk(c.locators, UnitOf(units, n).chunkId))
      && (forall l :: l in c.locators ==> exists n :: n in c.markers && l == LocatorOf(units, n))
  {
    var own := OfSource(units, ns, Distinct(SourcesOf(units, ns))[k]);
    LocatorsCover(units, own);
    var c := CitationsOf(units, ns)[k];
    assert forall n :: n in c.markers <==> n in own;
    forall l | l in c.locators
      ensures exists n :: n in c.markers && l == LocatorOf(units, n)
    {
      var n :| n in own && l == LocatorOf(units, n);
      assert n in c.markers;
    }
  }

  /** Number `ns[i]` is the first one to cite the chunk of `l`, a chunk of the given source, and `l` carries the
      anchor of its unit. */
  ghost predicate FirstOfChunk(units: seq<Unit>, ns: seq<nat>, source: string, l: Locator, i: int) {
    && 0 <= i < |ns| && CitesChunk(units, ns[i], source, l.chunkId) && l.anchor == units[ns[i] - 1].locator
    && forall j :: 0 <= j < i ==> !CitesChunk(units, ns[j], source, l.chunkId)
  }

  predicate CitesChunk(units: seq<Unit>, n: nat, source: string, chunk: string) {
    InRange(n, |units|) && units[n - 1].sourceId == source && units[n - 1].chunkId == chunk
  }

  lemma {:induction false} LocatorsFirst(units: seq<Unit>, ns: seq<nat>, source: string, l: Locator) returns (i: nat)
    requires forall n :: n in ns ==> InRange(n, |units|)
    requires l in LocatorsOf(units, OfSource(units, ns, source))
    ensures FirstOfChunk(units, ns, source, l, i)
    decreases |ns|
  {
    var k := |ns| - 1;
    var head, n := ns[..k], ns[k];
    assert ns == head + [n];
    OfSourceSnoc(units, head, n, source);
    if l in LocatorsOf(units, OfSource(units, head, source)) {
      i := LocatorsFirst(units, head, source, l);
      StillFirst(units, head, n, source, l, i);
    } else {
      NewLocator(units, head, n, source, l);
      i := k;
    }
  }

  lemma StillFirst(units: seq<Unit>, head: seq<nat>, n: nat, source: string, l: Locator, i: nat)
    requires FirstOfChunk(units, head, source, l, i)
    ensures FirstOfChunk(units, head + [n], source, l, i)
  {
  }

  lemma AddedLocator(units: seq<Unit>, own: seq<nat>, n: nat, l: Locator)
    requires l in LocatorsOf(units, own + [n]) && l !in LocatorsOf(units, own)
    ensures l == LocatorOf(units, n) && !HasChunk(LocatorsOf(units, own), l.chunkId)
  {
    assert (own + [n])[..|own|] == own;
  }

  lemma OwnNumber(units: seq<Unit>, head: seq<nat>, n: nat, source: string)
    requires OfSource(units, head + [n], source) != OfSource(units, head, source)
    ensures UnitOf(units, n).sourceId == source
    ensures OfSource(units, head + [n], source) == OfSource(units, head, source) + [n]
  {
    OfSourceSnoc(units, head, n, source);
    assert OfSource(units, head, source) + [] == OfSource(units, head, source);
  }

  lemma NotCitedBefore(units: seq<Unit>, head: seq<nat>, source: string, chunk: string)
    requires !HasChunk(LocatorsOf(units, OfSource(units, head, source)), chunk)
    ensures forall j :: 0 <= j < |head| ==> !CitesChunk(units, head[j], source, chunk)
  {
    NewChunk(units, OfSource(units, head, source), chunk);
    OfSourceMembers(units, head, source);
    forall j | 0 <= j < |head|
      ensures !CitesChunk(units, head[j], source, chunk)
    {
      assert head[j] in head;
    }
  }

  /** A locator added by the last number cites a chunk no earlier number of the source did. */
  lemma NewLocator(units: seq<Unit>, head: seq<nat>, n: nat, source: string, l: Locator)
    requires InRange(n, |units|)
    requires l in LocatorsOf(units, OfSource(units, head + [n], source))
    requires l !in LocatorsOf(units, OfSource(units, head, source))
    ensures FirstOfChunk(units, head + [n], source, l, |head|)
  {
    OwnNumber(units, head, n, source);
    AddedLocator(units, OfSource(units, head, source), n, l);
    NotCitedBefore(units, head, source, l.chunkId);
    assert CitesChunk(units, n, source, l.chunkId);
  }

  lemma NewChunk(units: seq<Unit>, own: seq<nat>, chunk: string)
    requires !HasChunk(LocatorsOf(units, own), chunk)
    ensures forall n :: n in own ==> UnitOf(units, n).chunkId != chunk
  {
    LocatorsCover(units, own);
  }

  /** Each locator of an answer's citation carries the anchor of the first unit cited from its chunk. */
  lemma CitationAnchors(answer: string, units: seq<Unit>, k: nat, l: Locator) returns (i: nat)
    requires var ns := Cited(AllMarkers(answer), |units|);
      k < |CitationsOf(units, ns)| && l in CitationsOf(units, ns)[k].locators
    ensures var ns := Cited(AllMarkers(answer), |units|);
      FirstOfChunk(units, ns, CitationsOf(units, ns)[k].sourceId, l, i)
  {
    var ns := Cited(AllMarkers(answer), |units|);
    forall n | n in ns
      ensures InRange(n, |units|)
    {
      CitedExactly(AllMarkers(answer), |units|, n);
    }
    NextCitation(units, ns, k);
    i := LocatorsFirst(units, ns, CitationsOf(units, ns)[k].sourceId, l);
  }
}
