/** What the redactor emits for a text built of plain pieces and complete markers, for every cutting into deltas. */
module RedactorStream {
  import opened Wrappers
  import opened Chars
  import opened Redactor

  /** `Angle` is what is left of a double-bracket marker cut between its two closing brackets. */
  datatype Item = Plain(text: string) | Mark(kind: nat) | Angle

  ghost predicate IsClean(s: string) {
    forall i :: 0 <= i < |s| ==> s[i] != '<'
  }

  ghost predicate WellFormedItem(it: Item) {
    match it
    case Plain(s) => IsClean(s)
    case Mark(k) => k < 4
    case Angle => true
  }

  ghost predicate WellFormed(items: seq<Item>) {
    forall i :: 0 <= i < |items| ==> WellFormedItem(items[i])
  }

  function ItemText(ms: seq<string>, it: Item): string {
    match it
    case Plain(s) => s
    case Mark(k) => if k < |ms| then ms[k] else ""
    case Angle => "<>"
  }

  function ItemShown(it: Item): string {
    match it
    case Plain(s) => s
    case Mark(_) => ""
    case Angle => "<>"
  }

  function Text(ms: seq<string>, items: seq<Item>): string {
    if items == [] then "" else ItemText(ms, items[0]) + Text(ms, items[1..])
  }

  /** The items with their markers deleted. */
  function Shown(items: seq<Item>): string {
    if items == [] then "" else ItemShown(items[0]) + Shown(items[1..])
  }

  /** A proper prefix of a marker. */
  ghost predicate IsPartial(ms: seq<string>, t: string) {
    exists k :: 0 <= k < |ms| && t < ms[k]
  }

  // ----- shape of the markers -----

  /** All the proofs use of the markers: their length, their first characters, and where `<` stands in them. */
  ghost predicate Shaped(ms: seq<string>, k: int) {
    && 0 <= k < |ms| == 4 && |ms[k]| >= 6 && |ms[k]| == |ms[0]| - (if k < 2 then 0 else 2)
    && ms[k][0] == '<'
    && ms[k][1] == (if k < 2 then '<' else if k == 2 then 'S' else 'E')
    && (k < 2 ==> ms[k][2] == if k == 0 then 'S' else 'E')
    && (k < 2 ==> ms[k] == "<" + ms[k + 2] + ">")
    && forall i :: (if k < 2 then 2 else 1) <= i < |ms[k]| ==> ms[k][i] != '<'
  }

  ghost predicate Fences(ms: seq<string>) {
    |ms| == 4 && forall k :: 0 <= k < 4 ==> Shaped(ms, k)
  }

  lemma MarkersAreFences(nonce: string)
    requires IsClean(nonce)
    ensures Fences(Markers(nonce))
  {
    var ms := Markers(nonce);
    assert Shaped(ms, 2) && Shaped(ms, 3);
    assert Shaped(ms, 0) && Shaped(ms, 1);
  }

  lemma FenceShape(ms: seq<string>, k: nat)
    requires Fences(ms) && k < 4
    ensures Shaped(ms, k)
  {
  }

  /** A marker occurring at `i` agrees with the text there on its first three characters. */
  lemma OccurrenceHead(ms: seq<string>, s: string, k: nat, i: nat)
    requires Fences(ms) && k < 4 && OccursAt(s, ms[k], i)
    ensures |ms[k]| >= 6 && i + 6 <= |s| && s[i] == '<' && s[i + 1] == ms[k][1] && s[i + 2] == ms[k][2]
  {
    var m := ms[k];
    FenceShape(ms, k);
    assert s[i + 0] == m[0] && s[i + 1] == m[1] && s[i + 2] == m[2];
  }

  /** The only complete marker inside a proper marker prefix is the single-bracket one of an almost closed double. */
  lemma OccursInPartial(ms: seq<string>, t: string, j: nat, i: nat)
    requires Fences(ms) && IsPartial(ms, t) && j < 4 && OccursAt(t, ms[j], i)
    ensures j >= 2 && i == 1 && t == "<" + ms[j]
  {
    var x :| 0 <= x < 4 && t < ms[x];
    var mx, mj := ms[x], ms[j];
    FenceShape(ms, x);
    FenceShape(ms, j);
    OccurrenceHead(ms, t, j, i);
    assert t[i] == mx[i] && t[i + 1] == mx[i + 1] && t[i + 2] == mx[i + 2];
    assert i == 1 && x < 2 && j == x + 2;
    assert |t| == |mx| - 1;
    assert t == mx[..|t|];
  }

  /** By the time the single-bracket markers are stripped, the double-bracket ones are gone. */
  ghost predicate SinglesOnly(items: seq<Item>, j: nat) {
    j >= 2 ==> forall x :: 0 <= x < |items| && items[x].Mark? ==> items[x].kind >= 2
  }

  /** The occurrence at `i` is item `k`, or the partial marker at the end when `k` counts all the items. */
  ghost predicate Found(ms: seq<string>, items: seq<Item>, t: string, j: nat, i: nat, k: nat) {
    && j < |ms| && k <= |items|
    && (k < |items| ==> items[k] == Mark(j) && i == |Text(ms, items[..k])|)
    && (k == |items| ==> i == |Text(ms, items)| + 1 && t == "<" + ms[j] && j >= 2)
  }

  lemma FoundLater(ms: seq<string>, items: seq<Item>, t: string, j: nat, i: nat, k: nat)
    requires items != [] && Found(ms, items[1..], t, j, i, k)
    ensures Found(ms, items, t, j, |ItemText(ms, items[0])| + i, k + 1)
  {
    assert k < |items| && items[..k + 1][1..] == items[1..][..k];
  }

  lemma HeadAndTail(ms: seq<string>, items: seq<Item>)
    requires items != [] && WellFormed(items)
    ensures items == [items[0]] + items[1..] && WellFormedItem(items[0]) && WellFormed(items[1..])
    ensures Text(ms, items) == ItemText(ms, items[0]) + Text(ms, items[1..])
  {
  }

  /** In a text of items, marker `j` occurs only as an item of its own or in the partial marker at the end. */
  lemma {:induction false} OccursInText(ms: seq<string>, items: seq<Item>, t: string, j: nat, i: nat) returns (k: nat)
    requires Fences(ms) && WellFormed(items) && IsPartial(ms, t) && j < 4
    requires SinglesOnly(items, j)
    requires OccursAt(Text(ms, items) + t, ms[j], i)
    ensures Found(ms, items, t, j, i, k)
    decreases |items|
  {
    if items == [] {
      assert Text(ms, items) + t == t;
      OccursInPartial(ms, t, j, i);
      return 0;
    }
    var head := ItemText(ms, items[0]);
    var rest := Text(ms, items[1..]) + t;
    HeadAndTail(ms, items);
    Regroup(head, Text(ms, items[1..]), t);
    if i < |head| {
      HeadOccurrence(ms, items[0], head + rest, j, i);
      return 0;
    }
    OccursInSuffix(head, rest, ms[j], i);
    k := OccursInText(ms, items[1..], t, j, i - |head|);
    FoundLater(ms, items, t, j, i - |head|, k);
    k := k + 1;
  }

  lemma OccursInSuffix(head: string, rest: string, m: string, i: nat)
    requires i >= |head| && OccursAt(head + rest, m, i)
    ensures OccursAt(rest, m, i - |head|)
  {
    forall k | 0 <= k < |m|
      ensures rest[i - |head| + k] == m[k]
    {
      assert (head + rest)[i + k] == m[k];
    }
  }

  lemma HeadOccurrence(ms: seq<string>, it: Item, s: string, j: nat, i: nat)
    requires Fences(ms) && WellFormedItem(it) && j < 4 && (j >= 2 && it.Mark? ==> it.kind >= 2)
    requires ItemText(ms, it) <= s && i < |ItemText(ms, it)| && OccursAt(s, ms[j], i)
    ensures it == Mark(j) && i == 0
  {
    OccurrenceHead(ms, s, j, i);
    FenceShape(ms, j);
    var head := ItemText(ms, it);
    assert head[i] == s[i];
    match it {
      case Plain(_) =>
      case Angle =>
      case Mark(x) =>
        FenceShape(ms, x);
        assert head[1] == s[1] && head[2] == s[2];
    }
  }

  // ----- stripping a text of items -----

  function Drop(items: seq<Item>, j: nat): seq<Item> {
    if items == [] then [] else (if items[0] == Mark(j) then [] else [items[0]]) + Drop(items[1..], j)
  }

  lemma {:induction false} TextConcat(ms: seq<string>, a: seq<Item>, b: seq<Item>)
    ensures Text(ms, a + b) == Text(ms, a) + Text(ms, b)
    decreases |a|
  {
    if a == [] {
      assert a + b == b;
    } else {
      assert (a + b)[1..] == a[1..] + b;
      TextConcat(ms, a[1..], b);
    }
  }

  lemma {:induction false} DropRemoved(items: seq<Item>, j: nat, k: nat)
    requires k < |items| && items[k] == Mark(j)
    ensures Drop(items[..k] + items[k + 1..], j) == Drop(items, j)
    decreases k
  {
    if k == 0 {
      assert items[..0] + items[1..] == items[1..];
    } else {
      DropRemoved(items[1..], j, k - 1);
      assert items[1..][..k - 1] + items[1..][k..] == (items[..k] + items[k + 1..])[1..];
    }
  }

  lemma {:induction false} DropNothing(items: seq<Item>, j: nat)
    requires Mark(j) !in items
    ensures Drop(items, j) == items
  {
    if items != [] {
      DropNothing(items[1..], j);
    }
  }

  lemma SplitAtItem(ms: seq<string>, items: seq<Item>, k: nat)
    requires k < |items|
    ensures Text(ms, items) == Text(ms, items[..k]) + (ItemText(ms, items[k]) + Text(ms, items[k + 1..]))
    ensures Text(ms, items[..k] + items[k + 1..]) == Text(ms, items[..k]) + Text(ms, items[k + 1..])
  {
    assert items == items[..k] + ([items[k]] + items[k + 1..]);
    assert ([items[k]] + items[k + 1..])[1..] == items[k + 1..];
    TextConcat(ms, items[..k], [items[k]] + items[k + 1..]);
    TextConcat(ms, items[..k], items[k + 1..]);
  }

  lemma MiddleOccurs(a: string, m: string, b: string, t: string)
    ensures OccursAt(a + (m + b) + t, m, |a|)
  {
  }

  lemma MiddleRemoved(a: string, m: string, b: string, t: string)
    ensures var s := a + (m + b) + t; |a| + |m| <= |s| && s[..|a|] + s[|a| + |m|..] == a + b + t
  {
  }

  lemma StripMiddle(a: string, m: string, b: string, t: string)
    requires m != "" && FindFrom(a + (m + b) + t, m, 0) == Some(|a|)
    ensures Strip(a + (m + b) + t, m) == Strip(a + b + t, m)
  {
    MiddleRemoved(a, m, b, t);
    StripAt(a + (m + b) + t, m, |a|, a + b + t);
  }

  lemma StripAt(s: string, m: string, i: nat, s': string)
    requires m != "" && FindFrom(s, m, 0) == Some(i) && i + |m| <= |s| && s' == Without(s, i, |m|)
    ensures Strip(s, m) == Strip(s', m)
  {
  }

  lemma ItemOccurs(ms: seq<string>, items: seq<Item>, t: string, j: nat, k: nat)
    requires |ms| == 4 && j < 4 && k < |items| && items[k] == Mark(j)
    ensures OccursAt(Text(ms, items) + t, ms[j], |Text(ms, items[..k])|)
  {
    SplitAtItem(ms, items, k);
    MiddleOccurs(Text(ms, items[..k]), ms[j], Text(ms, items[k + 1..]), t);
  }

  function StripPartial(ms: seq<string>, t: string, j: nat): string
    requires j < |ms|
  {
    if j >= 2 && t == "<" + ms[j] then "<" else t
  }

  /** One removal takes away an item, or reduces the partial marker at the end to its bracket. */
  lemma StripStep(ms: seq<string>, items: seq<Item>, t: string, j: nat) returns (items': seq<Item>, t': string)
    requires Fences(ms) && WellFormed(items) && IsPartial(ms, t) && j < 4 && SinglesOnly(items, j)
    requires FindFrom(Text(ms, items) + t, ms[j], 0).Some?
    ensures WellFormed(items') && IsPartial(ms, t') && SinglesOnly(items', j)
    ensures Strip(Text(ms, items) + t, ms[j]) == Strip(Text(ms, items') + t', ms[j])
    ensures Drop(items', j) == Drop(items, j) && StripPartial(ms, t', j) == StripPartial(ms, t, j)
    ensures |items'| < |items| || (|items'| == |items| && |t'| < |t|)
  {
    var k := OccursInText(ms, items, t, j, FindFrom(Text(ms, items) + t, ms[j], 0).value);
    assert ms[j] != "" by {
      FenceShape(ms, j);
    }
    if k < |items| {
      StripItemAt(ms, items, t, j, k);
      RemoveKeeps(items, j, k);
      DropRemoved(items, j, k);
      return items[..k] + items[k + 1..], t;
    } else {
      StripTailAt(ms, items, j);
      PartialBracket(ms);
      return items, "<";
    }
  }

  lemma StripItemAt(ms: seq<string>, items: seq<Item>, t: string, j: nat, k: nat)
    requires |ms| == 4 && j < 4 && ms[j] != "" && k < |items| && items[k] == Mark(j)
    requires FindFrom(Text(ms, items) + t, ms[j], 0) == Some(|Text(ms, items[..k])|)
    ensures Strip(Text(ms, items) + t, ms[j]) == Strip(Text(ms, items[..k] + items[k + 1..]) + t, ms[j])
  {
    SplitAtItem(ms, items, k);
    StripMiddle(Text(ms, items[..k]), ms[j], Text(ms, items[k + 1..]), t);
  }

  lemma TailRemoved(u: string, b: string, m: string)
    ensures var s, i := u + (b + m), |u| + |b|; i + |m| <= |s| && s[..i] + s[i + |m|..] == u + b
  {
  }

  lemma StripTailAt(ms: seq<string>, items: seq<Item>, j: nat)
    requires |ms| == 4 && j < 4 && ms[j] != ""
    requires FindFrom(Text(ms, items) + ("<" + ms[j]), ms[j], 0) == Some(|Text(ms, items)| + 1)
    ensures Strip(Text(ms, items) + ("<" + ms[j]), ms[j]) == Strip(Text(ms, items) + "<", ms[j])
  {
    var s, i := Text(ms, items) + ("<" + ms[j]), |Text(ms, items)| + 1;
    TailRemoved(Text(ms, items), "<", ms[j]);
    StripAt(s, ms[j], i, Text(ms, items) + "<");
  }

  /** Removing marker `j` deletes its items, and reduces an almost closed double marker at the end to its bracket. */
  lemma {:induction false} StripItems(ms: seq<string>, items: seq<Item>, t: string, j: nat)
    requires Fences(ms) && WellFormed(items) && IsPartial(ms, t) && j < 4 && SinglesOnly(items, j)
    ensures Strip(Text(ms, items) + t, ms[j]) == Text(ms, Drop(items, j)) + StripPartial(ms, t, j)
    decreases |items|, |t|
  {
    if FindFrom(Text(ms, items) + t, ms[j], 0).None? {
      NothingToStrip(ms, items, t, j);
    } else {
      var items', t' := StripStep(ms, items, t, j);
      StripItems(ms, items', t', j);
    }
  }

  lemma RemoveKeeps(items: seq<Item>, j: nat, k: nat)
    requires WellFormed(items) && SinglesOnly(items, j) && k < |items|
    ensures WellFormed(items[..k] + items[k + 1..]) && SinglesOnly(items[..k] + items[k + 1..], j)
  {
  }

  lemma NothingToStrip(ms: seq<string>, items: seq<Item>, t: string, j: nat)
    requires |ms| == 4 && j < 4 && FindFrom(Text(ms, items) + t, ms[j], 0).None?
    ensures Drop(items, j) == items && StripPartial(ms, t, j) == t
  {
    NoItem(ms, items, t, j);
    DropNothing(items, j);
    if t == "<" + ms[j] {
      SuffixOccurs(Text(ms, items), "<", ms[j]);
      FindNone(Text(ms, items) + t, ms[j], 0, |Text(ms, items)| + 1);
    }
  }

  lemma NoItem(ms: seq<string>, items: seq<Item>, t: string, j: nat)
    requires |ms| == 4 && j < 4 && FindFrom(Text(ms, items) + t, ms[j], 0).None?
    ensures Mark(j) !in items
  {
    if k :| 0 <= k < |items| && items[k] == Mark(j) {
      ItemOccurs(ms, items, t, j, k);
      FindNone(Text(ms, items) + t, ms[j], 0, |Text(ms, items[..k])|);
    }
  }

  lemma SuffixOccurs(u: string, b: string, m: string)
    ensures OccursAt(u + (b + m), m, |u| + |b|)
  {
  }

  lemma PartialBracket(ms: seq<string>)
    requires Fences(ms)
    ensures IsPartial(ms, "<") && IsPartial(ms, "")
  {
    FenceShape(ms, 0);
    assert "<" < ms[0];
    assert "" < ms[0];
  }

  // ----- one push over a text of items -----

  /** What is left of a partial marker after stripping. */
  function Residue(ms: seq<string>, t: string): string
    requires |ms| == 4
  {
    StripPartial(ms, StripPartial(ms, t, 2), 3)
  }

  lemma ShownCons(it: Item, items: seq<Item>)
    ensures Shown([it] + items) == ItemShown(it) + Shown(items)
  {
    assert ([it] + items)[1..] == items;
  }

  lemma {:induction false} DropHolds(items: seq<Item>, j: nat)
    ensures forall x :: x in Drop(items, j) ==> x in items && x != Mark(j)
  {
    if items != [] {
      DropHolds(items[1..], j);
    }
  }

  lemma {:induction false} DropShows(items: seq<Item>, j: nat)
    ensures Shown(Drop(items, j)) == Shown(items)
  {
    if items != [] {
      DropShows(items[1..], j);
      if items[0] != Mark(j) {
        ShownCons(items[0], Drop(items[1..], j));
      } else {
        assert Drop(items, j) == Drop(items[1..], j) && Shown(items) == Shown(items[1..]);
      }
    }
  }

  lemma DropFacts(items: seq<Item>, j: nat)
    requires WellFormed(items)
    ensures WellFormed(Drop(items, j)) && Shown(Drop(items, j)) == Shown(items)
    ensures forall x :: x in Drop(items, j) ==> x in items && x != Mark(j)
  {
    DropHolds(items, j);
    DropShows(items, j);
    forall i | 0 <= i < |Drop(items, j)|
      ensures WellFormedItem(Drop(items, j)[i])
    {
      assert Drop(items, j)[i] in items;
    }
  }

  lemma {:induction false} TextOfUnmarked(ms: seq<string>, items: seq<Item>)
    requires forall x :: x in items ==> !x.Mark?
    ensures Text(ms, items) == Shown(items)
  {
    if items != [] {
      assert items[0] in items;
      TextOfUnmarked(ms, items[1..]);
    }
  }

  lemma StripAllFour(ms: seq<string>, s: string)
    requires |ms| == 4
    ensures StripAll(s, ms) == Strip(Strip(Strip(Strip(s, ms[0]), ms[1]), ms[2]), ms[3])
  {
    assert ms[1..][1..] == ms[2..] && ms[2..][1..] == ms[3..] && ms[3..][1..] == [];
    var a := Strip(s, ms[0]);
    var b := Strip(a, ms[1]);
    var c := Strip(b, ms[2]);
    assert StripAll(s, ms) == StripAll(a, ms[1..]) == StripAll(b, ms[2..]);
    assert StripAll(b, ms[2..]) == StripAll(c, ms[3..]) == StripAll(Strip(c, ms[3]), []);
  }

  lemma StripPartialKeeps(ms: seq<string>, t: string, j: nat)
    requires Fences(ms) && IsPartial(ms, t) && j < 4
    ensures IsPartial(ms, StripPartial(ms, t, j))
  {
    PartialBracket(ms);
  }

  lemma StripDoubles(ms: seq<string>, items: seq<Item>, t: string) returns (rest: seq<Item>)
    requires Fences(ms) && WellFormed(items) && IsPartial(ms, t)
    ensures WellFormed(rest) && SinglesOnly(rest, 2) && Shown(rest) == Shown(items)
    ensures Strip(Strip(Text(ms, items) + t, ms[0]), ms[1]) == Text(ms, rest) + t
  {
    var d := Drop(items, 0);
    rest := Drop(d, 1);
    DropFacts(items, 0);
    DropFacts(d, 1);
    StripItems(ms, items, t, 0);
    StripItems(ms, d, t, 1);
    forall x | 0 <= x < |rest| && rest[x].Mark?
      ensures rest[x].kind >= 2
    {
      assert rest[x] in rest && rest[x] in d;
    }
  }

  lemma StripSingles(ms: seq<string>, items: seq<Item>, t: string)
    requires Fences(ms) && WellFormed(items) && IsPartial(ms, t) && SinglesOnly(items, 2)
    ensures Strip(Strip(Text(ms, items) + t, ms[2]), ms[3]) == Shown(items) + Residue(ms, t)
    ensures IsPartial(ms, Residue(ms, t))
  {
    var d := Drop(items, 2);
    var rest := Drop(d, 3);
    DropFacts(items, 2);
    DropFacts(d, 3);
    StripItems(ms, items, t, 2);
    StripPartialKeeps(ms, t, 2);
    forall x | 0 <= x < |d| && d[x].Mark?
      ensures d[x].kind >= 2
    {
      assert d[x] in d && d[x] in items;
    }
    StripItems(ms, d, StripPartial(ms, t, 2), 3);
    StripPartialKeeps(ms, StripPartial(ms, t, 2), 3);
    forall x | x in rest
      ensures !x.Mark?
    {
      assert x in d && x in items;
    }
    TextOfUnmarked(ms, rest);
  }

  /** Stripping a text of items deletes exactly its markers. */
  lemma StripAllItems(ms: seq<string>, items: seq<Item>, t: string)
    requires Fences(ms) && WellFormed(items) && IsPartial(ms, t)
    ensures StripAll(Text(ms, items) + t, ms) == Shown(items) + Residue(ms, t)
    ensures IsPartial(ms, Residue(ms, t))
  {
    var rest := StripDoubles(ms, items, t);
    StripSingles(ms, rest, t);
    StripAllFour(ms, Text(ms, items) + t);
  }

  lemma {:induction false} ShownShape(items: seq<Item>, i: nat)
    requires WellFormed(items) && i < |Shown(items)| && Shown(items)[i] == '<'
    ensures i + 1 < |Shown(items)| && Shown(items)[i + 1] == '>'
    decreases |items|
  {
    var head := ItemShown(items[0]);
    assert WellFormedItem(items[0]);
    if i >= |head| {
      ShownShape(items[1..], i - |head|);
    }
  }

  lemma NotAPrefix(ms: seq<string>, items: seq<Item>, r: string, i: nat)
    requires Fences(ms) && WellFormed(items) && i < |Shown(items)|
    ensures !IsMarkerPrefix(ms, (Shown(items) + r)[i..])
  {
    var s := Shown(items) + r;
    if s[i] == '<' {
      ShownShape(items, i);
    }
    forall k | 0 <= k < 4
      ensures !(s[i..] <= ms[k])
    {
      FenceShape(ms, k);
      assert s[i..][0] == s[i] && (i + 1 < |s| ==> s[i..][1] == s[i + 1]);
    }
  }

  lemma PartialTail(ms: seq<string>, u: string, r: string)
    requires IsPartial(ms, r)
    ensures (u + r)[|u|..] == r && IsMarkerPrefix(ms, r) && |r| < MaxLen(ms)
  {
    var k :| 0 <= k < |ms| && r < ms[k];
    assert r <= ms[k] && |ms[k]| <= MaxLen(ms);
  }

  /** The only marker prefix among the tails from `p` back, short enough to be looked at, is where the text is split. */
  lemma SplitsAt(ms: seq<string>, s: string, p: nat)
    requires p <= |s| < p + MaxLen(ms) && IsMarkerPrefix(ms, s[p..])
    requires forall i :: 0 <= i < p ==> !IsMarkerPrefix(ms, s[i..])
    ensures SafeSplit(ms, s) == p
  {
  }

  /** A push holds back exactly the partial marker. */
  lemma HoldsResidue(ms: seq<string>, items: seq<Item>, r: string)
    requires Fences(ms) && WellFormed(items) && IsPartial(ms, r)
    ensures SafeSplit(ms, Shown(items) + r) == |Shown(items)|
  {
    var s := Shown(items) + r;
    PartialTail(ms, Shown(items), r);
    forall i | 0 <= i < |Shown(items)|
      ensures !IsMarkerPrefix(ms, s[i..])
    {
      NotAPrefix(ms, items, r, i);
    }
    SplitsAt(ms, s, |Shown(items)|);
  }

  lemma PushItems(ms: seq<string>, seg: seq<Item>, t: string, buf: string, delta: string)
    requires Fences(ms) && WellFormed(seg) && IsPartial(ms, t) && buf + delta == Text(ms, seg) + t
    ensures PushSpec(ms, buf, delta) == (Shown(seg), Residue(ms, t))
  {
    StripAllItems(ms, seg, t);
    HoldsResidue(ms, seg, Residue(ms, t));
  }

  // ----- whole streams -----

  /** A cut inside the first item: plain text is emitted at once, so only markers are ever half consumed. */
  ghost predicate IsCursor(ms: seq<string>, items: seq<Item>, off: nat) {
    WellFormed(items) && (off > 0 ==> items != [] && !items[0].Plain? && off < |ItemText(ms, items[0])|)
  }

  function Held(ms: seq<string>, items: seq<Item>, off: nat): string {
    if off == 0 || items == [] || off > |ItemText(ms, items[0])| then "" else ItemText(ms, items[0])[..off]
  }

  /** Consumes `n` more characters: the items completed, the items left, and the offset in the first of these. */
  function Consume(ms: seq<string>, items: seq<Item>, off: nat, n: nat): (seq<Item>, seq<Item>, nat) {
    if items == [] then ([], [], 0)
    else
      var len := |ItemText(ms, items[0])|;
      if off + n >= len then
        var (seg, rest, off') := Consume(ms, items[1..], 0, off + n - len);
        ([items[0]] + seg, rest, off')
      else if items[0].Plain? then ([Plain(items[0].text[..n])], [Plain(items[0].text[n..])] + items[1..], 0)
      else ([], items, off + n)
  }

  lemma Cons(ms: seq<string>, it: Item, items: seq<Item>)
    ensures Text(ms, [it] + items) == ItemText(ms, it) + Text(ms, items)
    ensures Shown([it] + items) == ItemShown(it) + Shown(items)
  {
    assert ([it] + items)[1..] == items;
    ShownCons(it, items);
  }

  /** The first `x` characters of the items are those of `seg` and what is held of `rest`. */
  ghost predicate Splits(ms: seq<string>, items: seq<Item>, x: nat, seg: seq<Item>, rest: seq<Item>, off: nat) {
    && WellFormed(seg) && IsCursor(ms, rest, off) && off <= |Text(ms, rest)| && x <= |Text(ms, items)|
    && Text(ms, items)[..x] == Text(ms, seg) + Held(ms, rest, off)
    && Text(ms, items)[x..] == Text(ms, rest)[off..]
    && Shown(items) == Shown(seg) + Shown(rest)
  }

  lemma SplitsCons(ms: seq<string>, items: seq<Item>, x: nat, seg: seq<Item>, rest: seq<Item>, off: nat)
    requires items != [] && WellFormedItem(items[0]) && Splits(ms, items[1..], x, seg, rest, off)
    ensures Splits(ms, items, |ItemText(ms, items[0])| + x, [items[0]] + seg, rest, off)
  {
    ShowsCons(ms, items, seg, rest);
    WellFormedCons(items[0], seg);
    Unfolds(ms, items);
    Cons(ms, items[0], seg);
    Prepend(ItemText(ms, items[0]), Text(ms, items[1..]), x, Text(ms, seg), Held(ms, rest, off));
  }

  lemma WellFormedCons(it: Item, items: seq<Item>)
    requires WellFormedItem(it) && WellFormed(items)
    ensures WellFormed([it] + items)
  {
  }

  lemma ShowsCons(ms: seq<string>, items: seq<Item>, seg: seq<Item>, rest: seq<Item>)
    requires items != [] && Shown(items[1..]) == Shown(seg) + Shown(rest)
    ensures Shown(items) == Shown([items[0]] + seg) + Shown(rest)
  {
    Cons(ms, items[0], seg);
    Regroup(ItemShown(items[0]), Shown(seg), Shown(rest));
  }

  lemma Unfolds(ms: seq<string>, items: seq<Item>)
    requires items != []
    ensures Text(ms, items) == ItemText(ms, items[0]) + Text(ms, items[1..])
    ensures Shown(items) == ItemShown(items[0]) + Shown(items[1..])
  {
  }

  lemma Prepend(head: string, tail: string, x: nat, a: string, h: string)
    requires x <= |tail| && tail[..x] == a + h
    ensures (head + tail)[..|head| + x] == (head + a) + h && (head + tail)[|head| + x..] == tail[x..]
  {
    assert (head + tail)[..|head| + x] == head + tail[..x];
  }

  lemma CutHead(s: string, tail: string, n: nat)
    requires n <= |s|
    ensures (s + tail)[..n] == s[..n] && (s + tail)[n..] == s[n..] + tail && s == s[..n] + s[n..]
  {
  }

  /** Plain text may be cut anywhere. */
  lemma PlainCuts(ms: seq<string>, s: string, items: seq<Item>, n: nat)
    requires IsClean(s) && WellFormed(items) && n <= |s|
    ensures WellFormed([Plain(s[..n])]) && WellFormed([Plain(s[n..])] + items)
    ensures Text(ms, [Plain(s[..n])]) == s[..n] && Shown([Plain(s[..n])]) == s[..n]
    ensures Text(ms, [Plain(s[n..])] + items) == s[n..] + Text(ms, items)
    ensures Shown([Plain(s[n..])] + items) == s[n..] + Shown(items)
  {
    Cons(ms, Plain(s[n..]), items);
    Cons(ms, Plain(s[..n]), []);
    assert [Plain(s[..n])] + [] == [Plain(s[..n])];
  }

  lemma SplitsPlain(ms: seq<string>, items: seq<Item>, s: string, n: nat)
    requires WellFormed(items) && items != [] && items[0] == Plain(s) && IsClean(s) && n <= |s|
    ensures Splits(ms, items, n, [Plain(s[..n])], [Plain(s[n..])] + items[1..], 0)
  {
    Unfolds(ms, items);
    PlainCuts(ms, s, items[1..], n);
    CutHead(s, Text(ms, items[1..]), n);
    Regroup(s[..n], s[n..], Shown(items[1..]));
    NothingHeld(ms, [Plain(s[n..])] + items[1..], s[..n]);
  }

  lemma NothingHeld(ms: seq<string>, items: seq<Item>, a: string)
    ensures a + Held(ms, items, 0) == a && Text(ms, items)[0..] == Text(ms, items)
  {
  }

  lemma SplitsInside(ms: seq<string>, items: seq<Item>, x: nat)
    requires IsCursor(ms, items, x)
    ensures Splits(ms, items, x, [], items, x)
  {
    if items != [] {
      var head, tail := ItemText(ms, items[0]), Text(ms, items[1..]);
      assert Text(ms, items) == head + tail;
      assert x <= |head| ==> (head + tail)[..x] == head[..x];
    }
  }

  ghost predicate ConsumeSplits(ms: seq<string>, items: seq<Item>, off: nat, n: nat) {
    var (seg, rest, off') := Consume(ms, items, off, n); Splits(ms, items, off + n, seg, rest, off')
  }

  lemma ConsumeIs(ms: seq<string>, items: seq<Item>, off: nat, n: nat, seg: seq<Item>, rest: seq<Item>, off': nat)
    requires Consume(ms, items, off, n) == (seg, rest, off') && Splits(ms, items, off + n, seg, rest, off')
    ensures ConsumeSplits(ms, items, off, n)
  {
  }

  lemma ConsumeStep(ms: seq<string>, items: seq<Item>, off: nat, n: nat)
    requires items != [] && off + n >= |ItemText(ms, items[0])|
    ensures var (seg, rest, off') := Consume(ms, items[1..], 0, off + n - |ItemText(ms, items[0])|);
      Consume(ms, items, off, n) == ([items[0]] + seg, rest, off')
  {
  }

  lemma ConsumesHead(ms: seq<string>, items: seq<Item>, off: nat, n: nat, x: nat, seg: seq<Item>, rest: seq<Item>,
                     off': nat)
    requires items != [] && WellFormedItem(items[0]) && off + n == |ItemText(ms, items[0])| + x
    requires Consume(ms, items[1..], 0, x) == (seg, rest, off') && Splits(ms, items[1..], x, seg, rest, off')
    ensures ConsumeSplits(ms, items, off, n)
  {
    SplitsCons(ms, items, x, seg, rest, off');
    ConsumeStep(ms, items, off, n);
    ConsumeIs(ms, items, off, n, [items[0]] + seg, rest, off');
  }

  lemma ConsumesInside(ms: seq<string>, items: seq<Item>, off: nat, n: nat)
    requires IsCursor(ms, items, off) && items != [] && off + n < |ItemText(ms, items[0])|
    ensures ConsumeSplits(ms, items, off, n)
  {
    assert WellFormedItem(items[0]);
    if items[0].Plain? {
      var s := items[0].text;
      SplitsPlain(ms, items, s, n);
      ConsumeIs(ms, items, off, n, [Plain(s[..n])], [Plain(s[n..])] + items[1..], 0);
    } else {
      SplitsInside(ms, items, off + n);
      ConsumeIs(ms, items, off, n, [], items, off + n);
    }
  }

  lemma {:induction false} ConsumeText(ms: seq<string>, items: seq<Item>, off: nat, n: nat)
    requires IsCursor(ms, items, off) && off + n <= |Text(ms, items)|
    ensures ConsumeSplits(ms, items, off, n)
    decreases |items|
  {
    if items == [] {
      SplitsInside(ms, [], 0);
    } else if off + n >= |ItemText(ms, items[0])| {
      HeadAndTail(ms, items);
      var x := off + n - |ItemText(ms, items[0])|;
      ConsumeText(ms, items[1..], 0, x);
      var (seg, rest, off') := Consume(ms, items[1..], 0, x);
      ConsumesHead(ms, items, off, n, x, seg, rest, off');
    } else {
      ConsumesInside(ms, items, off, n);
    }
  }

  /** A cut between the two closing brackets of a double-bracket marker leaves its outer brackets. */
  function Settle(ms: seq<string>, items: seq<Item>, off: nat): (seq<Item>, nat) {
    if CutsClosing(ms, items, off) then ([Angle] + items[1..], 1) else (items, off)
  }

  predicate CutsClosing(ms: seq<string>, items: seq<Item>, off: nat) {
    items != [] && items[0].Mark? && items[0].kind < 2 && off + 1 == |ItemText(ms, items[0])|
  }

  lemma ResidueOfHeld(ms: seq<string>, items: seq<Item>, off: nat)
    requires Fences(ms) && IsCursor(ms, items, off)
    ensures IsPartial(ms, Held(ms, items, off))
    ensures var (items', off') := Settle(ms, items, off);
      IsCursor(ms, items', off') && Residue(ms, Held(ms, items, off)) == Held(ms, items', off')
  {
    PartialBracket(ms);
    assert Shaped(ms, 0) && Shaped(ms, 1) && Shaped(ms, 2) && Shaped(ms, 3);
    if off > 0 {
      assert WellFormedItem(items[0]);
      if items[0].Mark? {
        var k := items[0].kind;
        var t := ms[k][..off];
        assert t < ms[k];
        assert |t| > 1 ==> t[1] == ms[k][1];
        assert |t| > 2 ==> t[2] == ms[k][2];
        if CutsClosing(ms, items, off) {
          assert t == "<" + ms[k + 2];
        } else {
          assert |t| != |ms[2]| + 1;
        }
      } else {
        assert Held(ms, items, off) == "<";
      }
    }
  }

  /** Position `x` of the text falls between the two closing brackets of a double-bracket marker. */
  predicate BadAt(ms: seq<string>, items: seq<Item>, x: nat) {
    if items == [] then false
    else
      var len := |ItemText(ms, items[0])|;
      if x >= len then BadAt(ms, items[1..], x - len) else CutsClosing(ms, items, x)
  }

  /** Some delta, counted from position `x` on, ends at a bad position. */
  predicate BadCut(ms: seq<string>, items: seq<Item>, x: nat, deltas: seq<string>)
    decreases |deltas|
  {
    deltas != [] && (BadAt(ms, items, x + |deltas[0]|) || BadCut(ms, items, x + |deltas[0]|, deltas[1..]))
  }

  lemma {:induction false} BadAtAfterConsume(ms: seq<string>, items: seq<Item>, off: nat, n: nat, y: nat)
    requires IsCursor(ms, items, off)
    ensures var (_, rest, off') := Consume(ms, items, off, n);
      BadAt(ms, items, off + n + y) <==> BadAt(ms, rest, off' + y)
    decreases |items|
  {
    if items != [] {
      var len := |ItemText(ms, items[0])|;
      if off + n >= len {
        ConsumeStep(ms, items, off, n);
        BadAtAfterConsume(ms, items[1..], 0, off + n - len, y);
        assert BadAt(ms, items, off + n + y) <==> BadAt(ms, items[1..], 0 + (off + n - len) + y);
      } else if items[0].Plain? {
        BadAtPlain(ms, items, n, y);
      }
    }
  }

  lemma BadAtPlain(ms: seq<string>, items: seq<Item>, n: nat, y: nat)
    requires items != [] && items[0].Plain? && n < |items[0].text|
    ensures BadAt(ms, items, n + y) <==> BadAt(ms, [Plain(items[0].text[n..])] + items[1..], y)
  {
    assert ([Plain(items[0].text[n..])] + items[1..])[1..] == items[1..];
  }

  lemma {:induction false} BadCutAfterConsume(ms: seq<string>, items: seq<Item>, off: nat, n: nat, y: nat,
                                              deltas: seq<string>)
    requires IsCursor(ms, items, off)
    ensures var (_, rest, off') := Consume(ms, items, off, n);
      BadCut(ms, items, off + n + y, deltas) <==> BadCut(ms, rest, off' + y, deltas)
    decreases |deltas|
  {
    if deltas != [] {
      BadAtAfterConsume(ms, items, off, n, y + |deltas[0]|);
      BadCutAfterConsume(ms, items, off, n, y + |deltas[0]|, deltas[1..]);
    }
  }

  lemma {:induction false} ShownFitsText(ms: seq<string>, items: seq<Item>)
    ensures |Shown(items)| <= |Text(ms, items)|
  {
    if items != [] {
      ShownFitsText(ms, items[1..]);
    }
  }

  lemma DeltaEmits(ms: seq<string>, items: seq<Item>, off: nat, d: string, later: string)
    requires Fences(ms) && IsCursor(ms, items, off) && off <= |Text(ms, items)| && d + later == Text(ms, items)[off..]
    ensures off + |d| <= |Text(ms, items)| && later == Text(ms, items)[off + |d|..]
    ensures ConsumeSplits(ms, items, off, |d|)
    ensures var (seg, rest, o) := Consume(ms, items, off, |d|); var (items', off') := Settle(ms, rest, o);
      PushSpec(ms, Held(ms, items, off), d) == (Shown(seg), Held(ms, items', off')) && IsCursor(ms, items', off')
  {
    var (seg, rest, o) := Consume(ms, items, off, |d|);
    CursorText(ms, items, off, d, later);
    ConsumeText(ms, items, off, |d|);
    ResidueOfHeld(ms, rest, o);
    PushItems(ms, seg, Held(ms, rest, o), Held(ms, items, off), d);
  }

  /** One delta: its complete items are emitted, and the cursor moves on. */
  lemma DeltaStep(ms: seq<string>, items: seq<Item>, off: nat, d: string, later: string)
    requires Fences(ms) && IsCursor(ms, items, off) && off <= |Text(ms, items)| && d + later == Text(ms, items)[off..]
    ensures var (seg, rest, o) := Consume(ms, items, off, |d|); var (items', off') := Settle(ms, rest, o);
      && PushSpec(ms, Held(ms, items, off), d) == (Shown(seg), Held(ms, items', off'))
      && IsCursor(ms, rest, o) && IsCursor(ms, items', off') && off' <= |Text(ms, items')|
      && later == Text(ms, items')[off'..]
      && Shown(items) == Shown(seg) + Shown(rest)
      && |Shown(items')| == |Shown(rest)| + if CutsClosing(ms, rest, o) then 2 else 0
  {
    var (seg, rest, o) := Consume(ms, items, off, |d|);
    DeltaEmits(ms, items, off, d, later);
    if CutsClosing(ms, rest, o) {
      SettledText(ms, rest, o);
    }
  }

  lemma CursorText(ms: seq<string>, items: seq<Item>, off: nat, d: string, later: string)
    requires IsCursor(ms, items, off) && off <= |Text(ms, items)| && d + later == Text(ms, items)[off..]
    ensures Held(ms, items, off) + d == Text(ms, items)[..off + |d|] && later == Text(ms, items)[off + |d|..]
  {
    var s := Text(ms, items);
    assert s[off..][..|d|] == d && s[off..][|d|..] == later;
    assert Held(ms, items, off) == s[..off];
  }

  lemma SettledText(ms: seq<string>, items: seq<Item>, off: nat)
    requires Fences(ms) && IsCursor(ms, items, off) && CutsClosing(ms, items, off)
    ensures off <= |Text(ms, items)| && 1 <= |Text(ms, [Angle] + items[1..])|
    ensures Text(ms, [Angle] + items[1..])[1..] == Text(ms, items)[off..]
    ensures |Shown([Angle] + items[1..])| == |Shown(items)| + 2
  {
    DoubleMark(ms, items[0].kind);
    ClosingText(ms, items, ms[items[0].kind + 2]);
    AngleText(ms, items[1..]);
    AngleShown(items);
  }

  lemma DoubleMark(ms: seq<string>, k: nat)
    requires Fences(ms) && k < 2
    ensures ItemText(ms, Mark(k)) == "<" + ms[k + 2] + ">"
  {
    FenceShape(ms, k);
  }

  lemma ClosingText(ms: seq<string>, items: seq<Item>, single: string)
    requires items != [] && ItemText(ms, items[0]) == "<" + single + ">"
    ensures var n := |ItemText(ms, items[0])| - 1;
      0 <= n <= |Text(ms, items)| && Text(ms, items)[n..] == ">" + Text(ms, items[1..])
  {
    assert Text(ms, items) == ItemText(ms, items[0]) + Text(ms, items[1..]);
    LastBracket("<" + single, Text(ms, items[1..]));
  }

  lemma AngleText(ms: seq<string>, items: seq<Item>)
    ensures Text(ms, [Angle] + items) != "" && Text(ms, [Angle] + items)[1..] == ">" + Text(ms, items)
  {
    Cons(ms, Angle, items);
    LastBracket("<", Text(ms, items));
  }

  lemma AngleShown(items: seq<Item>)
    requires items != [] && items[0].Mark?
    ensures |Shown([Angle] + items[1..])| == |Shown(items)| + 2
  {
    ShownCons(Angle, items[1..]);
  }

  lemma LastBracket(a: string, tail: string)
    ensures (a + ">" + tail)[|a|..] == ">" + tail
  {
  }

  lemma {:induction false} RedactsFrom(ms: seq<string>, items: seq<Item>, off: nat, deltas: seq<string>)
    requires Fences(ms) && IsCursor(ms, items, off) && off <= |Text(ms, items)|
    requires Concat(deltas) == Text(ms, items)[off..]
    ensures !BadCut(ms, items, off, deltas) ==> Output(ms, Held(ms, items, off), deltas) == Shown(items)
    ensures |Output(ms, Held(ms, items, off), deltas)|
         >= |Shown(items)| + if BadCut(ms, items, off, deltas) then 1 else 0
    decreases |deltas|
  {
    if deltas == [] {
      NothingLeft(ms, items, off);
    } else {
      var d, later := deltas[0], deltas[1..];
      DeltaStep(ms, items, off, d, Concat(later));
      var (seg, rest, o) := Consume(ms, items, off, |d|);
      var (items', off') := Settle(ms, rest, o);
      RedactsFrom(ms, items', off', later);
      BadCutStep(ms, items, off, deltas);
      assert Output(ms, Held(ms, items, off), deltas) == Shown(seg) + Output(ms, Held(ms, items', off'), later);
    }
  }

  lemma {:induction false} BadCutStep(ms: seq<string>, items: seq<Item>, off: nat, deltas: seq<string>)
    requires Fences(ms) && IsCursor(ms, items, off) && deltas != []
    requires var (_, rest, o) := Consume(ms, items, off, |deltas[0]|); IsCursor(ms, rest, o)
    ensures var (_, rest, o) := Consume(ms, items, off, |deltas[0]|);
      BadCut(ms, items, off, deltas) <==> CutsClosing(ms, rest, o) || BadCut(ms, rest, o, deltas[1..])
  {
    BadCutAfterConsume(ms, items, off, |deltas[0]|, 0, deltas[1..]);
    BadCutNow(ms, items, off, |deltas[0]|);
  }

  lemma BadCutNow(ms: seq<string>, items: seq<Item>, off: nat, n: nat)
    requires Fences(ms) && IsCursor(ms, items, off)
    requires var (_, rest, o) := Consume(ms, items, off, n); IsCursor(ms, rest, o)
    ensures var (_, rest, o) := Consume(ms, items, off, n); BadAt(ms, items, off + n) <==> CutsClosing(ms, rest, o)
  {
    var (_, rest, o) := Consume(ms, items, off, n);
    BadAtAfterConsume(ms, items, off, n, 0);
    BadAtCursor(ms, rest, o);
  }

  lemma BadAtCursor(ms: seq<string>, items: seq<Item>, off: nat)
    requires Fences(ms) && IsCursor(ms, items, off)
    ensures BadAt(ms, items, off) <==> CutsClosing(ms, items, off)
  {
    if items != [] && off >= |ItemText(ms, items[0])| {
      assert WellFormedItem(items[0]);
      if items[0].Mark? {
        FenceShape(ms, items[0].kind);
      }
      SettledNowhere(ms, items[1..]);
    }
  }

  lemma {:induction false} SettledNowhere(ms: seq<string>, items: seq<Item>)
    requires Fences(ms) && WellFormed(items)
    ensures !BadAt(ms, items, 0)
  {
    if items != [] {
      assert WellFormedItem(items[0]);
      SettledNowhere(ms, items[1..]);
      if items[0].Mark? {
        FenceShape(ms, items[0].kind);
      }
    }
  }

  lemma NothingLeft(ms: seq<string>, items: seq<Item>, off: nat)
    requires Fences(ms) && IsCursor(ms, items, off) && off == |Text(ms, items)|
    ensures StripAll(Held(ms, items, off), ms) == "" == Shown(items)
  {
    ShownFitsText(ms, items);
    PartialBracket(ms);
    StripAllItems(ms, [], "");
  }

  lemma RedactsText(ms: seq<string>, items: seq<Item>, deltas: seq<string>)
    requires Fences(ms) && WellFormed(items) && Concat(deltas) == Text(ms, items)
    ensures Output(ms, "", deltas) == Shown(items) <==> !BadCut(ms, items, 0, deltas)
  {
    RedactsFrom(ms, items, 0, deltas);
  }

  /** For every text of plain pieces and complete markers and every cutting of it, the stream shows exactly the
      plain pieces if and only if no delta ends between the two closing brackets of a double-bracket marker. */
  lemma RedactsExactly(nonce: string, items: seq<Item>, deltas: seq<string>)
    requires IsClean(nonce) && WellFormed(items) && Concat(deltas) == Text(Markers(nonce), items)
    ensures Output(Markers(nonce), "", deltas) == Shown(items) <==> !BadCut(Markers(nonce), items, 0, deltas)
  {
    MarkersAreFences(nonce);
    RedactsText(Markers(nonce), items, deltas);
  }

  /** A leak: cut between its closing brackets, a marker shows as an empty pair of angle brackets. */
  lemma CutClosingLeaks(nonce: string)
    requires IsClean(nonce)
    ensures Output(Markers(nonce), "", ["<<SRC:" + nonce + ">", ">"]) != ""
  {
    var ms := Markers(nonce);
    var deltas := ["<<SRC:" + nonce + ">", ">"];
    var items := [Mark(0)];
    assert Text(ms, items) == ms[0] + Text(ms, items[1..]) == ms[0];
    assert Concat(deltas) == deltas[0] + (deltas[1] + Concat(deltas[1..][1..])) == ms[0];
    assert Shown(items) == "" + Shown(items[1..]) == "";
    assert BadAt(ms, items, |deltas[0]|);
    RedactsExactly(nonce, items, deltas);
  }
}
