/** Byte-level UTF-8 (RFC 3629): character boundaries as `str::is_char_boundary` sees them,
    well-formedness, and the White_Space characters `char::is_whitespace` accepts. */
module Utf8 {

  type Byte = b: int | 0 <= b < 256
  type Bytes = seq<Byte>

  predicate IsContinuation(b: Byte) {
    0x80 <= b < 0xC0
  }

  predicate IsBoundary(s: Bytes, i: int) {
    0 <= i <= |s| && (i == 0 || i == |s| || !IsContinuation(s[i]))
  }

  /** The first boundary after `i`: where the character starting at `i` ends. */
  function NextBoundary(s: Bytes, i: nat): (n: nat)
    requires i < |s|
    ensures i < n <= |s| && IsBoundary(s, n)
    ensures forall k :: i < k < n ==> !IsBoundary(s, k)
    decreases |s| - i
  {
    if IsBoundary(s, i + 1) then i + 1 else NextBoundary(s, i + 1)
  }

  predicate ThreeByteLead(a: Byte, b: Byte) {
    || (a == 0xE0 && 0xA0 <= b < 0xC0)
    || (0xE1 <= a <= 0xEC && IsContinuation(b))
    || (a == 0xED && 0x80 <= b < 0xA0)
    || (0xEE <= a <= 0xEF && IsContinuation(b))
  }

  predicate FourByteLead(a: Byte, b: Byte) {
    || (a == 0xF0 && 0x90 <= b < 0xC0)
    || (0xF1 <= a <= 0xF3 && IsContinuation(b))
    || (a == 0xF4 && 0x80 <= b < 0x90)
  }

  /** Length of the well-formed character at the front of `s` (section 4 of RFC 3629), 0 if there is none. */
  function CharLen(s: Bytes): (n: nat)
    ensures n <= 4 && n <= |s|
    ensures n > 0 ==> !IsContinuation(s[0]) && forall k :: 1 <= k < n ==> IsContinuation(s[k])
  {
    if |s| == 0 then 0
    else if s[0] < 0x80 then 1
    else if |s| >= 2 && 0xC2 <= s[0] <= 0xDF && IsContinuation(s[1]) then 2
    else if |s| >= 3 && ThreeByteLead(s[0], s[1]) && IsContinuation(s[2]) then 3
    else if |s| >= 4 && FourByteLead(s[0], s[1]) && IsContinuation(s[2]) && IsContinuation(s[3]) then 4
    else 0
  }

  predicate Valid(s: Bytes)
    decreases |s|
  {
    s == [] || (CharLen(s) > 0 && Valid(s[CharLen(s)..]))
  }

  lemma {:induction false} ValidConcat(a: Bytes, b: Bytes)
    requires Valid(a) && Valid(b)
    ensures Valid(a + b)
    decreases |a|
  {
    if a == [] {
      assert a + b == b;
    } else {
      var n := CharLen(a);
      ValidConcat(a[n..], b);
      CharLenPrefix(a, b);
      DropOfConcat(a, b, n);
      ValidCons(a + b, n);
    }
  }

  lemma DropOfConcat(a: Bytes, b: Bytes, n: nat)
    requires n <= |a|
    ensures (a + b)[n..] == a[n..] + b
  {
  }

  lemma ValidCons(s: Bytes, n: nat)
    requires 0 < n == CharLen(s) && Valid(s[n..])
    ensures Valid(s)
  {
  }

  lemma CharLenPrefix(a: Bytes, b: Bytes)
    requires CharLen(a) > 0
    ensures CharLen(a + b) == CharLen(a)
  {
    assert forall k :: 0 <= k < |a| ==> (a + b)[k] == a[k];
  }

  /** In well-formed text every boundary starts a well-formed suffix, so the character at a boundary
      has a length the lead byte fixes and ends at the next boundary. */
  lemma SuffixValid(s: Bytes, i: nat)
    requires Valid(s) && IsBoundary(s, i)
    ensures Valid(s[i..])
    ensures i < |s| ==> NextBoundary(s, i) == i + CharLen(s[i..])
  {
    SuffixIsValid(s, i);
    if i < |s| {
      assert s[i..|s|] == s[i..];
      SliceNextBoundary(s, i, |s|);
      BoundaryAfterChar(s[i..]);
    }
  }

  lemma SliceHead(s: Bytes, start: nat, end: nat, e: nat)
    requires start <= e <= end <= |s|
    ensures s[start..end][..e - start] == s[start..e]
  {
  }

  lemma DropAll(s: Bytes, n: nat)
    requires n <= |s|
    ensures s[n..|s|] == s[n..]
  {
  }

  lemma DropTwice(s: Bytes, n: nat, i: nat)
    requires n <= i <= |s|
    ensures s[n..][i - n..] == s[i..]
  {
  }

  lemma {:induction false} SuffixIsValid(s: Bytes, i: nat)
    requires Valid(s) && IsBoundary(s, i)
    ensures Valid(s[i..])
    decreases |s|
  {
    if i == 0 {
      assert s[0..] == s;
    } else {
      var n := CharLen(s);
      BoundaryAfterChar(s);
      assert n <= i;
      SliceBoundary(s, n, |s|, i - n);
      DropAll(s, n);
      SuffixIsValid(s[n..], i - n);
      DropTwice(s, n, i);
    }
  }

  lemma NextIs(s: Bytes, i: nat, e: nat)
    requires i < e <= |s| && IsBoundary(s, e)
    requires forall k :: i < k < e ==> !IsBoundary(s, k)
    ensures NextBoundary(s, i) == e
  {
    var n := NextBoundary(s, i);
  }

  lemma BoundaryAfterChar(s: Bytes)
    requires Valid(s) && s != []
    ensures NextBoundary(s, 0) == CharLen(s)
  {
    var n := CharLen(s);
    assert IsBoundary(s, n) by {
      if n < |s| {
        assert CharLen(s[n..]) > 0;
        assert s[n..][0] == s[n];
      }
    }
    NextIs(s, 0, n);
  }

  /** No run of continuation bytes is longer than three. */
  lemma {:induction false} BoundaryNear(s: Bytes, i: nat) returns (lo: nat, hi: nat)
    requires Valid(s) && i <= |s|
    ensures IsBoundary(s, lo) && lo <= i <= lo + 3
    ensures IsBoundary(s, hi) && i <= hi <= i + 3
    decreases |s|
  {
    if IsBoundary(s, i) {
      return i, i;
    }
    var n := CharLen(s);
    BoundaryAfterChar(s);
    if i < n {
      return 0, n;
    }
    var l, h := BoundaryNear(s[n..], i - n);
    lo, hi := l + n, h + n;
    assert lo < |s| ==> lo == n || s[n..][l] == s[lo];
    assert hi < |s| ==> hi == n || s[n..][h] == s[hi];
  }

  /** Boundaries of a slice cut at boundaries are the boundaries of the whole. */
  lemma SliceBoundary(s: Bytes, a: nat, b: nat, i: nat)
    requires a <= b <= |s| && i <= b - a
    requires IsBoundary(s, a) && IsBoundary(s, b)
    ensures IsBoundary(s[a..b], i) <==> IsBoundary(s, a + i)
  {
  }

  lemma SliceNextBoundary(s: Bytes, a: nat, b: nat)
    requires a < b <= |s| && IsBoundary(s, a) && IsBoundary(s, b)
    ensures NextBoundary(s[a..b], 0) == NextBoundary(s, a) - a
  {
    var n := NextBoundary(s, a);
    assert n <= b;
    var t := s[a..b];
    assert IsBoundary(t, n - a) by {
      SliceBoundary(s, a, b, n - a);
    }
    var m := NextBoundary(t, 0);
    SliceBoundary(s, a, b, m);
  }

  /** Every character of `s` is one byte long. */
  ghost predicate OneByteChars(s: Bytes) {
    forall i :: 0 <= i < |s| ==> !IsContinuation(s[i])
  }

  /** The character starting at byte `i` has the Unicode White_Space property. */
  predicate IsWhitespaceAt(s: Bytes, i: nat)
    requires i < |s|
  {
    || 0x09 <= s[i] <= 0x0D
    || s[i] == 0x20
    || (i + 1 < |s| && s[i] == 0xC2 && (s[i + 1] == 0x85 || s[i + 1] == 0xA0))
    || (i + 2 < |s| && (
          || (s[i] == 0xE1 && s[i + 1] == 0x9A && s[i + 2] == 0x80)
          || (s[i] == 0xE2 && s[i + 1] == 0x80 &&
              (0x80 <= s[i + 2] <= 0x8A || s[i + 2] == 0xA8 || s[i + 2] == 0xA9 || s[i + 2] == 0xAF))
          || (s[i] == 0xE2 && s[i + 1] == 0x81 && s[i + 2] == 0x9F)
          || (s[i] == 0xE3 && s[i + 1] == 0x80 && s[i + 2] == 0x80)))
  }

  /** `s.trim().is_empty()`: every character is whitespace. */
  predicate IsBlank(s: Bytes) {
    forall i :: 0 <= i < |s| && IsBoundary(s, i) ==> IsWhitespaceAt(s, i)
  }
}
