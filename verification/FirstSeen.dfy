/** First-seen order: the distinct elements of a sequence in order of first appearance. */
module FirstSeen {

  function Distinct<T(==,!new)>(xs: seq<T>): (ys: seq<T>)
    ensures forall y :: y in ys <==> y in xs
    ensures forall i, j :: 0 <= i < j < |ys| ==> ys[i] != ys[j]
  {
    if xs == [] then []
    else
      var last := xs[|xs| - 1];
      var ys := Distinct(xs[..|xs| - 1]);
      assert xs == xs[..|xs| - 1] + [last];
      if last in ys then ys else ys + [last]
  }

  lemma DistinctSnoc<T(!new)>(xs: seq<T>, x: T)
    ensures Distinct(xs + [x]) == if x in xs then Distinct(xs) else Distinct(xs) + [x]
  {
    assert (xs + [x])[..|xs|] == xs;
  }

  /** Elements keep the order of their first appearance: what a prefix has seen comes first, in its own order. */
  lemma {:induction false} DistinctPrefix<T(!new)>(xs: seq<T>, k: nat)
    requires k <= |xs|
    ensures Distinct(xs[..k]) <= Distinct(xs)
    decreases |xs|
  {
    if k == |xs| {
      assert xs[..k] == xs;
    } else {
      var n := |xs| - 1;
      assert xs[..n][..k] == xs[..k];
      DistinctPrefix(xs[..n], k);
      assert Distinct(xs[..n]) <= Distinct(xs);
    }
  }

  /** Where `x` first appears, or the length. */
  function IndexOf<T(==)>(xs: seq<T>, x: T): (i: nat)
    ensures i <= |xs| && (i < |xs| <==> x in xs) && x !in xs[..i] && (i < |xs| ==> xs[i] == x)
  {
    if xs == [] then 0 else if xs[0] == x then 0 else IndexOf(xs[1..], x) + 1
  }

  /** The distinct elements come in the order of their first appearance. */
  lemma FirstSeenOrder<T(!new)>(xs: seq<T>, j: nat, k: nat)
    requires j < k < |Distinct(xs)|
    ensures IndexOf(xs, Distinct(xs)[j]) < IndexOf(xs, Distinct(xs)[k])
  {
    var ys := Distinct(xs);
    var q := IndexOf(xs, ys[k]);
    assert ys[k] in ys && xs[..q + 1] == xs[..q] + [ys[k]];
    DistinctPrefix(xs, q + 1);
    DistinctSnoc(xs[..q], ys[k]);
    SnocPrefix(Distinct(xs[..q]), ys, j, k);
    FirstBefore(xs, ys[j], q);
  }

  /** What stands before the last element of a prefix, in a sequence without repetition, is in the rest of
      the prefix. */
  lemma SnocPrefix<T>(seen: seq<T>, ys: seq<T>, j: nat, k: nat)
    requires j < k < |ys| && (forall i, m :: 0 <= i < m < |ys| ==> ys[i] != ys[m])
    requires seen + [ys[k]] <= ys
    ensures ys[j] in seen
  {
    assert ys[|seen|] == (seen + [ys[k]])[|seen|];
    assert |seen| == k && ys[j] == (seen + [ys[k]])[j] == seen[j];
  }

  lemma {:induction false} FirstBefore<T(!new)>(xs: seq<T>, x: T, q: nat)
    requires q <= |xs| && x in xs[..q]
    ensures IndexOf(xs, x) < q
  {
    if xs[0] != x {
      assert xs[..q] == [xs[0]] + xs[1..][..q - 1];
      FirstBefore(xs[1..], x, q - 1);
    }
  }
}
