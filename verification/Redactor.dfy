/** The streaming fence redactor (`FenceRedactor`): deletes leaked `<<SRC:nonce>>` / `<<END:nonce>>` markers and
    their single-bracket variants from a stream cut into arbitrary deltas. */
module Redactor {
  import opened Wrappers

  // ----- substring search and removal -----

  predicate OccursAt(s: string, m: string, i: int) {
    0 <= i <= |s| - |m| && forall k :: 0 <= k < |m| ==> s[i + k] == m[k]
  }

  /** First occurrence of `m` at or after `i` (`str::find`). */
  function FindFrom(s: string, m: string, i: nat): (r: Option<nat>)
    requires i <= |s|
    ensures r.Some? ==> i <= r.value && OccursAt(s, m, r.value)
    decreases |s| - i
  {
    if OccursAt(s, m, i) then Some(i)
    else if i == |s| then None
    else FindFrom(s, m, i + 1)
  }

  /** There is no occurrence before the one found, and none at all when none is found. */
  lemma {:induction false} FindNone(s: string, m: string, i: nat, k: nat)
    requires i <= |s| && i <= k && var r := FindFrom(s, m, i); r.Some? ==> k < r.value
    ensures !OccursAt(s, m, k)
    decreases |s| - i
  {
    if i < k && i < |s| {
      FindNone(s, m, i + 1, k);
    }
  }

  /** Removes first occurrences until none is left; an empty pattern removes nothing. */
  function Strip(s: string, m: string): string
    decreases |s|
  {
    if m == "" then s
    else
      match FindFrom(s, m, 0)
      case None => s
      case Some(i) => Strip(Without(s, i, |m|), m)
  }

  function Without(s: string, i: nat, n: nat): (r: string)
    requires i + n <= |s|
    ensures |r| == |s| - n
  {
    s[..i] + s[i + n..]
  }

  function StripAll(s: string, markers: seq<string>): string
    decreases |markers|
  {
    if markers == [] then s else StripAll(Strip(s, markers[0]), markers[1..])
  }

  function Markers(nonce: string): seq<string> {
    ["<<SRC:" + nonce + ">>", "<<END:" + nonce + ">>", "<SRC:" + nonce + ">", "<END:" + nonce + ">"]
  }

  function MaxLen(markers: seq<string>): (n: nat)
    ensures forall k :: 0 <= k < |markers| ==> |markers[k]| <= n
    ensures n > 0 ==> exists k :: 0 <= k < |markers| && |markers[k]| == n
  {
    if markers == [] then 0
    else
      var rest := MaxLen(markers[1..]);
      if rest <= |markers[0]| then |markers[0]| else assert rest > 0; rest
  }

  predicate IsMarkerPrefix(markers: seq<string>, t: string) {
    exists k :: 0 <= k < |markers| && t <= markers[k]
  }

  /** Where to cut `s` so that its longest tail, of at most `k` characters, that begins a marker is held back. */
  function SplitPoint(markers: seq<string>, s: string, k: nat): (n: nat)
    requires k <= |s|
    ensures |s| - k <= n <= |s|
    ensures n < |s| ==> IsMarkerPrefix(markers, s[n..])
    ensures forall i :: |s| - k <= i < n ==> !IsMarkerPrefix(markers, s[i..])
  {
    if k == 0 then |s|
    else if IsMarkerPrefix(markers, s[|s| - k..]) then |s| - k
    else SplitPoint(markers, s, k - 1)
  }

  function MaxTail(markers: seq<string>, s: string): (k: nat)
    ensures k <= |s|
  {
    if MaxLen(markers) == 0 then 0 else if MaxLen(markers) - 1 < |s| then MaxLen(markers) - 1 else |s|
  }

  function SafeSplit(markers: seq<string>, s: string): (n: nat)
    ensures n <= |s|
  {
    SplitPoint(markers, s, MaxTail(markers, s))
  }

  /** What one push emits, and what it holds back. */
  function PushSpec(markers: seq<string>, buf: string, delta: string): (string, string) {
    var s := StripAll(buf + delta, markers);
    var n := SafeSplit(markers, s);
    (s[..n], s[n..])
  }

  /** Everything emitted from state `buf` on, the final flush included. */
  function Output(markers: seq<string>, buf: string, deltas: seq<string>): string
    decreases |deltas|
  {
    if deltas == [] then StripAll(buf, markers)
    else var (emit, held) := PushSpec(markers, buf, deltas[0]); emit + Output(markers, held, deltas[1..])
  }

  /** What has been emitted and what is held back after the given deltas, before any flush. */
  function After(markers: seq<string>, deltas: seq<string>): (string, string) {
    if deltas == [] then ("", "")
    else
      var (emitted, held) := After(markers, deltas[..|deltas| - 1]);
      var (emit, tail) := PushSpec(markers, held, deltas[|deltas| - 1]);
      (emitted + emit, tail)
  }

  /** The output of a stream is what its first deltas emit, then the output of the rest from what they hold back. */
  lemma {:induction false} OutputAfter(markers: seq<string>, a: seq<string>, b: seq<string>)
    ensures Output(markers, "", a + b) == After(markers, a).0 + Output(markers, After(markers, a).1, b)
    decreases |a|
  {
    if a == [] {
      assert a + b == b;
      assert "" + Output(markers, "", b) == Output(markers, "", b);
    } else {
      var n := |a| - 1;
      assert a + b == a[..n] + ([a[n]] + b);
      assert ([a[n]] + b)[1..] == b;
      OutputAfter(markers, a[..n], [a[n]] + b);
    }
  }

  method RemoveEach(s: string, m: string) returns (r: string)
    requires m != ""
    ensures r == Strip(s, m)
  {
    r := s;
    var at := FindFrom(r, m, 0);
    while at.Some?
      invariant at == FindFrom(r, m, 0)
      invariant Strip(r, m) == Strip(s, m)
      decreases |r|
    {
      r := Without(r, at.value, |m|);
      at := FindFrom(r, m, 0);
    }
  }

  /** The redactor object: the markers of one nonce and the held-back tail. */
  class FenceRedactor {
    const markers: seq<string>
    var buf: string

    constructor (nonce: string)
      ensures markers == Markers(nonce) && buf == ""
    {
      markers := Markers(nonce);
      buf := "";
    }

    method StripComplete()
      requires "" !in markers
      modifies this
      ensures buf == StripAll(old(buf), markers)
    {
      var s := buf;
      for k := 0 to |markers|
        invariant StripAll(s, markers[k..]) == StripAll(old(buf), markers)
      {
        assert markers[k..][0] == markers[k] && markers[k..][1..] == markers[k + 1..];
        s := RemoveEach(s, markers[k]);
      }
      buf := s;
    }

    method Push(delta: string) returns (emit: string)
      requires "" !in markers
      modifies this
      ensures (emit, buf) == PushSpec(markers, old(buf), delta)
    {
      buf := buf + delta;
      StripComplete();
      var k := MaxTail(markers, buf);
      while k > 0 && !IsMarkerPrefix(markers, buf[|buf| - k..])
        invariant 0 <= k <= |buf|
        invariant SplitPoint(markers, buf, k) == SafeSplit(markers, buf)
      {
        k := k - 1;
      }
      var split := |buf| - k;
      emit := buf[..split];
      buf := buf[split..];
    }

    method Flush() returns (tail: string)
      requires "" !in markers
      modifies this
      ensures tail == StripAll(old(buf), markers) && buf == ""
    {
      StripComplete();
      tail := buf;
      buf := "";
    }
  }

  // ----- what is held back, and marker-free text -----

  /** After every push the held tail begins a marker and is shorter than the longest one. */
  lemma HeldTailIsBounded(nonce: string, buf: string, delta: string)
    ensures var held := PushSpec(Markers(nonce), buf, delta).1;
      IsMarkerPrefix(Markers(nonce), held) && |held| < MaxLen(Markers(nonce))
  {
    var ms := Markers(nonce);
    var held := PushSpec(ms, buf, delta).1;
    assert |ms[0]| <= MaxLen(ms);
    if held == "" {
      assert held <= ms[0];
    }
  }

  function Concat(parts: seq<string>): string {
    if parts == [] then "" else parts[0] + Concat(parts[1..])
  }

  ghost predicate MarkerFree(markers: seq<string>, s: string) {
    forall k, i :: 0 <= k < |markers| ==> !OccursAt(s, markers[k], i)
  }

  lemma {:induction false} StripAllNothing(markers: seq<string>, s: string)
    requires MarkerFree(markers, s)
    ensures StripAll(s, markers) == s
    decreases |markers|
  {
    if markers != [] {
      assert Strip(s, markers[0]) == s;
      StripAllNothing(markers[1..], s);
    }
  }

  lemma InfixMarkerFree(markers: seq<string>, a: string, s: string, b: string)
    requires MarkerFree(markers, a + s + b)
    ensures MarkerFree(markers, s)
  {
    forall k, i | 0 <= k < |markers|
      ensures !OccursAt(s, markers[k], i)
    {
      if OccursAt(s, markers[k], i) {
        OccursWider(a, s, b, markers[k], i);
      }
    }
  }

  lemma OccursWider(a: string, s: string, b: string, m: string, i: int)
    requires OccursAt(s, m, i)
    ensures OccursAt(a + s + b, m, |a| + i)
  {
    forall k | 0 <= k < |m|
      ensures (a + s + b)[|a| + i + k] == m[k]
    {
      assert s[i + k] == m[k];
    }
  }

  lemma PushMarkerFree(markers: seq<string>, buf: string, delta: string, rest: string)
    requires MarkerFree(markers, buf + (delta + rest))
    ensures var (emit, held) := PushSpec(markers, buf, delta);
      emit + (held + rest) == buf + (delta + rest) && MarkerFree(markers, held + rest)
  {
    var s := buf + delta;
    var all := buf + (delta + rest);
    assert all == "" + s + rest;
    InfixMarkerFree(markers, "", s, rest);
    StripAllNothing(markers, s);
    var n := SafeSplit(markers, s);
    assert all == s[..n] + (s[n..] + rest) + "";
    InfixMarkerFree(markers, s[..n], s[n..] + rest, "");
  }

  /** Marker-free text passes through unchanged, however it is cut. */
  lemma {:induction false} MarkerFreeUnchanged(markers: seq<string>, buf: string, deltas: seq<string>)
    requires MarkerFree(markers, buf + Concat(deltas))
    ensures Output(markers, buf, deltas) == buf + Concat(deltas)
    decreases |deltas|
  {
    if deltas == [] {
      assert buf + Concat(deltas) == buf;
      StripAllNothing(markers, buf);
    } else {
      PushMarkerFree(markers, buf, deltas[0], Concat(deltas[1..]));
      MarkerFreeUnchanged(markers, PushSpec(markers, buf, deltas[0]).1, deltas[1..]);
    }
  }
}
