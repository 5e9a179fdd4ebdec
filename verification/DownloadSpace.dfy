/** The free-space guards of a download: the pre-flight check and the periodic check while the body streams. */
module DownloadSpace {
  import opened Wrappers
  import opened Numbers

  const U64_MAX: nat := 0xFFFF_FFFF_FFFF_FFFF

  /** Thresholds in bytes; the defaults are 256 MiB, 64 MiB and their sum. */
  datatype Policy = Policy(headroom: nat, checkInterval: nat, floor: nat)

  const DEFAULT_POLICY := Policy(0x1000_0000, 0x400_0000, 0x1400_0000)

  function SatAdd(a: nat, b: nat): nat {
    if a + b < U64_MAX then a + b else U64_MAX
  }

  /** `preflight_space`: passes when the length or the free space is unknown. */
  predicate PreflightPasses(policy: Policy, expected: Option<nat>, partLen: nat, available: Option<nat>) {
    expected.Some? && available.Some? ==> available.value >= SatAdd(SatSub(expected.value, partLen), policy.headroom)
  }

  /** `mid_stream_space_error`: what remains must fit; without a remainder the floor must. */
  predicate MidStreamFires(policy: Policy, total: Option<nat>, received: nat, available: Option<nat>) {
    available.Some? &&
    available.value < if total.Some? && received <= total.value then total.value - received else policy.floor
  }

  /** Free space after this download truncated `cut` bytes and wrote `wrote`, nothing else touching the disk. */
  function FreeAfter(free: nat, cut: nat, wrote: nat): nat {
    SatSub(free + cut, wrote)
  }

  /** At any check point after a passed pre-flight, whether the body resumed the partial file or restarted over it, the
      check fires exactly when the body has outrun the probed length and less than the floor is left. */
  lemma CheckFiresExactly(policy: Policy, expected: nat, partLen: nat, free: nat, restarted: bool, wrote: nat)
    requires partLen <= expected <= U64_MAX
    requires PreflightPasses(policy, Some(expected), partLen, Some(free))
    ensures var received := (if restarted then 0 else partLen) + wrote;
      var left := FreeAfter(free, if restarted then partLen else 0, wrote);
      MidStreamFires(policy, Some(expected), received, Some(left)) <==> received > expected && left < policy.floor
  {
  }

  /** A length or free space that is not known passes the pre-flight; while the length is not known, the floor is what
      must be left. */
  lemma UnknownLength(policy: Policy, partLen: nat, received: nat, expected: Option<nat>, free: Option<nat>)
    ensures expected.None? || free.None? ==> PreflightPasses(policy, expected, partLen, free)
    ensures MidStreamFires(policy, None, received, free) <==> free.Some? && free.value < policy.floor
    ensures !MidStreamFires(policy, expected, received, None)
  {
  }

  /** The streaming loop: takes the first `at` chunks, writing each, and checks the space whenever the interval
      has passed. */
  method StreamBody(policy: Policy, total: Option<nat>, start: nat, chunks: seq<nat>, freeAtStart: nat)
    returns (received: nat, fired: bool, at: nat)
    ensures at <= |chunks| && received == start + Sum(chunks[..at]) && (!fired ==> at == |chunks|)
    ensures fired ==> FiresAfter(policy, total, start, chunks, freeAtStart, at)
    ensures forall k: nat :: (if fired then k < at else k <= at) ==>
      !FiresAfter(policy, total, start, chunks, freeAtStart, k)
  {
    received, fired, at := start, false, 0;
    var free := freeAtStart;
    var sinceCheck := 0;
    for i := 0 to |chunks|
      invariant at == i && received == start + Sum(chunks[..i]) && free == SatSub(freeAtStart, Sum(chunks[..i]))
      invariant sinceCheck == Since(policy, chunks, i)
      invariant forall k: nat :: k <= i ==> !FiresAfter(policy, total, start, chunks, freeAtStart, k)
    {
      assert chunks[..i + 1][..i] == chunks[..i];
      free := SatSub(free, chunks[i]);
      received := received + chunks[i];
      sinceCheck := sinceCheck + chunks[i];
      at := i + 1;
      if sinceCheck >= policy.checkInterval {
        sinceCheck := 0;
        if MidStreamFires(policy, total, received, Some(free)) {
          fired := true;
          return;
        }
      }
    }
  }

  /** Bytes written since the last check, after `i` chunks. */
  function Since(policy: Policy, chunks: seq<nat>, i: nat): nat
    requires i <= |chunks|
  {
    if i == 0 then 0
    else
      var n := Since(policy, chunks, i - 1) + chunks[i - 1];
      if n >= policy.checkInterval then 0 else n
  }

  /** The space is checked after chunk `k`. */
  predicate ReachesInterval(policy: Policy, chunks: seq<nat>, k: nat) {
    0 < k <= |chunks| && Since(policy, chunks, k - 1) + chunks[k - 1] >= policy.checkInterval
  }

  /** The space is not checked after any of the chunks from `j` to `i`. */
  ghost predicate Unchecked(policy: Policy, chunks: seq<nat>, j: nat, i: nat) {
    forall k: nat :: j < k <= i ==> !ReachesInterval(policy, chunks, k)
  }

  lemma {:induction false} SinceIs(policy: Policy, chunks: seq<nat>, j: nat, i: nat)
    requires j <= i <= |chunks| && Unchecked(policy, chunks, j, i)
    ensures Since(policy, chunks, i) == Since(policy, chunks, j) + Sum(chunks[j..i])
    decreases i
  {
    if j < i {
      SinceIs(policy, chunks, j, i - 1);
      assert chunks[j..i][..i - 1 - j] == chunks[j..i - 1];
      assert !ReachesInterval(policy, chunks, i);
    }
  }

  lemma SinceBelow(policy: Policy, chunks: seq<nat>, i: nat)
    requires i <= |chunks| && policy.checkInterval > 0
    ensures Since(policy, chunks, i) < policy.checkInterval
  {
  }

  /** However a body is cut, less than an interval of bytes passes unchecked between two chunks. */
  lemma UncheckedIsShort(policy: Policy, chunks: seq<nat>, j: nat, i: nat)
    requires j <= i <= |chunks| && policy.checkInterval > 0 && Unchecked(policy, chunks, j, i)
    ensures Sum(chunks[j..i]) < policy.checkInterval
  {
    SinceIs(policy, chunks, j, i);
    SinceBelow(policy, chunks, i);
  }

  /** And the space is checked only once an interval of bytes has passed since the last check, or since the start. */
  lemma CheckedWhenDue(policy: Policy, chunks: seq<nat>, j: nat, i: nat)
    requires j < i <= |chunks| && (j == 0 || ReachesInterval(policy, chunks, j))
    requires Unchecked(policy, chunks, j, i - 1)
    ensures ReachesInterval(policy, chunks, i) <==> Sum(chunks[j..i]) >= policy.checkInterval
  {
    SinceIs(policy, chunks, j, i - 1);
    assert chunks[j..i][..i - 1 - j] == chunks[j..i - 1];
  }

  ghost predicate FiresAfter(policy: Policy, total: Option<nat>, start: nat, chunks: seq<nat>, free: nat, k: nat) {
    && ReachesInterval(policy, chunks, k)
    && MidStreamFires(policy, total, start + Sum(chunks[..k]), Some(SatSub(free, Sum(chunks[..k]))))
  }

  /** A download whose pre-flight passed, whose total is the probed length and whose body does not outrun it is never
      stopped by its own writes, however the body is cut and whether it resumed or restarted. */
  method OwnWritesNeverFire(policy: Policy, expected: nat, partLen: nat, free: nat, restarted: bool, chunks: seq<nat>)
    returns (received: nat, fired: bool)
    requires partLen <= expected <= U64_MAX
    requires PreflightPasses(policy, Some(expected), partLen, Some(free))
    requires (if restarted then 0 else partLen) + Sum(chunks) <= expected
    ensures !fired && received == (if restarted then 0 else partLen) + Sum(chunks)
  {
    var start := if restarted then 0 else partLen;
    var freeAtStart := if restarted then free + partLen else free;
    var at;
    received, fired, at := StreamBody(policy, Some(expected), start, chunks, freeAtStart);
    assert chunks[..|chunks|] == chunks;
    if fired {
      SumPrefix(chunks, at);
      CheckFiresExactly(policy, expected, partLen, free, restarted, Sum(chunks[..at]));
    }
  }

  /** A body one byte longer than the probed length does trip the guard, on the default thresholds and with the
      pre-flight passed: the floor exceeds the headroom. */
  lemma OverlongBodyFires()
    ensures PreflightPasses(DEFAULT_POLICY, Some(0x400_0000), 0, Some(0x400_0000 + 0x1000_0000))
    ensures FiresAfter(DEFAULT_POLICY, Some(0x400_0000), 0, [0x400_0001], 0x400_0000 + 0x1000_0000, 1)
  {
    var chunks: seq<nat> := [0x400_0001];
    assert chunks[..1] == chunks && chunks[..0] == [];
    assert Sum(chunks) == 0x400_0001;
    assert ReachesInterval(DEFAULT_POLICY, chunks, 1);
  }
}
