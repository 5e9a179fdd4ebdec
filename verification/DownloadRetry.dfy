/** One call of the downloader, from its probe to its return: broken attempts are retried from the partial file while
    the budget lasts. */
module DownloadRetry {
  import opened Wrappers
  import opened Numbers
  import opened Download
  import opened DownloadResume

  type Steps = seq<(nat, Action)>

  // ----- a single caller -----

  function Solo(part: File, dest: File, c: Caller): State {
    State(part, dest, if Holds(c.pc) then Some(0) else None, [c])
  }

  /** The call stands alone at `c`, with these files. */
  predicate Stands(s: State, part: File, dest: File, c: Caller) {
    s == Solo(part, dest, c)
  }

  /** The steps lead a call, nothing published yet, from one partial file and state to the others. */
  ghost predicate Leads(cfg: Config, part: File, c: Caller, steps: Steps, part': File, c': Caller) {
    forall s :: Stands(s, part, Absent, c) ==> Stands(Run(cfg, s, steps), part', Absent, c')
  }

  lemma {:induction false} RunConcat(cfg: Config, s: State, a: Steps, b: Steps)
    ensures Run(cfg, s, a + b) == Run(cfg, Run(cfg, s, a), b)
    decreases |a|
  {
    if a == [] {
      assert a + b == b;
    } else {
      assert (a + b)[1..] == a[1..] + b;
      RunConcat(cfg, Step(cfg, s, a[0].0, a[0].1), a[1..], b);
    }
  }

  lemma Then(cfg: Config, part: File, c: Caller, a: Steps, part1: File, c1: Caller, b: Steps, part2: File, c2: Caller)
    requires Leads(cfg, part, c, a, part1, c1) && Leads(cfg, part1, c1, b, part2, c2)
    ensures Leads(cfg, part, c, a + b, part2, c2)
  {
    var s := Solo(part, Absent, c);
    RunConcat(cfg, s, a, b);
    assert Stands(s, part, Absent, c) && Stands(Run(cfg, s, a), part1, Absent, c1);
  }

  lemma OneStep(cfg: Config, part: File, dest: File, c: Caller, a: Action)
    requires !(a.Acquire? && Holds(c.pc))
    ensures var e := Act(cfg, part, dest, c, a);
      Run(cfg, Solo(part, dest, c), [(0, a)]) == Solo(e.part, e.dest, e.caller)
  {
    var e := Act(cfg, part, dest, c, a);
    assert [(0, a)][1..] == [];
    assert [c][0 := e.caller] == [e.caller];
    assert Step(cfg, Solo(part, dest, c), 0, a) == Solo(e.part, e.dest, e.caller);
    assert Run(cfg, Step(cfg, Solo(part, dest, c), 0, a), []) == Step(cfg, Solo(part, dest, c), 0, a);
  }

  lemma Takes(cfg: Config, part: File, c: Caller, a: Action, part': File, c': Caller)
    requires !(a.Acquire? && Holds(c.pc)) && Act(cfg, part, Absent, c, a) == Effect(part', Absent, c')
    ensures Leads(cfg, part, c, [(0, a)], part', c')
  {
    OneStep(cfg, part, Absent, c, a);
  }

  lemma Stays(cfg: Config, part: File, c: Caller)
    ensures Leads(cfg, part, c, [], part, c)
  {
  }

  lemma TakesTwo(cfg: Config, part: File, c: Caller, a: Action, part1: File, c1: Caller, b: Action, part': File,
                 c': Caller)
    requires !a.Acquire? && !b.Acquire?
    requires Act(cfg, part, Absent, c, a) == Effect(part1, Absent, c1)
    requires Act(cfg, part1, Absent, c1, b) == Effect(part', Absent, c')
    ensures Leads(cfg, part, c, [(0, a), (0, b)], part', c')
  {
    Takes(cfg, part, c, a, part1, c1);
    Takes(cfg, part1, c1, b, part', c');
    Then(cfg, part, c, [(0, a)], part1, c1, [(0, b)], part', c');
    assert [(0, a)] + [(0, b)] == [(0, a), (0, b)];
  }

  /** The partial file holds the first `n` bytes. */
  predicate HoldsFirst(artifact: Data, part: File, n: nat) {
    n <= |artifact| && Length(part) == n && (part.Present? ==> part.bytes == artifact[..n])
  }

  function First(artifact: Data, n: nat): File
    requires n <= |artifact|
  {
    Present(artifact[..n])
  }

  /** The same call of an artifact of known length, further on. */
  predicate SameCall(artifact: Data, c: Caller, c': Caller) {
    c.expected == c'.expected == Some(|artifact|) && c.attempt == c'.attempt
  }

  // ----- the steps of an attempt -----

  /** A request at offset `n`: a 206 there answers a ranged one, a 200 an unranged one. */
  function Opened(artifact: Data, n: nat): Action {
    Respond(if n == 0 then Success(Some(|artifact|)) else Partial(Some(n), |artifact|), Fine, false)
  }

  /** The body from byte `n` on, in chunks of the given sizes. */
  function Body(artifact: Data, n: nat, sizes: seq<nat>): Steps
    requires n + Sum(sizes) <= |artifact|
    decreases |sizes|
  {
    if sizes == [] then []
    else
      SumSplit(sizes);
      [(0, ChunkAt(artifact, n, sizes[0]))] + Body(artifact, n + sizes[0], sizes[1..])
  }

  function ChunkAt(artifact: Data, n: nat, size: nat): Action
    requires n + size <= |artifact|
  {
    Chunk(artifact[n..n + size], 0, Fine, true)
  }

  lemma SumSplit(sizes: seq<nat>)
    requires sizes != []
    ensures Sum(sizes) == sizes[0] + Sum(sizes[1..])
  {
    SumCons(sizes[0], sizes[1..]);
    assert sizes == [sizes[0]] + sizes[1..];
  }

  /** How an attempt breaks off: before a response, with a server error, or after chunks of these sizes. */
  datatype Break = Unreached | ServerError | BodyBreaks(sizes: seq<nat>)

  function Received(b: Break): nat {
    if b.BodyBreaks? then Sum(b.sizes) else 0
  }

  /** An attempt that breaks off, from a partial file of `n` bytes; a complete one cannot be read for its digest. */
  function Broken(artifact: Data, n: nat, b: Break): Steps
    requires n == |artifact| || n + Received(b) <= |artifact|
  {
    if n == |artifact| then [(0, Begin(false, false)), (0, Compare(true, false))]
    else [(0, Begin(false, false)), (0, Preflight(true))] + Failing(artifact, n, b)
  }

  function Failing(artifact: Data, n: nat, b: Break): Steps
    requires n + Received(b) <= |artifact|
  {
    match b
    case Unreached => [(0, Respond(Unreachable, Fine, false))]
    case ServerError => [(0, Respond(Refused(false), Fine, false))]
    case BodyBreaks(sizes) => [(0, Opened(artifact, n))] + (Body(artifact, n, sizes) + [(0, StreamBreaks)])
  }

  /** What the partial file holds after the attempt broke off. */
  function After(artifact: Data, n: nat, b: Break): nat {
    if n == |artifact| then n else n + Received(b)
  }

  /** An attempt that needs a request sends one GET. */
  function Gets(artifact: Data, n: nat): nat {
    if n == |artifact| then 0 else 1
  }

  /** An undisturbed attempt, its body in chunks of any sizes. */
  function Whole(artifact: Data, n: nat, sizes: seq<nat>): Steps
    requires n + Sum(sizes) == |artifact|
  {
    if n == |artifact| then [(0, Begin(false, false)), (0, Compare(false, false)), (0, Publish(Fine))]
    else [(0, Begin(false, false)), (0, Preflight(true))] + Rest(artifact, n, sizes)
  }

  /** The response, the body, and what follows it. */
  function Rest(artifact: Data, n: nat, sizes: seq<nat>): Steps
    requires n + Sum(sizes) <= |artifact|
  {
    [(0, Opened(artifact, n))] + (Body(artifact, n, sizes) + Closing())
  }

  function Closing(): Steps {
    [(0, BodyEnds(Fine)), (0, Hash(false, false))] + [(0, Publish(Fine))]
  }

  // ----- what the steps do -----

  lemma ChunkBytes(artifact: Data, n: nat, size: nat)
    requires n + size <= |artifact|
    ensures artifact[..n] + artifact[n..n + size] == artifact[..n + size]
  {
  }

  lemma TakesChunk(cfg: Config, artifact: Data, n: nat, c: Caller, m: nat) returns (c': Caller)
    requires n + m <= |artifact| && AtByte(artifact, n, c)
    ensures AtByte(artifact, n + m, c') && SameCall(artifact, c, c') && c'.gets == c.gets
    ensures Leads(cfg, First(artifact, n), c, [(0, ChunkAt(artifact, n, m))],
                  First(artifact, n + m), c')
  {
    c' := Report(c, n + m, Some(|artifact|)).(pc := Streaming(n + m, Some(|artifact|)));
    ChunkBytes(artifact, n, m);
    Takes(cfg, First(artifact, n), c, ChunkAt(artifact, n, m), First(artifact, n + m), c');
  }

  /** The call has received the first `n` bytes of a body. */
  predicate AtByte(artifact: Data, n: nat, c: Caller) {
    n <= |artifact| && c.pc == Streaming(n, Some(|artifact|)) && c.expected == Some(|artifact|)
  }

  lemma {:induction false} Streams(cfg: Config, artifact: Data, n: nat, end: nat, c: Caller, sizes: seq<nat>)
    returns (c': Caller)
    requires n + Sum(sizes) == end <= |artifact| && AtByte(artifact, n, c)
    ensures AtByte(artifact, end, c') && SameCall(artifact, c, c') && c'.gets == c.gets
    ensures Leads(cfg, First(artifact, n), c, Body(artifact, n, sizes), First(artifact, end), c')
    decreases |sizes|
  {
    if sizes == [] {
      Stays(cfg, First(artifact, n), c);
      return c;
    }
    SumSplit(sizes);
    var m, rest := n + sizes[0], sizes[1..];
    var c1 := TakesChunk(cfg, artifact, n, c, sizes[0]);
    c' := Streams(cfg, artifact, m, end, c1, rest);
    Then(cfg, First(artifact, n), c, [(0, ChunkAt(artifact, n, sizes[0]))], First(artifact, m), c1,
         Body(artifact, m, rest), First(artifact, end), c');
  }

  /** From the start of an attempt to the sent request, which asks for what follows the partial file. */
  lemma SendsRequest(cfg: Config, artifact: Data, n: nat, part: File, c: Caller) returns (c': Caller)
    requires c.pc.Attempting? && c.expected == Some(|artifact|) && HoldsFirst(artifact, part, n) && n < |artifact|
    ensures c'.pc == Sent(n) && SameCall(artifact, c, c') && c'.gets == c.gets + 1
    ensures Leads(cfg, part, c, [(0, Begin(false, false)), (0, Preflight(true))], part, c')
  {
    var c1 := Report(c, n, c.expected).(pc := Requesting(n));
    c' := c1.(pc := Sent(n), gets := c.gets + 1);
    TakesTwo(cfg, part, c, Begin(false, false), part, c1, Preflight(true), part, c');
  }

  lemma OpensBody(cfg: Config, artifact: Data, n: nat, part: File, c: Caller) returns (c': Caller)
    requires c.pc == Sent(n) && c.expected == Some(|artifact|) && HoldsFirst(artifact, part, n) && n < |artifact|
    ensures c' == c.(pc := Streaming(n, Some(|artifact|)))
    ensures Leads(cfg, part, c, [(0, Opened(artifact, n))], First(artifact, n), c')
  {
    assert artifact[..0] == [];
    c' := c.(pc := Streaming(n, Some(|artifact|)));
    Takes(cfg, part, c, Opened(artifact, n), First(artifact, n), c');
  }

  /** The partial file and the call after an attempt that broke off at `n` bytes, with the budget left or used up. */
  ghost predicate BrokeOff(cfg: Config, artifact: Data, n: nat, c: Caller, part': File, c': Caller, gets: nat) {
    && HoldsFirst(artifact, part', n) && SameCall(artifact, c, c') && c'.gets == c.gets + gets
    && c'.pc == if c.attempt < cfg.maxAttempts then Backoff else Returned(false)
  }

  function GivesWay(cfg: Config, c: Caller): Caller {
    c.(pc := if c.attempt < cfg.maxAttempts then Backoff else Returned(false))
  }

  lemma BodyBreaksOff(cfg: Config, artifact: Data, n: nat, end: nat, part: File, c: Caller, sizes: seq<nat>)
    returns (c': Caller)
    requires c.pc == Sent(n) && c.expected == Some(|artifact|) && HoldsFirst(artifact, part, n) && n < |artifact|
    requires n + Sum(sizes) == end <= |artifact|
    ensures BrokeOff(cfg, artifact, end, c, First(artifact, end), c', 0)
    ensures Leads(cfg, part, c, Failing(artifact, n, BodyBreaks(sizes)), First(artifact, end), c')
  {
    var c1 := OpensBody(cfg, artifact, n, part, c);
    c' := StreamsAndBreaks(cfg, artifact, n, end, c1, sizes);
    Then(cfg, part, c, [(0, Opened(artifact, n))], First(artifact, n), c1,
         Body(artifact, n, sizes) + [(0, StreamBreaks)], First(artifact, end), c');
  }

  lemma StreamsAndBreaks(cfg: Config, artifact: Data, n: nat, end: nat, c: Caller, sizes: seq<nat>)
    returns (c': Caller)
    requires n + Sum(sizes) == end <= |artifact| && AtByte(artifact, n, c)
    ensures BrokeOff(cfg, artifact, end, c, First(artifact, end), c', 0)
    ensures Leads(cfg, First(artifact, n), c, Body(artifact, n, sizes) + [(0, StreamBreaks)], First(artifact, end), c')
  {
    var c1 := Streams(cfg, artifact, n, end, c, sizes);
    c' := GivesWay(cfg, c1);
    Takes(cfg, First(artifact, end), c1, StreamBreaks, First(artifact, end), c');
    Then(cfg, First(artifact, n), c, Body(artifact, n, sizes), First(artifact, end), c1, [(0, StreamBreaks)],
         First(artifact, end), c');
  }

  lemma FailsRequest(cfg: Config, artifact: Data, n: nat, part: File, c: Caller, b: Break)
    returns (part': File, c': Caller)
    requires c.pc == Sent(n) && c.expected == Some(|artifact|) && HoldsFirst(artifact, part, n) && n < |artifact|
    requires n + Received(b) <= |artifact|
    ensures BrokeOff(cfg, artifact, n + Received(b), c, part', c', 0)
    ensures Leads(cfg, part, c, Failing(artifact, n, b), part', c')
  {
    part', c' := part, GivesWay(cfg, c);
    match b {
      case Unreached => Takes(cfg, part, c, Respond(Unreachable, Fine, false), part, c');
      case ServerError => Takes(cfg, part, c, Respond(Refused(false), Fine, false), part, c');
      case BodyBreaks(sizes) =>
        part' := First(artifact, n + Sum(sizes));
        c' := BodyBreaksOff(cfg, artifact, n, n + Sum(sizes), part, c, sizes);
    }
  }

  lemma FailsComparing(cfg: Config, artifact: Data, part: File, c: Caller) returns (c': Caller)
    requires c.pc.Attempting? && c.expected == Some(|artifact|) && HoldsFirst(artifact, part, |artifact|)
    ensures BrokeOff(cfg, artifact, |artifact|, c, part, c', 0)
    ensures Leads(cfg, part, c, [(0, Begin(false, false)), (0, Compare(true, false))], part, c')
  {
    var c1 := Report(c, |artifact|, c.expected).(pc := Comparing(|artifact|));
    c' := GivesWay(cfg, c1);
    TakesTwo(cfg, part, c, Begin(false, false), part, c1, Compare(true, false), part, c');
  }

  /** An attempt that breaks off leaves what it received, and waits for another try exactly while the budget lasts. */
  lemma BreaksOff(cfg: Config, artifact: Data, n: nat, part: File, c: Caller, b: Break)
    returns (part': File, c': Caller)
    requires c.pc.Attempting? && c.expected == Some(|artifact|) && HoldsFirst(artifact, part, n)
    requires n == |artifact| || n + Received(b) <= |artifact|
    ensures BrokeOff(cfg, artifact, After(artifact, n, b), c, part', c', Gets(artifact, n))
    ensures Leads(cfg, part, c, Broken(artifact, n, b), part', c')
  {
    if n == |artifact| {
      part' := part;
      c' := FailsComparing(cfg, artifact, part, c);
    } else {
      var c1 := SendsRequest(cfg, artifact, n, part, c);
      part', c' := FailsRequest(cfg, artifact, n, part, c1, b);
      Then(cfg, part, c, [(0, Begin(false, false)), (0, Preflight(true))], part, c1,
           Failing(artifact, n, b), part', c');
    }
  }

  // ----- a whole call -----

  /** Published: the destination holds the artifact and the partial file is gone. */
  ghost predicate Publishes(cfg: Config, artifact: Data, part: File, c: Caller, steps: Steps, c': Caller) {
    && c'.pc == Returned(true)
    && forall s :: Stands(s, part, Absent, c) ==> Stands(Run(cfg, s, steps), Absent, Present(artifact), c')
  }

  lemma ThenPublishes(cfg: Config, artifact: Data, part: File, c: Caller, a: Steps, part1: File, c1: Caller, b: Steps,
                      c': Caller)
    requires Leads(cfg, part, c, a, part1, c1) && Publishes(cfg, artifact, part1, c1, b, c')
    ensures Publishes(cfg, artifact, part, c, a + b, c')
  {
    var s := Solo(part, Absent, c);
    RunConcat(cfg, s, a, b);
    assert Stands(s, part, Absent, c) && Stands(Run(cfg, s, a), part1, Absent, c1);
  }

  lemma Renames(cfg: Config, artifact: Data, c: Caller) returns (c': Caller)
    requires c.pc.Verified? || c.pc.PublishingPart?
    ensures Publishes(cfg, artifact, Present(artifact), c, [(0, Publish(Fine))], c') && c'.gets == c.gets
  {
    var e := Act(cfg, Present(artifact), Absent, c, Publish(Fine));
    OneStep(cfg, Present(artifact), Absent, c, Publish(Fine));
    c' := e.caller;
  }

  /** A body received whole is flushed, matches its digest and is published. */
  lemma PublishesBody(cfg: Config, artifact: Data, c: Caller) returns (c': Caller)
    requires Pins(cfg, artifact) && c.pc == Streaming(|artifact|, Some(|artifact|))
    ensures Publishes(cfg, artifact, Present(artifact), c, Closing(), c') && c'.gets == c.gets
  {
    var part, total := Present(artifact), Some(|artifact|);
    var c1, c2 := c.(pc := Drained(|artifact|, total)), c.(pc := Verified(|artifact|, total));
    TakesTwo(cfg, part, c, BodyEnds(Fine), part, c1, Hash(false, false), part, c2);
    c' := Renames(cfg, artifact, c2);
    ThenPublishes(cfg, artifact, part, c, [(0, BodyEnds(Fine)), (0, Hash(false, false))], part, c2,
                  [(0, Publish(Fine))], c');
  }

  /** A complete partial file is compared and published without a request. */
  lemma PublishesComplete(cfg: Config, artifact: Data, part: File, c: Caller) returns (c': Caller)
    requires Pins(cfg, artifact) && artifact != [] && HoldsFirst(artifact, part, |artifact|)
    requires c.pc.Attempting? && c.expected == Some(|artifact|)
    ensures Publishes(cfg, artifact, part, c,
                      [(0, Begin(false, false)), (0, Compare(false, false)), (0, Publish(Fine))], c')
    ensures c'.gets == c.gets
  {
    var n := |artifact|;
    assert artifact[..n] == artifact;
    var c1 := Report(c, n, c.expected).(pc := Comparing(n));
    var c2 := c1.(pc := PublishingPart(n));
    TakesTwo(cfg, part, c, Begin(false, false), part, c1, Compare(false, false), part, c2);
    c' := Renames(cfg, artifact, c2);
    ThenPublishes(cfg, artifact, part, c, [(0, Begin(false, false)), (0, Compare(false, false))], part, c2,
                  [(0, Publish(Fine))], c');
    assert [(0, Begin(false, false)), (0, Compare(false, false))] + [(0, Publish(Fine))]
        == [(0, Begin(false, false)), (0, Compare(false, false)), (0, Publish(Fine))];
  }

  lemma PublishesRest(cfg: Config, artifact: Data, n: nat, part: File, c: Caller, sizes: seq<nat>) returns (c': Caller)
    requires Pins(cfg, artifact) && c.pc == Sent(n) && c.expected == Some(|artifact|)
    requires HoldsFirst(artifact, part, n) && n < |artifact| && n + Sum(sizes) == |artifact|
    ensures Publishes(cfg, artifact, part, c, Rest(artifact, n, sizes), c') && c'.gets == c.gets
  {
    var c1 := OpensBody(cfg, artifact, n, part, c);
    c' := PublishesFrom(cfg, artifact, n, c1, sizes);
    ThenPublishes(cfg, artifact, part, c, [(0, Opened(artifact, n))], First(artifact, n), c1,
                  Body(artifact, n, sizes) + Closing(), c');
  }

  lemma PublishesFrom(cfg: Config, artifact: Data, n: nat, c: Caller, sizes: seq<nat>) returns (c': Caller)
    requires Pins(cfg, artifact) && n + Sum(sizes) == |artifact|
    requires c.pc == Streaming(n, Some(|artifact|)) && c.expected == Some(|artifact|)
    ensures Publishes(cfg, artifact, First(artifact, n), c, Body(artifact, n, sizes) + Closing(), c')
    ensures c'.gets == c.gets
  {
    var c2 := Streams(cfg, artifact, n, |artifact|, c, sizes);
    assert artifact[..|artifact|] == artifact;
    c' := PublishesBody(cfg, artifact, c2);
    ThenPublishes(cfg, artifact, First(artifact, n), c, Body(artifact, n, sizes), Present(artifact), c2, Closing(), c');
  }

  /** From a partial file of any length, the complete one included, one undisturbed attempt publishes the artifact,
      however its body is cut: with one GET, or with none when the file is complete. (A probed length of zero counts as
      unknown.) */
  lemma AttemptCompletes(cfg: Config, artifact: Data, n: nat, part: File, c: Caller, sizes: seq<nat>)
    returns (c': Caller)
    requires Pins(cfg, artifact) && artifact != [] && HoldsFirst(artifact, part, n) && n + Sum(sizes) == |artifact|
    requires c.pc.Attempting? && c.expected == Some(|artifact|)
    ensures Publishes(cfg, artifact, part, c, Whole(artifact, n, sizes), c') && c'.gets == c.gets + Gets(artifact, n)
  {
    if n == |artifact| {
      c' := PublishesComplete(cfg, artifact, part, c);
    } else {
      var c1 := SendsRequest(cfg, artifact, n, part, c);
      c' := PublishesRest(cfg, artifact, n, part, c1, sizes);
      ThenPublishes(cfg, artifact, part, c, [(0, Begin(false, false)), (0, Preflight(true))], part, c1,
                    Rest(artifact, n, sizes), c');
    }
  }

  /** Every attempt breaks off within the artifact. */
  predicate BreaksWithin(artifact: Data, n: nat, breaks: seq<Break>)
    requires n <= |artifact|
    decreases |breaks|
  {
    breaks != [] ==>
      && (n == |artifact| || n + Received(breaks[0]) <= |artifact|)
      && BreaksWithin(artifact, After(artifact, n, breaks[0]), breaks[1..])
  }

  /** Attempts that break off, each followed by its backoff. */
  function Retried(artifact: Data, n: nat, breaks: seq<Break>): Steps
    requires n <= |artifact| && BreaksWithin(artifact, n, breaks)
    decreases |breaks|
  {
    if breaks == [] then []
    else
      (Broken(artifact, n, breaks[0]) + [(0, Wake)])
      + Retried(artifact, After(artifact, n, breaks[0]), breaks[1..])
  }

  /** What the partial file holds after them. */
  function Reached(artifact: Data, n: nat, breaks: seq<Break>): (m: nat)
    requires n <= |artifact| && BreaksWithin(artifact, n, breaks)
    ensures m <= |artifact|
    decreases |breaks|
  {
    if breaks == [] then n else Reached(artifact, After(artifact, n, breaks[0]), breaks[1..])
  }

  /** The GETs they sent: one for each attempt that found the file incomplete. */
  function GetsOf(artifact: Data, n: nat, breaks: seq<Break>): nat
    requires n <= |artifact| && BreaksWithin(artifact, n, breaks)
    decreases |breaks|
  {
    if breaks == [] then 0
    else Gets(artifact, n) + GetsOf(artifact, After(artifact, n, breaks[0]), breaks[1..])
  }

  /** While the budget lasts, every attempt that breaks off is followed by one that starts from what it left. */
  lemma {:induction false} Retries(cfg: Config, artifact: Data, n: nat, part: File, c: Caller, breaks: seq<Break>)
    returns (part': File, c': Caller)
    requires c.pc.Attempting? && c.expected == Some(|artifact|) && HoldsFirst(artifact, part, n)
    requires BreaksWithin(artifact, n, breaks) && c.attempt + |breaks| <= cfg.maxAttempts
    ensures HoldsFirst(artifact, part', Reached(artifact, n, breaks)) && c'.pc.Attempting?
    ensures c'.expected == c.expected && c'.attempt == c.attempt + |breaks|
    ensures c'.gets == c.gets + GetsOf(artifact, n, breaks)
    ensures Leads(cfg, part, c, Retried(artifact, n, breaks), part', c')
    decreases |breaks|
  {
    if breaks == [] {
      Stays(cfg, part, c);
      return part, c;
    }
    var part1, c1 := BreaksOff(cfg, artifact, n, part, c, breaks[0]);
    var c2 := c1.(pc := Attempting, attempt := c1.attempt + 1);
    Takes(cfg, part1, c1, Wake, part1, c2);
    Then(cfg, part, c, Broken(artifact, n, breaks[0]), part1, c1, [(0, Wake)], part1, c2);
    part', c' := Retries(cfg, artifact, After(artifact, n, breaks[0]), part1, c2, breaks[1..]);
    Then(cfg, part, c, Broken(artifact, n, breaks[0]) + [(0, Wake)], part1, c2,
         Retried(artifact, After(artifact, n, breaks[0]), breaks[1..]), part', c');
  }

  /** From the probe to the first attempt. */
  function Opening(artifact: Data): Steps {
    [(0, Head(Some(|artifact|))), (0, LookAtDest)] + ([(0, Acquire)] + [(0, LookAtDest)])
  }

  const FRESH := Caller(Start, None, 0, 0, [], false)

  lemma Opens(cfg: Config, artifact: Data, part: File) returns (c: Caller)
    requires artifact != []
    ensures c.pc.Attempting? && c.expected == Some(|artifact|) && c.attempt == 1 && c.gets == 0
    ensures Leads(cfg, part, FRESH, Opening(artifact), part, c)
  {
    var c1 := FRESH.(pc := Probed, expected := Some(|artifact|));
    var c2 := Report(c1, Length(part), c1.expected).(pc := Waiting);
    var c3 := c2.(pc := Locked);
    c := c3.(pc := Attempting, attempt := 1);
    TakesTwo(cfg, part, FRESH, Head(Some(|artifact|)), part, c1, LookAtDest, part, c2);
    Enters(cfg, part, c2, c3, c);
    Then(cfg, part, FRESH, [(0, Head(Some(|artifact|))), (0, LookAtDest)], part, c2,
         [(0, Acquire)] + [(0, LookAtDest)], part, c);
  }

  lemma Enters(cfg: Config, part: File, c: Caller, c1: Caller, c2: Caller)
    requires c.pc.Waiting? && c1 == c.(pc := Locked) && c2 == c1.(pc := Attempting, attempt := 1)
    ensures Leads(cfg, part, c, [(0, Acquire)] + [(0, LookAtDest)], part, c2)
  {
    Takes(cfg, part, c, Acquire, part, c1);
    Takes(cfg, part, c1, LookAtDest, part, c2);
    Then(cfg, part, c, [(0, Acquire)], part, c1, [(0, LookAtDest)], part, c2);
  }

  /** A call whose first attempts, fewer than the budget, break off at any bytes, and whose next one is undisturbed,
      publishes the artifact, with one GET for each attempt that found the partial file incomplete. */
  lemma CallCompletes(cfg: Config, artifact: Data, n: nat, part: File, breaks: seq<Break>, sizes: seq<nat>)
    returns (c': Caller)
    requires Pins(cfg, artifact) && artifact != [] && HoldsFirst(artifact, part, n)
    requires BreaksWithin(artifact, n, breaks) && (breaks == [] || |breaks| < cfg.maxAttempts)
    requires Reached(artifact, n, breaks) + Sum(sizes) == |artifact|
    ensures var m := Reached(artifact, n, breaks);
      && Publishes(cfg, artifact, part, FRESH,
                   Opening(artifact) + (Retried(artifact, n, breaks) + Whole(artifact, m, sizes)), c')
      && c'.gets == GetsOf(artifact, n, breaks) + Gets(artifact, m)
  {
    var m := Reached(artifact, n, breaks);
    var c1 := Opens(cfg, artifact, part);
    var part2, c2 := RetriesAll(cfg, artifact, n, part, c1, breaks);
    c' := AttemptCompletes(cfg, artifact, m, part2, c2, sizes);
    ThenPublishes(cfg, artifact, part, c1, Retried(artifact, n, breaks), part2, c2, Whole(artifact, m, sizes), c');
    ThenPublishes(cfg, artifact, part, FRESH, Opening(artifact), part, c1,
                  Retried(artifact, n, breaks) + Whole(artifact, m, sizes), c');
  }

  /** Also without a break when the budget allows no retry at all. */
  lemma RetriesAll(cfg: Config, artifact: Data, n: nat, part: File, c: Caller, breaks: seq<Break>)
    returns (part': File, c': Caller)
    requires c.pc.Attempting? && c.expected == Some(|artifact|) && HoldsFirst(artifact, part, n)
    requires BreaksWithin(artifact, n, breaks) && (breaks == [] || c.attempt + |breaks| <= cfg.maxAttempts)
    ensures HoldsFirst(artifact, part', Reached(artifact, n, breaks)) && c'.pc.Attempting?
    ensures c'.expected == c.expected && c'.attempt == c.attempt + |breaks|
    ensures c'.gets == c.gets + GetsOf(artifact, n, breaks)
    ensures Leads(cfg, part, c, Retried(artifact, n, breaks), part', c')
  {
    if breaks == [] {
      part', c' := part, c;
      Stays(cfg, part, c);
    } else {
      part', c' := Retries(cfg, artifact, n, part, c, breaks);
    }
  }

  /** A call whose attempts all break off ends in an error with the last one the budget allows, and leaves the partial
      file for a later call to resume. */
  lemma CallGivesUp(cfg: Config, artifact: Data, n: nat, part: File, breaks: seq<Break>, last: Break)
    returns (part': File, c': Caller)
    requires artifact != [] && HoldsFirst(artifact, part, n) && BreaksWithin(artifact, n, breaks)
    requires |breaks| + 1 == Budget(cfg)
    requires var m := Reached(artifact, n, breaks); m == |artifact| || m + Received(last) <= |artifact|
    ensures var m := Reached(artifact, n, breaks);
      && Leads(cfg, part, FRESH,
               Opening(artifact) + (Retried(artifact, n, breaks) + Broken(artifact, m, last)), part', c')
      && c'.pc == Returned(false) && HoldsFirst(artifact, part', After(artifact, m, last))
  {
    var m := Reached(artifact, n, breaks);
    var c1 := Opens(cfg, artifact, part);
    var part2, c2 := RetriesAll(cfg, artifact, n, part, c1, breaks);
    part', c' := BreaksOff(cfg, artifact, m, part2, c2, last);
    Then(cfg, part, c1, Retried(artifact, n, breaks), part2, c2, Broken(artifact, m, last), part', c');
    Then(cfg, part, FRESH, Opening(artifact), part, c1,
         Retried(artifact, n, breaks) + Broken(artifact, m, last), part', c');
  }
}
