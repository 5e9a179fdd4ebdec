/** Resuming against a server that serves one artifact: every interrupted, cancelled and retried run publishes what a
    single uninterrupted download would. */
module DownloadResume {
  import opened Wrappers
  import opened Download

  /** The pinned digest is the artifact's, and no shorter prefix of the artifact shares it. */
  ghost predicate Pins(cfg: Config, artifact: Data) {
    && cfg.pinned == Some(cfg.hash(artifact))
    && forall k :: 0 <= k < |artifact| ==> cfg.hash(artifact[..k]) != cfg.hash(artifact)
  }

  /** What a server of the artifact may answer: a 206 only to a ranged request (section 15.3.7 of RFC 9110); bodies
      that are the artifact's own bytes, `at` being the position the server sends from, broken off anywhere.
      Everything else, the probed length included, may be anything. */
  ghost predicate Serves(artifact: Data, pc: Pc, at: nat, a: Action) {
    && (a.Respond? && a.answer.Partial? && pc.Sent? ==> pc.partLen > 0)
    && (a.Chunk? && pc.Streaming? ==>
          at + |a.data| <= |artifact| && a.data == artifact[at..at + |a.data|])
  }

  /** Where the server sends from next: a 206 starts where it says, a 200 at the first byte. */
  function ServedTo(pc: Pc, at: nat, a: Action): nat {
    if pc.Sent? && a.Respond? then
      if a.answer.Partial? && a.answer.start.Some? then a.answer.start.value else 0
    else if pc.Streaming? && a.Chunk? then at + |a.data|
    else at
  }

  ghost predicate IsPrefix(artifact: Data, part: File) {
    part.Present? ==> part.bytes <= artifact
  }

  ghost predicate DestOk(artifact: Data, dest: File) {
    dest.Present? ==> dest.bytes == artifact
  }

  /** A ranged request asks for what follows the `.part` file; a stream has appended exactly what it counted, which is
      what the server has sent. */
  ghost predicate InStep(artifact: Data, part: File, pc: Pc, at: nat) {
    && ((pc.Requesting? || pc.Sent?) && pc.partLen > 0 ==> Length(part) == pc.partLen)
    && (pc.Streaming? ==> at == pc.received <= |artifact| && part == Present(artifact[..pc.received]))
  }

  lemma WrotePrefix(artifact: Data, received: nat, data: Data, written: nat)
    requires received + |data| <= |artifact| && data == artifact[received..received + |data|] && written <= |data|
    ensures artifact[..received] + data[..written] == artifact[..received + written] <= artifact
  {
  }

  lemma WroteResumes(cfg: Config, artifact: Data, part: File, dest: File, c: Caller, at: nat, a: Action)
    requires c.pc.Streaming? && a.Chunk? && InStep(artifact, part, c.pc, at) && Serves(artifact, c.pc, at, a)
    ensures var e := Wrote(cfg, part, dest, c, c.pc.received, c.pc.total, a.data, a.written, a.disk, a.enough);
      IsPrefix(artifact, e.part) && InStep(artifact, e.part, e.caller.pc, ServedTo(c.pc, at, a))
  {
    var n := if a.written <= |a.data| then a.written else |a.data|;
    assert a.data[..|a.data|] == a.data;
    WrotePrefix(artifact, c.pc.received, a.data, n);
    WrotePrefix(artifact, c.pc.received, a.data, |a.data|);
  }

  lemma RespondedResumes(cfg: Config, artifact: Data, part: File, dest: File, c: Caller, at: nat, a: Action)
    requires c.pc.Sent? && a.Respond? && IsPrefix(artifact, part) && InStep(artifact, part, c.pc, at)
    requires Serves(artifact, c.pc, at, a)
    ensures var e := Responded(cfg, part, dest, c, c.pc.partLen, a.answer, a.disk, a.removeFails);
      IsPrefix(artifact, e.part) && InStep(artifact, e.part, e.caller.pc, ServedTo(c.pc, at, a))
  {
  }

  lemma FetchResumes(cfg: Config, artifact: Data, part: File, dest: File, c: Caller, at: nat, a: Action)
    requires c.pc.Sent? || c.pc.Streaming? || c.pc.Drained?
    requires IsPrefix(artifact, part) && InStep(artifact, part, c.pc, at) && Serves(artifact, c.pc, at, a)
    ensures var e := Fetch(cfg, part, dest, c, a);
      IsPrefix(artifact, e.part) && InStep(artifact, e.part, e.caller.pc, ServedTo(c.pc, at, a))
  {
    if c.pc.Sent? && a.Respond? {
      RespondedResumes(cfg, artifact, part, dest, c, at, a);
    } else if c.pc.Streaming? && a.Chunk? {
      WroteResumes(cfg, artifact, part, dest, c, at, a);
    }
  }

  lemma AttemptResumes(cfg: Config, artifact: Data, part: File, dest: File, c: Caller, at: nat, a: Action)
    requires Holds(c.pc) && !c.pc.Sent? && !c.pc.Streaming? && !c.pc.Drained? && IsPrefix(artifact, part)
    requires InStep(artifact, part, c.pc, at)
    ensures var e := Attempt(cfg, part, dest, c, a);
      IsPrefix(artifact, e.part) && InStep(artifact, e.part, e.caller.pc, ServedTo(c.pc, at, a))
  {
  }

  lemma ActResumes(cfg: Config, artifact: Data, part: File, dest: File, c: Caller, at: nat, a: Action)
    requires IsPrefix(artifact, part) && InStep(artifact, part, c.pc, at) && Serves(artifact, c.pc, at, a)
    ensures var e := Act(cfg, part, dest, c, a);
      IsPrefix(artifact, e.part) && InStep(artifact, e.part, e.caller.pc, ServedTo(c.pc, at, a))
  {
    if c.pc.Returned? || a.Cancel? || !Holds(c.pc) {
      if !c.pc.Returned? && !a.Cancel? {
        QueueMoves(cfg, part, dest, c, a);
      }
    } else if c.pc.Sent? || c.pc.Streaming? || c.pc.Drained? {
      FetchResumes(cfg, artifact, part, dest, c, at, a);
    } else {
      AttemptResumes(cfg, artifact, part, dest, c, at, a);
    }
  }

  /** A step returns Ok only by publishing, or by finding the destination complete. */
  ghost predicate ReturnsWell(part: File, dest: File, c: Caller, e: Effect) {
    e.caller.pc == Returned(true) ==>
      || (e.dest == dest && dest.Present?)
      || (e.dest == part && part.Present? && (c.pc.PublishingPart? || c.pc.Verified?))
  }

  lemma AttemptReturns(cfg: Config, part: File, dest: File, c: Caller, a: Action)
    requires Holds(c.pc) && !c.pc.Sent? && !c.pc.Streaming? && !c.pc.Drained?
    ensures ReturnsWell(part, dest, c, Attempt(cfg, part, dest, c, a))
  {
  }

  lemma FetchReturns(cfg: Config, part: File, dest: File, c: Caller, a: Action)
    requires c.pc.Sent? || c.pc.Streaming? || c.pc.Drained?
    ensures ReturnsWell(part, dest, c, Fetch(cfg, part, dest, c, a))
  {
  }

  lemma ActReturns(cfg: Config, part: File, dest: File, c: Caller, a: Action)
    requires c.pc != Returned(true)
    ensures ReturnsWell(part, dest, c, Act(cfg, part, dest, c, a))
  {
    if !c.pc.Returned? && !a.Cancel? && Holds(c.pc) {
      if c.pc.Sent? || c.pc.Streaming? || c.pc.Drained? {
        FetchReturns(cfg, part, dest, c, a);
      } else {
        AttemptReturns(cfg, part, dest, c, a);
      }
    }
  }

  lemma ActDest(cfg: Config, artifact: Data, part: File, dest: File, c: Caller, a: Action)
    requires Pins(cfg, artifact) && IsPrefix(artifact, part) && DestOk(artifact, dest) && Local(cfg, part, c)
    ensures var e := Act(cfg, part, dest, c, a); DestOk(artifact, e.dest) && (dest.Present? ==> e.dest.Present?)
    ensures var e := Act(cfg, part, dest, c, a);
      e.caller.pc == Returned(true) && c.pc != Returned(true) ==> e.dest == Present(artifact)
  {
    ActMoves(cfg, part, dest, c, a);
    if c.pc != Returned(true) {
      ActReturns(cfg, part, dest, c, a);
    }
    if cfg.Matches(part) {
      assert part.bytes == artifact[..|part.bytes|];
      assert part.bytes == artifact;
    }
  }

  /** `at` says for every caller where its server sends from next. */
  ghost predicate Resumes(cfg: Config, artifact: Data, s: State, at: seq<nat>) {
    && Invariant(cfg, s) && IsPrefix(artifact, s.part) && DestOk(artifact, s.dest) && |at| == |s.callers|
    && (forall i :: 0 <= i < |s.callers| ==> InStep(artifact, s.part, s.callers[i].pc, at[i]))
    && (forall i :: 0 <= i < |s.callers| && s.callers[i].pc == Returned(true) ==> s.dest == Present(artifact))
  }

  /** The servers' positions after one step. */
  function Moved(s: State, at: seq<nat>, i: nat, a: Action): seq<nat>
    requires |at| == |s.callers|
  {
    if i < |at| then at[i := ServedTo(s.callers[i].pc, at[i], a)] else at
  }

  lemma StepResumes(cfg: Config, artifact: Data, s: State, at: seq<nat>, i: nat, a: Action)
    requires Pins(cfg, artifact) && Resumes(cfg, artifact, s, at)
    requires i < |s.callers| ==> Serves(artifact, s.callers[i].pc, at[i], a)
    ensures Resumes(cfg, artifact, Step(cfg, s, i, a), Moved(s, at, i, a))
  {
    StepKeeps(cfg, s, i, a);
    var s' := Step(cfg, s, i, a);
    if i < |s.callers| && !(a.Acquire? && s.lock.Some?) {
      var c := s.callers[i];
      assert Local(cfg, s.part, c);
      ActResumes(cfg, artifact, s.part, s.dest, c, at[i], a);
      ActDest(cfg, artifact, s.part, s.dest, c, a);
      if c.pc.Returned? {
        ActStays(cfg, s.part, s.dest, c, a);
      }
      if !Holds(c.pc) {
        OnlyHolderWrites(cfg, s.part, s.dest, c, a);
      }
      OthersInStep(cfg, artifact, s, at, i, a);
      forall j | 0 <= j < |s'.callers| && s'.callers[j].pc == Returned(true)
        ensures s'.dest == Present(artifact)
      {
        if j != i || c.pc == Returned(true) {
          assert s.callers[j].pc == Returned(true);
        }
      }
    }
  }

  lemma OthersInStep(cfg: Config, artifact: Data, s: State, at: seq<nat>, i: nat, a: Action)
    requires Resumes(cfg, artifact, s, at) && i < |s.callers| && !(a.Acquire? && s.lock.Some?)
    requires !Holds(s.callers[i].pc) ==> Step(cfg, s, i, a).part == s.part
    ensures forall j :: 0 <= j < |s.callers| && j != i ==>
      InStep(artifact, Step(cfg, s, i, a).part, Step(cfg, s, i, a).callers[j].pc, Moved(s, at, i, a)[j])
  {
    forall j | 0 <= j < |s.callers| && j != i
      ensures InStep(artifact, Step(cfg, s, i, a).part, Step(cfg, s, i, a).callers[j].pc, Moved(s, at, i, a)[j])
    {
      assert Local(cfg, s.part, s.callers[j]) && (Holds(s.callers[j].pc) <==> s.lock == Some(j));
      assert Holds(s.callers[i].pc) <==> s.lock == Some(i);
      assert InStep(artifact, s.part, s.callers[j].pc, at[j]);
    }
  }

  /** Every step of the run is served as above. */
  ghost predicate ServedRun(cfg: Config, artifact: Data, s: State, at: seq<nat>, steps: seq<(nat, Action)>)
    requires |at| == |s.callers|
    decreases |steps|
  {
    steps != [] ==>
      var i, a := steps[0].0, steps[0].1;
      && (i < |s.callers| ==> Serves(artifact, s.callers[i].pc, at[i], a))
      && ServedRun(cfg, artifact, Step(cfg, s, i, a), Moved(s, at, i, a), steps[1..])
  }

  lemma {:induction false} RunResumes(cfg: Config, artifact: Data, s: State, at: seq<nat>, steps: seq<(nat, Action)>)
    returns (at': seq<nat>)
    requires Pins(cfg, artifact) && Resumes(cfg, artifact, s, at) && ServedRun(cfg, artifact, s, at, steps)
    ensures Resumes(cfg, artifact, Run(cfg, s, steps), at')
    decreases |steps|
  {
    at' := at;
    if steps != [] {
      StepResumes(cfg, artifact, s, at, steps[0].0, steps[0].1);
      at' := RunResumes(cfg, artifact, Step(cfg, s, steps[0].0, steps[0].1), Moved(s, at, steps[0].0, steps[0].1),
                        steps[1..]);
    }
  }

  /** Starting without a destination and with a `.part` that is absent or a prefix of the artifact, the `.part` stays a
      prefix through every break, cancel, retry and further call, and a call that returned Ok has published exactly the
      artifact. */
  lemma ResumedEqualsOneShot(cfg: Config, artifact: Data, s: State, at: seq<nat>, steps: seq<(nat, Action)>)
    requires Pins(cfg, artifact) && Initial(s) && s.dest.Absent? && IsPrefix(artifact, s.part)
    requires |at| == |s.callers| && ServedRun(cfg, artifact, s, at, steps)
    ensures var s' := Run(cfg, s, steps);
      && IsPrefix(artifact, s'.part) && DestOk(artifact, s'.dest)
      && (forall i :: 0 <= i < |s'.callers| && s'.callers[i].pc == Returned(true) ==> s'.dest == Present(artifact))
  {
    InitialInvariant(cfg, s);
    var at' := RunResumes(cfg, artifact, s, at, steps);
  }
}
