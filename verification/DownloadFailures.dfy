/** Exactly which steps end a call in an error, which make it back off for another attempt, and which skip it. */
module DownloadFailures {
  import opened Wrappers
  import opened Download
  import opened DownloadResume

  /** A failure that another attempt may mend: the network, the server, or the disk, unless it is full. */
  predicate Retryable(cfg: Config, part: File, pc: Pc, a: Action) {
    match pc
    case Comparing(_) => a.Compare? && a.readFails
    case PublishingPart(_) => a.Publish? && !a.disk.Full? && !(part.Present? && a.disk.Fine?)
    case Sent(n) => a.Respond? && RetryableAnswer(n, a.answer, a.disk)
    case Rejected(_) => a.Recheck? && (cfg.pinned.None? || a.readFails || !IsPinned(cfg, part))
    case Streaming(_, _) => a.StreamBreaks? || ((a.Chunk? || a.BodyEnds?) && a.disk.Broken?)
    case Drained(_, _) => a.Hash? && cfg.pinned.Some? && a.readFails
    case Verified(_, _) => a.Publish? && !(part.Present? && a.disk.Fine?)
    case _ => false
  }

  /** No answer, a server error, a range that is not the one asked for, or a disk error when the file is opened. */
  predicate RetryableAnswer(n: nat, answer: Answer, disk: Disk) {
    match answer
    case Partial(start, _) => start != Some(n) || disk.Broken?
    case Success(_) => disk.Broken?
    case Refused(fatal) => !fatal
    case Unreachable => true
    case Unsatisfiable => false
  }

  /** A failure that ends the call whatever its budget: a refusal, a full disk, too little space, or a body that does
      not have the pinned digest. */
  predicate Fatal(cfg: Config, part: File, pc: Pc, a: Action) {
    match pc
    case Start => a.GiveUp?
    case Probed => a.GiveUp?
    case PublishingPart(_) => a.Publish? && a.disk.Full?
    case Requesting(_) => a.Preflight? && !a.enough
    case Sent(n) =>
      a.Respond? && (a.answer == Refused(true)
        || (a.disk.Full? && (a.answer.Success? || (a.answer.Partial? && a.answer.start == Some(n)))))
    case Streaming(_, _) =>
      ((a.Chunk? || a.BodyEnds?) && a.disk.Full?) || (a.Chunk? && a.disk.Fine? && !a.enough)
    case Drained(_, _) => a.Hash? && !(cfg.pinned.Some? && a.readFails) && !IsPinned(cfg, part)
    case _ => false
  }

  /** The file is there, and has the pinned digest when there is one. */
  predicate IsPinned(cfg: Config, part: File) {
    part.Present? && (cfg.pinned.None? || cfg.hash(part.bytes) == cfg.pinned.value)
  }

  /** The call that a step of it ends in an error, or sends to its backoff. */
  ghost predicate FailsExactly(cfg: Config, part: File, c: Caller, a: Action, c': Caller) {
    && (c'.pc == Returned(false) <==>
          a.Cancel? || Fatal(cfg, part, c.pc, a) || (Retryable(cfg, part, c.pc, a) && c.attempt >= cfg.maxAttempts))
    && (c'.pc.Backoff? <==>
          if c.pc.Backoff? then !a.Cancel? && !a.Wake?
          else !a.Cancel? && Retryable(cfg, part, c.pc, a) && c.attempt < cfg.maxAttempts)
  }

  lemma QueueFails(cfg: Config, part: File, dest: File, c: Caller, a: Action)
    requires !Holds(c.pc) && !c.pc.Returned? && !a.Cancel?
    ensures FailsExactly(cfg, part, c, a, Queue(part, dest, c, a).caller)
  {
  }

  lemma AttemptFails(cfg: Config, part: File, dest: File, c: Caller, a: Action)
    requires Holds(c.pc) && !c.pc.Sent? && !c.pc.Streaming? && !c.pc.Drained? && !a.Cancel?
    ensures FailsExactly(cfg, part, c, a, Attempt(cfg, part, dest, c, a).caller)
  {
  }

  lemma AnswerFails(cfg: Config, part: File, dest: File, c: Caller, a: Action)
    requires c.pc.Sent? && a.Respond?
    ensures FailsExactly(cfg, part, c, a,
                         Responded(cfg, part, dest, c, c.pc.partLen, a.answer, a.disk, a.removeFails).caller)
  {
  }

  lemma FetchFails(cfg: Config, part: File, dest: File, c: Caller, a: Action)
    requires (c.pc.Sent? || c.pc.Streaming? || c.pc.Drained?) && !a.Cancel?
    ensures FailsExactly(cfg, part, c, a, Fetch(cfg, part, dest, c, a).caller)
  {
    if c.pc.Sent? && a.Respond? {
      AnswerFails(cfg, part, dest, c, a);
    }
  }

  /** In any state a step of an open call ends it in an error exactly on a cancel, on a fatal failure, and on a
      retryable one when the budget is used up; while it is not, a retryable failure makes it back off, and nothing
      else does. */
  lemma ErrsExactly(cfg: Config, s: State, i: nat, a: Action)
    requires i < |s.callers| && !s.callers[i].pc.Returned? && !(a.Acquire? && s.lock.Some?)
    ensures var s' := Run(cfg, s, [(i, a)]);
      |s'.callers| == |s.callers| && FailsExactly(cfg, s.part, s.callers[i], a, s'.callers[i])
  {
    var c := s.callers[i];
    assert [(i, a)][1..] == [];
    assert Run(cfg, s, [(i, a)]) == Run(cfg, Step(cfg, s, i, a), []);
    if !a.Cancel? {
      if !Holds(c.pc) {
        QueueFails(cfg, s.part, s.dest, c, a);
      } else if c.pc.Sent? || c.pc.Streaming? || c.pc.Drained? {
        FetchFails(cfg, s.part, s.dest, c, a);
      } else {
        AttemptFails(cfg, s.part, s.dest, c, a);
      }
    }
  }

  /** A look at the destination, before the queue or under the lock, ends the call in success exactly when a file of the
      probed length is there; nothing is requested or written then. */
  lemma SkipsExactly(cfg: Config, part: File, dest: File, c: Caller)
    requires c.pc.Probed? || c.pc.Locked?
    ensures var e := Act(cfg, part, dest, c, LookAtDest);
      && (e.caller.pc == Returned(true) <==> dest.Present? && dest.bytes != [] && c.expected == Some(|dest.bytes|))
      && e.part == part && e.dest == dest && e.caller.gets == c.gets
      && (e.caller.pc.Returned? ==> e.caller.log == c.log + [Progress(Length(dest), c.expected, true)])
  {
  }

  /** The step's report, if it makes one before the last, says that the partial file is so long. */
  ghost predicate ReportsSize(c: Caller, c': Caller, size: nat) {
    |c'.log| > |c.log| && !c'.log[|c.log|].done ==> c'.log[|c.log|].received == size
  }

  lemma ChunkReports(cfg: Config, artifact: Data, part: File, dest: File, c: Caller, at: nat, a: Action)
    requires c.pc.Streaming? && a.Chunk? && InStep(artifact, part, c.pc, at)
    ensures var e := Wrote(cfg, part, dest, c, c.pc.received, c.pc.total, a.data, a.written, a.disk, a.enough);
      ReportsSize(c, e.caller, Length(e.part))
  {
  }

  lemma AttemptReports(cfg: Config, part: File, dest: File, c: Caller, a: Action)
    requires Holds(c.pc) && !c.pc.Sent? && !c.pc.Streaming? && !c.pc.Drained? && !(a.Begin? && a.statFails)
    ensures ReportsSize(c, Attempt(cfg, part, dest, c, a).caller, Length(part))
  {
  }

  lemma FetchReports(cfg: Config, part: File, dest: File, c: Caller, a: Action)
    requires (c.pc.Sent? || c.pc.Streaming? || c.pc.Drained?) && !(c.pc.Streaming? && a.Chunk?)
    ensures ReportsSize(c, Fetch(cfg, part, dest, c, a).caller, Length(part))
  {
  }

  /** A report before the last says how long the partial file is: when the call queues or begins an attempt, and after
      every chunk. */
  lemma ReportsLength(cfg: Config, artifact: Data, part: File, dest: File, c: Caller, at: nat, a: Action)
    requires InStep(artifact, part, c.pc, at) && !(a.Begin? && a.statFails)
    ensures var e := Act(cfg, part, dest, c, a);
      ReportsSize(c, e.caller, Length(if c.pc.Streaming? && a.Chunk? then e.part else part))
  {
    if c.pc.Returned? || a.Cancel? || !Holds(c.pc) {
    } else if c.pc.Streaming? && a.Chunk? {
      ChunkReports(cfg, artifact, part, dest, c, at, a);
    } else if c.pc.Sent? || c.pc.Drained? || c.pc.Streaming? {
      FetchReports(cfg, part, dest, c, a);
    } else {
      AttemptReports(cfg, part, dest, c, a);
    }
  }

  /** A partial file that cannot be built upon: longer than the artifact, without the pinned digest where it is looked
      at whole, rejected by the server, or answered from another offset. */
  predicate Discards(cfg: Config, part: File, c: Caller, a: Action) {
    match c.pc
    case Attempting => a.Begin? && !a.statFails && !a.removeFails && c.expected.Some? && Length(part) > c.expected.value
    case Comparing(_) => a.Compare? && !a.readFails && !a.removeFails && !IsPinned(cfg, part)
    case Rejected(_) =>
      a.Recheck? && !a.removeFails && (cfg.pinned.None? || a.readFails || !IsPinned(cfg, part))
    case Sent(n) => a.Respond? && a.answer.Partial? && a.answer.start != Some(n) && !a.removeFails
    case Drained(_, _) =>
      a.Hash? && !a.removeFails && !(cfg.pinned.Some? && a.readFails) && !IsPinned(cfg, part)
    case _ => false
  }

  ghost predicate RemovedExactly(cfg: Config, part: File, c: Caller, a: Action, e: Effect) {
    part.Present? ==> (e.part.Absent? <==> Discards(cfg, part, c, a) || (e.caller.published && !c.published))
  }

  lemma AttemptRemoves(cfg: Config, part: File, dest: File, c: Caller, a: Action)
    requires Holds(c.pc) && !c.pc.Sent? && !c.pc.Streaming? && !c.pc.Drained? && !c.published
    ensures RemovedExactly(cfg, part, c, a, Attempt(cfg, part, dest, c, a))
  {
  }

  lemma FetchRemoves(cfg: Config, part: File, dest: File, c: Caller, a: Action)
    requires (c.pc.Sent? || c.pc.Streaming? || c.pc.Drained?) && !c.published
    ensures RemovedExactly(cfg, part, c, a, Fetch(cfg, part, dest, c, a))
  {
  }

  /** A step of an open call removes the partial file exactly when it publishes it or when it cannot be built upon;
      every other failure keeps it for the next attempt, or for a later call. */
  lemma RemovesExactly(cfg: Config, part: File, dest: File, c: Caller, a: Action)
    requires !c.published
    ensures RemovedExactly(cfg, part, c, a, Act(cfg, part, dest, c, a)) || a.Cancel?
    ensures a.Cancel? ==> Act(cfg, part, dest, c, a).part == part
  {
    if !c.pc.Returned? && !a.Cancel? && Holds(c.pc) {
      if c.pc.Sent? || c.pc.Streaming? || c.pc.Drained? {
        FetchRemoves(cfg, part, dest, c, a);
      } else {
        AttemptRemoves(cfg, part, dest, c, a);
      }
    }
  }

  /** The first of two lengths that is known. */
  function FirstKnown(a: Option<nat>, b: Option<nat>): Option<nat> {
    if a.Some? then a else b
  }

  /** A probed length of zero says nothing, and no later step changes what the probe said. While the body streams the
      total is the probed length, or the size a 206 names; a 200 names it first. */
  lemma LengthsExactly(cfg: Config, part: File, dest: File, c: Caller, a: Action)
    ensures var c' := Act(cfg, part, dest, c, a).caller;
      && (c'.expected != c.expected ==> c.pc.Start? && a.Head?)
      && (c.pc.Start? && a.Head? ==> c'.expected == if a.length == Some(0) then None else a.length)
      && (c.pc.Sent? && c'.pc.Streaming? ==>
            c'.pc.total == if a.answer.Partial? then FirstKnown(c.expected, Some(a.answer.size))
                           else FirstKnown(a.answer.contentLength, c.expected))
      && (c.pc.Streaming? && c'.pc.Streaming? ==> c'.pc.total == c.pc.total)
  {
    if !c.pc.Returned? && !a.Cancel? && Holds(c.pc) {
      if c.pc.Sent? || c.pc.Streaming? || c.pc.Drained? {
        FetchLengths(cfg, part, dest, c, a);
      } else {
        AttemptLengths(cfg, part, dest, c, a);
      }
    }
  }

  lemma AttemptLengths(cfg: Config, part: File, dest: File, c: Caller, a: Action)
    requires Holds(c.pc) && !c.pc.Sent? && !c.pc.Streaming? && !c.pc.Drained?
    ensures Attempt(cfg, part, dest, c, a).caller.expected == c.expected
  {
  }

  lemma FetchLengths(cfg: Config, part: File, dest: File, c: Caller, a: Action)
    requires c.pc.Sent? || c.pc.Streaming? || c.pc.Drained?
    ensures var c' := Fetch(cfg, part, dest, c, a).caller;
      && c'.expected == c.expected
      && (c.pc.Sent? && c'.pc.Streaming? ==> a.Respond? && (a.answer.Partial? || a.answer.Success?))
      && (c.pc.Sent? && c'.pc.Streaming? ==>
            c'.pc.total == if a.answer.Partial? then FirstKnown(c.expected, Some(a.answer.size))
                           else FirstKnown(a.answer.contentLength, c.expected))
      && (c.pc.Streaming? && c'.pc.Streaming? ==> c'.pc.total == c.pc.total)
  {
  }

  function Bytes(f: File): Data {
    if f.Present? then f.bytes else []
  }

  /** The bytes of a chunk that reach the file: all of them, or those written before the disk failed. */
  function Stored(a: Action): Data
    requires a.Chunk?
  {
    if a.disk.Fine? || a.written > |a.data| then a.data else a.data[..a.written]
  }

  /** What the partial file holds after a step that does not remove it: a chunk is appended as far as it was stored, a
      200 starts it anew, a 206 goes on with it, and nothing else touches it. */
  lemma WritesExactly(cfg: Config, part: File, dest: File, c: Caller, a: Action)
    requires !c.published
    ensures var e := Act(cfg, part, dest, c, a);
      Bytes(e.part) ==
        if c.pc.Streaming? && a.Chunk? then Bytes(part) + Stored(a)
        else if (c.pc.Sent? && e.caller.pc.Streaming? && a.answer.Success?) || e.part.Absent? then []
        else Bytes(part)
  {
    if !c.pc.Returned? && !a.Cancel? && Holds(c.pc) {
      if c.pc.Sent? || c.pc.Streaming? || c.pc.Drained? {
        FetchWrites(cfg, part, dest, c, a);
      } else {
        AttemptRemoves(cfg, part, dest, c, a);
      }
    }
  }

  lemma FetchWrites(cfg: Config, part: File, dest: File, c: Caller, a: Action)
    requires c.pc.Sent? || c.pc.Streaming? || c.pc.Drained?
    ensures var e := Fetch(cfg, part, dest, c, a);
      && (e.caller.pc.Streaming? && c.pc.Sent? ==> a.Respond?)
      && Bytes(e.part) ==
        if c.pc.Streaming? && a.Chunk? then Bytes(part) + Stored(a)
        else if (c.pc.Sent? && e.caller.pc.Streaming? && a.answer.Success?) || e.part.Absent? then []
        else Bytes(part)
  {
  }
}
