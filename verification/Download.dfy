/** The resumable verified download (`download.rs`) as a transition system: any number of callers on one destination,
    each running `download_all_attempts`, against every server answer, disk failure and cancel. */
module Download {
  import opened Wrappers

  type Data = seq<int>

  datatype File = Absent | Present(bytes: Data)

  function Length(f: File): nat {
    if f.Present? then |f.bytes| else 0
  }

  /** `hash` and the pinned digest (none skips hashing); `maxAttempts` is the retry budget. */
  datatype Config = Config(hash: Data -> int, pinned: Option<int>, maxAttempts: nat) {
    /** `complete_part_matches` on a readable file. */
    predicate Matches(f: File) {
      f.Present? && (pinned.Some? ==> hash(f.bytes) == pinned.value)
    }
  }

  datatype Progress = Progress(received: nat, total: Option<nat>, done: bool)

  /** Where a call stands. From `Locked` to `Backoff` it holds the write lock of the `.part` file. */
  datatype Pc =
    | Start
    | Probed
    | Waiting
    | Locked
    | Attempting
    | Comparing(partLen: nat)
    | PublishingPart(partLen: nat)
    | Requesting(partLen: nat)
    | Sent(partLen: nat)
    | Rejected(partLen: nat)
    | Streaming(received: nat, total: Option<nat>)
    | Drained(received: nat, total: Option<nat>)
    | Verified(received: nat, total: Option<nat>)
    | Backoff
    | Returned(ok: bool)

  /** One call: its position, the probed length, the attempt number, the GETs it sent and the progress it reported.
      `published` records that it renamed the `.part` file over the destination. */
  datatype Caller = Caller(pc: Pc, expected: Option<nat>, attempt: nat, gets: nat, log: seq<Progress>, published: bool)

  predicate Holds(pc: Pc) {
    !(pc.Start? || pc.Probed? || pc.Waiting? || pc.Returned?)
  }

  datatype Answer =
    | Partial(start: Option<nat>, size: nat)
    | Unsatisfiable
    | Success(contentLength: Option<nat>)
    | Refused(fatal: bool)
    | Unreachable

  datatype Disk = Fine | Broken | Full

  /** What the environment decides at a step. */
  datatype Action =
    | Head(length: Option<nat>)
    | GiveUp
    | LookAtDest
    | Acquire
    | Begin(statFails: bool, removeFails: bool)
    | Compare(readFails: bool, removeFails: bool)
    | Publish(disk: Disk)
    | Preflight(enough: bool)
    | Respond(answer: Answer, disk: Disk, removeFails: bool)
    | Recheck(readFails: bool, removeFails: bool)
    | Chunk(data: Data, written: nat, disk: Disk, enough: bool)
    | StreamBreaks
    | BodyEnds(disk: Disk)
    | Hash(readFails: bool, removeFails: bool)
    | Wake
    | Cancel

  datatype Effect = Effect(part: File, dest: File, caller: Caller)

  function Report(c: Caller, received: nat, total: Option<nat>): Caller {
    c.(log := c.log + [Progress(received, total, false)])
  }

  /** The last report and the return, with no await between them. */
  function Finish(c: Caller, received: nat, total: Option<nat>): Caller {
    c.(pc := Returned(true), log := c.log + [Progress(received, total, true)])
  }

  function Fail(c: Caller): Caller {
    c.(pc := Returned(false))
  }

  function Retry(cfg: Config, c: Caller): Caller {
    if c.attempt >= cfg.maxAttempts then Fail(c) else c.(pc := Backoff)
  }

  /** A write error is fatal when the disk is full and retryable otherwise (`map_write_error`). */
  function WriteFailed(cfg: Config, c: Caller, disk: Disk): Caller {
    if disk.Full? then Fail(c) else Retry(cfg, c)
  }

  function Removed(part: File, removeFails: bool): File {
    if removeFails then part else Absent
  }

  /** `completed_skip`. */
  predicate Completed(dest: File, expected: Option<nat>) {
    Length(dest) > 0 && expected == Some(Length(dest))
  }

  /** `finalize`: the rename succeeds only on an intact disk. */
  function Rename(cfg: Config, part: File, dest: File, c: Caller, received: nat, total: Option<nat>,
                  disk: Disk): Effect {
    if part.Present? && disk.Fine? then Effect(Absent, part, Finish(c, received, total).(published := true))
    else Effect(part, dest, WriteFailed(cfg, c, disk))
  }

  /** One step of one call; an action that does not apply changes nothing. */
  function Act(cfg: Config, part: File, dest: File, c: Caller, a: Action): Effect {
    if c.pc.Returned? then Effect(part, dest, c)
    else if a.Cancel? then Effect(part, dest, Fail(c))
    else if !Holds(c.pc) then Queue(part, dest, c, a)
    else if c.pc.Sent? || c.pc.Streaming? || c.pc.Drained? then Fetch(cfg, part, dest, c, a)
    else Attempt(cfg, part, dest, c, a)
  }

  /** Up to the write lock: the probe, the first look at the destination, the queue. */
  function Queue(part: File, dest: File, c: Caller, a: Action): Effect {
    match c.pc
    case Start =>
      if a.GiveUp? then Effect(part, dest, Fail(c))
      else if a.Head? then
        Effect(part, dest, c.(pc := Probed, expected := if a.length == Some(0) then None else a.length))
      else Effect(part, dest, c)
    case Probed =>
      if a.GiveUp? then Effect(part, dest, Fail(c))
      else if !a.LookAtDest? then Effect(part, dest, c)
      else if Completed(dest, c.expected) then Effect(part, dest, Finish(c, Length(dest), c.expected))
      else Effect(part, dest, Report(c, Length(part), c.expected).(pc := Waiting))
    case _ => Effect(part, dest, if c.pc.Waiting? && a.Acquire? then c.(pc := Locked) else c)
  }

  /** The attempt loop around the request. */
  function Attempt(cfg: Config, part: File, dest: File, c: Caller, a: Action): Effect {
    match c.pc
    case Locked =>
      if !a.LookAtDest? then Effect(part, dest, c)
      else if Completed(dest, c.expected) then Effect(part, dest, Finish(c, Length(dest), c.expected))
      else Effect(part, dest, c.(pc := Attempting, attempt := 1))
    case Attempting =>
      if a.Begin? then BeginAttempt(part, dest, c, a.statFails, a.removeFails) else Effect(part, dest, c)
    case Comparing(n) =>
      if !a.Compare? then Effect(part, dest, c)
      else if a.readFails then Effect(part, dest, Retry(cfg, c))
      else if cfg.Matches(part) then Effect(part, dest, c.(pc := PublishingPart(n)))
      else Effect(Removed(part, a.removeFails), dest, c.(pc := Requesting(0)))
    case PublishingPart(n) =>
      if a.Publish? then Rename(cfg, part, dest, c, n, c.expected, a.disk) else Effect(part, dest, c)
    case Requesting(n) =>
      if !a.Preflight? then Effect(part, dest, c)
      else Effect(part, dest, if a.enough then c.(pc := Sent(n), gets := c.gets + 1) else Fail(c))
    case Rejected(n) =>
      if !a.Recheck? then Effect(part, dest, c)
      else if cfg.pinned.Some? && !a.readFails && cfg.Matches(part) then Effect(part, dest, c.(pc := PublishingPart(n)))
      else Effect(Removed(part, a.removeFails), dest, Retry(cfg, c))
    case Verified(received, total) =>
      if a.Publish? then Rename(cfg, part, dest, c, received, total, if a.disk.Full? then Broken else a.disk)
      else Effect(part, dest, c)
    case _ => Effect(part, dest, if c.pc.Backoff? && a.Wake? then c.(pc := Attempting, attempt := c.attempt + 1) else c)
  }

  /** The response, its body, and the digest of what was written. */
  function Fetch(cfg: Config, part: File, dest: File, c: Caller, a: Action): Effect {
    match c.pc
    case Sent(n) =>
      if a.Respond? then Responded(cfg, part, dest, c, n, a.answer, a.disk, a.removeFails) else Effect(part, dest, c)
    case Streaming(received, total) =>
      if a.Chunk? then Wrote(cfg, part, dest, c, received, total, a.data, a.written, a.disk, a.enough)
      else if a.StreamBreaks? then Effect(part, dest, Retry(cfg, c))
      else if !a.BodyEnds? then Effect(part, dest, c)
      else Effect(part, dest, if a.disk.Fine? then c.(pc := Drained(received, total)) else WriteFailed(cfg, c, a.disk))
    case Drained(received, total) =>
      if !a.Hash? then Effect(part, dest, c)
      else if cfg.pinned.Some? && a.readFails then Effect(part, dest, Retry(cfg, c))
      else if cfg.Matches(part) then Effect(part, dest, c.(pc := Verified(received, total)))
      else Effect(Removed(part, a.removeFails), dest, Fail(c))
    case _ => Effect(part, dest, c)
  }

  /** The resume offset comes from the `.part` length on disk; an oversized partial is discarded. */
  function BeginAttempt(part: File, dest: File, c: Caller, statFails: bool, removeFails: bool): Effect {
    var n := if statFails then 0 else Length(part);
    var c' := Report(c, n, c.expected);
    if c.expected.Some? && n > c.expected.value then Effect(Removed(part, removeFails), dest, c'.(pc := Requesting(0)))
    else if c.expected == Some(n) then Effect(part, dest, c'.(pc := Comparing(n)))
    else Effect(part, dest, c'.(pc := Requesting(n)))
  }

  function Responded(cfg: Config, part: File, dest: File, c: Caller, n: nat, answer: Answer, disk: Disk,
                     removeFails: bool): Effect {
    match answer
    case Partial(start, size) =>
      if start != Some(n) then Effect(Removed(part, removeFails), dest, Retry(cfg, c))
      else if !disk.Fine? then Effect(part, dest, WriteFailed(cfg, c, disk))
      else Effect(if part.Present? then part else Present([]), dest,
                  c.(pc := Streaming(n, if c.expected.Some? then c.expected else Some(size))))
    case Unsatisfiable => Effect(part, dest, c.(pc := Rejected(n)))
    case Success(length) =>
      if !disk.Fine? then Effect(part, dest, WriteFailed(cfg, c, disk))
      else Effect(Present([]), dest, c.(pc := Streaming(0, if length.Some? then length else c.expected)))
    case Refused(fatal) => Effect(part, dest, if fatal then Fail(c) else Retry(cfg, c))
    case Unreachable => Effect(part, dest, Retry(cfg, c))
  }

  /** A body chunk is appended; a failed write may leave part of it in the file. */
  function Wrote(cfg: Config, part: File, dest: File, c: Caller, received: nat, total: Option<nat>,
                 data: Data, written: nat, disk: Disk, enough: bool): Effect
  {
    var have := if part.Present? then part.bytes else [];
    if !disk.Fine? then
      Effect(Present(have + if written <= |data| then data[..written] else data), dest, WriteFailed(cfg, c, disk))
    else
      var c' := Report(c, received + |data|, total);
      Effect(Present(have + data), dest, if enough then c'.(pc := Streaming(received + |data|, total)) else Fail(c'))
  }

  // ----- the system -----

  datatype State = State(part: File, dest: File, lock: Option<nat>, callers: seq<Caller>)

  /** Caller `i` takes one step; the lock is granted only when free and released on return. */
  function Step(cfg: Config, s: State, i: nat, a: Action): (s': State)
    ensures |s'.callers| == |s.callers|
  {
    if i >= |s.callers| || (a.Acquire? && s.lock.Some?) then s
    else
      var e := Act(cfg, s.part, s.dest, s.callers[i], a);
      State(e.part, e.dest,
            if Holds(e.caller.pc) then Some(i) else if s.lock == Some(i) then None else s.lock,
            s.callers[i := e.caller])
  }

  function Run(cfg: Config, s: State, steps: seq<(nat, Action)>): State
    decreases |steps|
  {
    if steps == [] then s else Run(cfg, Step(cfg, s, steps[0].0, steps[0].1), steps[1..])
  }

  ghost predicate Initial(s: State) {
    s.lock.None? && forall i :: 0 <= i < |s.callers| ==> s.callers[i] == Caller(Start, None, 0, 0, [], false)
  }

  // ----- what every step keeps -----

  ghost predicate NoneDone(log: seq<Progress>) {
    forall k :: 0 <= k < |log| ==> !log[k].done
  }

  /** `done` is reported exactly once, and last, by calls that returned Ok, and never by others. */
  ghost predicate Reports(c: Caller) {
    if c.pc == Returned(true) then c.log != [] && c.log[|c.log| - 1].done && NoneDone(c.log[..|c.log| - 1])
    else NoneDone(c.log)
  }

  function Budget(cfg: Config): nat {
    if cfg.maxAttempts < 1 then 1 else cfg.maxAttempts
  }

  /** The current attempt has not sent its GET yet. */
  predicate Unsent(pc: Pc) {
    pc.Attempting? || pc.Comparing? || pc.Requesting?
  }

  predicate BeforeAttempts(pc: Pc) {
    pc.Start? || pc.Probed? || pc.Waiting? || pc.Locked?
  }

  /** One GET at most per attempt so far, and no more attempts than the budget. */
  ghost predicate WithinBudget(cfg: Config, c: Caller) {
    && c.gets <= c.attempt <= Budget(cfg)
    && (Unsent(c.pc) ==> c.gets < c.attempt)
    && (c.pc.Backoff? ==> c.attempt < cfg.maxAttempts)
    && (BeforeAttempts(c.pc) ==> c.attempt == 0)
  }

  /** A call about to rename holds a `.part` with the pinned digest; only a call that returned Ok has renamed. */
  ghost predicate Local(cfg: Config, part: File, c: Caller) {
    && Reports(c) && WithinBudget(cfg, c)
    && (c.published ==> c.pc == Returned(true))
    && PartReady(cfg, part, c.pc)
  }

  ghost predicate Invariant(cfg: Config, s: State) {
    forall i :: 0 <= i < |s.callers| ==>
      Local(cfg, s.part, s.callers[i]) && (Holds(s.callers[i].pc) <==> s.lock == Some(i))
  }

  /** A step appends at most one report, which says done exactly when the step returns Ok. */
  ghost predicate ReportsStep(c: Caller, c': Caller) {
    || (c'.log == c.log && (c'.pc == Returned(true) ==> c == c'))
    || (|c'.log| == |c.log| + 1 && c'.log[..|c.log|] == c.log && (c'.log[|c.log|].done <==> c'.pc == Returned(true)))
  }

  /** A GET is sent only for the attempt it belongs to; a new attempt starts only from the lock or from a backoff. */
  ghost predicate CountsStep(cfg: Config, c: Caller, c': Caller) {
    && (|| (&& c'.gets == c.gets && c'.attempt == c.attempt
            && (Unsent(c'.pc) ==> Unsent(c.pc)) && (BeforeAttempts(c'.pc) ==> BeforeAttempts(c.pc)))
        || (Unsent(c.pc) && c'.pc.Sent? && c'.gets == c.gets + 1 && c'.attempt == c.attempt)
        || (c.pc.Locked? && c'.pc.Attempting? && c'.attempt == 1 && c'.gets == c.gets)
        || (c.pc.Backoff? && c'.pc.Attempting? && c'.attempt == c.attempt + 1 && c'.gets == c.gets))
    && (c'.pc.Backoff? ==> c' == c || c'.attempt < cfg.maxAttempts)
  }

  /** The files after a step: whoever is to publish holds a matching `.part`, and the destination changes only by such a
      publication. */
  ghost predicate FilesStep(cfg: Config, part: File, dest: File, c: Caller, e: Effect) {
    && (PartReady(cfg, part, c.pc) ==> PartReady(cfg, e.part, e.caller.pc))
    && (if e.caller.published == c.published then e.dest == dest
        else
          && e.caller.published && e.caller.pc == Returned(true) && e.dest == part && e.part == Absent
          && (c.pc.PublishingPart? || c.pc.Verified?))
  }

  ghost predicate Moves(cfg: Config, part: File, dest: File, c: Caller, e: Effect) {
    ReportsStep(c, e.caller) && CountsStep(cfg, c, e.caller) && FilesStep(cfg, part, dest, c, e)
  }

  lemma QueueMoves(cfg: Config, part: File, dest: File, c: Caller, a: Action)
    requires !Holds(c.pc) && !c.pc.Returned?
    ensures Moves(cfg, part, dest, c, Queue(part, dest, c, a))
  {
  }

  lemma RenameMoves(cfg: Config, part: File, dest: File, c: Caller, received: nat, total: Option<nat>, disk: Disk)
    requires c.pc.PublishingPart? || c.pc.Verified?
    ensures Moves(cfg, part, dest, c, Rename(cfg, part, dest, c, received, total, disk)) || c.published
  {
  }

  lemma AttemptMoves(cfg: Config, part: File, dest: File, c: Caller, a: Action)
    requires Holds(c.pc) && !c.pc.Sent? && !c.pc.Streaming? && !c.pc.Drained? && !c.published
    ensures Moves(cfg, part, dest, c, Attempt(cfg, part, dest, c, a))
  {
    if a.Publish? && c.pc.PublishingPart? {
      RenameMoves(cfg, part, dest, c, c.pc.partLen, c.expected, a.disk);
    } else if a.Publish? && c.pc.Verified? {
      RenameMoves(cfg, part, dest, c, c.pc.received, c.pc.total, if a.disk.Full? then Broken else a.disk);
    } else if c.pc.Attempting? || c.pc.Locked? {
      BeginMoves(cfg, part, dest, c, a);
    } else {
      RequestMoves(cfg, part, dest, c, a);
    }
  }

  lemma BeginMoves(cfg: Config, part: File, dest: File, c: Caller, a: Action)
    requires c.pc.Attempting? || c.pc.Locked?
    ensures Moves(cfg, part, dest, c, Attempt(cfg, part, dest, c, a))
  {
  }

  lemma RequestMoves(cfg: Config, part: File, dest: File, c: Caller, a: Action)
    requires c.pc.Comparing? || c.pc.Requesting? || c.pc.Rejected? || c.pc.Backoff?
      || (!a.Publish? && (c.pc.PublishingPart? || c.pc.Verified?))
    ensures Moves(cfg, part, dest, c, Attempt(cfg, part, dest, c, a))
  {
  }

  lemma RespondedMoves(cfg: Config, part: File, dest: File, c: Caller, n: nat, answer: Answer, disk: Disk,
                       removeFails: bool)
    requires c.pc.Sent?
    ensures Moves(cfg, part, dest, c, Responded(cfg, part, dest, c, n, answer, disk, removeFails))
  {
  }

  lemma WroteMoves(cfg: Config, part: File, dest: File, c: Caller, a: Action)
    requires c.pc.Streaming? && a.Chunk?
    ensures Moves(cfg, part, dest, c,
                  Wrote(cfg, part, dest, c, c.pc.received, c.pc.total, a.data, a.written, a.disk, a.enough))
  {
  }

  lemma FetchMoves(cfg: Config, part: File, dest: File, c: Caller, a: Action)
    requires c.pc.Sent? || c.pc.Streaming? || c.pc.Drained?
    ensures Moves(cfg, part, dest, c, Fetch(cfg, part, dest, c, a))
  {
    if c.pc.Sent? && a.Respond? {
      RespondedMoves(cfg, part, dest, c, c.pc.partLen, a.answer, a.disk, a.removeFails);
    } else if c.pc.Streaming? && a.Chunk? {
      WroteMoves(cfg, part, dest, c, a);
    }
  }

  lemma ActMoves(cfg: Config, part: File, dest: File, c: Caller, a: Action)
    requires c.published ==> c.pc == Returned(true)
    ensures Moves(cfg, part, dest, c, Act(cfg, part, dest, c, a))
  {
    if c.pc.Returned? || a.Cancel? {
    } else if !Holds(c.pc) {
      QueueMoves(cfg, part, dest, c, a);
    } else if c.pc.Sent? || c.pc.Streaming? || c.pc.Drained? {
      FetchMoves(cfg, part, dest, c, a);
    } else {
      AttemptMoves(cfg, part, dest, c, a);
    }
  }

  /** The facts about the `.part` file that a call relies on while it holds the lock. */
  ghost predicate PartReady(cfg: Config, part: File, pc: Pc) {
    && (pc.PublishingPart? || pc.Verified? ==> cfg.Matches(part))
    && (pc.Streaming? || pc.Drained? ==> part.Present?)
  }

  lemma ActKeeps(cfg: Config, part: File, dest: File, c: Caller, a: Action)
    requires Local(cfg, part, c)
    ensures var e := Act(cfg, part, dest, c, a); Local(cfg, e.part, e.caller) && Moves(cfg, part, dest, c, e)
  {
    ActMoves(cfg, part, dest, c, a);
    if c.pc.Returned? {
      ActStays(cfg, part, dest, c, a);
    } else {
      MovesKeep(cfg, part, dest, c, Act(cfg, part, dest, c, a));
    }
  }

  lemma MovesKeep(cfg: Config, part: File, dest: File, c: Caller, e: Effect)
    requires Local(cfg, part, c) && Moves(cfg, part, dest, c, e) && !c.pc.Returned?
    ensures Local(cfg, e.part, e.caller)
  {
    ReportsKept(c, e.caller);
    BudgetKept(cfg, c, e.caller);
  }

  lemma ReportsKept(c: Caller, c': Caller)
    requires Reports(c) && ReportsStep(c, c') && !c.pc.Returned?
    ensures Reports(c')
  {
  }

  lemma BudgetKept(cfg: Config, c: Caller, c': Caller)
    requires WithinBudget(cfg, c) && CountsStep(cfg, c, c') && !c.pc.Returned?
    ensures WithinBudget(cfg, c')
  {
  }

  lemma ActStays(cfg: Config, part: File, dest: File, c: Caller, a: Action)
    requires c.pc.Returned?
    ensures Act(cfg, part, dest, c, a) == Effect(part, dest, c)
  {
  }

  /** Only the lock holder touches the `.part` file or the destination. */
  lemma OnlyHolderWrites(cfg: Config, part: File, dest: File, c: Caller, a: Action)
    requires !Holds(c.pc)
    ensures var e := Act(cfg, part, dest, c, a); e.part == part && e.dest == dest && (Holds(e.caller.pc) ==> a.Acquire?)
  {
  }

  lemma StepKeeps(cfg: Config, s: State, i: nat, a: Action)
    requires Invariant(cfg, s)
    ensures Invariant(cfg, Step(cfg, s, i, a))
  {
    var s' := Step(cfg, s, i, a);
    if i < |s.callers| && !(a.Acquire? && s.lock.Some?) {
      var c := s.callers[i];
      ActKeeps(cfg, s.part, s.dest, c, a);
      if !Holds(c.pc) {
        OnlyHolderWrites(cfg, s.part, s.dest, c, a);
      }
      forall j | 0 <= j < |s'.callers|
        ensures Local(cfg, s'.part, s'.callers[j]) && (Holds(s'.callers[j].pc) <==> s'.lock == Some(j))
      {
        if j != i {
          assert s'.callers[j] == s.callers[j];
          assert Local(cfg, s.part, s.callers[j]) && (Holds(s.callers[j].pc) <==> s.lock == Some(j));
          OthersUnaffected(cfg, s.part, s'.part, s.callers[j]);
        }
      }
    }
  }

  lemma OthersUnaffected(cfg: Config, part: File, part': File, c: Caller)
    requires Local(cfg, part, c) && (part' == part || !Holds(c.pc))
    ensures Local(cfg, part', c)
  {
  }

  lemma {:induction false} RunKeeps(cfg: Config, s: State, steps: seq<(nat, Action)>)
    requires Invariant(cfg, s)
    ensures Invariant(cfg, Run(cfg, s, steps))
    decreases |steps|
  {
    if steps != [] {
      StepKeeps(cfg, s, steps[0].0, steps[0].1);
      RunKeeps(cfg, Step(cfg, s, steps[0].0, steps[0].1), steps[1..]);
    }
  }

  lemma InitialInvariant(cfg: Config, s: State)
    requires Initial(s)
    ensures Invariant(cfg, s)
  {
  }

  /** In every run, from any files on disk: the callers that hold the lock are at most one; a call that returned Err
      did not change the destination; done is reported once and last exactly by calls that returned Ok; and no call
      sends more GETs than its budget. */
  lemma EveryRunIsSafe(cfg: Config, s: State, steps: seq<(nat, Action)>)
    requires Initial(s)
    ensures var s' := Run(cfg, s, steps);
      && (forall i, j :: 0 <= i < j < |s'.callers| ==> !(Holds(s'.callers[i].pc) && Holds(s'.callers[j].pc)))
      && (forall i :: 0 <= i < |s'.callers| ==>
            && Reports(s'.callers[i])
            && s'.callers[i].gets <= Budget(cfg)
            && (s'.callers[i].pc == Returned(false) ==> !s'.callers[i].published))
  {
    InitialInvariant(cfg, s);
    RunKeeps(cfg, s, steps);
    var s' := Run(cfg, s, steps);
    forall i | 0 <= i < |s'.callers|
      ensures Reports(s'.callers[i]) && s'.callers[i].gets <= Budget(cfg)
      ensures s'.callers[i].pc == Returned(false) ==> !s'.callers[i].published
    {
      assert Local(cfg, s'.part, s'.callers[i]);
    }
  }

  /** At every point of every run, a step that changes the destination renames a `.part` whose bytes have the pinned
      digest, and the caller taking it returns Ok. */
  lemma EveryPublishIsVerified(cfg: Config, s: State, steps: seq<(nat, Action)>, i: nat, a: Action)
    requires Initial(s)
    ensures var before := Run(cfg, s, steps); var after := Step(cfg, before, i, a);
      after.dest != before.dest ==>
        && i < |after.callers| && after.callers[i].pc == Returned(true)
        && cfg.Matches(before.part) && after.dest == before.part
  {
    InitialInvariant(cfg, s);
    RunKeeps(cfg, s, steps);
    var before := Run(cfg, s, steps);
    if i < |before.callers| {
      var c := before.callers[i];
      assert Local(cfg, before.part, c);
      ActKeeps(cfg, before.part, before.dest, c, a);
    }
  }
}
