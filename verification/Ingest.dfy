/** Indexing a source across two stores (`ingest_source`, `index_extract_output`) with a failure or a crash possible
    between any two steps, and the startup recovery of `init`. */
module Ingest {
  import opened Wrappers

  datatype Status = Pending | Queued | Parsing | Embedding | Indexed | Error | NeedsOcr | NeedsJs | RenderFailed {
    predicate IsTransient() {
      Parsing? || Embedding?
    }
  }

  type Id = int
  type Content = int

  /** A chunk is named by the ingest run that made it and its position. */
  type Chunk = (nat, nat)

  /** Vector rows by source. */
  type Table = map<Id, set<Chunk>>

  function Rows(t: Table, id: Id): set<Chunk> {
    if id in t then t[id] else {}
  }

  /** How contents hash and into how many chunks they split. */
  datatype World = World(hash: Content -> int, count: Content -> nat)

  /** The first `n` chunks of a run. */
  function FirstChunks(serial: nat, n: nat): set<Chunk> {
    set k | 0 <= k < n :: (serial, k)
  }

  function ChunkSet(w: World, serial: nat, content: Content): set<Chunk> {
    FirstChunks(serial, w.count(content))
  }

  datatype Source = Source(status: Status, hash: Option<int>, chunks: set<Chunk>)

  /** How far the run has come; `Building` tables are for streamed PDFs, `Wiping` is the terminal-pending path. */
  datatype Pc = Started | MarkedParsing | Dropped | Committed | MarkedEmbedding
    | Created(table: nat) | Seeded(table: nat, done: nat) | Stored | Recorded | Wiping

  /** The run holding the ingest permit. */
  datatype Run = Run(id: Id, content: Content, isPdf: bool, serial: nat, pc: Pc)

  datatype State = State(sources: map<Id, Source>, active: Table, building: map<nat, Table>, run: Option<Run>,
                         serial: nat)

  datatype Action =
    | Begin(id: Id, content: Content, isPdf: bool)
    | MarkParsing
    | DropSome(lost: set<Chunk>)
    | DropAll
    | Commit
    | MarkEmbedding
    | Add
    | Sweep(tables: set<nat>)
    | Create(table: nat)
    | SeedSome(rows: Table)
    | Seed
    | Populate(batch: nat)
    | Flip
    | Record
    | Finish
    | StartWipe
    | SetTerminal(status: Status)
    | Fail(marks: bool, cancelled: bool)
    | Crash(collects: bool)
    | MarkRetry(id: Id)

  /** The unchanged-content short cut. */
  predicate ShortCut(w: World, s: State, id: Id, content: Content) {
    id in s.sources && s.sources[id].status.Indexed? && s.sources[id].hash == Some(w.hash(content))
  }

  function Marked(s: State, status: Status): State
    requires s.run.Some? && s.run.value.id in s.sources
  {
    var r := s.run.value;
    s.(sources := s.sources[r.id := s.sources[r.id].(status := status)])
  }

  function At(s: State, pc: Pc): State
    requires s.run.Some?
  {
    s.(run := Some(s.run.value.(pc := pc)))
  }

  function Recovered(sources: map<Id, Source>): map<Id, Source> {
    map id | id in sources :: if sources[id].status.IsTransient() then sources[id].(status := Error) else sources[id]
  }

  /** One step; an action that does not apply changes nothing. */
  function Step(w: World, s: State, a: Action): State {
    match a
    case Begin(id, content, isPdf) =>
      if s.run.Some? || id !in s.sources || ShortCut(w, s, id, content) then s
      else s.(run := Some(Run(id, content, isPdf, s.serial, Started)), serial := s.serial + 1)
    case MarkRetry(id) =>
      if id in s.sources && s.sources[id].status.Error? then
        s.(sources := s.sources[id := s.sources[id].(status := Parsing)])
      else s
    case Crash(collects) =>
      State(Recovered(s.sources), s.active, if collects then map[] else s.building, None, s.serial)
    case _ => if s.run.None? || s.run.value.id !in s.sources then s else RunStep(w, s, a)
  }

  /** A step of the run under way: a failure or cancellation ends it, its status update possibly failing too. */
  function RunStep(w: World, s: State, a: Action): State
    requires s.run.Some? && s.run.value.id in s.sources
  {
    var pc := s.run.value.pc;
    if a.Fail? then (if a.marks then Marked(s, if a.cancelled then Queued else Error) else s).(run := None)
    else if pc.Created? || pc.Seeded? then StreamStep(w, s, a)
    else if pc.Stored? || pc.Recorded? || pc.Wiping? then EndStep(w, s, a)
    else IndexStep(w, s, a)
  }

  /** Status to parsing, old vectors dropped, chunks committed, status to embedding, and the one-shot vector add. */
  function IndexStep(w: World, s: State, a: Action): State
    requires s.run.Some? && s.run.value.id in s.sources
  {
    var r := s.run.value;
    match r.pc
    case Started =>
      if a.MarkParsing? then At(Marked(s, Parsing), MarkedParsing)
      else if a.StartWipe? then At(s, Wiping)
      else s
    case MarkedParsing =>
      if a.DropSome? then s.(active := s.active[r.id := Rows(s.active, r.id) - a.lost])
      else if a.DropAll? then At(s.(active := s.active[r.id := {}]), Dropped)
      else s
    case Dropped =>
      if a.Commit? then
        At(s.(sources := s.sources[r.id := s.sources[r.id].(chunks := ChunkSet(w, r.serial, r.content))]), Committed)
      else s
    case Committed =>
      if a.MarkEmbedding? && w.count(r.content) > 0 then At(Marked(s, Embedding), MarkedEmbedding)
      else if a.Record? && w.count(r.content) == 0 then Hashed(w, s)
      else s
    case _ =>
      if a.Add? && !r.isPdf then
        At(s.(active := s.active[r.id := Rows(s.active, r.id) + s.sources[r.id].chunks]), Stored)
      else if a.Sweep? then s.(building := s.building - a.tables)
      else if a.Create? && r.isPdf && a.table !in s.building then
        At(s.(building := s.building[a.table := map[]]), Created(a.table))
      else s
  }

  /** The streamed path: a building table seeded with the other sources' rows, populated batch by batch,
      then flipped. */
  function StreamStep(w: World, s: State, a: Action): State
    requires s.run.Some? && s.run.value.id in s.sources
  {
    var r := s.run.value;
    match r.pc
    case Created(t) =>
      if a.SeedSome? then s.(building := s.building[t := a.rows - {r.id}])
      else if a.Seed? then At(s.(building := s.building[t := s.active - {r.id}]), Seeded(t, 0))
      else s
    case Seeded(t, done) =>
      if t !in s.building then s
      else if a.Populate? then Populated(w, s, t, done, a.batch)
      else if a.Flip? && done == w.count(r.content) then
        At(s.(active := s.building[t], building := s.building - {t}), Stored)
      else s
    case _ => s
  }

  function Populated(w: World, s: State, t: nat, done: nat, batch: nat): State
    requires s.run.Some? && t in s.building
  {
    var r := s.run.value;
    var next := if done + batch < w.count(r.content) then done + batch else w.count(r.content);
    var rows := Rows(s.building[t], r.id) + (FirstChunks(r.serial, next) - FirstChunks(r.serial, done));
    At(s.(building := s.building[t := s.building[t][r.id := rows]]), Seeded(t, next))
  }

  function Hashed(w: World, s: State): State
    requires s.run.Some? && s.run.value.id in s.sources
  {
    var r := s.run.value;
    At(s.(sources := s.sources[r.id := s.sources[r.id].(hash := Some(w.hash(r.content)))]), Recorded)
  }

  /** The bookkeeping at the end, and the terminal-pending path, which wipes before it changes the status. */
  function EndStep(w: World, s: State, a: Action): State
    requires s.run.Some? && s.run.value.id in s.sources
  {
    var r := s.run.value;
    match r.pc
    case Stored => if a.Record? then Hashed(w, s) else s
    case Recorded => if a.Finish? then Marked(s, Indexed).(run := None) else s
    case Wiping =>
      if a.DropSome? then s.(active := s.active[r.id := Rows(s.active, r.id) - a.lost])
      else if a.Commit? then
        s.(active := s.active[r.id := {}],
           sources := s.sources[r.id := s.sources[r.id].(chunks := {})])
      else if a.SetTerminal? && (a.status.NeedsOcr? || a.status.NeedsJs? || a.status.RenderFailed?) then
        Marked(s, a.status).(run := None)
      else s
    case _ => s
  }

  function RunAll(w: World, s: State, actions: seq<Action>): State
    decreases |actions|
  {
    if actions == [] then s else RunAll(w, Step(w, s, actions[0]), actions[1..])
  }

  /** After a crash and the recovery at the next start no source is left parsing or embedding: those two show as errors,
      and every other source is as it was. */
  lemma CrashRecovers(w: World, s: State, collects: bool, id: Id)
    requires id in s.sources
    ensures var s' := Step(w, s, Crash(collects)); var src, src' := s.sources[id], s'.sources[id];
      && s'.run.None? && s'.active == s.active && s'.sources.Keys == s.sources.Keys
      && s'.building == (if collects then map[] else s.building)
      && src'.hash == src.hash && src'.chunks == src.chunks
      && src'.status == if src.status in {Parsing, Embedding} then Error else src.status
  {
  }

  /** A failure or a cancel ends the run and, if it can still record it, leaves the source marked: an error to show, or
      queued again after a cancel. Nothing else of the source changes. */
  lemma FailureMarks(w: World, s: State, marks: bool, cancelled: bool)
    requires s.run.Some? && s.run.value.id in s.sources
    ensures var id := s.run.value.id; var s' := Step(w, s, Fail(marks, cancelled));
      && s'.run.None? && s'.active == s.active && s'.building == s.building && id in s'.sources
      && s'.sources[id].status == (if !marks then s.sources[id].status else if cancelled then Queued else Error)
      && s'.sources[id].hash == s.sources[id].hash && s'.sources[id].chunks == s.sources[id].chunks
      && forall j :: j in s.sources && j != id ==> j in s'.sources && s'.sources[j] == s.sources[j]
  {
  }

  /** The source is indexed with content of the same hash. */
  predicate IsCurrent(w: World, src: Source, content: Content) {
    src.status == Indexed && src.hash == Some(w.hash(content))
  }

  /** An ingest starts exactly when none is under way, the source is known, and it is not already indexed with content
      of the same hash; starting changes nothing that is stored. */
  lemma BeginsExactly(w: World, s: State, id: Id, content: Content, isPdf: bool)
    ensures var s' := Step(w, s, Begin(id, content, isPdf));
      && s'.sources == s.sources && s'.active == s.active && s'.building == s.building
      && (s' == s || s'.run == Some(Run(id, content, isPdf, s.serial, Started)))
      && (s' != s <==> s.run.None? && id in s.sources && !IsCurrent(w, s.sources[id], content))
  {
  }

  /** A retry shows a source that failed as being parsed again, and does nothing to any other. */
  lemma RetryMarks(w: World, s: State, id: Id, j: Id)
    requires j in s.sources
    ensures var s' := Step(w, s, MarkRetry(id)); var src, src' := s.sources[j], s'.sources[j];
      && s'.run == s.run && s'.active == s.active && s'.building == s.building && s'.sources.Keys == s.sources.Keys
      && src' == (if j == id && src.status == Error then src.(status := Parsing) else src)
  {
  }

  // ----- the invariant -----

  /** Chunks and active-table vectors are both the whole set from an ingest of content with the stored hash. */
  ghost predicate Complete(w: World, s: State, id: Id) {
    id in s.sources && exists serial, content :: CompleteFrom(w, s, id, serial, content)
  }

  ghost predicate CompleteFrom(w: World, s: State, id: Id, serial: nat, content: Content)
    requires id in s.sources
  {
    && s.sources[id].hash == Some(w.hash(content))
    && s.sources[id].chunks == ChunkSet(w, serial, content)
    && Rows(s.active, id) == s.sources[id].chunks
  }

  ghost predicate IsWiping(s: State, id: Id) {
    s.run.Some? && s.run.value.pc.Wiping? && s.run.value.id == id
  }

  /** Every indexed source is complete, except one whose terminal wipe is under way. */
  ghost predicate IndexedComplete(w: World, s: State) {
    forall id :: id in s.sources && s.sources[id].status.Indexed? && !IsWiping(s, id) ==> Complete(w, s, id)
  }

  /** A building table holds the other sources' active rows, and this run's chunks embedded so far. */
  ghost predicate SeededFrom(s: State, t: nat, id: Id, serial: nat, done: nat) {
    && t in s.building && Rows(s.building[t], id) == FirstChunks(serial, done)
    && forall j :: j != id ==> Rows(s.building[t], j) == Rows(s.active, j)
  }

  /** What the run has established at each point: the status is transient from before the wipe to the end. */
  ghost predicate RunOk(w: World, s: State) {
    s.run.Some? && s.run.value.id in s.sources ==>
      var r := s.run.value; var src := s.sources[r.id]; var fresh' := ChunkSet(w, r.serial, r.content);
      match r.pc
      case Started => true
      case Wiping => true
      case MarkedParsing => src.status.Parsing?
      case Dropped => src.status.Parsing? && Rows(s.active, r.id) == {}
      case Committed => src.status.Parsing? && Rows(s.active, r.id) == {} && src.chunks == fresh'
      case MarkedEmbedding => src.status.Embedding? && Rows(s.active, r.id) == {} && src.chunks == fresh'
      case Created(t) => src.status.Embedding? && src.chunks == fresh' && t in s.building
      case Seeded(t, done) =>
        src.status.Embedding? && src.chunks == fresh' && done <= w.count(r.content)
          && SeededFrom(s, t, r.id, r.serial, done)
      case Stored => src.status.IsTransient() && src.chunks == fresh' && Rows(s.active, r.id) == fresh'
      case Recorded => src.status.IsTransient() && CompleteFrom(w, s, r.id, r.serial, r.content)
  }

  ghost predicate Invariant(w: World, s: State) {
    IndexedComplete(w, s) && RunOk(w, s)
  }

  /** A crash, or a failure whose status update also fails, in the middle of a terminal wipe. */
  ghost predicate BreaksWipe(s: State, a: Action) {
    s.run.Some? && s.run.value.pc.Wiping? && (a.Crash? || (a.Fail? && !a.marks))
  }

  /** A step leaves the source's row and active vectors alone. */
  ghost predicate Untouched(s: State, s': State, id: Id) {
    id in s.sources && id in s'.sources && s'.sources[id] == s.sources[id] && Rows(s'.active, id) == Rows(s.active, id)
  }

  lemma UntouchedComplete(w: World, s: State, s': State, id: Id)
    requires Untouched(s, s', id)
    ensures Complete(w, s, id) <==> Complete(w, s', id)
  {
    if Complete(w, s, id) {
      var serial, content :| CompleteFrom(w, s, id, serial, content);
      assert CompleteFrom(w, s', id, serial, content);
    }
    if Complete(w, s', id) {
      var serial, content :| CompleteFrom(w, s', id, serial, content);
      assert CompleteFrom(w, s, id, serial, content);
    }
  }

  lemma GrowsChunks(serial: nat, done: nat, next: nat)
    requires done <= next
    ensures FirstChunks(serial, done) + (FirstChunks(serial, next) - FirstChunks(serial, done))
      == FirstChunks(serial, next)
  {
    assert FirstChunks(serial, done) <= FirstChunks(serial, next);
  }

  /** What a step of a run does: no other source's row or vectors change, and the run's own source is indexed afterwards
      only if it was left alone, or has just been completed. */
  ghost predicate Contained(w: World, s: State, s': State) {
    && s.run.Some? && s'.sources.Keys == s.sources.Keys
    && (forall j :: j in s.sources && j != s.run.value.id ==> Untouched(s, s', j))
    && OwnSource(w, s, s')
  }

  ghost predicate OwnSource(w: World, s: State, s': State)
    requires s.run.Some?
  {
    var r := s.run.value;
    r.id in s'.sources && s'.sources[r.id].status.Indexed? && !IsWiping(s', r.id) ==>
      || (Untouched(s, s', r.id) && !IsWiping(s, r.id))
      || CompleteFrom(w, s', r.id, r.serial, r.content)
  }

  lemma PopulatedKeeps(w: World, s: State, t: nat, done: nat, batch: nat)
    requires RunOk(w, s) && s.run.Some? && s.run.value.id in s.sources && s.run.value.pc == Seeded(t, done)
    ensures var s' := Populated(w, s, t, done, batch); RunOk(w, s') && Contained(w, s, s')
  {
    var r := s.run.value;
    var n := w.count(r.content);
    GrowsChunks(r.serial, done, if done + batch < n then done + batch else n);
  }

  lemma StreamStepKeeps(w: World, s: State, a: Action)
    requires RunOk(w, s) && s.run.Some? && s.run.value.id in s.sources
    requires s.run.value.pc.Created? || s.run.value.pc.Seeded?
    ensures var s' := StreamStep(w, s, a); RunOk(w, s') && Contained(w, s, s')
  {
    var r := s.run.value;
    assert FirstChunks(r.serial, 0) == {};
    if r.pc.Seeded? && a.Populate? {
      PopulatedKeeps(w, s, r.pc.table, r.pc.done, a.batch);
    }
  }

  lemma IndexStepKeeps(w: World, s: State, a: Action)
    requires RunOk(w, s) && s.run.Some? && s.run.value.id in s.sources
    requires s.run.value.pc.Started? || s.run.value.pc.MarkedParsing? || s.run.value.pc.Dropped?
    ensures var s' := IndexStep(w, s, a); RunOk(w, s') && Contained(w, s, s')
  {
  }

  lemma CommittedKeeps(w: World, s: State, a: Action)
    requires RunOk(w, s) && s.run.Some? && s.run.value.id in s.sources
    requires s.run.value.pc.Committed? || s.run.value.pc.MarkedEmbedding?
    ensures var s' := IndexStep(w, s, a); RunOk(w, s') && Contained(w, s, s')
  {
    assert w.count(s.run.value.content) == 0 ==> ChunkSet(w, s.run.value.serial, s.run.value.content) == {};
  }

  lemma EndStepKeeps(w: World, s: State, a: Action)
    requires RunOk(w, s) && s.run.Some? && s.run.value.id in s.sources
    requires s.run.value.pc.Stored? || s.run.value.pc.Recorded? || s.run.value.pc.Wiping?
    ensures var s' := EndStep(w, s, a); RunOk(w, s') && Contained(w, s, s')
  {
  }

  lemma RunStepContained(w: World, s: State, a: Action)
    requires RunOk(w, s) && s.run.Some? && s.run.value.id in s.sources && !BreaksWipe(s, a)
    ensures var s' := RunStep(w, s, a); RunOk(w, s') && Contained(w, s, s')
  {
    var pc := s.run.value.pc;
    if a.Fail? {
    } else if pc.Created? || pc.Seeded? {
      StreamStepKeeps(w, s, a);
    } else if pc.Stored? || pc.Recorded? || pc.Wiping? {
      EndStepKeeps(w, s, a);
    } else if pc.Committed? || pc.MarkedEmbedding? {
      CommittedKeeps(w, s, a);
    } else {
      IndexStepKeeps(w, s, a);
    }
  }

  lemma ContainedKeeps(w: World, s: State, s': State)
    requires IndexedComplete(w, s) && Contained(w, s, s')
    ensures IndexedComplete(w, s')
  {
    forall id | id in s'.sources && s'.sources[id].status.Indexed? && !IsWiping(s', id)
      ensures Complete(w, s', id)
    {
      if id != s.run.value.id || (Untouched(s, s', id) && !IsWiping(s, id)) {
        assert Untouched(s, s', id);
        UntouchedComplete(w, s, s', id);
      }
    }
  }

  lemma StepKeeps(w: World, s: State, a: Action)
    requires Invariant(w, s) && !BreaksWipe(s, a)
    ensures Invariant(w, Step(w, s, a))
  {
    var s' := Step(w, s, a);
    if a.Begin? || a.MarkRetry? || a.Crash? {
      forall id | id in s'.sources && s'.sources[id].status.Indexed? && !IsWiping(s', id)
        ensures Complete(w, s', id)
      {
        assert Untouched(s, s', id) && !IsWiping(s, id);
        UntouchedComplete(w, s, s', id);
      }
    } else if s.run.Some? && s.run.value.id in s.sources {
      RunStepContained(w, s, a);
      ContainedKeeps(w, s, s');
    }
  }

  /** Nothing indexed yet and no run under way. */
  ghost predicate Initial(s: State) {
    s.run.None? && forall id :: id in s.sources ==> !s.sources[id].status.Indexed?
  }

  // ----- runs -----

  lemma TwoSteps(w: World, s: State, a: Action, b: Action)
    ensures RunAll(w, s, [a, b]) == Step(w, Step(w, s, a), b)
  {
    assert [a, b][1..] == [b] && [b][1..] == [];
    assert RunAll(w, Step(w, s, a), [b]) == RunAll(w, Step(w, Step(w, s, a), b), []);
  }

  lemma FourSteps(w: World, s: State, a: Action, b: Action, c: Action, d: Action)
    ensures RunAll(w, s, [a, b, c, d]) == Step(w, Step(w, Step(w, Step(w, s, a), b), c), d)
  {
    assert [a, b, c, d][1..] == [b, c, d] && [b, c, d][1..] == [c, d] && [c, d][1..] == [d] && [d][1..] == [];
    var s3 := Step(w, Step(w, Step(w, s, a), b), c);
    assert RunAll(w, s3, [d]) == RunAll(w, Step(w, s3, d), []);
    assert RunAll(w, Step(w, Step(w, s, a), b), [c, d]) == RunAll(w, s3, [d]);
  }

  lemma {:induction false} RunAllConcat(w: World, s: State, a: seq<Action>, b: seq<Action>)
    ensures RunAll(w, s, a + b) == RunAll(w, RunAll(w, s, a), b)
    decreases |a|
  {
    if a == [] {
      assert a + b == b;
    } else {
      assert (a + b)[1..] == a[1..] + b;
      RunAllConcat(w, Step(w, s, a[0]), a[1..], b);
    }
  }
}
