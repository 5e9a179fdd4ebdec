/** An undisturbed ingest indexes its source: in one add, through a building table in any number of batches, or with no
    chunks at all. */
module IngestLiveness {
  import opened Wrappers
  import opened Numbers
  import opened Ingest

  function Populating(batches: seq<nat>): seq<Action> {
    if batches == [] then [] else [Populate(batches[0])] + Populating(batches[1..])
  }

  /** The steps of an undisturbed ingest between the committed chunks and the bookkeeping. */
  function StoringSteps(count: nat, isPdf: bool, orphans: set<nat>, table: nat, batches: seq<nat>): seq<Action> {
    if count == 0 then []
    else if !isPdf then [MarkEmbedding, Add]
    else [MarkEmbedding, Sweep(orphans), Create(table), Seed] + Populating(batches) + [Flip]
  }

  /** A whole ingest. */
  function IngestSteps(w: World, id: Id, content: Content, isPdf: bool, orphans: set<nat>, table: nat,
                       batches: seq<nat>): seq<Action> {
    [Begin(id, content, isPdf), MarkParsing, DropAll, Commit]
    + StoringSteps(w.count(content), isPdf, orphans, table, batches) + [Record, Finish]
  }

  /** The run stands at `pc`, in good order. */
  ghost predicate Stands(w: World, s: State, r: Run, pc: Pc) {
    s.run == Some(r.(pc := pc)) && r.id in s.sources && RunOk(w, s)
  }

  /** Up to the committed chunks, whatever the two stores held before. */
  lemma Prepares(w: World, s: State, id: Id, content: Content, isPdf: bool)
    requires s.run.None? && id in s.sources && !ShortCut(w, s, id, content)
    ensures var s' := RunAll(w, s, [Begin(id, content, isPdf), MarkParsing, DropAll, Commit]);
      s'.run == Some(Run(id, content, isPdf, s.serial, Committed)) && id in s'.sources && RunOk(w, s')
        && s'.building == s.building
  {
    var r := Run(id, content, isPdf, s.serial, Started);
    var s1 := Step(w, s, Begin(id, content, isPdf));
    FourSteps(w, s, Begin(id, content, isPdf), MarkParsing, DropAll, Commit);
    assert Stands(w, s1, r, Started);
    DropsOld(w, s1, r);
    RunStepContained(w, Step(w, Step(w, s1, MarkParsing), DropAll), Commit);
  }

  lemma DropsOld(w: World, s: State, r: Run)
    requires Stands(w, s, r, Started)
    ensures var s' := Step(w, Step(w, s, MarkParsing), DropAll); Stands(w, s', r, Dropped) && s'.building == s.building
  {
    RunStepContained(w, s, MarkParsing);
    RunStepContained(w, Step(w, s, MarkParsing), DropAll);
  }

  lemma MarksEmbedding(w: World, s: State, r: Run)
    requires Stands(w, s, r, Committed) && w.count(r.content) > 0
    ensures var s' := Step(w, s, MarkEmbedding); Stands(w, s', r, MarkedEmbedding) && s'.building == s.building
  {
    RunStepContained(w, s, MarkEmbedding);
  }

  lemma CreatesTable(w: World, s: State, r: Run, orphans: set<nat>, t: nat)
    requires Stands(w, s, r, MarkedEmbedding) && r.isPdf && t !in s.building - orphans
    ensures Stands(w, Step(w, Step(w, s, Sweep(orphans)), Create(t)), r, Created(t))
  {
    RunStepContained(w, s, Sweep(orphans));
    RunStepContained(w, Step(w, s, Sweep(orphans)), Create(t));
  }

  lemma Adds(w: World, s: State, r: Run)
    requires Stands(w, s, r, Committed) && !r.isPdf && w.count(r.content) > 0
    ensures Stands(w, RunAll(w, s, [MarkEmbedding, Add]), r, Stored)
  {
    TwoSteps(w, s, MarkEmbedding, Add);
    MarksEmbedding(w, s, r);
    RunStepContained(w, Step(w, s, MarkEmbedding), Add);
  }

  lemma SeedsTable(w: World, s: State, r: Run, orphans: set<nat>, t: nat)
    requires Stands(w, s, r, Committed) && r.isPdf && w.count(r.content) > 0 && t !in s.building - orphans
    ensures Stands(w, RunAll(w, s, [MarkEmbedding, Sweep(orphans), Create(t), Seed]), r, Seeded(t, 0))
  {
    FourSteps(w, s, MarkEmbedding, Sweep(orphans), Create(t), Seed);
    var s1 := Step(w, s, MarkEmbedding);
    MarksEmbedding(w, s, r);
    CreatesTable(w, s1, r, orphans, t);
    RunStepContained(w, Step(w, Step(w, s1, Sweep(orphans)), Create(t)), Seed);
  }

  lemma PopulatesBatch(w: World, s: State, r: Run, t: nat, done: nat, b: nat)
    requires Stands(w, s, r, Seeded(t, done))
    ensures Stands(w, Step(w, s, Populate(b)), r, Seeded(t, Min(done + b, w.count(r.content))))
  {
    RunStepContained(w, s, Populate(b));
  }

  lemma {:induction false} PopulatesTable(w: World, s: State, r: Run, t: nat, done: nat, batches: seq<nat>)
    requires Stands(w, s, r, Seeded(t, done))
    ensures Stands(w, RunAll(w, s, Populating(batches)), r,
                   Seeded(t, Min(done + Sum(batches), w.count(r.content))))
    decreases |batches|
  {
    if batches != [] {
      var b := batches[0];
      var s' := Step(w, s, Populate(b));
      PopulatesBatch(w, s, r, t, done, b);
      PopulatesTable(w, s', r, t, Min(done + b, w.count(r.content)), batches[1..]);
      SumCons(b, batches[1..]);
      assert [b] + batches[1..] == batches;
      assert Populating(batches)[1..] == Populating(batches[1..]);
    }
  }

  lemma Flips(w: World, s: State, r: Run, t: nat)
    requires Stands(w, s, r, Seeded(t, w.count(r.content)))
    ensures Stands(w, RunAll(w, s, [Flip]), r, Stored)
  {
    RunStepContained(w, s, Flip);
    assert [Flip][1..] == [];
    assert RunAll(w, s, [Flip]) == RunAll(w, Step(w, s, Flip), []);
  }

  lemma Streams(w: World, s: State, r: Run, orphans: set<nat>, t: nat, batches: seq<nat>)
    requires Stands(w, s, r, Committed) && r.isPdf && w.count(r.content) > 0
    requires t !in s.building - orphans && Sum(batches) >= w.count(r.content)
    ensures Stands(w, RunAll(w, s, [MarkEmbedding, Sweep(orphans), Create(t), Seed] + Populating(batches) + [Flip]),
                   r, Stored)
  {
    var open := [MarkEmbedding, Sweep(orphans), Create(t), Seed];
    SeedsTable(w, s, r, orphans, t);
    PopulatesTable(w, RunAll(w, s, open), r, t, 0, batches);
    RunAllConcat(w, s, open, Populating(batches));
    Flips(w, RunAll(w, s, open + Populating(batches)), r, t);
    RunAllConcat(w, s, open + Populating(batches), [Flip]);
  }

  lemma Finishes(w: World, s: State, r: Run)
    requires Stands(w, s, r, Stored) || (Stands(w, s, r, Committed) && w.count(r.content) == 0)
    ensures var s' := RunAll(w, s, [Record, Finish]);
      && s'.run.None? && r.id in s'.sources && s'.sources[r.id].status.Indexed?
      && CompleteFrom(w, s', r.id, r.serial, r.content)
  {
    TwoSteps(w, s, Record, Finish);
    RunStepContained(w, s, Record);
  }

  lemma StoresAll(w: World, s: State, r: Run, orphans: set<nat>, t: nat, batches: seq<nat>)
    requires Stands(w, s, r, Committed) && t !in s.building - orphans && Sum(batches) >= w.count(r.content)
    ensures var s' := RunAll(w, s, StoringSteps(w.count(r.content), r.isPdf, orphans, t, batches));
      Stands(w, s', r, Stored) || (Stands(w, s', r, Committed) && w.count(r.content) == 0)
  {
    if w.count(r.content) > 0 {
      if r.isPdf {
        Streams(w, s, r, orphans, t, batches);
      } else {
        Adds(w, s, r);
      }
    }
  }

  /** An undisturbed ingest of changed content ends indexed and complete, whatever the stores held before: of any kind
      of source, in any batches that add up, with any number of chunks, none included. */
  lemma UndisturbedIngestIndexes(w: World, s: State, id: Id, content: Content, isPdf: bool,
                                                    orphans: set<nat>, t: nat, batches: seq<nat>)
    requires s.run.None? && id in s.sources && !ShortCut(w, s, id, content)
    requires t !in s.building - orphans && Sum(batches) >= w.count(content)
    ensures var s' := RunAll(w, s, IngestSteps(w, id, content, isPdf, orphans, t, batches));
      && s'.run.None? && id in s'.sources && s'.sources[id].status.Indexed?
      && CompleteFrom(w, s', id, s.serial, content)
  {
    var start := [Begin(id, content, isPdf), MarkParsing, DropAll, Commit];
    var store := StoringSteps(w.count(content), isPdf, orphans, t, batches);
    var r := Run(id, content, isPdf, s.serial, Committed);
    Prepares(w, s, id, content, isPdf);
    StoresAll(w, RunAll(w, s, start), r, orphans, t, batches);
    RunAllConcat(w, s, start, store);
    Finishes(w, RunAll(w, s, start + store), r);
    RunAllConcat(w, s, start + store, [Record, Finish]);
  }

  /** The wipe: whatever of the source's vectors is dropped first, its chunks and vectors are then gone. */
  lemma Wipes(w: World, s: State, id: Id, content: Content, isPdf: bool, lost: set<Chunk>)
    requires s.run.None? && id in s.sources && !ShortCut(w, s, id, content)
    ensures var s' := RunAll(w, s, [Begin(id, content, isPdf), StartWipe, DropSome(lost), Commit]);
      && s'.run == Some(Run(id, content, isPdf, s.serial, Wiping)) && id in s'.sources
      && s'.sources[id].chunks == {} && Rows(s'.active, id) == {}
  {
    FourSteps(w, s, Begin(id, content, isPdf), StartWipe, DropSome(lost), Commit);
  }

  /** An undisturbed ingest of content that needs something first, as by optical character recognition, ends with the
      source marked so, without chunks or vectors, whatever it held before. */
  lemma UndisturbedWipeEnds(w: World, s: State, id: Id, content: Content, isPdf: bool, lost: set<Chunk>, status: Status)
    requires s.run.None? && id in s.sources && !ShortCut(w, s, id, content)
    requires status in {NeedsOcr, NeedsJs, RenderFailed}
    ensures var wipe := [Begin(id, content, isPdf), StartWipe, DropSome(lost), Commit];
      var s' := RunAll(w, s, wipe + [SetTerminal(status)]);
      && s'.run.None? && id in s'.sources && s'.sources[id].status == status
      && s'.sources[id].chunks == {} && Rows(s'.active, id) == {}
  {
    var wipe := [Begin(id, content, isPdf), StartWipe, DropSome(lost), Commit];
    Wipes(w, s, id, content, isPdf, lost);
    RunAllConcat(w, s, wipe, [SetTerminal(status)]);
    LastStep(w, RunAll(w, s, wipe), SetTerminal(status));
  }

  lemma LastStep(w: World, s: State, a: Action)
    ensures RunAll(w, s, [a]) == Step(w, s, a)
  {
    assert [a][1..] == [];
    assert RunAll(w, s, [a]) == RunAll(w, Step(w, s, a), []);
  }
}
