/** What runs of ingests, failures, crashes and recoveries keep, and exactly when a terminal wipe that is cut off breaks
    the indexing promise. */
module IngestWipes {
  import opened Wrappers
  import opened Ingest

  // ----- the damage done by a wipe under way -----

  /** Some content with the stored hash has no chunks. */
  ghost predicate MayBeEmpty(w: World, src: Source) {
    exists c :: EmptyWithHash(w, src, c)
  }

  predicate EmptyWithHash(w: World, src: Source, c: Content) {
    src.hash == Some(w.hash(c)) && w.count(c) == 0
  }

  /** A wipe is under way on a source that is still indexed. */
  predicate WipesIndexed(s: State) {
    && s.run.Some? && s.run.value.pc.Wiping?
    && s.run.value.id in s.sources && s.sources[s.run.value.id].status.Indexed?
  }

  /** Whether the wipe under way has destroyed an index, after one more step: by dropping one of the source's vectors,
      or by deleting its chunk rows when its stored hash is not that of content without chunks. */
  ghost predicate Damaged(w: World, s: State, a: Action, damaged: bool) {
    && WipesIndexed(s)
    && var src := s.sources[s.run.value.id];
       if a.DropSome? then damaged || !(a.lost !! src.chunks)
       else if a.Commit? then !MayBeEmpty(w, src)
       else damaged
  }

  /** No crash, and no failure that also fails to mark the source, cuts off a wipe that has done damage. */
  ghost predicate Harmless(w: World, s: State, actions: seq<Action>, damaged: bool)
    decreases |actions|
  {
    actions != [] ==>
      && !(BreaksWipe(s, actions[0]) && WipesIndexed(s) && damaged)
      && Harmless(w, Step(w, s, actions[0]), actions[1..], Damaged(w, s, actions[0], damaged))
  }

  /** The promise holds at every point of the run. */
  ghost predicate AlwaysComplete(w: World, s: State, actions: seq<Action>)
    decreases |actions|
  {
    IndexedComplete(w, s) && (actions != [] ==> AlwaysComplete(w, Step(w, s, actions[0]), actions[1..]))
  }

  /** A source under a wipe: its chunk rows are whole or gone, and its vectors are some of them. */
  ghost predicate Remains(w: World, s: State, id: Id) {
    id in s.sources && exists serial, c :: RemainsFrom(w, s, id, serial, c)
  }

  ghost predicate RemainsFrom(w: World, s: State, id: Id, serial: nat, c: Content)
    requires id in s.sources
  {
    var src := s.sources[id];
    && src.hash == Some(w.hash(c)) && (src.chunks == ChunkSet(w, serial, c) || src.chunks == {})
    && Rows(s.active, id) <= src.chunks
  }

  /** While an indexed source is wiped, the damage recorded is the damage done. */
  ghost predicate Tracks(w: World, s: State, damaged: bool) {
    WipesIndexed(s) ==>
      var id := s.run.value.id; Remains(w, s, id) && (damaged <==> !Complete(w, s, id))
  }

  lemma NoChunks(w: World, serial: nat, c: Content)
    ensures ChunkSet(w, serial, c) == {} <==> w.count(c) == 0
  {
    if w.count(c) > 0 {
      assert (serial, 0) in ChunkSet(w, serial, c);
    }
  }

  lemma RemainsComplete(w: World, s: State, id: Id)
    requires Remains(w, s, id)
    ensures Complete(w, s, id) <==>
      Rows(s.active, id) == s.sources[id].chunks && (s.sources[id].chunks == {} ==> MayBeEmpty(w, s.sources[id]))
  {
    var src := s.sources[id];
    var serial, c :| RemainsFrom(w, s, id, serial, c);
    if Complete(w, s, id) {
      var n, d :| CompleteFrom(w, s, id, n, d);
      NoChunks(w, n, d);
      assert src.chunks == {} ==> EmptyWithHash(w, src, d);
    }
    if Rows(s.active, id) == src.chunks {
      if src.chunks != {} {
        assert CompleteFrom(w, s, id, serial, c);
      } else if MayBeEmpty(w, src) {
        var d :| EmptyWithHash(w, src, d);
        NoChunks(w, serial, d);
        assert CompleteFrom(w, s, id, serial, d);
      }
    }
  }

  lemma DropTracks(w: World, s: State, lost: set<Chunk>, damaged: bool)
    requires Tracks(w, s, damaged) && WipesIndexed(s)
    ensures Tracks(w, Step(w, s, DropSome(lost)), Damaged(w, s, DropSome(lost), damaged))
  {
    var s', id := Step(w, s, DropSome(lost)), s.run.value.id;
    var serial, c :| RemainsFrom(w, s, id, serial, c);
    assert RemainsFrom(w, s', id, serial, c);
    RemainsComplete(w, s, id);
    RemainsComplete(w, s', id);
  }

  lemma CommitTracks(w: World, s: State, damaged: bool)
    requires Tracks(w, s, damaged) && WipesIndexed(s)
    ensures Tracks(w, Step(w, s, Commit), Damaged(w, s, Commit, damaged))
  {
    var s', id := Step(w, s, Commit), s.run.value.id;
    var serial, c :| RemainsFrom(w, s, id, serial, c);
    assert RemainsFrom(w, s', id, serial, c);
    RemainsComplete(w, s', id);
    SameHash(w, s.sources[id], s'.sources[id]);
  }

  lemma SameHash(w: World, a: Source, b: Source)
    requires a.hash == b.hash
    ensures MayBeEmpty(w, a) <==> MayBeEmpty(w, b)
  {
    if c :| EmptyWithHash(w, a, c) {
      assert EmptyWithHash(w, b, c);
    }
    if c :| EmptyWithHash(w, b, c) {
      assert EmptyWithHash(w, a, c);
    }
  }

  lemma UntouchedTracks(w: World, s: State, s': State, damaged: bool)
    requires Tracks(w, s, damaged) && WipesIndexed(s) && s'.run == s.run && Untouched(s, s', s.run.value.id)
    ensures Tracks(w, s', damaged)
  {
    var id := s.run.value.id;
    var serial, c :| RemainsFrom(w, s, id, serial, c);
    assert RemainsFrom(w, s', id, serial, c);
    UntouchedComplete(w, s, s', id);
  }

  lemma IndexStepWipes(w: World, s: State, a: Action)
    requires s.run.Some? && s.run.value.id in s.sources && !s.run.value.pc.Wiping?
    ensures var s' := IndexStep(w, s, a); WipesIndexed(s') ==> s' == At(s, Wiping)
  {
  }

  lemma StreamStepWipes(w: World, s: State, a: Action)
    requires s.run.Some? && s.run.value.id in s.sources && !s.run.value.pc.Wiping?
    ensures !WipesIndexed(StreamStep(w, s, a))
  {
  }

  lemma EndStepWipes(w: World, s: State, a: Action)
    requires s.run.Some? && s.run.value.id in s.sources && !WipesIndexed(s)
    ensures !WipesIndexed(EndStep(w, s, a))
  {
  }

  /** A wipe begins with nothing changed yet. */
  lemma RunStepWipes(w: World, s: State, a: Action)
    requires s.run.Some? && s.run.value.id in s.sources && !WipesIndexed(s)
    ensures var s' := RunStep(w, s, a); WipesIndexed(s') ==> s' == At(s, Wiping)
  {
    var pc := s.run.value.pc;
    if a.Fail? {
    } else if pc.Created? || pc.Seeded? {
      StreamStepWipes(w, s, a);
    } else if pc.Stored? || pc.Recorded? || pc.Wiping? {
      EndStepWipes(w, s, a);
    } else {
      IndexStepWipes(w, s, a);
    }
  }

  lemma OnlyStartWipes(w: World, s: State, a: Action)
    requires RunOk(w, s) && !WipesIndexed(s)
    ensures var s' := Step(w, s, a); WipesIndexed(s') ==> s'.sources == s.sources && s'.active == s.active
  {
    if !(a.Begin? || a.MarkRetry? || a.Crash?) && s.run.Some? && s.run.value.id in s.sources {
      RunStepWipes(w, s, a);
    }
  }

  lemma StartTracks(w: World, s: State, a: Action)
    requires Invariant(w, s) && !WipesIndexed(s)
    ensures Tracks(w, Step(w, s, a), false)
  {
    var s' := Step(w, s, a);
    OnlyStartWipes(w, s, a);
    if WipesIndexed(s') {
      var id := s'.run.value.id;
      assert Untouched(s, s', id) && Complete(w, s, id);
      UntouchedComplete(w, s, s', id);
      var serial, c :| CompleteFrom(w, s', id, serial, c);
      assert RemainsFrom(w, s', id, serial, c);
    }
  }

  lemma StepTracks(w: World, s: State, a: Action, damaged: bool)
    requires Invariant(w, s) && Tracks(w, s, damaged)
    ensures Tracks(w, Step(w, s, a), Damaged(w, s, a, damaged))
  {
    if !WipesIndexed(s) {
      StartTracks(w, s, a);
    } else if a.DropSome? {
      DropTracks(w, s, a.lost, damaged);
    } else if a.Commit? {
      CommitTracks(w, s, damaged);
    } else {
      OtherStepTracks(w, s, a, damaged);
    }
  }

  /** A step that neither drops nor commits leaves the wipe as it was or ends it. */
  lemma WipeStaysOrEnds(w: World, s: State, a: Action)
    requires WipesIndexed(s) && !a.DropSome? && !a.Commit?
    ensures var s' := Step(w, s, a);
      WipesIndexed(s') ==> s'.run == s.run && Untouched(s, s', s.run.value.id)
  {
    if a.MarkRetry? || a.Begin? || a.Crash? {
    } else if a.Fail? {
    } else {
      assert Step(w, s, a) == EndStep(w, s, a);
    }
  }

  lemma OtherStepTracks(w: World, s: State, a: Action, damaged: bool)
    requires WipesIndexed(s) && Tracks(w, s, damaged) && !a.DropSome? && !a.Commit?
    ensures Tracks(w, Step(w, s, a), Damaged(w, s, a, damaged))
  {
    WipeStaysOrEnds(w, s, a);
    if WipesIndexed(Step(w, s, a)) {
      UntouchedTracks(w, s, Step(w, s, a), damaged);
    }
  }

  // ----- exactly when the promise is kept -----

  /** Cutting off a wipe keeps the promise if and only if the source was not indexed any more or the wipe had done no
      damage. */
  lemma BreakKeepsExactly(w: World, s: State, a: Action, damaged: bool)
    requires Invariant(w, s) && Tracks(w, s, damaged) && BreaksWipe(s, a)
    ensures RunOk(w, Step(w, s, a))
    ensures IndexedComplete(w, Step(w, s, a)) <==> !(WipesIndexed(s) && damaged)
  {
    var s' := Step(w, s, a);
    if !(a.Fail? && s.run.value.id !in s.sources) {
      if WipesIndexed(s) {
        UntouchedComplete(w, s, s', s.run.value.id);
      }
      if !(WipesIndexed(s) && damaged) {
        forall id | id in s'.sources && s'.sources[id].status.Indexed?
          ensures Complete(w, s', id)
        {
          assert Untouched(s, s', id);
          UntouchedComplete(w, s, s', id);
        }
      }
    }
  }

  lemma StepKeepsExactly(w: World, s: State, a: Action, damaged: bool)
    requires Invariant(w, s) && Tracks(w, s, damaged)
    ensures RunOk(w, Step(w, s, a))
    ensures IndexedComplete(w, Step(w, s, a)) <==> !(BreaksWipe(s, a) && WipesIndexed(s) && damaged)
  {
    if BreaksWipe(s, a) {
      BreakKeepsExactly(w, s, a, damaged);
    } else {
      StepKeeps(w, s, a);
    }
  }

  /** Along every run of ingests, failures, crashes and recoveries, every indexed source not being wiped is complete at
      every point if and only if no wipe of an indexed source is cut off after it has done damage. */
  lemma {:induction false} PromiseKeptExactly(w: World, s: State, actions: seq<Action>, damaged: bool)
    requires Invariant(w, s) && Tracks(w, s, damaged)
    ensures AlwaysComplete(w, s, actions) <==> Harmless(w, s, actions, damaged)
    decreases |actions|
  {
    if actions != [] {
      var s' := Step(w, s, actions[0]);
      StepKeepsExactly(w, s, actions[0], damaged);
      StepTracks(w, s, actions[0], damaged);
      if IndexedComplete(w, s') {
        PromiseKeptExactly(w, s', actions[1..], Damaged(w, s, actions[0], damaged));
      }
    }
  }

  lemma {:induction false} RunAllKeeps(w: World, s: State, actions: seq<Action>, damaged: bool)
    requires Invariant(w, s) && Tracks(w, s, damaged) && Harmless(w, s, actions, damaged)
    ensures Invariant(w, RunAll(w, s, actions))
    decreases |actions|
  {
    if actions != [] {
      StepKeepsExactly(w, s, actions[0], damaged);
      StepTracks(w, s, actions[0], damaged);
      RunAllKeeps(w, Step(w, s, actions[0]), actions[1..], Damaged(w, s, actions[0], damaged));
    }
  }

  /** From a store with nothing indexed, whenever the short cut skips an ingest the full index of content with the same
      hash is in place, provided no damaging wipe was cut off. */
  lemma ShortCutNeverSkipsMissingIndex(w: World, s: State, actions: seq<Action>, id: Id, content: Content)
    requires Initial(s) && Harmless(w, s, actions, false)
    ensures IndexedComplete(w, RunAll(w, s, actions))
    ensures var s' := RunAll(w, s, actions);
      ShortCut(w, s', id, content) && s'.run.None? ==>
        exists serial, c :: w.hash(c) == w.hash(content) && CompleteFrom(w, s', id, serial, c)
  {
    RunAllKeeps(w, s, actions, false);
    var s' := RunAll(w, s, actions);
    if ShortCut(w, s', id, content) && s'.run.None? {
      assert Complete(w, s', id);
      var serial, c :| CompleteFrom(w, s', id, serial, c);
      assert w.hash(c) == w.hash(content);
    }
  }

  // ----- other sources' vectors -----

  lemma StepKeepsRunOk(w: World, s: State, a: Action)
    requires RunOk(w, s)
    ensures RunOk(w, Step(w, s, a))
  {
    if !(a.Begin? || a.MarkRetry? || a.Crash?) && s.run.Some? && s.run.value.id in s.sources && !BreaksWipe(s, a) {
      RunStepContained(w, s, a);
    }
  }

  lemma {:induction false} RunAllKeepsRunOk(w: World, s: State, actions: seq<Action>)
    requires RunOk(w, s)
    ensures RunOk(w, RunAll(w, s, actions))
    decreases |actions|
  {
    if actions != [] {
      StepKeepsRunOk(w, s, actions[0]);
      RunAllKeepsRunOk(w, Step(w, s, actions[0]), actions[1..]);
    }
  }

  /** At every point of every run, whatever happens next, a broken wipe included, leaves the vectors of every source
      other than the one being ingested exactly as they were. */
  lemma OtherVectorsNeverLost(w: World, s: State, actions: seq<Action>, a: Action, j: Id)
    requires Initial(s)
    ensures var s' := RunAll(w, s, actions);
      j in s'.sources && !(s'.run.Some? && s'.run.value.id == j) ==>
        Rows(Step(w, s', a).active, j) == Rows(s'.active, j)
  {
    RunAllKeepsRunOk(w, s, actions);
    var s' := RunAll(w, s, actions);
    if a.Begin? || a.MarkRetry? || a.Crash? || a.Fail? {
    } else if j in s'.sources && s'.run.Some? && s'.run.value.id in s'.sources && s'.run.value.id != j {
      RunStepContained(w, s', a);
      assert Untouched(s', RunStep(w, s', a), j);
    }
  }

  // ----- a wipe cut off -----

  /** In any state of any such run with a wipe of a complete indexed source under way, whichever vectors are dropped
      before a crash or an unrecorded failure: the promise survives if and only if none of them is the source's. */
  lemma CutOffKeepsExactly(w: World, s: State, lost: set<Chunk>, end: Action)
    requires Invariant(w, s) && WipesIndexed(s) && Complete(w, s, s.run.value.id)
    requires end.Crash? || (end.Fail? && !end.marks)
    ensures var s' := RunAll(w, s, [DropSome(lost), end]);
      IndexedComplete(w, s') <==> lost !! s.sources[s.run.value.id].chunks
  {
    var id := s.run.value.id;
    var serial, c :| CompleteFrom(w, s, id, serial, c);
    assert RemainsFrom(w, s, id, serial, c);
    var s1 := Step(w, s, DropSome(lost));
    StepKeeps(w, s, DropSome(lost));
    DropTracks(w, s, lost, false);
    BreakKeepsExactly(w, s1, end, Damaged(w, s, DropSome(lost), false));
    TwoSteps(w, s, DropSome(lost), end);
  }

  /** So the window of the terminal wipe is real: whatever indexed source is wiped, for whatever new content, a crash
      after its vectors are gone leaves it indexed without them, and re-ingesting its old content is then skipped. */
  lemma BrokenWipeLosesIndex(w: World, s: State, id: Id, content: Content, other: Content, isPdf: bool)
    requires Invariant(w, s) && s.run.None? && ShortCut(w, s, id, content) && !ShortCut(w, s, id, other)
    requires s.sources[id].chunks != {}
    ensures var s' := RunAll(w, s, [Begin(id, other, isPdf), StartWipe, DropSome(s.sources[id].chunks), Crash(true)]);
      !IndexedComplete(w, s') && ShortCut(w, s', id, content) && Rows(s'.active, id) == {}
  {
    var lost := s.sources[id].chunks;
    FourSteps(w, s, Begin(id, other, isPdf), StartWipe, DropSome(lost), Crash(true));
    var s1 := Step(w, s, Begin(id, other, isPdf));
    var s2 := Step(w, s1, StartWipe);
    StepKeeps(w, s, Begin(id, other, isPdf));
    StepKeeps(w, s1, StartWipe);
    assert Complete(w, s, id);
    UntouchedComplete(w, s, s2, id);
    CutOffKeepsExactly(w, s2, lost, Crash(true));
    TwoSteps(w, s2, DropSome(lost), Crash(true));
    var serial, c :| CompleteFrom(w, s2, id, serial, c);
  }
}
