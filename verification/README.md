# Lens core: verified models

A Dafny model of the hard parts of `lens-core`, with proofs of what they promise. Five components are modelled:

1. **The parent/child chunker** (`KeptBlocks`, `ChunkSplit`, `ChunkParents`, `ChunkChildren`, `ChunkPacking`, `Chunker`,
   and the outline in `Sections`). Sources are UTF-8 byte strings (`Utf8`, held against code points in `Scalars`); the
   tokenizer is an arbitrary function from bytes to a count. `ChunkRuns` says how each child follows from those before
   it, `ChunkExact` and `ChunkWords` when the splitter panics, `WideSpace` gives a source on which it does.
2. **The resumable verified download** (`Download`, `DownloadResume`, `DownloadRetry`, `DownloadFailures`,
   `DownloadSpace`), a transition system over any number of callers, every server answer, disk failure and cancel. The
   hash is an arbitrary function.
3. **The grounded-answer pipeline** (`History`, `HistoryTurns`, `ContextFit`, `Redactor`, `RedactorStream`, `EchoedFence`,
   `AnswerStream`, `Citations`, `CitedLabels`, `CitationSource`). The provider, the search and the cancel token are
   arbitrary.
4. **Crash-safe indexing and the cancel registries** (`Ingest`, `IngestWipes`, `IngestLiveness`, `Registries`): indexing
   as ordered steps over two stores with a crash, failure or cancel possible between any two.
5. **The JSON salvage scanners** (`JsonSalvage`, `JsonText`, `JsonDepths`), over RFC 8259 text and over any text.

`Wrappers`, `Numbers`, `Chars`, `FirstSeen` and `Utf8` hold shared definitions. Code that updates state in the source is a class or a
method with loop invariants here; what the methods compute is tied to reference functions, and the laws are lemmas about
those.

Assumptions are written as preconditions or as the left side of an implication, never built in: the token bounds assume
that joining two texts across whitespace costs no more than the two apart and that one character costs at most 113 tokens
(`MergesCheaply`, `CheapChars`); the resume theorem assumes that no proper prefix of the artifact has the artifact's
digest (`Pins`) and that accepted ranges carry the artifact's own bytes (`Serves`).

## Where the code and its promises differ

- `find_split` documents a result in `1..=text.len()`. On an empty text it returns 0 or 1; on every other text the
  promise holds (`ChunkSplit.FindSplit`). No caller passes an empty text, because both splitting loops stop first, so
  the difference is in the documentation only.
- The termination guard of the child splitter advances by one byte. That is a character boundary exactly when the
  character at the frontier is one byte long (`ChunkChildren.FrontierIsBoundary`); otherwise it cuts the character in two,
  which panics. For prefix-monotone counts the children of a window are determined one after the other
  (`ChunkExact.RunsAgree`), and chunking panics if and only if the run over some window reaches such a frontier
  (`Chunker.ChunkBlocks`, with `ChunkRuns.StopsAt` and `ChunkExact.CanStop`). `WideSpace.WideSpacePanics` is a well-formed
  source, under a prefix-monotone count that meets the token assumptions above, on which the whole chunker panics. It
  never does when blocks of more than 129 tokens have only one-byte characters nor, for such counts, when they have no
  word of more than 113 tokens, in any script (`ChunkWords.ShortWordsNeverStop`).
- The redactor strips `<SRC:n>` out of `<<SRC:n>>` when a delta ends between the two closing brackets. Its output is the
  text without the markers if and only if no delta ends there (`RedactorStream.RedactsExactly`).
- The periodic space check is said to trip only on foreign consumption. It does not fire while the body stays within the
  probed length; past that length it fires exactly when less than the floor is left, and the default floor exceeds the
  default headroom (`DownloadSpace.CheckFiresExactly`, `DownloadSpace.OverlongBodyFires`).
- `set_terminal_pending` wipes before it changes the status. A crash, or a failure that also fails to mark the source, in
  between can leave a source indexed without its vectors, and the short cut then skips re-ingesting it
  (`IngestWipes.BrokenWipeLosesIndex`). Along every run the indexing promise is kept if and only if no wipe of an
  indexed source is cut off after it has dropped one of the source's vectors, or deleted its chunk rows when its stored
  hash is not that of content without chunks (`IngestWipes.PromiseKeptExactly`, `IngestWipes.CutOffKeepsExactly`).
- `preclean` is idempotent exactly on texts without two commas in a row before a closer
  (`JsonText.IdempotentUnlessDoubled`).

## Model

| member | source | states |
|---|---|---|
| `ChunkSplit.LastFitting` | lens-core/src/chunk.rs:912-950 | The binary search returns a fitting cut; for prefix-monotone counts it is the last fitting cut of its kind, or none fits. |
| `ChunkSplit.FindSplit` | lens-core/src/chunk.rs:897-951 | For every non-empty text a character boundary in 1..=len whose prefix fits unless it is the first character; for prefix-monotone counts the largest fitting whitespace boundary, else the largest fitting boundary, else one character. |
| `ChunkSplit.SplitOversized` | lens-core/src/chunk.rs:303-337 | The pieces of a block abut, run from its start to its end, and each fits the limit or is one character. |
| `ChunkParents.BuildParentWindows` | lens-core/src/chunk.rs:356-421 | Windows are ordered disjoint source slices over exactly the block bytes, closed only when the next block does not fit or cut from an oversized block, labelled by their first block, and within 513 tokens under the token assumptions. |
| `ChunkParents.SplitOversizedParentBlock` | lens-core/src/chunk.rs:432-463 | An oversized block becomes consecutive windows that cover it and keep the packing. |
| `ChunkChildren.OverlapBackOff` | lens-core/src/chunk.rs:752-795 | The next child starts at the earliest place after whitespace inside the previous one whose tail is within 16 tokens, if there is any. |
| `ChunkChildren.FrontierIsBoundary` | lens-core/src/chunk.rs:863-868 | The forced one-byte advance is a character boundary if and only if the cut passed the frontier or the character there is one byte long. |
| `ChunkChildren.HardSplitStep` | lens-core/src/chunk.rs:846-891 | The next hard-split child covers the frontier, starts strictly after the last child starts, at its earliest overlap seed or at the frontier when it has none, ends at the cut of the rest or one byte past the frontier, and keeps the token bound; or that end is no boundary, the character there being longer than one byte, and the step panics. |
| `ChunkChildren.HardSplitBounded` | lens-core/src/chunk.rs:852-868 | Through overlap and forced advance a hard-split child costs at most 129 tokens. |
| `ChunkChildren.SplitOversizedChildBlock` | lens-core/src/chunk.rs:835-895 | The loop terminates with children that follow one from the other and chain through the whole block, whatever the overlap, or panics; for prefix-monotone counts it panics if and only if a run over the window stops, by the end of this block, at a frontier that the cut does not pass and where a character of several bytes starts. |
| `ChunkPacking.FlushChildWindow` | lens-core/src/chunk.rs:698-747 | Exactly the open window becomes the next child and the window is cleared; children keep their chain, labels, overlap and bound. |
| `ChunkPacking.OpenWindow` | lens-core/src/chunk.rs:575-594 | The overlap seed is used exactly when it fits with the block, and the window may follow the children. |
| `ChunkPacking.Reopen` | lens-core/src/chunk.rs:596-624 | Closing a window and opening the next adds one child and leaves a window seeded from its tail. |
| `ChunkPacking.PackBlock` | lens-core/src/chunk.rs:551-629 | Every branch of the packing loop keeps children plus open window covering the blocks so far, the window's tokens those of its overlap and blocks, and each child the one that follows those before it. |
| `ChunkPacking.BuildChildChunks` | lens-core/src/chunk.rs:529-638 | A parent's children chain from its start to its end over all its block bytes, packed greedily, overlapping by at most 16 tokens, within 129 tokens under the assumptions; for prefix-monotone counts it panics if and only if some run over the window stops. |
| `Chunker.RetileChildTokenOffsets` | lens-core/src/chunk.rs:659-694 | In place, each child gets the token range of its non-overlapping tile and nothing else of it changes. |
| `Chunker.RetiledTokensTile` | lens-core/src/chunk.rs:640-658 | Whatever the byte overlap, the retiled ranges meet end to start and run exactly over the parent's range. |
| `Chunker.RetiledWidths` | lens-core/src/chunk.rs:669-691 | No tile is negative when longer prefixes never cost less. |
| `Chunker.BuildGroup` | lens-core/src/chunk.rs:236-277 | A parent and its children: slices inside it, strictly increasing at both ends, sharing its start and end, a run over the window whose token ranges are retiled to tile the parent's; or a panic, exactly when that run stops. |
| `Chunker.ChunkBlocks` | lens-core/src/chunk.rs:211-285 | For every block list whose blocks with text are ordered disjoint source slices: the blocks kept are exactly those that hold a character other than whitespace, in order; every byte of such a block is in a parent and one of its children; every chunk is its source slice, parents' token ranges meet from zero, children's tile their parent's and are not negative for prefix-monotone counts, and the bounds 513 and 129 hold under the assumptions. For prefix-monotone counts it panics if and only if the run over some parent window stops; it does not when blocks over 129 tokens have one-byte characters or, under the assumptions, no word over 113 tokens. |
| `KeptBlocks.NonBlankKept` | lens-core/src/chunk.rs:211-217 | The blocks kept stand at increasing places of the given list, which are exactly those of the blocks that hold a character other than whitespace. |
| `KeptBlocks.KeptOfSource` | lens-core/src/chunk.rs:211-217 | So they are ordered disjoint source slices over exactly the bytes of the blocks that hold text. |
| `Scalars.WhitespaceExactly` | lens-core/src/chunk.rs:211-217 | The bytes of a code point count as whitespace if and only if it has the White_Space property. |
| `Scalars.ValidDecodes` | lens-core/src/citation_source.rs:84-95 | A buffer that passes the UTF-8 validation is the encoding of a sequence of code points. |
| `Scalars.EncodedValid` | lens-core/src/citation_source.rs:84-95 | Every such encoding passes it. |
| `Chunker.OneParentPerByte` | lens-core/src/chunk.rs:356-421 | No byte lies in two parents. |
| `Chunker.ParentsTileTotal` | lens-core/src/ingest.rs:961-965 | The parents' token ranges tile zero to the total that ingest stores. |
| `ChunkExact.NextUnique` | lens-core/src/chunk.rs:529-638 | For prefix-monotone counts a window and its first children determine the next child, packed or cut. |
| `ChunkExact.RunsAgree` | lens-core/src/chunk.rs:529-638 | For such counts two runs of children over a window agree as far as both go. |
| `ChunkExact.StopsExactly` | lens-core/src/chunk.rs:846-870 | For prefix-monotone counts a run that covers a window's first blocks excludes every run that stops in them: whether the splitter panics depends on the window alone. |
| `ChunkWords.ShortWordsNeverStop` | lens-core/src/chunk.rs:846-870 | For prefix-monotone counts and under the token assumptions no run stops when oversized blocks have no stretch over 113 tokens that is free of whitespace after its first character. |
| `ChunkWords.NarrowNeverStops` | lens-core/src/chunk.rs:863-868 | Nor when oversized blocks have only one-byte characters. |
| `WideSpace.SplitterPanics` | lens-core/src/chunk.rs:835-895 | The splitter panics on a concrete one-block source whose cut falls back before a three-byte space. |
| `WideSpace.WideSpacePanics` | lens-core/src/chunk.rs:211-285 | So does the whole chunker, though the source is well-formed and the count monotone and within every token assumption. |
| `Sections.HeadingsExactly` | lens-core/src/section.rs:35-42 | The outline's headings are exactly the blocks of type `heading` with a section path, in order, each with its own text and start. |
| `Sections.SegmentsCounted` | lens-core/src/section.rs:39 | A path of segments joined by ` > ` counts as many segments. |
| `Sections.PathIsTrail` | lens-core/src/section.rs:39 | Every path is such a trail: splitting it from the left is unambiguous. |
| `Sections.BuildSections` | lens-core/src/section.rs:30-66 | One section per heading, its ordinal one plus the same-level headings since the last shallower one, its end the next heading that is not deeper or the document end. |
| `Sections.CountHeading` | lens-core/src/section.rs:46-53 | In place, the counters stay the number of headings of each level since the last shallower one. |
| `Sections.LevelOf` | lens-core/src/section.rs:39-40 | The level is the segment count capped at six when there are fewer than 256 segments, and always within 1..=6. |
| `Sections.OutlineIsLaminar` | lens-core/src/section.rs:54-58 | For every ordered block list a later section is after an earlier one's end, or inside it and strictly deeper. |
| `Download.StepKeeps` | lens-core/src/download.rs:286-375 | Every step of every caller keeps reports, budget, lock ownership and a verified part before a rename. |
| `Download.RunKeeps` | lens-core/src/download.rs:286-375 | So does every run. |
| `Download.OnlyHolderWrites` | lens-core/src/download.rs:83-90 | A caller without the write lock changes neither file. |
| `Download.EveryRunIsSafe` | lens-core/src/download.rs:286-575 | In every run at most one caller holds the lock, done is reported once and last exactly by calls that returned Ok, GETs stay within the budget, and a call that returned Err has not published. |
| `Download.EveryPublishIsVerified` | lens-core/src/download.rs:162-192 | At every point of every run, a step that changes the destination renames a part with the pinned digest and its call returns Ok. |
| `DownloadResume.StepResumes` | lens-core/src/download.rs:390-540 | Every step keeps the part a prefix of the artifact, request offsets equal to the part's length, what a stream has counted equal to what the server has sent, and the destination absent or the artifact. |
| `DownloadResume.ResumedEqualsOneShot` | lens-core/src/download.rs:390-503 | Against servers that send the artifact from where their answer says, through every break, cancel, retry and further call the part stays a prefix and any Ok has published exactly the artifact. |
| `DownloadRetry.AttemptCompletes` | lens-core/src/download.rs:379-575 | From a part of any length, one undisturbed attempt publishes the artifact, however its body is cut, with one GET, or with none when the part is complete. |
| `DownloadRetry.CallCompletes` | lens-core/src/download.rs:286-375 | A call whose first attempts, fewer than the budget, break off at any bytes, and whose next one is undisturbed, publishes the artifact, with one GET for each attempt that found the part incomplete. |
| `DownloadRetry.CallGivesUp` | lens-core/src/download.rs:355-375 | When every attempt the budget allows breaks off the call ends in an error, the part keeping all that was received. |
| `DownloadFailures.ErrsExactly` | lens-core/src/download.rs:355-375 | A step ends an open call in an error if and only if it is a cancel, a fatal failure, or a retryable failure with the budget used up; with budget left a retryable failure, and nothing else, makes it back off. |
| `DownloadFailures.SkipsExactly` | lens-core/src/download.rs:316-342 | A look at the destination ends the call if and only if a file of the probed length is there, touching and requesting nothing. |
| `DownloadFailures.RemovesExactly` | lens-core/src/download.rs:395-545 | A step removes the part if and only if it publishes it or the part cannot be built upon; every other failure keeps it. |
| `DownloadFailures.WritesExactly` | lens-core/src/download.rs:444-530 | A chunk is appended as far as it was stored, a 200 starts the part anew, a 206 goes on with it, and no other step changes what it holds. |
| `DownloadFailures.LengthsExactly` | lens-core/src/download.rs:305-314 | A probed length of zero says nothing and the probe is never revised; a stream's total is the probed length or a 206's size, a 200's own length first. |
| `DownloadFailures.ReportsLength` | lens-core/src/download.rs:332-336 | Every report before the last gives the length of the part at that moment. |
| `DownloadSpace.CheckFiresExactly` | lens-core/src/download.rs:585-637 | After a passed pre-flight, resumed or restarted, the check fires if and only if the body outran the probed length and less than the floor is left. |
| `DownloadSpace.StreamBody` | lens-core/src/download.rs:505-540 | The loop stops at the first check point at which the check fires, and at none otherwise. |
| `DownloadSpace.UncheckedIsShort` | lens-core/src/download.rs:533-535 | However a body is cut, less than an interval of bytes passes between chunks without a check. |
| `DownloadSpace.CheckedWhenDue` | lens-core/src/download.rs:533-535 | The space is checked after a chunk if and only if an interval of bytes has passed since the last check or the start. |
| `DownloadSpace.UnknownLength` | lens-core/src/download.rs:585-637 | Unknown lengths or free space pass the pre-flight, an unknown total is held to the floor, and unknown free space never fires the check. |
| `DownloadSpace.OwnWritesNeverFire` | lens-core/src/download.rs:484-540 | A body within the probed length is never stopped by the download's own writes, however it is cut. |
| `DownloadSpace.OverlongBodyFires` | lens-core/src/download.rs:616-637 | On the default thresholds a body one byte over the probed length trips the check. |
| `History.ChatLog.InsertUser` | lens-core/src/chat.rs:263-297 | Appends the row and keeps every turn starting with a user row. |
| `History.ChatLog.InsertAssistant` | lens-core/src/chat.rs:304-356 | Appends exactly when the turn has a user row, rejecting otherwise. |
| `History.ChatLog.InsertTerminalMarker` | lens-core/src/chat.rs:364-416 | As for answers, with the terminal flag set. |
| `History.HistoryMessages` | lens-core/src/chat.rs:468-521 | Exactly the last whole pairs within the limit of the complete turns before the current one, each once, in first-seen order, with its newest real answer. |
| `HistoryTurns.HistoryHolds` | lens-core/src/chat.rs:468-521 | The history is, pair by pair, the latest question and the newest real answer of the newest complete turns before the current one, in the order of the turns' first rows, as many as the limit allows. |
| `History.HistoryAlternates` | lens-core/src/chat.rs:512-520 | The history strictly alternates user and assistant and stays within the limit. |
| `ContextFit.BudgetHistory` | lens-core/src/answer.rs:379-400 | Drops the fewest whole leading pairs that meet the budget, always keeping the newest pair, and stays alternating. |
| `ContextFit.UsedIsSum` | lens-core/src/answer.rs:388-396 | What a history uses is the sum of its messages' measures. |
| `ContextFit.HistoryTextHolds` | lens-core/src/answer.rs:361-369 | The measured history text holds every message in its place, each followed by a line break. |
| `ContextFit.TrimmedShape` | lens-core/src/answer.rs:446-456 | `n` trims leave exactly the first units, one fewer each time down to one, and after that the history without as many leading pairs, down to one. |
| `ContextFit.FitToContext` | lens-core/src/answer.rs:417-470 | The first configuration in trim order that leaves 256 output tokens, or the last with one unit and one pair; its prompt is built from it, and the output budget takes all the room up to the reserve, at least one token. Cached counts equal a recount. |
| `ContextFit.RoomLeft` | lens-core/src/answer.rs:458-462 | The whole prompt fits if and only if the output budget keeps its minimum and all together stay within the context. |
| `Redactor.RemoveEach` | lens-core/src/answer.rs:277-281 | Removing occurrences one by one ends with the stripped text. |
| `Redactor.FenceRedactor.Push` | lens-core/src/answer.rs:263-270 | Emits the stripped buffer up to the longest tail that begins a marker and holds that tail. |
| `Redactor.FenceRedactor.Flush` | lens-core/src/answer.rs:273-276 | Emits the stripped rest and empties the buffer. |
| `Redactor.HeldTailIsBounded` | lens-core/src/answer.rs:289-302 | After every push the held tail begins a marker and is shorter than the longest one. |
| `Redactor.MarkerFreeUnchanged` | lens-core/src/answer.rs:263-302 | Marker-free text passes unchanged for every cutting. |
| `Redactor.OutputAfter` | lens-core/src/answer.rs:263-276 | A stream's output is what its first deltas emit, then the output of the rest from what they hold back. |
| `RedactorStream.StripAllItems` | lens-core/src/answer.rs:277-285 | Stripping a text of plain pieces and markers deletes exactly the markers. |
| `RedactorStream.RedactsExactly` | lens-core/src/answer.rs:241-302 | For every text of plain pieces and complete markers and every cutting, the output is the text without markers if and only if no delta ends between two closing brackets. |
| `RedactorStream.CutClosingLeaks` | lens-core/src/answer.rs:276-285 | A marker cut between its closing brackets leaves text behind, whatever the nonce. |
| `EchoedFence.EchoedFenceGoes` | lens-core/src/answer.rs:241-302 | Of `<<SRC:nonce>>`, a text and `<<END:nonce>>`, echoed anywhere in plain text and cut in any way, exactly the fence is missing if and only if no delta ends between the two closing brackets of either marker. |
| `EchoedFence.EchoedVariantGoes` | lens-core/src/answer.rs:241-251 | Of the single-bracket pair exactly the fence is missing, for every cutting. |
| `EchoedFence.EchoedExcerptGoes` | lens-core/src/prompt.rs:145-147 | An excerpt echoed as the prompt fenced it shows its text alone, under the same condition. |
| `EchoedFence.Stream` | lens-core/src/answer.rs:263-276 | Pushing every delta and flushing shows the output that these laws speak of. |
| `AnswerStream.Relay` | lens-core/src/answer.rs:714-753 | Relaying any provider sequence, one look at the cancel token before each item, keeps the staging; what is emitted, before a cancel, an error or the end, is the redactor's emission for the items taken so far, and a stage is announced exactly when an item needs it. |
| `AnswerStream.Generate` | lens-core/src/answer.rs:706-803 | From the opened stream on: the run ends complete if and only if no item is broken, the locators load and no look sees a cancel; it then shows exactly the redactor's output, the extracted citations of the whole answer text over the given units, and a done with its usage, grounding and count. |
| `AnswerStream.Answer` | lens-core/src/answer.rs:547-804 | A run ends silently if and only if one of the looks it would take sees a cancel. Otherwise it ends complete if and only if every service it needs answers and no item is broken, in the refusal if and only if the search finds nothing and no reindexing is under way, and in one error in every other case. It starts with its one retrieving stage, announces thinking and answering at most once and before their text, and shows what the redactor emits for the items taken; the provider is asked with the first fit of the budgeted history, and citations are over the units of that request. |
| `AnswerStream.RefusalExactly` | lens-core/src/answer.rs:651-660 | No completed answer can pass for the refusal. |
| `Citations.ParseMarkerList` | lens-core/src/citation.rs:124-140 | The numbers of a comma-separated list, all or nothing. |
| `Citations.ParseMarkers` | lens-core/src/citation.rs:88-118 | Exactly, in order, the numbers of every `[` whose text up to the next `]` is a valid list. |
| `Citations.NoBracketInList` | lens-core/src/citation.rs:105-116 | A valid list holds no bracket, so skipping past a marker misses none. |
| `Citations.ExtractCitations` | lens-core/src/citation.rs:151-202 | The loop over groups computes the grouping of the in-range numbers by source. |
| `Citations.MarkersExactly` | lens-core/src/citation.rs:92-116 | A number is a marker at a position if and only if it is one of a valid list between the `[` there and the next `]`. |
| `Citations.CitationsPartition` | lens-core/src/citation.rs:143-202 | Citations partition the cited numbers: sources in the order their first numbers appear, ordinals from one, increasing exact marker sets that are pairwise disjoint. |
| `Citations.AnswerCitations` | lens-core/src/citation.rs:156-164 | A number is cited if and only if it is in range and the number of some marker. |
| `Citations.CitationLocators` | lens-core/src/citation.rs:165-185 | Locators are distinct by chunk, cover every cited chunk and come from the citation's own numbers. |
| `Citations.CitationAnchors` | lens-core/src/citation.rs:165-185 | A locator carries the anchor of the first unit cited from its chunk. |
| `CitedLabels.TrimExactly` | lens-core/src/citation.rs:127 | Trimming takes away whitespace at both ends and nothing else. |
| `CitedLabels.PaddedListReads` | lens-core/src/citation.rs:124-140 | A comma-separated list of decimals with any whitespace around each reads back as exactly its numbers. |
| `ContextFit.BuildGroundedUser` | lens-core/src/answer.rs:164-195 | The loop writes the user message whose layout `CitedLabels.PromptLayout` gives character by character. |
| `CitedLabels.PromptLayout` | lens-core/src/answer.rs:164-195 | The message is the intro, then for each unit, directly after the one before it, `[`, the digits of its number counted from one, `]`, its title and its text between the fence markers, then the outro. |
| `CitedLabels.QuotedLabelIsMarker` | lens-core/src/answer.rs:190 | A label printed by the prompt reads back as its own number wherever an answer quotes it. |
| `CitedLabels.NumberNamesLabel` | lens-core/src/answer.rs:679-694 | Every number a citation holds stands as a label in the prompt built from the units left after trimming, directly before the title and text of the unit whose source and chunk the citation names. |
| `CitedLabels.QuotedLabelCited` | lens-core/src/answer.rs:446-451 | A quoted label is cited if and only if its unit survived the trimming, which kept its number: numbers of trimmed units are dropped. |
| `CitationSource.FloorBoundary` | lens-core/src/citation_source.rs:97-105 | The largest boundary at or before the offset, within three bytes of it in well-formed text. |
| `CitationSource.CeilBoundary` | lens-core/src/citation_source.rs:108-117 | The smallest boundary at or after the offset, within three bytes of it in well-formed text. |
| `CitationSource.CleanStartForms` | lens-core/src/citation_source.rs:121-130 | A clean start is the beginning, or follows a blank line, or one of `.`, `?`, `!` and a space. |
| `CitationSource.CleanEndForms` | lens-core/src/citation_source.rs:134-143 | A clean end is the end, or precedes a blank line, or stands between one of `.`, `?`, `!` and a space or line break. |
| `CitationSource.SnapStartOutward` | lens-core/src/citation_source.rs:147-158 | The nearest clean start within the budget, or the offset floored when there is none. |
| `CitationSource.SnapEndOutward` | lens-core/src/citation_source.rs:162-173 | The nearest clean end within the budget, or the offset ceiled when there is none. |
| `CitationSource.ClampSpan` | lens-core/src/citation_source.rs:178-183 | Any offsets give an ordered span on boundaries, widened outward from the clamped one. |
| `CitationSource.ComputeSnippet` | lens-core/src/citation_source.rs:189-222 | For every valid buffer and offsets: adjacent slices on boundaries, the marked one the clamped span or its head, at most 4099 bytes; on each side the base window and on to the nearest clean edge within reach, at most max(1200, marked + 486) bytes in all. |
| `CitationSource.ComputeSourceView` | lens-core/src/citation_source.rs:228-287 | Reassembles the whole buffer within the cap, else stays within the cap plus six bytes around the marked span, with an exact truncation flag. |
| `CitationSource.SliceValid` | lens-core/src/citation_source.rs:185-222 | Slices cut at boundaries are well-formed UTF-8. |
| `Ingest.StepKeeps` | lens-core/src/lib.rs:395-432 | Startup recovery, like every other step that breaks no wipe, keeps the invariant. |
| `Ingest.CrashRecovers` | lens-core/src/lib.rs:405-432 | After a crash and recovery no source is parsing or embedding: those show as errors, and every other source is as it was. |
| `Ingest.FailureMarks` | lens-core/src/ingest.rs:150-199 | A failure leaves the source marked as an error and a cancel as queued, with nothing else changed, unless the mark itself fails. |
| `Ingest.BeginsExactly` | lens-core/src/ingest.rs:347-359 | An ingest starts if and only if none is under way and the source is known and not indexed with content of the same hash. |
| `Ingest.RetryMarks` | lens-core/src/ingest.rs:210-245 | A retry marks a failed source as parsing and changes no other. |
| `IngestWipes.PromiseKeptExactly` | lens-core/src/ingest.rs:913-1136 | Along every run of ingests, failures, crashes and recoveries, every indexed source not being wiped is complete at every point if and only if no wipe of an indexed source is cut off after it has done damage. |
| `IngestWipes.RunAllKeeps` | lens-core/src/ingest.rs:134-210 | Every such run keeps the invariant of both stores. |
| `IngestWipes.BreakKeepsExactly` | lens-core/src/ingest.rs:1630-1645 | A crash or an unrecorded failure in a wipe keeps the promise if and only if the source was no longer indexed or nothing of it was lost. |
| `IngestWipes.CutOffKeepsExactly` | lens-core/src/ingest.rs:1647-1670 | In any state, for any source and any vectors dropped before the cut: the promise survives if and only if none of them is the source's. |
| `IngestWipes.BrokenWipeLosesIndex` | lens-core/src/ingest.rs:1630-1670 | Any indexed source with chunks whose wipe is cut off after its vectors are gone stays indexed without them, and the short cut then skips it. |
| `IngestWipes.ShortCutNeverSkipsMissingIndex` | lens-core/src/ingest.rs:347-359 | Whenever the short cut skips an ingest, chunks and active vectors are both the whole set from content with that hash. |
| `IngestWipes.OtherVectorsNeverLost` | lens-core/src/ingest.rs:1035-1122 | At every point of every run, the next step leaves the vectors of every source not being ingested as they were. |
| `IngestLiveness.UndisturbedIngestIndexes` | lens-core/src/ingest.rs:913-1136 | An undisturbed ingest ends indexed and complete, whatever the stores held before: in one add, through a building table in any batches, or with no chunks. |
| `IngestLiveness.UndisturbedWipeEnds` | lens-core/src/ingest.rs:1633-1670 | An undisturbed ingest that ends in a terminal status leaves the source so marked, without chunks or vectors. |
| `IngestLiveness.PopulatesTable` | lens-core/src/ingest.rs:1057-1089 | Batch by batch the building table gets every chunk once, whatever the batch sizes. |
| `Registries.CancelRegistry.Register` | lens-core/src/lib.rs:1363-1376 | A fresh uncancelled token replaces and cancels the registered one. |
| `Registries.CancelRegistry.Cancel` | lens-core/src/lib.rs:1375-1389 | Adds the registered token to the cancelled ones and reports whether there was one. |
| `Registries.CancelRegistry.DropGuard` | lens-core/src/lib.rs:1392-1407 | Removes the entry only while the guard's own token is registered. |
| `Registries.SingleRunsOk` | lens-core/src/lib.rs:1363-1541 | In every run of the superseding registries an uncancelled token with a live guard is the registered one of its notebook. |
| `Registries.AtMostOneLiveRun` | lens-core/src/lib.rs:1363-1421 | A notebook has at most one uncancelled run, and a cancel reaches it. |
| `Registries.DropEvictsOnlyItself` | lens-core/src/lib.rs:1391-1421 | No guard drop evicts or cancels another run's token. |
| `Registries.DownloadRegistry.Register` | lens-core/src/lib.rs:1547-1558 | Joins the registered download or starts one, counting the holder. |
| `Registries.DownloadRegistry.DropGuard` | lens-core/src/lib.rs:1573-1592 | Counts one holder down and clears the entry with the last. |
| `Registries.DownloadRegistry.Cancel` | lens-core/src/lib.rs:1559-1571 | Adds the shared token to the cancelled ones and reports whether there was a download. |
| `Registries.SharedRuns` | lens-core/src/lib.rs:1547-1604 | In every run holders share one token, the count is the number of live holders, and a register after the last release gets a fresh uncancelled token. |
| `JsonSalvage.Preclean` | lens-core/src/dialogue.rs:316-389 | Removes exactly the commas outside strings that directly precede a closer. |
| `JsonSalvage.ExtractJsonArray` | lens-core/src/dialogue.rs:397-430 | Returns the text from the first `[` through the `]` that brings both depths to zero, or nothing. |
| `JsonText.PrecleanPrinted` | lens-core/src/dialogue.rs:316-389 | A JSON text, any value between any whitespace, with trailing commas before any of its closers becomes the text without them; valid JSON is unchanged. |
| `JsonText.ExtractsPrintedArray` | lens-core/src/dialogue.rs:397-430 | From any prefix without `[`, any printed array and any suffix, exactly the array is extracted. |
| `JsonDepths.WalkExactly` | lens-core/src/dialogue.rs:397-430 | On any text the walk ends at the first `]` outside strings after which no bracket and no brace is left open, closers without an opener counting for nothing, and finds none if and only if there is none. |
| `JsonDepths.ClosesExactly` | lens-core/src/dialogue.rs:373-385 | A comma goes if and only if the next character after any ASCII whitespace is `]` or `}`. |
| `JsonText.LiteralsSurvive` | lens-core/src/dialogue.rs:356-372 | On any text every string literal survives unchanged. |
| `JsonText.IdempotentUnlessDoubled` | lens-core/src/dialogue.rs:373-385 | A second cleaning changes nothing if and only if no doubled comma precedes a closer. |
| `JsonText.DoubledCommaExample` | lens-core/src/dialogue.rs:373-385 | `[1,,]` is cleaned further by a second pass. |

## Left out

- Tokenizer encode errors: the count is total here, so the chunker's error return is not modelled.
- The provisional token offsets of children, which retiling overwrites; chunk ids (UUIDs and SHA-256 ids) and anchors.
- Chunker.ChunkBlocks: when it panics is exact for counts that never fall on longer prefixes; for other counts the binary
  search may return any fitting cut, and it is stated only that a panic is a stop.
- Byte offsets in `FenceRedactor`, citation markers and the JSON scanners: these are modelled on characters, so a marker's
  position is a character index.
- Download.EveryRunIsSafe: atomicity is that of the source's own steps under the write lock; wall-clock time, backoff
  lengths, header parsing and the wording of errors are not modelled, and a cancel is possible at every step.
- DownloadResume.ResumedEqualsOneShot: assumes that no proper prefix of the artifact shares its digest, without which the
  code would publish that prefix.
- AnswerStream.Answer: services are their outcomes; query condensation and the hydration of locators are not modelled, and
  the provider's items are arbitrary, whatever the prompt.
- ContextFit.BuildGroundedUser: how titles are sanitised, and the wording around the excerpts, are parameters.
- IngestWipes.PromiseKeptExactly: store adds, flips and SQL transactions are atomic; extraction, enrichment, entity vectors
  and the extracted-text sibling are not modelled.
- IngestWipes.OtherVectorsNeverLost: speaks of the active table; tables other than the active and building ones are not
  modelled.
- ContextFit.FitToContext: takes the context size as a 32-bit number, as the model configuration stores it.
- Mutexes, tokio scheduling, SQLite, LanceDB, HTTP and the file system: abstract state and adversarial inputs.
- The media-cancel registry, which is a plain map of the same kind.
- Retrieval, embedding, reranking, ASR/TTS, `find_turns_array`, `validate_script` and the serde steps of dialogue parsing,
  URL filtering, configuration, notes, and the user interface.
