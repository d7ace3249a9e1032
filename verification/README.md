# A verified model of the cc-search-chats index

`cc-search-chats` keeps a searchable index of the conversations that Claude, Codex and
Antigravity write as growing JSONL files. It reads those files in bounded batches, resumes from
checkpoints, publishes only what changed, and still promises the corpus that rereading and
rebuilding everything would give. This project models the parts that carry that promise and
proves it for all inputs, all cuts and all histories.

- `CorpusTables`, `DeltaPublication`: the published relations, the candidate projection of one
  refresh, and its equality with a rebuild from nothing.
- `SemanticPreparation`, `CoherentIndex`: the virtual view that predicts the published chunk
  counts, the embedding queue, and the index run as a class over the database state.
- `BoundedReader`, `Antigravity`, `SourceIndexing`: bytes to lines to rows for one source over
  many runs, against one pass over the whole file.
- `AntigravityRows`, `CodexRows`, `ClaudeRows`, `CanonicalPairs`: what the rows, boundaries and
  pairs of these parsers say, in terms of the records and candidates alone.
- `CorpusRuns`: whole runs over all Antigravity sources, joining the parse phase to the
  publication that moves rows and checkpoints together.
- `Canonicalization`, `CodexParser`: pairing the two projections Codex writes of one message, and
  exactly when a session may be cut into batches.
- `ClaudeParser`: suffix resume with stable, sorted diagnostics.
- `SemanticSearch`: bounded best-chunk retrieval against the exact ranking.
- `QueryEmbedder`: the warm helper's lock and socket protocol as interleaved steps.
- `KeysetPages`, `ExhaustivePaging`, `EventExport`: keyset pages, the loop that follows them, and
  the streaming group-by.
- `Locator`, `ChunkWindows`: the locator grammar and the overlapping token windows.
- `Sorting`: one stable lexicographic sort for every deterministic order above.

Conventions. A text column that the database or the program only orders by is an integer, its
rank in that order; other texts are strings. SHA-256 is an injective constructor. Timestamps are
optional integers and scores are integers, because only their order is used. A decoded JSON record
is a datatype whose constructors are the outcomes its recognition can have. Preconditions such as
`Positive`, `MessageTable` or `Keyed` state limits the callers validate and primary keys the schema
declares.

Results that differ from what one might expect of the code:

- Codex parsing is not invariant under cuts for every session: `CodexParser.CutInvariantExactly`
  gives the exact condition and `CodexParser.RepeatedTextCutsDiffer` an input that breaks it.
- The single retry of semantic search can return fewer messages than the first statement when the
  limit exceeds 8000: `SemanticSearch.RetryNeverLosesExactly`.
  The repository's own callers ask for at most 1000 (cli.py 2107-2110, semantic.py 1464-1467, and
  a limit of at most 200 in cli.py 2996), for which `SemanticSearch.RankedSearchNeverLoses`.
- A published `cwd` can differ from the rebuilt one: `DeltaPublication.CwdIsNotRebuilt` is an input,
  `DeltaPublication.CwdIsRebuiltExactly` and `DeltaPublication.HistoryRebuildsCwd` say exactly when.
- Claude's session kind is decided batch by batch: `ClaudeParser.LateContradictionShows` is an input
  for which that shows, `ClaudeParser.BatchedRowsExactly` the exact condition.
- The warm helper gives its lifetime lock back with a loaded model when its path check, its unlink
  or its model release raises: `QueryEmbedder.TwoResidents` is such a run,
  `QueryEmbedder.ResidentInOwnerExactly` the exact condition.

`dafny verify dfyconfig.toml` checks everything.

## Model

| member | source | states |
|---|---|---|
| `DeltaPublication.HistoryRefinesRebuild` | src/cc_search_chats/storage/postgresql/refresh.py:1917-1967 | Over any history of refreshes (replaced, appended, removed and failed sources, refused runs) the message and alias tables are, in every column but `cwd`, the build from nothing of every source's latest staged rows. |
| `DeltaPublication.DeltaRefinesRebuild` | src/cc_search_chats/storage/postgresql/refresh.py:2322-2501 | One publication takes tables that equal a rebuild to tables that equal the rebuild of the new contents, although a retained alias re-observes the published row. |
| `DeltaPublication.ConflictCheckIsComplete` | src/cc_search_chats/storage/postgresql/refresh.py:2454-2472 | The incremental conflict query fires if and only if a rebuild of the new contents would find two observations of one message that disagree. |
| `DeltaPublication.RefusedExactly` | src/cc_search_chats/storage/postgresql/refresh.py:2454-2472 | In every reachable state a refresh is refused exactly when the rebuild conflicts or a staged row takes an occurrence from a published message nothing else in the stage touches. |
| `DeltaPublication.ClashExactly` | src/cc_search_chats/storage/postgresql/refresh.py:1955-1967 | The insert of candidate aliases breaks the unique occurrence index exactly in that last case. |
| `DeltaPublication.ObservationsAreNewContents` | src/cc_search_chats/storage/postgresql/refresh.py:2421-2453 | The candidate observations are, column for column but `cwd`, the new contents of the affected messages and of no other. |
| `DeltaPublication.CandidateFitsTables` | src/cc_search_chats/storage/postgresql/refresh.py:2481-2501 | Candidate rows belong to affected messages only, and every candidate alias has its message row. |
| `DeltaPublication.PublishedAliasesAreRebuilt` | src/cc_search_chats/storage/postgresql/refresh.py:1920-1967 | The alias table after the deletes and inserts is that of the rebuild. |
| `DeltaPublication.EveryMessageHasAnAlias` | src/cc_search_chats/storage/postgresql/refresh.py:1940-1967 | A message row is published exactly when some alias row belongs to it. |
| `DeltaPublication.CwdIsNotRebuilt` | src/cc_search_chats/storage/postgresql/refresh.py:2424-2435 | Concrete tables and a removal after which the published `cwd` differs from the rebuilt one: the one column the equality must leave out. |
| `DeltaPublication.CwdIsRebuiltExactly` | src/cc_search_chats/storage/postgresql/refresh.py:2424-2435 | Publication leaves a rebuild in every column, `cwd` included, if and only if each affected message was staged by its first occurrence of the new contents or already had the `cwd` of that occurrence. |
| `DeltaPublication.HistoryRebuildsCwd` | src/cc_search_chats/storage/postgresql/refresh.py:2424-2435 | Over every history the tables stay a rebuild in every column if and only if each accepted refresh meets that condition; sources that agree on the `cwd` of every message always do. |
| `CorpusTables.First` | src/cc_search_chats/storage/postgresql/refresh.py:2489-2499 | The row `SELECT DISTINCT ON` keeps is the unique least occurrence in the stated order. |
| `CorpusTables.FirstIsLeast` | src/cc_search_chats/storage/postgresql/refresh.py:2489-2499 | That row is the least by source root, then path, then record ordinal. |
| `CoherentIndex.CorpusIndex.IndexCorpus` | src/cc_search_chats/storage/postgresql/refresh.py:2875-2979 | One run keeps the corpus coherent; whatever phase refuses, messages, aliases, chunks, selection and checkpoints are unchanged and the generation and build it began are recorded as failed; otherwise the tables hold the new contents, the new checkpoints and the chunks of every message's text under a new selection. Of several reasons to refuse, the first of conflict, chunker, embedding and moved occurrence is the one named; the joint-publication guard is never the reason. |
| `CoherentIndex.CorpusIndex.PublishCandidate` | src/cc_search_chats/storage/postgresql/refresh.py:2895-2979 | Project, prepare, publish: every refusal leaves only bookkeeping behind, and a conflict is the reason if and only if the new contents conflict. |
| `CoherentIndex.CorpusIndex.PublishCoherentCandidate` | src/cc_search_chats/storage/postgresql/refresh.py:1898-2225 | The transaction takes effect as a whole or not at all, and exactly when no occurrence clashes and the counts are jointly complete. |
| `CoherentIndex.CorpusIndex.CreateCandidateProjection` | src/cc_search_chats/storage/postgresql/refresh.py:1871-1895 | The temporary relations become the projection of the stage, and a conflict is reported exactly when the candidate observations disagree. |
| `CoherentIndex.CorpusIndex.StageCandidateChunks` | src/cc_search_chats/storage/postgresql/semantic.py:344-398 | Message after message the staged chunks become exactly the passages of every message requiring chunks, by ordinal, each with the digests of its text and of its embedding input; or the chunker's answer for one of them is refused. |
| `CoherentIndex.CorpusIndex.PrepareCandidateSemantics` | src/cc_search_chats/storage/postgresql/semantic.py:546-738 | Preparation changes only builds, vectors and its own relations; when it returns, every chunk of the virtual view has a vector and the embedded count is the size of that view. |
| `CoherentIndex.CorpusIndex.EmbedView` | src/cc_search_chats/storage/postgresql/semantic.py:594-698 | The drain loop terminates, never finds its queue empty early, keeps completed plus queued units equal to the total, embeds nothing outside the view, and ends with every chunk mapped. |
| `CoherentIndex.CorpusIndex.Foreseen` | src/cc_search_chats/storage/postgresql/refresh.py:2076-2136 | What publishing a prepared candidate will find: the counts compared inside the transaction agree, and without a clash the result is a coherent selection of the new contents. |
| `CoherentIndex.SelectedIsValid` | src/cc_search_chats/storage/postgresql/refresh.py:2137-2225 | From coverage by the uncollected vector pool, selecting the generation and garbage-collecting the pool leave a coherent corpus, and a pool of exactly the vectors some chunk refers to. |
| `CoherentIndex.AppliedIsCovered` | src/cc_search_chats/storage/postgresql/refresh.py:2038-2124 | After the deletes and inserts the guard holds, every eligible message is chunked under its current digest and every such chunk is mapped. |
| `CoherentIndex.BookkeepingKeepsValid` | src/cc_search_chats/storage/postgresql/refresh.py:2950-2978 | New generation and build rows and new vectors never disturb the selected corpus. |
| `CoherentIndex.SelectedCounts` | src/cc_search_chats/storage/postgresql/refresh.py:2137-2214 | The selected generation records as many messages as were observed and as many aliases as there are occurrences, and its build as many embedded chunks as are current. |
| `SemanticPreparation.GuardHolds` | src/cc_search_chats/storage/postgresql/semantic.py:693-701 | Once every chunk of the view has a vector, the message, chunk and mapped counts on the published tables equal those predicted on the view. |
| `SemanticPreparation.GuardMeansCovered` | src/cc_search_chats/storage/postgresql/refresh.py:2076-2136 | The counts compared inside the transaction agree if and only if every eligible message is chunked under its present text and every such chunk has a vector, as many as were embedded. |
| `SemanticPreparation.PublishedChunksAre` | src/cc_search_chats/storage/postgresql/semantic.py:344-398 | After publication an eligible message that is affected or not chunked under its present text has exactly the passages of that text, another affected one has no chunks, and the rest keep row and chunks. |
| `SemanticPreparation.RechunkingKeepsAll` | src/cc_search_chats/storage/postgresql/semantic.py:297-398 | Under one chunker, a corpus in which every eligible message is chunked into the passages of its text stays one over every publication. |
| `SemanticPreparation.ViewIsPublished` | src/cc_search_chats/storage/postgresql/semantic.py:465-543 | The virtual view over candidate and current chunks is the matching chunk table that publication's deletes and inserts leave. |
| `SemanticPreparation.ViewMessagesArePublished` | src/cc_search_chats/storage/postgresql/semantic.py:465-543 | The messages counted on the view are the eligible messages of the published table. |
| `SemanticPreparation.ViewCoversEligible` | src/cc_search_chats/storage/postgresql/semantic.py:297-341 | With the messages requiring chunks rechunked, the view chunks every eligible message and nothing else. |
| `SemanticPreparation.PublishedChunksSound` | src/cc_search_chats/storage/postgresql/semantic.py:344-398 | Publication keeps chunks only of nonblank prose of existing messages. |
| `SemanticPreparation.QueuedUnitsAreUnmapped` | src/cc_search_chats/storage/postgresql/semantic.py:401-462 | The units queued are exactly the chunks whose passage has no stored vector. |
| `SemanticPreparation.DrainBatch` | src/cc_search_chats/storage/postgresql/semantic.py:651-674 | Storing a batch maps exactly the units it took off the queue, and the queue left is the queue of the larger pool. |
| `SemanticPreparation.CollectionKeepsMapped` | src/cc_search_chats/storage/postgresql/refresh.py:2215-2225 | Garbage collection keeps the vector of every matching chunk. |
| `BoundedReader.ReadBoundedJsonl` | src/cc_search_chats/providers/source_discovery.py:232-440 | One batch loses, repeats and reorders nothing of the captured prefix: what it returned followed by what remains is the naive reading; every record is the bytes of the file at its offset up to a newline or a carriage return and newline, which it does not keep; coordinates stay those of a line start, limits hold, the stop reason is justified and reported, and a limited batch has advanced. Exactly the invalid coordinates and limits are refused. |
| `BoundedReader.NextRecord` | src/cc_search_chats/providers/source_discovery.py:298-360 | Finds the extent of the next complete record, or reports a partial tail or a truncated file exactly; a record it had to stream through exceeds the record limit, so it is reported without being measured. |
| `BoundedReader.StreamOversized` | src/cc_search_chats/providers/source_discovery.py:305-351 | Skipping an oversized record chunk by chunk ends at its newline, at the target, or at the end of a truncated file, and says which. |
| `BoundedReader.SplitIsTheOnlyOne` | src/cc_search_chats/providers/source_discovery.py:281-440 | The lines and tail of the reference split are the only decomposition of the bytes into complete lines and a rest without a newline. |
| `BoundedReader.ReadLinesAppend` | src/cc_search_chats/providers/source_discovery.py:281-440 | Reading is compositional over lines: ordinals count every line, oversized ones included. |
| `BoundedReader.ResumeEqualsReread` | src/cc_search_chats/providers/source_discovery.py:281-440 | Reading the grown file from the offset and ordinal reached before gives what rereading it from zero gives. |
| `SourceIndexing.AntigravitySource.Refresh` | src/cc_search_chats/storage/postgresql/refresh.py:1554-1607 | For any batch limits and any growth from run to run, every run that does not fail, skipped ones included, leaves exactly what one parse of the whole captured prefix gives, `cwd` and epoch included; a failed run changes nothing and only happens to a source that cannot be indexed. A file planned to be read again from zero may have changed in any way. |
| `SourceIndexing.AntigravitySource.Stage` | src/cc_search_chats/storage/postgresql/refresh.py:1554-1607 | The parse phase of one source changes nothing published: exactly an unchanged or excluded file is skipped and already holds what it gives; a staged one will, with a checkpoint that resumes it, once its rows are published, and contains no record that has to stop the source. |
| `CorpusRuns.AntigravityCorpus.RefreshCorpus` | src/cc_search_chats/storage/postgresql/refresh.py:2536-2790 | One run over all Antigravity sources: unless it publishes, tables, checkpoints and held rows all stay; when it does, they move together, every planned source holds what its whole file gives or cannot be indexed, every other one keeps what it held, and a checkpointed source that is gone is dropped unless its root could not be traversed. A run with nothing to do finds every planned source up to date. |
| `CorpusRuns.AntigravityCorpus.TablesAreOneParse` | src/cc_search_chats/storage/postgresql/refresh.py:1917-2005 | At all times the published message and alias tables are the build from nothing of one parse of every source's captured prefix. |
| `CorpusRuns.StageLifts` | src/cc_search_chats/storage/postgresql/refresh.py:1917-1967 | Publishing the staged rows of all sources as one delta, with their dispositions, leaves the rows every source then holds. |
| `CorpusRuns.AllCurrentAfter` | src/cc_search_chats/storage/postgresql/refresh.py:1968-2005 | Replacing checkpoints in the transaction that publishes the rows keeps every source resumable: rows, continuation state and coordinates stay those of one pass over its prefix. |
| `CorpusRuns.StageSources` | src/cc_search_chats/storage/postgresql/refresh.py:2673-2725 | The loop over the plans stages or rejects each source on its own. |
| `CorpusRuns.UpToDate` | src/cc_search_chats/storage/postgresql/refresh.py:2604-2610 | A parse phase that neither staged nor rejected a source found it up to date. |
| `SourceIndexing.AntigravitySource.ParseSourceBatches` | src/cc_search_chats/storage/postgresql/refresh.py:1454-1509 | The batch loop terminates and stages, after the final restamp, the rows of one parse from the starting state; it stops without a result only for truncation, a blocked admission or a blocking record. |
| `SourceIndexing.AntigravitySource.Continue` | src/cc_search_chats/storage/postgresql/refresh.py:1567-1584 | A continued tail, once published, completes one pass over the captured prefix; a tail that first establishes the directory starts over from byte zero. |
| `SourceIndexing.AntigravitySource.Reread` | src/cc_search_chats/storage/postgresql/refresh.py:1554-1607 | Rows read from byte zero, once they replace what the source held, are one parse of the captured prefix. |
| `SourceIndexing.GrownReading` | src/cc_search_chats/storage/postgresql/refresh.py:1454-1509 | A grown file reads as what was read before followed by its tail, and takes the same admission decision. |
| `SourceIndexing.Restamp` | src/cc_search_chats/storage/postgresql/refresh.py:1434-1451 | Restamping everything staged with the final directory gives the rows of one parse under it. |
| `SourceIndexing.StageBatch` | src/cc_search_chats/storage/postgresql/refresh.py:1469-1492 | Staging one more parsed batch continues the single parse, up to the directory stamped last. |
| `Antigravity.ParseAntigravitySession` | src/cc_search_chats/providers/antigravity.py:574-623 | The batch loop returns the specified rows, epoch, directory and blocking verdict. |
| `AntigravityRows.WholeTells` | src/cc_search_chats/providers/antigravity.py:574-623 | In one parse every record has, in each class it speaks in, one row with its envelope, time, role and words, as epoch the number of checkpoints before it, and the session's directory; there is no other row. |
| `AntigravityRows.HeldTellsPrefix` | src/cc_search_chats/storage/postgresql/refresh.py:1454-1509 | What an indexed source holds tells every record of its captured prefix in that sense. |
| `AntigravityRows.EstablishedIsFirst` | src/cc_search_chats/providers/antigravity.py:436-443 | The session's directory is the one its first naming record gives. |
| `AntigravityRows.NamesDirectory` | src/cc_search_chats/providers/antigravity.py:436-443 | A record names the directory of its first `run_command` call, if that call gives a nonempty one. |
| `AntigravityRows.AdmissionTells` | src/cc_search_chats/storage/postgresql/refresh.py:1378-1403 | A source is left out exactly when admission excludes its first record, and is indexed only when admission lets that record in or there is none. |
| `Antigravity.SessionAppend` | src/cc_search_chats/providers/antigravity.py:574-623 | Parsing is compositional: a suffix continues from the epoch and directory of the prefix. |
| `Antigravity.StampIsReparse` | src/cc_search_chats/storage/postgresql/refresh.py:1434-1451 | Updating the `cwd` column of parsed rows is parsing them under that directory. |
| `Antigravity.TailExtendsWhole` | src/cc_search_chats/storage/postgresql/refresh.py:1567-1584 | A tail that establishes no new directory can be appended without touching earlier rows. |
| `Antigravity.LateTailMustReparse` | src/cc_search_chats/storage/postgresql/refresh.py:1567-1569 | A tail that is the first to name a directory changes every surviving earlier row, so appending it would be wrong. |
| `Antigravity.FirstRunCommandDecides` | src/cc_search_chats/providers/antigravity.py:436-443 | The first `run_command` call decides the directory, whether or not it names one. |
| `Canonicalization.CanonicalizeCodexCandidates` | src/cc_search_chats/core/canonicalization.py:330-419 | The visiting loop emits exactly the messages of brute-force mutual pairing, in key order, and exactly the diagnostics of the candidates left alone. |
| `CanonicalPairs.PairedExactly` | src/cc_search_chats/core/canonicalization.py:136-168 | Two candidates pair if and only if they are a response and an event of one session, file, kind, epoch, role and text, both prose, with instants that do not run against their occurrences, each is the other's only such partner, and nothing visible stands between them. |
| `CanonicalPairs.GroupSaysSame` | src/cc_search_chats/core/canonicalization.py:276-327 | The message emitted for a group has the text, role, kind, epoch, class and session of every candidate in it, and exactly their occurrences. |
| `CanonicalPairs.PartnersAreOneMessage` | src/cc_search_chats/core/canonicalization.py:364-405 | Two such partners are emitted as one message that says what both say. |
| `CanonicalPairs.UnpartneredIsAlone` | src/cc_search_chats/core/canonicalization.py:364-405 | Any other candidate is emitted alone and unchanged. |
| `CanonicalPairs.UnpartneredIsReported` | src/cc_search_chats/core/canonicalization.py:386-404 | Exactly the projections that stay alone are reported, as ambiguous if and only if they or one of their partners have more than one partner. |
| `CanonicalPairs.EmittedTellsOccurrences` | src/cc_search_chats/core/canonicalization.py:364-419 | Every occurrence an emitted message holds is that of a candidate which says the same. |
| `CanonicalPairs.CandidatesAreTold` | src/cc_search_chats/core/canonicalization.py:364-419 | Every candidate's words and occurrences are those of an emitted message. |
| `CanonicalPairs.CandidateOrder` | src/cc_search_chats/core/canonicalization.py:77-98 | Candidates are ordered by session, file, record, offset and locator of their first occurrence. |
| `CanonicalPairs.MergedAuthorship` | src/cc_search_chats/core/canonicalization.py:290-327 | A merged message is submitted by whoever either projection knows of, with the evidence of both, unless they disagree or neither knows. |
| `Canonicalization.CompatiblePartners` | src/cc_search_chats/core/canonicalization.py:186-220 | The bucketed index lists, without duplicates, exactly the all-pairs compatible relation. |
| `Canonicalization.CompatibilityBuckets` | src/cc_search_chats/core/canonicalization.py:190-201 | Every bucket holds exactly the responses and events with its exact facts. |
| `Canonicalization.MatchesShareBucket` | src/cc_search_chats/core/canonicalization.py:149-183 | Two compatible candidates always share a bucket key, so bucketing loses no pair. |
| `Canonicalization.InterveningIsVisibleBetween` | src/cc_search_chats/core/canonicalization.py:251-261 | The bisection over the index holds exactly when some visible message of the boundary lies strictly between. |
| `Canonicalization.VisibleOrdinalsByBoundary` | src/cc_search_chats/core/canonicalization.py:233-248 | The index lists, sorted, exactly the visible ordinals of each boundary. |
| `Canonicalization.BisectFindsBetween` | src/cc_search_chats/core/canonicalization.py:251-261 | In a sorted list the two bisections cross exactly when a value lies strictly between the bounds. |
| `Canonicalization.MergeTest` | src/cc_search_chats/core/canonicalization.py:373-387 | The loop's test on partner lists is exactly mutual uniqueness with nothing visible between. |
| `Canonicalization.PairedSymmetric` | src/cc_search_chats/core/canonicalization.py:364-405 | The gate is symmetric and gives at most one partner, so no candidate is emitted both alone and merged. |
| `Canonicalization.OutputsPartitionCandidates` | src/cc_search_chats/core/canonicalization.py:364-405 | Every candidate is in exactly one emitted message. |
| `Canonicalization.OccurrencesKept` | src/cc_search_chats/core/canonicalization.py:276-327 | Canonicalization neither loses nor repeats a physical occurrence. |
| `Canonicalization.MergeIsValid` | src/cc_search_chats/core/canonicalization.py:276-327 | A merged message satisfies everything constructing a message demands and keeps all occurrences. |
| `Canonicalization.MergeKeepsEarliest` | src/cc_search_chats/core/canonicalization.py:264-327 | The merged message keeps logical id, locator and columns of the candidate whose occurrences come first. |
| `Canonicalization.MergeSymmetric` | src/cc_search_chats/core/canonicalization.py:276-327 | Which of the two projections is given first does not matter. |
| `Canonicalization.CanonicalizedIsValid` | src/cc_search_chats/core/canonicalization.py:408-419 | Every emitted message may be constructed, and the list is in key order. |
| `Canonicalization.Idempotent` | src/cc_search_chats/core/canonicalization.py:333-337 | Canonicalizing already canonical messages changes nothing. |
| `Canonicalization.OrderForgotten` | src/cc_search_chats/core/canonicalization.py:338-350 | Collecting the same candidates in another order gives the same messages, as long as pairable candidates have keys of their own; and in the same order where the emitted keys differ. |
| `CodexParser.CutInvariantExactly` | src/cc_search_chats/providers/codex.py:1745-1939 | For every session: all ways of cutting its records into batches hold the same rows as one uncut parse if and only if every match of visible neighbours is the only match of both. |
| `CodexParser.UniqueFactsCutAnywhere` | src/cc_search_chats/providers/codex.py:1686-1742 | In particular a session with at most one response and one event for each exact-fact key can be cut anywhere. |
| `CodexParser.RepeatedTextCutsDiffer` | src/cc_search_chats/providers/codex.py:1904-1920 | A response whose text two later events repeat: a concrete session that some cut parses differently. |
| `CodexParser.AmbiguousSessionCutsDiffer` | src/cc_search_chats/providers/codex.py:1898-1939 | For every session that breaks the condition, four batches around the ambiguous pair hold other rows than one parse. |
| `CodexParser.HeldRowsNeverChange` | src/cc_search_chats/storage/postgresql/refresh.py:925-947 | Parsing one more batch never moves or rewrites a row already held, even when the carried candidate pairs: occurrences keep their logical identity under append, in every session. |
| `CodexParser.NoBatchConflict` | src/cc_search_chats/storage/postgresql/refresh.py:902-924 | Two messages of one parsed batch never stage different rows for one record and class, so the staging check for conflicting content never fires, in any run of batches. |
| `CodexParser.UnambiguousCutsAgree` | src/cc_search_chats/providers/codex.py:1745-1939 | Cutting an unambiguous session in any way holds what one parse holds. |
| `CodexParser.NextCarry` | src/cc_search_chats/providers/codex.py:1699-1742 | The carried candidate is the last visible one of the current epoch; when none is carried, that one already has a match behind it. |
| `CodexParser.PairedIsNear` | src/cc_search_chats/core/canonicalization.py:364-387 | In a parsed list, candidates pair exactly when they are visible neighbours that match and are each other's only match. |
| `CodexParser.BatchStages` | src/cc_search_chats/storage/postgresql/refresh.py:925-947 | What a batch writes: for every candidate of a touched message the row of its message, and nothing else. |
| `CodexParser.MergeAddsAlias` | src/cc_search_chats/core/canonicalization.py:276-327 | Merging two projections of one session changes nothing of the earlier one but its list of occurrences. |
| `CodexParser.ParseCodexSession` | src/cc_search_chats/providers/codex.py:1745-1939 | The record loop, canonicalization, filtering and carry return the specified messages, epoch boundaries and next state. |
| `CodexRows.HeldRowsTellTheirRecords` | src/cc_search_chats/providers/codex.py:1212-1512 | For every session and every cut, each record has in each class it speaks in exactly one held row with its role and text, the number of distinct compactions before it as epoch, its occurrence and authorship, and the identity of itself or of an earlier record that says the same. |
| `CodexRows.HeldRowsComeFromRecords` | src/cc_search_chats/storage/postgresql/refresh.py:925-947 | No other row is held. |
| `CodexRows.BoundariesTellRecords` | src/cc_search_chats/providers/codex.py:1858-1885 | The first compaction of each digest opens the next epoch and is recorded where it stands; nothing else is. |
| `CodexParser.NextTrailingCandidate` | src/cc_search_chats/providers/codex.py:1699-1742 | Reading the carry off the canonical messages and diagnostics gives the specified candidate. |
| `CodexParser.EpochCountsCompactions` | src/cc_search_chats/providers/codex.py:1858-1885 | The epoch advances once for each distinct compaction digest, whatever repeats. |
| `CodexParser.CandidatesShaped` | src/cc_search_chats/providers/codex.py:1212-1512 | Parsed candidates have one occurrence each, rise by record, and are visible exactly when they are projections. |
| `SemanticSearch.StatementIsRankingPrefix` | src/cc_search_chats/storage/postgresql/semantic.py:1279-1329 | For every chunk table, bound and limit the statement returns the exact ranking cut where its candidates end: a prefix with true best scores and chunks, of as many messages as the candidate rows hold. |
| `SemanticSearch.StatementIsExactWhen` | src/cc_search_chats/storage/postgresql/semantic.py:1374-1382 | It returns the whole top of the ranking if and only if its candidates hold enough messages; candidates that do not fill the bound always do. |
| `SemanticSearch.RankingIsFirsts` | src/cc_search_chats/storage/postgresql/semantic.py:1279-1329 | The ranking lists exactly the best chunk of every message, and is the first row of each message in chunk order. |
| `SemanticSearch.Search` | src/cc_search_chats/storage/postgresql/semantic.py:1361-1461 | Every answer is a prefix of the exact ranking, and a short answer means the ranking is exhausted or the retry filled its bound; invalid limits and unusable selections are refused exactly. |
| `SemanticSearch.RetryNeverLosesExactly` | src/cc_search_chats/storage/postgresql/semantic.py:1424-1461 | The retry never returns fewer messages than the first statement if and only if the limit is at most 8000. |
| `SemanticSearch.RetryCanLose` | src/cc_search_chats/storage/postgresql/semantic.py:1456-1461 | Above that limit, a concrete table for which the retry returns one message where the first statement returned two. |
| `SemanticSearch.RankedSearchNeverLoses` | src/cc_search_chats/storage/postgresql/semantic.py:1464-1467 | A ranked search of 1 to 200 hits asks for five times as many messages and at least 100, over at least 2000 rows; at that depth the retry reads eight times the rows and every message of the first statement comes back first. |
| `SemanticSearch.Retrieve` | src/cc_search_chats/storage/postgresql/semantic.py:1429-1448 | The candidate count read off the first row says exactly whether the bound was filled. |
| `QueryEmbedder.RunIsSafe` | src/cc_search_chats/semantic/query_embedder.py:295-434 | Every interleaving of helpers, clients, probes, failing final blocks and crashes keeps lock ownership and path ownership consistent. |
| `QueryEmbedder.AtMostOneResident` | src/cc_search_chats/semantic/query_embedder.py:376-434 | In every run in which no helper with a loaded model leaves its final block by an error, a loaded model is held only by the lifetime-lock owner, so at most one is resident. |
| `QueryEmbedder.ResidentInOwnerExactly` | src/cc_search_chats/semantic/query_embedder.py:305-434 | All along a run every loaded model is in the lock owner if and only if no helper with a loaded model leaves its final block by an error. |
| `QueryEmbedder.TwoResidentsHaveAborted` | src/cc_search_chats/semantic/query_embedder.py:424-434 | In every run, of two processes with a loaded model one is a helper whose final block raised. |
| `QueryEmbedder.TwoResidents` | src/cc_search_chats/semantic/query_embedder.py:424-434 | A concrete run in which a failing path check gives the lock back with the model loaded and a second helper loads beside it. |
| `QueryEmbedder.UnlinksOnlyItsOwn` | src/cc_search_chats/semantic/query_embedder.py:316-318 | What a leaving helper unlinks is its own socket, if anything, even when inode numbers are reused. |
| `QueryEmbedder.ClearsOnlyStaleSockets` | src/cc_search_chats/semantic/query_embedder.py:395-401 | What a starting helper clears away belongs to no helper still in its lifetime; one that still has a model is past a failed final block. |
| `QueryEmbedder.BindFindsThePathFree` | src/cc_search_chats/semantic/query_embedder.py:401-405 | After clearing, binding never finds the path taken. |
| `QueryEmbedder.RecordsItsOwn` | src/cc_search_chats/semantic/query_embedder.py:405-408 | The identity recorded from the path is that of the socket the helper bound. |
| `QueryEmbedder.ServesExactlyItsOwnSocket` | src/cc_search_chats/semantic/query_embedder.py:335-351 | A helper accepts a request exactly while the socket at the path is its own. |
| `QueryEmbedder.OrphansOnlyLeave` | src/cc_search_chats/semantic/query_embedder.py:335-373 | Once a client removed a live socket, whatever anyone does afterwards, its owner finishes at most the request it is serving and never accepts or binds again. |
| `QueryEmbedder.LeavesNothingBehind` | src/cc_search_chats/semantic/query_embedder.py:424-434 | A helper that meets no error and is past its path check has left no socket of its own at the path, then and ever after. |
| `QueryEmbedder.StaysResident` | src/cc_search_chats/semantic/query_embedder.py:305-434 | A loaded model stays resident until its process releases it or is gone. |
| `QueryEmbedder.UnlocksUnloaded` | src/cc_search_chats/semantic/query_embedder.py:424-434 | The lock is given back by the unlock, by an error in the final block or by the process's end, and its owner still has the model loaded exactly when the error found it loaded. |
| `ClaudeParser.SuffixResumes` | src/cc_search_chats/providers/claude.py:1360-1562 | Parsing a suffix from the carried state gives the same messages, epochs and boundaries as the whole parse, and the sorted diagnostics of the parts one after the other. |
| `ClaudeParser.BatchedRowsExactly` | src/cc_search_chats/providers/claude.py:850-884 | For every list of batches, batched rows equal those of one parse, session kind and authorship included, if and only if the path gives no kind, no record contradicts it, or every batch with messages holds a record that does. |
| `ClaudeParser.LateContradictionShows` | src/cc_search_chats/providers/claude.py:850-884 | A concrete session whose second batch first contradicts the path: its first message keeps a kind that one parse refuses. |
| `ClaudeParser.KindOfWhole` | src/cc_search_chats/providers/claude.py:850-884 | Kinds combine closed: a whole has the kind its parts agree on and none otherwise. |
| `ClaudeParser.EpochCountsCompactions` | src/cc_search_chats/providers/claude.py:1422-1454 | From the initial state the epoch is the number of distinct valid compaction UUIDs seen. |
| `ClaudeParser.ParseClaudeSession` | src/cc_search_chats/providers/claude.py:1360-1562 | The record loop returns the specified rows, boundaries, sorted diagnostics and next state. |
| `ClaudeRows.MessagesTellRecords` | src/cc_search_chats/providers/claude.py:1360-1562 | The rows of a session are those of its records one after the other, text by text, each with its record's identity, role and time and with the number of distinct valid compactions before it as epoch. |
| `ClaudeRows.BoundariesTellRecords` | src/cc_search_chats/providers/claude.py:1422-1454 | The first valid compaction of each UUID opens the next epoch and is recorded with its metadata; nothing else is. |
| `ClaudeRows.DiagnosticsTellRecords` | src/cc_search_chats/providers/claude.py:1360-1562 | A diagnostic is reported if and only if some record gives rise to it, a repeated compaction included. |
| `ClaudeRows.DiagnosticsInOrder` | src/cc_search_chats/providers/claude.py:1550-1562 | Diagnostics come in the order of records and codes. |
| `ClaudeRows.StagedTellRecords` | src/cc_search_chats/providers/claude.py:850-884 | A batch keeps the kind of its path when something decoded and every record's origin belongs to it, and is unknown otherwise; a row is a harness's exactly for user turns of a named sidechain in an agent's session. |
| `ClaudeParser.ClassifySessionKind` | src/cc_search_chats/providers/claude.py:850-884 | The early-exit classification is the path's kind unless nothing decoded or some record contradicts it. |
| `ExhaustivePaging.ExhaustiveSearchHits` | src/cc_search_chats/cli.py:2080-2100 | For any positive page size, following the cursors terminates and the pages together are the sorted list of all matches. |
| `ExhaustivePaging.ExhaustiveSearchPage` | src/cc_search_chats/storage/postgresql/index.py:167-289 | From the position after the first n of all matches, one page is rows n to n plus the page size of the sorted whole, and has a cursor, that of its last row, exactly when more rows follow; an invalid page size is refused exactly. |
| `ExhaustivePaging.EachRowOnce` | src/cc_search_chats/storage/postgresql/index.py:241-262 | A matching row is returned, and then once, if and only if it has an alias to be located by. |
| `ExhaustivePaging.HitsInOrder` | src/cc_search_chats/storage/postgresql/index.py:241-262 | Hits are wanted rows in order of locator, class, first alias and message, where the first alias is the least by record, digest, file and offset. |
| `ExhaustivePaging.CursorIsKey` | src/cc_search_chats/storage/postgresql/index.py:205-225 | The eight-part position is a key of the matches. |
| `KeysetPages.PageContinues` | src/cc_search_chats/storage/postgresql/index.py:205-289 | The statement after a row returns what follows it in the sorted whole. |
| `EventExport.ExportIsGroupBy` | src/cc_search_chats/storage/postgresql/events.py:164-276 | Whatever the order of the table, the export is the grouping of the window's rows by logical message: common `cwd` or none, union of aliases, any prose; it is refused exactly when two rows of one message disagree. |
| `EventExport.ExportTells` | src/cc_search_chats/storage/postgresql/events.py:92-142 | Whatever the order of the table, exactly the rows from the lower bound up to but not including the upper one are exported, grouped by provider, session and message; the export is refused if and only if two of them belong to one message and disagree. |
| `EventExport.EventsTell` | src/cc_search_chats/storage/postgresql/events.py:205-259 | The events are the retained messages, each once, by time, provider, session and message. |
| `EventExport.GroupsAreGroupBy` | src/cc_search_chats/storage/postgresql/events.py:226-258 | Over key-ordered rows the running accumulators form exactly those groups and stop exactly at a conflict. |
| `EventExport.ExportHumanMessageEvents` | src/cc_search_chats/storage/postgresql/events.py:146-276 | The one-pass loop returns the groups' totals, class counts and retained events in order, and names every refusal. |
| `EventExport.TallyAddsUp` | src/cc_search_chats/storage/postgresql/events.py:177-224 | Retained, excluded and unresolved add up to the scanned messages, and the reasons to their totals. |
| `EventExport.TallyCounts` | src/cc_search_chats/storage/postgresql/events.py:197-224 | Every status and reason counter counts the messages it names; the retained ones are kept in order. |
| `EventExport.ClassCountsAddUp` | src/cc_search_chats/storage/postgresql/events.py:254-273 | The class counters together count every content row. |
| `EventExport.RetentionMeans` | src/cc_search_chats/storage/postgresql/events.py:66-89 | What is retained, what stays unresolved and each reason for exclusion, said without the order of the tests. |
| `EventExport.MessageRows` | src/cc_search_chats/storage/postgresql/events.py:92-142 | The pages, until an empty one, are the window's rows in key order. |
| `Locator.ParseOfFormat` | src/cc_search_chats/core/identity.py:172-221 | Every valid locator is read back from its text. |
| `Locator.FormatOfParse` | src/cc_search_chats/core/identity.py:172-221 | Every accepted text is the text of the valid locator it is read as. |
| `Locator.AcceptedExactlyPrinted` | src/cc_search_chats/core/identity.py:183-221 | The grammar accepts exactly the printed locators. |
| `Locator.PrintedText` | src/cc_search_chats/core/identity.py:172-181 | The text of a locator is the version prefix, provider, session, kind and key, and for an ordinal its digest, with colons between these parts and nowhere else. |
| `Locator.ValidLocators` | src/cc_search_chats/core/identity.py:67-97 | Which kinds of key each provider's records are known by, and what a key and a digest look like. |
| `Locator.LocatorTextsAreUnique` | src/cc_search_chats/core/identity.py:172-181 | No two valid locators share a text, so a locator text identifies what it locates. |
| `Locator.DecimalOfValue` | src/cc_search_chats/core/identity.py:15-16 | A canonical decimal is the one way to write its value. |
| `ChunkWindows.WindowsAre` | src/cc_search_chats/semantic/model.py:532-552 | Windows tile the tokens: each but the last is full, neighbours overlap by exactly 96 and each ends further on, and their number is in closed form. |
| `ChunkWindows.WindowsCover` | src/cc_search_chats/semantic/model.py:532-552 | Every token is in some window. |
| `ChunkWindows.InputsFit` | src/cc_search_chats/semantic/model.py:497-505 | Prefix, special tokens and window never exceed the model's 1024 tokens; the budget is 768 tokens, or what the model has left if that is less. |
| `ChunkWindows.ChunkPassages` | src/cc_search_chats/semantic/model.py:490-554 | The loops terminate and return the windows' texts, or refuse exactly the budgets, texts and tokenizer answers that cannot be cut. |

## Left out

- PostgreSQL itself: planning, full-text matching and ranking, advisory locks, heartbeats and the `refresh_run` bookkeeping; a statement is its effect on the relations, and one owner indexes at a time.
- The Codex `cwd` and `repository` columns, which are recomputed or configured per batch (codex.py 1757-1770).
- Codex session identity and kind resolution (codex.py 763-946): fixed for the session here, as its first metadata record fixes them.
- CodexParser.CutInvariantExactly: the rows compared are the staged columns other than `cwd` and `repository`, and the session kind is that of the first metadata record for every batch.
- CodexParser.ParseCodexSession: session identity and kind are given, and diagnostics are not returned; those of canonicalization decide the carry.
- ClaudeParser.ParseClaudeSession: the rows carry no `cwd` and no repository, which do not enter grouping, epochs or kinds.
- Antigravity.ParseAntigravitySession: the diagnostics of single records are not returned, only whether one of them blocks the source.
- CoherentIndex.CorpusIndex.StageCandidateChunks: texts are given to the chunker one by one rather than up to 128 at a time, so the check that a batch has as many answers as texts does not arise.
- CorpusRuns.AntigravityCorpus.RefreshCorpus: for Antigravity sources only; which sources an earlier failure still blocks and which roots were fully traversed are inputs.
- Skip, repair and unknown-shape diagnostics, acknowledgements and their counts in the refresh: reporting that does not change rows.
- SourceIndexing.AntigravitySource.Refresh: the final stat that rejects a file replaced or changed during its read is a precondition (a file not planned to be read from zero was only appended to), and modification times enter only through the plan.
- Deserializing a persisted parser state and parser-version changes: the state is carried as a value, and a new version is a replacement.
- Filesystem discovery, root configuration and non-native artifacts: inputs.
- BoundedReader.ReadBoundedJsonl: the invalid-JSON diagnostic that a complete record may get beside its envelope, and the stop for a source that cannot be opened or read.
- I/O errors while reading: a failed source is one that is in no part of the stage.
- The order in which the embedding queue is drained: any order of batches is proved.
- CoherentIndex.CorpusIndex.PrepareCandidateSemantics: the chunk bounds columns and the vector values are not modelled; a vector is present or absent.
- Codex timestamps are compared through the instant they denote; recognising ISO text is an input.
- Ordinal locators in an alias key are compared by number rather than by decimal text, which differs only for aliases of one record that disagree on their ordinal.
- Two entries of one candidate list that are the same object in memory: candidates are identified by their position.
- Locator.ParseOfFormat: integers are unbounded; the interpreter's limit on converting very long decimal texts is not modelled.
- The text of the embedding input, GPU placement, and the tokenizer: arbitrary functions.
- The helper's wire format, timing windows and exit waiting; a replaced lock file; a client's own decisions about when to spawn, probe or unlink, all of which are allowed at any time.
- Hybrid fusion and literal ranked search (semantic.py 1470-1530): one sort over two given lists.
- The initial cursor of the event pages is absent rather than four empty texts, which no stored key is at or below.
- Converting event times to UTC and hashing the event id: presentation of columns that are kept.
- CLI parsing, envelopes, progress streams, the legacy SQLite index, and the rule installer.
