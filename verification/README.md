# A verified model of Omneval's core algorithms and protocols

Omneval ingests LLM traces: an ingest API stages batches of spans in an object-store buffer and passes references through
two Redis lists to writers, writers insert the spans into the Lake (DuckLake behind a client that retries and reconnects),
and around this sit a prompt registry with a diff view, evaluation filters and judge templates, catalog maintenance, and
metadata stores with cached key validation, paging and migrations. This project models the parts of that system with the
most state and the most branching, and proves what they promise over all inputs, runs and interleavings.

`dafny verify dfyconfig.toml` checks everything. Each file is one component:

- `Diff` fills the longest-common-subsequence table in an `array2` and walks it back; the result reads back as both texts
  and is a cheapest edit script.
- `IngestQueue` and `IngestProtocol`: the two Redis lists as a class, and the whole protocol (stage, enqueue, move, check
  the ledger, fetch, insert, mark, ack or requeue, sweep, collect) as a step system with any number of writers, a crash
  between any two commands, replies that get lost, and Redis losing its lists. `IngestExactlyOnce` says which runs are
  sure to insert a batch once, `IngestRecovery` what recovery after a loss achieves, `IngestDrains` that writers bring
  every entry off the lists once faults stop. `BufferKeys` and `BatchLedger` are
  the protocol's names and its memory.
- `LakeInsert` and `LakeHandle`: the nested retries around an all-or-nothing insert, and the swap of the database handle
  under a reader-writer lock. What databases and contexts answer is a parameter, so claims hold for all answers.
- `Tracer`: the SDK's pending spans, with a flush split at its `await` and arbitrary calls in between.
- `Filter`: the filter tree, its in-place compilation and validation over mutable pattern slices, and matching. The
  regular expression library is a parameter. `FilterNil` adds nil entries.
- `Template`: a scanner for the tag pattern and the substitution loop.
- `OtlpMessages`: numbered attribute keys, including 64-bit wrap-around, and the overflow partition.
- `Prune` and `Repair`: catalog maintenance that may stop at any statement. `MaintenanceLoop`: when a pass is skipped.
- `KeyCache`: concurrent key validations through a cache, with revocation.
- `Paging`: the fake store's positions against the SQL stores' keys.
- `SqlSplit`, `Migrations` and `SqliteProcesses`: quote-aware splitting, and migrations run repeatedly and concurrently.
- `TextLines` and `Wrappers`: splitting, joining and searching text; optional values and 64-bit integers.

Proved conditions worth knowing, because the plain claim would be false:

- Ingest is at least once, not exactly once. A step is risky for a batch if it passes the ledger check while the batch is
  active already, inserts without telling how many copies it left, loses the mark, or crashes before it. Runs without
  risky steps insert once (`SafeRunsInsertOnce`); after the first risky one a second copy can follow (`RiskyIff`). No
  fault is needed: `OverlapWithoutFaults`.
- After Redis lost its lists, pushing a reference again is not enough: a writer may still remove it. It is safe exactly
  when more copies are listed than removals are pending (`AnchoredIff`).
- The answer of an insert tells the number of copies exactly when no transaction failed after taking effect
  (`AnswerIsTrueIff`); two copies do occur (`TwoCopiesReachable`).
- A failed repair can retire readable files. Over one table that is so exactly when the first missing file that is found
  in other rows is found in a readable one's (`HarmIff`), over several exactly when this holds of one of them on what the
  passes over those before it leave, and these go through (`RunHarmIff`). A successful repair cannot, provided every full
  path is found in its own row.
- The documentation of the maintenance loop says a pass is skipped only if no snapshot is newer than the last completed
  pass; in the code snapshots committed behind that pass's statements, or between its end and the reading of its baseline,
  are passed over (`LateOnesArePassedOver`), and only such ones are (`SkipMissesTheGap`).
- SQLite's `Migrate` does not notice when reading the ledger ends early, and then applies recorded migrations again. That
  is harmless exactly when those have nothing to execute (`PartialReadAgreesIff`), also when processes interleave
  (`ProcessesApplyASegment`).
- Two SQLite migration files of one version both run, unlike in Postgres; that makes a difference exactly when the later
  one has something to execute (`CheckingOftenAgreesIff`).
- The fake store and the SQL stores disagree on cursors outside the dataset, exactly as `OtherCursorsAgreeIff` says.
- A message index of 2^63 or more may wrap below zero and is then ignored (`WrappedIndex`); an index without room panics
  (`NoRoomIff`).
- Validating a filter with a nil entry panics, exactly when the entry comes before every key that is too long
  (`ValidatePanicsIff`); compiling and matching as `CompilePanicsIff` and `MatchesPanicsIff` say.
- The tracer drops what is set on a span while an export of it is under way and succeeds (`LateCallIsLost`); what it
  delivers misses exactly that (`DeliveredIsLastIff`).

## Model

| member | source | states |
|---|---|---|
| Diff.BuildTable | ui/src/utils/diff.ts:46-57 | the nested loops leave in every cell the value of the recurrence for the two prefixes |
| Diff.LcsIsLongest | ui/src/utils/diff.ts:46-57 | that value is the length of a longest common subsequence of the two prefixes: attained, and never exceeded |
| Diff.LcsBounds | ui/src/utils/diff.ts:46-57 | no common subsequence of two prefixes is longer than their table entry |
| Diff.ScriptBound | ui/src/utils/diff.ts:46-76 | no script between two texts keeps more lines than the last entry, and its cost is what it does not keep |
| Diff.Optimal | ui/src/utils/diff.ts:46-76 | a script that keeps as many lines as the last entry is a cheapest one and keeps a longest common subsequence |
| Diff.Backtrack | ui/src/utils/diff.ts:59-77 | the walk ends, stays inside the table, yields a script between both texts that reaches the last entry, removals before additions |
| Diff.DiffText | ui/src/utils/diff.ts:38-83 | after one header line, dropping additions gives back the old text and dropping removals the new one; no script changes fewer lines |
| Diff.HeaderIs | ui/src/utils/diff.ts:81-83 | the header line, for empty and other texts |
| TextLines.JoinSplit | ui/src/utils/diff.ts:38-44 | joining the split lines gives back the text |
| TextLines.SplitJoin | ui/src/utils/diff.ts:38-44 | splitting joined lines that contain no separator gives back the lines |
| BufferKeys.KeyRoundTrip | internal/buffer/buffer.go:39-58 | an id is read from a key exactly when the key is that id's and the id is not empty and has no slash |
| BufferKeys.KeyInjective | internal/buffer/buffer.go:39-43 | different batches have different keys |
| BatchLedger.Ledger.MarkBatchCommitted | internal/metadata/sqlite/batch_ledger.go:13-27 | records a batch once; a zero time becomes the current one; a failure records nothing |
| BatchLedger.FirstMarkStays | internal/metadata/sqlite/batch_ledger.go:13-39 | after any marks a batch is committed at time t exactly when the first mark that names it says t |
| IngestQueue.IngestQueue.Push | internal/queue/redis/redis.go:70-80 | appends to the queue and keeps deliveries an initial part of what was pushed |
| IngestQueue.IngestQueue.DequeueEntry | internal/queue/redis/redis.go:84-111 | moves the oldest entry atomically to the processing list, also when the reply is lost; deliveries are an initial part of the pushes, in order, even when values repeat |
| IngestQueue.IngestQueue.Ack | internal/queue/redis/redis.go:113-120 | removes one copy of the entry and no other |
| IngestQueue.IngestQueue.Requeue | internal/queue/redis/redis.go:122-134 | complete: the total over both lists is unchanged; interrupted: at most one copy more; other values untouched |
| IngestQueue.LRemCounts | internal/queue/redis/redis.go:113-134 | removal by value takes exactly one copy of that value if there is one |
| IngestProtocol.AcceptedBatchesSurvive | internal/buffer/buffer.go:146-161 | in every run, including loss of both Redis lists, an accepted batch is staged, or marked and in the Lake |
| IngestProtocol.NothingAcceptedIsForgotten | services/writer/internal/pipeline/batch_processor.go:90-246 | while Redis keeps its lists: accepted and uncommitted batches are staged and listed, accepted payloads are listed or in the Lake, holders never outnumber the copies on the processing list |
| IngestProtocol.DrainedMeansCommitted | services/writer/internal/pipeline/batch_processor.go:90-246 | when both lists are empty everything accepted is in the Lake |
| IngestProtocol.DropTakesOneCopy | services/writer/internal/pipeline/batch_processor.go:236-246 | a writer's ack takes away exactly one copy, of its own entry |
| IngestDrains.WorkIsBounded | services/writer/internal/pipeline/batch_processor.go:90-246 | from any state, writers that meet no fault take at most ten steps for each entry that waits or is added, and what is left for those they hold |
| IngestDrains.FaultsLeaveOnlyStranded | services/writer/internal/pipeline/batch_processor.go:90-246 | after any run in which Redis kept its lists, once faults stop and the writers come to rest: the queue is empty, and the processing list holds just what no writer held |
| IngestDrains.DrainsWithoutFaults | services/writer/internal/pipeline/batch_processor.go:90-246 | without faults, when the writers come to rest both lists are empty and everything accepted is committed and in the Lake |
| IngestDrains.NothingIsPushedBack | services/writer/internal/pipeline/batch_processor.go:138-246 | in every run without faults no writer pushes an entry back, and the processing list holds just what writers hold |
| IngestDrains.HandlesOne | services/writer/internal/pipeline/batch_processor.go:90-246 | the whole state after a writer alone has handled the oldest entry: it is off both lists; a payload or a new staged batch is in the Lake once, such a batch is marked, and nothing else changes |
| IngestDrains.ReturnsOne | services/writer/internal/pipeline/batch_processor.go:148-246 | the whole state after a failed lookup, fetch, insert or mark: the entry is the newest on the queue and off the processing list, or stays there if the push or the removal fails |
| IngestProtocol.SweepRecovers | services/writer/internal/reconcile/worker.go:96-175 | from any state a sweep over uncommitted staged batches that nothing interrupts puts all of them on the queue and forgets nothing |
| IngestRecovery.RecoveryLasts | services/writer/internal/reconcile/worker.go:96-175 | a recovering push among any other steps, carried out with no more removals pending than copies listed, keeps the batch committed or staged and listed from then on, short of another loss; drained lists then mean it is committed |
| IngestRecovery.AnchoredIff | services/writer/internal/reconcile/worker.go:96-175 | a staged batch is safe in every continuation without loss exactly when it is committed or listed more often than removals are pending |
| IngestRecovery.UnanchoredCanBeLost | services/writer/internal/pipeline/batch_processor.go:236-246 | otherwise pending removals can take the last reference |
| IngestProtocol.RedeliveryAddsNothingNew | services/writer/internal/pipeline/batch_processor.go:148-234 | a marked batch stays marked at its first time, and redeliveries add no copies beyond those of writers already past the check, at most eight for each |
| IngestProtocol.CrashBeforeMarkDuplicates | services/writer/internal/pipeline/batch_processor.go:196-234 | a crash between insert and mark leaves two copies, in a run in which Redis keeps its lists |
| IngestExactlyOnce.SafeRunsInsertOnce | services/writer/internal/pipeline/batch_processor.go:90-246 | without risky steps a batch is in the Lake at most once, and exactly once when it is in the ledger |
| IngestExactlyOnce.DrainedMeansExactlyOnce | services/writer/internal/pipeline/batch_processor.go:90-246 | with Redis keeping its lists, drained lists then mean that an accepted batch is in the Lake exactly once |
| IngestExactlyOnce.RiskyIff | services/writer/internal/pipeline/batch_processor.go:148-234 | after a run without risk, a step is risky exactly when a second copy can follow it without further risk |
| IngestExactlyOnce.OverlapWithoutFaults | services/writer/internal/reconcile/worker.go:96-175 | a run without crash, loss or failing answer inserts a batch twice, because a sweep adds a reference before the API does |
| IngestExactlyOnce.UnclearInsertOccurs | services/writer/internal/pipeline/batch_processor.go:196-234 | risky inserts are reachable without earlier risk |
| IngestExactlyOnce.LostMarkOccurs | services/writer/internal/pipeline/batch_processor.go:196-234 | so are lost marks and crashes before the mark |
| LakeInsert.WrapKeepsClass | internal/lake/lake.go:328-401 | wrapping an error text never hides that it is a conflict or a stale connection |
| LakeInsert.ClassifiedBy | internal/lake/lake.go:328-401 | the texts that make an error a stale connection or a conflict |
| LakeInsert.FaultKeepsClass | internal/lake/lake.go:786-851 | a transaction's error is classified as the database's message is |
| LakeInsert.RowsHoldSpans | internal/lake/lake.go:800-838 | what each column of a row holds: times default to the current one, an empty input or output is null |
| LakeInsert.RowsReadBack | internal/lake/lake.go:800-838 | reading the rows back gives the spans with missing times filled in |
| LakeInsert.TransactionFails | internal/lake/lake.go:786-851 | a transaction fails exactly when one of its statements does, and takes effect, with all rows, when it does not fail or the commit only reported an error |
| LakeInsert.Lake.DoInsertSpans | internal/lake/lake.go:786-851 | all rows of the batch or none become visible, each column as the span has it, with times and empty payloads filled in; an error exactly when a statement fails |
| LakeInsert.Lake.InsertSpansLocked | internal/lake/lake.go:764-784 | for any answers: goes on exactly after a conflict, up to three times, while the context has not ended; the rows added are those of the transactions that took effect |
| LakeInsert.SucceedsAfterConflicts | internal/lake/lake.go:764-784 | a pass succeeds at its first attempt without fault if at most three conflicts come before it |
| LakeInsert.Lake.InsertSpans | internal/lake/lake.go:746-762 | one pass, and exactly after a stale connection one reconnect and, if that succeeds, a second pass |
| LakeInsert.ExactlyOnceOrNotAtAll | internal/lake/lake.go:746-851 | if failures leave no rows: at most eight attempts and one reconnect, success means the batch once, an error means nothing |
| LakeInsert.AnswerIsTrueIff | internal/lake/lake.go:746-851 | one copy on success and none on an error, exactly when no transaction failed after taking effect |
| LakeInsert.AtMostOneCopyAnAttempt | internal/lake/lake.go:746-851 | whatever the transactions answer: no more copies than attempts, so at most eight, and at least one on success |
| LakeInsert.AtMostTwoCopies | internal/lake/lake.go:746-851 | if commits may take effect and report a stale connection: at most two copies, two only after a reconnect, at least one on success |
| LakeInsert.TwoCopiesReachable | internal/lake/lake.go:746-851 | two copies do occur |
| LakeHandle.ReadersUseOpenHandle | internal/lake/lake.go:666-679 | in every interleaving a caller under the shared lock uses the current handle, and it is open |
| LakeHandle.OneHandleOpen | internal/lake/lake.go:409-466 | while nobody reconnects, the current handle is the only open one |
| LakeHandle.FailedReconnectChangesNothing | internal/lake/lake.go:409-452 | a reconnect that fails at any point leaves the old handle installed and the only one open |
| LakeHandle.SuccessfulReconnectSwaps | internal/lake/lake.go:409-466 | a reconnect installs a new handle and closes exactly the one it replaced |
| LakeHandle.KeptHandleOpenIffCurrent | internal/lake/lake.go:659-659 | a handle kept without the lock is open exactly when no reconnect has succeeded since |
| LakeHandle.AnswerDecides | internal/lake/lake.go:666-679 | only a first stale answer leads to a reconnect; a second one is reported |
| LakeHandle.RetriesAreBounded | internal/lake/lake.go:666-679 | in every run a call queries at most twice and reconnects at most once, and only after a stale answer |
| LakeHandle.NoDeadlock | internal/lake/lake.go:409-466 | in every run, while some caller is inside, some caller can take its next step |
| LakeHandle.SwapsAlone | internal/lake/lake.go:409-466 | the whole state after an undisturbed call on a stale connection: a new handle, alone open, and the old one closed |
| LakeHandle.FailsAlone | internal/lake/lake.go:409-452 | the same where opening or setting up fails: the old handle |
| Tracer.TraceIffClimb | sdk/ts/src/tracer.ts:174-191 | an existing trace id is found exactly when the chain of pending parents ends at a parentless span; the loop bound always suffices |
| Tracer.NoSpanLost | sdk/ts/src/tracer.ts:38-125 | every started span is pending or was in an export that reported success, never both; a span that has not ended is pending and in no export |
| Tracer.FlushTakesEveryEnded | sdk/ts/src/tracer.ts:87-125 | a flush exports exactly the pending spans that have ended |
| Tracer.StartedMeanwhileSurvives | sdk/ts/src/tracer.ts:87-125 | a span started while an export is under way survives its completion unchanged |
| Tracer.DeliveredIsLastIff | sdk/ts/src/tracer.ts:66-125 | when an export succeeds, a span of it leaves the list as the calls made for it during the export left it, unless another export delivered it first: the delivered value is the last one exactly when those calls change nothing, as when there are none |
| Tracer.LateCallIsLost | sdk/ts/src/tracer.ts:118-132 | a value set while the export is under way is neither delivered nor pending afterwards |
| Tracer.OverlapExportsTwice | sdk/ts/src/tracer.ts:87-118 | flushes that overlap export one span twice |
| Tracer.EverySpanHasItsRootsTrace | sdk/ts/src/tracer.ts:38-64 | if spans start as roots or under a span that has not ended, and end after their children, each has its root's trace id |
| Tracer.TraceOfStart | sdk/ts/src/tracer.ts:38-64 | in every run a span keeps the trace it started with: without a parent, or if no pending parents lead to a parentless span, the id generated for it; else that span's |
| Tracer.SameTraceIffSameRoot | sdk/ts/src/tracer.ts:38-64 | in disciplined runs whose generated ids are new, two spans share a trace exactly when they share a root |
| Tracer.CallsSetFields | sdk/ts/src/tracer.ts:66-166 | field by field what ending a span and the setters set, and that they set nothing else |
| Tracer.ManualTracer.FindTraceId | sdk/ts/src/tracer.ts:174-191 | the loop returns what climbing the pending parents returns, or the fresh id |
| Tracer.ManualTracer.StartSpan | sdk/ts/src/tracer.ts:38-64 | takes the start step |
| Tracer.ManualTracer.EndSpan | sdk/ts/src/tracer.ts:66-85 | takes the end step and begins a flush; an unknown id changes nothing |
| Tracer.ManualTracer.BeginExport | sdk/ts/src/tracer.ts:87-105 | hands over the ended spans and changes no pending span |
| Tracer.ManualTracer.FinishExport | sdk/ts/src/tracer.ts:105-125 | after success removes the exported spans and no others; after failure nothing |
| Filter.CompileKeepsMeaning | internal/domain/eval.go:55-90 | compiling a tree, through or stopped part-way, changes its verdict on no span |
| Filter.CompileOkIff | internal/domain/eval.go:55-90 | compiling goes through exactly when every non-empty pattern compiles, and then all are compiled |
| Filter.CompileAgain | internal/domain/eval.go:55-90 | compiling a compiled tree again changes nothing |
| Filter.ValidIff | internal/domain/eval.go:94-160 | a filter is valid exactly when no list in it is empty, no key too deep and every non-empty pattern compiles |
| Filter.VerdictIs | internal/domain/eval.go:127-160 | which failure is reported: an empty list of its own, else a deep key anywhere, else a pattern anywhere, else the first empty list further down |
| Filter.ShallowIs | internal/domain/eval.go:94-103 | the depth limit on keys |
| Filter.VerdictKept | internal/domain/eval.go:127-160 | validating before or after compiling gives the same verdict |
| Filter.CompilePatterns | internal/domain/eval.go:55-90 | the in-place passes leave the tree that compiling its value gives, with the same meaning on every span |
| Filter.ValidateDotPaths | internal/domain/eval.go:94-122 | accepts exactly the trees in which no key has more than five parts |
| Filter.Validate | internal/domain/eval.go:127-160 | in place, on filters without nil entries: nil exactly for valid filters, then every non-empty pattern is compiled; the meaning is kept in any case |
| FilterNil.ValidatePanicsIff | internal/domain/eval.go:94-160 | with nil entries: a panic exactly when the own lists are not empty and a nil entry comes before every key that is too long; without them the verdict of the tree |
| FilterNil.WalkEndsAtFirst | internal/domain/eval.go:55-122 | the walks over keys and over patterns end at the first obstacle in order |
| FilterNil.CompilePanicsIff | internal/domain/eval.go:55-90 | with nil entries: a panic exactly when a nil entry comes before every pattern that does not compile; without them as for the tree |
| FilterNil.MatchesPanicsIff | internal/domain/eval.go:272-338 | with nil entries: a panic exactly when a list is reached in which a panicking entry is not preceded by one that ends the list; any answer is that of the filter with anything in their place |
| Filter.MatchesSpan | internal/domain/eval.go:217-338 | the loops with early exits decide the verdict of the tree |
| Filter.MatchesIff | internal/domain/eval.go:272-338 | what a match says, condition by condition on the span's fields, including durations in whole milliseconds |
| Filter.StricterAdmitsNoMore | internal/domain/eval.go:315-330 | raising a minimum or lowering a maximum admits no further span |
| Filter.NegationTurnsRound | internal/domain/eval.go:294-297 | a filter with nothing set matches every span, and negating a filter negates its verdict |
| Template.MatchAtIff | internal/judge/judge.go:122-123 | the scanner finds a tag at a position exactly when the pattern matches there, and then only one |
| Template.NameCharsAre | internal/judge/judge.go:122-123 | which characters names and white space consist of |
| Template.FindAllLeftmost | internal/judge/judge.go:130-131 | every tag is found unless it begins inside one that is |
| Template.FindAllOrdered | internal/judge/judge.go:130-131 | what is found are tags, in order, without overlap |
| Template.Interpolate | internal/judge/judge.go:127-158 | the index loop renders piecewise; missing lists unbound names in order and is empty exactly when all are bound; with nothing bound the template comes back |
| Template.InterpolateChat | internal/judge/judge.go:162-176 | every content rendered, roles untouched, missing names of all messages in order |
| Template.RenderWritten | internal/judge/judge.go:127-158 | a template written from tags and tag-free literals, braces included, renders to the literals and values, and inserted values are never scanned again |
| Template.EveryTemplateIsWritten | internal/judge/judge.go:127-158 | every template is written so |
| OtlpMessages.PrintThenRead | internal/normalizer/otlp.go:326-327 | a printed number is read back |
| OtlpMessages.DecimalDigits | internal/normalizer/otlp.go:275-276 | decimal places weigh ten times as much as the next, without leading zeros |
| OtlpMessages.AttrStringIs | internal/normalizer/otlp.go:267-280 | an attribute's text: as it is, a whole number in decimal, nothing if it is missing |
| OtlpMessages.ExtractNumberedIndex | internal/normalizer/otlp.go:376-403 | the two loops read the wrapped number between the dots, or nothing |
| OtlpMessages.IndexIff | internal/normalizer/otlp.go:376-403 | an index is found in exactly the keys of the form prefix, dot, digits, dot, anything, and is the number written there modulo 2^64 |
| OtlpMessages.BuildMessageArray | internal/normalizer/otlp.go:312-344 | whatever the order of attributes, the complete messages below the highest index, in order, or no room for them |
| OtlpMessages.EncodeThenDecode | internal/normalizer/otlp.go:312-344 | encoding non-empty messages among attributes that are not read and name no higher index, then decoding, gives the list back |
| OtlpMessages.OutsidersAreBystanders | internal/normalizer/otlp.go:312-344 | attributes outside the prefix are such attributes |
| OtlpMessages.NoRoomIff | internal/normalizer/otlp.go:312-324 | decoding fails exactly when some key names an index at or above the capacity |
| OtlpMessages.MissingDigits | internal/normalizer/otlp.go:376-403 | adding a key without digits, which has index 0, to any attributes changes nothing but that there must be room for one message |
| OtlpMessages.WrappedIndex | internal/normalizer/otlp.go:376-403 | adding a key whose index wraps below zero to any attributes changes nothing |
| OtlpMessages.UnreadMakesNoDifference | internal/normalizer/otlp.go:312-334 | nor does any key that is not a plainly written role or content key and names no index above those present |
| OtlpMessages.CollectedIff | internal/normalizer/otlp.go:323-334 | a message is decoded exactly when both its keys, with the plain decimal index, hold non-empty text |
| OtlpMessages.BuildOverflowAttributes | internal/normalizer/otlp.go:466-539 | an attribute is kept, with its value, exactly when its key is not one of the consumed ones |
| OtlpMessages.ConsumedIff | internal/normalizer/otlp.go:466-530 | which keys are the consumed ones |
| OtlpMessages.DecodedKeysAreConsumed | internal/normalizer/otlp.go:484-496 | nothing that decoding reads under a known prefix overflows |
| Prune.TwoNumbersIff | internal/lake/lakeserver/maintenance.go:204-208 | the part after the fixed prefix matches exactly the texts number, underscore, number |
| Prune.PatternIff | internal/lake/lakeserver/maintenance.go:204-208 | a name is accepted exactly if it is the fixed prefix, a number, an underscore and a number |
| Prune.Catalog.PruneEntry | internal/lake/lakeserver/maintenance.go:266-309 | one entry: kept if it has rows, else dropped or deregistered; for any answers exactly what is dropped and deregistered |
| Prune.Catalog.PruneEmptyInlinedTables | internal/lake/lakeserver/maintenance.go:239-311 | no scan of any table changes, also on failure; on success the live entries remain in order, the counts add up and dropped tables are counted; if no statement fails, it succeeds exactly when all names match |
| Prune.ScanWithout | internal/lake/lakeserver/maintenance.go:221-238 | taking out entries without rows is invisible to every scan |
| Prune.NothingLeftToPrune | internal/lake/lakeserver/maintenance.go:239-311 | on what a successful run leaves, another finds nothing to do |
| MaintenanceLoop.SkipMissesTheGap | internal/lake/lakeserver/maintenance.go:343-392 | in every run a skipped pass leaves out exactly the snapshots committed behind the statements of the last completed pass or between its end and the reading of its baseline |
| MaintenanceLoop.QuietSkipMissesNothing | internal/lake/lakeserver/maintenance.go:332-342 | if there are none, the last completed pass has dealt with everything whenever one is skipped |
| MaintenanceLoop.LateOnesArePassedOver | internal/lake/lakeserver/maintenance.go:366-375 | after any run, such snapshots are passed over, however many ticks follow |
| MaintenanceLoop.NewSnapshotIsNoticed | internal/lake/lakeserver/maintenance.go:353-363 | a snapshot committed after the baseline makes the next pass run |
| MaintenanceLoop.Scheduler.RunPass | internal/lake/lakeserver/maintenance.go:353-392 | one tick, with the skip decision and the new baseline; retention is never skipped |
| Repair.LikeSuffixIff | internal/lake/lakeserver/repair.go:107-112 | a pattern without wildcards after `%` matches exactly the texts that end in it |
| Repair.LikeOwnSuffix | internal/lake/lakeserver/repair.go:107-112 | with wildcards or without, every text that ends in the path is matched |
| Repair.ExactlyTheOwner | internal/lake/lakeserver/repair.go:107-124 | an update that affects one row while the path's own row is active retires that row alone |
| Repair.Catalog.RepairListed | internal/lake/lakeserver/repair.go:82-126 | the inner loop does what its function does with the answers it gets |
| Repair.Catalog.RepairMissingDataFiles | internal/lake/lakeserver/repair.go:59-128 | success: as many rows retired as paths reported, all of missing files, every active file of the tables readable; success, or any end without strangers: retired rows visible at no snapshot and readable files at the same ones as before |
| Repair.PathsRetireOwners | internal/lake/lakeserver/repair.go:82-126 | a pass over a list that goes through retires exactly the missing files of it |
| Repair.NoStrangersNoHarm | internal/lake/lakeserver/repair.go:107-124 | if no missing file listed for the tables is found in a readable file's row, no run retires a readable file, however it ends |
| Repair.HarmIff | internal/lake/lakeserver/repair.go:82-126 | for the inner loop over one list: it can retire a readable file exactly when the first missing file of the list that is found in other rows than its own is found in a readable one's |
| Repair.RunHarmIff | internal/lake/lakeserver/repair.go:59-128 | for a whole run over any tables: truthful answers exist under which it retires a readable file, exactly when some table has such a file in the catalog the passes over the tables before it leave, and these go through |
| Repair.RunSucceeds | internal/lake/lakeserver/repair.go:59-128 | a run over any tables that meets nothing but missing files, each found in its own row alone, succeeds |
| Repair.MissingIff | internal/lake/lakeserver/repair.go:130-145 | the texts that make an error one of a missing file |
| Repair.HitIff | internal/lake/lakeserver/repair.go:101-112 | a wildcard-free row is found exactly when it is active and the normalised path ends in its path |
| Repair.LongerNameHitsBoth | internal/lake/lakeserver/repair.go:107-123 | a run over a missing file whose name ends in a readable one's fails, having retired both |
| KeyCache.RevocationIsBounded | internal/auth/auth.go:95-134 | in every interleaving no call that begins 60 seconds or more after its key was first revoked succeeds |
| KeyCache.SuccessIsGenuine | internal/auth/auth.go:95-134 | a success hands out the stored data, and a key is only reported revoked if it was |
| KeyCache.KindIsThePrefix | internal/auth/auth.go:62-71 | the two prefixes that make a key a project's or a service's, and that no other key has a kind |
| KeyCache.JustBeforeTheBound | internal/auth/auth.go:21-24 | a nanosecond earlier a call can succeed, so the bound is exact |
| KeyCache.UninterruptedIsARun | internal/auth/auth.go:95-134 | a call alone takes these steps and leaves this cache |
| KeyCache.CachingValidator.Validate | internal/auth/auth.go:95-134 | every outcome of an uninterrupted call and when it occurs; only a fresh success writes the cache, expiring 60 seconds after the call began |
| Paging.BeforeOrder | internal/fake/metadata_store.go:598-603 | creation time and id order items strictly, and totally if their ids differ |
| Paging.BeforeIff | internal/fake/metadata_store.go:598-603 | older items come first, those of one time by id, character by character |
| Paging.ListingIgnoresOrder | internal/fake/metadata_store.go:589-603 | the sorted list does not depend on the order of map iteration |
| Paging.FakePage | internal/fake/metadata_store.go:585-633 | the page after the cursor's position, or a panic exactly for a non-positive or overflowing limit with items left |
| Paging.SqlPage | internal/metadata/sqlite/sqlite.go:1137-1197 | with the probe for one more row, the first page of the selected rows; default limit 50; a limit that overflows fails in Postgres only |
| Paging.RowsAfterMember | internal/metadata/postgres/postgres.go:1002-1058 | the rows with a greater key than an item's are the list after it |
| Paging.MemberCursorsAgree | internal/fake/metadata_store.go:605-631 | for the empty cursor and every item of the dataset, position page and key page are the same |
| Paging.OtherCursorsAgreeIff | internal/fake/metadata_store.go:605-614 | for other cursors they are the same exactly when the dataset is empty or the cursor's item precedes it all |
| Paging.WalkVisitsAll | internal/metadata/sqlite/sqlite.go:1137-1197 | following cursors from the empty one yields every item once, in order, on ceiling(n / limit) pages for n > 0 |
| Paging.WalkEnds | internal/metadata/sqlite/sqlite.go:1137-1197 | following cursors always comes to an end |
| SqlSplit.SplitStatements | internal/metadata/sqlite/sqlite.go:232-262 | the loop returns the segments, the last one trimmed or dropped |
| SqlSplit.SegmentsRejoin | internal/metadata/sqlite/sqlite.go:232-262 | joining the segments with semicolons rebuilds the text |
| SqlSplit.SegmentsAreProper | internal/metadata/sqlite/sqlite.go:232-262 | no segment contains a semicolon outside quotes and only the last may end inside quotes |
| SqlSplit.JoinThenSegments | internal/metadata/sqlite/sqlite.go:232-262 | such segments, joined, are split into themselves: there is no other way to cut |
| SqlSplit.SegmentsSplitNoFurther | internal/metadata/sqlite/sqlite.go:232-262 | a segment is a single statement |
| SqlSplit.QuoteSwallows | internal/metadata/sqlite/sqlite.go:229-231 | after an opening quote, in a comment or not, nothing is cut until its closing quote |
| SqlSplit.StatementsAre | internal/metadata/sqlite/sqlite.go:208-218 | executed are the non-blank segments, trimmed, in order |
| SqlSplit.TrimCuts | internal/metadata/sqlite/sqlite.go:208-218 | trimming takes the white space off both ends and nothing else, and leaves nothing exactly for white space |
| SqlSplit.StatementsIff | internal/metadata/sqlite/sqlite.go:208-262 | a list is what a file executes exactly when it has, in order, for each segment that is not only white space the segment without the white space around it |
| SqlSplit.InkIsExecuted | internal/metadata/sqlite/sqlite.go:208-262 | what is executed has every character that is not white space, in order |
| SqlSplit.SpacesAre | internal/metadata/sqlite/sqlite.go:210-211 | blanks, tabs and line ends are white space, printing ASCII characters are not |
| SqlSplit.QuotesAre | internal/metadata/sqlite/sqlite.go:232-262 | which characters open quotes, and that only the same one closes them |
| SqlSplit.StatementsAppend | internal/metadata/sqlite/sqlite.go:208-262 | two files joined at a semicolon outside quotes execute what both execute |
| Migrations.SqliteStore.ExecMigrationInConn | internal/metadata/sqlite/sqlite.go:208-228 | executes the statements of one migration and records its version once, and fails exactly when one of these executions does |
| Migrations.SqliteStore.Migrate | internal/metadata/sqlite/sqlite.go:110-204 | everything pending with respect to the part of the ledger that was read, or no change; succeeds exactly when the lock, every execution and the commit do |
| Migrations.ApplyingAdds | internal/metadata/sqlite/sqlite.go:208-228 | applying a file adds what it executes at the end of what was executed, and its version unless it is there |
| Migrations.PartialReadAgreesIff | internal/metadata/sqlite/sqlite.go:151-163 | a partial read gives the same database as a complete one exactly when no recorded migration with something to execute was left out; else more is executed |
| Migrations.RunsApplyOnceIff | internal/metadata/sqlite/sqlite.go:110-204 | many runs, some failing, have the effect of one complete run or of none exactly when no successful one overlooked such a migration |
| SqliteProcesses.ProcessesApplyASegment | internal/metadata/sqlite/sqlite.go:115-204 | however processes, also of older releases, interleave under the write lock, fail and misread the ledger, an initial segment is recorded, each version once and in order, and who succeeds finds all it knows recorded; each was executed just once, in order, exactly when nobody committed with a recorded migration executed again |
| SqliteProcesses.PartialRun | internal/metadata/sqlite/sqlite.go:151-196 | a run from such a database extends the segment to the files it knows, and executes nothing again exactly when it read all that matters |
| SqliteProcesses.LoneProcess | internal/metadata/sqlite/sqlite.go:115-204 | a process that comes when the write lock is free can run to success, and leaves what a sequential run with the same reading leaves |
| Migrations.SqliteRunAscends | internal/metadata/sqlite/sqlite.go:170-196 | with distinct versions exactly the unrecorded migrations run, each once, in ascending order |
| Migrations.AnyAscendingOrder | internal/metadata/sqlite/sqlite.go:170-196 | with distinct versions, whichever ascending order the unstable sort gives, the same files are pending and a run does the same |
| Migrations.CheckingOftenAgreesIff | internal/metadata/postgres/postgres.go:175-186 | reading the ledger once or before each migration gives the same database exactly when no later pending file of the same version has something to execute |
| Migrations.CheckingOftenAgrees | internal/metadata/postgres/postgres.go:175-186 | so with distinct versions |
| Migrations.SharedVersion | internal/metadata/sqlite/sqlite.go:175-196 | two files of one version: reading once both run, reading before each the first |
| Migrations.PostgresStore.Migrate | internal/metadata/postgres/postgres.go:112-191 | a failed run leaves exactly the migrations before the failure applied, and the one whose commit was only not confirmed; it succeeds exactly when nothing fails, and then all are applied |
| Migrations.RunResumes | internal/metadata/postgres/postgres.go:112-191 | a run after one that stopped anywhere ends as if it had not stopped |
| Migrations.ConcurrentRunsApplyASegment | internal/metadata/postgres/postgres.go:112-212 | however processes, also of older releases, interleave, fail and crash, an initial segment is applied, each migration once and in order, and who succeeds finds all it knows applied |
| Migrations.LoneProcess | internal/metadata/postgres/postgres.go:112-212 | a process that comes when the lock is free can run to success, and leaves what a sequential run leaves |
| Migrations.SegmentIsSequential | internal/metadata/postgres/postgres.go:112-191 | from such a database, of either kind, a lone run does what its sequential form does |

## Left out

- LakeInsert.Lake.DoInsertSpans: span columns other than id, times, input and output are one opaque field; query semantics of DuckDB are not modelled.
- LakeInsert.AtMostTwoCopies: assumes that a commit which takes effect and fails reports a stale connection and no conflict; `AnswerIsTrueIff` assumes nothing.
- IngestProtocol.SweepRecovers: stated for a sweep that nothing interrupts and whose pushes succeed; `IngestRecovery.RecoveryLasts` is about pushes among any other steps.
- IngestQueue.IngestQueue.Requeue: assumes, as `IngestProtocol` does, that a command is applied at most once. The Redis client is created with its library's default retries (services/ingest/internal/server/server.go:47), under which a push or removal whose reply is lost may be applied again; what that does to the lists is not covered.
- IngestProtocol.NothingAcceptedIsForgotten: evaluation enqueues, cost computation, metrics, grace periods and timeouts of the writer and the sweep are not modelled; a sweep may act at any time, which covers every timing.
- LakeHandle.ReadersUseOpenHandle: `Close`, `SpanStartTime` and `FlushInlinedData` use the handle without the lock, and rows are read after the lock is released; neither is covered.
- Tracer.NoSpanLost: spans are values in the list, so a caller that keeps a reference to one and changes it directly is not covered; generated ids are assumed fresh.
- Filter.Validate: reports the kind of the first failure, not its path in the message; nodes are assumed not to share pattern slices; nil entries are the subject of `FilterNil`, on values.
- Filter.MatchesSpan: resolving a dotted path inside JSON attributes is an uninterpreted function of the span, and durations do not saturate.
- Template.Interpolate: characters are Unicode code points; the original's byte offsets give the same text because tags are ASCII.
- OtlpMessages.BuildMessageArray: the list is returned, its rendering as JSON is not modelled; "%v" texts of other values are given; capacity stands for what the allocator accepts.
- Prune.Catalog.PruneEmptyInlinedTables: table names are unique, and no other connection writes between two statements, as the original argues for its single connection.
- Repair.Catalog.RepairMissingDataFiles: storage does not change during a run, and an error that looks like a missing file is truthful.
- KeyCache.CachingValidator.Validate: a raw key stands for its SHA-256 hash, and a revocation time that cannot be parsed, which the original would take for none, does not occur.
- Paging.SqlPage: ids compare by code point as in a binary collation, times compare as instants; a locale-dependent Postgres collation is not covered; errors while scanning rows are not modelled.
- Migrations.SharedVersion: the order of two files of one version is the one given; the original's sort may exchange them.
- FilterNil.CompilePanicsIff: which patterns are compiled by the time of a panic is not stated.
- Migrations.SqliteStore.Migrate: a failed COMMIT, or a failed ROLLBACK as with a cancelled context, leaves the transaction open on the pooled connection. The database others see is unchanged and `SqliteProcesses` models that the lock stays taken, but not other statements that later use that connection. The version number in a file name is given.
- Migrations.ConcurrentRunsApplyASegment: all processes share one list of migrations with distinct versions, of which each knows an initial part.
- The compaction and retention statements of RunMaintenance: library behaviour; a pass is a number of snapshots it commits and whether it fails.
- HTTP handlers, middleware, SDK network calls, S3 and Redis clients, hashing and id generation: foreign calls, present as parameters or arbitrary answers.
- internal/otlp/translator.go: duplicates the decoding modelled here.
- Pricing, rollups, probes, percentile helpers and simple store operations: they would add only easy members.
