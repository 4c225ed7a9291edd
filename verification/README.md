# OpenTrade Registry: verified model

OpenTrade Registry imports official license registers into a local SQLite cache, keeps archived
snapshots of the sources, promotes validated imports into a hosted record table, and answers license
lookups from either side. This project models the parts of it in which state, order and failure
interact, and proves what they promise:

- **Resumable import** (`RegistrySync`, `SqliteCache`, `RowOutcomes`, `CallOutcomes`, `CallReport`,
  `ResumableImport`, `ResumeEquivalence`, `FailedImport`, `ResumedRuns`, `ResumedChains`). `sync` streams a file into the
  cache, commits and checkpoints every few records, and can be interrupted and resumed. The call and the
  cache are classes; their methods are proved equal to
  functions of the file, the options and the cache state, and the laws are about those functions, for
  every file, interval, failure and chain of calls and restarts.
- **The CSV stream** (`CsvText`, `CsvStream`, `SyncStream`): the line scanner against a grammar, the
  exporter's cells as its inverse, the row generator with its resume row and limit, and the generator as
  the thing that drives the import loop.
- **Fingerprints** (`CanonicalJson`, `JsonGrammar`): the canonical text decides equality of JSON values, and
  is a JSON text of its value.
- **Snapshot archive** (`SnapshotArchive`, `Digests`): head, conditional put, head, verify, for any interleaving of
  any number of callers.
- **Promotion** (`Promotion`, `CurrentRecords`, `ImportRows`, `ImportHandler`, `PromotedImport`):
  readiness, the keyed difference, the database transaction that performs it, the job handler around
  them, and what job and transaction publish together.
- **Lookups** (`LicenseNumbers`, `Verification`, `RegistryVerify`, `IndexAgreement`, `CacheLookup`,
  `Redaction`): the cache as an index of the source, and what redaction may change.
- **Record API** (`Pagination`, `RateLimit`): keyset pages over a table that changes between requests,
  and the fixed-window limiter with its bounded map.

`Records`, `Wrappers` and `Sorting` hold shared data types and the sorting laws.

## What the proofs showed about the code

- The job handler checks its own list, which names the payload's source, but inserts each record under
  the source that `normalize` gave it (`services/ingestion-worker/src/import-handler.ts:199-200`, `350`).
  A job succeeds whatever sources its records name (`SuccessIgnoresSource`); its promotion leaves other
  sources alone exactly when every first record names the job's source (`RunJob`). Otherwise it takes the
  other source's record over (`ForeignRecordTakesOver`), and its own record of that key disappears with
  no removal recorded (`ForeignVersionTakesOver`).
- A run that is interrupted while `importRecord` throws counts a row it never stored
  (`packages/registry/src/index.ts:143`, `165`, `199`). `LosesRowExactly` says for which arguments, and
  `LostRowIsRecoveredExactly` that the resumed run has the record exactly when a later row brings it
  again; `AbortDuringImportLosesRecord` is such a call. Over any chain of calls and restarts the table is
  the full import without the lost rows (`ChainLeavesAllButLost`, `ChainKeepsExactly`).
- In strict mode an abort that coincides with a row's exception lets the resumed run pass over the
  refused row. It can be no other row than the last one noted before a resumption
  (`StrictResumeSkipsExactly`, for chains `StrictChainSkipsExactly`; `StrictResumeSkipsFailedRow` is such
  a run).
- Fingerprints seen before an interruption are forgotten, so the split into normalized and duplicate
  rows can change on resuming: it is kept exactly when no fresh record after the interruption repeats a
  fingerprint from before it (`SplitSurvivesExactly`, `StoppedSplitSurvivesExactly`, for chains
  `ChainCountsExactly`). If no row is lost, the table, the last row and the raw count are kept always.
- An import whose only failure is the last write of the file keeps all its records in the open database,
  although it reports failure (`CallLeavesExactly`, `LastWriteFailureKeepsRecords`).
- A call whose last write fails counts every warning, and every error but the last, twice: the totals are
  taken once before the write and again in the catch block (`packages/registry/src/index.ts:187-188`,
  `205-206`, `TotalsAreExact`). In all other calls they are exact.
- A caller that spells its SHA-256 in upper case cannot verify the object it has just written, because
  only the stored value is lower-cased (`services/ingestion-worker/src/archive.ts:122-123`,
  `SameSnapshotSucceedsForAll`).
- A source row that occurs twice makes a scan `ambiguous` while the cache answers `matched`; candidate
  counts agree exactly when every candidate carries source and number in the indexed columns and none is
  repeated (`IndexAgreesWithScan`).
- A redaction lasts over a later import exactly when no row of the imported file brings the record;
  otherwise the original takes its place (`RedactionLastsExactly`).
- A client of the rate limiter is allowed at most `2 * limit - 1` calls in any interval of one window's
  length (`RateIsBounded`). For windows of at least 2 ms that bound is reached
  (`TwoWindowsMeetTheBound`); for windows of 1 ms it is the limit itself (`OneMillisecondIsBounded`).
- A search with the limit 0, which the HTTP layer refuses, hands out a cursor that the next request
  refuses, if anything matches (`LimitZeroCannotContinue`).

## Model

| member | source | states |
|---|---|---|
| `SqliteCache.OpenTradeSqliteCache.Open` | packages/storage-sqlite/src/index.ts:219-266 | fails exactly for a file that cannot be read, is missing and must not be created, or has a newer schema; an opened cache holds the file image, has no transaction and counts as changed |
| `SqliteCache.OpenTradeSqliteCache.BeginImport` | packages/storage-sqlite/src/index.ts:281-285 | refused while a transaction is active; otherwise remembers what to roll back to |
| `SqliteCache.OpenTradeSqliteCache.ImportRecord` | packages/storage-sqlite/src/index.ts:287-293 | refused outside a transaction; otherwise replaces or adds the one row with the record's own source and fingerprint |
| `SqliteCache.OpenTradeSqliteCache.CommitImport` | packages/storage-sqlite/src/index.ts:295-302 | refused outside a transaction; keeps the data, marks the cache changed if anything was imported, and returns how many records were |
| `SqliteCache.OpenTradeSqliteCache.RollbackImport` | packages/storage-sqlite/src/index.ts:304-308 | restores the database of the transaction's begin, and is harmless without one |
| `SqliteCache.OpenTradeSqliteCache.StartImportRun` | packages/storage-sqlite/src/index.ts:310-332 | the run starts running and from zero, even if its id was used before; nothing else changes |
| `SqliteCache.OpenTradeSqliteCache.ResumeImportRun` | packages/storage-sqlite/src/index.ts:334-338 | succeeds only for an interrupted run, and changes nothing but its status |
| `SqliteCache.OpenTradeSqliteCache.CheckpointImportRun` | packages/storage-sqlite/src/index.ts:340-357 | replaces the progress of a known run and fails for an unknown one |
| `SqliteCache.OpenTradeSqliteCache.FinishImportRun` | packages/storage-sqlite/src/index.ts:359-363 | sets the status of a known run and fails for an unknown one |
| `SqliteCache.OpenTradeSqliteCache.Save` | packages/storage-sqlite/src/index.ts:443-454 | refused inside a transaction; the file image is replaced as a whole or not at all |
| `SqliteCache.OpenTradeSqliteCache.SelectByNumber` | packages/storage-sqlite/src/index.ts:391-394 | the query yields every matching row once, in id order |
| `SqliteCache.OpenTradeSqliteCache.FindByLicenseNumber` | packages/storage-sqlite/src/index.ts:388-397 | exactly the records of the source whose stored number is the normal form asked for |
| `SqliteCache.OpenTradeSqliteCache.Verify` | packages/storage-sqlite/src/index.ts:399-413 | missing input, not found, ambiguous or matched, by the number of matching records; normalizing a second time does not matter |
| `SqliteCache.OpenTradeSqliteCache.Redact` | packages/storage-sqlite/src/index.ts:415-434 | all matching rows are redacted as of the given time or none is; with matches it is refused inside a transaction; the count is the number of matches |
| `SqliteCache.RedactedUpToEnd` | packages/storage-sqlite/src/index.ts:421-430 | redacting the found rows one by one redacts exactly the matching rows of the table |
| `SqliteCache.OpenTradeSqliteCache.PruneExpiredRetention` | packages/storage-sqlite/src/index.ts:436-441 | removes exactly the rows whose retention ended before, not at, the given time, and counts them |
| `RegistrySync.SyncCall.StreamRows` | packages/registry/src/index.ts:140-186 | the loop ends where the first exception or the end of the file is, in the state of the row-by-row definition |
| `RegistrySync.OpenTradeRegistry.Sync` | packages/registry/src/index.ts:79-216 | the whole call, from every cache state and under every exception, is the specified outcome |
| `RowOutcomes.CallThrowsExactly` | packages/registry/src/index.ts:135-186 | the row loop gets through exactly when every row is accepted and the outside exception hits none of them, checkpoint saves included |
| `RowOutcomes.CallCompletesExactly` | packages/registry/src/index.ts:140-212 | a call completes exactly when its loop gets through and the last write of the file succeeds |
| `RowOutcomes.UndisturbedCallCompletesExactly` | packages/registry/src/index.ts:135-163 | without outside trouble a call completes exactly when no row it meets is refused |
| `RowOutcomes.CallLeavesRun` | packages/registry/src/index.ts:186-211 | after every call its run is there and completed, interrupted or failed by answer and options; the saved file is the old one, the final one or a checkpoint |
| `CallOutcomes.CallLeavesExactly` | packages/registry/src/index.ts:135-211 | the table of every call, however it ends, told by the first row that throws: all written records, those of the last checkpoint, or none; and the normalized count and last row it notes |
| `CallReport.CallEndsExactly` | packages/registry/src/index.ts:135-211 | everything but the table after every call, told by the rows: the errors in row order and what was caught, the warnings, all counts of result and run row, the other runs, the changed mark, and the saved file with the last checkpoint it holds |
| `CallReport.CallIsTurnedAwayExactly` | packages/registry/src/index.ts:99-134 | which calls fail at once without changing anything, and what a call inside a foreign transaction answers and notes |
| `CallReport.StoredRowsAre` | packages/registry/src/index.ts:164-165 | each stored row carries the run, its retention and no redaction, the last record of a key stays, other rows are untouched |
| `ResumableImport.LastRowStandsForRows` | packages/registry/src/index.ts:143 | the saved last row stands for as many imported and counted rows as the position in the file |
| `ResumableImport.ImportedHas` | packages/storage-sqlite/src/index.ts:136-145 | the table holds the record of every good row that was imported, whatever came later |
| `ResumableImport.CheckpointKeepsInvariant` | packages/registry/src/index.ts:169-184 | what a checkpoint saves or a rollback restores has the data its run row counts |
| `ResumableImport.LoopKeepsInvariant` | packages/registry/src/index.ts:140-186 | every step of the row loop keeps the table equal to the imported prefix, and every exception is caught in such a state |
| `ResumableImport.LosesRowExactly` | packages/registry/src/index.ts:143-165 | a run ends interrupted without data it counts exactly when it is resumable and aborted, importRecord fails for a record the table does not have, and no earlier row throws |
| `ResumableImport.CallKeepsPromises` | packages/registry/src/index.ts:94-212 | one call from any covered state: completed means the whole file; interrupted means covered data, except exactly for the calls of LosesRow, which lack one record; the saved file is old, final or a checkpoint |
| `ResumableImport.SavedImageNeverRunsAhead` | packages/registry/src/index.ts:169-211 | a saved image holds the record of every row its run counts, unless the run failed or this is the one lost row |
| `ResumeEquivalence.EventKeepsInvariant` | packages/registry/src/index.ts:105-129 | every call or restart leaves database and file untouched or covered |
| `ResumeEquivalence.CompletedChainIsFullImport` | packages/registry/src/index.ts:94-212 | any chain of calls and restarts that completes has imported exactly the whole file |
| `ResumeEquivalence.InterruptAndResumeEqualsOneCall` | packages/registry/src/index.ts:94-216 | interrupting and resuming until completion gives the table, last row and raw count of one undisturbed call |
| `ResumeEquivalence.AbortDuringImportLosesRecord` | packages/registry/src/index.ts:164-165 | an abort during a failing import loses the record for good |
| `ResumeEquivalence.StrictResumeSkipsFailedRow` | packages/registry/src/index.ts:158-162 | an abort during a strict failure lets the resumed run complete without the row |
| `ResumeEquivalence.ResumeRecountsDuplicates` | packages/registry/src/index.ts:96 | a two-row file on which the split between normalized and duplicate rows changes |
| `FailedImport.FailureLeavesWholeBatches` | packages/registry/src/index.ts:169-212 | in particular a failed call leaves a whole number of batches of its new records, at most one batch short of what it counted; not resumable: none, unless the loop got through and only the last write failed |
| `FailedImport.LastWriteFailureKeepsRecords` | packages/registry/src/index.ts:190-212 | when only the last write fails, call and run have failed but all records stay in the open cache |
| `FailedImport.FailedCallKeepsRecord` | packages/registry/src/index.ts:190-212 | such a call, for every target and record: one row, not resumable |
| `FailedImport.NoTransactionLeftOpen` | packages/registry/src/index.ts:131-134 | no call leaves its own transaction open or touches somebody else's, and a refused resume changes nothing |
| `FailedImport.EveryRowIsAccountedFor` | packages/registry/src/index.ts:142-164 | rows read equal normalized plus duplicate plus failed ones, at every end of a call |
| `FailedImport.TotalsAreExact` | packages/registry/src/index.ts:187-206 | result and run total the call's warnings and errors once, exactly unless the last write fails after the loop: then all but the last error count twice |
| `ResumedRuns.SplitSurvivesExactly` | packages/registry/src/index.ts:96-163 | the normalized count survives an interruption exactly when no fresh record after it repeats a fingerprint from before it |
| `ResumedRuns.StoppedSplitSurvivesExactly` | packages/registry/src/index.ts:96-163 | the same told by the arguments, for a call stopped before row k + 1 |
| `ResumedRuns.StrictResumeSkipsExactly` | packages/registry/src/index.ts:135-163 | where a strict run was interrupted at row k and resumed to completion, one strict call completes exactly if row k is acceptable |
| `ResumedRuns.LostRowIsRecoveredExactly` | packages/registry/src/index.ts:145-165 | the resumed run has a lost record exactly when a later row brings its content again |
| `ResumedChains.ChainCountsExactly` | packages/registry/src/index.ts:96-163 | a completed chain of calls and restarts counts at least as many records as one call, equally many exactly when no stretch behind a resumption repeats a fingerprint from before it |
| `ResumedChains.StrictChainSkipsExactly` | packages/registry/src/index.ts:135-163 | where a chain of strict calls completes, one strict call completes exactly if each last row before a resumption is acceptable |
| `ResumedChains.LossIsTraced` | packages/registry/src/index.ts:143-165 | the rows that the trace of a chain calls lost are those of the calls of LosesRow, unless the table had the record before |
| `ResumedChains.ChainLeavesAllButLost` | packages/registry/src/index.ts:143-165 | a completed chain leaves the import of the whole file without the rows it lost |
| `ResumedChains.ChainKeepsExactly` | packages/registry/src/index.ts:143-165 | it has a row's record exactly when the cache had it before or a row that was not lost brings it |
| `SyncStream.LoopFeedsOnEvents` | packages/registry/src/index.ts:140-186 | the import loop does exactly what the generator's events make it do, up to any exception between rows |
| `SyncStream.SyncConsumesTheStream` | packages/core/src/adapter/csv-records.ts:23-69 | resuming the generator after a row and looping over the whole file from that row are the same |
| `SyncStream.ResumingCsvImportEqualsOneCall` | packages/core/src/adapter/csv-records.ts:23-69 | for every CSV file of an adapter that looks at fingerprinted content only, interrupting and resuming equals one call |
| `CsvText.ParseCsvLine` | packages/core/src/parse/csv.ts:19-66 | the scanning loop accepts exactly the lines of the grammar and returns their decoding |
| `CsvText.ParserDecidesGrammar` | packages/core/src/parse/csv.ts:19-66 | a line parses to given values exactly when it is a comma-joined encoding of them, so decoding is unique |
| `CsvText.ErrorIsFirstOffence` | packages/core/src/parse/csv.ts:40-63 | an error names the first offending character: the text before it is a line, no line starts with the text through it; an unterminated line needs one more quote |
| `CsvText.ParsingExportedRow` | packages/cli/src/import/export.ts:69-79 | parsing an exported row returns its cells with only the formula guard added |
| `CsvText.ExportedRowIsFaithful` | packages/cli/src/import/export.ts:72-79 | each cell comes back as it was or behind an apostrophe; the row comes back unchanged exactly when no cell starts like a formula |
| `CsvText.CellIsWritten` | packages/cli/src/import/export.ts:72-79 | a cell gets its apostrophe exactly before = + - @ tab or carriage return, and its quotes exactly for a quote, comma or line break |
| `CsvStream.StreamCsvFileRows` | packages/core/src/parse/csv.ts:68-81 | every physical line keeps its number; blank lines are silent and malformed ones broken |
| `CsvStream.LineIsRead` | packages/core/src/parse/csv.ts:68-81 | a line is empty exactly if it is white space; otherwise, without one byte order mark at its start, it has exactly the fields it encodes, or is broken |
| `CsvStream.StreamMappedCsvRecords` | packages/core/src/adapter/csv-records.ts:23-69 | the generator's events, in order, for every header mode, resume row, limit and error mode |
| `CsvStream.HeaderIsFirstFields` | packages/core/src/adapter/csv-records.ts:23-38 | the header is the configured one, or the first line that has fields |
| `CsvStream.SilentStreamThrows` | packages/core/src/adapter/csv-records.ts:30-53 | without a callback the first row that would be reported ends the stream with an exception, and nothing changes before it |
| `CsvStream.StreamIsRowByRow` | packages/core/src/adapter/csv-records.ts:30-69 | with error callback and without limit, each line acts by its own role, independent of the others' mapping |
| `CsvStream.ResumedStreamIsSuffix` | packages/core/src/adapter/csv-records.ts:39 | starting after row k yields exactly the full stream's records beyond k, in order |
| `CsvStream.LimitCutsTheStream` | packages/core/src/adapter/csv-records.ts:66-67 | a limit cuts the stream right behind that many records and changes nothing before |
| `CsvStream.EveryLineIsAccountedFor` | packages/core/src/adapter/csv-records.ts:34-53 | every line is exactly one of blank, header, skipped, reported, yielded; events occur once, by ascending row |
| `CanonicalJson.TextDecidesEquality` | packages/core/src/normalize/fingerprint.ts:7-21 | two values serialize equally exactly when they are equal with objects read as maps |
| `CanonicalJson.KeyOrderIsIrrelevant` | packages/core/src/normalize/fingerprint.ts:17-20 | adding the entries of an object in another order leaves the text alone |
| `CanonicalJson.Unambiguous` | packages/core/src/normalize/fingerprint.ts:7-21 | no text continues as another value: equal concatenations have equal values and equal rests |
| `CanonicalJson.QuoteUnambiguous` | packages/core/src/normalize/fingerprint.ts:19 | a quoted string ends where its closing quote is, whatever it contains |
| `JsonGrammar.StringifySpells` | packages/core/src/normalize/fingerprint.ts:7-21 | the canonical text is a JSON text of its value by sections 2 to 7 of RFC 8259, numerals taken as they are, with ascending keys |
| `JsonGrammar.EscapeIsShortest` | packages/core/src/normalize/fingerprint.ts:8-9 | no other spelling of a character in a JSON string is shorter, and none of the same length differs but in the case of hexadecimal digits |
| `Sorting.TextLessDecides` | packages/core/src/normalize/fingerprint.ts:17-18 | the order of the keys is decided by the first different character, or by the shorter text |
| `SnapshotArchive.WriteOnce` | services/ingestion-worker/src/archive.ts:48-68 | in every interleaving an object appears at most once and never changes |
| `SnapshotArchive.SuccessfulCallersAgree` | services/ingestion-worker/src/archive.ts:114-144 | all successful callers of a location agree on checksum, size, source and evidence |
| `SnapshotArchive.OutcomeIsDecidedByStore` | services/ingestion-worker/src/archive.ts:114-133 | a caller whose requests went through succeeds exactly when the stored object carries its values |
| `SnapshotArchive.OutcomeIsDecidedByDigest` | services/ingestion-worker/src/archive.ts:45-134 | for a caller that spells a digest, the same told by the digest: size, spelling up to case, checksum bytes and source of the stored object |
| `SnapshotArchive.MismatchIsFirst` | services/ingestion-worker/src/archive.ts:114-134 | a refusal names the first of size, spelled digest, checksum and source that differs |
| `SnapshotArchive.WrittenObjectHolds` | services/ingestion-worker/src/archive.ts:50-64 | the written object has the digest itself as checksum, however the caller spells it |
| `SnapshotArchive.RequestFailureIsOwn` | services/ingestion-worker/src/archive.ts:45-82 | a caller reports a failed request exactly when one of its own requests failed |
| `Digests.HexRoundTrip` | services/ingestion-worker/src/archive.ts:56 | reading the hexadecimal text of any digest returns the digest |
| `Digests.HexIgnoresCase` | services/ingestion-worker/src/archive.ts:127 | capital hexadecimal digits are read like small ones |
| `Digests.LowerCaseIs` | services/ingestion-worker/src/archive.ts:122 | lower case turns A-Z into a-z and keeps every other character |
| `SnapshotArchive.SameSnapshotSucceedsForAll` | services/ingestion-worker/src/archive.ts:45-71 | with equal values at an empty location every undisturbed caller succeeds, exactly when the checksum is in lower case |
| `SnapshotArchive.CallersFinish` | services/ingestion-worker/src/archive.ts:45-71 | four steps of its own end every caller, whatever the others do |
| `SnapshotArchive.ObjectStore.EnsureArchived` | services/ingestion-worker/src/archive.ts:45-71 | one caller alone: the protocol run, which requests make it fail, what is written, and the verdict on the object that is there |
| `Promotion.AssertPromotionReady` | packages/core/src/ingestion/manifest.ts:61-93 | accepts exactly ready manifests and records; an error names the first defect in the order of the checks |
| `Promotion.FingerprintSpellsDigest` | packages/core/src/ingestion/manifest.ts:37 | a well-formed fingerprint is exactly the spelling of 32 bytes |
| `Promotion.IndexRecords` | packages/core/src/ingestion/manifest.ts:134-146 | indexes exactly when all records belong to the source and no key repeats |
| `Promotion.BuildPromotionPlan` | packages/core/src/ingestion/manifest.ts:95-132 | succeeds exactly for ready input and indexable previous records; the actions turn the previous map into the next one, the counts add up on both sides, and the keys ascend; an error is the first defect of the input |
| `Promotion.DifferenceApplies` | packages/core/src/ingestion/manifest.ts:106-118 | applying the difference to the previous records gives the next ones |
| `Promotion.PlanIsDetermined` | packages/core/src/ingestion/manifest.ts:120 | previous and next determine the plan, given a strict total key order |
| `Promotion.InputOrderIsIrrelevant` | packages/core/src/ingestion/manifest.ts:95-120 | permuting the inputs gives the same plan |
| `Promotion.CountsAddUp` | packages/core/src/ingestion/manifest.ts:121-131 | added, changed and unchanged make up the next records; changed, unchanged and removed the previous ones |
| `Promotion.CountIsCardinality` | packages/core/src/ingestion/manifest.ts:121-123 | each count is the number of distinct keys changed in that way |
| `CurrentRecords.PromotionPublishesStaged` | infra/postgres/migrations/0001_v2_record_platform.sql:263-364 | promotes exactly validated manifests, once; the source publishes what was staged in its name; all of it is published, and other sources are left alone, exactly when all was staged in its name; other manifests, their versions and changes stay |
| `CurrentRecords.PromotionFollowsPlan` | infra/postgres/migrations/0001_v2_record_platform.sql:286-358 | the recorded changes are the plan's actions, and applying the plan gives what is published, under an exact condition each |
| `CurrentRecords.ChangesAreDifferenceExactly` | infra/postgres/migrations/0001_v2_record_platform.sql:286-322 | the recorded changes are the keyed difference exactly when every staged version finds under its own source what the manifest's source publishes |
| `CurrentRecords.ForeignVersionTakesOver` | infra/postgres/migrations/0001_v2_record_platform.sql:286-358 | a version in another source's name takes that source's record over, and the own record disappears without a recorded removal |
| `ImportHandler.ImportStore.MarkFailed` | services/ingestion-worker/src/import-handler.ts:382-390 | a promoted manifest is never demoted |
| `ImportHandler.ImportStore.Promote` | services/ingestion-worker/src/import-handler.ts:392-394 | fails unless the manifest is validated |
| `ImportRows.FirstOccurrenceIsInserted` | services/ingestion-worker/src/import-handler.ts:183-199 | exactly the first record of every key is inserted, under the source it names itself |
| `ImportRows.FirstOccurrenceIsStaged` | services/ingestion-worker/src/import-handler.ts:183-200 | exactly the first record of every key is listed for the readiness check, under the payload's source |
| `ImportRows.ListIsInsertedExactly` | services/ingestion-worker/src/import-handler.ts:199-200 | what is checked is what is inserted exactly when every first record names the payload's source |
| `ImportRows.ReadinessAfterLoop` | services/ingestion-worker/src/import-handler.ts:205-227 | after the loop, readiness is exactly no errors and well-formed records; raw then equals normalized plus duplicates |
| `ImportRows.CountsTellRows` | services/ingestion-worker/src/import-handler.ts:149-200 | the counts of the loop are numbers of rows, of warnings and of different keys |
| `ImportHandler.SnapshotImport.Handle` | services/ingestion-worker/src/import-handler.ts:119-256 | a job succeeds exactly when it is accepted, no outside call fails it and its rows are clean; otherwise the answer is that of the first row, call or readiness check that failed, and what was inserted by then stays; a job of another source or without adapter is refused before anything is called; promotion is called only after the last stage, second verification, second admission, readiness and validation, with the first records in the database and counts that add up; later failures reach the failure mark |
| `PromotedImport.ImportPublishesFirstOccurrences` | services/ingestion-worker/src/import-handler.ts:199-230 | the promotion of what the loop inserted publishes exactly the first record of each key that names the source; other sources are left alone exactly when no first record names one |
| `PromotedImport.RunJob` | services/ingestion-worker/src/import-handler.ts:119-256 | one job on the database: it publishes the first records or changes nothing that is published; success means published, failure means not, unless the failing call was the promotion and took effect; success exactly for accepted, undisturbed jobs with clean rows |
| `PromotedImport.SuccessIgnoresSource` | services/ingestion-worker/src/import-handler.ts:200-227 | the job's success does not depend on the sources its records name |
| `PromotedImport.ForeignRecordTakesOver` | services/ingestion-worker/src/import-handler.ts:199-230 | a first record of another source becomes that source's current record after the job |
| `PromotedImport.ForeignRowSucceeds` | services/ingestion-worker/src/import-handler.ts:199-227 | such a job exists for any two sources: one clean row |
| `LicenseNumbers.NormalFormsAreFixedPoints` | packages/core/src/normalize/license-number.ts:1-8 | the fixed points of normalization are the non-empty strings of letters A-Z and digits; normalizing twice changes nothing |
| `LicenseNumbers.NormalFormByCharacter` | packages/core/src/normalize/license-number.ts:1-8 | each character contributes the letters and digits of its upper case, and nothing else is in the normal form |
| `LicenseNumbers.SpellingDoesNotMatter` | packages/core/src/normalize/license-number.ts:6 | numbers that agree in upper case, character by character, have the same normal form |
| `LicenseNumbers.SeparatorsDoNotMatter` | packages/core/src/normalize/license-number.ts:6 | text without letters and digits can stand anywhere in a number without changing it |
| `LicenseNumbers.DigitFormIsTheNumber` | packages/core/src/normalize/license-number.ts:10-21 | two digit forms are equal exactly when they denote the same number |
| `LicenseNumbers.DigitFormDenotes` | packages/core/src/normalize/license-number.ts:10-21 | the digit form denotes the number of the digits that occur, without leading zeros, and is missing exactly if none occurs |
| `RegistryVerify.VerifyFile` | packages/registry/src/index.ts:218-254 | the scan answers by the number of rows that carry the number in any of three ways; every row has exactly the warnings it deserves, as often as it deserves them and in row order |
| `RegistryVerify.ScanCountsRows` | packages/registry/src/index.ts:239-252 | the answer counts the rows whose numbers include the normal form asked for: none, the one, or all of them |
| `RegistryVerify.SameSpellingSameAnswer` | packages/registry/src/index.ts:218-254 | numbers that agree in upper case get the same answer from scan and cache |
| `RegistryVerify.VerifyCache` | packages/registry/src/index.ts:224-229 | cache mode answers like the cache asked directly |
| `IndexAgreement.CompletedCallIndexes` | packages/registry/src/index.ts:140-197 | one completed call makes the table an index of its file |
| `IndexAgreement.CompletedChainIndexes` | packages/registry/src/index.ts:94-212 | so does any completed chain of calls and restarts |
| `IndexAgreement.IndexAgreesWithScan` | packages/registry/src/index.ts:239-252 | cache matches are the scan candidates with source and number in the indexed columns; equally many exactly when all have them and none repeats |
| `IndexAgreement.AnswersAgree` | packages/storage-sqlite/src/index.ts:399-413 | scan not found implies cache not found, cache ambiguous implies scan ambiguous |
| `IndexAgreement.SingleMatchAgrees` | packages/storage-sqlite/src/index.ts:388-413 | the one record a scan finds is what the cache finds, or it finds nothing, by its indexed columns |
| `IndexAgreement.RepeatedRowIsAmbiguousInScanOnly` | packages/registry/src/index.ts:245 | a repeated row is ambiguous for the scan and matched in the cache |
| `CacheLookup.RedactionKeepsLookups` | packages/storage-sqlite/src/index.ts:415-434 | every lookup finds the same fingerprints in the same order; only the records redacted for are changed |
| `CacheLookup.RedactionKeepsAnswers` | packages/storage-sqlite/src/index.ts:415-434 | the kind of every answer survives every redaction |
| `CacheLookup.RedactionLastsExactly` | packages/storage-sqlite/src/index.ts:136-145 | a redaction lasts over an import exactly when no row of the file brings the record; otherwise the original takes its place |
| `CacheLookup.FindableExactly` | packages/storage-sqlite/src/index.ts:388-391 | a stored record can be found by some question exactly when its stored number is in normal form |
| `CacheLookup.AnswerCountsRows` | packages/storage-sqlite/src/index.ts:388-413 | the answer counts the stored rows of the source with the normal form asked for, each once and by ascending fingerprint |
| `Redaction.RedactionsUnite` | packages/storage-sqlite/src/index.ts:470-482 | two redactions remove what either removes, in any order; repeating one changes nothing |
| `Redaction.RedactionHidesExactly` | packages/storage-sqlite/src/index.ts:470-482 | two records look alike after redaction exactly when they agree on the fields that stay |
| `Redaction.RedactionRemoves` | packages/storage-sqlite/src/index.ts:470-482 | what each option removes by default and when given; nothing else changes |
| `Pagination.SearchLicenses` | services/record-api/src/postgres.ts:14-65 | the first matches beyond the cursor, at most the limit, and a cursor exactly when more remain |
| `Pagination.BuildConditions` | services/record-api/src/postgres.ts:15-29 | the where clause selects exactly the wanted rows beyond the cursor; an error exactly for a bad cursor |
| `Pagination.FreshSearchIsFirstPage` | services/record-api/src/postgres.ts:15-64 | a search without a cursor never fails and returns the first wanted rows of the whole table |
| `Pagination.CursorSearchIsNextPage` | services/record-api/src/postgres.ts:26-64 | a search with a cursor fails exactly for a cursor that is no safe, non-negative integer, and returns the first wanted rows above it otherwise |
| `Pagination.NextRequestIsAcceptedExactly` | services/record-api/src/postgres.ts:59-64 | the request after a page with a cursor is accepted exactly when the page has a last record with a safe id, and continues behind it |
| `Pagination.LimitZeroCannotContinue` | services/record-api/src/postgres.ts:59-64 | a search with the limit 0 that matches anything hands out a cursor that the next request refuses |
| `Pagination.ContinuingFindsTheRest` | services/record-api/src/postgres.ts:26-29 | continuing after the k-th match finds exactly the matches after it |
| `Pagination.PagesTileTheMatches` | services/record-api/src/postgres.ts:52-64 | following the cursors takes exactly the needed number of pages and visits all matches once, in order |
| `Pagination.NothingIsVisitedTwice` | services/record-api/src/postgres.ts:26-29 | even if the table changes between pages, ids only ascend |
| `Pagination.WhatStaysIsVisited` | services/record-api/src/postgres.ts:52-64 | a record wanted and present at every request is visited by a complete walk |
| `Pagination.FreshWalkVisitsAll` | services/record-api/src/postgres.ts:15-64 | over a table that stays, a complete walk from a request without a cursor visits every wanted row once, in id order, and nothing else |
| `Pagination.FreshWalkVisitsWhatStays` | services/record-api/src/postgres.ts:15-64 | over tables that change, it visits every row that is wanted at every request |
| `RateLimit.CreateFixedWindowRateLimiter` | services/record-api/src/rate-limit.ts:11-16 | accepts exactly positive safe integers, and errors name the first bad option |
| `RateLimit.FixedWindowRateLimiter.PruneExpired` | services/record-api/src/rate-limit.ts:37-41 | deletes exactly the windows that are over |
| `RateLimit.FixedWindowRateLimiter.Allow` | services/record-api/src/rate-limit.ts:19-33 | one call answers and updates the map as specified, in every branch |
| `RateLimit.RateIsBounded` | services/record-api/src/rate-limit.ts:19-33 | fewer than twice the limit in any interval of one window, whatever other clients do |
| `RateLimit.TwoWindowsMeetTheBound` | services/record-api/src/rate-limit.ts:19-33 | for windows of at least 2 ms some monotone trace reaches this bound |
| `RateLimit.OneMillisecondIsBounded` | services/record-api/src/rate-limit.ts:19-33 | for windows of 1 ms the bound is the limit itself |
| `RateLimit.TraceCountsWindow` | services/record-api/src/rate-limit.ts:27-31 | a window's count is how often its client was allowed in it, never more than the limit |
| `RateLimit.AnswersTellTheWindow` | services/record-api/src/rate-limit.ts:30-32 | allowed exactly when unsaturated and the window has room; remaining is what is left of the limit |
| `RateLimit.AnswerIsToldByTrace` | services/record-api/src/rate-limit.ts:19-41 | every answer from the earlier calls alone: denied exactly when the window is used up, or the client has none and maxClients others have a live one |
| `RateLimit.KnownAreKept` | services/record-api/src/rate-limit.ts:23-41 | which clients the map holds, told by the earlier calls |
| `RateLimit.NewClientIsAllowedExactly` | services/record-api/src/rate-limit.ts:23-26 | a client without earlier calls is allowed exactly while fewer than maxClients clients have a live window |
| `RateLimit.MapStaysSmall` | services/record-api/src/rate-limit.ts:23-28 | the map never holds more than maxClients windows |
| `RateLimit.PruningIsInvisible` | services/record-api/src/rate-limit.ts:19-41 | answers equal those of a limiter that never prunes up to the first saturation denial, which is the first difference |
| `RateLimit.FewClientsNeverSaturate` | services/record-api/src/rate-limit.ts:23-26 | with at most maxClients distinct clients pruning is never noticed |

## Left out

Weaker than one might wish, on purpose:

- ResumeEquivalence.InterruptAndResumeEqualsOneCall: needs that equal fingerprints mean equal normalized records (SHA-256 is taken to be collision-free, normalize to look at fingerprinted content only), one `fetchedAt` and retention date for the whole chain, and no call that loses a row (ResumableImport.LosesRow); a chain that opens the file again needs the file to hold what memory held at the start.
- ResumableImport.CallKeepsPromises: says nothing about the table of a run marked failed; CallOutcomes.CallLeavesExactly does.
- SqliteCache.OpenTradeSqliteCache.Open: the column additions of a schema migration are not modelled; a file's image is what it holds after them.
- SqliteCache.OpenTradeSqliteCache.ImportRecord: an error of the schema or of the statement inside a transaction is the import failure that the caller's stop point stands for.
- SqliteCache.OpenTradeSqliteCache.SelectByNumber: ids are taken to be made of source and fingerprint, so the order is that of the fingerprints; records that bring their own id could come in another order.
- CallReport.CallEndsExactly: for a resumed run whose last row lies in the file, as for every run that stopped in this file; so are the other closed forms of a call.
- RegistrySync.OpenTradeRegistry.Sync: calls without a cache, with an unregistered or blocked adapter or from the network, collected records, and the texts of warnings and errors (their number and kind are modelled) are left out.
- SyncStream.SyncConsumesTheStream: for streams without a limit, as `sync` uses them, with an error callback, as `sync` always passes one.
- CsvStream.StreamCsvFileRows: the abort check of each line and the throw without a callback are left to the consumer of the lines, StreamMappedCsvRecords and the stop points of `sync`.
- CsvStream.StreamMappedCsvRecords: exceptions of the raw-record, fingerprint and warnings callbacks are not modelled.
- ImportHandler.SnapshotImport.Handle: the payload schema's own refusals are not modelled, and verifying a snapshot or admitting storage is one outside call each.
- IndexAgreement.IndexAgreesWithScan: for a cache that had no rows of the source; rows of earlier imports that the file no longer has stay in the cache and would match as well.
- Promotion.AssertPromotionReady: the date-time and schema-version fields of the manifest, which the handler fills itself, are not modelled.
- Promotion.PlanIsDetermined: `localeCompare` is any strict total order; the library's order may call different keys equal.
- Pagination.PagesTileTheMatches: ids up to 2^53 - 1 and a limit of at least 1; beyond, NextRequestIsAcceptedExactly says what happens.
- RateLimit.RateIsBounded: for a clock that does not go back; time is in whole milliseconds.
- CanonicalJson.TextDecidesEquality: for values that JSON can express; `undefined` members and lone surrogates are not modelled, and keys are ordered by code point where the code orders by UTF-16 unit, which differs only above U+FFFF.
- LicenseNumbers.NormalFormsAreFixedPoints: `toUpperCase` is any character mapping that keeps A-Z and 0-9.

Not modelled:

- Times of day (`startedAt`, `finishedAt`, `checkedAt`, etags); retention and redaction times are integers.
- SQLite beyond the upsert on source and fingerprint: locking, and engine errors other than a failing import, upsert or file write.
- zod schemas except the ones that decide readiness; fields of a record that no modelled code reads or writes.
- Reading files into lines, zip and xlsx input, state adapters' column maps, status tables and dates.
- The other functions of the Postgres schema and its row locks; `promote_import` is one atomic step.
- S3 beyond presence, size, metadata and checksum of an object; deletes do not occur. Base64 is a bijection.
- `stageRecord` failing after its insert took effect: the job then fails either way.
- `ilike` and its escaping: whether a name matches is a parameter. Base64url and number text in cursors are a parameter with a round trip.
- Authentication, quotas other than the rate limiter, the HTTP layer, the command line.
