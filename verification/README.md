# Verified model of the postal address synchronisation service

The service keeps a table of Japanese postal addresses in step with the files of Japan Post and answers searches on it.
This project models, in Dafny, the three parts that are hard to get right, and proves what they promise.

1. **Applying files to the table.** A file is streamed through a town filter; the skipped rows go to an audit, the others
   are classified batch by batch against stored hashes and written. A full run then prunes what the file no longer has;
   a month's diff removes the abolished keys first and writes the new rows afterwards; a diff run applies a window of
   recent months. Every statement on the table may fail. The methods (`AddressRepo`, `Appliers`, `Syncs`, `DiffRuns`)
   change a table object in place and are proved against relations between the old and the new contents; the lemmas
   (`Batches`, `SyncTheory`, `LookBack`, `Visits`) say what these relations amount to as plain maps from key to address.
2. **The lock and the life of a run.** `Locks` and `LockProtocol` model the lock row with its time-to-live and the
   processes around it, `Lifecycle` every interleaving of triggers, uploads, shutdown, crashes and restarts in one
   process, `Sharing` what several processes do to the same records, and `Engines` the code of one run, shown to take
   only steps of `Lifecycle`.
3. **Searching.** `Like`, `Queries`, `Statements`, `Searching` and `Services` model escaping, the query compiler, what
   its text means to the database, the two statements of a search and the paging above them.

Strings are sequences of bytes, one character each, so lengths and byte values are those of Go. The hash of an address is
the string that the source digests: SHA-256 is taken to be injective. Where a theorem is stated on hashes
(`SyncTheory.Hashes`) it needs no further assumption; where it is stated on addresses it asks that text fields contain
no separator byte and flags fit a byte (`AllCanonical`), and `Addresses.FlagsCollideOutsideAByte` shows why. Files are
asked to list no non-skipped key twice where a result depends on it; `Batches.DistinctExactly` shows that this is exact
for independence of the batch size, and `Batches.DuplicateKeysDependOnBatchSize` what happens otherwise.

One disagreement between the code and its comments: `atoiFlag` is described as yielding 0 or 1 but returns any integer
it can read (`internal/sync/parser.go:114-121`); the model follows the code, see `Parsing.FlagBeyondABit`.

Check the project with `dafny verify dfyconfig.toml`.

## Model

| member | source | states |
|---|---|---|
| Addresses.ComputeHash | internal/domain/address.go:60-85 | the stored hash is that of the eight texts and four flags in order, and nothing else of the address changes |
| Addresses.SerialisedText | internal/domain/address.go:60-81 | the digested string written out: eight texts, each closed by byte 0x1f, and four flag bytes counted from the digit 0 modulo 256 |
| Addresses.SerialisedInjective | internal/domain/address.go:57-81 | two addresses without the separator byte in their texts serialise alike if and only if all texts agree and the flags agree modulo 256 |
| Addresses.CanonicalHashInjective | internal/domain/address.go:57-85 | addresses with clean texts, flags within a byte and up-to-date hashes are equal when their hashes are |
| Addresses.FlagsCollideOutsideAByte | internal/domain/address.go:78-81 | a flag changed by 256 is a different address with the same hash: the limit of "skip the write when hashes agree" |
| Parsing.JudgeRecord | internal/sync/parser.go:63-112 | a record of the file format (jis code, zipcode, readings, names and decimal flags in their columns, white space around any of them) becomes exactly that address with its hash; a blank one is skipped; an unreadable or short one, or a zipcode of other than 7 bytes, is an error |
| Parsing.RoundTrip | internal/sync/parser.go:91-112 | an address with texts without outer white space and flags below 2 to the 63, written into the fifteen columns with white space around it and anything in columns 1, 13 and 14, comes back with its hash |
| Parsing.Trimmed | internal/sync/parser.go:92-103 | any run of white space on either side of a text is taken off, and nothing of the text |
| Parsing.SpaceMeans | internal/sync/parser.go:92-103 | a byte position begins white space of some width if and only if the UTF-8 encoding of a white space code point of that width stands there |
| Parsing.RowsWellFormed | internal/sync/parser.go:56-89 | every row handed out stems from its own record, carries that record's number and its hash, and numbers strictly ascend |
| Parsing.EveryRecordHandedOut | internal/sync/parser.go:63-88 | no good record is lost |
| Parsing.FirstBadBounds | internal/sync/parser.go:65-82 | the loop stops at the first record that is unreadable, short or has a bad zipcode, and at no other |
| Parsing.DiffMetadataIgnored | internal/sync/parser.go:91-112 | the old zipcode and the diff columns do not influence the address, so full and diff rows hash alike |
| Parsing.FlagIsAnyNumber | internal/sync/parser.go:115-121 | a flag column of digits reads as its number, however large within 63 bits |
| Parsing.FlagSigned | internal/sync/parser.go:115-121 | a plus or minus sign is understood, and a number that does not fit 64 bits is 0 |
| Parsing.FlagOtherwise | internal/sync/parser.go:115-119 | anything but digits with or without a sign is 0 |
| Parsing.FlagIsABit | internal/sync/parser.go:114-121 | a flag column of digits reads as 0 or 1, as the comment promises, if and only if it holds 0, 1 or a number beyond 63 bits |
| Parsing.FlagBeyondABit | internal/sync/parser.go:114-121 | a flag column "2" reads as 2, against the comment that promises 0 or 1 |
| AddressRepo.UpsertedContents | internal/store/address_repo.go:62-74 | inserting on conflict leaves exactly the incoming row under its key and everything else alone, because the column list covers every non-key content field; ids stay unique |
| AddressRepo.AddressTable.ExistingHashes | internal/store/address_repo.go:25-60 | for any list of zipcodes, with duplicates, the chunked reads give exactly the table's hashes restricted to those zipcodes |
| AddressRepo.ZipcodesRead | internal/store/address_repo.go:37-58 | one chunk extends the map of hashes by exactly its zipcodes |
| AddressRepo.AddressTable.UpsertBatch | internal/store/address_repo.go:62-74 | the contents are overridden by the rows in order, all of them or, after a failure of any chunk or of the commit, none |
| AddressRepo.AddressTable.DeleteByKeys | internal/store/address_repo.go:76-107 | exactly the listed keys go, the count is the number of table rows removed without double counts across chunks; after a failure, a prefix of the list is gone and the count still matches |
| AddressRepo.AddressTable.DeleteNotIn | internal/store/address_repo.go:111-151 | for any page size the scan that deletes while it pages ends, leaves exactly the rows whose key is kept and counts the removed ones; after a failure only stale rows are gone and the count still matches |
| AddressRepo.PageScanned | internal/store/address_repo.go:114-148 | deleting a page's stale ids moves the scan from the old last id to the page's last id: rows below are decided, rows above untouched |
| AddressRepo.ScanComplete | internal/store/address_repo.go:124-126 | when nothing lies beyond the last id, what is left is exactly what is kept |
| Appliers.Classify | internal/sync/applier.go:51-64 | comparing with the hashes read for the batch's zipcodes is comparing with the whole table; the three counters are the numbers of new, changed and current rows |
| Appliers.ApplyBatch | internal/sync/applier.go:39-69 | on success table and counters are those of one batch step; on failure the table is as before |
| Appliers.Applier.Flush | internal/sync/applier.go:88-98 | after a flush, table and counters are those of all rows so far cut into full batches and a remainder |
| Appliers.Applier.Consume | internal/sync/applier.go:197-228 | every readable row reaches either the applier or the audit in file order, stopping at the first bad record, failed flush or refusing sink, with the last audit batch handed over on every exit |
| Appliers.FilterPartitions | internal/sync/applier.go:213-223 | the filter partitions the rows: row i goes to exactly one of applier and audit, to the audit exactly if its town matches, as the next of its kind in file order, and the audit says of it which run, file, line, address, pattern and record |
| Syncs.StreamKeeps | internal/sync/applier.go:213-223 | of any file, exactly the parsed rows whose town does not match reach the table |
| Syncs.NoFilterKeeps | internal/sync/applier.go:213-223 | without a filter all of them do, in file order |
| Syncs.AuditExact | internal/sync/applier.go:213-252 | the audit of a file names the parsed rows whose town matches, each of them, with its fields, by ascending line |
| Syncs.ListingKeepsAll | internal/sync/applier.go:147-153 | no filter looks at abolished rows: the key of each parsed row is listed, in file order |
| Batches.BatchSizeIrrelevant | internal/sync/applier.go:39-69 | with distinct keys, table and counters do not depend on the batch size |
| Batches.WritesOnlyChanges | internal/sync/applier.go:52-67 | skipping rows whose hash agrees equals writing every row if and only if no stored content differs behind an equal hash |
| Batches.CanonicalOverride | internal/sync/applier.go:39-69 | for canonical contents and rows, any batching is a plain override, and contents stay canonical |
| Batches.CountsAreKeySets | internal/sync/applier.go:52-63 | added, updated and unchanged are the sizes of the sets of new, changed and current keys |
| Batches.DistinctExactly | internal/sync/applier.go:39-69 | table and counters are independent of the batch size, for every table, if and only if no key is repeated |
| Batches.EveryRowCounted | internal/sync/applier.go:52-63 | repeated keys or not, every row is counted once as added, updated or unchanged |
| Batches.DuplicateKeysDependOnBatchSize | internal/sync/applier.go:47-64 | the example: with a key twice in one batch both rows meet the pre-batch hash, so one batch and two batches end differently |
| Syncs.ApplyFull | internal/sync/applier.go:77-130 | for every exit, what the table may be and what the counters tell: after a failure before the pruning, exactly a number of whole batches is in the table and counted; too few records are reported exactly below the minimum, and then nothing is deleted; the audit holds exactly the matching rows in file order, in batches of 1 to 1000, also when parsing stops early |
| Syncs.StoppedCounts | internal/sync/applier.go:88-98 | a run that stops while loading has counted whole batches, the unfinished one not at all |
| Syncs.ApplyDiff | internal/sync/applier.go:139-195 | the same for one month's diff: delete first, then upsert |
| Syncs.RemoveAbolished | internal/sync/applier.go:145-160 | the whole abolished file is read before the first row goes; the count is the drop in table size |
| SyncTheory.HashOverride | internal/sync/applier.go:39-69 | for any batch size the hashes are the old ones overridden by those of the rows |
| SyncTheory.FullRefinesMap | internal/sync/applier.go:77-130 | a successful pruning run ends with exactly the hashes of the file's non-skipped rows whatever the table held; without pruning, with the old ones overridden by them |
| SyncTheory.FullRefinesContents | internal/sync/applier.go:77-130 | the same for the addresses themselves when they are canonical |
| SyncTheory.FullSelfHealing | internal/sync/applier.go:77-130 | however a full run stopped, one complete run on the same file gives the table of one undisturbed run |
| SyncTheory.FullHealsContents | internal/sync/applier.go:77-130 | the same for the addresses themselves when they are canonical |
| SyncTheory.FullInventsNothing | internal/sync/applier.go:77-130 | after any exit every entry was there before or is one of the file's rows |
| SyncTheory.DiffInventsNothing | internal/sync/applier.go:139-195 | the same for one month's diff |
| SyncTheory.StoredHashesStayTrue | internal/store/address_repo.go:62-74 | each stored hash stays the hash of its row, whatever stops the run |
| SyncTheory.NoPrematureDeletion | internal/sync/applier.go:110-127 | a key leaves the table only if the whole file was read, all its rows were written, at least minRows records were counted, and the key is not among the rows |
| SyncTheory.GuardCountsSkippedRows | internal/sync/applier.go:116-128 | after a successful pruning run the keys are exactly those of the rows left by the filter, so the table is empty if and only if none is left, and at least minRows rows survive if and only if total minus skipped reaches minRows, though the guard tests the total |
| SyncTheory.NothingKept | internal/sync/applier.go:213-222 | no row is left when every town matches the filter |
| SyncTheory.FullCountsExact | internal/sync/applier.go:93-129 | added, updated, unchanged and deleted are the sizes of the sets of new, changed, current and vanished keys, skipped and total those of the file |
| SyncTheory.FullCountsConserve | internal/sync/applier.go:93-129 | the table's size changes by added minus deleted, and added, updated, unchanged and skipped make up the total |
| SyncTheory.DiffRefinesMap | internal/sync/applier.go:132-195 | a month's diff is "remove the listed keys, then override"; a key in both files ends with the new row |
| SyncTheory.DiffRefinesContents | internal/sync/applier.go:132-195 | the same for the addresses themselves when they are canonical |
| SyncTheory.DiffReplay | internal/sync/applier.go:132-195 | applying the same diff again leaves the table equal |
| SyncTheory.ReplayCounts | internal/sync/applier.go:132-195 | the replay reports no update, and no addition and no deletion if and only if the two files share no key |
| SyncTheory.DiffCountsExact | internal/sync/applier.go:154-192 | the counters of a diff are sizes of key sets, skipped and total are those of its files, and the table's size changes by added minus deleted |
| Months.MonthsWindow | internal/sync/engine.go:552-563 | exactly n consecutive calendar months ending with the month of now, whatever the day, and that month alone for n of 0 or less |
| Months.NameDigits | internal/sync/engine.go:560 | the name of a month is two digits of the year and two of the month |
| Months.WindowDistinct | internal/sync/engine.go:558-561 | the names are pairwise distinct if and only if the window is at most 1200 months |
| Months.NameOfMonth | internal/sync/engine.go:560 | two months share a name if and only if they are whole centuries apart |
| Months.WindowsOverlap | internal/sync/engine.go:552-563 | windows of consecutive months share exactly their n - 1 common months, in order |
| Months.LastDaySkipsAMonth | internal/sync/engine.go:549-556 | going back from the 31st without first going to the first of the month loses a month |
| DiffRuns.RunFull | internal/sync/engine.go:426-436 | a failed download changes nothing; else the outcome, the counters and the audit of the full application |
| DiffRuns.RunMonth | internal/sync/engine.go:446-482 | both files are fetched before anything is applied; an unpublished month changes nothing and audits nothing |
| DiffRuns.RunDiff | internal/sync/engine.go:438-506 | on success the table is the months applied from oldest to newest, the sums leave out the unchanged rows, the period is the newest published month; falls back to a full run if and only if no month is published and it may; after a failure the sums are those of the completed months, and of the month it stopped in only mentioned keys have changed; the audit is that of the months in calendar order, complete on success, or that of the fallback |
| LookBack.WindowSelfHealing | internal/sync/engine.go:438-506 | however a diff run stopped, one complete run over the same window gives the table of one undisturbed run |
| LookBack.WindowHealsContents | internal/sync/engine.go:438-506 | the same for the addresses themselves when they are canonical |
| LookBack.WindowForgets | internal/sync/engine.go:445-490 | two tables end equal after the same window if and only if they differ only on keys the window mentions |
| LookBack.LaterWindowHeals | internal/sync/engine.go:438-506 | on the files alone: a later window heals every cut of the run before it, from whatever table, if and only if it mentions every key that run mentions |
| LookBack.LateRetryLoses | internal/sync/engine.go:439-490 | the example: a run cut by a repository error between a month's removal and its rewriting of a key, followed by a successful run after the month has left the window, loses the key that undisturbed runs keep |
| LookBack.WindowDecides | internal/sync/engine.go:445-490 | the window decides every key it mentions: tables that differ only there end equal |
| LookBack.LastMentionDecides | internal/sync/engine.go:445-490 | of the months of a window the last that mentions a key decides: one of its new rows leaves its hash there, else an abolished row leaves nothing; repeated keys are allowed |
| LookBack.WindowSplits | internal/sync/engine.go:445-490 | the months take effect and are counted one after the other, each on what those before it left |
| LookBack.SingleMonth | internal/sync/engine.go:463-488 | one month has the effect of its diff, adds its added, updated, deleted, skipped and total rows, and audits its new-address file |
| LookBack.WindowCountsConserve | internal/sync/engine.go:483-487 | over a whole window the table's size changes by added minus deleted |
| Visits.WindowIsRange | internal/sync/engine.go:445-490 | applying a window of month names is applying a stretch of the calendar's files in order |
| Visits.TablesFollowVisits | internal/sync/engine.go:438-506 | the tables that a sequence of successful diff runs leaves are those of the windows applied one after the other |
| Visits.OverlappingWindows | internal/sync/engine.go:438-506 | for any sequence of successful runs with non-decreasing ends, each with its own window length, each file seen by some run takes effect as if applied once, in calendar order |
| Visits.OverlappingContents | internal/sync/engine.go:438-506 | the same for the addresses themselves when they are canonical |
| Visits.NothingMissed | internal/sync/engine.go:438-506 | without gaps between consecutive windows, and with each file that is ever published visible to some run whose window has it, that is every published file of the period; months without one or both files do not matter |
| Visits.NothingMissedContents | internal/sync/engine.go:438-506 | the same for the addresses themselves when they are canonical |
| Visits.NewestFileDecides | internal/sync/engine.go:438-506 | under the same conditions, for each key the newest published file of the period that mentions it decides, by the hash of its row or by removing it, whichever runs have seen it |
| Visits.InterruptedRuns | internal/sync/engine.go:438-506 | for any sequence of successful and cut runs in which the next success after a cut looks back at least as far, the table ends as if each file seen by a success had been applied once, in calendar order |
| Visits.InterruptedContents | internal/sync/engine.go:438-506 | the same for the addresses themselves when they are canonical |
| Visits.AttemptsFollow | internal/sync/engine.go:438-506 | at any time the table differs from that of the successes alone only on keys that the cut runs since the last success mention |
| Windows.OneMoreRun | internal/sync/engine.go:445-490 | applying a window again on top of everything before absorbs what it already did |
| Windows.OverlapsLoseNothing | internal/sync/engine.go:438-506 | the overlap result for runs of any lengths on maps with any values |
| Windows.LastUnitDecides | internal/sync/engine.go:445-490 | of the files of a stretch of the calendar the last that mentions a key decides it |
| Locks.LockTable.Acquire | internal/store/lock.go:35-58 | takes the row if and only if it is free or older than 7200 seconds; a lost reply may hide a success |
| Locks.LockTable.Release | internal/store/lock.go:59-68 | the recorded holder frees the row, whenever the next one asks; for anybody else nothing changes |
| LockProtocol.LockSafety | internal/store/lock.go:35-70 | on every run with crashes, takeovers, late and failed releases: who believes to hold the lock without being recorded acquired it longer than the time-to-live ago |
| LockProtocol.MutualExclusionWithinTTL | internal/store/lock.go:35-70 | two believers within the time-to-live never coexist |
| LockProtocol.MutualExclusion | internal/store/lock.go:33-58 | if nobody overstays the time-to-live, at most one process believes to hold the lock |
| LockProtocol.LateReleaseHarmless | internal/store/lock.go:56-67 | a preempted holder's release never frees its successor |
| LockProtocol.ReleaseFrees | internal/store/lock.go:59-68 | from every reachable state, once the recorded holder has released, every attempt under way or to come is granted and none refused |
| LockProtocol.NotTakenWithinTTL | internal/store/lock.go:44-48 | the recorded holder loses the row only to a takeover after the time-to-live |
| LockProtocol.CrashedHolderIsReplaced | internal/store/lock.go:14-16 | after a crash the next attempt succeeds if and only if the time-to-live is over |
| Runs.RunStore.MarkRunningFailed | internal/store/syncrun_repo.go:89-109 | all running records are marked failed, with the time, the duration and the message, and counted, or none is |
| Runs.CleanupSettles | internal/store/syncrun_repo.go:89-109 | afterwards nothing is running and no terminal record has changed |
| Lifecycle.InvAlways | internal/sync/engine.go:116-391 | lock, records, wait group and release counts stay consistent over every interleaving |
| Lifecycle.RunningMeansAlive | internal/sync/engine.go:257-323 | a running record of which no write has gone wrong belongs to a live task between its acquire and its release |
| Lifecycle.OneRunningRecord | internal/sync/engine.go:116-188 | if also no task overstays the time-to-live, at most one such record is running |
| Lifecycle.ReleasedExactlyOnce | internal/sync/engine.go:125-129 | who has returned has released as often as acquired, at most once |
| Lifecycle.ReleaseLetsIn | internal/sync/engine.go:125-129 | once the recorded holder has released, any entered task with a live context can acquire, then and later |
| Lifecycle.NextCallAcquires | internal/sync/engine.go:116-140 | on every run of the system, a task within its time-to-live that releases and leaves makes room: the next call takes the lock |
| Lifecycle.TerminalForGood | internal/sync/engine.go:297-316 | a terminal record keeps its verdict over every further run of the system |
| Lifecycle.StartLeavesNothingRunning | internal/app/wire.go:48-56 | on every run of the system that ends with the start of a process, whatever crashes came before, no record is running, none is gone, and terminal ones are as they were |
| Lifecycle.CleanupIsStart | internal/app/wire.go:52-56 | the start step is the store's cleanup seen through statuses |
| Lifecycle.ShutdownQuiet | internal/sync/engine.go:225-238 | when Shutdown can return nil, no async task is alive if and only if no trigger is in flight |
| Lifecycle.TaskFollowsShutdown | internal/sync/engine.go:149-188 | when Shutdown can return nil, a background task can still follow if and only if a trigger stands between the creation of its record and the wait group; earlier ones are stopped by the cancelled context |
| Lifecycle.ShutdownEndsAsync | internal/sync/engine.go:223-238 | without such a trigger no background task is alive, then or for the rest of the process; cmd/server stops HTTP first |
| Lifecycle.RecordedTriggerReached | internal/sync/engine.go:174-181 | such a trigger is reached from the start when the cancellation comes after Create and before asyncWG.Add |
| Lifecycle.TriggerCanOutliveShutdown | internal/sync/engine.go:174-238 | so on some run Shutdown returns nil and a task starts after it |
| Sharing.NeverRunningAgain | internal/store/syncrun_repo.go:89-109 | whatever several processes on one database do, a terminal record never runs again |
| Sharing.VerdictChanges | internal/sync/engine.go:316 | the verdict of a terminal record changes only by a final update of that run |
| Sharing.FailedBecomesSuccess | internal/app/wire.go:52-54 | the start of another process marks a live run failed, and its own success then overwrites that |
| Sharing.LiveRunReached | internal/sync/engine.go:116-139 | such a live run is reached from the start |
| Engines.Engine.ResolveType | internal/sync/engine.go:241-255 | auto and the empty type mean full on an empty table and diff otherwise |
| Engines.Engine.Execute | internal/sync/engine.go:275-323 | the record is closed, says success exactly without an error, and its verdict and counters are those of what happened to the table, for failed runs too; the audit is that of the files applied, under the run's id and start |
| Engines.Engine.Run | internal/sync/engine.go:116-140 | on every exit the lock is given back as often as taken, the record written as running and then closed, nothing touched without the lock; the call is a legal path of Lifecycle |
| Engines.Engine.UploadFull | internal/sync/engine.go:192-221 | the same for an upload, whose rejection still closes the record |
| Engines.Engine.TriggerAsync | internal/sync/engine.go:149-188 | refused exactly when asyncCtx is cancelled; else returns the running record with the lock held and the wait group raised, or gives back what it took |
| Engines.Engine.Background | internal/sync/engine.go:182-186 | the goroutine closes the record and gives the lock back once, from any state it finds |
| Engines.BlockingCall | internal/sync/engine.go:116-140 | lock replies and store writes of one call match the steps of Lifecycle from every state that mirrors them |
| Records.RecordAccountsForSize | internal/sync/engine.go:300-304 | rows added minus rows deleted of a successful record is the change of the table's size, be it full, diff or fallback |
| Records.FullRunMirrorsFile | internal/sync/engine.go:284-288 | a successful pruning full run leaves exactly the hashes of the file's non-skipped rows |
| Records.DiffRunDecides | internal/sync/engine.go:438-506 | a successful diff run has seen exactly the look-back months that end with the current one: for each key the newest of them whose files on the site mention it decides, by a row whose town does not match or else by an abolished row, and a key that none mentions keeps its entry |
| Records.FullRunDecides | internal/sync/engine.go:284-288 | after a successful full run, asked for or fallen back to, each key of a row whose town does not match has such a row's hash, and the others are gone or as before by the prune option |
| Records.UploadDecides | internal/sync/engine.go:192-221 | the same for an upload, with its counters and its guard |
| Records.FullRunCounts | internal/sync/engine.go:300-304 | a successful full run records the parsed rows, those whose town matches, and key-set sizes; it prunes only from fullMinRows records on, and deletes nothing without pruning |
| Records.TooFewDeletesNothing | internal/sync/applier.go:116-120 | a full run refused for too few records says how many, below the minimum, and no key is gone |
| Records.DiffRunCounts | internal/sync/engine.go:483-487 | a successful diff run records the sums over its months |
| Records.DiffRunPeriod | internal/sync/engine.go:488-505 | its period is the newest month of the look-back that has a file |
| Records.FallsBackOnly | internal/sync/engine.go:492-501 | a diff run becomes a full one only if so configured and no month of the look-back has a file; without that option such a run changes nothing and says so |
| Like.EscapedLiteral | internal/store/address_read_repo.go:138-142 | an escaped text at the head of a pattern matches exactly itself, under the LIKE predicate with ESCAPE of section 8.5 of ISO/IEC 9075 |
| Like.PrefixPattern | internal/store/address_read_repo.go:111 | escaped text and a percent sign match exactly the texts that start with it |
| Like.ContainsPattern | internal/store/address_read_repo.go:116 | percent sign, escaped text, percent sign match exactly the texts that contain it |
| Like.UnescapedDiffers | internal/store/address_read_repo.go:99-100 | without escaping, metacharacters of the input would act as wildcards |
| Queries.BuildWhere | internal/store/address_read_repo.go:101-136 | text and arguments are those of the clauses in order; Statements.TextMeaning says what they mean |
| Queries.ZipcodeTexts | internal/store/address_read_repo.go:105-113 | the two zipcode clauses are spelt as in the source |
| Queries.TwoColumnsText | internal/store/address_read_repo.go:115 | a two-column clause is spelt as a parenthesised OR of LIKE comparisons |
| Queries.KeywordText | internal/store/address_read_repo.go:125-127 | the keyword clause is a parenthesised OR over the seven columns in order |
| Queries.CompiledMeaning | internal/store/address_read_repo.go:101-136 | the clauses with their positional arguments accept a row if and only if zipcode (equal at seven bytes, else prefix), prefecture, city and keyword (substring of any of their columns) all hold |
| Statements.TextMeaning | internal/store/address_read_repo.go:101-136 | the emitted text, read word by word with parentheses, AND binding tighter than OR and placeholders taking arguments from left to right, accepts a row if and only if the query does |
| Statements.WhereTextWords | internal/store/address_read_repo.go:105-135 | the words of the emitted text, for any list of clauses |
| Statements.AndRead | internal/store/address_read_repo.go:135 | clauses joined by AND are read as their conjunction, whatever follows |
| Statements.StatementsMean | internal/store/address_read_repo.go:45-64 | for every driver, count and page statement, read word by word from SELECT on, are the count and the nine listed columns of the restriction that passes the rows the query accepts, with limit and offset |
| Queries.PlaceholdersMatchArguments | internal/store/address_read_repo.go:101-136 | the text has as many placeholders as there are arguments |
| Queries.RebindPlaceholders | internal/store/address_read_repo.go:144-160 | the loop numbers from 1 for postgres and changes nothing for others |
| Queries.RebindReads | internal/store/address_read_repo.go:148-159 | the rebound text, read back, is the original with its placeholders numbered in order |
| Queries.StatementsBound | internal/store/address_read_repo.go:45-64 | count and page statement refer to their arguments 1, 2, ... in order, limit and offset last |
| Searching.AnswerIsAnswer | internal/store/address_read_repo.go:42-64 | the answer holds the rows that the query accepts, once each, in (zipcode, id) order |
| Searching.StatementsAnswer | internal/store/address_read_repo.go:45-66 | run from their text and arguments, the count statement gives the number of rows of the answer and the page statement the listed columns of its page |
| Searching.OneAnswer | internal/store/address_read_repo.go:62-63 | that determines the answer |
| Searching.TextBeforeMeans | internal/store/address_read_repo.go:63 | texts are ordered by the first byte in which they differ, a shorter one before those it begins |
| Searching.AddressReadRepo.Search | internal/store/address_read_repo.go:41-86 | with the database answering the statements it is sent, total is the number of matching rows and items the page at the offset, 20 rows from 0 by default, each column scanned into its own field |
| Searching.PagesTile | internal/store/address_read_repo.go:53-64 | consecutive pages put together are the whole answer |
| Services.Service.Search | internal/query/service.go:80-123 | invalid exactly for blank parameters, a zipcode that is not 1 to 7 digits, or a negative offset; else the page with clamped limit of exactly the rows that zipcode, prefecture, city and keyword, each in its own columns, accept; truncated if and only if it is not the whole, too many if and only if beyond the maximum |
| Services.Service.GetByZipcode | internal/query/service.go:127-152 | invalid exactly for other than 7 digits, not found if and only if no row has the zipcode; else the first rows of exactly those that have it, with their number |
| Services.ResultsExact | internal/query/service.go:97-122 | shown rows and rows that the parameters accept correspond one to one, in order |
| Services.PagesTileTheResults | internal/query/service.go:80-123 | replies at offsets 0, L, 2L, ... show every matching row exactly once in order, report one total, and are truncated exactly when not the whole |

## Left out

- GORM, SQL dialects, connection pools, migrations: each statement is atomic and a failed one changes nothing; comparison and order are by bytes, so SQLite's case folding in LIKE and collations are not covered.
- AddressRepo.AddressTable.UpsertBatch: the update time of rows is not modelled.
- AddressRepo.AddressTable.ExistingHashes: the hash of a row is compared as the digested string, so collisions of SHA-256 do not exist in the model.
- SyncTheory.FullRefinesMap: asks for distinct non-skipped keys, without which the result depends on the batch size; SyncTheory.FullRefinesContents also asks for canonical contents, without which a change can hide behind an equal hash.
- LookBack.WindowSelfHealing: the repeated run has the same window; LookBack.LaterWindowHeals says which later windows do as well.
- Visits.OverlappingWindows: one filter for all runs, and a site that takes no file back while a later window has it.
- Splitting a file into records, zip and download, retries, UTF-8 checks: a file is a sequence of records, a record the reader rejects is unreadable; a download gives a file, "not found" or an error.
- Regular expressions: an arbitrary predicate on the town; a pattern that does not compile is an error of the run.
- Closures handed to the parser and the repository are methods of one object that owns their variables; the early exit of the record loop is a loop condition.
- Appliers.Applier.Consume: the audit sink keeps all of a batch or nothing.
- Raw JSON of audited records: the record itself is kept. Source address, checksum and size of files, and log lines, are not part of run records here.
- Engines.Engine.Run: proved for the code between two interruptions; interference by other processes between its statements is covered by Lifecycle and LockProtocol, not by the methods. Errors of statements that took effect are modelled for the lock and the run records, not for the address table.
- Lifecycle.RunningMeansAlive: one process. With several, cleanup at the start of one marks live runs of others failed; Sharing says what remains true then.
- Lifecycle: a step that acquires reads the clock and runs its update at once; LockProtocol separates the two. Background tasks keep running their statements after the cancellation until one fails.
- Searching.AddressReadRepo.Search: the table does not change between its two statements. The database reads the SELECT list and the WHERE part of a statement by their grammar, but the ORDER BY part only as the fixed words it is.
- Services.Service.Search: whether a failure was a timeout is an arbitrary choice.
- HTTP handlers, the browser client, settings, tokens, encryption, scheduling: plumbing without hard properties.
