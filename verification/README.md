# A verified model of the RocksDB storage engine core

This project models, in Dafny, the parts of the vendored RocksDB engine (`rocksdb/db/`) whose correctness is hardest to
see from the code: what a compaction may drop, how the database iterator moves, how threads share a SuperVersion, how
background work, table files and write-ahead logs are accounted for under one mutex, and how compaction inputs are
picked. Loops and objects of the source are methods and classes here, proved against specifications that do not mention
their bodies; the concurrent protocols are step relations over every interleaving.

`dafny verify dfyconfig.toml` checks everything.

## How the model is laid out

| file | what it holds |
|---|---|
| `DbFormat.dfy` | internal keys: encoding, parsing, the two comparison routines, and the record type used everywhere else |
| `CompactionLevels.dfy` | the cached-cursor test for older data, boundary keys, the bottommost test |
| `CompactionIterator.dfy` | the compaction iterator as a class, proved to yield exactly the records that a declarative rule keeps |
| `CompactionOutput.dfy` | the same rule spelled out in snapshots and file ranges, and which tombstones are gone |
| `CompactionReads.dfy` | what that rule means for readers: preserved reads, exactly when, well-formed output, SingleDelete discipline |
| `Level0Boundary.dfy` | level-0 inputs for which a compaction wrongly takes itself for bottommost |
| `Subcompaction.dfy` | the record loop, splitting into ranges, and the whole job |
| `SubcompactionBounds.dfy` | the choice of the boundaries of those ranges |
| `VisibleMap.dfy`, `DBIter.dfy` | the sorted map visible at a sequence number, and the bidirectional iterator as a cursor over it |
| `SuperVersion.dfy` | the thread-local SuperVersion cache: swap, compare-and-swap, scrape, reference counts |
| `MemTableList.dfy` | immutable memtables: flushes that finish in any order and results installed in order, by whichever thread commits |
| `ObsoleteFiles.dfy`, `FailedFlush.dfy` | pending outputs against file purging outside the mutex, and a failed flush that defeats them |
| `FlushBatches.dfy`, `FailedCommit.dfy` | which memtables a commit may drop, and a failed commit after which one is dropped too early |
| `BackgroundWork.dfy` | flush and compaction queues, scheduling counters, manual compactions |
| `WalSync.dfy` | write-ahead log writers, the flags of logs being synced, log sizes changed without the mutex |
| `PickerSanitize.dfy`, `PickerOverlap.dfy`, `UniversalPicker.dfy` | completing an input set, the heap overlap test, universal window selection |

User keys are real numbers in the engine modules. `DbFormat.RankEmbeds` shows that byte strings under the bytewise
comparator embed in the reals in order, so nothing is lost. A store is a set of records; a read at sequence number `s`
finds the newest record of its key at or below `s`. Snapshots, last sequence, file sizes, merge operators and everything
that comes from files, clocks or other threads are parameters.

## Main results

* **Compaction preserves reads** (`Subcompaction.Compact`). For every sorted input, snapshot list, surrounding store and
  increasing list of split points, no reader at any live snapshot or at the tip can tell the output from the input, and
  the output is again sorted and disciplined, so the next compaction may rely on it. The surrounding store is any store
  whose older data lies in older files that cover the key; what the code believes about those files is not assumed. The
  one condition on the job, `Honest`, is that no older file covers a key whose tombstone is dropped as obsolete or whose
  sequence number is zeroed. `CompactionReads.PreservesReadsIffHonest` shows that for Put/Delete inputs it is necessary
  too, and `CompactionReads.CoveredKeysAreHonest` that it holds, in level and in universal style, whenever the boundary
  range covers the input keys. What is written is determined: exactly the input positions that a rule about snapshots and
  file ranges selects (`CompactionOutput.OutputSelects`), so no tombstone that all readers see is written unless an older
  file may hold what it deletes.
* **DBIter is a cursor** (`DBIter.Run`). Any run of SeekToFirst, Seek, SeekToLast, Next and Prev, with any direction
  changes, any `max_skip_` and any upper bound, shows key by key and value by value what a plain cursor over the visible
  map shows, merges included.
* **SuperVersion counting and freshness** (`SuperVersion.RefcountsAreExact` and its neighbours). In every state reachable
  by any interleaving of readers with installs, each counter equals the number of holders, nothing is used after its
  release, the run has cleaned each SuperVersion up at most once, and exactly once when it is unreferenced and nobody is
  about to, and no call uses one that was superseded before the call began.
* **Purging is safe** (`ObsoleteFiles.PurgingIsSafe`). No live file, no output of an unfinished job and no file of a
  finished flush that waits to be installed is deleted, even though deletion happens outside the mutex after the decision
  and the thread that installs a flush's file may do so after the flush job has ended. The one condition is on scans: a
  waiting file that a scan looks at has a running job that began at or below its number. After any such run the next
  scan's purges are safe if and only if it meets that condition. It always does while failures leave no memtable waiting
  before one that another job has picked (`ObsoleteFiles.OrderlyRunsAreGuarded`): the order in which memtables are picked
  and committed is what protects such a file (`MemTableList.OwedIsGuarded`).
* **Flushed data is recorded** (`FlushBatches.FlushedDataIsRecorded`). A commit removes several memtables at a time, and
  one memtable of a flush carries the version edit for all. In every run in which failed commits are of batches of one
  memtable, none is removed before its file was added to a version. That no edit is skipped or applied twice holds in
  every run, whatever fails (`FlushBatches.BooksAlwaysOk`).
* **Scheduling** (`BackgroundWork.Run`). After any run of critical sections no automatic compaction overlaps a manual one,
  and queued work has a job on its way unless a manual compaction's leaving or an opening of the gate has not been
  followed by a rescheduling; `BackgroundWork.Perform` says exactly which of these strand work.
* **Logs** (`WalSync.Run`). After any interleaving raised sync flags belong to one sync, no open or current log was
  released and no log writer was lost. Once nobody is on the way through a change, the total log size is the sum of the
  sizes plus what stores have overwritten of each other.
* **Sanitizing computes the least complete set** (`PickerSanitize.SanitizeCompactionInputFilesForAllLevels`). Success
  returns the smallest set that contains the request and leaves no overlapping file behind; the request is refused exactly
  when that set contains a file being compacted.

## Where the code does not meet the property one would expect

The model keeps the code as it is; each item names the lemma with the failing case and the exact condition.

* The boundary keys of a level are its first file's smallest and last file's largest key. For level-0 inputs, which are
  ordered by age, that range can miss input keys, so a compaction can take itself for bottommost. In level style it then
  zeroes a sequence number and an older record hides the newer one (`Level0Boundary.Level0ZeroingExposes`); in universal
  style, where the same flag answers for every key, it also drops a tombstone and an older record comes back
  (`Level0Boundary.UniversalDropExposes`). The exact condition is `CompactionReads.PreservesReadsIffHonest`.
* A SingleDelete above another SingleDelete ends the compaction iterator with an error that the record loop of the
  compaction job never looks at, so the range ends early without an error of its own and records are lost:
  `Subcompaction.LosesARecord`. Nothing is lost exactly when nothing from there on would have been kept
  (`Subcompaction.StopLosesNothingIff`), and alternating use never gets there (`CompactionReads.DisciplineAvoidsMisuse`).
* A flush that fails while a younger memtable is already flushed leaves that file to be installed later, with no running
  job to protect it: a full scan deletes it and a later commit installs it all the same (`FailedFlush.LiveFileIsGone`;
  with `paranoid_checks` on, db_impl.cc:1405-1411 stops later flushes first). A scan takes a file exactly when every
  running job began after it was numbered (`ObsoleteFiles.ScanTakesIff`), and its purges are safe exactly when no waiting
  file is taken (`ObsoleteFiles.PurgesSafelyIffGuarded`).
* A failed commit resets only the oldest memtable of its batch and clears the edit that it carried for the others. These
  stay marked as flushed, and a later commit drops them with an empty edit: their file is in no version and never will
  be (`FailedCommit.FlushedDataIsLost`; `paranoid_checks` stops later flushes here too). It happens exactly when another memtable
  of the batch waits behind the oldest one (`FlushBatches.FailedCommitKeepsDataIff`).
* The write thread adds to the total log size without the mutex. A log dropped between its load and its store stays
  counted for good: `WalSync.LostUpdate`; `WalSync.Run` states by how much the total is off.
* A compaction queued during a manual one stays behind when that one leaves and its caller does not reschedule, as after
  an error: `BackgroundWork.LeftBehind`. `BackgroundWork.Scheduler.ManualLeave` has the exact condition, and
  `BackgroundWork.Scheduler.SetGate` the one for a gate opened on queued work.
* The reverse scan of `DBIter` takes a SingleDelete under a run of merge operands for a base value, where the forward scan
  takes it for none: `DBIter.OperandOverSingleDelete`. `DBIter.DBIter.FinishScan` states the exact condition under which
  the value is right, for merge operators that can tell an absent base from a present one.
* Seeking past a key targets `(k, 0, Deletion)`, which does not pass a stored record with exactly that key. With
  `max_skip_` equal to 0 the forward scan goes round for ever on it: `DBIter.ScanGoesRound`. It does not advance exactly
  when it stands on such a record while skipping its key (`DBIter.ScanStaysIff`), which takes another visible version of
  the key above it.
* The closing assertion of `MarkLogsSynced` fails in a correct run in which two log switches happen during a sync:
  `WalSync.TwoSwitchesDuringSync`, with the exact condition in `WalSync.ClosingAssertion`.
* A syncing write that failed before it raised its flags still marks the logs up to the current one:
  `WalSync.UnownedMark` shows that the flags stay right exactly when nobody else is syncing.
* `IsInputNonOverlapping` treats the first input level as level 0 even when it is not, and then looks at only one of its
  files: `PickerOverlap.MissesAnOverlap`. It is right for all inputs exactly when the compaction starts at level 0 or has
  at most one file at its first level (`PickerOverlap.AlwaysRightIff`).
* Once all but one group are closed, the last size that `GenSubcompactionBoundaries` reports is that of the last range
  alone: `SubcompactionBounds.LastSizeFallsShort`. The sizes add up to the total exactly when fewer groups than intended
  result or the ranges in between are empty (`SubcompactionBounds.GroupRanges`). Only statistics use the sizes.

## Model

| member | source | states |
|---|---|---|
| `DbFormat.ParseUndoesAppend` | rocksdb/db/dbformat.h:192-203 | parsing an appended internal key gives back its user key, sequence and type, for every storable key |
| `DbFormat.TrailerLayout` | rocksdb/db/dbformat.cc:20-41 | after the user key come the stored number of the type and the sequence number in seven bytes, low byte first |
| `DbFormat.ComparesAgree` | rocksdb/db/dbformat.cc:68-107 | comparing encoded keys and comparing parsed keys always give the same answer |
| `DbFormat.CompareIsTotalOrder` | rocksdb/db/dbformat.cc:87-107 | the comparison is zero exactly on equal keys, antisymmetric and transitive |
| `DbFormat.RankEmbeds` | rocksdb/db/dbformat.cc:68-73 | the bytewise order of user keys is the order of their ranks among the reals |
| `DbFormat.BeforeIsCompare` | rocksdb/db/dbformat.cc:87-107 | the record order used by the rest of the model is the internal key comparison |
| `VisibleMap.SeekFindsNewest` | rocksdb/db/dbformat.h:45-51 | the first record at or after (k, s, kValueTypeForSeek) is of key k exactly when k has a version at or below s, and is then the newest such version |
| `VisibleMap.SeekFindsFirst` | rocksdb/db/db_iter.cc:710-720 | seeking with the largest sequence number finds the first record with a key at or after the target |
| `VisibleMap.SeekPastKey` | rocksdb/db/db_iter.cc:264-276 | where seeking past a key lands, including the stored record that it does not pass |
| `VisibleMap.AllIncreasing` | rocksdb/db/db_iter.cc:43-47 | the visible map lists its keys strictly increasing |
| `VisibleMap.AllAreReads` | rocksdb/db/db_iter.cc:43-47 | without merges, the visible map holds (k, v) exactly when a read of k at the sequence number gives v and k is below the upper bound |
| `VisibleMap.KeysOfAll` | rocksdb/db/db_iter.cc:215-281 | merges included, a key is in the visible map exactly when it is less than the upper bound and its newest visible version is a Put or a merge operand |
| `VisibleMap.MergedValue` | rocksdb/db/db_iter.cc:283-354 | the value of a run of merge operands is the operator applied, oldest operand first, to the Put right below the run, or to nothing |
| `VisibleMap.BoundedIsPart` | rocksdb/db/db_iter.cc:225-226 | an upper bound u leaves exactly the part of the unbounded map whose keys are less than u |
| `CompactionLevels.KeyNotExistsBeyondOutputLevel` | rocksdb/db/compaction.cc:236-264 | the answer with cached cursors is the stateless test that no file beyond the output level covers the key, and the cursors stay usable for any later key |
| `CompactionLevels.RunQueries` | rocksdb/db/compaction_iterator.h:131-137 | for every non-decreasing run of keys each cached answer equals the stateless test: in level style, that no file beyond the output level has the key between its smallest and largest key |
| `CompactionLevels.GetBoundaryKeys` | rocksdb/db/compaction.cc:43-63 | the reported range is the least one over first and last files of the non-empty input levels |
| `CompactionLevels.BoundaryUnique` | rocksdb/db/compaction.cc:43-63 | that range is determined by the inputs |
| `CompactionLevels.BoundaryCovers` | rocksdb/db/compaction.cc:43-63 | for key-ordered inputs the range covers every input key |
| `CompactionLevels.BoundaryMissesLevel0Key` | rocksdb/db/compaction.cc:43-63 | level-0 files in age order for which the range misses an input key |
| `CompactionLevels.OverlapsIff` | rocksdb/db/compaction.cc:92-98 | the overlap test holds exactly when some key lies in both ranges |
| `CompactionLevels.IsBottommostLevel` | rocksdb/db/compaction.cc:67-99 | true exactly when no level-0 file is older than the inputs and no file beyond the output level has a key in common with the boundary range (for output level 0: no such file at all) |
| `CompactionLevels.BottommostMeansNoOlderFile` | rocksdb/db/compaction.cc:67-99 | a compaction that says it is bottommost has no older file, at level 0 or beyond, over any key of its boundary range, in either style |
| `CompactionIterator.FindEarliestVisibleSnapshot` | rocksdb/db/compaction_iterator.cc:317-332 | the least snapshot at or above a sequence number, and the greatest one below it |
| `CompactionIterator.StripesSeparated` | rocksdb/db/compaction_iterator.cc:317-332 | a live snapshot that sees the older of two versions but not the newer puts them into different stripes |
| `CompactionIterator.PairTest` | rocksdb/db/compaction_iterator.cc:208-220 | the code's test that a SingleDelete and the next version share a stripe, by comparison with the previous snapshot, decides just that |
| `CompactionIterator.HiddenTest` | rocksdb/db/compaction_iterator.cc:242-250 | the code's test that a version is hidden by a newer one, by comparison with the last snapshot, decides just that |
| `CompactionIterator.CompactionIterator.constructor` | rocksdb/db/compaction_iterator.cc:12-46 | a new iterator remembers nothing and has its cursors at the start |
| `CompactionIterator.CompactionIterator.SeekToFirst` | rocksdb/db/compaction_iterator.cc:54-57 | stands on the first record the rule keeps, as it is to be written, or has stopped |
| `CompactionIterator.CompactionIterator.Next` | rocksdb/db/compaction_iterator.cc:59-95 | moves to the next record the rule keeps; everything in between is dropped by the rule; it stops only at the end or at a misused SingleDelete |
| `CompactionIterator.CompactionIterator.NextFromInput` | rocksdb/db/compaction_iterator.cc:97-302 | consumes input until a kept record, a misused SingleDelete or the end, dropping only what the rule drops |
| `CompactionIterator.CompactionIterator.Examine` | rocksdb/db/compaction_iterator.cc:131-300 | decides one record, or a pair, as the rule does |
| `CompactionIterator.CompactionIterator.ExamineSingleDelete` | rocksdb/db/compaction_iterator.cc:191-241 | drops a SingleDelete with its Put, keeps it, or reports misuse, as the rule does |
| `CompactionIterator.CompactionIterator.ExamineTop` | rocksdb/db/compaction_iterator.cc:242-300 | drops a hidden version or an obsolete tombstone and keeps the rest, as the rule does |
| `CompactionIterator.CompactionIterator.PrepareOutput` | rocksdb/db/compaction_iterator.cc:304-315 | zeroes the sequence number exactly of records below the earliest snapshot in a bottommost compaction |
| `CompactionOutput.KeptIff` | rocksdb/db/compaction_iterator.cc:191-300 | the iterator keeps exactly the records that the rule spelled out in snapshots and file ranges selects |
| `CompactionOutput.OutputSelects` | rocksdb/db/compaction_iterator.cc:97-332 | what is written is the input at exactly those positions, in order, with the sequence number zeroed exactly where a bottommost compaction has it below every snapshot |
| `CompactionOutput.TombstonesHaveAReason` | rocksdb/db/compaction_iterator.cc:251-267 | a written Delete that the earliest reader sees has, in level style, a file beyond the output level with its key in range, bottommost or not; in universal style the compaction is not bottommost |
| `CompactionOutput.LoneSingleDeletesHaveAReason` | rocksdb/db/compaction_iterator.cc:221-241 | so has a written SingleDelete without an older version in the input |
| `CompactionOutput.PairsAreGone` | rocksdb/db/compaction_iterator.cc:207-220 | a SingleDelete and the Put below it with no snapshot between them are both dropped |
| `CompactionReads.CompactionPreservesReads` | rocksdb/db/compaction_iterator.cc:97-332 | any key read at any live read point gives the same value before and after the input is replaced by the output, in any store whose older data lies in older files, given that the code's tests for older files are right where the run acts on them |
| `CompactionReads.DisciplineSurvives` | rocksdb/db/compaction_iterator.cc:179-241 | a history that alternates Put and SingleDelete alternates again after the compaction |
| `CompactionReads.DisciplineAvoidsMisuse` | rocksdb/db/compaction_iterator.cc:199-206 | under that discipline the iterator never meets a misused SingleDelete |
| `CompactionReads.TopBelowKind` | rocksdb/db/compaction_iterator.cc:207-241 | dropping SingleDelete pairs never exposes a version of the other kind |
| `CompactionReads.OutputWellFormed` | rocksdb/db/compaction_iterator.cc:304-315 | when a bottommost run has no older file over its keys, the output is strictly increasing after zeroing and no tombstone lies in the zeroed range |
| `CompactionReads.TombstoneNeverZeroed` | rocksdb/db/compaction_iterator.cc:304-315 | the assertion that a zeroed record is not a tombstone |
| `CompactionReads.OnePerStripe` | rocksdb/db/compaction_iterator.cc:242-267 | of the versions of a key in one snapshot stripe at most one is written, for Put/Delete input |
| `CompactionReads.PreservesReadsIffHonest` | rocksdb/db/compaction_iterator.cc:251-315 | for Put/Delete input, reads are preserved in every surrounding store if and only if no older file covers a key whose tombstone is dropped as obsolete or whose survivor is zeroed, unless its sequence numbers leave no room for older data |
| `CompactionReads.FlushIsHonest` | rocksdb/db/compaction_iterator.cc:251-254 | a flush drops no tombstone as obsolete and zeroes nothing |
| `CompactionReads.LevelStyleDropsAreHonest` | rocksdb/db/compaction.cc:245-263 | in level style tombstones are dropped only where no file beyond covers the key, whatever the boundary range is |
| `CompactionReads.CoveredKeysAreHonest` | rocksdb/db/compaction.cc:67-99 | a boundary range over all input keys makes every test for older files right, in either style |
| `Level0Boundary.Level0ZeroingExposes` | rocksdb/db/compaction.cc:43-99 | level-0 inputs in level style for which zeroing changes a read at the tip |
| `Level0Boundary.UniversalDropExposes` | rocksdb/db/compaction.cc:242-244 | the same inputs in universal style, where a dropped tombstone brings an older value back |
| `CompactionReads.KeyOrderedInputsAreHonest` | rocksdb/db/compaction.cc:43-99 | key-ordered inputs, of any record kinds, have such a range |
| `Subcompaction.ProcessKeyValueCompaction` | rocksdb/db/compaction_job.cc:614-686 | writes exactly the kept records with start <= k < end, or those before the first misused SingleDelete among them |
| `Subcompaction.StopsAtMisuse` | rocksdb/db/compaction_iterator.cc:199-206 | the loop stops at the first SingleDelete whose next older version is not a Put, and nowhere else |
| `Subcompaction.StopLosesNothingIff` | rocksdb/db/compaction_job.cc:614-686 | stopping at a misused SingleDelete loses nothing if and only if no record from it to the end of the range would have been kept |
| `Subcompaction.LosesARecord` | rocksdb/db/compaction_iterator.cc:199-206 | a compaction of two SingleDeletes in a row after which the Put of another key is lost and its read at the tip changes |
| `Subcompaction.RunSubcompactions` | rocksdb/db/compaction_job.cc:306-323 | for any increasing boundaries, what the ranges write, concatenated, is what the unsplit run writes, which is the selected input records |
| `Subcompaction.Compact` | rocksdb/db/compaction_job.cc:306-323 | a whole job at any split preserves every live read, leaves sorted, disciplined output, and writes a Delete that the earliest reader sees only above an older file |
| `SubcompactionBounds.AddLevelBounds` | rocksdb/db/compaction_job.cc:355-388 | the candidates become the old ones and exactly those the level offers, in increasing order: both ends of the level, at level 0 both ends of every file, at the output level the start of every file |
| `SubcompactionBounds.GroupRanges` | rocksdb/db/compaction_job.cc:392-443 | strictly increasing inner boundaries taken from the candidates; every closed group has the size between its ends, reached the mean, and not before its last range; what is left open did not reach it unless the number of parts was used up; the sizes add up to the total but for the ranges left out |
| `SubcompactionBounds.LastSizeFallsShort` | rocksdb/db/compaction_job.cc:436 | three ranges whose reported sizes add up to less than the total |
| `SubcompactionBounds.GenSubcompactionBoundaries` | rocksdb/db/compaction_job.cc:344-443 | the same for the whole choice; the candidates are exactly what the levels offer up to the first empty one |
| `DBIter.DBIter.constructor` | rocksdb/db/db_iter.cc:61-80 | a new iterator is not valid, and satisfies the invariant whenever its contents are ones it can serve |
| `DBIter.DBIter.Current` | rocksdb/db/db_iter.cc:93-102 | key and value are the pair at the cursor, in every direction and with merges |
| `DBIter.DBIter.MergeValuesNewToOld` | rocksdb/db/db_iter.cc:289-354 | the forward merge gives the value of the key in the visible map |
| `DBIter.DBIter.FindNextUserEntryInternal` | rocksdb/db/db_iter.cc:215-281 | stops at the first acceptable shown key, or passes none that is acceptable |
| `DBIter.ScanStaysIff` | rocksdb/db/db_iter.cc:264-276 | the forward scan does not advance if and only if reseeking at once is asked for and it stands on (k, 0, Deletion) while skipping k |
| `DBIter.ScanGoesRound` | rocksdb/db/db_iter.cc:264-276 | a Put over a stored (k, 0, Deletion) from which Next does not come back |
| `DBIter.DBIter.FindPrevUserKey` | rocksdb/db/db_iter.cc:606-632 | leaves all versions of the saved key, scanning or seeking, and nothing else visible |
| `DBIter.DBIter.FindValueForCurrentKey` | rocksdb/db/db_iter.cc:435-519 | finds a value exactly when the key is shown, and then its value in the visible map |
| `DBIter.DBIter.FinishScan` | rocksdb/db/db_iter.cc:483-519 | the reverse scan's value is right, and for merge operators that tell absence apart it is right only, when no SingleDelete lies under the operands |
| `DBIter.OperandOverSingleDelete` | rocksdb/db/db_iter.cc:447-519 | on an operand over a SingleDelete over an older Put the forward scan gives the value of the visible map and the reverse scan another, for every operator that can tell |
| `DBIter.ScanDone` | rocksdb/db/db_iter.cc:447-519 | after the reverse scan the oldest-first operands and base are those of the newest visible version |
| `DBIter.DBIter.FindValueForCurrentKeyUsingSeek` | rocksdb/db/db_iter.cc:523-586 | the reseek path finds the same value as the visible map and ends within the key |
| `DBIter.DBIter.PrevInternal` | rocksdb/db/db_iter.cc:398-430 | stops at the nearest shown key at or before the position, or shows that there is none |
| `DBIter.DBIter.ReverseToBackward` | rocksdb/db/db_iter.cc:371-396 | the internal iterator ends just before every version of the current key |
| `DBIter.DBIter.FindNextUserKey` | rocksdb/db/db_iter.cc:592-603 | moves onto the first version of the current key |
| `DBIter.DBIter.Next` | rocksdb/db/db_iter.cc:175-199 | the cursor moves one forward in the visible map, or the iterator becomes invalid at its end |
| `DBIter.DBIter.Prev` | rocksdb/db/db_iter.cc:356-369 | the cursor moves one back, or the iterator becomes invalid at the start |
| `DBIter.DBIter.Seek` | rocksdb/db/db_iter.cc:645-670 | valid exactly when a visible key is at or after the target, and then at the first such key |
| `DBIter.DBIter.SeekToFirst` | rocksdb/db/db_iter.cc:672-698 | at the first visible key, invalid exactly when there is none |
| `DBIter.DBIter.SeekToLast` | rocksdb/db/db_iter.cc:700-743 | at the last visible key, invalid exactly when there is none; that key is less than the upper bound and no key that is visible without the bound lies between the two |
| `DBIter.Run` | rocksdb/db/db_iter.cc:50-59 | any run of operations shows what a plain cursor over the visible map shows |
| `SuperVersion.StepKeepsInv` | rocksdb/db/column_family.cc:555-672 | each of the nineteen atomic steps of readers and installs keeps the invariant |
| `SuperVersion.RunKeepsInv` | rocksdb/db/column_family.cc:555-672 | so does every interleaving |
| `SuperVersion.RefcountsAreExact` | rocksdb/db/column_family.cc:232-266 | in every reachable state a counter equals the number of holders; a referenced SuperVersion is not cleaned up, an unreferenced one is or somebody owes it |
| `SuperVersion.NoUseAfterRelease` | rocksdb/db/column_family.cc:555-634 | whatever a step reads, counts up or counts down is referenced and not cleaned up |
| `SuperVersion.CleanupIsFirst` | rocksdb/db/column_family.cc:236-258 | the SuperVersion a step cleans up was not cleaned up before and has no reference afterwards |
| `SuperVersion.CleanupOnce` | rocksdb/db/column_family.cc:236-258 | over a whole run Cleanup of a SuperVersion runs at most once, never while it is referenced, and exactly once when it is unreferenced and nobody owes it |
| `SuperVersion.CleanupTargets` | rocksdb/db/db_impl.cc:4264-4280 | what a thread is about to clean up is unreferenced and not cleaned up |
| `SuperVersion.SlotAssertions` | rocksdb/db/column_family.cc:580-628 | a swap never finds the in-use marker and a failed compare-and-swap always finds the obsolete marker |
| `SuperVersion.RejectedWithExtra` | rocksdb/db/column_family.cc:555-564 | GetReferencedSuperVersion may ignore the result of its Unref |
| `SuperVersion.LastReference` | rocksdb/db/column_family.cc:388-401 | once readers are gone and slots reset, the installed pointer holds the last reference and all others were cleaned up |
| `SuperVersion.ObtainedIsCurrent` | rocksdb/db/column_family.cc:566-607 | a call obtains its SuperVersion at an instant when that one has the global number |
| `SuperVersion.OnlyCheckAndAcquireObtain` | rocksdb/db/column_family.cc:566-607 | there is no other way to obtain one |
| `SuperVersion.NeverSupersededBeforeCall` | rocksdb/db/column_family.cc:566-607 | a call never uses a SuperVersion superseded before it began |
| `SuperVersion.ReturnLeavesFresh` | rocksdb/db/column_family.cc:612-628 | a successful compare-and-swap leaves the newest SuperVersion or one that a scrape in progress will collect |
| `SuperVersion.CachesAreCurrent` | rocksdb/db/column_family.cc:636-672 | once no install is running every cached SuperVersion is the installed one |
| `SuperVersion.ExtraCanBeReleased` | rocksdb/db/column_family.cc:555-564 | a reference handed out can be released, once, as soon as its call has returned |
| `SuperVersion.UndisturbedCall` | rocksdb/db/column_family.cc:566-628 | while no install is running a call with a cached SuperVersion gets the installed one without the mutex or a counter, and returning it undisturbed restores the whole state |
| `SuperVersion.SlowCall` | rocksdb/db/column_family.cc:587-606 | a call without one references the installed SuperVersion under the mutex |
| `SuperVersion.NumberGrows` | rocksdb/db/column_family.cc:636-660 | the global number never falls along a run |
| `MemTableList.PickTakesAll` | rocksdb/db/memtable_list.cc:239-256 | a pick leaves no memtable waiting and gives all that waited to one job, the oldest leading |
| `MemTableList.FlushIsOver` | rocksdb/db/memtable_list.cc:258-295 | a flush that ends leaves none of its memtables behind: all are flushed into its file, or all wait again, and no other is touched |
| `MemTableList.PickKeepsList` | rocksdb/db/memtable_list.cc:239-256 | picking every waiting memtable keeps files numbered in the order of the memtables |
| `MemTableList.CompleteKeepsList` | rocksdb/db/memtable_list.cc:289-304 | so does a finished flush, which commits unless another thread does or an older memtable is unfinished |
| `MemTableList.CommitKeepsList` | rocksdb/db/memtable_list.cc:309-350 | so does a round of the commit loop |
| `MemTableList.CommitKeepsEdits` | rocksdb/db/memtable_list.cc:309-350 | a round of the commit loop skips no edit: of the memtables that carry one, each has its file added in that round or stays in the list, though the loop removes several at a time |
| `MemTableList.CommitKeepsBacked` | rocksdb/db/memtable_list.cc:309-350 | every memtable that a round removes, whether it carries the edit or not, has a file that was added by then, and for every one that stays the edit is still at or before it or was applied |
| `MemTableList.PickKeepsBacked` | rocksdb/db/memtable_list.cc:239-256 | picking puts the memtable that carries the edit before the others of its batch |
| `MemTableList.CommitFailsKeepsBackedIff` | rocksdb/db/memtable_list.cc:335-349 | a failed commit leaves an edit for every flushed memtable if and only if no other memtable of its batch is in the list |
| `FlushBatches.BooksAlwaysOk` | rocksdb/db/memtable_list.cc:278-356 | after any run, failures included, one memtable of a flush carries its edit, no two lists or memtables wait to add the same file, and none waits to add one that was added |
| `FlushBatches.FlushedDataIsRecorded` | rocksdb/db/memtable_list.cc:309-350 | after any run whose failed commits are of batches of one memtable, a commit removes only memtables whose file some version edit has added |
| `FlushBatches.FailedCommitKeepsDataIff` | rocksdb/db/memtable_list.cc:335-349 | a failed commit leaves every memtable with an edit if and only if its batch has no other memtable; if it has one, that one stays marked as flushed into a file for which no edit is left |
| `FlushBatches.OrphanForever` | rocksdb/db/memtable_list.cc:335-349 | a file for which no edit is left is never added to a version, in any run |
| `FlushBatches.OrderlyFailuresAreLone` | rocksdb/db/memtable_list.cc:335-349 | a failed commit that leaves no memtable waiting before a picked one is of a batch of one |
| `FailedCommit.FlushedDataIsLost` | rocksdb/db/memtable_list.cc:309-350 | a run with a failed commit of two memtables after which a commit removes one whose file was never added and never will be |
| `MemTableList.RollbackKeepsList` | rocksdb/db/memtable_list.cc:258-276 | a failed flush does no harm if no younger memtable was picked by another job |
| `MemTableList.OwedIsGuarded` | rocksdb/db/memtable_list.cc:297-350 | a file that waits to be installed is at or above the number of some running job |
| `ObsoleteFiles.BelowHeadIsFree` | rocksdb/db/db_impl.cc:540-552 | below the head of the pending-output list no job has a file, and a guarded scan finds none that waits to be installed |
| `ObsoleteFiles.StepKeepsInv` | rocksdb/db/db_impl.cc:514-563 | every step of jobs, versions, memtable lists, failures, Find and Purge keeps the invariant, scans being guarded |
| `FlushBatches.OwedUntilInstalled` | rocksdb/db/memtable_list.cc:309-350 | a finished flush's file waits until a commit makes it live or the commit of that file fails |
| `ObsoleteFiles.HeadIsLeast` | rocksdb/db/db_impl.cc:4359-4373 | the head of the pending-output list is at or below the number of every running job, however jobs finish |
| `ObsoleteFiles.PurgingIsSafe` | rocksdb/db/db_impl.cc:647-745 | after any run whose scans are guarded everything live, every output of an unfinished job and every file of a finished flush that waits to be installed is on disk, and the purges of the next scan keep it so if and only if that scan is guarded |
| `ObsoleteFiles.PurgesSafelyIffGuarded` | rocksdb/db/db_impl.cc:514-563 | the same for one scan: no purge of what it plans deletes anything needed, if and only if every waiting file it looks at has a running job that began at or below its number |
| `ObsoleteFiles.OrderlyRunsAreGuarded` | rocksdb/db/memtable_list.cc:239-350 | if no failure leaves a memtable waiting before one that another job has picked, every scan of the run is guarded |
| `ObsoleteFiles.OrderlyRunsAreSafe` | rocksdb/db/db_impl.cc:647-745 | so nothing needed is missing after such a run, and nothing that the next scan plans is needed |
| `ObsoleteFiles.StepEffects` | rocksdb/db/db_impl.cc:514-745 | which steps put a file into or take it out of the versions, and onto or off the disk, exactly |
| `ObsoleteFiles.NothingForgotten` | rocksdb/db/db_impl.cc:514-563 | a file that was ever live is, after any run, live, listed as obsolete, or planned to be deleted by some purge |
| `ObsoleteFiles.ReplacedFileIsDeleted` | rocksdb/db/db_impl.cc:514-745 | when a compaction replaces a file and nothing else is going on, its output becomes live and the next scan and purge delete the file |
| `ObsoleteFiles.BeginPostponesNothing` | rocksdb/db/db_impl.cc:4359-4373 | a job that begins keeps no scan from a file that existed before |
| `ObsoleteFiles.PurgeDeletesOnlyDead` | rocksdb/db/db_impl.cc:647-745 | what a purge deletes is not used by any version, job or finished flush at that moment or ever after, whatever happens next |
| `ObsoleteFiles.DeadForever` | rocksdb/db/db_impl.h:653-662 | a file that no version, job or finished flush has never comes back, in any run |
| `ObsoleteFiles.FullScanFindsGarbage` | rocksdb/db/db_impl.cc:514-563 | once no job runs, a full scan plans the deletion of exactly the files that no version has |
| `ObsoleteFiles.ScanTakesIff` | rocksdb/db/db_impl.cc:540-563 | a scan takes a file it looks at if and only if no version has it and every running job began after it was numbered |
| `FailedFlush.LiveFileIsGone` | rocksdb/db/memtable_list.cc:258-276 | a run with a failed flush after which a live file is missing |
| `BackgroundWork.Scheduler.MaybeScheduleFlushOrCompaction` | rocksdb/db/db_impl.cc:2223-2268 | moves work to the pool without losing any, until nothing more can be handed out and no further than the limits, and submits no automatic compaction during a manual one |
| `BackgroundWork.Scheduler.SchedulePendingFlush` | rocksdb/db/db_impl.cc:2302-2307 | queues a column family once and raises the counter with the queue |
| `BackgroundWork.Scheduler.SchedulePendingCompaction` | rocksdb/db/db_impl.cc:2309-2314 | queues a column family once and raises the counter with the queue |
| `BackgroundWork.Scheduler.PopFirstFromFlushQueue` | rocksdb/db/db_impl.cc:2293-2300 | takes the head and lowers its flag |
| `BackgroundWork.Scheduler.BackgroundFlush` | rocksdb/db/db_impl.cc:2334-2363 | takes the first column family that still needs a flush, and no work behind it is stranded |
| `BackgroundWork.Scheduler.BackgroundCallFlushDone` | rocksdb/db/db_impl.cc:2384-2440 | ends a flush job, makes up no work, and leaves nothing that could be handed out |
| `BackgroundWork.Scheduler.BackgroundCompaction` | rocksdb/db/db_impl.cc:2527-2640 | starts the registered manual compaction, leaving queue and count alone, or the first queued automatic one |
| `BackgroundWork.Scheduler.StartAutomatic` | rocksdb/db/db_impl.cc:2591-2640 | the automatic part: pops, and queues the column family again when more is needed |
| `BackgroundWork.Scheduler.TakeFirst` | rocksdb/db/db_impl.cc:2593-2601 | the popped column family is the head and is queued no more |
| `BackgroundWork.Scheduler.CompactionWorkDone` | rocksdb/db/db_impl.cc:2777-2812 | unregisters the manual compaction and, if its range is finished or it failed, lets its caller go |
| `BackgroundWork.Scheduler.BackgroundCallCompactionDone` | rocksdb/db/db_impl.cc:2449-2525 | ends a compaction job, makes up no work, and leaves nothing that could be handed out |
| `BackgroundWork.Scheduler.ManualEnter` | rocksdb/db/db_impl.cc:2125-2137 | announces a manual compaction, after which no automatic one is submitted |
| `BackgroundWork.Scheduler.ManualPass` | rocksdb/db/db_impl.cc:2138-2144 | passes the wait once no compaction is scheduled |
| `BackgroundWork.Scheduler.ManualRegister` | rocksdb/db/db_impl.cc:2153-2163 | registers the manual compaction and submits its one job |
| `BackgroundWork.Scheduler.ManualLeave` | rocksdb/db/db_impl.cc:2165-2168 | withdraws the announcement of a finished manual compaction, after which rescheduling is due; work is stranded if and only if it was the last announcement and the gate is open on queued compactions without a job |
| `BackgroundWork.Scheduler.SetGate` | rocksdb/db/db_impl.cc:1880-1960 | opening the gate makes rescheduling due and strands work if and only if it was closed on queued work without a job |
| `BackgroundWork.LeftBehind` | rocksdb/db/db_impl.cc:1546-1561 | a compaction queued while a manual one ran is without a job after that one is done and left, and before its caller reschedules |
| `BackgroundWork.Perform` | rocksdb/db/db_impl.h:664-697 | when no rescheduling is due, a critical section strands work if and only if it is such a Leave or such an opening of the gate; if its thread is at that point it has its effect, and it changes the number of jobs still to start by exactly what it queues and starts |
| `BackgroundWork.RunIsBalanced` | rocksdb/db/db_impl.h:664-697 | over a whole run jobs to start plus jobs started equal jobs to start before plus column families queued |
| `BackgroundWork.Run` | rocksdb/db/db_impl.h:664-697 | after any run flags are queue membership, no queue holds a duplicate, each queue is at most its unscheduled plus submitted work, no automatic compaction is beside a registered manual one, and no rescheduling is due and no work stranded unless a Leave or an opening of the gate was not followed by a rescheduling; every critical section of the run has its effect |
| `WalSync.Wal.SyncWALBegin` | rocksdb/db/db_impl.cc:1980-2013 | raises the flags of exactly the logs up to the noted number, none of which was up |
| `WalSync.Wal.WriteSyncBegin` | rocksdb/db/db_impl.cc:3836-3851 | raises every flag |
| `WalSync.Wal.MarkLogsSynced` | rocksdb/db/db_impl.cc:2036-2059 | on success releases the synced logs but the last of all, on failure lowers their flags; nothing else changes |
| `WalSync.ReleasedAre` | rocksdb/db/db_impl.cc:2046-2056 | on success every log up to the number but the last log of all is released, on failure none |
| `WalSync.Settle` | rocksdb/db/db_impl.cc:2046-2056 | the erase-while-iterating loop releases a prefix and clears the rest |
| `WalSync.Wal.SwitchMemtable` | rocksdb/db/db_impl.cc:4064-4113 | appends a new current log, whose directory entry is not synced, unless the old one is still empty |
| `WalSync.Wal.StoreTotal` | rocksdb/db/db_impl.cc:3907 | the store of the addition overwrites what happened to the total since its load, and nothing else is lost |
| `WalSync.Wal.AddSize` | rocksdb/db/db_impl.cc:3908-3909 | the current log grows by the record, after which total and sum agree again |
| `WalSync.Wal.AddRecord` | rocksdb/db/db_impl.cc:3906-3909 | undisturbed, the statements grow the current log and the total by the same amount |
| `WalSync.Wal.DropStore` | rocksdb/db/db_impl.cc:604 | the store of the subtraction, likewise |
| `WalSync.Wal.DropAlive` | rocksdb/db/db_impl.cc:598-608 | undisturbed, drops exactly the alive logs below the number and their sizes |
| `WalSync.Wal.ReleaseObsolete` | rocksdb/db/db_impl.cc:609-622 | releases a prefix of logs below the number, stopping at one being synced |
| `WalSync.Run` | rocksdb/db/db_impl.h:562-592 | after any interleaving raised flags belong to one sync in progress, no open and no current log was released, every log is open or released, and once nobody is on the way through a change the total exceeds the sum of the sizes by exactly what the stores of the run have overwritten, which is nothing if every store is exclusive; every step of the run has its effect |
| `WalSync.LostUpdate` | rocksdb/db/db_impl.cc:3906-3909 | a log dropped between the write thread's load and store stays counted in the total |
| `WalSync.UnownedMark` | rocksdb/db/db_impl.cc:3987-3989 | marking logs one does not own keeps the flags right exactly when nobody is syncing |
| `WalSync.ClosingAssertion` | rocksdb/db/db_impl.cc:2046-2057 | when the assertion after the loop holds, as a condition on the logs before it |
| `WalSync.TwoSwitchesDuringSync` | rocksdb/db/db_impl.cc:2046-2057 | a correct run in which it does not |
| `PickerSanitize.HaveOverlappingKeyRanges` | rocksdb/db/compaction_picker.cc:575-597 | the case analysis decides whether two ranges touch |
| `PickerSanitize.MeetIsSharedKey` | rocksdb/db/compaction_picker.cc:575-597 | ranges touch exactly when they have a key in common |
| `PickerSanitize.FindIncluded` | rocksdb/db/compaction_picker.cc:630-649 | the first and last chosen file of a level |
| `PickerSanitize.Expand` | rocksdb/db/compaction_picker.cc:651-673 | draws in exactly the neighbours linked by shared boundary keys |
| `PickerSanitize.Widen` | rocksdb/db/compaction_picker.cc:685-707 | the widened range holds every file of its level that it touches |
| `PickerSanitize.AbsorbDeeper` | rocksdb/db/compaction_picker.cc:708-732 | every touching file from the level down to the output level joins, or one of them is being compacted |
| `PickerSanitize.SanitizeCompactionInputFilesForAllLevels` | rocksdb/db/compaction_picker.cc:600-735 | on success the least complete set holding the request, none of it being compacted and nothing overlapping left behind; refused exactly when that set holds a file being compacted |
| `PickerOverlap.CreateLevelHeap` | rocksdb/db/compaction_picker.cc:77-102 | the heap starts with all level-0 files and the first file of every other level |
| `PickerOverlap.ApartIff` | rocksdb/db/compaction_picker.cc:1201-1205 | files are apart exactly when no key lies in both ranges, boundary keys included |
| `PickerOverlap.IsInputNonOverlapping` | rocksdb/db/compaction_picker.cc:1184-1224 | goes over the files by smallest key, each once, and tells whether those it reaches are pairwise disjoint |
| `PickerOverlap.RightUnlessMissed` | rocksdb/db/compaction_picker.cc:1184-1224 | the answer is about all input files unless a file it never reaches overlaps and no reached one does |
| `PickerOverlap.AlwaysRightIff` | rocksdb/db/compaction_picker.cc:1184-1224 | the answer is right for all inputs with n files at the first level if and only if the compaction starts at level 0 or n is at most 1 |
| `PickerOverlap.MissesAnOverlap` | rocksdb/db/compaction_picker.cc:1184-1224 | inputs starting at level 1 whose overlap goes unnoticed |
| `UniversalPicker.LevelRun` | rocksdb/db/compaction_picker.cc:1123-1151 | the run of a level stands for all its files: sizes, and whether they are being compacted |
| `UniversalPicker.CalculateSortedRuns` | rocksdb/db/compaction_picker.cc:1115-1154 | one run per level-0 file in order, then one per deeper level that holds anything, ordered by age |
| `UniversalPicker.Grow` | rocksdb/db/compaction_picker.cc:1417-1465 | the widest window from a start: every further run is within the ratio of the sum of those before it or, for similar sizes, it and the last one are within the ratio of each other; after it comes nothing, a busy run, one out of ratio, or the width limit |
| `UniversalPicker.FitsIff` | rocksdb/db/compaction_picker.cc:1431-1465 | a window fits exactly when it is no wider than allowed, all its runs are idle and each satisfies that inequality in whole numbers |
| `UniversalPicker.OutputLevel` | rocksdb/db/compaction_picker.cc:1513-1521 | the deepest level that is at or below every picked run and above the next older one: merging into any deeper level would break the order by age |
| `UniversalPicker.PickCompactionUniversalReadAmp` | rocksdb/db/compaction_picker.cc:1378-1549 | the first window wide enough, as wide as it can be, none of it being compacted, every run within the size ratio as above, with its output level; nothing exactly when no window is wide enough |
| `UniversalPicker.AgeOrderKept` | rocksdb/db/compaction_picker.cc:1513-1521 | merging the window into its level keeps the runs ordered by age |
| `UniversalPicker.NothingJumpedOver` | rocksdb/db/compaction_picker.cc:1513-1540 | no level between the newest picked run and the output level is left out |
| `UniversalPicker.BusyRunHasBusyFile` | rocksdb/db/compaction_picker.cc:1115-1154 | a run is out of reach only if one of its files is being compacted |
| `UniversalPicker.PickedFilesIdle` | rocksdb/db/compaction_picker.cc:1115-1154 | no file of a picked run is being compacted |

## Left out

- Merge records, user compaction filters and corrupt internal keys in the compaction iterator: they call foreign code or `MergeHelper`; its input here is Put, Delete and SingleDelete.
- Failed merges, a missing merge operator and unparseable keys in `DBIter`: error paths that end the iterator.
- Prefix seek, statistics and perf counters: no effect on what is returned, except that a prefix extractor switches reseeking off, which is modelled.
- Tables, blocks, files, fsync, the environment, logging and listeners: tables are sequences of records, files are numbers with key ranges.
- Level-style picking by score, FIFO picking, input expansion and the compression and path choices: they rest on version storage code outside the files modelled.
- Assembling the input file lists of a universal pick from its window, and the size-amplification picker.
- `CompactFiles`, `AddFile` and recovery in the purging protocol: they do not capture a pending output first.
- Update in place within one atomic step of the SuperVersion and purging protocols: their claims are about interleavings, so both are step relations over immutable states.
- Thread creation and exit while the SuperVersion protocol runs, and nested gets on one thread: the set of threads is arbitrary and fixed, and a call returns its SuperVersion before the next begins.
- Background errors and shutdown: the scheduler covers runs without them, and failed flushes in the purging model do not stop later ones.
- 64-bit wrap-around of the total log size once updates of it were lost.
- Floating-point rounding in the subcompaction mean and in the size ratio: both are over the reals, with the approximate sizes and the estimate of output files as parameters.
- 64-bit wrap-around of sizes and counters: integers are unbounded; sequence numbers are bounded by kMaxSequenceNumber where the encoding needs it.
- WalSync.Wal.MarkLogsSynced: requires that the caller owns the flags it marks; the caller that does not is treated by UnownedMark.
- DBIter.Run: assumes that no visible merge run ends at a SingleDelete and, when `max_skip_` is 0, that no record (k, 0, Deletion) below the bound lies under another visible version of its key; both conditions are shown to matter.
- CompactionReads.PreservesReadsIffHonest: stated for inputs without SingleDelete; for those the "if" half is CompactionPreservesReads.
- CompactionReads.CoveredKeysAreHonest: in level style it assumes that level-0 files older than the inputs cover no input key, which is what level-style picking provides and the test does not check.
- ObsoleteFiles.PurgingIsSafe: assumes that scans are guarded, which it shows to be exact; FailedFlush.LiveFileIsGone is a run in which one is not.
- FlushBatches.FlushedDataIsRecorded: assumes that failed commits are of batches of one memtable, which FailedCommitKeepsDataIff shows to be exact; FailedCommit.FlushedDataIsLost is a run in which one is not.
- SubcompactionBounds.GroupRanges: does not say how evenly the sizes are spread, because the source promises only a greedy grouping.
- UniversalPicker.PickedFilesIdle: without trivial moves it assumes, as the source's assertion does, that the files of a deeper level are compacted together.
