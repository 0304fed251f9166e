# LevelDB and nanopb

A model of the two libraries that the repository vendors under `Pods`: LevelDB 1.20, a
log-structured store, and nanopb 0.3.8, a protobuf codec driven by field descriptors. The app's
own Swift code is not part of it.

`dafny verify dfyconfig.toml` checks everything. One module models one source file or one part of
one, in a file of the same name (but `TableBuilder.dfy` holds `TableWriter` and `Table.dfy` holds
`Tables`, whose main types would clash with their modules).

* **Store.** `DbFormat` says what a read means: the newest entry of a user key at or below a
  snapshot. `VersionSet`, `Lookup` and `Compaction` model how a version is searched and rewritten.
  `Lsm` is the state machine of all steps that change what is stored where, and `Recovery` the one
  of what is on disk, with crashes at any step; `RecoveryReads` and `RecoveryLevels` say what the
  disk is worth to a reader. `CompactionRun` is a compaction from the files picked to the files
  written, and `CompactionCommit` its installation in a version that has moved on. `SplitReads`,
  `SplitKeys`, `SplitRuns` and `LongRuns` say exactly when a compaction goes wrong, and `GapRun` is a
  run in which one does.
* **Concurrency.** `WriteQueue` (writers, one of them leading) and `SkipListReaders` (one writer,
  many readers, single loads and stores) are state machines over their steps.
* **Cursors.** `DbIter`, `Merger`, `BlockIter` and `TwoLevelIterator` are classes that move like an
  index into one sorted list, in both directions.
* **Files.** Writer, reader and round trip for logs (`LogWriter`, `LogReader`, `LogRoundTrip`;
  `LogFragments` and `LogDamage` for any bytes and for damage), manifests (`VersionEdit`, `VersionBuilder`, `ManifestReplay`, `Manifest`), blocks, filters, tables
  and batches, down to the bytes.
* **Memory.** `SkipList`, `MemTable`, and the cache: `LruCache` on values, `Rings` and `HashTable`
  for its parts, `CacheShard` for the code that puts them together; `LruOperations` and `LruOrder` say what
  that means for clients, and which entry goes first.
* **nanopb.** `PbTypes` has message types and values, `PbEncoding` and `PbDecoding` what bytes mean,
  `PbEncoder`, `PbDecoder` and `PbFieldIter` the code, `PbRoundTrip` the round trip; `PbRecords` and
  `PbSound` say what any bytes mean.
* **Fixed bytes.** `Crc32c` is proved for the polynomial it has, and `CrcVectors`, `FormatVectors` and
  `PbVectors` give published checksums and the bytes of each format outright.

Where the source keeps state and loops, so does the model: classes and methods are proved to
compute what functions say, and lemmas prove the properties of these functions. Specifications are
by the meaning (a sorted union, a set of entries, polynomial division), not by the steps.

## What the code does that its comments do not say

* `DoCompactionWork` drops a deletion because "there is no data in higher levels" (db_impl.cc:961-967).
  Data of the same key may be left in the same level, in the next file. `SplitReads.ReadsSurviveIff`
  has the exact condition, and `SplitKeys` a run from the empty store that brings a deleted value
  back; `LongRuns.LongRunKeepsInvIff` says which runs keep all that the store promises.
* A memtable flushed while a compaction runs goes down, at most to level 2, as long as it overlaps no
  file of the current version (db_impl.cc:542, version_set.cc:502-528). The outputs of the compaction
  are not in that version yet. If the inputs have a gap between their key ranges, as the files of a manual
  compaction may, an output can enclose the flushed file, and then binary search misses keys
  (`GapRun.GapBreaksLevel`). Automatic compactions have no such gap
  (`CompactionCommit.NoGapEnclosesNothing`).
* One builder over all manifest records does not rebuild the version in memory if an edit adds a file
  to a level that already holds it (`ManifestReplay.ReplayEqualsStepsIff`); no edit the store makes does.
* The log reader numbers what it could not read after the last record type, as 6 (log_reader.h:82-90), and
  a fragment of that type in the file is taken for one of these: it is lost without a report
  (`LogFragments.TypeSixIsLost`; `LogFragments.LostIsReportedIff` has the exact condition).
* The decoder of nanopb looks at the wire type of a tag only to tell packed arrays, and to skip fields it does
  not know; other fields are read as their descriptor says (`PbRecords.AfterItem`).
* `VersionEdit::DecodeFrom` clears everything but the compaction pointers.
* nanopb encodes a string that fills its buffer without a NUL, and cannot decode it
  (`PbRoundTrip.FullBufferIsNotReadBack`). Bytes that end within a tag end a message without an error. With 32
  required fields the check for missing ones shifts a word by its width (pb_decode.c:947-948), so the
  model asks for another number of them (`PbTypes.CanBeCounted`).

## Model

| member | source | states |
|---|---|---|
| `LongRuns.LongRunKeepsInvIff` | MobileDevicesTracker/Pods/leveldb-library/db/db_impl.cc:534-1054 | In a run of writes, memtable switches, flushes, snapshot operations, and the trivial moves and compactions the code may choose, a compaction being begun in one state and installed in a later one: every state satisfies the invariant exactly if no move or compaction breaks a user key apart or encloses a file flushed meanwhile. The invariant: levels above 0 are sorted and disjoint, an entry is newer than every entry of its user key at a deeper level, file numbers are unique, and reads at or above the floor over what is stored equal reads over everything ever written. |
| `LongRuns.FinishKeepsInvIff` | MobileDevicesTracker/Pods/leveldb-library/db/db_impl.cc:866-1054 | A compaction begun in one state and installed in a later one keeps the invariant exactly if no output encloses a file flushed meanwhile, nothing kept overtakes an older entry of its key in a file left out, and no deletion seen at its smallest snapshot is split from the value it deletes. |
| `SplitRuns.RunKeepsInvIff` | MobileDevicesTracker/Pods/leveldb-library/db/db_impl.cc:534-1054 | In a run in which compactions are single steps, every state satisfies the invariant exactly if no move or compaction breaks a user key apart. |
| `SplitRuns.StepKeepsInvIff` | MobileDevicesTracker/Pods/leveldb-library/db/db_impl.cc:534-1054 | A single step keeps the invariant exactly if it is no move of a file that ends inside a user key, and no compaction that takes a kept entry past an older one of its key or drops a deletion whose value it leaves. |
| `SplitRuns.CleanCutsBreakNothing` | MobileDevicesTracker/Pods/leveldb-library/db/version_set.cc:1345-1411 | Moves and compactions of clean cuts break nothing apart. |
| `Lsm.FlushKeepsInv` | MobileDevicesTracker/Pods/leveldb-library/db/db_impl.cc:488-565 | A memtable written as a table at the level that was picked keeps order, recency and every read. |
| `SplitRuns.MoveKeepsInvIff` | MobileDevicesTracker/Pods/leveldb-library/db/db_impl.cc:717-730 | Moving one file down keeps the invariant exactly if it comes from level 0 or does not end inside a user key. |
| `SplitRuns.CompactKeepsInvIff` | MobileDevicesTracker/Pods/leveldb-library/db/db_impl.cc:887-1054 | A compaction keeps the invariant exactly if nothing it keeps overtakes an older entry of its key in a file left out, and no deletion it drops, seen at its smallest snapshot, is followed by a file left out that begins with the value. |
| `SplitRuns.CompactionKeepsRecencyIff` | MobileDevicesTracker/Pods/leveldb-library/db/version_set.cc:1345-1411 | A compaction leaves newer entries above older ones exactly if no input ends inside a user key that goes on in a file left out while something of the key in it is kept. |
| `Lsm.Get` | MobileDevicesTracker/Pods/leveldb-library/db/db_impl.cc:1109-1154 | In every state that satisfies the invariant, asking the memtable, the immutable memtable and then the version gives the newest write at or below the snapshot, out of all writes ever made. |
| `LongRuns.SnapshotsAreFrozen` | MobileDevicesTracker/Pods/leveldb-library/db/db_impl.cc:1175-1184 | In such a run whose steps break nothing: whatever happened since a snapshot was taken, and as long as it is held, reading at it gives what was written before it. |
| `Lookup.SeekGet` | MobileDevicesTracker/Pods/leveldb-library/db/version_set.cc:268-281 | The first entry at or after the lookup key, if it has the user key, is the newest the snapshot sees, and if it has not there is none. |
| `Lookup.SortNewestFirst` | MobileDevicesTracker/Pods/leveldb-library/db/version_set.cc:283-285 | Level-0 files are put in order of decreasing number, none lost and none added. |
| `Lookup.GetLevel0` | MobileDevicesTracker/Pods/leveldb-library/db/version_set.cc:357-372 | Asking overlapping level-0 files newest first, and stopping at the first that answers, gives the newest entry of the level. |
| `Lookup.GetSortedLevel` | MobileDevicesTracker/Pods/leveldb-library/db/version_set.cc:373-390 | In a sorted level the one file that binary search finds answers for the whole level. |
| `Lookup.Get` | MobileDevicesTracker/Pods/leveldb-library/db/version_set.cc:332-429 | Stopping at the first level that answers gives the globally newest entry at or below the snapshot. |
| `VersionSet.FindFile` | MobileDevicesTracker/Pods/leveldb-library/db/version_set.cc:86-107 | In a level in order binary search gives the first file whose largest key is at or after the key, or the number of files; in any order it ends where the halving leads. |
| `VersionSet.SearchFinds` | MobileDevicesTracker/Pods/leveldb-library/db/version_set.cc:86-107 | Halving any range that has the wanted place in it ends at that place. |
| `VersionSet.SomeFileOverlapsRange` | MobileDevicesTracker/Pods/leveldb-library/db/version_set.cc:121-156 | The answer by binary search over a sorted level is that of looking at every file. |
| `VersionSet.GetOverlappingInputs` | MobileDevicesTracker/Pods/leveldb-library/db/version_set.cc:531-572 | Although it starts over when a file widens the range, it ends, with exactly the files that overlap the least closed range around the one asked for (level 0) or that range itself. |
| `Compaction.PickLevelForMemTableOutput` | MobileDevicesTracker/Pods/leveldb-library/db/version_set.cc:502-528 | It is the deepest level up to 2 so that no file at any level up to it overlaps the new table, and not too many bytes overlap two levels below any level above it: one deeper, or level 0 itself, would break that. |
| `Compaction.GetRange` | MobileDevicesTracker/Pods/leveldb-library/db/version_set.cc:1224-1242 | The result is the least and the greatest key of the files, each the key of one of them. |
| `Compaction.SetupOtherInputs` | MobileDevicesTracker/Pods/leveldb-library/db/version_set.cc:1345-1411 | Files of the next level are taken exactly if they overlap the user-key range of the level's inputs; the inputs are grown exactly if more files of the level overlap all of them, the bytes stay below the limit, and the next level then gives as many files as before; inputs of level 0 stay a clean cut, and inputs without a gap between their ranges end without one. |
| `Compaction.PickInputs` | MobileDevicesTracker/Pods/leveldb-library/db/version_set.cc:1291-1342 | The files picked for an automatic compaction are the file given, above level 0, and at level 0 have no gap between their key ranges and are a clean cut. |
| `Compaction.ClosureLeavesNoGap` | MobileDevicesTracker/Pods/leveldb-library/db/version_set.cc:531-572 | At level 0 the range that starts over grows no further than files without a gap between them reach. |
| `Compaction.ClosedIsCleanCut` | MobileDevicesTracker/Pods/leveldb-library/db/version_set.cc:531-572 | The restarting scan of level 0 leaves no file out that shares a user key with one it takes. |
| `Compaction.CompactionState.IsBaseLevelForKey` | MobileDevicesTracker/Pods/leveldb-library/db/version_set.cc:1484-1503 | For ascending keys the cursors that only move forward give the answer of a full scan of the levels from `level + 2` on. |
| `Compaction.CompactionState.ShouldDrop` | MobileDevicesTracker/Pods/leveldb-library/db/db_impl.cc:955-968 | An entry is dropped exactly if the entry before it of its key is already old enough, or it is a deletion every snapshot sees with no file below that covers its key. |
| `Compaction.CompactionState.DoCompactionWork` | MobileDevicesTracker/Pods/leveldb-library/db/db_impl.cc:887-1054 | However output files are cut, together they hold exactly the inputs that the two rules keep, in order, in files numbered one after the other. |
| `Compaction.KeptExactly` | MobileDevicesTracker/Pods/leveldb-library/db/db_impl.cc:940-968 | An input is written exactly if no newer input of its user key is seen by every snapshot, and it is no deletion that every snapshot sees and no deeper file covers. |
| `Compaction.CompactionKeepsReadsIff` | MobileDevicesTracker/Pods/leveldb-library/db/db_impl.cc:955-968 | For one compaction at one smallest snapshot: all reads the snapshots allow are kept exactly if no dropped deletion uncovers a value that stays behind. |
| `SplitReads.ReadsSurviveIff` | MobileDevicesTracker/Pods/leveldb-library/db/version_set.cc:1345-1411 | For the inputs the code selects, without assuming a clean cut: reads are kept whatever snapshots are held exactly if no droppable deletion in an input is followed, in its level, by a file left out that begins with the value it deletes. |
| `SplitReads.ReadsSurviveAtIff` | MobileDevicesTracker/Pods/leveldb-library/db/version_set.cc:1345-1411 | The same at one smallest snapshot: what counts are the deletions that are seen there. |
| `SplitReads.LiveIsInputsAndRest` | MobileDevicesTracker/Pods/leveldb-library/db/version_set.cc:1345-1411 | What the store holds is what is merged together with what is left behind. |
| `SplitKeys.MoveKeepsRecencyIff` | MobileDevicesTracker/Pods/leveldb-library/db/db_impl.cc:717-730 | Above level 0 a trivial move keeps newer entries above older ones exactly if the file does not end inside a user key. |
| `SplitKeys.FlushedIsReached` | MobileDevicesTracker/Pods/leveldb-library/db/db_impl.cc:997-1004 | A run from the empty store in which an output cut between two entries of one user key leaves a deletion and its value in different files of a level. |
| `SplitKeys.MoveTearsKey` | MobileDevicesTracker/Pods/leveldb-library/db/db_impl.cc:717-730 | In that run a trivial move may then take the deletion below the value. |
| `SplitKeys.NextSplits` | MobileDevicesTracker/Pods/leveldb-library/db/version_set.cc:1345-1411 | The next compaction of that run may choose files that split the deletion from its value. |
| `SplitKeys.NextRevivesDeletedValue` | MobileDevicesTracker/Pods/leveldb-library/db/version_set.cc:1345-1411 | The same run goes on with that compaction, and then a read that must find nothing finds the deleted value. |
| `CompactionRun.CompactFiles` | MobileDevicesTracker/Pods/leveldb-library/db/db_impl.cc:887-1054 | From the files picked, selection of the inputs, merging and writing together make what the store takes as one step; inputs picked without a gap have none. |
| `CompactionRun.ReadInputs` | MobileDevicesTracker/Pods/leveldb-library/db/version_set.cc:1258-1289 | The merging iterator over the inputs, read from its first entry, gives all their entries in key order. |
| `CompactionRun.EditedIsDistinct` | MobileDevicesTracker/Pods/leveldb-library/db/version_set.cc:711-772 | A level lists each file once after an edit, so no file is read twice. |
| `CompactionRun.FilesAreSeparate` | MobileDevicesTracker/Pods/leveldb-library/db/version_set.cc:1258-1289 | No two files of a version in order hold a common key, as the merging iterator wants it. |
| `CompactionCommit.InstalledInOrderIff` | MobileDevicesTracker/Pods/leveldb-library/db/db_impl.cc:866-930 | When memtables are flushed while a compaction runs: the levels of the version it then installs are in order exactly if no output encloses a file flushed meanwhile to its level. |
| `CompactionCommit.InstalledIsRecentIff` | MobileDevicesTracker/Pods/leveldb-library/db/db_impl.cc:866-930 | Flushes meanwhile make no difference to recency: it is kept exactly if nothing kept overtakes an older entry. |
| `CompactionCommit.InstalledKeepsReadsIff` | MobileDevicesTracker/Pods/leveldb-library/db/db_impl.cc:866-930 | Reads from the smallest snapshot on, over all tables then current, are kept exactly if no deletion seen there, flushes included, is split from its value. |
| `CompactionCommit.NoGapEnclosesNothing` | MobileDevicesTracker/Pods/leveldb-library/db/db_impl.cc:912-930 | Inputs without a gap between their key ranges enclose nothing, so automatic compactions keep the levels in order. |
| `CompactionCommit.FlushGrows` | MobileDevicesTracker/Pods/leveldb-library/db/db_impl.cc:534-565 | Every flush of a run grows the version as these statements ask: newer entries, and above level 0 no overlap with files at or above its level. |
| `GapRun.GapBreaksLevel` | MobileDevicesTracker/Pods/leveldb-library/db/version_set.cc:1413-1446 | A run from the empty store: while CompactRange compacts two files with a gap between them, a key in the gap is flushed to the level of the output, which then is out of order, so that FindFile misses the last key of the output. |
| `Recovery.RunKeepsInv` | MobileDevicesTracker/Pods/leveldb-library/db/db_impl.cc:274-486 | In every run of writes, memtable switches, flushes, compactions, manifest commits, file deletions, crashes and recoveries that may crash again, the disk satisfies the recovery invariant. |
| `Recovery.RecoveredIs` | MobileDevicesTracker/Pods/leveldb-library/db/db_impl.cc:274-363 | Wherever it stops, manifest and logs at or above its log number hold every acknowledged write that no compaction dropped, besides at most the batch on its way; no table the manifest names is missing, and sequence numbers resume above all of them. |
| `RecoveryReads.NothingIsLost` | MobileDevicesTracker/Pods/leveldb-library/db/db_impl.cc:274-486 | Wherever it stops, reads over what is recovered, at every snapshot from the floor on, are reads over every acknowledged write and the batch on its way; the floor never exceeds the last sequence number of the manifest. |
| `RecoveryReads.CompactionMayCommitIff` | MobileDevicesTracker/Pods/leveldb-library/db/db_impl.cc:866-885 | A compaction, with flushes committed while it ran, satisfies what a commit in the recovery model demands exactly if it splits no deletion seen at its smallest snapshot; and disk and new version agree. |
| `RecoveryLevels.RunKeepsOrder` | MobileDevicesTracker/Pods/leveldb-library/db/db_impl.cc:365-486 | In every run with crashes, later logs hold newer entries, and so do recovered tables with higher numbers; none is empty, and logs still to be replayed are newer than all of them. |
| `RecoveryLevels.ReopenedIsSound` | MobileDevicesTracker/Pods/leveldb-library/db/db_impl.cc:274-486 | With the recovered tables at level 0 of the version the manifest named, if that was in order, the opened store satisfies the whole invariant of the store: order, recency, and reads from the floor on over all acknowledged writes. |
| `Recovery.DeleteObsoleteKeepsInv` | MobileDevicesTracker/Pods/leveldb-library/db/db_impl.cc:218-272 | Deleting obsolete files removes no log, table or manifest that recovery, a live version or a pending output needs. |
| `Recovery.ObsoleteMayGo` | MobileDevicesTracker/Pods/leveldb-library/db/db_impl.cc:218-272 | Older logs and manifests, and tables that no live version and no pending output has, may all be removed. |
| `Recovery.ReadersSeeEverything` | MobileDevicesTracker/Pods/leveldb-library/db/db_impl.cc:1067-1096 | While it runs, memtables and installed version hold all that was written and not dropped, and every version a reader holds keeps its tables. |
| `Recovery.RecoverLogFile` | MobileDevicesTracker/Pods/leveldb-library/db/db_impl.cc:365-486 | The tables written while a log is replayed have new numbers, share no entry, hold exactly the entries of the log, and later ones newer entries; the last sequence number covers them all. |
| `DbIter.ShownIsWhatReads` | MobileDevicesTracker/Pods/leveldb-library/db/db_iter.cc:146-304 | The list the iterator stands in has exactly the user keys that read as values at its sequence number, with these values, each once, ascending. |
| `DbIter.DBIter.FindNextUserEntry` | MobileDevicesTracker/Pods/leveldb-library/db/db_iter.cc:173-203 | Going forward it stops at the first entry to be shown, and passes none. |
| `DbIter.DBIter.FindPrevUserEntry` | MobileDevicesTracker/Pods/leveldb-library/db/db_iter.cc:232-272 | Going backward over older before newer versions it stops at the last entry to be shown below the bound, with its key and value saved. |
| `DbIter.DBIter.Seek` | MobileDevicesTracker/Pods/leveldb-library/db/db_iter.cc:274-286 | Afterwards it stands on the first key of the list at or after the target. |
| `DbIter.DBIter.SeekToFirst` | MobileDevicesTracker/Pods/leveldb-library/db/db_iter.cc:288-297 | Afterwards it stands at the beginning of the list. |
| `DbIter.DBIter.SeekToLast` | MobileDevicesTracker/Pods/leveldb-library/db/db_iter.cc:299-304 | Afterwards it stands on the last key of the list. |
| `DbIter.DBIter.Next` | MobileDevicesTracker/Pods/leveldb-library/db/db_iter.cc:146-171 | It moves one key on in the list, also when it was going backward. |
| `DbIter.DBIter.Prev` | MobileDevicesTracker/Pods/leveldb-library/db/db_iter.cc:205-230 | It moves one key back in the list, also when it was going forward, and off the list from its first key. |
| `Merger.UnionIsRanked` | MobileDevicesTracker/Pods/leveldb-library/table/merger.cc:35-182 | Every entry of the sorted union belongs to one child, at the place in it that the order of the union gives. |
| `Merger.MergingIterator.FindSmallest` | MobileDevicesTracker/Pods/leveldb-library/table/merger.cc:155-168 | The child found has the least key of all that stand on one, if there is one. |
| `Merger.MergingIterator.FindLargest` | MobileDevicesTracker/Pods/leveldb-library/table/merger.cc:170-182 | The child found has the greatest key of all that stand on one, if there is one. |
| `Merger.MergingIterator.Seek` | MobileDevicesTracker/Pods/leveldb-library/table/merger.cc:51-57 | Afterwards it stands on the first entry of the union at or after the target. |
| `Merger.MergingIterator.SeekToFirst` | MobileDevicesTracker/Pods/leveldb-library/table/merger.cc:35-41 | Afterwards it stands at the beginning of the union. |
| `Merger.MergingIterator.SeekToLast` | MobileDevicesTracker/Pods/leveldb-library/table/merger.cc:43-49 | Afterwards it stands on the last entry of the union. |
| `Merger.MergingIterator.Next` | MobileDevicesTracker/Pods/leveldb-library/table/merger.cc:59-83 | It moves one entry on in the sorted union, also when it was going backward, and all children stand where the new direction wants them. |
| `Merger.MergingIterator.Prev` | MobileDevicesTracker/Pods/leveldb-library/table/merger.cc:85-112 | It moves one entry back in the sorted union, also when it was going forward, and all children stand where the new direction wants them. |
| `LogWriter.Writer.AddRecord` | MobileDevicesTracker/Pods/leveldb-library/db/log_writer.cc:36-82 | A record is appended as the fragments the format says, from any offset in a block on. |
| `LogWriter.WriteLog` | MobileDevicesTracker/Pods/leveldb-library/db/log_writer.cc:28-109 | A log written by one writer and continued by a second, opened at its length, is the log of all the records. |
| `LogReader.Reader.ReadPhysicalRecord` | MobileDevicesTracker/Pods/leveldb-library/db/log_reader.cc:199-281 | The loop over blocks, trailers, lengths and checksums computes the next fragment of any bytes at all, and reports what it drops. |
| `LogReader.Reader.ReadRecord` | MobileDevicesTracker/Pods/leveldb-library/db/log_reader.cc:60-182 | The reassembly loop computes the next record of any bytes at all, and reports what it drops; `LogFragments` and `LogDamage` say what that means. |
| `LogReader.ReadLog` | MobileDevicesTracker/Pods/leveldb-library/db/log_reader.cc:60-182 | Reading to the end gives all the records and reports there are in any file. |
| `LogFragments.ReadsRecords` | MobileDevicesTracker/Pods/leveldb-library/db/log_reader.cc:74-182 | For any bytes: the records read are, in order, the full fragments, and the runs of a first, middle ones and a last with nothing in between. |
| `LogFragments.LostIsReportedIff` | MobileDevicesTracker/Pods/leveldb-library/db/log_reader.cc:87-181 | For any bytes: what fragments hold is returned, reported as lost, or cut off by the end of the file, exactly if no fragment with data has type 6, which the code takes for a fragment it could not read. |
| `LogFragments.TypeSixIsLost` | MobileDevicesTracker/Pods/leveldb-library/db/log_reader.h:82-90 | A file with one whole fragment of type 6: its byte is neither returned nor reported. |
| `LogFragments.ZerosAreSkipped` | MobileDevicesTracker/Pods/leveldb-library/db/log_reader.cc:243-249 | A block of zeros, as in a preallocated file, is passed over without a report. |
| `LogFragments.LengthIsChecked` | MobileDevicesTracker/Pods/leveldb-library/db/log_reader.cc:230-241 | A length that goes beyond the block is reported, but not in the last block, where it is a torn write. |
| `LogRoundTrip.ReadWholeRecord` | MobileDevicesTracker/Pods/leveldb-library/db/log_reader.cc:60-182 | A record whose fragments are all there is read back whole, with nothing reported, from any place in a block. |
| `LogRoundTrip.ReadCutRecord` | MobileDevicesTracker/Pods/leveldb-library/db/log_reader.cc:60-182 | A record cut off by the end of the file is not found, and nothing is reported. |
| `LogRoundTrip.LogReadsBack` | MobileDevicesTracker/Pods/leveldb-library/db/log_reader.cc:60-281 | Any first part of a log reads back as exactly the records that lie wholly in it, in order, and nothing is reported. |
| `LogRoundTrip.WriteCutAndRead` | MobileDevicesTracker/Pods/leveldb-library/db/log_writer.cc:28-109 | The same of the code that writes, perhaps in two sittings, and reads: all of the log gives all the records. |
| `LogRoundTrip.DamageIsReported` | MobileDevicesTracker/Pods/leveldb-library/db/log_reader.cc:253-267 | A fragment damaged within four bytes of its data is not returned: what is buffered is dropped, and reported as a checksum mismatch. |
| `LogDamage.DamagedLogReads` | MobileDevicesTracker/Pods/leveldb-library/db/log_reader.cc:60-281 | When any one fragment of any log is damaged within four bytes of its data, something is reported and only records that were written are read, in order: all but the one with the fragment and those after it that begin in the block where it ends. |
| `LogDamage.ReadDamaged` | MobileDevicesTracker/Pods/leveldb-library/db/log_reader.cc:161-167 | At a damaged fragment what was put together of its record is given up, and reading goes on with the next block. |
| `SkipList.SkipList.Find` | MobileDevicesTracker/Pods/leveldb-library/db/skiplist.h:261-323 | The walk that the three searches share ends between the last node before the target and the first at or after it, on every level. |
| `SkipList.SkipList.FindGreaterOrEqual` | MobileDevicesTracker/Pods/leveldb-library/db/skiplist.h:261-282 | It gives the first node at or after the key, and on each level the last node before it. |
| `SkipList.SkipList.FindLessThan` | MobileDevicesTracker/Pods/leveldb-library/db/skiplist.h:284-303 | It gives the last node before the key, or the head. |
| `SkipList.SkipList.FindLast` | MobileDevicesTracker/Pods/leveldb-library/db/skiplist.h:304-323 | It gives the last node, or the head. |
| `SkipList.SkipList.Contains` | MobileDevicesTracker/Pods/leveldb-library/db/skiplist.h:372-382 | A key is found exactly if it is in the bottom list. |
| `SkipList.SkipList.Insert` | MobileDevicesTracker/Pods/leveldb-library/db/skiplist.h:336-370 | Linking a new node level by level leaves a valid list with exactly that one key more. |
| `SkipListReaders.ReaderLoadsSetPointer` | MobileDevicesTracker/Pods/leveldb-library/db/skiplist.h:258-316 | A reader never loads a pointer of a level that the writer has not set. |
| `SkipListReaders.RunKeepsInv` | MobileDevicesTracker/Pods/leveldb-library/db/skiplist.h:261-370 | In every interleaving of the writer's single loads and stores with any number of readers, each level is a list in key order and every reader is where it should be. |
| `SkipListReaders.SearchFindsEarlierKeys` | MobileDevicesTracker/Pods/leveldb-library/db/skiplist.h:261-282 | A search interleaved with an insertion finds the first key at or after its target in the bottom list as of its last load, and so misses no key that was there at any earlier moment. |
| `SkipListReaders.InsertAddsOneKey` | MobileDevicesTracker/Pods/leveldb-library/db/skiplist.h:336-370 | Whatever readers do meanwhile, an insertion adds its key and nothing else. |
| `SkipListReaders.LevelsAreSublists` | MobileDevicesTracker/Pods/leveldb-library/db/skiplist.h:336-370 | At every moment each level is a strictly ascending sublist of the level below. |
| `Words.MaskIsRemainder` | MobileDevicesTracker/Pods/leveldb-library/util/cache.cc:116-123 | Masking a hash with the length less one takes the remainder, as the length is a power of two. |
| `HashTable.HandleTable.Lookup` | MobileDevicesTracker/Pods/leveldb-library/util/cache.cc:76-78 | The handle with the key is found exactly if it is in the table. |
| `HashTable.HandleTable.Insert` | MobileDevicesTracker/Pods/leveldb-library/util/cache.cc:80-94 | The handle is put in, in place of the one with its key if there is one, which is returned; the table grows when it is full. |
| `HashTable.HandleTable.Remove` | MobileDevicesTracker/Pods/leveldb-library/util/cache.cc:96-105 | The handle with the key, if there is one, is taken out and returned. |
| `HashTable.HandleTable.Resize` | MobileDevicesTracker/Pods/leveldb-library/util/cache.cc:125-148 | Every handle moves to the chain of its hash in a longer array, and none is lost. |
| `Rings.AppendToRing` | MobileDevicesTracker/Pods/leveldb-library/util/cache.cc:247-253 | Linking a handle in before the head puts it at the newest end of the ring. |
| `Rings.RemoveFromRing` | MobileDevicesTracker/Pods/leveldb-library/util/cache.cc:242-245 | Unlinking a handle leaves the ring of the others. |
| `LruCache.RunKeepsInv` | MobileDevicesTracker/Pods/leveldb-library/util/cache.cc:221-333 | In every run in which clients release only what they hold: references are counted, a cached handle is on exactly one list, the usage is the sum of the charges, cached keys are unique, and every handle is allocated or has been deleted. |
| `LruCache.EvictsOldestFirst` | MobileDevicesTracker/Pods/leveldb-library/util/cache.cc:293-300 | Eviction takes the oldest unused entries, calls their deleters, and stops as soon as the rest fits or none is left. |
| `LruOrder.OlderIsFirstIff` | MobileDevicesTracker/Pods/leveldb-library/util/cache.cc:229-253 | In every legal run: of two unused entries one is listed before the other exactly if it became unused before it, where unused is told by what is cached and by who holds a handle. |
| `LruOrder.UnusedWasReleased` | MobileDevicesTracker/Pods/leveldb-library/util/cache.cc:229-240 | In every legal run an unused entry has been so since an operation, and that was its release. |
| `LruOrder.OlderIsEvictedFirst` | MobileDevicesTracker/Pods/leveldb-library/util/cache.cc:293-300 | In every legal run, when an insertion or a pruning evicts an unused entry, the deleter of every entry that was released earlier has run before. |
| `LruOperations.InsertedIsCached` | MobileDevicesTracker/Pods/leveldb-library/util/cache.cc:269-291 | Before it evicts, an insertion has made a new handle with its key, hash and charge, held by the client and cached in place of any with the key, unless caching is off. |
| `LruOperations.LookupGivesHandle` | MobileDevicesTracker/Pods/leveldb-library/util/cache.cc:255-262 | The client holds the handle found once more; what is cached stays. |
| `LruOperations.ReleaseTakesHandle` | MobileDevicesTracker/Pods/leveldb-library/util/cache.cc:264-267 | The client holds the handle once less; what is cached stays. |
| `LruOperations.EraseTakesOut` | MobileDevicesTracker/Pods/leveldb-library/util/cache.cc:318-321 | Nothing with the key is cached afterwards, and nothing else changes for clients. |
| `LruOperations.PruneKeepsHeld` | MobileDevicesTracker/Pods/leveldb-library/util/cache.cc:323-333 | What stays cached is just what clients hold. |
| `LruCache.InsertionFits` | MobileDevicesTracker/Pods/leveldb-library/util/cache.cc:269-303 | After an insertion the charges fit the capacity, or nothing more can be evicted. |
| `LruCache.DeleterRunsOnce` | MobileDevicesTracker/Pods/leveldb-library/util/cache.cc:229-240 | A deleter has run exactly if nobody holds or caches the handle any more, and never twice. |
| `LruCache.FinishEraseKeepsBalance` | MobileDevicesTracker/Pods/leveldb-library/util/cache.cc:307-316 | Erasing keeps the accounts, and runs the deleter just if no client holds the handle. |
| `CacheShard.LRUCache.Insert` | MobileDevicesTracker/Pods/leveldb-library/util/cache.cc:269-303 | The code with rings, table and counters does what the specification of an insertion says, and ends with the usage within capacity or nothing to evict. |
| `CacheShard.LRUCache.Lookup` | MobileDevicesTracker/Pods/leveldb-library/util/cache.cc:255-262 | It gives the cached handle with the key, if there is one, with one reference more and off the list of unused entries. |
| `CacheShard.LRUCache.Release` | MobileDevicesTracker/Pods/leveldb-library/util/cache.cc:264-267 | It takes back one reference, and frees the handle or lists it as the newest unused one if that was the last but the cache's. |
| `CacheShard.LRUCache.Erase` | MobileDevicesTracker/Pods/leveldb-library/util/cache.cc:318-321 | It takes the entry out of table, list and accounts, and frees it unless it is held. |
| `CacheShard.LRUCache.Prune` | MobileDevicesTracker/Pods/leveldb-library/util/cache.cc:323-333 | It evicts every entry that only the cache refers to. |
| `WriteQueue.BuildBatchGroup` | MobileDevicesTracker/Pods/leveldb-library/db/db_impl.cc:1269-1314 | The group is the longest front of the queue that the size limit and the rule on syncing allow, its updates are those of its writers in order, and no sync write is carried by a writer that does not sync. |
| `WriteQueue.GroupIsBounded` | MobileDevicesTracker/Pods/leveldb-library/db/db_impl.cc:1276-1311 | A group that is more than its first batch has at most a megabyte, and at most 128 kilobytes more than a first batch of no more than that; the next writer would break this, or asks for a sync the first does not. |
| `WriteQueue.RunKeepsInv` | MobileDevicesTracker/Pods/leveldb-library/db/db_impl.cc:1194-1264 | In every interleaving of the writers: they are handled in queue order, groups are contiguous, log and memtable hold what the groups say and what the stage of the leader adds, and woken writers have the status of their group. |
| `WriteQueue.OkMeansWritten` | MobileDevicesTracker/Pods/leveldb-library/db/db_impl.cc:1194-1264 | A writer that is told its batch succeeded was in just one group, and finds all of its batch at its place in the record and the memtable entries of that group; no other record and no other memtable entry has its sequence numbers; and it is synced if it asked for that. |
| `WriteQueue.BatchesAreApart` | MobileDevicesTracker/Pods/leveldb-library/db/db_impl.cc:1213-1254 | Batches of different writers have different sequence numbers, in the order in which the writers came. |
| `WriteQueue.HistoryAscends` | MobileDevicesTracker/Pods/leveldb-library/db/db_impl.cc:1213-1254 | In every state of a run, no two records of the log share a sequence number, and the memtable has each once, ascending. |
| `WriteQueue.EndedIsVisible` | MobileDevicesTracker/Pods/leveldb-library/db/db_impl.cc:1229-1254 | A reader at LastSequence sees all of the groups that have ended and nothing of the one being written. |
| `WriteBatch.WriteBatch.Add` | MobileDevicesTracker/Pods/leveldb-library/db/write_batch.cc:98-109 | One record more is stored and counted, and the sequence number stays. |
| `WriteBatch.WriteBatch.Append` | MobileDevicesTracker/Pods/leveldb-library/db/write_batch.cc:141-145 | The records of one batch follow those of another, and the counts add up. |
| `WriteBatch.WriteBatch.Iterate` | MobileDevicesTracker/Pods/leveldb-library/db/write_batch.cc:42-80 | For any bytes: the updates handed over are those up to the end or to the first that cannot be read, and the status tells a short header, a bad record and a wrong count. |
| `WriteBatch.RecordsAreRead` | MobileDevicesTracker/Pods/leveldb-library/db/write_batch.cc:42-80 | Stored updates are read back in order whatever follows them, good or corrupt. |
| `WriteBatch.Build` | MobileDevicesTracker/Pods/leveldb-library/db/write_batch.cc:98-109 | After any sequence of Put and Delete the batch holds exactly these updates. |
| `WriteBatch.ReadBack` | MobileDevicesTracker/Pods/leveldb-library/db/write_batch.cc:42-80 | A batch that holds updates hands over just these, in order, and is not corrupt. |
| `WriteBatch.Merge` | MobileDevicesTracker/Pods/leveldb-library/db/db_impl.cc:1302-1310 | A group of batches appended to one another holds the updates of all of them in queue order. |
| `MemTable.MemTable.Add` | MobileDevicesTracker/Pods/leveldb-library/db/memtable.cc:82-106 | The encoded entry is linked into the skip list under the rank of its internal key, with the others as they were. |
| `MemTable.MemTable.Get` | MobileDevicesTracker/Pods/leveldb-library/db/memtable.cc:108-143 | The skip list's search for the encoded lookup key ends at the newest update of the user key at or below the snapshot, which is decoded to its value or to a deletion, or there is none. |
| `MemTable.EntryIsRead` | MobileDevicesTracker/Pods/leveldb-library/db/memtable.cc:82-106 | An encoded entry gives back its internal key and its value. |
| `MemTable.KeyLessIs` | MobileDevicesTracker/Pods/leveldb-library/db/memtable.cc:33-39 | Comparing encoded entries compares user keys upward and then sequence numbers and types downward. |
| `MemTable.RanksCompare` | MobileDevicesTracker/Pods/leveldb-library/db/memtable.cc:33-39 | The comparator orders the bytes of two entries as the skip list orders their ranks. |
| `MemTable.SoughtIsNewest` | MobileDevicesTracker/Pods/leveldb-library/db/memtable.cc:108-143 | The first entry at or after the key sought, if it has the user key, is the newest the snapshot sees; if it has not, there is none. |
| `MemTable.InsertInto` | MobileDevicesTracker/Pods/leveldb-library/db/write_batch.cc:112-134 | The updates of a batch that can be read are in the memtable with consecutive sequence numbers, even if a later one is corrupt; if the status is good these are all of them. |
| `MemTable.LastUpdateWins` | MobileDevicesTracker/Pods/leveldb-library/include/leveldb/write_batch.h:7-14 | Of several updates of a key in one batch the last is the one that is read. |
| `VersionEdit.EditRoundTrip` | MobileDevicesTracker/Pods/leveldb-library/db/version_edit.cc:41-210 | An encoded edit decodes to itself, every field of it. |
| `VersionEdit.DecodeFrom` | MobileDevicesTracker/Pods/leveldb-library/db/version_edit.cc:109-210 | The loop over tags gives the decoded edit or the error of any bytes; compaction pointers that were there before stay, as Clear does not clear them. |
| `VersionBuilder.Builder.Apply` | MobileDevicesTracker/Pods/leveldb-library/db/version_set.cc:665-708 | An edit's deletions and additions are taken in level by level, and its compaction pointers are stored. |
| `VersionBuilder.Builder.SaveTo` | MobileDevicesTracker/Pods/leveldb-library/db/version_set.cc:711-772 | Merging base and added files gives each level of the new version. |
| `VersionBuilder.SavedHas` | MobileDevicesTracker/Pods/leveldb-library/db/version_set.cc:711-772 | The new version has exactly the base and added files that are not deleted. |
| `VersionBuilder.SavedIsSorted` | MobileDevicesTracker/Pods/leveldb-library/db/version_set.cc:711-772 | Merging keeps the files of a level in order. |
| `ManifestReplay.ReplayEqualsSteps` | MobileDevicesTracker/Pods/leveldb-library/db/version_set.cc:905-1025 | One builder for all edits over the empty version saves the version built edit by edit. |
| `ManifestReplay.ReplayEqualsStepsIff` | MobileDevicesTracker/Pods/leveldb-library/db/version_set.cc:905-1025 | One edit more and this still holds exactly if the edit adds no file to a level that has it already. |
| `Manifest.VersionSet.LogAndApply` | MobileDevicesTracker/Pods/leveldb-library/db/version_set.cc:820-903 | The edit, with the log numbers it has or else the current ones, the next file number and the last sequence number, is in the manifest behind all before it, or behind a snapshot if the manifest is new; and the current version is the one before with this edit. |
| `Manifest.VersionSet.WriteSnapshot` | MobileDevicesTracker/Pods/leveldb-library/db/version_set.cc:1102-1130 | A new manifest begins with one record that has the whole version and the compaction pointers. |
| `Manifest.SnapshotSteps` | MobileDevicesTracker/Pods/leveldb-library/db/version_set.cc:1102-1130 | A snapshot record applied to the empty version gives the version back. |
| `Manifest.VersionSet.Recover` | MobileDevicesTracker/Pods/leveldb-library/db/version_set.cc:905-1025 | It succeeds exactly on a manifest whose records decode, name this comparator and give the three numbers, and then has version, pointers and numbers of these edits. |
| `Manifest.ChangeAndReopen` | MobileDevicesTracker/Pods/leveldb-library/db/version_set.cc:820-1025 | A change logged and the manifest recovered: version, pointers, log numbers and last sequence number are those that were logged, and the next file number is one above. |
| `Manifest.LastNumbersCount` | MobileDevicesTracker/Pods/leveldb-library/db/version_set.cc:951-980 | Each number recovered is that of the last record that has one. |
| `Manifest.RecoverableIff` | MobileDevicesTracker/Pods/leveldb-library/db/version_set.cc:905-1003 | A file can be recovered from exactly if it is read without a report, all records decode, none names another comparator, and a log number, a next file number and a last sequence number come up. |
| `Manifest.ManifestReadsBack` | MobileDevicesTracker/Pods/leveldb-library/db/version_set.cc:905-1025 | Recovering from any first part of a manifest gives the version after the edits wholly in it; from the whole manifest, the current version. |
| `Crc32c.Step1IsOneByte` | MobileDevicesTracker/Pods/leveldb-library/util/crc32c.cc:309-312 | One table lookup for a byte is eight steps of polynomial division. |
| `Crc32c.FourTables` | MobileDevicesTracker/Pods/leveldb-library/util/crc32c.cc:313-320 | The four table lookups for a word are thirty-two steps of polynomial division, as division is linear over exclusive or. |
| `Crc32c.Extend` | MobileDevicesTracker/Pods/leveldb-library/util/crc32c.cc:299-347 | For every buffer, alignment and initial value, going by bytes, words and four words at a time computes the bytewise CRC. |
| `Crc32c.ExtendedAppend` | MobileDevicesTracker/Pods/leveldb-library/util/crc32c.h:13-18 | Extending over A and then B is extending over A followed by B. |
| `Crc32c.BurstIsDetected` | MobileDevicesTracker/Pods/leveldb-library/util/crc32c.h:20-22 | Buffers that differ only within four consecutive bytes have different checksums. |
| `Crc32c.UnmaskInvertsMask` | MobileDevicesTracker/Pods/leveldb-library/util/crc32c.h:31-40 | Masking and unmasking undo each other, both ways round. |
| `CrcVectors.TableEntryOne` | MobileDevicesTracker/Pods/leveldb-library/util/crc32c.cc:19 | Entry 1 of the first table is 0xf26b8303. |
| `CrcVectors.ValueOfDigits` | MobileDevicesTracker/Pods/leveldb-library/util/crc32c.cc:299-347 | The checksum of the digits 1 to 9 is 0xe3069283, and its stored form 0xc78ab0e5. |
| `Coding.Varint64RoundTrip` | MobileDevicesTracker/Pods/leveldb-library/util/coding.cc:81-158 | A 64-bit number is read back from its varint, whatever follows. |
| `Coding.GetVarint64` | MobileDevicesTracker/Pods/leveldb-library/util/coding.cc:143-158 | The loop that shifts groups of seven bits computes the value of any bytes, or finds that they hold none. |
| `Coding.StringRoundTrip` | MobileDevicesTracker/Pods/leveldb-library/util/coding.cc:98-191 | A length-prefixed string is read back, whatever follows. |
| `Comparator.FindShortestSeparator` | MobileDevicesTracker/Pods/leveldb-library/util/comparator.cc:29-51 | The result is the first key, or lies after it and before the second and is as short as any key at or after the first and before the second; it is shortened exactly if the keys first differ in bytes with one between them. |
| `Comparator.FindShortSuccessor` | MobileDevicesTracker/Pods/leveldb-library/util/comparator.cc:53-66 | The result is at or after the key and no key is shorter that is, and it is the key itself exactly if that is all 0xff. |
| `Comparator.FindInternalSeparator` | MobileDevicesTracker/Pods/leveldb-library/db/dbformat.cc:68-85 | The result lies at or after the first internal key and before the second; it is the first exactly if no shorter user key is found between theirs, and else has that. |
| `Comparator.FindInternalSuccessor` | MobileDevicesTracker/Pods/leveldb-library/db/dbformat.cc:87-99 | The result is at or after the internal key; it is that key exactly if no shorter user key is found after it, and else has that. |
| `Comparator.RankIsOrder` | MobileDevicesTracker/Pods/leveldb-library/db/dbformat.cc:50-66 | The order of internal keys, user key upward and then tag downward, is that of certain real numbers. |
| `Comparator.RanksReproduceOrder` | MobileDevicesTracker/Pods/leveldb-library/util/comparator.cc:25-27 | Byte strings of any finite set are ordered as integers are, which may therefore stand for them. |
| `BlockFormat.EntryRoundTrip` | MobileDevicesTracker/Pods/leveldb-library/table/block.cc:53-73 | The bytes of an entry give back its three lengths and the rest of its key and value, by the fast and the slow path. |
| `BlockBuilder.BlockBuilder.Add` | MobileDevicesTracker/Pods/leveldb-library/table/block_builder.cc:73-107 | One entry more is encoded, with the prefix it shares or whole at a restart point. |
| `BlockIter.Iter.ParseNextKey` | MobileDevicesTracker/Pods/leveldb-library/table/block.cc:226-252 | From the bytes behind the current value it decodes the next entry, or finds the end. |
| `BlockIter.Iter.Seek` | MobileDevicesTracker/Pods/leveldb-library/table/block.cc:165-203 | It lands on the first key at or after the target, although it halves only between restart points. |
| `BlockIter.Iter.Prev` | MobileDevicesTracker/Pods/leveldb-library/table/block.cc:144-163 | It lands on the entry before, or off the block from its first entry. |
| `BlockIter.Iter.Next` | MobileDevicesTracker/Pods/leveldb-library/table/block.cc:139-142 | It moves one entry on. |
| `BlockIter.BuildAndRead` | MobileDevicesTracker/Pods/leveldb-library/table/block_builder.cc:63-107 | For any sorted entries and any restart interval, what is built into a block is read back, unless it does not fit 32-bit offsets. |
| `Bloom.CreateFilter` | MobileDevicesTracker/Pods/leveldb-library/util/bloom.cc:35-61 | The loops set exactly the bits of the filter of the keys, behind what was there. |
| `Bloom.ProbeFilter` | MobileDevicesTracker/Pods/leveldb-library/util/bloom.cc:63-88 | The probe loop of a reader tells whether all bits of a key are set. |
| `Bloom.MatchesExactly` | MobileDevicesTracker/Pods/leveldb-library/util/bloom.cc:35-88 | A key passes exactly if each of its probes is a probe of some key of the filter. |
| `Bloom.NoFalseNegative` | MobileDevicesTracker/Pods/leveldb-library/util/bloom.cc:35-88 | No key of the filter is denied. |
| `FilterBlock.FilterBlockBuilder.StartBlock` | MobileDevicesTracker/Pods/leveldb-library/table/filter_block.cc:22-28 | Slots of 2 KiB are closed up to that of the offset. |
| `FilterBlock.FilterBlockBuilder.Finish` | MobileDevicesTracker/Pods/leveldb-library/table/filter_block.cc:36-50 | The block has the filters of all slots, where each begins, where they end, and the size of a slot. |
| `FilterBlock.ImageAnswers` | MobileDevicesTracker/Pods/leveldb-library/table/filter_block.cc:95-109 | A reader answers with the filter of the slot of the offset, and lets all keys pass where there is none. |
| `FilterBlock.NoKeyIsDenied` | MobileDevicesTracker/Pods/leveldb-library/table/filter_block.cc:22-109 | For any run of the builder, no key added under a block is denied for that block, also when blocks share a slot. |
| `FilterBlock.EmptySlotAnswers` | MobileDevicesTracker/Pods/leveldb-library/table/filter_block.cc:52-76 | A slot without keys answers as the empty filter does. |
| `FilterPolicies.BloomIsHonest` | MobileDevicesTracker/Pods/leveldb-library/util/bloom.cc:35-88 | The Bloom policy denies no key it was given, and its empty filter denies all. |
| `FilterPolicies.InternalIsHonest` | MobileDevicesTracker/Pods/leveldb-library/db/dbformat.cc:105-119 | The policy that strips internal keys denies no user key it was given, whatever the tag. |
| `TableFormat.HandleRoundTrip` | MobileDevicesTracker/Pods/leveldb-library/table/format.cc:15-30 | A block handle is read back, whatever follows. |
| `TableFormat.FooterRoundTrip` | MobileDevicesTracker/Pods/leveldb-library/table/format.cc:32-64 | A footer is read back, padding and magic number included. |
| `TableFormat.StoredIsRead` | MobileDevicesTracker/Pods/leveldb-library/table/format.cc:66-142 | A stored block passes its length and checksum checks and is read back. |
| `TableFormat.InternalRankIsOrder` | MobileDevicesTracker/Pods/leveldb-library/db/dbformat.cc:50-66 | Encoded internal keys compare as the keys they encode. |
| `TableWriter.TableBuilder.Add` | MobileDevicesTracker/Pods/leveldb-library/table/table_builder.cc:92-121 | One entry more; the index entry of the block before is settled with a separator of the two blocks once the next key is known. |
| `TableWriter.TableBuilder.Flush` | MobileDevicesTracker/Pods/leveldb-library/table/table_builder.cc:123-137 | The data block is written where its handle says, and its index entry is left pending. |
| `TableWriter.TableBuilder.Finish` | MobileDevicesTracker/Pods/leveldb-library/table/table_builder.cc:199-254 | The file is a table of exactly the entries added: data blocks, filter, metaindex, index and footer where their handles say. |
| `TableWriter.BuildTable` | MobileDevicesTracker/Pods/leveldb-library/table/table_builder.cc:92-254 | For any sorted entries the file built is a table of these entries, unless it outgrows what the builder is modelled for. |
| `TableLayout.NextHasAnotherUser` | MobileDevicesTracker/Pods/leveldb-library/db/dbformat.cc:68-85 | A key that a shortened index key sends to the block before has another user key than the next entry. |
| `Tables.Open` | MobileDevicesTracker/Pods/leveldb-library/table/table.cc:38-141 | A file that the builder wrote opens, with its index and its filter. |
| `Tables.Table.BlockReader` | MobileDevicesTracker/Pods/leveldb-library/table/table.cc:164-218 | The handle in an index entry gives an iterator over just that block. |
| `Tables.OneIsFirst` | MobileDevicesTracker/Pods/leveldb-library/table/table.cc:226-255 | In any list of entries some place, and only one, is the first at or after a key. |
| `Tables.Table.SmallFileFits` | MobileDevicesTracker/Pods/leveldb-library/table/filter_block.cc:36-50 | The filters of a table file below 2^32 bytes have offsets of 32 bits. |
| `Tables.Table.InternalGet` | MobileDevicesTracker/Pods/leveldb-library/table/table.cc:226-255 | Through index, filter and block it gives the first entry at or after the key of the flat list if that has the user key, and never another entry of the user key. |
| `TwoLevelIterator.TwoLevel.Seek` | MobileDevicesTracker/Pods/leveldb-library/table/two_level_iterator.cc:91-96 | It lands on the first entry at or after the target of all entries of the table. |
| `TwoLevelIterator.TwoLevel.Next` | MobileDevicesTracker/Pods/leveldb-library/table/two_level_iterator.cc:112-116 | It moves one entry on in the flat list, over block ends and empty blocks. |
| `TwoLevelIterator.TwoLevel.Prev` | MobileDevicesTracker/Pods/leveldb-library/table/two_level_iterator.cc:118-122 | It moves one entry back in the flat list, over block ends and empty blocks. |
| `TwoLevelIterator.TwoLevel.SeekToFirst` | MobileDevicesTracker/Pods/leveldb-library/table/two_level_iterator.cc:98-103 | It lands on the first entry of the table. |
| `TwoLevelIterator.TwoLevel.SeekToLast` | MobileDevicesTracker/Pods/leveldb-library/table/two_level_iterator.cc:105-110 | It lands on the last entry of the table. |
| `TwoLevelIterator.ReadTable` | MobileDevicesTracker/Pods/leveldb-library/table/two_level_iterator.cc:98-136 | Going through a table from the first entry gives all the entries it was built of, in order. |
| `PbFieldIter.FieldIter.Next` | MobileDevicesTracker/Pods/nanopb/pb_common.c:20-76 | It goes on to the next field, or back to the first behind the last, and counts the required fields it has passed. |
| `PbFieldIter.FieldIter.Find` | MobileDevicesTracker/Pods/nanopb/pb_common.c:78-97 | Walking on from wherever it is, at most once around, it finds the field with the tag exactly if there is one; in an empty message it takes the terminator for a field with tag 0. |
| `PbEncoder.OStream.Write` | MobileDevicesTracker/Pods/nanopb/pb_encode.c:91-110 | A stream that counts always goes on; one that writes fails exactly if there is no room. |
| `PbEncoder.OStream.EncodeVarint` | MobileDevicesTracker/Pods/nanopb/pb_encode.c:494-514 | The loop over groups of seven bits writes the varint of the value. |
| `PbEncoder.EncodeArray` | MobileDevicesTracker/Pods/nanopb/pb_encode.c:116-201 | Arrays of numbers are written packed behind their size, others item by item; it fails exactly if the count or an item exceeds its bounds or there is no room. |
| `PbEncoder.EncodeField` | MobileDevicesTracker/Pods/nanopb/pb_encode.c:271-348 | A field is written exactly if it is present. |
| `PbEncoder.Encode` | MobileDevicesTracker/Pods/nanopb/pb_encode.c:451-473 | For every message of every type: it succeeds exactly if sizes and counts are within bounds and there is room, and then the bytes are those of the message, whether the stream counts them or writes them. |
| `PbEncoder.EncodeSubmessage` | MobileDevicesTracker/Pods/nanopb/pb_encode.c:600-648 | The pass that counts takes exactly as many bytes as the pass that writes, at every depth, so that it never fails because of a changed size. |
| `PbEncoder.GetEncodedSize` | MobileDevicesTracker/Pods/nanopb/pb_encode.c:480-489 | The size told is that of the bytes that encoding writes. |
| `PbDecoder.IStream.ReadVarint` | MobileDevicesTracker/Pods/nanopb/pb_decode.c:173-229 | The loop reads the varint of any bytes, cut to the width, or fails at the end of the bytes or of the width. |
| `PbDecoder.IStream.DecodeTag` | MobileDevicesTracker/Pods/nanopb/pb_decode.c:251-275 | It tells field and wire type, or that the message ends, by a zero or by too few bytes for a tag, or that it is broken. |
| `PbDecoder.IStream.SkipField` | MobileDevicesTracker/Pods/nanopb/pb_decode.c:277-287 | It passes over what the wire type says, or fails if there is not so much. |
| `PbDecoder.DecodeField` | MobileDevicesTracker/Pods/nanopb/pb_decode.c:356-429 | A field is decoded by its rule: packed or single array entries within the bound, a member of a oneof from defaults, other messages into what is there. |
| `PbDecoder.AllSeen` | MobileDevicesTracker/Pods/nanopb/pb_decode.c:919-950 | Comparing the words of bits tells exactly whether every required field has come up. |
| `PbDecoder.DecodeNoInit` | MobileDevicesTracker/Pods/nanopb/pb_decode.c:852-953 | The loop over tags, with the iterator that wraps around and the bits for required fields, computes what the specification says of any bytes. |
| `PbRecords.DecodedIsMeant` | MobileDevicesTracker/Pods/nanopb/pb_decode.c:852-953 | For any bytes and any message type: decoding succeeds exactly if the records end where a message may end, every required field comes up, and every record of a field can be decoded; and each field is then what the records with its tag, or of its oneof, leave in it. |
| `PbRecords.RequiredComesUp` | MobileDevicesTracker/Pods/nanopb/pb_decode.c:919-950 | For any bytes: a message is decoded only if the tag of every required field comes up. |
| `PbRecords.NothingIsDecoded` | MobileDevicesTracker/Pods/nanopb/pb_decode.c:919-950 | No bytes are a message exactly if no field is required. |
| `PbRecords.LastWins` | MobileDevicesTracker/Pods/nanopb/pb_decode.c:356-429 | For any bytes: of several items of a field that is no array and not merged, the last counts, as if it had come alone. |
| `PbRecords.RivalClears` | MobileDevicesTracker/Pods/nanopb/pb_decode.c:404-425 | For any bytes: a member of a oneof is gone once another member has come up. |
| `PbRecords.ItemsAreGathered` | MobileDevicesTracker/Pods/nanopb/pb_decode.c:367-402 | For any bytes: an array has all the items of its records, packed or not, in order. |
| `PbRecords.MessagesMerge` | MobileDevicesTracker/Pods/nanopb/pb_decode.c:1334-1356 | For any bytes: a message that comes up again is decoded on top of what is there, field by field. |
| `PbRecords.ScalarIff` | MobileDevicesTracker/Pods/nanopb/pb_decode.c:1165-1380 | For any bytes and each kind of field but messages: an item is decoded to a value, with certain bytes left, exactly if the bytes are an encoding of the value in front of these; signed numbers agree with the varint in the low bits, nothing is out of range or too long, and strings go up to their first NUL. |
| `PbRecords.ZigZagCounts` | MobileDevicesTracker/Pods/nanopb/pb_encode.c:516-525 | Numbers are counted up in the order 0, -1, 1, -2, 2 and so on. |
| `PbSound.DecodedIsSound` | MobileDevicesTracker/Pods/nanopb/pb_decode.c:852-953 | Whatever the bytes, a message that is decoded into defaults holds values of its types, within its bounds, with at most one member of each oneof, and with terminated strings. |
| `PbSound.DecodedReadsBack` | MobileDevicesTracker/Pods/nanopb/pb_decode.c:955-967 | So it can be encoded, and the bytes of that decode to the same message. |
| `PbRoundTrip.MessageRoundTrip` | MobileDevicesTracker/Pods/nanopb/pb_decode.c:852-967 | For every message of every type: the encoded bytes decode to the same present fields exactly if every string that is present has a NUL within its bounds, and else decoding fails. |
| `PbRoundTrip.FullBufferIsNotReadBack` | MobileDevicesTracker/Pods/nanopb/pb_decode.c:1299-1332 | A string of one character in a buffer of one: the encoder writes it, and the decoder refuses what was written. |
| `PbRoundTrip.ItemIsRead` | MobileDevicesTracker/Pods/nanopb/pb_decode.c:1165-1379 | An item of any type, at any depth, decodes to itself, or fails if it has an unterminated string. |
| `PbRoundTrip.SignedIsUndone` | MobileDevicesTracker/Pods/nanopb/pb_decode.c:1165-1200 | A signed number of any width comes back from its 64-bit form through the casts and the overflow check. |
| `PbRoundTrip.UnknownFieldIsSkipped` | MobileDevicesTracker/Pods/nanopb/pb_decode.c:877-906 | A reader of another message type passes over a field whose tag it does not know, whatever its type. |
| `Coding.VarintEnds` | MobileDevicesTracker/Pods/leveldb-library/util/coding.cc:112-160 | For any bytes: a varint ends with the first byte below 128, which has to be among the first five or ten, and is the sum of seven bits of each byte up to there. |
| `VersionEdit.UnknownTagIsCorrupt` | MobileDevicesTracker/Pods/leveldb-library/db/version_edit.cc:193-195 | A tag that no field has makes a record corrupt, wherever it comes up. |
| `VersionEdit.BadLevelIsCorrupt` | MobileDevicesTracker/Pods/leveldb-library/db/version_edit.cc:98-107 | So does a level above 6. |
| `VersionBuilder.PointersAre` | MobileDevicesTracker/Pods/leveldb-library/db/version_set.cc:665-671 | Of several changes of the compaction pointer of a level the last counts. |
| `ManifestReplay.StepHas` | MobileDevicesTracker/Pods/leveldb-library/db/version_set.cc:663-773 | After an edit a level has exactly its new files, and the files it had that are not deleted, in order. |
| `WriteBatch.CutBatchIsCorrupt` | MobileDevicesTracker/Pods/leveldb-library/db/write_batch.cc:42-80 | A batch cut off within an update hands over the updates before it, and is corrupt. |
| `WriteBatch.UnknownTagIsCorrupt` | MobileDevicesTracker/Pods/leveldb-library/db/write_batch.cc:71-73 | So is one in which something else than a Put or a Delete comes up. |
| `WriteBatch.WriteBatch.RepIs` | MobileDevicesTracker/Pods/leveldb-library/db/write_batch.cc:82-96 | A batch is eight bytes of sequence number, four of count, and the updates. |
| `Bloom.ProbesAre` | MobileDevicesTracker/Pods/leveldb-library/util/bloom.cc:54-60 | The probes of a key are its hash and steps of one size from there, modulo 2^32 and then the number of bits. |
| `Bloom.FilterSizes` | MobileDevicesTracker/Pods/leveldb-library/util/bloom.cc:26-46 | Ten bits a key make six probes, and there are from 1 to 30; filters have at least 64 bits, and not more than seven beyond what the keys need. |
| `FilterBlock.BrokenFilterPasses` | MobileDevicesTracker/Pods/leveldb-library/table/filter_block.cc:82-93 | A filter block that is too short, or says that its offsets begin behind its end, lets all keys pass. |
| `TableFormat.DamagedIsRefused` | MobileDevicesTracker/Pods/leveldb-library/table/format.cc:88-98 | A block whose contents or type are damaged within four bytes is not read when checksums are verified. |
| `TableFormat.MagicIsAtEnd` | MobileDevicesTracker/Pods/leveldb-library/table/format.cc:43-63 | A footer is read only if it ends with the magic number. |
| `FormatVectors.FixedBytes` | MobileDevicesTracker/Pods/leveldb-library/util/coding.cc:9-33 | Fixed numbers are stored with the low byte first. |
| `FormatVectors.VarintBytes` | MobileDevicesTracker/Pods/leveldb-library/util/coding.cc:47-91 | Varints of one, two and three bytes, given outright. |
| `FormatVectors.LogHeader` | MobileDevicesTracker/Pods/leveldb-library/db/log_writer.cc:83-109 | A header given outright: the stored checksum of type and data, the length, the type. |
| `FormatVectors.FragmentTypes` | MobileDevicesTracker/Pods/leveldb-library/db/log_writer.cc:62-75 | Full, first, middle and last fragments have the types 1, 2, 3 and 4. |
| `FormatVectors.EditBytes` | MobileDevicesTracker/Pods/leveldb-library/db/version_edit.cc:41-84 | An edit with every kind of field, given outright. |
| `FormatVectors.BatchBytes` | MobileDevicesTracker/Pods/leveldb-library/db/write_batch.cc:98-109 | The bytes of a Put and a Delete, given outright. |
| `FormatVectors.PutBytes` | MobileDevicesTracker/Pods/leveldb-library/db/memtable.cc:82-106 | A memtable entry given outright, its sequence number and type in eight bytes behind the key. |
| `FormatVectors.EntryBytes` | MobileDevicesTracker/Pods/leveldb-library/table/block_builder.cc:71-107 | A block entry that shares a byte with the key before, given outright. |
| `FormatVectors.TrailerBytes` | MobileDevicesTracker/Pods/leveldb-library/table/table_builder.cc:174-194 | The trailer of an empty block, given outright. |
| `FormatVectors.FooterBytes` | MobileDevicesTracker/Pods/leveldb-library/table/format.cc:32-41 | A footer has 48 bytes: two handles first, and the magic number last, given outright. |
| `FormatVectors.OneFilterBlock` | MobileDevicesTracker/Pods/leveldb-library/table/filter_block.cc:42-78 | A filter block with one filter of two bytes, given outright. |
| `PbVectors.NumberBytes` | MobileDevicesTracker/Pods/nanopb/pb_encode.c:494-525 | The field 1 with the number 150, and with -75 in zigzag form, given outright. |
| `PbVectors.MinusTwoBytes` | MobileDevicesTracker/Pods/nanopb/pb_encode.c:652-668 | A negative number takes ten bytes, given outright. |
| `PbVectors.TextBytes` | MobileDevicesTracker/Pods/nanopb/pb_encode.c:718-777 | Strings and byte arrays behind their length, given outright. |
| `PbVectors.MessageBytesOf150` | MobileDevicesTracker/Pods/nanopb/pb_encode.c:600-650 | A message in a message, given outright. |
| `PbVectors.PackedBytes` | MobileDevicesTracker/Pods/nanopb/pb_encode.c:116-173 | A packed array of three numbers, given outright. |
| `PbVectors.FieldsInOrder` | MobileDevicesTracker/Pods/nanopb/pb_encode.c:451-472 | Fields are written in the order of their descriptors, and absent ones not at all. |

## Left out

- Lsm.Get: user keys are integers here and in all modules about the store; `Comparator.RanksReproduceOrder` says why that is no loss. Tables are lists of entries here, and files of bytes in the modules about tables.
- RecoveryReads.NothingIsLost: files are whole values that appear and disappear in one step; what a torn log gives is in `LogRoundTrip`. `reuse_logs` is off, as it is by default.
- LogRoundTrip.DamageIsReported: damage is a burst within four bytes of a fragment's data; longer damage can go unnoticed with any 32-bit checksum.
- LogReader.Reader.ReadRecord: `initial_offset` is 0, as every reader of the store has it (db_impl.cc:403, version_set.cc:944, repair.cc:194), so that nothing is skipped and there is no resynchronising; `LastRecordOffset` is not modelled, nor are read errors of the file.
- SkipListReaders.RunKeepsInv: loads and stores are sequentially consistent; the memory barriers behind that are not modelled. The height of a new node is any from 1 to 12.
- LruCache.RunKeepsInv: one shard; the sixteen shards, the lock of each and the destructor are not modelled. Charges and usage are not bounded by a word.
- WriteQueue.RunKeepsInv: a batch is its list of updates and its size; module WriteBatch has the bytes. Steps are what happens between two points where the lock changes hands.
- WriteBatch.WriteBatch.Iterate: keys and values are shorter than 2^32 bytes, as their length prefix has it; longer ones are truncated by the code.
- MemTable.MemTable.Add: the skip list compares the ranks of keys, as real numbers, where the code calls the comparator; arena memory and concurrent readers of the memtable are not modelled here (`SkipListReaders` has the readers of a skip list).
- RecoveryLevels.ReopenedIsSound: that the version the manifest names was in order is assumed; `LongRuns` says when it is.
- GapRun.GapBreaksLevel: shows where binary search ends; a whole lookup in a level that is out of order is not modelled.
- Crc32c.Extend: the four tables are defined by division steps; of the 1024 literals of crc32c.cc:18-281 only entry 1 of the first table is compared. The SSE 4.2 path is not modelled.
- Comparator.RankIsOrder: real numbers are used only as an order.
- Tables.Table.InternalGet: the file is one that the table builder wrote, and its filters take less than 2^32 bytes, so that their 32-bit offsets do not wrap around; corrupt tables and blocks are not modelled beyond the checks of ReadBlock and the footer. The block cache and iterator clean-up are not modelled.
- TableWriter.BuildTable: no compression (snappy is not part of this model) and no write errors; files and index blocks stay below 2^63 and 2^31 bytes.
- Bloom.NoFalseNegative: the hash is any function from keys to 32-bit words (`hash.cc` is not part of this model). The number of bits per key and of probes is any the constructor can choose.
- VersionSet.GetOverlappingInputs: which compaction runs (scores, seeks, sampling, size limits, manual ranges) is left open; the size at which an output file is finished is a free choice.
- Manifest.VersionSet.LogAndApply: writing and syncing succeed; the CURRENT file and reuse of a manifest are in `Recovery` or not modelled.
- PbRoundTrip.MessageRoundTrip: static fields with explicit presence, distinct tags from 1 below 2^29, fewer than 2^32 bytes. Callbacks, extensions, pointer fields, proto3 presence, field defaults that are not zero, oneof callbacks and the layout of structs in memory are not modelled; sizes are not bounded by a word.
- PbDecoder.DecodeNoInit: messages whose number of required fields is a positive multiple of 32, or 64 and more, are excluded: the code shifts by the width of a word, or reads behind its array.
- The Swift app, Firebase, `env_posix.cc` and other system calls, `RepairDB`, `DestroyDB`, `dumpfile.cc`, `c.cc`, file names, statistics, histograms and test harnesses have no hard property.
- I/O errors are modelled only where the write queue and the log reader handle them.
