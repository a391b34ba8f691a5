# LevelDB and libuv cores

A Dafny model of the parts of the vendored LevelDB and libuv sources that carry the hard claims, and proofs
of these claims. `dafny verify dfyconfig.toml` checks the whole project.

LevelDB promises the behaviour of a simple multi-version map: a read at a snapshot returns the newest value
written for the user key up to that snapshot, or absence. `FlatMap.dfy` defines this map. Everything else is
what the store does instead, proved to come to the same:

- **Reads.** `Runs`, `Version`, `LevelSearch`: one seek in a sorted run, one file per sorted level, newest file first on
  level 0, level by level. `DBImpl.dfy` puts memtable, immutable memtable and version together.
- **Layout changes.** `InputSelection`, `SelectionLaws`, `InputIterator`, `OutputFiles`, `Compaction`, `Install`,
  `VersionBuilder`: which files a flush or a compaction takes, how the inputs are merged, what is dropped, where
  outputs are cut, and how the new version is built. `Database` is the state machine over all steps, and `DBImpl`
  carries them out with the code of the other modules. `Resurrection` says exactly when a compaction brings a deleted
  key back, and `ResurrectionExample` gives a run that does. `NestedFlush` lets memtables be flushed while a
  compaction is at work and says exactly when that does harm; `LostWriteExample` gives a run where it does.
- **Iteration.** `Cursor` is the iterator protocol, `Merger` and `TwoLevel` are the iterators built from
  iterators, `DBIter` shows a snapshot's map in both directions.
- **Memtable.** `SkipList`: insertion pointer by pointer with concurrent readers.
- **Write path.** `WriteBatch`, `GroupCommit` (the writer queue as a state machine over its steps),
  `WriteQueue` (forming and releasing a group).
- **Log and manifest.** `Coding`, `Crc32c`, `LogFormat`, `LogChecksum`, `LogWriter`, `LogReader`, `LogRecovery`,
  `VersionEdit`, `Manifest`, `VersionSet`. `LogRecords` says what the log reader makes of any bytes, `LogAppend` what
  it makes of a log that was cut off and then appended to, and `CutRecords` what becomes of batches and version edits
  that are cut off.
- **Tables.** `Block`, `BlockIter`, `Comparator`, `Bloom`, `FilterBlock`, `TableFormat`, `TableVersions`, `Table`,
  `TableBuilder`: from pairs to the bytes of a file and, by footer, metaindex and index, back.
- **Cache.** `HandleTable`, `Cache`.

From libuv: `Heap` (the pointer heap), `Timers` (timers on that heap) and `ThreadPool` with `PoolOrder` (workers,
submitters, cancellers and loops as a state machine over their critical sections).

User keys in the core are ranks: `InternalKeys.RanksEmbedAnyOrder` shows that numbering the keys of any finite
set turns every strict total order into `<`. The table modules work on byte strings with the bytewise comparator.
Code that changes state step by step is a class or a method with its loops; each such method is specified by a
function or predicate, about which the lemmas are proved. Concurrent protocols (group commit, skip list readers,
thread pool) are relations between states, one step per critical section or pointer write.

## Model

| member | source | states |
|---|---|---|
| `InternalKeys.CompareIsOrder` | ios/Pods/leveldb-library/db/dbformat.cc:51-67 | The three-way comparison of internal keys is the strict order by ascending user key, then descending sequence number and type, and gives 0 on equal keys only. |
| `Runs.RunGetFindsNewest` | ios/Pods/leveldb-library/db/version_set.cc:263-276 | In a sorted run, one seek to the lookup key decides a read: not found exactly if no entry of the user key is visible at the snapshot, otherwise the result is that of the newest visible entry. |
| `Versions.FindFile` | ios/Pods/leveldb-library/db/version_set.cc:88-106 | The binary search over a sorted level returns the first file whose largest key is not before the key. |
| `Versions.GetInSortedLevel` | ios/Pods/leveldb-library/db/version_set.cc:365-421 | On a level of sorted disjoint files, looking into one file finds the newest entry that the whole level has for the user key at the snapshot, or there is none. |
| `Versions.GetInLevelZero` | ios/Pods/leveldb-library/db/version_set.cc:347-364 | On level 0, searching the overlapping files from the newest on and stopping at the first hit finds the newest visible entry of the level. |
| `Versions.Get` | ios/Pods/leveldb-library/db/version_set.cc:326-421 | Under the level invariant, searching level by level and stopping at the first hit returns the newest visible entry of all entries in all files. |
| `InputSelection.SomeFileOverlapsRange` | ios/Pods/leveldb-library/db/version_set.cc:122-157 | True exactly if some file meets the user-key range, on a disjoint sorted level with one binary search. |
| `InputSelection.PickLevelForMemTableOutput` | ios/Pods/leveldb-library/db/version_set.cc:491-516 | The level is the deepest up to 2 that the table can be pushed to, a level at a time, while no file of either level meets its range and at most ten file sizes two levels down do. |
| `InputSelection.GetOverlappingInputs` | ios/Pods/leveldb-library/db/version_set.cc:519-559 | The result is the files meeting a range that covers the given one; on level 0 this is the least range closed under overlap, on deeper levels the given one. The restarting loop terminates. |
| `InputSelection.FindSmallestBoundaryFile` | ios/Pods/leveldb-library/db/version_set.cc:1344-1362 | Returns a file that starts behind the given key at the same user key, the first of all such files, or reports that there is none. |
| `InputSelection.AddBoundaryInputs` | ios/Pods/leveldb-library/db/version_set.cc:1378-1401 | Each added file is the first one right behind what was chosen so far, and at the end no file of the level starts right behind the largest chosen key. The search terminates. |
| `InputSelection.SetupOtherInputs` | ios/Pods/leveldb-library/db/version_set.cc:1403-1462 | The inputs are the completion of the start set by files of the next level in its range, or that of the wider range of both exactly if it has more files of the level, stays under the size limit and brings in no more files of the next level. They leave nothing older behind on the compacted level, and the grandparents are the files two levels below in the whole range. |
| `InputSelection.PickCompaction` | ios/Pods/leveldb-library/db/version_set.cc:1270-1322 | The inputs are what the picked file leads to, on level 0 with all files that overlap it; they have the properties of SetupOtherInputs, and leave no gap: every user key between two of them is in the range of one. |
| `InputSelection.CompactRange` | ios/Pods/leveldb-library/db/version_set.cc:1464-1495 | Nothing is picked exactly if no file of the level meets the range. Otherwise the inputs are what a prefix of the files in the range leads to: on level 0 of all files of the least closed range, deeper down the shortest prefix that reaches the maximum file size, or all. |
| `SelectionLaws.InputsUnique` | ios/Pods/leveldb-library/db/version_set.cc:1403-1462 | What a start set leads to is determined. |
| `SelectionLaws.RangeInputsUnique` | ios/Pods/leveldb-library/db/version_set.cc:1464-1495 | What a range leads to is determined. |
| `InputIterators.RunsOfInputs` | ios/Pods/leveldb-library/db/version_set.cc:1237-1268 | The children of the input iterator (one run per level-0 file, one concatenated run per other level) are sorted, share no key, and hold exactly the entries of the inputs. |
| `InputIterators.MergeInputs` | ios/Pods/leveldb-library/db/version_set.cc:1237-1268 | Draining the merging iterator over such runs yields all their entries, once each, in key order. |
| `Compactions.Compaction.IsBaseLevelForKey` | ios/Pods/leveldb-library/db/version_set.cc:1533-1552 | With the remembered level pointers, for user keys asked in order: true exactly if no file below the output level can hold the user key. |
| `Compactions.Compaction.ShouldStopBefore` | ios/Pods/leveldb-library/db/version_set.cc:1554-1576 | Asked for every entry in turn, true exactly if the entry is a stop in the sense of OutputFiles.StopsIff. |
| `OutputFiles.CutsAreUnique` | ios/Pods/leveldb-library/db/db_impl.cc:919-995 | Where output files are cut is determined: two lists of files that hold the same entries and obey the cut rules are cut at the same places with the same sizes. |
| `OutputFiles.StopsIff` | ios/Pods/leveldb-library/db/version_set.cc:1554-1576 | With no stop between two entries, of which the first is a stop or the first of all, the second is a stop if and only if the grandparent files that end between their keys have more than ten maximum file sizes together. |
| `OutputFiles.OutputSpansFew` | ios/Pods/leveldb-library/db/version_set.cc:1554-1576 | Between the first and the last entry of one output, at most ten maximum file sizes of grandparent files end. |
| `Compactions.ShadowedByPrevious` | ios/Pods/leveldb-library/db/db_impl.cc:937-948 | Rule (A) looks at the previous entry only: an entry is shadowed by any newer entry visible at the oldest snapshot exactly if the entry just before it is one. |
| `Compactions.DropDecision` | ios/Pods/leveldb-library/db/db_impl.cc:929-965 | An entry is dropped exactly if a newer entry of its user key is visible at the oldest snapshot, or it is a deletion marker visible there with nothing of its user key below. |
| `Compactions.DoCompactionWork` | ios/Pods/leveldb-library/db/db_impl.cc:878-1036 | The outputs are sorted disjoint files with consecutive numbers that hold exactly the entries not dropped, and are cut where the size limit or the grandparent limit says. |
| `FlatMap.DropLaw` | ios/Pods/leveldb-library/db/db_impl.cc:945-965 | Dropping preserves every read at or above the oldest snapshot exactly if no dropped deletion marker uncovers an older entry outside the merge. |
| `FlatMap.DropPreservesRead` | ios/Pods/leveldb-library/db/db_impl.cc:945-965 | For one user key and snapshot: if nothing is uncovered, the read after the merge is the read before it. |
| `Database.KeptIff` | ios/Pods/leveldb-library/db/db_impl.cc:889-963 | By the live snapshots, in every state with the invariant: an input entry is dropped if and only if the inputs have a newer one of its user key that every live snapshot and a read made now see, or it is a deletion marker that they all see with nothing of its user key below. |
| `Install.CompactionKeepsInvariant` | ios/Pods/leveldb-library/db/db_impl.cc:860-876 | Installing the outputs of a compaction in place of its inputs keeps the level invariant: sorted disjoint levels, level 0 by age, shallower is newer. |
| `Install.FlushKeepsInvariant` | ios/Pods/leveldb-library/db/db_impl.cc:491-533 | Installing a flushed table on a level whose path is clear keeps the level invariant. |
| `VersionBuilder.SaveLevel` | ios/Pods/leveldb-library/db/version_set.cc:695-754 | Merging the base files with the added ones gives, in builder order, exactly the files that survive: added, or in the base and not deleted. |
| `VersionBuilder.Builder.SaveTo` | ios/Pods/leveldb-library/db/version_set.cc:695-754 | The saved version has exactly the surviving files on every level, in builder order. |
| `VersionBuilder.ApplyEdit` | ios/Pods/leveldb-library/db/version_set.cc:650-754 | Applying one edit to a version deletes the files the edit deletes, adds those it adds, and nothing else. |
| `Database.NextInv` | ios/Pods/leveldb-library/db/db_impl.cc:688-767 | Every step of the database (write, memtable switch, flush, trivial move, compaction, snapshot) keeps the invariant: layers newest first, level invariant, distinct file numbers, unique sequence numbers. |
| `Database.RunInvariant` | ios/Pods/leveldb-library/db/db_impl.cc:688-767 | The invariant holds in every state of every run from the empty database. |
| `Database.NextReads` | ios/Pods/leveldb-library/db/db_impl.cc:878-1036 | A step other than a resurrecting compaction keeps every live snapshot's reads equal to reads of the full write history. |
| `Database.RunReads` | ios/Pods/leveldb-library/db/db_impl.cc:878-1036 | In every run without a resurrecting compaction, every live and future snapshot reads exactly what was written. |
| `Database.CompactionLaw` | ios/Pods/leveldb-library/db/db_impl.cc:878-1036 | A compaction keeps all reads correct if and only if it resurrects no user key. |
| `Resurrection.ResurrectsIff` | ios/Pods/leveldb-library/db/version_set.cc:1364-1462 | A compaction resurrects a user key exactly if the first file right behind the next level's inputs starts with a value of it, and what the oldest snapshot sees of it is a deletion marker that the compaction merges and drops. |
| `Resurrection.CompactionLawByFiles` | ios/Pods/leveldb-library/db/version_set.cc:1364-1462 | A compaction keeps all reads correct if and only if that condition on files and marker holds for no user key. |
| `Resurrection.ClosedInputsAreHarmless` | ios/Pods/leveldb-library/db/version_set.cc:1364-1401 | If no file of the next level starts right behind its inputs, which is what AddBoundaryInputs would ensure there, nothing is resurrected. |
| `Resurrection.ClosedRunReads` | ios/Pods/leveldb-library/db/version_set.cc:1364-1401 | In every run whose compactions are all closed in that sense, every live snapshot reads exactly what was written. |
| `ResurrectionExample.DeletedKeyReturns` | ios/Pods/leveldb-library/db/version_set.cc:1403-1462 | A run of 14 legal steps, outputs cut by the size limit, after which a deleted key reads as present again. |
| `NestedFlush.InstallIff` | ios/Pods/leveldb-library/db/db_impl.cc:860-876 | Installing outputs in a version that has grown since the inputs were picked keeps the level invariant if and only if no file that stays on the output level reaches into an output. |
| `NestedFlush.NestedInv` | ios/Pods/leveldb-library/db/db_impl.cc:907-918 | With any writes, switches, flushes and snapshots between pick and install, the invariant is kept if and only if no table flushed to the output level in the meantime reaches into an output. |
| `NestedFlush.NestedLookups` | ios/Pods/leveldb-library/db/db_impl.cc:907-918 | After the install the search of the output level misses some entry that is stored there, although it is the newest of its key at its own sequence number, if and only if such a table reaches into an output. |
| `LevelSearch.FindsAllIff` | ios/Pods/leveldb-library/db/version_set.cc:88-106 | Whatever the order of the files of a level is, the binary search and the seek in the file it ends at lead to every entry stored on the level if and only if the files are sorted and disjoint; then a lookup of each at its own number answers with it. |
| `NestedFlush.NestedReads` | ios/Pods/leveldb-library/db/db_impl.cc:878-1036 | Deciding what to drop by the version and the oldest snapshot of the moment of the pick loses nothing that was written or became visible since: if nothing was resurrected then, what is stored reads as what was written after the install too. |
| `NestedFlush.GaplessInv` | ios/Pods/leveldb-library/db/version_set.cc:1270-1322 | Inputs without a gap, as PickCompaction picks them, are safe: whatever is flushed while the compaction is at work, the invariant is kept. |
| `LostWriteExample.PickIsReached` | ios/Pods/leveldb-library/db/db_impl.cc:697-717 | The state in which the manual compaction of the example is picked is reached from the empty database by legal steps, and everything reads right there. |
| `LostWriteExample.WriteIsLost` | ios/Pods/leveldb-library/db/db_impl.cc:907-918 | From that state by legal turns, with the inputs, the output and the flush level that the code picks: a key is written and flushed while the compaction is at work, and after the install a lookup searches every level and does not find it. |
| `DBImplementation.DBImpl.Get` | ios/Pods/leveldb-library/db/db_impl.cc:1100-1145 | Reading memtable, immutable memtable and version in turn returns the newest visible entry of everything stored, which for a live snapshot is what was written. |
| `DBImplementation.DBImpl.ApplyBatch` | ios/Pods/leveldb-library/db/db_impl.cc:1204-1236 | A batch becomes one write step with consecutive sequence numbers; invariant and reads are kept. |
| `DBImplementation.DBImpl.SwitchMemTable` | ios/Pods/leveldb-library/db/db_impl.cc:1310-1370 | The memtable becomes the immutable one and an empty one takes its place; invariant and reads are kept. |
| `DBImplementation.DBImpl.CompactMemTable` | ios/Pods/leveldb-library/db/db_impl.cc:491-566 | The flush is a flush step with the entries of the immutable memtable, on the level that PickLevelForMemTableOutput says, or drops an empty one; invariant and reads are kept. |
| `DBImplementation.DBImpl.MoveFile` | ios/Pods/leveldb-library/db/db_impl.cc:718-734 | A trivial move is a move step: one file changes level, nothing is rewritten. |
| `DBImplementation.DBImpl.MergeFiles` | ios/Pods/leveldb-library/db/db_impl.cc:860-1036 | Merging picked inputs is a compaction step, with outputs cut as the code cuts them. |
| `DBImplementation.DBImpl.BackgroundCompaction` | ios/Pods/leveldb-library/db/db_impl.cc:688-767 | Compacting a picked file moves it exactly if it is the only input and few grandparent bytes are below it, and else merges the inputs it leads to; the invariant is kept, and reads stay correct exactly if the step is harmless. |
| `DBImplementation.DBImpl.ManualCompaction` | ios/Pods/leveldb-library/db/db_impl.cc:697-717 | The manual branch merges what the range leads to even where a move would do; the invariant is kept, and reads stay correct exactly if the step is harmless. Nothing changes if no file meets the range. |
| `DBImplementation.DBImpl.TakeSnapshot` | ios/Pods/leveldb-library/db/db_impl.cc:1166-1169 | A snapshot is taken at the last sequence number; invariant and reads are kept. |
| `DBImplementation.DBImpl.DropSnapshot` | ios/Pods/leveldb-library/db/db_impl.cc:1171-1174 | Releasing any live snapshot keeps invariant and reads. |
| `DBIterator.DBIter.Next` | ios/Pods/leveldb-library/db/db_iter.cc:141-166 | From either direction, the iterator moves to the next entry that is the newest visible one of its user key and not deleted; nothing live is skipped, and it becomes invalid only if there is none. |
| `DBIterator.DBIter.FindNextUserEntry` | ios/Pods/leveldb-library/db/db_iter.cc:168-198 | From the given position on, stops at the first live entry whose user key is not to be skipped. |
| `DBIterator.DBIter.Prev` | ios/Pods/leveldb-library/db/db_iter.cc:200-225 | From either direction, the iterator moves to the live entry just before; nothing live is skipped. |
| `DBIterator.DBIter.FindPrevUserEntry` | ios/Pods/leveldb-library/db/db_iter.cc:227-267 | Going back, stops with the last live entry at or under the current position, saved key and value included. |
| `DBIterator.DBIter.Seek` | ios/Pods/leveldb-library/db/db_iter.cc:269-281 | Stops at the first live entry at or after the target. |
| `DBIterator.DBIter.SeekToFirst` | ios/Pods/leveldb-library/db/db_iter.cc:283-292 | Stops at the first live entry. |
| `DBIterator.DBIter.SeekToLast` | ios/Pods/leveldb-library/db/db_iter.cc:294-299 | Stops at the last live entry. |
| `DBIterator.DBIter.ShowsMap` | ios/Pods/leveldb-library/db/db_iter.cc:64-71 | The key and value shown are a user key and what reading it at the iterator's snapshot returns. |
| `DBIterator.LiveNeighbours` | ios/Pods/leveldb-library/db/db_iter.cc:141-267 | Between two neighbouring live entries there is no user key that reads as present, so stepping enumerates the map of the snapshot. |
| `MergingIterators.MergingIterator.SeekToFirst` | ios/Pods/leveldb-library/table/merger.cc:31-37 | Lands on the first entry of the sorted union of the children. |
| `MergingIterators.MergingIterator.SeekToLast` | ios/Pods/leveldb-library/table/merger.cc:39-45 | Lands on the last entry of the union. |
| `MergingIterators.MergingIterator.Seek` | ios/Pods/leveldb-library/table/merger.cc:47-53 | Lands on the first entry of the union at or after the target. |
| `MergingIterators.MergingIterator.Next` | ios/Pods/leveldb-library/table/merger.cc:55-79 | Moves one position forward in the union, also right after moving backward. |
| `MergingIterators.MergingIterator.Prev` | ios/Pods/leveldb-library/table/merger.cc:81-108 | Moves one position back in the union, also right after moving forward. |
| `MergingIterators.MergingIterator.FindSmallest` | ios/Pods/leveldb-library/table/merger.cc:148-161 | The current child is one that stands on the smallest key, or none if all children are exhausted. |
| `MergingIterators.MergingIterator.FindLargest` | ios/Pods/leveldb-library/table/merger.cc:163-176 | The current child is one that stands on the largest key, or none if all children are exhausted. |
| `TwoLevelIterators.TwoLevelIterator.Seek` | ios/Pods/leveldb-library/table/two_level_iterator.cc:82-87 | Lands on the first entry at or after the target in the concatenation of all blocks. |
| `TwoLevelIterators.TwoLevelIterator.SeekToFirst` | ios/Pods/leveldb-library/table/two_level_iterator.cc:89-94 | Lands on the first entry of the concatenation, passing empty blocks. |
| `TwoLevelIterators.TwoLevelIterator.SeekToLast` | ios/Pods/leveldb-library/table/two_level_iterator.cc:96-101 | Lands on the last entry of the concatenation, passing empty blocks. |
| `TwoLevelIterators.TwoLevelIterator.Next` | ios/Pods/leveldb-library/table/two_level_iterator.cc:103-107 | Moves one position forward in the concatenation. |
| `TwoLevelIterators.TwoLevelIterator.Prev` | ios/Pods/leveldb-library/table/two_level_iterator.cc:109-113 | Moves one position back in the concatenation. |
| `TwoLevelIterators.TwoLevelIterator.SkipEmptyDataBlocksForward` | ios/Pods/leveldb-library/table/two_level_iterator.cc:115-126 | From behind the end of a block, comes to the next entry there is. |
| `TwoLevelIterators.TwoLevelIterator.SkipEmptyDataBlocksBackward` | ios/Pods/leveldb-library/table/two_level_iterator.cc:128-139 | From before the start of a block, comes to the entry before it. |
| `TwoLevelIterators.TwoLevelIterator.InitDataBlock` | ios/Pods/leveldb-library/table/two_level_iterator.cc:146-161 | The data iterator is on the block the index stands on, kept if it already is, and there is none if the index is not valid. |
| `SkipLists.SkipList.Find` | ios/Pods/leveldb-library/db/skiplist.h:262-281 | The search returns the first key of the bottom list that the bound does not pass, and for every level the last node before it. |
| `SkipLists.SkipList.Insert` | ios/Pods/leveldb-library/db/skiplist.h:337-368 | The key is linked in, at its place, on exactly the levels below its height; the other levels are unchanged. |
| `SkipLists.RunInv` | ios/Pods/leveldb-library/db/skiplist.h:337-368 | With one writer and any number of readers interleaved pointer by pointer, the invariant of the structure holds in every state of every run. |
| `SkipLists.LevelsInEveryRun` | ios/Pods/leveldb-library/db/skiplist.h:337-368 | In every state every level is a sorted list ending in null, and is contained in the level below. |
| `SkipLists.ReaderOnList` | ios/Pods/leveldb-library/db/skiplist.h:262-281 | A reader in the middle of a search always stands on a node that is linked on its current level. |
| `SkipLists.SearchesSkipNothing` | ios/Pods/leveldb-library/db/skiplist.h:262-281 | A finished search returned a key of the list and skipped no key that was there when it began, whatever was inserted meanwhile. |
| `Crc32c.Extend` | ios/Pods/leveldb-library/util/crc32c.cc:276-377 | Byte steps, word steps and four interleaved strides with table lookups, at any alignment, compute the CRC-32C of the definition: the remainder by the polynomial, bit by bit. |
| `Crc32c.Continues` | ios/Pods/leveldb-library/util/crc32c.cc:276-377 | Extending a checksum by a second string gives the checksum of the concatenation. |
| `Crc32c.OneWord` | ios/Pods/leveldb-library/util/crc32c.cc:349-357 | One stride step: if four words combine to the state so far, replacing the first by its advance over the next data word combines to the state four bytes on. |
| `Crc32c.Step16` | ios/Pods/leveldb-library/util/crc32c.cc:293-313 | Four stride steps keep the four words combined to the state, sixteen bytes on. |
| `Crc32c.UnmaskUndoesMask` | ios/Pods/leveldb-library/util/crc32c.h:29-38 | Unmasking a masked checksum gives it back. |
| `Crc32c.MaskUndoesUnmask` | ios/Pods/leveldb-library/util/crc32c.h:29-38 | And so does masking an unmasked one, so that every stored word stands for one checksum. |
| `Coding.EncodeVarint32` | ios/Pods/leveldb-library/util/coding.cc:47-73 | The encoder writes seven bits a byte, least significant first, with the continuation bit on all but the last. |
| `Coding.FixedIs` | ios/Pods/leveldb-library/util/coding.cc:9-33 | Byte i of a fixed-width number is digit i to the base 256: little-endian. |
| `Coding.VarintIs` | ios/Pods/leveldb-library/util/coding.cc:47-96 | Byte i of a varint is digit i to the base 128, with the high bit on exactly if a byte follows. |
| `Coding.GetVarint` | ios/Pods/leveldb-library/util/coding.cc:112-128 | The decoder reads at most five (ten) bytes and cuts the number to the width of the result; anything longer or unfinished is malformed. |
| `Coding.GetRoundTrip` | ios/Pods/leveldb-library/util/coding.cc:142-157 | Decoding an encoded number that fits gives it back and leaves whatever follows. |
| `Coding.Get32RoundTrip` | ios/Pods/leveldb-library/util/coding.cc:112-128 | The same for 32-bit varints of at most five bytes. |
| `Coding.PrefixedRoundTrip` | ios/Pods/leveldb-library/util/coding.cc:98-101 | A length-prefixed string is read back, with what follows left over. |
| `VersionEdits.VersionEdit.EncodeTo` | ios/Pods/leveldb-library/db/version_edit.cc:41-85 | The record has the fields that are set, the compaction pointers, deleted files and new files, each with its tag. |
| `VersionEdits.VersionEdit.DecodeFrom` | ios/Pods/leveldb-library/db/version_edit.cc:107-205 | Decoding succeeds exactly on well-formed records and then yields the edit they describe on top of the cleared target. |
| `VersionEdits.DecodeUndoesEncode` | ios/Pods/leveldb-library/db/version_edit.cc:41-205 | Decoding an encoded edit gives that edit, after the compaction pointers the target already had. |
| `VersionEdits.RoundTripLaw` | ios/Pods/leveldb-library/db/version_edit.cc:26-39 | Decoding into a target gives the encoded edit back if and only if the target had no compaction pointers. |
| `CutRecords.EditCut` | ios/Pods/leveldb-library/db/version_edit.cc:107-205 | A version edit that is cut off anywhere decodes if and only if the cut is between two fields, and then to the fields before it. |
| `Manifest.ReplayIff` | ios/Pods/leveldb-library/db/version_set.cc:650-754 | One builder fed with all edits of a manifest ends with the version reached by applying them one at a time if and only if every file ever added under the number of a file of that version is in that version itself (of several with the same smallest key and number, only the first counts). |
| `Manifest.ReplayIsFold` | ios/Pods/leveldb-library/db/version_set.cc:650-754 | In particular it does if numbers identify files. |
| `Manifest.ReusedNumber` | ios/Pods/leveldb-library/db/version_set.cc:650-754 | Add a file, delete it, and give its number to another: one builder brings the deleted file back. |
| `Manifest.ReusedNumberFold` | ios/Pods/leveldb-library/db/version_set.cc:650-754 | Applied one at a time, the same three edits leave only the new file. |
| `VersionSets.VersionSet.WriteSnapshot` | ios/Pods/leveldb-library/db/version_set.cc:1088-1116 | The record written is the encoding of the comparator name, the pointers that are set, and all files of the current version. |
| `VersionSets.VersionSet.LogAndApply` | ios/Pods/leveldb-library/db/version_set.cc:801-884 | The new version is the old one with the edit applied and the compaction pointers of the edit are set. Log and previous log number are those of the edit if it has them, and else stay; the record written is the caller's edit, with these and the next file and last sequence number filled in and every other field as it was. The manifest, started with a snapshot if there was none, replays to version, pointers and these four numbers. |
| `VersionSets.VersionSet.Recover` | ios/Pods/leveldb-library/db/version_set.cc:886-1011 | Recovery succeeds exactly if all records decode, name the comparator and have the three mandatory counters; version, pointers and counters are then those the records replay to. |
| `VersionSets.ReplayedIff` | ios/Pods/leveldb-library/db/version_set.cc:929-947 | The records of a manifest can be replayed if and only if each decodes and names no other comparator, and then each as what it decodes to. |
| `VersionSets.SummaryIsLast` | ios/Pods/leveldb-library/db/version_set.cc:949-968 | Each of the four counters is the one recorded last, and missing exactly if no record has it. |
| `VersionSets.RecoveredIsCurrent` | ios/Pods/leveldb-library/db/version_set.cc:886-1011 | After any sequence of LogAndApply, what replaying the manifest gives is the current version with its compaction pointers and its log numbers. |
| `VersionSets.LastRecorded` | ios/Pods/leveldb-library/db/version_set.cc:650-657 | Of several pointers of a level the last one recorded holds. |
| `LogWriter.Writer.AddRecord` | ios/Pods/leveldb-library/db/log_writer.cc:34-80 | Appends the record in fragments that never cross a block boundary, with zero padding where no header fits. |
| `LogWriter.Writer.EmitPhysicalRecord` | ios/Pods/leveldb-library/db/log_writer.cc:82-108 | Appends one fragment: masked checksum, length, type, payload. |
| `LogFormat.FragmentPlace` | ios/Pods/leveldb-library/db/log_writer.cc:34-80 | A fragment is behind fewer than seven bytes of padding that end a block, within one block, and fills it unless it ends the record. |
| `LogChecksum.ValueOfFragment` | ios/Pods/leveldb-library/db/log_writer.cc:92-96 | Extending the precomputed checksum of the type by the payload is the checksum of both. |
| `LogReader.Reader.ReadRecord` | ios/Pods/leveldb-library/db/log_reader.cc:56-174 | Returns the next record put together from fragments, and reports dropped bytes, as the scan of the disk defines it; what that comes to on any disk is stated by LogRecords.RecordOf. |
| `LogReader.Reader.ReadPhysicalRecord` | ios/Pods/leveldb-library/db/log_reader.cc:189-271 | Returns the next fragment, end of file or a damaged record as the scan of the file defines it; what that comes to for any bytes is stated by LogRecords.FragmentLaw. |
| `LogRecords.FragmentLaw` | ios/Pods/leveldb-library/db/log_reader.cc:189-271 | For every file and position: the type and payload of the next fragment come back if and only if its header and payload are within block and file, its stored checksum is theirs, and it is not a header of zeros; otherwise the end of the file if that ends within header or fragment, else a bad record, with the rest of the block dropped and, but for a header of zeros, reported. |
| `LogRecords.RecordOf` | ios/Pods/leveldb-library/db/log_reader.cc:56-174 | On every disk, whatever it holds: a record is the payload of one FULL fragment or of consecutive FIRST, MIDDLE* and LAST fragments, the first such in the fragments read; and the bytes reported are all damage and all payload before it, so none of it is lost silently except at the end of the file. |
| `LogReader.CrashRoundTrip` | ios/Pods/leveldb-library/db/log_reader.cc:56-271 | Whatever records were written and wherever the file is cut, the reader returns exactly the records that are complete in it and reports no corruption. |
| `LogReader.AllComplete` | ios/Pods/leveldb-library/db/log_writer.cc:34-80 | In the uncut file all records are complete. |
| `LogAppend.AppendedLaw` | ios/Pods/leveldb-library/db/db_impl.cc:457-476 | A log cut anywhere and appended to: cut between fragments, it reads as the complete old records and all new ones, with exactly the torn bytes reported; cut within a fragment that does not pass for a whole one with the bytes behind it, it reads as these records if and only if the block had no room for a header left. |
| `LogAppend.AppendedIsLost` | ios/Pods/leveldb-library/db/db_impl.cc:457-476 | For every checksum function: a record torn behind its header and one appended behind it, of which the next recovery reads and reports nothing. |
| `LogRecovery.RecoverLogFile` | ios/Pods/leveldb-library/db/db_impl.cc:371-489 | Recovery inserts the operations of the batches it reads in order and raises the last sequence number to theirs, as the replay of the disk defines it. |
| `LogRecovery.TolerantReplay` | ios/Pods/leveldb-library/db/db_impl.cc:371-452 | Without paranoid checks, for any log: recovery succeeds, every record that is long enough contributes the operations that parse, in order, and the last sequence number is the maximum of the one before and those of the records. |
| `LogRecovery.ParanoidReplay` | ios/Pods/leveldb-library/db/db_impl.cc:371-452 | With paranoid checks, for any log: recovery succeeds if and only if nothing is reported and every record is a batch that parses with the right count, and then all of them are inserted. |
| `LogRecovery.CrashRecovery` | ios/Pods/leveldb-library/db/db_impl.cc:371-489 | After a crash at any byte, recovery yields exactly the entries of the group commits whose records are complete, with no error. |
| `LogRecovery.BatchWholeOrAbsent` | ios/Pods/leveldb-library/db/db_impl.cc:371-489 | After recovery from any prefix of the records, a committed batch is there with all its entries or with none. |
| `LogRecovery.SyncedIsReplayed` | ios/Pods/leveldb-library/db/db_impl.cc:1209-1222 | After any cut that keeps the durable records, all entries of a committed sync write are recovered. |
| `WriteBatches.WriteBatch.Put` | ios/Pods/leveldb-library/db/write_batch.cc:98-103 | The batch has the put after its earlier operations, and the count goes up by one. |
| `WriteBatches.WriteBatch.Delete` | ios/Pods/leveldb-library/db/write_batch.cc:105-109 | The batch has the deletion after its earlier operations, and the count goes up by one. |
| `WriteBatches.WriteBatch.Append` | ios/Pods/leveldb-library/db/write_batch.cc:144-148 | The batch has the operations of both, in order. |
| `WriteBatches.Iterate` | ios/Pods/leveldb-library/db/write_batch.cc:42-80 | The operations the bytes hold are handed over in order with consecutive numbers, up to the first malformed one. |
| `WriteBatches.WriteBatch.InsertInto` | ios/Pods/leveldb-library/db/write_batch.cc:132-137 | The operations of the batch are inserted with consecutive numbers from its sequence number on, with the status of the parse. |
| `WriteBatches.IterateUndoes` | ios/Pods/leveldb-library/db/write_batch.cc:42-80 | Iterating the representation built from operations delivers these, the right count and no error. |
| `CutRecords.OpsCut` | ios/Pods/leveldb-library/db/write_batch.cc:42-80 | Of encoded operations that are cut off anywhere, exactly those before the cut are delivered, and the end is found only if the cut is between two. |
| `CutRecords.CutIsCorrupt` | ios/Pods/leveldb-library/db/write_batch.cc:42-80 | A batch that lost any part of its operations is corrupt. |
| `CutRecords.CountDecides` | ios/Pods/leveldb-library/db/write_batch.cc:42-80 | A batch is corrupt if the count in its header is not that of its operations. |
| `CutRecords.UnknownKind` | ios/Pods/leveldb-library/db/write_batch.cc:42-80 | An operation of an unknown kind ends what is delivered, and is an error. |
| `GroupCommit.NextInv` | ios/Pods/leveldb-library/db/db_impl.cc:1185-1256 | Every step of the writer queue (arrive, lead, log, insert, publish, switch, snapshot) keeps the invariant. |
| `GroupCommit.RunInv` | ios/Pods/leveldb-library/db/db_impl.cc:1185-1256 | The invariant holds in every state of every run. |
| `GroupCommit.RunGuarantees` | ios/Pods/leveldb-library/db/db_impl.cc:1185-1256 | Writers are served in arrival order and woken; sequence numbers are consecutive over all writes, whatever the grouping; the memtable is exactly what was served in order; committed writes are in the log, sync ones in its durable part. |
| `GroupCommit.FailedSyncIsLast` | ios/Pods/leveldb-library/db/db_impl.cc:1209-1233 | After a sync that failed, in every run, nothing more is logged, inserted or numbered, and every call served later is refused. |
| `GroupCommit.SnapshotAtomic` | ios/Pods/leveldb-library/db/db_impl.cc:1166-1169 | A snapshot taken at any moment sees whole writes only: all of those served before it and nothing of later ones. |
| `GroupCommit.SnapshotStable` | ios/Pods/leveldb-library/db/db_impl.cc:1166-1169 | What a snapshot sees never changes: everything inserted later has a larger sequence number. |
| `GroupCommit.TakenIff` | ios/Pods/leveldb-library/db/db_impl.cc:1279-1304 | A waiting writer is taken into a group exactly if it and all before it may join the leader and with none of them the group is too big. |
| `GroupCommit.GroupBounds` | ios/Pods/leveldb-library/db/db_impl.cc:1268-1300 | A group led by a batch of at most 128 KiB has at most 128 KiB more, a bigger one at most 1 MiB or its leader alone; a writer that might join is left behind only if it exceeds the limit. |
| `GroupCommit.NullBatchJoins` | ios/Pods/leveldb-library/db/db_impl.cc:1279-1304 | A waiting null batch is taken into a group exactly if it does not ask for sync behind a leader that does not, and all before it may join and fit. |
| `GroupCommit.RunServes` | ios/Pods/leveldb-library/db/db_impl.cc:1185-1256 | In every state of every run a null call had a switch of its own, was taken into a group, or was refused exactly if it was served with that outcome. |
| `GroupCommit.OwnSwitch` | ios/Pods/leveldb-library/db/db_impl.cc:1201-1205 | A served null call had its own switch of log file and memtable if and only if it was neither refused nor taken along, and it was taken along if and only if some leader formed its group while the call was behind it and free to join. After its own switch every update written before it is out of the memtable and every record before it out of the log file in use. |
| `GroupCommit.NoSwitch` | ios/Pods/leveldb-library/db/db_impl.cc:1279-1304 | From any empty state: a put and a null call arrive, and six steps later the null call is committed, the put is in the memtable in use, and neither the memtable nor the log file was switched. |
| `GroupCommit.TakenStays` | ios/Pods/leveldb-library/db/db_impl.cc:1218-1256 | When the calls of a group return after a write, all updates of the group are in the memtable in use. |
| `WriteQueues.BuildBatchGroup` | ios/Pods/leveldb-library/db/db_impl.cc:1260-1306 | The group is the longest that the size and sync rules allow, and the batch returned holds the operations of all its members in order, without touching the leader's own batch. |
| `WriteQueues.NumberGroup` | ios/Pods/leveldb-library/db/db_impl.cc:1203-1207 | The batch of the group, which becomes its log record, encodes the operations of all members in order under the numbers after the last one, which grows by their count. |
| `WriteQueues.GroupIsUnique` | ios/Pods/leveldb-library/db/db_impl.cc:1260-1306 | The rules determine the group. |
| `WriteQueues.WriterQueue.Release` | ios/Pods/leveldb-library/db/db_impl.cc:1238-1256 | Exactly the members of the group leave the queue; the followers are marked done with the leader's status, nobody else. |
| `Blocks.BlockBuilder.Add` | ios/Pods/leveldb-library/table/block_builder.cc:72-106 | The entry is appended with the longest common prefix shared, or nothing at a restart point, one after every interval. |
| `Blocks.BlockBuilder.Finish` | ios/Pods/leveldb-library/table/block_builder.cc:62-70 | The contents are the entries, the offsets of all restart points, and their number. |
| `BlockIterators.BlockIter.ParseNextKey` | ios/Pods/leveldb-library/table/block.cc:224-251 | Parsing at an entry restores its full key and its value and the restart index, or finds the end. |
| `BlockIterators.BlockIter.Next` | ios/Pods/leveldb-library/table/block.cc:137-140 | Comes to the next entry. |
| `BlockIterators.BlockIter.Prev` | ios/Pods/leveldb-library/table/block.cc:142-161 | Going back to a restart point and forward comes to the entry before, or past the end from the first one. |
| `BlockIterators.BlockIter.Seek` | ios/Pods/leveldb-library/table/block.cc:163-201 | Binary search over restart points and a linear scan come to the first entry at or after the target. |
| `BlockIterators.BlockIter.SeekToFirst` | ios/Pods/leveldb-library/table/block.cc:203-206 | Comes to the first entry. |
| `BlockIterators.BlockIter.SeekToLast` | ios/Pods/leveldb-library/table/block.cc:208-213 | Comes to the last entry. |
| `Comparators.LessIsOrder` | ios/Pods/leveldb-library/db/dbformat.cc:51-67 | The comparison of internal keys as byte strings is a strict total order. |
| `Comparators.ByteOrder` | ios/Pods/leveldb-library/include/leveldb/slice.h:101-111 | User keys compare as byte strings: the first differing byte decides, and a proper prefix is below. |
| `Comparators.NewerFirst` | ios/Pods/leveldb-library/db/dbformat.cc:51-67 | Of two versions of one user key the one with the larger sequence number comes first, and for equal numbers the one with the larger type. |
| `Comparators.UsersFirst` | ios/Pods/leveldb-library/db/dbformat.cc:51-67 | Versions of different user keys are in the order of the user keys, whatever their sequence numbers are. |
| `Comparators.LessIsBefore` | ios/Pods/leveldb-library/db/dbformat.cc:51-67 | With user keys numbered in byte order, the comparison of the byte strings is the order of internal keys that the rest of the model works with. |
| `Comparators.SeparatorBetween` | ios/Pods/leveldb-library/util/comparator.cc:29-50 | The shortened key is no longer than the start, not below it, and strictly below the limit if it was shortened. |
| `Comparators.SeparatorIs` | ios/Pods/leveldb-library/util/comparator.cc:29-50 | Where the keys differ first, the start is cut behind that byte incremented, exactly if that is below the byte of the limit. |
| `Comparators.SeparatorIsShortest` | ios/Pods/leveldb-library/util/comparator.cc:29-50 | No key from the start on and below the limit is shorter than a shortened one. |
| `Comparators.SuccessorAbove` | ios/Pods/leveldb-library/util/comparator.cc:52-64 | The short successor is no longer than the key and not below it. |
| `Comparators.SuccessorIs` | ios/Pods/leveldb-library/util/comparator.cc:52-64 | The first byte that is not 255 is incremented and the rest cut off. |
| `Comparators.SuccessorIsShortest` | ios/Pods/leveldb-library/util/comparator.cc:52-64 | No key at or above a key is shorter than its short successor. |
| `Comparators.SeparatorApart` | ios/Pods/leveldb-library/db/dbformat.cc:69-86 | The internal separator is not below the start and below the limit, and differs in user key from both if it was shortened. |
| `Bloom.CreateFilter` | ios/Pods/leveldb-library/util/bloom.cc:28-54 | The filter is appended, of the right size, with exactly the bits of the keys' probes set and the number of probes last. |
| `Bloom.KeyMayMatch` | ios/Pods/leveldb-library/util/bloom.cc:56-80 | True exactly if all probe bits are set, or the filter is reserved for other encodings. |
| `Bloom.KeyMatches` | ios/Pods/leveldb-library/util/bloom.cc:56-80 | A key that was added always matches. |
| `Bloom.RejectedIff` | ios/Pods/leveldb-library/util/bloom.cc:56-80 | A key is rejected exactly if one of its probes is hit by no probe of any added key. |
| `Bloom.ProbeIs` | ios/Pods/leveldb-library/util/bloom.cc:44-52 | The probes of a key are equally spaced in 32 bits, the distance being the hash rotated by 17 bits. |
| `FilterBlocks.FilterBlockBuilder.Finish` | ios/Pods/leveldb-library/table/filter_block.cc:35-49 | The contents are the filters, their offsets, the offset of these, and the base; every key stays in the filter it was added to. |
| `FilterBlocks.FilterBlockReader.KeyMayMatch` | ios/Pods/leveldb-library/table/filter_block.cc:90-104 | The answer for a block offset is that of its filter, and yes beyond the last one. |
| `FilterBlocks.NeverRejects` | ios/Pods/leveldb-library/table/filter_block.cc:90-104 | A key added while its block was written is never rejected for that block. |
| `TableFormat.HandleRoundTrip` | ios/Pods/leveldb-library/table/format.cc:15-29 | Decoding an encoded block handle gives it back. |
| `TableFormat.FooterRoundTrip` | ios/Pods/leveldb-library/table/format.cc:31-62 | Decoding an encoded footer, padded and with its magic number, gives both handles back. |
| `TableFormat.ReadBlock` | ios/Pods/leveldb-library/table/format.cc:64-139 | For every file, handle and contents: it returns the contents if and only if they are what is there, uncompressed and, with verification, followed by the trailer that was written behind them. |
| `TableFormat.ReadIndex` | ios/Pods/leveldb-library/table/table.cc:38-68 | For every file: the first part of Open succeeds if and only if the file has a footer with the magic number and two handles and the index block can be read, verified under paranoid checks. |
| `TableFormat.OneBlockIsEnough` | ios/Pods/leveldb-library/table/table.cc:216-244 | With separating index keys, looking into the one block the index names delivers what scanning all blocks delivers for the user key. |
| `Tables.Table.InternalGet` | ios/Pods/leveldb-library/table/table.cc:216-244 | Index, filter and one block: for the key that a read of a user key at a sequence number seeks, the pair delivered is that of the greatest sequence number up to it among all pairs of the user key in the table, or none of the user key if there is none. For any target, the entry that a linear scan finds, or nothing only where that has another user key. |
| `TableVersions.DeliversNewest` | ios/Pods/leveldb-library/table/table.cc:216-244 | Whatever a lookup delivers in agreement with a linear scan of the blocks is, for such a key, the newest version that the read may see, said of all pairs added without the order of keys. |
| `TableBuilders.TableBuilder.Add` | ios/Pods/leveldb-library/table/table_builder.cc:94-123 | The pair follows all earlier ones; the index key pending for the last block separates it from this key. The block is written exactly if it has reached the block size. |
| `TableBuilders.TableBuilder.Flush` | ios/Pods/leveldb-library/table/table_builder.cc:125-139 | The current block, if it has pairs, is written with exactly these and becomes empty; the pairs added so far are unchanged. |
| `TableBuilders.TableBuilder.Finish` | ios/Pods/leveldb-library/table/table_builder.cc:198-253 | The file holds all pairs in blocks, an index that separates them, the filter block, and a footer from which a reader comes to index, metaindex and filter. |
| `TableBuilders.Open` | ios/Pods/leveldb-library/table/table.cc:38-134 | Opening the bytes of a finished table reads footer, index and metaindex and gives a table of all pairs added and no others, whose lookups scan them; the filter is used exactly if it was built under the name of the reader's policy. |
| `HandleTables.MaskIsRemainder` | ios/Pods/leveldb-library/util/cache.cc:110-116 | For a power of two of chains, which every operation keeps, masking the hash with one less is its remainder, so that every chain can be reached. |
| `HandleTables.HandleTable.Lookup` | ios/Pods/leveldb-library/util/cache.cc:74-76 | Returns the handle with this key and hash, or none if no member has them. |
| `HandleTables.HandleTable.Insert` | ios/Pods/leveldb-library/util/cache.cc:78-92 | The handle becomes a member; one with its key and hash, if there was one, is returned and leaves. |
| `HandleTables.HandleTable.Remove` | ios/Pods/leveldb-library/util/cache.cc:94-102 | The handle with this key and hash, if there is one, leaves and is returned. |
| `HandleTables.HandleTable.Resize` | ios/Pods/leveldb-library/util/cache.cc:122-146 | Doubling the buckets keeps all members findable and the load at most one. |
| `LRUCaches.LRUCache.CacheLaw` | ios/Pods/leveldb-library/util/cache.cc:217-250 | An entry is on the LRU list exactly if cached and held by no client, on the in-use list exactly if cached and held, and freed exactly if neither; usage is the charge of both lists. |
| `LRUCaches.WithoutIs` | ios/Pods/leveldb-library/util/cache.cc:239-242 | An entry that leaves a list leaves the others in their order. |
| `LRUCaches.LRUCache.Ref` | ios/Pods/leveldb-library/util/cache.cc:217-223 | One more client; a first one moves the entry to the in-use list. |
| `LRUCaches.LRUCache.Unref` | ios/Pods/leveldb-library/util/cache.cc:225-237 | The last reference frees the entry; the last client moves it to the end of the LRU list. |
| `LRUCaches.LRUCache.Lookup` | ios/Pods/leveldb-library/util/cache.cc:252-259 | Returns the entry with one more client, or nothing if it is not cached. |
| `LRUCaches.LRUCache.Release` | ios/Pods/leveldb-library/util/cache.cc:261-264 | One client less; the entry is freed or becomes evictable exactly if it was the last. |
| `LRUCaches.LRUCache.Insert` | ios/Pods/leveldb-library/util/cache.cc:266-303 | The new entry is among the known ones and held by the caller; it replaces one of its key; then the least recently used are evicted, no more than needed, until usage fits or nothing is evictable. No other entry changes its number of clients. |
| `LRUCaches.LRUCache.FinishErase` | ios/Pods/leveldb-library/util/cache.cc:307-316 | An entry taken out of the table leaves its list and the usage, and is freed if no client holds it. |
| `LRUCaches.LRUCache.Erase` | ios/Pods/leveldb-library/util/cache.cc:318-321 | The entry with the key, if there is one, leaves the cache and nothing else does. |
| `LRUCaches.LRUCache.Prune` | ios/Pods/leveldb-library/util/cache.cc:323-333 | All entries that no client holds are freed in LRU order; held ones stay. |
| `PointerHeap.Heap.Swap` | ios/Pods/Libuv-gRPC/src/heap-inl.h:72-104 | Relinking the pointers of two nodes swaps a parent and its child, on whichever side, in the tree. |
| `PointerHeap.Heap.Insert` | ios/Pods/Libuv-gRPC/src/heap-inl.h:106-148 | The node is linked in at the next free place and bubbled up: a complete heap with one more element. |
| `PointerHeap.Heap.Remove` | ios/Pods/Libuv-gRPC/src/heap-inl.h:150-237 | Any node is removed: the last one takes its place and moves down or up; the rest is a complete heap with all other elements. |
| `PointerHeap.Heap.Min` | ios/Pods/Libuv-gRPC/src/heap-inl.h:67-69 | The root has the least key of all. |
| `Timers.Loop.Start` | ios/Pods/Libuv-gRPC/src/timer.c:66-94 | The timer, stopped first if it was running, is due at the clamped sum of now and its timeout, behind all earlier starts of the same due time. |
| `Timers.Loop.Stop` | ios/Pods/Libuv-gRPC/src/timer.c:97-107 | The timer leaves the heap and the others stay. |
| `Timers.Loop.Again` | ios/Pods/Libuv-gRPC/src/timer.c:110-120 | A repeating timer is restarted with its repeat value; one without a callback is refused. |
| `Timers.Loop.RunTimers` | ios/Pods/Libuv-gRPC/src/timer.c:154-171 | Timers fire in order of due time and start number, repeating ones are rearmed, and afterwards nothing is due. |
| `ThreadPool.NextInv` | ios/Pods/Libuv-gRPC/src/threadpool.c:57-160 | Every step of workers, submitters, cancellers and loops keeps the invariant of the queues. |
| `ThreadPool.RunInv` | ios/Pods/Libuv-gRPC/src/threadpool.c:57-160 | The invariant holds in every state of every run. |
| `ThreadPool.RunGuarantees` | ios/Pods/Libuv-gRPC/src/threadpool.c:57-315 | A request is in at most one place; its callbacks made and due are one plus the number of cancellations that succeeded after a callback; the status tells whether it ran; slow work stays within half the threads, rounded up; waiting slow work is always announced. |
| `ThreadPool.NoLostWakeup` | ios/Pods/Libuv-gRPC/src/threadpool.c:69-76 | If there is work a worker could take and some worker waits, some worker is awake to look. |
| `ThreadPool.WorkersGoOn` | ios/Pods/Libuv-gRPC/src/threadpool.c:57-139 | A worker that finds work can take it, be it a request, the slow-work message or the exit message; one that executes can finish, and one that returns can go on. |
| `PoolOrder.FirstComeFirstServed` | ios/Pods/Libuv-gRPC/src/threadpool.c:57-160 | In every run, among fast requests and among slow ones: as long as one waits, none that was submitted after it has been started. |
| `ThreadPool.CancelGuard` | ios/Pods/Libuv-gRPC/src/threadpool.c:269-276 | Before its callback, a request passes the guard of cancel exactly if it is on a queue and has not run. |
| `ThreadPool.StaleGuard` | ios/Pods/Libuv-gRPC/src/threadpool.c:269-276 | After its callback a request is on no queue, but passes the guard exactly if the callback was for a cancellation. |
| `ThreadPool.OneCallback` | ios/Pods/Libuv-gRPC/src/threadpool.c:269-315 | A request gets exactly one callback if and only if no cancel of it succeeds after its callback. |
| `ThreadPool.CancelledTwice` | ios/Pods/Libuv-gRPC/src/threadpool.c:269-315 | From any initial state with a loop: submit, cancel, deliver, cancel again, deliver; the callback is made twice. |

## Findings

Where the code does not do what it is for, the model keeps the code, gives an input, and proves exactly when it
does.

- **A compaction can bring a deleted key back** (`db/version_set.cc:1403-1462`). `SetupOtherInputs` calls
  `AddBoundaryInputs` for the compacted level only, so the next level's inputs can stop in the middle of a user key.
  `ResurrectionExample.DeletedKeyReturns` is a run of 14 steps from an empty database, with real block and value
  sizes, that ends with a deleted key reading as present. `Resurrection.ResurrectsIff` and
  `Resurrection.CompactionLawByFiles`: a compaction does this to a user key if and only if the first file right
  behind the next level's inputs starts with a value of that key, and what the oldest snapshot sees of the key is
  a deletion marker that is merged while no deeper file can hold the key. Every other compaction keeps every
  read (`Database.CompactionLaw`).
- **A flush during a manual compaction can lose a write** (`db/db_impl.cc:907-918`). `DoCompactionWork` flushes the
  immutable memtable between two entries, and `PickLevelForMemTableOutput` looks at the current version, which has
  the inputs but not the outputs. What `CompactRange` picks can have gaps in its key range, and an output made of it
  spans them. `LostWriteExample.WriteIsLost`: tables of key 1 and of key 9 on both levels 1 and 2 are
  compacted, key 5 is written and flushed to level 2 in the meantime, the output for keys 1 to 9 is installed beside it, and
  the binary search of a lookup of key 5 ends at the output. (Builds with assertions stop in
  `VersionSet::Builder::SaveTo` instead.) `NestedFlush.NestedInv`: with any turns in between, a compaction keeps the
  invariant if and only if no table flushed to the output level since it was picked reaches into one of its outputs,
  and by `NestedFlush.NestedLookups` that is exactly when lookups on the output level miss no entry stored there.
  `InputSelection.PickCompaction` leaves no gaps, and `NestedFlush.GaplessInv` shows that such inputs are always safe.
- **A write to a reused log can be lost** (`db/db_impl.cc:457-476`). With `reuse_logs` a writer goes on behind what a
  crash left of the log, be it the beginning of a fragment, which recovery takes for the end of the file and does not
  report. `LogAppend.AppendedIsLost`: a record of 100 bytes is torn behind its header and a record is written behind
  it, and the next recovery finds nothing and reports nothing, whatever checksum is in use.
  `LogAppend.AppendedLaw`, for every log, cut and new records: if the cut is between fragments, the next recovery
  reads the complete old and all new records and reports exactly the bytes of the torn one; if it is within a fragment
  that does not pass for a whole one with the bytes that follow it, the next recovery reads these records if and only
  if the block of the cut had no room for a header left.
- **A request can get two callbacks** (`threadpool.c:275`, `queue.h:101`). `QUEUE_REMOVE` leaves the node's own
  pointers as they are, so after the callback of a cancelled request the guard of `uv__work_cancel` still holds.
  `ThreadPool.CancelledTwice` is such a run: cancelled again from its own callback, a request is delivered again.
  `ThreadPool.StaleGuard`: after its callback a request passes the guard if and only if that callback was for a
  cancellation. `ThreadPool.OneCallback`: a request gets exactly one callback if and only if no cancel of it succeeds
  after its callback.
- **Decoding a version edit keeps old compaction pointers** (`db/version_edit.cc:26-39`). `Clear` does not empty
  them. `VersionEdits.RoundTripLaw`: decoding an encoded edit into a target gives it back if and only if the target
  had no compaction pointers. `VersionSet.Recover` uses a fresh edit for every record, so it is not affected.
- **One builder does not replay reused file numbers** (`db/version_set.cc:650-754`). `Manifest.ReusedNumber`: after
  adding a file, deleting it and adding another of the same number, one builder has both files;
  `Manifest.ReusedNumberFold`: applied one at a time, the same edits leave the new file only.
  `Manifest.ReplayIff`: for every run of edits the two agree if and only if every file ever added under the number
  of a file of the version that the edits lead to is in that version itself (of several with the same smallest key
  and number, the builder keeps the first). `Manifest.ReplayIsFold`: so they do if numbers identify files.
- **A null batch need not force a memtable switch** (`db/db_impl.cc:1279-1304`). `Write(nullptr)` asks for one, and
  its caller then waits for the flush, but behind another writer it is taken into that writer's group and returns with
  it. `GroupCommit.NoSwitch`: a put, a null call behind it, and six steps later the null call is served while the put
  is still in the memtable in use. `GroupCommit.OwnSwitch`: in every run a served null call had its own switch if and
  only if it was not refused and no leader formed its group while the call was behind it and free to join; by
  `GroupCommit.NullBatchJoins` that is when it does not ask for sync behind a leader that does not, and every writer
  before it may join and fits.

## Left out

- DBImplementation.DBImpl.SwitchMemTable: does not model the choice of `MakeRoomForWrite` between slowing down, waiting and switching, because it depends on timing.
- DBImplementation.DBImpl.CompactMemTable: a flush while a compaction is at work is not interleaved with the methods of this class; `NestedFlush` has it at the level of the state machine.
- DBImplementation.DBImpl.BackgroundCompaction: the choice of the level and file by size score or by seeks is an argument.
- DBImplementation.DBImpl.Get: the memtables are sorted runs here; that the skip list finds in them what a run has is `SkipLists.SkipList.Find`, and the byte layout of memtable entries is not part of this model.
- DBIterator.DBIter.Next: runs over one cursor on a sorted run; that the merging and two-level iterators stand for such a cursor is proved in their modules, but they have no common interface here. Read sampling is left out.
- InputIterators.MergeInputs: reads the whole input before `DoCompactionWork` starts instead of one entry a turn; the children are cursors on runs instead of table and two-level iterators.
- Compactions.DoCompactionWork: table sizes are given by functions of the entries (`OutputFiles.TableSizes`), for every choice of block size and compression.
- VersionSets.VersionSet.LogAndApply: only with successful I/O; `SetupOtherInputs` moving a compaction pointer before its edit is logged (`db/version_set.cc:1455-1461`) is not modelled, so pointers change only by logged edits.
- VersionSets.VersionSet.Recover: the choice to reuse the old manifest is left out.
- Versions.Get: seek statistics, which only steer later compactions, are left out.
- GroupCommit.OwnSwitch: waiting in `MakeRoomForWrite` for the immutable memtable to be flushed or for level 0 to shrink is not modelled; the switch happens when it comes to it.
- GroupCommit.RunGuarantees: memtable and immutable memtable are one sequence there; `Database` has them apart.
- SkipLists.SearchesSkipNothing: steps are sequentially consistent; the memory order of C++ atomics is not modelled. Heights are arguments.
- Crc32c.Extend: the accelerated path, which calls code outside the repository, is left out.
- LogReader.Reader.ReadRecord: reading from an initial offset in the middle of a file, with resynchronisation, is left out; I/O errors too.
- LogAppend.AppendedLaw: a torn fragment whose stored length and checksum happen to fit the bytes that follow is not decided, because that depends on the data; the file system is taken to keep a beginning of what was written.
- LogRecords.RecordOf: payload stored under type 6, which the reader's own mark for bad records shares, is not counted.
- LogRecovery.RecoverLogFile: flushing the recovered memtable when it grows too large is left out; reusing the last log file is `LogAppend`.
- WriteBatches.Iterate: the handler is the one that inserts into the memtable.
- Bloom.CreateFilter: the hash function is a parameter, for every choice of it.
- TableFormat.ReadBlock: compressed blocks are refused.
- TableBuilders.TableBuilder.Finish: the footer leads to the blocks if the file is shorter than 2^64 bytes, which is what 64-bit handles can say; keys, values and blocks stay below 2^32 bytes, as their length fields demand.
- TableBuilders.Open: the table it gives is specified for files that a builder finished, with filter blocks shorter than 2^32 bytes; for other files `TableFormat.ReadIndex` says when opening fails.
- Tables.Table.InternalGet: errors of reading a damaged block are not passed on here; `TableFormat.ReadBlock` has them.
- BlockIterators.BlockIter.ParseNextKey: malformed blocks are not modelled.
- LRUCaches.LRUCache.Insert: the linked lists and hash chains are sequences; sharding, deleters and the mutex are left out.
- PointerHeap.Heap.Insert: a node inserted again is a fresh object with its key fixed, where the code reuses the embedded node.
- Timers.Loop.RunTimers: callbacks do not start or stop timers, and the loop time is below the maximum.
- ThreadPool.CancelledTwice: within its own callback the stale unlinking changes no queue, and that is the only case modelled; the writes of a later one through stale pointers are not.
- ThreadPool.RunGuarantees: starting and joining the threads is left out; work submitted behind `exit_message` stays where it is.
- The store's opening and repair, deletion of obsolete files, file I/O and its errors, logging and statistics.
- The Flutter application and the other vendored libraries.
