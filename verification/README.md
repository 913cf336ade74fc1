# Verified models of LevelDB and libuv

The app's iOS build vendors LevelDB and libuv under `ios/Pods`. This project models the parts
of them that are easy to get wrong and proves what they promise. `Wrappers` holds the one
option type they share.

- **The store.** Keys, files and levels (`InternalKeys`, `TableFiles`, `LsmLevels`), the choice
  of compaction inputs (`CompactionInputs`), the compaction loop (`CompactionWork`), version
  edits (`VersionEdits`), the flush (`MemtableFlush`), and a state machine over all of it
  (`Store`) whose reads are those of the full history (`StoreReads`). Every call of the methods
  in `BackgroundCompactions` and `MemtableFlush` is one of its steps; the converse is not claimed.
- **Compactions in the background.** `InterleavedCompactions` splits a compaction into choosing
  its inputs and installing its result, with writes and flushes in between, as the code does
  when it releases the mutex. The levels stay in order exactly as long as no flush lands among
  the output files of the compaction under way (if and only if). `LostFlush` is a reachable run
  in which one does, and a Get misses the flushed key.
- **A second defect, with its exact condition.** Compaction inputs are closed at their boundary
  only on the upper level. `Resurrection` gives a reachable run, made of steps that the input
  choice really takes, in which a deleted key comes back; `CompactionReads` proves when a
  compaction keeps all reads (if and only if), and that closing the lower inputs too is enough.
- **Iterators.** `MergingIterators` and `DBIterator` are cursors on sorted sequences under any
  mix of calls; `StoreIterators` puts them on top of the store.
- **The log.** `LogFormat`, `LogWriter`, `LogReader` work on bytes; `LogRoundTrip` proves the
  round trip, and `LogPrefixes` that cutting off any file, well-formed or not, loses records at
  its end only. `LogDelivery` says what the reader returns and reports for any file at all, in
  terms of the bytes. `WriteBatchFormat` is the batch inside a record; `ShortBatches` that no part
  of one passes for a batch. `DiskFormats` holds examples of all formats byte by byte.
- **Appends that fail.** The writer goes on as if the bytes were there. `TornLogs` says exactly
  when the next physical record is read; `TornReads` what a log with a rejected tear reads: the
  records before it, and whatever the following blocks hold, wherever the writer put it. So a
  later record may swallow another, and a payload may be read as a record that nobody appended:
  `ForeignRecords` gives the input, and the exact condition, on file offsets and sizes known
  before the write, under which no next record of that size can do it. `ForeignWrites` shows
  that a value stored through LevelDB's own batch format can.
- **The manifest.** `Coding` and `EditCodec` are the byte format of version edits; `Manifests`
  recovers a version from a manifest that a crash cut off.
- **Durability.** `Durability` models logs, tables, the manifest, garbage collection, crashes
  and recovery as interleaved critical sections, failed appends included; `DurabilityProofs` its
  invariant. What log files hold and what is read of them comes from a medium with two laws;
  `LogMedium` proves that the log writer and reader, over any batch format, are such a medium.
  `DurableWrites` proves which writes survive: a synced write does if and only if the logs read
  it back whichever version the manifest holds, and without failed appends it always does.
  `WrittenOnly`: recovery makes up no entry if and only if the logs it replays hold none;
  `TornMedium` says exactly when they do not, on the bytes. `TornWrites` runs the protocol on log
  bytes: which synced writes a torn log loses, for every number of bytes left, and a recovery
  that brings back an entry nobody wrote.
- **Recovery.** `Recovery` and `RecoverySteps` are the loops of DB::Open and DeleteObsoleteFiles
  over file names and bytes; they carry out steps of `Durability`. `LogOrder`, `StoreDisks`,
  `BusyDisks`, `RecoveredStores` and `ReopenedStores` join this with the store: what opening does
  after a crash is writes, switches and flushes that ordinary operation could have done, so the
  reopened store is in order and answers reads from exactly the writes that were left.
- **Group commit.** `WriteQueue` models the writers' queue on top of `Durability`;
  `WriteQueueProofs` what callers may rely on, errors included.
- **Punycode.** `PunycodeLabel` is libuv's label encoder, `Rfc3492` the decoder as the RFC states
  it. `PunycodeText`: the encoder's output decodes to its input, and no other lower-case text does;
  `Punycode`, `PunycodeRfc` and `PunycodeUnique` prove it, and `PunycodeSamples` holds sample
  strings of the RFC.
- **The thread pool.** `ThreadPool`: workers, wakeups, order, slow-work quota, cancellation.

Imperative code (compaction loop, iterators, log writer and reader, recovery, edit codec,
encoder, group building) is modelled by methods and classes proved against specification
functions. Concurrent protocols are state machines whose steps are the critical sections; their
theorems range over all runs.

Hypotheses that theorems name: `KeepsClear` (no flush lands among the output files of a running
compaction; `ClearOfInputs` is a check that implies it), `StepCovered`, `EventCovered` and
`StepCoveredOnDisk` (a compaction uncovers no deleted value; `CompactionReads` says when),
`Faithful` and `ReadsOnlyWritten` (a log to be replayed reads only what was appended: always so
while none of its appends has failed), and `Rejected` (the checksum does not accept the bytes at
a tear). The code as it is violates each of the first three in some run, and the runs are given;
`Rejected` is up to the checksum. No step of a state machine is restricted by any of them.

Modelling decisions: user keys are only compared, so they are integers (ranks). A checksum is
any per-byte update function. Sequence numbers stay below 2^56 - 1. Sizes, scores and other
tuning inputs are arbitrary parameters. The code, not its comments, is followed where the two
differ: the comment above AddBoundaryInputs (`db/version_set.cc:1367-1373`) names one way an
unclosed boundary breaks reads; the code leaves another one open on the lower level.

Check everything with `dafny verify dfyconfig.toml`.

## Model

| member | source | states |
|---|---|---|
| `InternalKeys.TableGetReadsTable` | ios/Pods/leveldb-library/db/memtable.cc:100-134 | a lookup in one sorted table (seek to the lookup key, then compare the user key) returns exactly the newest visible entry of that table, deletions included, or nothing when none is visible |
| `InternalKeys.ReadIsDetermined` | ios/Pods/leveldb-library/db/dbformat.cc:51-67 | where no two entries share user key and sequence number, the newest visible entry is unique, so what a read returns depends on the entries alone |
| `TableFiles.FindFile` | ios/Pods/leveldb-library/db/version_set.cc:88-106 | binary search returns the first file whose largest key is not below the target, or the number of files |
| `TableFiles.SomeFileOverlapsRange` | ios/Pods/leveldb-library/db/version_set.cc:122-156 | true exactly when some file of the level meets the user-key range, linear on level 0 and with one binary search elsewhere, with open ends |
| `TableFiles.GetOverlappingInputs` | ios/Pods/leveldb-library/db/version_set.cc:519-559 | terminates in spite of its level-0 restarts; on deeper levels the files that meet the range, on level 0 those of the least overlap-closed range containing it |
| `CompactionInputs.FindLargestKey` | ios/Pods/leveldb-library/db/version_set.cc:1326-1341 | the largest key among the files, taken from one of them |
| `CompactionInputs.FindSmallestBoundaryFile` | ios/Pods/leveldb-library/db/version_set.cc:1345-1363 | the file with the smallest start among those that continue the user key beyond the given key, or none |
| `CompactionInputs.AddBoundaryInputs` | ios/Pods/leveldb-library/db/version_set.cc:1378-1401 | terminates, appends only, leaves no boundary file; a closed start is unchanged and a run of a sorted level stays a run that grows only along one user key |
| `LsmLevels.UpperInputsLeaveNothingOlder` | ios/Pods/leveldb-library/db/version_set.cc:1378-1401 | no file left in the upper level holds an older version of a user key in the chosen inputs |
| `LsmLevels.LowerLevelFilesStayApart` | ios/Pods/leveldb-library/db/version_set.cc:1403-1462 | a file of the next level that is not chosen lies completely before or after all chosen entries, in internal-key order |
| `CompactionInputs.GetRange` | ios/Pods/leveldb-library/db/version_set.cc:1205-1227 | the smallest range of keys covering the files, its ends taken from files |
| `CompactionInputs.SetupOtherInputs` | ios/Pods/leveldb-library/db/version_set.cc:1403-1462 | closes the upper inputs at their boundary and takes exactly the files of the next level that meet their user-key range; the start stays included |
| `CompactionInputs.ExpandInputs` | ios/Pods/leveldb-library/db/version_set.cc:1421-1455 | the upper inputs grow to all files between the ends of the inputs, closed at their boundary, if that adds files, meets as many files of the next level as before, and stays below the byte limit; otherwise they stay as they are |
| `CompactionInputs.PickCompaction` | ios/Pods/leveldb-library/db/version_set.cc:1270-1322 | from any chosen file of a level: a well-formed choice of inputs that contains it, overlap-closed on level 0 |
| `CompactionInputs.CompactRange` | ios/Pods/leveldb-library/db/version_set.cc:1464-1495 | no inputs exactly when nothing meets the range; otherwise a well-formed choice |
| `CompactionInputs.TrimInputs` | ios/Pods/leveldb-library/db/version_set.cc:1472-1488 | the shortest prefix of the inputs that reaches the size limit, or all of them, and still a run of the level |
| `CompactionWork.Compaction.IsBaseLevelForKey` | ios/Pods/leveldb-library/db/version_set.cc:1533-1552 | on every nondecreasing sequence of keys the moving cursors answer as a full scan of the deeper levels would |
| `CompactionWork.HiddenByPrevious` | ios/Pods/leveldb-library/db/db_impl.cc:936-971 | on sorted input, remembering only the previous entry decides whether any newer version at or below the smallest snapshot exists |
| `CompactionWork.ShouldDrop` | ios/Pods/leveldb-library/db/db_impl.cc:936-978 | the loop's decision equals the declarative rule: hidden by a newer version old enough for all readers, or a deletion marker with nothing deeper |
| `CompactionWork.DroppedIff` | ios/Pods/leveldb-library/db/db_impl.cc:936-971 | in terms of reads, an entry is dropped exactly if no usable snapshot shows it as the newest of the inputs, or if it is a deletion marker visible at all of them and no deeper level has a file around its key |
| `CompactionWork.DoCompactionWork` | ios/Pods/leveldb-library/db/db_impl.cc:890-1028 | the outputs, in order, hold exactly the entries the drop rule keeps, whatever the file-size decisions, and no output is empty |
| `CompactionWork.SurvivorsSorted` | ios/Pods/leveldb-library/db/db_impl.cc:936-1016 | what survives is a sorted subsequence of the input |
| `VersionEdits.SaveTo` | ios/Pods/leveldb-library/db/version_set.cc:692-738 | merging the ordered added files into the base list gives the same list as deleting and inserting one by one |
| `VersionEdits.EditedInOrder` | ios/Pods/leveldb-library/db/version_set.cc:692-738 | the saved level is ordered by smallest key, ties by number |
| `VersionEdits.OrderedListsAgree` | ios/Pods/leveldb-library/db/version_set.cc:591-606 | an ordered file list is determined by its members |
| `VersionEdits.ReplayRebuildsLevel` | ios/Pods/leveldb-library/db/version_set.cc:650-738 | one builder fed with all edits rebuilds exactly the level reached by applying the edits one at a time, when no file number is added twice to a level |
| `VersionEdits.SnapshotRecordStandsForVersion` | ios/Pods/leveldb-library/db/version_set.cc:1088-1116 | level by level, a list of edits that starts with adding all files of the current version replays to the same level as continuing from that version |
| `Coding.NumberIsRead` | ios/Pods/leveldb-library/util/coding.cc:48-94 | a varint is read back from what follows it, for 32 and for 64 bits |
| `Coding.PutVarint32` | ios/Pods/leveldb-library/util/coding.cc:48-82 | the five unrolled branches write the same bytes as the recursive definition |
| `Coding.GetVarint` | ios/Pods/leveldb-library/util/coding.cc:116-173 | the shifting loop computes the number in the first five or ten bytes, bits above 32 or 64 cut off, or fails when they do not end it |
| `Coding.LengthPrefixedReadIff` | ios/Pods/leveldb-library/util/coding.cc:96-99 | a length-prefixed string is read back if and only if its length fits into 32 bits |
| `EditCodec.DecodeEncoded` | ios/Pods/leveldb-library/db/version_edit.cc:42-205 | decoding an encoded version edit gives back every field: comparator, log, previous log, next file and last sequence numbers, compaction pointers, deleted and new files; compaction pointers already in the object stay in front, as Clear leaves them |
| `EditCodec.VersionEdit.DecodeFrom` | ios/Pods/leveldb-library/db/version_edit.cc:109-205 | the loop over tags ends with the fields and the error of the reference decoder, fields before an error included |
| `EditCodec.VersionEdit.EncodeTo` | ios/Pods/leveldb-library/db/version_edit.cc:42-86 | appends exactly the tagged fields that are set, in the fixed order |
| `EditCodec.UnknownTagIsRejected` | ios/Pods/leveldb-library/db/version_edit.cc:189-193 | behind any fields, an unknown tag is an error whatever follows |
| `EditCodec.UnknownLevelIsRejected` | ios/Pods/leveldb-library/db/version_edit.cc:99-107 | so is a level that does not exist, in a compaction pointer, a deleted or a new file |
| `EditCodec.CutTagIsRejected` | ios/Pods/leveldb-library/db/version_edit.cc:196-205 | and a tag that does not end |
| `DiskFormats.NumbersOnDisk` | ios/Pods/leveldb-library/util/coding.cc:10-46 | fixed-width numbers are little-endian, varints start with the lowest seven bits, and the masked checksum is rotated by 15 bits: examples with their bytes |
| `DiskFormats.FieldsOnDisk` | ios/Pods/leveldb-library/db/version_edit.cc:14-25 | each kind of field with its tag and its bytes |
| `DiskFormats.EditOnDisk` | ios/Pods/leveldb-library/db/version_edit.cc:42-86 | the order of the fields in a record |
| `Manifests.Recover` | ios/Pods/leveldb-library/db/version_set.cc:886-1011 | succeeds exactly if no corruption is reported, every record decodes under this comparator, and some record sets each of the log, next-file and last-sequence numbers; then each number is that of the last record that sets it, and every level's builder state is that of applying the edits in order |
| `Manifests.UpdatedIsLast` | ios/Pods/leveldb-library/db/version_set.cc:943-961 | keeping a number whenever a record has one ends with that of the last record that has one |
| `Manifests.Apply` | ios/Pods/leveldb-library/db/version_set.cc:650-692 | one decoded edit changes each level's builder state by its deletions and additions at that level, and no other |
| `Manifests.CutManifestRecovers` | ios/Pods/leveldb-library/db/version_set.cc:886-1011 | a manifest cut off by a crash anywhere behind its synced records is read without a report as exactly the first k edits, for some k that covers the synced ones |
| `Manifests.RecoveredLevel` | ios/Pods/leveldb-library/db/version_set.cc:886-1011 | each recovered level is the one that applying those k edits version by version had made |
| `Manifests.RecoveredFiles` | ios/Pods/leveldb-library/db/version_set.cc:886-1011 | each recovered level holds exactly the files that one of those edits added there and no later one deleted |
| `Manifests.RecoveredCounters` | ios/Pods/leveldb-library/db/version_set.cc:801-814 | the recovered log, previous-log, next-file and last-sequence numbers are those of the last of these edits, as LogAndApply sets them all |
| `Manifests.WriteCrashRecover` | ios/Pods/leveldb-library/db/version_set.cc:801-884 | edit objects, log writer, arbitrary crash, log reader, decoder and builder together: the state recovered is that of a prefix of the edits, of all of them if nothing was cut off |
| `LsmLevels.InstallKeepsLevels` | ios/Pods/leveldb-library/db/db_impl.cc:860-876 | installing a compaction keeps every level ordered, deeper levels disjoint, file numbers unique, and newer versions shallower |
| `LsmLevels.InstallKeepsAge` | ios/Pods/leveldb-library/db/db_impl.cc:860-876 | after the installation shallower levels still hold only newer versions of each user key |
| `MemtableFlush.PickLevelForMemTableOutput` | ios/Pods/leveldb-library/db/version_set.cc:491-516 | level 0 if level 0 meets the range; otherwise the file sinks as far as overlap and grandparent bytes allow, at most to level 2, and no less far |
| `MemtableFlush.CompactMemTable` | ios/Pods/leveldb-library/db/db_impl.cc:491-566 | a flush is a step of the store, keeps the contents, and leaves no immutable memtable |
| `Store.WriteKeepsInv` | ios/Pods/leveldb-library/db/db_impl.cc:1212-1243 | a write adds exactly its own entry, with the next sequence number, and keeps the invariant |
| `Store.FlushKeepsInv` | ios/Pods/leveldb-library/db/db_impl.cc:491-566 | a flush to any level PickLevelForMemTableOutput may choose keeps the invariant and the contents |
| `Store.MoveKeepsInv` | ios/Pods/leveldb-library/db/db_impl.cc:714-732 | a trivial move keeps the invariant |
| `Store.CompactKeepsInv` | ios/Pods/leveldb-library/db/db_impl.cc:733-742 | a compaction, taken as one step, with any well-formed inputs and any cut into output files keeps the invariant |
| `Store.NextKeepsInv` | ios/Pods/leveldb-library/db/version_set.cc:801-884 | every step of the store, compactions being one step each, keeps levels sorted and disjoint, newer versions shallower, newer level-0 files newer, and everything stored in the history of writes |
| `StoreReads.GetFromLevelZero` | ios/Pods/leveldb-library/db/version_set.cc:344-362 | searching the level-0 files that span the key from newest number to oldest and stopping at the first hit reads the whole level |
| `StoreReads.GetFromSortedLevel` | ios/Pods/leveldb-library/db/version_set.cc:363-381 | looking into the one file found by binary search reads the whole sorted level |
| `StoreReads.VersionGet` | ios/Pods/leveldb-library/db/version_set.cc:326-421 | level by level, stopping at the first hit, returns the newest visible entry of all tables |
| `StoreReads.Get` | ios/Pods/leveldb-library/db/db_impl.cc:1100-1145 | memtable, then immutable memtable, then tables: the answer is that of the newest visible entry in the whole store |
| `StoreReads.RunsKeepInv` | ios/Pods/leveldb-library/db/db_impl.cc:688-767 | in every run of writes, switches, flushes, moves, snapshots and compactions without a flush inside, every state satisfies the invariant |
| `StoreReads.RunsKeepReads` | ios/Pods/leveldb-library/db/db_impl.cc:878-1060 | in every such run whose compactions uncover nothing, reads at every snapshot still in use agree with the history of all writes |
| `StoreReads.GetInRun` | ios/Pods/leveldb-library/db/db_impl.cc:1100-1145 | in such a run DBImpl::Get returns the history's answer |
| `StoreReads.WriteIsRead` | ios/Pods/leveldb-library/db/db_impl.cc:1185-1254 | from a write on its key reads as the value written, or as absent if it was a deletion; other keys and all reads at earlier sequence numbers are unchanged |
| `StoreReads.SnapshotsAreFrozen` | ios/Pods/leveldb-library/db/db_impl.cc:889-893 | a snapshot on the list shows the same for ever in such a run, whatever is written, flushed and compacted later |
| `BackgroundCompactions.StartCompaction` | ios/Pods/leveldb-library/db/db_impl.cc:688-742 | choosing the inputs, merging, dropping and writing the outputs start a compaction under way, under inputs that the code chooses |
| `BackgroundCompactions.FinishCompaction` | ios/Pods/leveldb-library/db/db_impl.cc:860-876 | the version builder, applied to the version then current, produces the levels that finishing the compaction leads to |
| `InterleavedCompactions.FlushCommutes` | ios/Pods/leveldb-library/db/db_impl.cc:908-918 | a flush and then installing a compaction gives the same levels as installing it and then flushing |
| `InterleavedCompactions.FlushDuringCompaction` | ios/Pods/leveldb-library/db/db_impl.cc:908-918 | a flush while a compaction runs keeps the version to come in order if and only if, where it lands on the compaction's output level, the new file keeps clear of every output file; then it keeps its contents too |
| `InterleavedCompactions.ClearOfInputsKeepsClear` | ios/Pods/leveldb-library/db/db_impl.cc:908-918 | a flush whose keys lie outside those of the compaction's inputs keeps clear of its outputs, whatever they become |
| `InterleavedCompactions.BusyRunsKeepInv` | ios/Pods/leveldb-library/db/db_impl.cc:878-1060 | in every run with compactions in the background in which flushes keep clear of their outputs, every state is in order, and so is the one the running compaction is going to install |
| `InterleavedCompactions.BusyRunsKeepReads` | ios/Pods/leveldb-library/db/db_impl.cc:878-1060 | if compactions uncover nothing, too, reads of both agree with the history of all writes at every snapshot still in use |
| `InterleavedCompactions.GetInBusyRun` | ios/Pods/leveldb-library/db/db_impl.cc:1100-1145 | in such a run DBImpl::Get returns the history's answer |
| `InterleavedCompactions.IteratorInBusyRun` | ios/Pods/leveldb-library/db/db_impl.cc:1147-1157 | in such a run a new iterator shows the history's answers |
| `LostFlush.FlushedKeyIsLost` | ios/Pods/leveldb-library/db/db_impl.cc:908-918 | a reachable run in which a flush inside a compaction of level 1 puts a file into the gap its output spans: level 2 is not disjoint any more and a Get of the flushed key finds nothing |
| `LostFlush.CompactionIsChosen` | ios/Pods/leveldb-library/db/version_set.cc:1464-1495 | that compaction is what a manual compaction of the keys takes as its inputs |
| `LostFlush.EarlierFlushesAreChosen` | ios/Pods/leveldb-library/db/version_set.cc:491-516 | the flushes before it go to the levels that PickLevelForMemTableOutput picks; so does the one inside (NestedFlushIsChosen) |
| `CompactionReads.CompactedContents` | ios/Pods/leveldb-library/db/db_impl.cc:860-876 | after a compaction the store holds exactly what it held, minus the dropped entries of the inputs |
| `CompactionReads.CompactionKeepsReadsIff` | ios/Pods/leveldb-library/db/db_impl.cc:936-971 | a compaction changes no read at any usable snapshot if and only if no dropped deletion marker has a value of its user key just below it in an unchosen file of the next level |
| `CompactionReads.ClosedLowerInputsAreCovered` | ios/Pods/leveldb-library/db/version_set.cc:1407-1411 | closing the lower inputs at their boundary as well would make every compaction keep all reads |
| `Resurrection.DeletedKeyComesBack` | ios/Pods/leveldb-library/db/version_set.cc:1407-1411 | a reachable run of sixteen steps, its compactions and flushes being those that the input choice and the level picker make, after which a deleted key reads as present, because the boundary file of the next level was left out of the inputs |
| `Resurrection.CompactionsAreChosen` | ios/Pods/leveldb-library/db/version_set.cc:1270-1322 | both compactions of that run are what an automatic choice of the only file of level 1 leads to, and neither is a trivial move |
| `Resurrection.FlushesAreChosen` | ios/Pods/leveldb-library/db/version_set.cc:491-516 | all flushes of that run go to the level that PickLevelForMemTableOutput picks |
| `MergingIterators.RankStep` | ios/Pods/leveldb-library/table/merger.cc:55-79 | passing one merged entry moves exactly the child that owns it by one |
| `MergingIterators.SeekAgrees` | ios/Pods/leveldb-library/table/merger.cc:47-53 | seeking every child lands all of them where the merged sequence has the target |
| `MergingIterators.MergingIterator.FindSmallest` | ios/Pods/leveldb-library/table/merger.cc:148-161 | with every child at its rank, the current entry is the merged sequence's entry at the cursor |
| `MergingIterators.MergingIterator.FindLargest` | ios/Pods/leveldb-library/table/merger.cc:163-176 | with every child one before its rank, the current entry is the merged sequence's previous entry |
| `MergingIterators.MergingIterator.SeekToFirst` | ios/Pods/leveldb-library/table/merger.cc:31-37 | the cursor stands at the first merged entry |
| `MergingIterators.MergingIterator.SeekToLast` | ios/Pods/leveldb-library/table/merger.cc:39-45 | the cursor stands at the last merged entry |
| `MergingIterators.MergingIterator.Seek` | ios/Pods/leveldb-library/table/merger.cc:47-53 | the cursor stands at the first merged entry not below the target |
| `MergingIterators.MergingIterator.Next` | ios/Pods/leveldb-library/table/merger.cc:55-79 | the cursor moves one entry forward, also after moving backward |
| `MergingIterators.MergingIterator.Prev` | ios/Pods/leveldb-library/table/merger.cc:81-108 | the cursor moves one entry backward, also after moving forward |
| `DBIterator.LiveIsRead` | ios/Pods/leveldb-library/db/db_iter.cc:168-198 | an entry the iterator may stop at is what a read of its key returns |
| `DBIterator.ReadIsLive` | ios/Pods/leveldb-library/db/db_iter.cc:168-198 | every key that reads as present has such an entry |
| `DBIterator.DBIter.FindNextUserEntry` | ios/Pods/leveldb-library/db/db_iter.cc:168-198 | scans to the next live entry beyond the skipped key, passing none |
| `DBIterator.DBIter.FindPrevUserEntry` | ios/Pods/leveldb-library/db/db_iter.cc:227-267 | scans back to the live entry of the greatest remaining key and keeps its value |
| `DBIterator.DBIter.SeekToFirst` | ios/Pods/leveldb-library/db/db_iter.cc:283-292 | stands on the least present key with the value a read returns, or is not valid and no key is present |
| `DBIterator.DBIter.SeekToLast` | ios/Pods/leveldb-library/db/db_iter.cc:294-299 | stands on the greatest present key with its value, or nothing is present |
| `DBIterator.DBIter.Seek` | ios/Pods/leveldb-library/db/db_iter.cc:269-281 | stands on the least present key not below the target |
| `DBIterator.DBIter.Next` | ios/Pods/leveldb-library/db/db_iter.cc:141-166 | moves to the next present key, skipping none, across direction switches |
| `DBIterator.DBIter.Prev` | ios/Pods/leveldb-library/db/db_iter.cc:200-225 | moves to the previous present key, skipping none, across direction switches |
| `StoreIterators.NewInternalIterator` | ios/Pods/leveldb-library/db/db_impl.cc:1062-1087 | the children share no entry, and their sorted union is exactly the contents of the store |
| `StoreIterators.NewIterator` | ios/Pods/leveldb-library/db/db_impl.cc:1147-1157 | the iterator answers for every key as a read of the store at its sequence number does |
| `StoreIterators.IteratorInRun` | ios/Pods/leveldb-library/db/db_impl.cc:1147-1157 | in every run whose compactions uncover nothing, an iterator shows the history's answers |
| `BackgroundCompactions.MakeInputIterator` | ios/Pods/leveldb-library/db/version_set.cc:1237-1268 | the children of a compaction's input iterator merge to exactly the entries of its input files |
| `BackgroundCompactions.InstallResults` | ios/Pods/leveldb-library/db/db_impl.cc:860-876 | the version builder produces the levels of the state machine's compaction step |
| `BackgroundCompactions.Compacted` | ios/Pods/leveldb-library/db/db_impl.cc:878-1060 | without a release of the mutex, choosing, merging, dropping, writing and installing carry out one compaction step of the store |
| `BackgroundCompactions.BackgroundCompaction` | ios/Pods/leveldb-library/db/db_impl.cc:688-767 | each call is one step of the store or none, with the inputs the code chooses: a pending memtable first, then a move or a compaction; manual ones never move |
| `LogFormat.UnmaskMask` | ios/Pods/leveldb-library/util/crc32c.h:22-38 | unmasking undoes masking, with 32-bit wrap-around |
| `LogFormat.Checksum.ExtendAppends` | ios/Pods/leveldb-library/util/crc32c.h:17-20 | extending a checksum by two pieces is extending it by their concatenation |
| `LogFormat.DecodeEncode` | ios/Pods/leveldb-library/util/coding.cc:9-22 | fixed 32-bit little-endian encoding is undone by decoding |
| `LogWriter.Writer.EmitPhysicalRecord` | ios/Pods/leveldb-library/db/log_writer.cc:82-108 | the file grows by trailer, header and payload, or by what a failing write lets through of them, and the block offset moves on in both cases |
| `LogWriter.Writer.AddRecord` | ios/Pods/leveldb-library/db/log_writer.cc:34-80 | the file grows by exactly the fragments of the record, with zero trailers where no header fits, from any starting offset; after a failing fragment the loop stops with an error, and the writer stands as if that fragment had been written |
| `LogReader.Reader.ReadPhysicalRecord` | ios/Pods/leveldb-library/db/log_reader.cc:189-271 | buffered reading block by block sees the same physical records, offsets and reports as parsing the whole file |
| `LogReader.Reader.ReadRecord` | ios/Pods/leveldb-library/db/log_reader.cc:56-174 | the loop over fragments returns the record, offset and number of reports of the reference reader, for which type bytes 5 and 6 are the end and a bad record |
| `LogDelivery.DeliversIff` | ios/Pods/leveldb-library/db/log_reader.cc:189-271 | for any file, ReadPhysicalRecord delivers a type and a payload if and only if the file holds, inside a block where the next header is due, exactly the header and payload with these bytes and their checksum; it reports exactly a length that leaves a whole block and a wrong checksum |
| `LogDelivery.RecordsAreDelivered` | ios/Pods/leveldb-library/db/log_reader.cc:56-174 | for any file, the records returned are exactly the full ones delivered and the runs of a first, middle and last fragments with nothing between, all of them and in order; the reports are one for each damaged physical record, each fragment without a first one, each unknown type, and each record broken off |
| `LogDelivery.NoReportMeansWhole` | ios/Pods/leveldb-library/db/log_reader.cc:56-174 | if nothing is reported, nothing delivered was damaged and every middle or last fragment belongs to a first one |
| `DiskFormats.RecordOnDisk` | ios/Pods/leveldb-library/db/log_format.h:14-31 | a physical record byte by byte: checksum, length, type, payload |
| `LogRoundTrip.CrashPrefix` | ios/Pods/leveldb-library/db/log_reader.cc:56-174 | records written from any offset, in a file cut off anywhere, read back as exactly those the file holds completely, in order, with no corruption report |
| `LogRoundTrip.RoundTrip` | ios/Pods/leveldb-library/db/log_writer.cc:34-108 | with nothing cut off the records read back exactly, with no report |
| `LogRoundTrip.PhysicalIsNext` | ios/Pods/leveldb-library/db/log_reader.cc:189-271 | a physical record in the file is read with its type and payload; one cut off by the end of the file reads as the end |
| `LogRoundTrip.WriteCrashRead` | ios/Pods/leveldb-library/db/log_writer.cc:34-80 | writer object, arbitrary crash, reader object: a prefix of the records comes back, all of them if nothing was lost, and nothing is reported |
| `LogPrefixes.CutLosesOnlyTheEnd` | ios/Pods/leveldb-library/db/log_reader.cc:56-271 | whatever a file holds, cutting it off anywhere leaves a prefix of the records that are read from it |
| `TornLogs.TornFragment` | ios/Pods/leveldb-library/db/log_writer.cc:82-108 | a fragment that fails after k bytes leaves the writer at its end; if all bytes are there it is read |
| `TornLogs.NextRecordReadIff` | ios/Pods/leveldb-library/db/log_writer.cc:96-107 | after a fragment that left k bytes, the next complete physical record is read if and only if k bytes are nothing lost, or k makes up for the trailers before and after, and the record fits into the block it really lies in |
| `TornLogs.LandedIsRead` | ios/Pods/leveldb-library/db/log_reader.cc:56-174 | a record of any number of fragments, each of which fits into the block it really lies in, is read as the next one, whatever the reader was collecting |
| `TornLogs.EarlierRecordsStay` | ios/Pods/leveldb-library/db/log_reader.cc:56-174 | whatever follows them, records written completely before are all read |
| `TornLogs.HeaderWithoutPayload` | ios/Pods/leveldb-library/db/log_writer.cc:96-107 | the header of a first record without its payload, then a complete second one: nothing is read from this file |
| `TornLogs.NothingLeft` | ios/Pods/leveldb-library/db/log_writer.cc:96-107 | a first append that left no bytes does no harm: the second record is read |
| `TornLogs.FailThenWrite` | ios/Pods/leveldb-library/db/log_writer.cc:34-108 | a writer object whose first append fails and whose second returns OK, and a reader object: nothing is read if just the header was left, the second record if nothing was |
| `TornReads.RejectedReads` | ios/Pods/leveldb-library/db/log_reader.cc:189-271 | from a place where the reader rejects what it finds it reads exactly what it would read from the end of that block on |
| `TornReads.TornLogReads` | ios/Pods/leveldb-library/db/log_reader.cc:56-271 | a log with a failed append in any fragment of a record, its tear rejected, reads the records before it, and what the blocks behind the tear hold |
| `TornReads.DeliveredIsInRecords` | ios/Pods/leveldb-library/db/log_reader.cc:56-174 | a record in one fragment that is delivered as a physical record is one of the records read |
| `ForeignRecords.ForeignRecordIsRead` | ios/Pods/leveldb-library/db/log_writer.cc:82-108 | a failed append that left the file short, then a complete append whose payload holds the bytes of a log record at the right place: the reader returns that record, which nobody appended |
| `ForeignRecords.HarmlessIff` | ios/Pods/leveldb-library/db/log_writer.cc:82-108 | a failed append that left the file at least a header short is harmless for every next record of a given size if and only if that record ends before there is room for a header in the next block of the file |
| `TornMedium.GenuineIff` | ios/Pods/leveldb-library/db/log_reader.cc:56-271 | after a rejected tear a log reads only appended batches if and only if the blocks behind the tear do |
| `TornMedium.HarmlessTear` | ios/Pods/leveldb-library/db/log_reader.cc:56-271 | it reads exactly the batches before the tear, in order, if nothing appended since has room for a header behind the tear's block |
| `LogMedium.LogEnvIsLawful` | ios/Pods/leveldb-library/db/log_reader.cc:56-174 | log writer and reader, with any batch format that reads back the batches it has room for, obey the two laws of the durability protocol's medium: a cut file reads as a prefix, and what was appended is read |
| `WriteBatchFormat.BatchesRoundTrip` | ios/Pods/leveldb-library/db/write_batch.cc:42-118 | LevelDB's batch format is such a format: every batch whose sequence number, count and lengths fit their fields is read back |
| `WriteBatchFormat.Iterate` | ios/Pods/leveldb-library/db/write_batch.cc:42-80 | the loop hands over the operations of the reference reader, and fails for short headers, bad operations, unknown tags and a wrong count |
| `ShortBatches.ShortBatchIsRejected` | ios/Pods/leveldb-library/db/write_batch.cc:42-80 | a batch cut short anywhere is an error |
| `ShortBatches.WrongCountIsRejected` | ios/Pods/leveldb-library/db/write_batch.cc:74-79 | so is a batch with a count that does not fit its operations |
| `DiskFormats.OpsOnDisk` | ios/Pods/leveldb-library/db/write_batch.cc:5-14 | a Put and a Delete byte by byte |
| `DiskFormats.BatchOnDisk` | ios/Pods/leveldb-library/db/write_batch.cc:5-14 | a batch of two operations: sequence number, count, operations in order |
| `WriteBatchFormat.EightBytesAreKeys` | ios/Pods/leveldb-library/db/write_batch.cc:98-110 | user keys of eight bytes are read back whatever they are, so a key format as the batch needs it exists |
| `WriteBatchFormat.WriteBatch.Append` | ios/Pods/leveldb-library/db/write_batch.cc:143-148 | the appended batch's operations follow the own ones, the count adding up in 32 bits |
| `DurabilityProofs.NextKeepsInv` | ios/Pods/leveldb-library/db/db_impl.cc:223-278 | every step of commits, memtable switches, flushes, compactions, deletions, pinning, crashes and recoveries, appends that fail anywhere included, keeps the invariant: needed files exist, memtable entries are in their logs, untorn logs are exactly what was written, numbers are fresh, promises are backed |
| `DurabilityProofs.RunsKeepInv` | ios/Pods/leveldb-library/db/db_impl.cc:535-566 | every reachable state satisfies that invariant |
| `DurabilityProofs.CollectKeepsFiles` | ios/Pods/leveldb-library/db/db_impl.cc:223-278 | deleting obsolete files removes no table of the current, an offered or a pinned version, no number being written to, and changes no version's contents |
| `DurabilityProofs.CollectKeepsLogs` | ios/Pods/leveldb-library/db/db_impl.cc:239-242 | no log that holds entries of mem_ or imm_ is removed |
| `DurabilityProofs.SwitchKeepsLogs` | ios/Pods/leveldb-library/db/db_impl.cc:1345-1366 | after a memtable switch every entry of imm_ is in a log from log_number_ up to, not including, the new log |
| `DurabilityProofs.BeginKeepsNumbers` | ios/Pods/leveldb-library/db/db_impl.cc:1201-1208 | a group's sequence numbers are above every number a reader or a recovery can meet |
| `RecoverySteps.Open` | ios/Pods/leveldb-library/db/db_impl.cc:1474-1515 | after any crash the recovery loops, over file names and log bytes, carry out a recovery step of the protocol: no table is missing, and the new tables hold exactly the records that can be read from the logs, replayed in order |
| `RecoverySteps.RecoveryIsStep` | ios/Pods/leveldb-library/db/db_impl.cc:280-369 | the guards of that step, the replayed entries and the largest sequence number among them, are what the loops compute |
| `Recovery.Replay.Recover` | ios/Pods/leveldb-library/db/db_impl.cc:280-369 | an error exactly if a table of the version has no file with its number; otherwise all logs from the version's log number on are replayed in ascending order, LastSequence covers them, and their numbers count as used |
| `Recovery.Replay.RecoverLogFile` | ios/Pods/leveldb-library/db/db_impl.cc:371-489 | every batch that can be read from the log's bytes gets into a memtable or a level-0 table, spills included, in order |
| `Recovery.Replay.WriteLevel0Table` | ios/Pods/leveldb-library/db/db_impl.cc:491-533 | a memtable becomes one level-0 file with the next number, an empty one no file |
| `RecoverySteps.TablesHoldRecords` | ios/Pods/leveldb-library/db/db_impl.cc:371-489 | the tables made hold exactly the entries of the records replayed |
| `RecoverySteps.DeleteObsoleteFiles` | ios/Pods/leveldb-library/db/db_impl.cc:223-278 | of the listed files there stay, kind by kind: CURRENT, LOCK and info logs; manifests from the current one on; logs from the log number on and the previous log; tables and temp files being written or, by number, in a version still referred to; and no others, or all of them after a background error |
| `RecoverySteps.CollectionIsStep` | ios/Pods/leveldb-library/db/db_impl.cc:223-278 | what it deletes is a deletion step of the protocol, when the version set refers to the current version and those that readers hold, and no step at all after a background error |
| `RecoverySteps.CollectionLeavesStore` | ios/Pods/leveldb-library/db/db_impl.cc:223-278 | the directory it leaves holds CURRENT, the manifest in use and exactly the logs and tables of the protocol's state, so that opening after a crash finds all it asks for |
| `DurabilityProofs.RecoverKeepsNumbers` | ios/Pods/leveldb-library/db/db_impl.cc:363-365 | the recovered last sequence is not below any recovered entry, whatever the logs hold |
| `WrittenOnly.InventsNothingIff` | ios/Pods/leveldb-library/db/db_impl.cc:280-369 | recovery from a version brings back only entries that somebody wrote, whatever a crash does, if and only if the logs it replays, read to their ends, hold no others |
| `WrittenOnly.UntornIsWritten` | ios/Pods/leveldb-library/db/log_writer.cc:34-108 | logs without failed appends hold no others |
| `WrittenOnly.RunsKeepDistinct` | ios/Pods/leveldb-library/db/db_impl.cc:1201-1208 | in every run whose recoveries replay only what was written, no two entries anywhere share a sequence number |
| `DurableWrites.SyncedWritesSurvive` | ios/Pods/leveldb-library/db/db_impl.cc:1212-1243 | once a synced write has returned OK and its log reads the record back, its entries are part of the store in every later state of every run, across crashes |
| `DurableWrites.SurvivesIff` | ios/Pods/leveldb-library/db/db_impl.cc:280-369 | an entry survives every possible crash if and only if every version the manifest may hold has it in a table or in the synced part of a log to be replayed |
| `DurableWrites.SyncedWriteSurvivesIff` | ios/Pods/leveldb-library/db/db_impl.cc:1212-1243 | an acknowledged synced write survives every crash if and only if, whichever version the manifest holds, some log replayed from it reads the entry back from its synced bytes |
| `DurableWrites.ReadBackIsReplayed` | ios/Pods/leveldb-library/db/db_impl.cc:1212-1243 | some log does if the write's own log reads its record back |
| `DurableWrites.ReplayedIsReadBack` | ios/Pods/leveldb-library/db/db_impl.cc:1212-1243 | while logs read only what was appended, no other log does |
| `DurableWrites.SafeIsReadBack` | ios/Pods/leveldb-library/db/db_impl.cc:1212-1243 | if no append to the log had failed before, the log reads the record back |
| `TornWrites.SyncedWriteSurvivesTearIff` | ios/Pods/leveldb-library/db/log_writer.cc:96-107 | a reachable run over log bytes, for every number of bytes that a failing append leaves: a synced write behind it in the same block returns OK, and survives every crash if and only if the append left nothing or everything |
| `TornWrites.HeaderLeftLosesSyncedWrite` | ios/Pods/leveldb-library/db/log_writer.cc:96-107 | with just the header left, announcing a longer payload than follows, it is lost under every checksum |
| `TornWrites.ForeignEntryComesBack` | ios/Pods/leveldb-library/db/log_writer.cc:96-107 | a reachable run over log bytes: just the header of an append is left, a synced write whose batch holds the bytes of a log record returns OK, and some recovery brings back an entry that no call wrote |
| `ForeignWrites.SomeValueComesBack` | ios/Pods/leveldb-library/db/write_batch.cc:98-103 | in LevelDB's batch format, for any first write and any foreign batch that leave room in a block, there is a Put whose value does that |
| `DurableWrites.RecoveryIsPossible` | ios/Pods/leveldb-library/db/db_impl.cc:313-343 | whichever version the manifest holds, recovery finds its tables and leads to a state |
| `DurableWrites.GroupsAppearAtOnce` | ios/Pods/leveldb-library/db/db_impl.cc:1210-1235 | readers at LastSequence see all operations of a group or none, at the moment it ends, and no effect of background work |
| `LogOrder.NextKeepsOrder` | ios/Pods/leveldb-library/db/db_impl.cc:1201-1215 | every step of the protocol keeps: numbers of what is appended grow along each log and from log to log, and what a version leaves to the logs is newer than its tables |
| `LogOrder.RunsKeepOrder` | ios/Pods/leveldb-library/db/db_impl.cc:535-566 | the same in every reachable state |
| `StoreDisks.RunsKeepDisk` | ios/Pods/leveldb-library/db/db_impl.cc:878-1060 | in every run of the store whose compactions, atomic ones, uncover nothing, not even what only a memtable hides, the tables alone answer as the writes that have left the memtables do |
| `BusyDisks.BusyRunsKeepDisk` | ios/Pods/leveldb-library/db/db_impl.cc:878-1060 | the same in every run with compactions in the background, for the version in use and the one to come, if flushes keep clear |
| `BusyDisks.DiskInBusyRun` | ios/Pods/leveldb-library/db/db_impl.cc:878-1060 | so a crash at any point of such a run leaves tables that are in order and answer from the writes that had left the memtables |
| `BusyDisks.CoveredOnDiskIsEventCovered` | ios/Pods/leveldb-library/db/db_impl.cc:936-971 | the same for a compaction that other steps interrupt: the condition on the tables implies the one of the busy run |
| `StoreDisks.CoveredOnDiskIsCovered` | ios/Pods/leveldb-library/db/db_impl.cc:936-971 | that condition on compactions implies the one for the store with its memtables |
| `StoreDisks.DiskIsStore` | ios/Pods/leveldb-library/db/db_impl.cc:535-566 | a store that loses its memtables is in order and answers from the writes it kept |
| `RecoveredStores.FilesLead` | ios/Pods/leveldb-library/db/db_impl.cc:371-489 | the level-0 files that recovery makes, with ascending numbers, are what replayed writes, memtable switches and flushes to level 0 make |
| `RecoveredStores.LeadsKeepReads` | ios/Pods/leveldb-library/db/db_impl.cc:371-489 | so they keep the levels in order and all answers |
| `ReopenedStores.ReplayedAreNewer` | ios/Pods/leveldb-library/db/db_impl.cc:340-361 | replaying sorted logs meets writes in the order of their numbers, all newer than the version's tables, wherever the crash cut the logs, if torn ones read only what was appended |
| `ReopenedStores.Reopen` | ios/Pods/leveldb-library/db/db_impl.cc:1474-1515 | after a crash at any point of any run, opening is a recovery step of the protocol and, if torn logs read only what was appended, at the same time a sequence of ordinary steps from the store on disk, to a store whose writes are exactly the entries the step leaves |
| `ReopenedStores.ReopenedAnswers` | ios/Pods/leveldb-library/db/db_impl.cc:1474-1515 | the reopened store is in order, and every read from LastSequence on returns the newest of the writes that were left |
| `ReopenedStores.DiskIsStoreOf` | ios/Pods/leveldb-library/db/version_set.cc:1088-1116 | a store in a run, without its memtables, is the store that a version with the same writes stands for |
| `ReopenedStores.PlacedAllIsOneEdit` | ios/Pods/leveldb-library/db/db_impl.cc:1498-1502 | placing the recovered files one by one is the one version edit that is saved |
| `WriteQueue.BuildBatchGroup` | ios/Pods/leveldb-library/db/db_impl.cc:1260-1306 | the group is the longest prefix of the queue whose followers respect the sync rule and the size limit, and the batch holds their operations in queue order |
| `WriteQueue.GroupIsDetermined` | ios/Pods/leveldb-library/db/db_impl.cc:1260-1306 | that prefix is unique |
| `WriteQueue.PopGroup` | ios/Pods/leveldb-library/db/db_impl.cc:1237-1252 | the pop loop takes exactly the group off the queue, gives every member the status, and leaves neither a member nor the new front asleep |
| `WriteQueueProofs.NextKeepsQueueInv` | ios/Pods/leveldb-library/db/db_impl.cc:1185-1254 | every event keeps: finished and queued calls partition the arrivals in order, nobody sleeps who is finished or first, a group is a queue prefix led by a sync writer if it holds one, number ranges join up |
| `WriteQueueProofs.QueueRunsKeepInv` | ios/Pods/leveldb-library/db/db_impl.cc:1185-1254 | the same in every reachable state, together with the durability invariant |
| `WriteQueueProofs.CallsFinishOnce` | ios/Pods/leveldb-library/db/db_impl.cc:1191-1198 | every call is waiting or finished, never both, and a finished call's status never changes |
| `WriteQueueProofs.NumbersFollowArrival` | ios/Pods/leveldb-library/db/db_impl.cc:1201-1208 | sequence numbers of finished calls follow the order of arrival and never overlap |
| `WriteQueueProofs.FinishedGroupIsVisible` | ios/Pods/leveldb-library/db/db_impl.cc:1237-1252 | when a group finishes, each operation of each member is readable under its own number if and only if the member's status is OK |
| `WriteQueueProofs.SyncWriterSurvives` | ios/Pods/leveldb-library/db/db_impl.cc:1276-1279 | a sync write that returns OK, led by itself or another, survives every crash if and only if the logs read it back, which its own log does unless an append to it had failed |
| `WriteQueueProofs.ErrorsAreFinal` | ios/Pods/leveldb-library/db/db_impl.cc:1317-1324 | after a background error no group is started, no call outside a group already under way succeeds, and the error stays |
| `WriteQueueProofs.FailedSyncStopsWrites` | ios/Pods/leveldb-library/db/db_impl.cc:1217-1232 | in every run, from a failed sync on every call that finishes fails, those of the group included |
| `WriteQueueProofs.FailedSyncIsRecorded` | ios/Pods/leveldb-library/db/db_impl.cc:1227-1232 | once that group has finished, the error stays recorded |
| `WriteQueueProofs.FailedJobStopsWrites` | ios/Pods/leveldb-library/db/db_impl.cc:640-646 | in every run, a failed flush or compaction stays recorded, and every call that arrives later fails |
| `WriteQueueProofs.NullWriteEmptiesMemtable` | ios/Pods/leveldb-library/db/db_impl.cc:1310-1374 | in every run, a call without a batch that leads returns OK only when the memtable has been switched away: all earlier writes are in the immutable memtable or in tables |
| `Punycode.NumberRoundTrip` | ios/Pods/Libuv-gRPC/src/idna.c:192-218 | a variable-length integer written for any bias reads back exactly, whatever follows it |
| `Punycode.DecodesTo` | ios/Pods/Libuv-gRPC/src/idna.c:166-245 | the decoder, fed with the encoded gaps, ends with the input sequence |
| `PunycodeRfc.SameAdapt` | ios/Pods/Libuv-gRPC/src/idna.c:220-236 | the bias is adapted as section 6.1 of RFC 3492 says, in its parameters base, tmin, tmax, skew and damp |
| `PunycodeRfc.SameRun` | ios/Pods/Libuv-gRPC/src/idna.c:166-245 | the decoder used in the proofs is that of section 6.2 of RFC 3492, which adds up digits with their weights |
| `PunycodeUnique.RunUndone` | ios/Pods/Libuv-gRPC/src/idna.c:166-245 | whatever digits decode to a sequence of code points are those that the encoder sends |
| `PunycodeText.DecodeEncoded` | ios/Pods/Libuv-gRPC/src/idna.c:102-245 | the decoder of section 6.2 of RFC 3492 undoes the encoder for every sequence of code points, with basic characters and delimiter |
| `PunycodeText.OnlyEncodedDecodes` | ios/Pods/Libuv-gRPC/src/idna.c:102-245 | of all texts without capital letters among their digits, exactly the encoder's decodes to the input |
| `PunycodeSamples.KoiIsEncoded` | ios/Pods/Libuv-gRPC/src/idna.c:102-245 | sample string (P) of section 7.1 of RFC 3492, eight basic and five other code points, is encoded as that section says |
| `PunycodeSamples.SpeedIsEncoded` | ios/Pods/Libuv-gRPC/src/idna.c:102-245 | so is sample string (R), seven code points and none basic |
| `PunycodeSamples.SizeIsEncoded` | ios/Pods/Libuv-gRPC/src/idna.c:102-245 | a word of nine letters, three of them not ASCII, is encoded as bergre-fta7pwb |
| `PunycodeLabel.EmitNumber` | ios/Pods/Libuv-gRPC/src/idna.c:192-218 | the digit loop writes exactly the digits of the number, cut to the room left |
| `PunycodeLabel.AdaptBias` | ios/Pods/Libuv-gRPC/src/idna.c:220-236 | halving, the first division and the loop compute the bias adaptation of section 6.1 of RFC 3492, without overflow |
| `PunycodeLabel.ScanPass` | ios/Pods/Libuv-gRPC/src/idna.c:183-241 | one pass sends every occurrence of a code point in order, and reports an overflow only if some needed gap exceeds 32 bits |
| `PunycodeLabel.ToAsciiLabel` | ios/Pods/Libuv-gRPC/src/idna.c:102-245 | EINVAL exactly for malformed input, E2BIG exactly when some gap exceeds 32 bits; otherwise the output is what fits of the ASCII label itself or of xn-- and a text that decodes to the input |
| `PunycodeLabel.LabelsFit` | ios/Pods/Libuv-gRPC/src/idna.c:174-187 | no label of up to 3800 Unicode code points overflows |
| `ThreadPoolProofs.NextKeepsInv` | ios/Pods/Libuv-gRPC/src/threadpool.c:57-160 | every critical section keeps: counters count, the slow-work message is queued at most once, every item is in exactly one place with a matching history, and a thread sleeps only if each entry it could take has a thread of its own on the way |
| `ThreadPoolProofs.RunsKeepInv` | ios/Pods/Libuv-gRPC/src/threadpool.c:57-160 | the same in every reachable state |
| `ThreadPoolProofs.NoWorkIsLeftWaiting` | ios/Pods/Libuv-gRPC/src/threadpool.c:142-160 | in every reachable state with a thread asleep, the entries of the queue, but for a message held back by the threshold, are at most as many as the threads woken or about to look |
| `ThreadPoolProofs.FirstComeFirstServed` | ios/Pods/Libuv-gRPC/src/threadpool.c:57-125 | while one item is ahead of another in a queue the other is not started, and it stays behind until one of them leaves the queue |
| `ThreadPoolProofs.SubmittedIsLast` | ios/Pods/Libuv-gRPC/src/threadpool.c:142-160 | new work goes behind all that is queued |
| `ThreadPoolProofs.SlowWorkIsBounded` | ios/Pods/Libuv-gRPC/src/threadpool.c:45-47 | at most half of the threads, rounded up, run slow work |
| `ThreadPoolProofs.SlowWorkIsScheduled` | ios/Pods/Libuv-gRPC/src/threadpool.c:142-160 | while slow work is pending its message is in the queue exactly once |
| `ThreadPoolProofs.DoneOnce` | ios/Pods/Libuv-gRPC/src/threadpool.c:295-315 | done is called at most once per item; with UV_ECANCELED the item never ran, otherwise it ran exactly once |
| `ThreadPoolProofs.CancelSucceedsIff` | ios/Pods/Libuv-gRPC/src/threadpool.c:269-292 | cancelling succeeds if and only if the callback has not been started; then the item is off its queue, and otherwise nothing changes |
| `ThreadPoolProofs.CancelledNeverRuns` | ios/Pods/Libuv-gRPC/src/threadpool.c:269-292 | a cancelled item stays cancelled and is never run |
| `ThreadPoolProofs.QuietMeansFinished` | ios/Pods/Libuv-gRPC/src/threadpool.c:66-78 | when all threads sleep and the loop has nothing to do, every submitted item is finished |

## Left out

- The table file format (blocks, restart points, index keys, filters, `table/*.cc`, `util/bloom.cc`): a table is its sorted list of entries.
- The skip list and its arena: a memtable is a sorted sequence, and lookups seek in it.
- The block cache, the LRU table and table cache.
- A log record that is long enough for a batch but malformed is skipped by recovery; the source inserts the operations in front of the fault. What user keys look like is a parameter of `WriteBatchFormat`.
- Corrupted keys and I/O errors while reading tables: reads and compactions see well-formed tables.
- The log reader with a nonzero initial offset, and read errors of the log file.
- CompactionWork.DoCompactionWork: the nested flush is not in the loop; it is a step of its own in `InterleavedCompactions` and `Durability`.
- Store.CompactKeepsInv: its compaction step is atomic; the interleaved one is in `InterleavedCompactions`.
- Store.NextKeepsInv: the same.
- StoreReads.RunsKeepInv: its compactions are atomic; `BusyRunsKeepInv` has the interleaved ones.
- StoreReads.RunsKeepReads: the same; see `BusyRunsKeepReads`.
- StoreReads.GetInRun: the same; see `GetInBusyRun`.
- StoreIterators.IteratorInRun: the same; see `IteratorInBusyRun`.
- BackgroundCompactions.Compacted: the same; see `StartCompaction` and `FinishCompaction`.
- BackgroundCompactions.BackgroundCompaction: it chooses and installs without a release of the mutex in between; `StartCompaction` and `FinishCompaction` are its two halves. The remainder of a manual range is not computed.
- MemtableFlush.CompactMemTable: failures of the table or manifest write are steps of `Durability`, not of `Store`.
- The numbers of output files are allotted when a compaction starts, not file by file.
- Installing a compaction after a flush nested in it failed to write the manifest: the two half-known manifest records are not modelled.
- A crash in the middle of recovery: recovery is one step, which takes effect when its manifest record is written.
- TornLogs.NextRecordReadIff: exact for the next physical record after one failed fragment; `DeliveredIsInRecords` makes a record of it when it is one fragment, and for records of several fragments `LandedIsRead` gives the sufficient half.
- ForeignRecords.HarmlessIff: for a gap of at least a header and at most a block less a header; with a smaller one the reader may resume inside a header, and the checksum decides.
- TornMedium.GenuineIff: for one failed append that is rejected; `RejectedReads` goes on from any further place that is.
- LogWriter.Writer.EmitPhysicalRecord: what a failing write leaves is a prefix of trailer, header and payload; the file's own buffer and its later flushing are not modelled apart.
- ReopenedStores.Reopen: which `Store` state a manifest version stands for is its hypothesis `StoreOf`; `DiskIsStoreOf` shows that every store in a run has such a disk part, but `Store` and `Durability` do not run side by side. Logs with failed appends must be `Faithful`. `Durability` tables stand for all entries merged into them; dropping entries is treated in `CompactionReads` and `StoreDisks`.
- ReopenedStores.ReopenedAnswers: the same.
- ReopenedStores.DiskIsStoreOf: that the version holds the same writes is its hypothesis.
- StoreDisks.RunsKeepDisk: its compactions are atomic; see `BusyRunsKeepDisk`.
- Manifests.Recover: compaction pointers are decoded but not kept, and CURRENT and the file locks are not modelled.
- Reusing old logs and manifests (`reuse_logs`), and replaying a log older than the log number (`PrevLogNumber`, no longer written): off or unused by default.
- Write groups appear in `Store` as single writes; their grouping is in `WriteQueue`. Numbers that failed writes use up are its step `UseUp`.
- DBIterator.DBIter.Next: the branch for an invalid inner iterator after a direction switch cannot be taken; it is left out.
- Compaction scores, seek counters, compaction pointers and the delays of MakeRoomForWrite: arbitrary choices.
- Repair, destroy, properties, C bindings, environment and logging code.
- Punycode starts from decoded code points; UTF-8 decoding and the splitting at dots are not part of this model. Labels are shorter than 2^32 - 1 code points.
- The thread pool serves one event loop; a request is not cancelled again after its done callback has been called.
- libuv's timers, heap and platform code, and nanopb.
- The app's own code: calls to services and start-up code.
