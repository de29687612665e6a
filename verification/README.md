# LevelDB and nanopb, modelled and proved

The application ships two vendored C and C++ libraries that hold its hard logic: the LevelDB storage engine and the
nanopb protobuf codec.  This project models both in Dafny and proves what they are for.  `dafny verify dfyconfig.toml`
checks everything.

## What is modelled

**The engine.**  A `Version` is seven lists of table files (`Files`, `Versions`).  `CompactionInputs` chooses the inputs
of a compaction, `CompactionWork` runs it, `VersionBuilder` and `Install` put its outputs in place, and `EngineSteps` is
the state machine of the whole: writes, memtable switches, flushes, snapshots, trivial moves, and compactions that other
steps may interleave with.  `Engine` is about its runs.  `DBImpl` is the class whose methods perform those steps; every
method is proved to be one of them.  `Keys` says what a read means: the newest entry of a user key at or below a sequence
number.  `Lookup` proves that the read path computes just that, and `WriteReads` that reads find what was written: over every run the database is a
map from keys to values.

**Snapshot reads.**  `CompactionTheorem` gives the exact condition under which a compaction changes no read, for
arbitrary sets of entries.  `Resurrection` turns it into a condition on files, and `ResurrectionExample` is a run in which
it fails.  `Install` gives the exact condition under which a compaction keeps the levels in order, and `FlushExample` is a
run in which that fails.

**Cursors.**  `Cursors` is a plain cursor over a sorted list.  `Merging`, `TwoLevel`, `BlockIteration` and `DBIterator`
are the four bidirectional iterators; each is proved to show the same as a plain cursor for every sequence of calls.
`EngineIterators` puts them together: an iterator of the database merges memtables, level-0 tables and levels, and shows
exactly what reads at its snapshot find.

**Logs and recovery.**  `LogFormat`, `LogWriting`, `LogReading` and `LogTheorem` are the record log over 32 KiB blocks;
`LogBreaks`, `LogReopening` and `LogCrashes` are about logs that a crash has cut and a writer continues, `LogDamage` about
damaged blocks, and `LogLives` about the bytes of a log over all its lifetimes.  `Disks` says what is on disk, `Recovery`
is the opening of a database, as functions and as a class with the loops of the source.  `DurabilitySteps` is a state machine over whole lifetimes of a
database, with crashes, recoveries and garbage collection, `Durability` is about its runs, and `RecoveredReads` about what
their tables and logs read like.  `DurableBytes` has those runs once more with logs and the manifest as bytes, and proves
that they are runs of that machine.
`VersionEdits`, `Manifests` and `VersionSets` are the manifest: its records as bytes, the version rebuilt from them, and
the version set that writes it over all lifetimes of the database.  `ManifestFiles` is the same down to the bytes of the
file, with crashes in the middle of an edit.

**Writers.**  `WriteBatches` is the byte form of a batch, `GroupCommit` the queue of writers.

**In memory.**  `SkipList` has the lock-free list twice: as a state machine whose steps are single pointer stores,
interleaved with the steps of a search, and as a class.  `HandleTables` and `LRUCaches` are the cache, and
`LRUOrder` says which handles it forgets first.

**Tables.**  `Coding`, `Varints`, `BlockFormat`, `BlockBuilding`, `Comparator`, `Bloom`, `FilterBlocks`, `TableSearch`
and `Tables` lead from bytes to a lookup in one table.

**Formats.**  `Formats` writes down the bytes of internal keys, edits, batches, log records and blocks as lists of parts,
without the functions that write them, and proves that these write just that.

**nanopb.**  `PbSchema` has descriptors and messages, `PbWire` scalars, `PbMessages` what the bytes of a message are and
what reading bytes into a struct does, as recursive functions.  `PbEncoding` and `PbDecoding` are the streams, the field
iterator and the required-field bits as classes with loops, proved against those functions.  `PbRoundTrip` and `PbSafety`
prove what encoding and decoding are for, on proper messages and on arbitrary input.  `PbFormats` is the format of the
encoding specification, which the encoder is proved to write, and `PbVersions` is about messages that were written under
another version of a descriptor, and about what any other writer may send.

## Premises

- A user key is a real number: only the order of user keys matters to the engine, and `Comparator` proves that byte
  strings in bytewise order embed into the reals.  Where bytes matter, in logs, blocks, edits, batches and protobuf
  messages, keys and values are bytes.
- The numbers of the outputs of a compaction are taken when it finishes, not one by one while it runs.
- A checksum is any function that accepts what it stamped (`LogFormat.Sound`); the masked form that is stored is proved
  to be one for every 32-bit checksum function.
- Each atomic load or store of the skip list is one step; a search may start at any level below the maximum height, since
  the height it has read may be out of date.
- Lengths and counts fit the widths of their fields (32 bits in LevelDB, `pb_size_t` in nanopb).
- The numbers of reports of the log reader are modelled, not their sizes or texts.
- `Recovery` is that of a database without `paranoid_checks`: a report about a log is passed over.  With that option it
  makes opening fail (db/db_impl.cc:403 and 418 of the library), so that a log, too, could only be continued behind a clean
  end; `LogLives.PromisedIsRead` covers that case with `strict`.

## Properties that do not hold

**A value comes back.**  The comment on `AddBoundaryInputs` (WanderlustApp/Pods/leveldb-library/db/version_set.cc:1369-1373)
says why a user key must not be split between compacted files and files that stay.  `SetupOtherInputs` takes that care on
the compacted level only (lines 1407 and 1422) and never for `inputs_[1]`.  So a deletion marker at the end of `inputs_[1]`
may be dropped while an older value of its user key stays behind in the next file of that level, and comes back.
`ResurrectionExample.DroppedMarkerResurrects` is such a run, with the whole invariant of the engine intact in every state.
`Resurrection.FinishPreservesReadsIffNothingStranded` says exactly when a compaction is harmless: if and only if no such
value is stranded.  `Resurrection.BoundaryClosedIsClean` gives a guard that a caller could check before the compaction
starts, and with it `Resurrection.ReadsAreStableWithBoundaries` makes snapshot reads stable over every run.

**A key is missed.**  While a compaction runs, a full memtable is flushed at once
(WanderlustApp/Pods/leveldb-library/db/db_impl.cc:907-918), and `PickLevelForMemTableOutput`
(db/version_set.cc:491-516 of the same library) compares it with the files there are, not with the outputs to come.  An
output that joins two inputs may cover a table that was flushed between them to the same level.  Then the level is not
sorted, and the binary search in it may end at the wrong file.  `FlushExample.FlushedKeyIsMissed` is such a run.
`EngineSteps.FinishKeepsInvIff` says exactly when installing a compaction keeps the invariant: if and only if no table
flushed to the output level meanwhile lies in the range of an output.  `Engine.GuardedIsOrderly` gives a guard that the
flush could check, and with it every run keeps the invariant.

**A synced record is lost.**  With `reuse_logs`, `RecoverLogFile` continues the last log at its end
(db/db_impl.cc:457-477), even if a crash has cut it inside a physical record; the writer goes on right behind the fragment
(db/log_writer.cc:27-30).  The next reader takes the bytes that follow for the rest of the record, fails its checksum and
drops the rest of the block, synced records included.  `LogCrashes.AppendedIsLost` is such a log, for every checksum that
tells the two payloads apart, and `LogCrashes.SomeChecksumLoses` shows that there are some.
`LogReopening.ReopenedReadsIff` and `LogCrashes.ReopenedAfterCrash` say exactly when everything is read back: if and only
if the cut is not strictly inside a physical record with room for a header behind it in its block, provided the checksum
rejects the spliced record.

**A database cannot be opened again.**  `ReuseManifest` (db/version_set.cc:1013-1042) continues the manifest in the same
way, and there more is needed: `VersionSet::Recover` stores every report of the log reader as its status and stops
(db/version_set.cc:887-890, 928 and 933).  An edit whose fragments a crash has cut between two blocks, where the file is
not torn, leaves fragments over; the next edit is read back, but so is a report about them, and opening fails.
`LogCrashes.LeftOverIsReported` is such a file, for every record that does not fit into the first block.
`LogReopening.ReopenedCleanIff`, `LogCrashes.ReopenedCleanAfterCrash` and `ManifestFiles.ReuseReadsIff` say exactly when a
continued file reads completely and without a report: if and only if it ended cleanly, with nothing left over of an
unfinished record, and nothing broken but a blank part of a header where no further header fits.

The runs of `DurabilitySteps` and `DurableBytes` take those two conditions on the file as the guards of continuing a log
and a manifest, which the source does not have: a log is `torn` and a manifest `frayed` where they fail.

## Model

| member | source | states |
|---|---|---|
| Engine.InvariantHolds | WanderlustApp/Pods/leveldb-library/db/version_set.cc:784-880 | In every state of every run of writes, memtable switches, flushes, snapshots, compactions and moves in which outputs find room: levels 1 and up are sorted and disjoint, every shallower level, and memory, is newer than what is below it for each user key, file numbers and snapshots are in order. |
| Engine.StepKeepsInvIff | WanderlustApp/Pods/leveldb-library/db/db_impl.cc:907-918 | Every step keeps that invariant if and only if it does not install a compaction whose output covers a table that was flushed to the output level meanwhile. |
| Engine.GuardedIsOrderly | WanderlustApp/Pods/leveldb-library/db/version_set.cc:491-516 | A guard that suffices for whole runs: a flush to the output level of a running compaction goes to one side of all its inputs. |
| Engine.SnapshotReadsAreStable | WanderlustApp/Pods/leveldb-library/db/db_impl.cc:878-1005 | Over every such run and between any two of its states, a read of any user key at a snapshot that stays readable gives the same answer, provided the compactions that finish in between are clean. |
| Engine.FinishPreservesReadsIff | WanderlustApp/Pods/leveldb-library/db/db_impl.cc:890-963 | A finishing compaction, whatever was written and flushed since it started, preserves every read at every snapshot at or above the oldest one if and only if it is clean. |
| WriteReads.DatabaseIsMap | WanderlustApp/Pods/leveldb-library/db/db_impl.cc:1100-1258 | At every moment of every run from a new database with clean compactions, every key reads as the last operation on it among all batches written so far says, whatever was flushed, compacted and moved in between; without one it is not found. |
| WriteReads.SnapshotIsOldMap | WanderlustApp/Pods/leveldb-library/db/db_impl.cc:1147-1183 | A snapshot that stays readable keeps showing that map as it was when the snapshot was taken. |
| WriteReads.BatchIsRead | WanderlustApp/Pods/leveldb-library/db/db_impl.cc:1185-1258 | Right after a write every key of the batch reads as the last operation on it says, a value that was put or nothing after a deletion, and every other key as before. |
| WriteReads.MeaningIs | WanderlustApp/Pods/leveldb-library/db/write_batch.cc:116-137 | What a list of operations leaves of a key is what the last one on it says, and what there was if there is none. |
| Engine.SmallestSnapshotIs | WanderlustApp/Pods/leveldb-library/db/db_impl.cc:890-894 | What a compaction respects is the oldest sequence number that can be read. |
| EngineSteps.FlushKeepsInv | WanderlustApp/Pods/leveldb-library/db/db_impl.cc:491-566 | A flush to any level down to which nothing overlaps keeps the invariant and the set of readable entries, also while a compaction runs. |
| EngineSteps.MoveKeepsInv | WanderlustApp/Pods/leveldb-library/db/db_impl.cc:718-735 | Moving a single file one level down without rewriting it keeps the invariant and the set of readable entries. |
| EngineSteps.FinishKeepsInvIff | WanderlustApp/Pods/leveldb-library/db/db_impl.cc:860-876 | Installing the outputs of a compaction over a version grown by flushes keeps the invariant if and only if no table flushed to the output level since it started lies in the range of an output. |
| FlushExample.FlushedKeyIsMissed | WanderlustApp/Pods/leveldb-library/db/db_impl.cc:907-918 | A run from a new database that ends with two overlapping tables on level 2, because a memtable was flushed between the inputs of a running compaction: the binary search for a stored key ends at the table that does not hold it. |
| EngineSteps.WriteKeepsReads | WanderlustApp/Pods/leveldb-library/db/db_impl.cc:1185-1258 | A write changes no read at a sequence number that existed before it. |
| CompactionTheorem.CompactionPreservesReadsIff | WanderlustApp/Pods/leveldb-library/db/db_impl.cc:890-963 | For any inputs, any other entries and any oldest snapshot: the drop rules preserve all reads at or above that snapshot if and only if no value resurfaces below a dropped marker. |
| CompactionTheorem.ReadPastMarker | WanderlustApp/Pods/leveldb-library/db/db_impl.cc:941-953 | What a dropped marker that was the newest entry of its user key is replaced by: the value that the rest holds below it. |
| CompactionTheorem.OnlyNeededStay | WanderlustApp/Pods/leveldb-library/db/db_impl.cc:925-963 | Everything newer than the oldest snapshot stays; at or below it only the newest entry of a user key, and a deletion marker only over a file two or more levels down with the user key in its range. |
| Resurrection.FinishPreservesReadsIffNothingStranded | WanderlustApp/Pods/leveldb-library/db/version_set.cc:1403-1454 | The exact effect of a finished compaction in the engine: reads are preserved if and only if no dropped marker has an older value of its user key in a file of the next level that is not among the inputs. |
| Resurrection.BoundaryClosedIsClean | WanderlustApp/Pods/leveldb-library/db/version_set.cc:1378-1422 | If the inputs of the next level had their boundary files too, every compaction would be clean. |
| Resurrection.ReadsAreStableWithBoundaries | WanderlustApp/Pods/leveldb-library/db/version_set.cc:1403-1454 | With that guard, which can be checked before a compaction starts, snapshot reads are stable over every run. |
| Resurrection.OlderIsLeftBelow | WanderlustApp/Pods/leveldb-library/db/version_set.cc:1533-1552 | Everything outside a running compaction that is older than an input at its base level is on the next level, in a file that stays. |
| Resurrection.LeftBelowMissesInputs0 | WanderlustApp/Pods/leveldb-library/db/version_set.cc:1403-1412 | A file of the next level that stays shares no user key with the inputs of the compacted level. |
| ResurrectionExample.DroppedMarkerResurrects | WanderlustApp/Pods/leveldb-library/db/version_set.cc:1403-1454 | A run from a new database, with every state in order, whose last compaction makes a deleted key read as its old value: boundary files are looked for on the compacted level only. |
| Install.CompactionKeepsInvariantIff | WanderlustApp/Pods/leveldb-library/db/version_set.cc:1403-1454 | Replacing sound inputs by their outputs keeps the level invariant, whatever was flushed since the inputs were chosen, if and only if the outputs of the compaction are apart from it on their level. |
| Install.FlushKeepsInvariant | WanderlustApp/Pods/leveldb-library/db/version_set.cc:491-516 | A table newer than the whole version keeps the level invariant at any level down to which nothing overlaps it. |
| Install.AfterRunIsDisjoint | WanderlustApp/Pods/leveldb-library/db/version_set.cc:1378-1401 | The user keys of a run that is closed under boundary files end before those of every later file of the level. |
| Install.LeftBelowIsOutside | WanderlustApp/Pods/leveldb-library/db/version_set.cc:1403-1412 | A file of the next level that is not taken lies before or after all inputs. |
| Install.RemainderIsNewer | WanderlustApp/Pods/leveldb-library/db/version_set.cc:519-559 | What stays on the compacted level is newer than what leaves it. |
| Versions.FindFile | WanderlustApp/Pods/leveldb-library/db/version_set.cc:88-106 | On a sorted level the binary search finds the first file that ends at or after the key; on any list it ends where the search function does. |
| Versions.SomeFileOverlapsRange | WanderlustApp/Pods/leveldb-library/db/version_set.cc:122-157 | With binary search on a sorted level, and with a scan otherwise, the answer is whether some file overlaps the range. |
| Versions.GetOverlappingInputs | WanderlustApp/Pods/leveldb-library/db/version_set.cc:519-559 | Terminates despite its restarts; on level 0 the result is all files that overlap the least range that contains the given one and is closed under overlap, deeper exactly the files that overlap the given range. |
| Versions.PickLevelForMemTableOutput | WanderlustApp/Pods/leveldb-library/db/version_set.cc:491-516 | Level 0 if something overlaps there, and otherwise the deepest level up to 2 such that nothing overlaps on the way and at most ten times the file size lies two levels below each level passed. |
| Versions.FindLargestKey | WanderlustApp/Pods/leveldb-library/db/version_set.cc:1326-1340 | The largest key of the files, if there are any. |
| Versions.FindSmallestBoundaryFile | WanderlustApp/Pods/leveldb-library/db/version_set.cc:1344-1361 | The boundary file with the smallest start, or none if there is no boundary file. |
| Versions.AddBoundaryInputs | WanderlustApp/Pods/leveldb-library/db/version_set.cc:1378-1401 | Terminates; every added file is the smallest boundary file of the inputs before it, in this order, no file of the level continues the user key at which the result stops, and a run of a sorted level stays a run. |
| Files.OverlappingIsRun | WanderlustApp/Pods/leveldb-library/db/version_set.cc:519-559 | On a sorted level the files that overlap a range are contiguous. |
| CompactionInputs.GetRange | WanderlustApp/Pods/leveldb-library/db/version_set.cc:1205-1227 | The least internal key range that covers the files. |
| CompactionInputs.ExpandInputs | WanderlustApp/Pods/leveldb-library/db/version_set.cc:1424-1448 | The inputs of the level become all files that overlap the range of both inputs, with their boundary files, exactly if these are more, stay under 25 times the file size and take no further file of the next level. |
| CompactionInputs.ChooseInputs | WanderlustApp/Pods/leveldb-library/db/version_set.cc:1403-1454 | The choice is determined: the part that was picked with its boundary files, all that overlaps it one level down, the level widened exactly if that pays, and the grandparents that overlap them all; the inputs are sound. |
| CompactionInputs.VersionSet.SetupOtherInputs | WanderlustApp/Pods/leveldb-library/db/version_set.cc:1403-1462 | Also moves the compaction pointer of the level, and no other, to the largest key of the inputs. |
| CompactionInputs.VersionSet.PickCompaction | WanderlustApp/Pods/leveldb-library/db/version_set.cc:1270-1322 | For a level that is too large the choice starts from the first file that ends after the compaction pointer, or from the first file if there is no such file or no pointer; on level 0 from all files that overlap it; for a file that was sought too often it starts from that file; otherwise there is none. |
| CompactionInputs.VersionSet.CompactRange | WanderlustApp/Pods/leveldb-library/db/version_set.cc:1464-1495 | There is no manual compaction just when nothing overlaps the range; otherwise the choice starts from all overlapping files on level 0, and deeper from the first of them up to the one with which their sizes reach the size limit. |
| CompactionInputs.ClosedPartHasBoundaries | WanderlustApp/Pods/leveldb-library/db/version_set.cc:519-559 | On level 0 the closed set already holds every boundary file. |
| CompactionWork.CompactionScan.IsBaseLevelForKey | WanderlustApp/Pods/leveldb-library/db/version_set.cc:1533-1552 | Although each level is scanned only once: for keys asked in non-decreasing order the answer is exactly whether no deeper level has the key in the range of a file. |
| CompactionWork.CompactionScan.ShouldStopBefore | WanderlustApp/Pods/leveldb-library/db/version_set.cc:1554-1576 | Which grandparent files are passed, how many bytes they hold, and when the counter starts again. |
| CompactionWork.CompactionScan.ShouldDrop | WanderlustApp/Pods/leveldb-library/db/db_impl.cc:925-963 | An entry is dropped if and only if it is hidden by a newer one at the oldest snapshot, or an obsolete deletion marker. |
| CompactionWork.HiddenByPredecessor | WanderlustApp/Pods/leveldb-library/db/db_impl.cc:936-940 | In a sorted input, looking at the entry just before decides whether an entry is hidden. |
| CompactionWork.CompactionState.DoCompactionWork | WanderlustApp/Pods/leveldb-library/db/db_impl.cc:878-1005 | The outputs are sorted disjoint tables with consecutive numbers that hold exactly the surviving entries, and they are cut at the right places: a table ends where it has reached the size limit, where more than ten times that size of grandparent files was passed since the last such stop, or with the last entry, and nowhere else. |
| InputIterator.ReadInputs | WanderlustApp/Pods/leveldb-library/db/version_set.cc:1237-1268 | Draining the merging iterator over one list for each level-0 file and one for each deeper level gives the entries of all inputs in order. |
| VersionBuilder.SaveLevel | WanderlustApp/Pods/leveldb-library/db/version_set.cc:695-739 | The merge of base and added files is sorted and holds exactly the files that are not deleted. |
| VersionBuilder.Builder.Apply | WanderlustApp/Pods/leveldb-library/db/version_set.cc:657-692 | The file part of an edit deletes and then adds, level by level, if its file numbers are new to their levels. |
| VersionBuilder.Builder.SaveTo | WanderlustApp/Pods/leveldb-library/db/version_set.cc:695-754 | The version holds, sorted, what the applied edits made of each level. |
| Manifests.Replay | WanderlustApp/Pods/leveldb-library/db/version_set.cc:886-960 | All edits in one builder give the same files as applying them one by one. |
| Manifests.Recover | WanderlustApp/Pods/leveldb-library/db/version_set.cc:886-1011 | The files are those the edits make, every counter and compaction pointer is the one written last, and a manifest of another comparator or without one of the counters is refused. |
| Manifests.CountersAreLast | WanderlustApp/Pods/leveldb-library/db/version_set.cc:886-1011 | Each counter that a manifest gives is the one that was written last in it. |
| Manifests.WriteSnapshot | WanderlustApp/Pods/leveldb-library/db/version_set.cc:1088-1116 | The record names the comparator, and adds the compaction pointers that are set and all files of the version, level by level. |
| Manifests.SnapshotPointers | WanderlustApp/Pods/leveldb-library/db/version_set.cc:1093-1101 | The compaction pointers of a snapshot record read back. |
| VersionSets.RecoveredIsCurrent | WanderlustApp/Pods/leveldb-library/db/version_set.cc:801-1011 | At every moment of every run of file number allocations, LogAndApply and reopening: the manifest reads back as exactly the current version, its compaction pointers and log numbers; the next file and last sequence are those of the last LogAndApply; no level gets a file number twice. |
| VersionSets.VersionSet.LogAndApply | WanderlustApp/Pods/leveldb-library/db/version_set.cc:801-880 | One step of that machine: log numbers are those of the change or stay, the last pointer for each level counts, the version is built, and the record with all counters is appended, after a snapshot record if the manifest is a new one. |
| VersionSets.VersionSet.Recover | WanderlustApp/Pods/leveldb-library/db/version_set.cc:882-1011 | Another step of it: the state read from the manifest, with the manifest continued or not. |
| VersionSets.LogsKeepsInv | WanderlustApp/Pods/leveldb-library/db/version_set.cc:801-880 | An edit of tables under fresh numbers and of tables that move down a level keeps file numbers, history and manifest in order, and saves the next file number and the last sequence. |
| VersionSets.SnapshotIsBase | WanderlustApp/Pods/leveldb-library/db/version_set.cc:1088-1116 | A manifest that starts with a snapshot, whose pointers the first edit has set already, stands for the same version and pointers as the whole history before it. |
| ManifestFiles.ManifestIsReadable | WanderlustApp/Pods/leveldb-library/db/version_set.cc:882-1042 | Over any number of lifetimes in which edits are appended byte by byte, crashes cut the manifest inside an edit, and it is only continued behind a clean end: opening the database reads the bytes without an error and finds the current version, pointers, log number and counters, with the cut edit just when all of it is there. |
| ManifestFiles.ReuseReadsIff | WanderlustApp/Pods/leveldb-library/db/version_set.cc:1013-1042 | For any readable manifest: an edit appended to it leaves it readable with that edit if and only if the file ended cleanly. |
| ManifestFiles.RecoverFile | WanderlustApp/Pods/leveldb-library/db/version_set.cc:887-992 | The loop over the bytes: refused on any report of the log reader or any record that does not decode, otherwise what the decoded records say. |
| ManifestFiles.RecordBack | WanderlustApp/Pods/leveldb-library/db/version_edit.cc:41-85 | The bytes of a record of the manifest, with its files and keys, decode to it. |
| VersionEdits.EncodeTo | WanderlustApp/Pods/leveldb-library/db/version_edit.cc:41-85 | The bytes are the encodings of the fields in the order they are written. |
| VersionEdits.DecodeFrom | WanderlustApp/Pods/leveldb-library/db/version_edit.cc:107-205 | The edit gets all fields up to the first bad one, and the message says what is wrong with that one. |
| VersionEdits.EditRoundTrip | WanderlustApp/Pods/leveldb-library/db/version_edit.cc:41-205 | Every edit whose numbers fit decodes to itself from a fresh edit, in whatever order its deleted files are written. |
| VersionEdits.ItemRoundTrip | WanderlustApp/Pods/leveldb-library/db/version_edit.cc:107-205 | Each field is parsed back, whatever follows it. |
| VersionEdits.ItemsBeforeBad | WanderlustApp/Pods/leveldb-library/db/version_edit.cc:107-205 | Behind any fields that were written, a bad one ends the parsing with what is said of it, and all before it are found. |
| VersionEdits.LaterFieldCounts | WanderlustApp/Pods/leveldb-library/db/version_edit.cc:107-205 | If a name or a number comes more than once, the last one counts. |
| Formats.EditFormat | WanderlustApp/Pods/leveldb-library/db/version_edit.cc:14-85 | A field of an edit is its tag, 1 to 7 or 9, and its numbers as varints and names and keys behind their lengths. |
| Formats.ItemsInPlace | WanderlustApp/Pods/leveldb-library/db/version_edit.cc:41-85 | The fields are written in the order comparator, log number, previous log number, next file, last sequence, pointers, deleted files, new files. |
| Formats.EditErrors | WanderlustApp/Pods/leveldb-library/db/version_edit.cc:107-205 | Unknown tags and levels from 7 on are refused, and what is said of a bad field is what its tag calls for. |
| Lookup.Get | WanderlustApp/Pods/leveldb-library/db/db_impl.cc:1100-1145 | Under the invariant, memtable, then immutable memtable, then version give the meaning of a read: the value of the newest entry of the user key at or below the snapshot, or nothing. |
| Lookup.VersionGet | WanderlustApp/Pods/leveldb-library/db/version_set.cc:326-421 | Newest file of level 0 first, then one probe for each deeper level: the newest visible entry of the version, or none if nothing is visible. |
| Lookup.OneProbeSuffices | WanderlustApp/Pods/leveldb-library/db/version_set.cc:369-382 | On a sorted level the first file that ends at or after the lookup key decides alone. |
| Lookup.CandidatesNewestFirst | WanderlustApp/Pods/leveldb-library/db/version_set.cc:349-366 | The level-0 files whose range holds the user key, by falling number. |
| Keys.SeekFindsNewest | WanderlustApp/Pods/leveldb-library/db/memtable.cc:100-134 | A seek to the lookup key lands on the newest visible entry of the user key, and otherwise nothing of it is visible. |
| Keys.Compare | WanderlustApp/Pods/leveldb-library/db/dbformat.cc:51-67 | The comparison of packed tags is the order: user key up, sequence down, type down. |
| Formats.KeyFormat | WanderlustApp/Pods/leveldb-library/db/dbformat.cc:14-23 | An internal key is the user key and eight bytes of 256 times the sequence number plus 1 for a value or 0 for a deletion. |
| Comparator.StoredIffParsed | WanderlustApp/Pods/leveldb-library/db/dbformat.h:165-175 | Internal keys and the byte strings that parse stand for one another: fewer than eight bytes or another type are refused. |
| MemTable.InsertKeepsSorted | WanderlustApp/Pods/leveldb-library/db/memtable.cc:75-98 | An inserted entry takes its place in a strictly sorted list. |
| DBImpl.DB.Write | WanderlustApp/Pods/leveldb-library/db/db_impl.cc:1185-1258 | A write step of the engine after which every key reads as the last operation of the batch on it says, and as before if there is none. |
| DBImpl.DB.SwitchMemTable | WanderlustApp/Pods/leveldb-library/db/db_impl.cc:1336-1366 | A switch step: the full memtable becomes the immutable one. |
| DBImpl.DB.GetSnapshot | WanderlustApp/Pods/leveldb-library/db/db_impl.cc:1166-1169 | The snapshot is the last sequence number and joins the end of the list. |
| DBImpl.DB.ReleaseSnapshot | WanderlustApp/Pods/leveldb-library/db/snapshot.h:79-86 | Takes one snapshot out of the list. |
| DBImpl.DB.Get | WanderlustApp/Pods/leveldb-library/db/db_impl.cc:1100-1145 | The answer is what the engine's readable entries say at the snapshot, or at the last sequence number. |
| DBImpl.DB.NewIterator | WanderlustApp/Pods/leveldb-library/db/db_impl.cc:1147-1157 | The iterator is in order and shows, by rising user key, exactly what reads at the snapshot, or at the last sequence number, find. |
| DBImpl.DB.CompactMemTable | WanderlustApp/Pods/leveldb-library/db/db_impl.cc:491-566 | A flush step to exactly the level that the rule for memtables gives, also while a compaction runs. |
| DBImpl.DB.BackgroundCompaction | WanderlustApp/Pods/leveldb-library/db/db_impl.cc:688-735 | No compaction leaves everything as it is; one with a single input file, nothing below it and at most ten times the file size of grandparents is a move step, and any other one a start step. |
| DBImpl.DB.ManualCompaction | WanderlustApp/Pods/leveldb-library/db/db_impl.cc:688-717 | Is never a move. |
| DBImpl.DB.DoCompaction | WanderlustApp/Pods/leveldb-library/db/db_impl.cc:878-1005 | Reading the inputs and dropping entries gives sorted outputs with exactly the survivors, cut at the places above. |
| DBImpl.DB.FinishCompaction | WanderlustApp/Pods/leveldb-library/db/db_impl.cc:860-1005 | A finish step of the engine; the database is in order afterwards if and only if its outputs find room. |
| DBImpl.InsertInto | WanderlustApp/Pods/leveldb-library/db/write_batch.cc:116-137 | The memtable stays sorted and gains the entries of the batch with their sequence numbers; what they read as is the subject of `WriteReads`. |
| DBImpl.EditInstalls | WanderlustApp/Pods/leveldb-library/db/db_impl.cc:860-876 | The edit that deletes all inputs and adds all outputs installs the compaction. |
| Cursors.SeekMeans | WanderlustApp/Pods/leveldb-library/include/leveldb/iterator.h:45-48 | A seek splits the list into the entries before the key and those at or after it. |
| Cursors.ShowsForward | WanderlustApp/Pods/leveldb-library/include/leveldb/iterator.h:35-53 | Going forward from the first entry shows all entries of the list in order, and then none. |
| Cursors.ShowsBackward | WanderlustApp/Pods/leveldb-library/include/leveldb/iterator.h:35-58 | Going backward from the last entry shows all entries in the opposite order, and then none. |
| Merging.MergingIterator.Run | WanderlustApp/Pods/leveldb-library/table/merger.cc:31-176 | Any sequence of calls with any changes of direction shows what a cursor over the sorted merge would. |
| Merging.MergingIterator.Next | WanderlustApp/Pods/leveldb-library/table/merger.cc:55-79 | One step of the merge, also after a step back. |
| Merging.MergingIterator.Prev | WanderlustApp/Pods/leveldb-library/table/merger.cc:81-108 | One step back in the merge, also after a step forward. |
| Merging.MergingIterator.FindSmallest | WanderlustApp/Pods/leveldb-library/table/merger.cc:148-161 | If all children stand at or after a position of the merge, the smallest of them is the entry there. |
| Merging.MergingIterator.FindLargest | WanderlustApp/Pods/leveldb-library/table/merger.cc:163-176 | The mirror image. |
| TwoLevel.TwoLevelIterator.Run | WanderlustApp/Pods/leveldb-library/table/two_level_iterator.cc:82-161 | Any sequence of calls shows what a cursor over the concatenated blocks would; blocks may be empty. |
| TwoLevel.TwoLevelIterator.SkipEmptyDataBlocksForward | WanderlustApp/Pods/leveldb-library/table/two_level_iterator.cc:115-126 | Terminates at the first entry at or after the place in the concatenation. |
| TwoLevel.TwoLevelIterator.SkipEmptyDataBlocksBackward | WanderlustApp/Pods/leveldb-library/table/two_level_iterator.cc:128-139 | Terminates at the last entry before the place. |
| TwoLevel.SeekSplits | WanderlustApp/Pods/leveldb-library/table/two_level_iterator.cc:82-87 | Seeking the index and then one block seeks the concatenation. |
| DBIterator.DBIter.Run | WanderlustApp/Pods/leveldb-library/db/db_iter.cc:141-303 | Over the merging iterator, any sequence of calls with any changes of direction shows what a cursor over the map that is visible at the sequence number would. |
| DBIterator.ViewIsReads | WanderlustApp/Pods/leveldb-library/db/db_iter.cc:168-198 | That map holds a user key with a value just when a read of the key at the sequence number finds that value. |
| DBIterator.ViewIncreases | WanderlustApp/Pods/leveldb-library/db/db_iter.cc:168-198 | It lists user keys in strictly increasing order. |
| DBIterator.DBIter.FindNextUserEntry | WanderlustApp/Pods/leveldb-library/db/db_iter.cc:168-198 | Stops at the first shown entry past the key to skip, or at the end. |
| DBIterator.DBIter.FindPrevUserEntry | WanderlustApp/Pods/leveldb-library/db/db_iter.cc:227-267 | Stops at the last shown entry before the place, or at the beginning. |
| DBIterator.DBIter.Next | WanderlustApp/Pods/leveldb-library/db/db_iter.cc:141-166 | The next user key of the map. |
| DBIterator.DBIter.Prev | WanderlustApp/Pods/leveldb-library/db/db_iter.cc:200-225 | The previous user key of the map. |
| DBIterator.DBIter.Seek | WanderlustApp/Pods/leveldb-library/db/db_iter.cc:269-281 | The first user key of the map at or after the target. |
| EngineIterators.ShowsReads | WanderlustApp/Pods/leveldb-library/db/db_impl.cc:1062-1087 | An iterator over the merge of all memtables, level-0 tables and deeper levels of a database in order holds a user key and a value just when a read of that key at its sequence number finds that value. |
| EngineIterators.SnapshotIteratorsAgree | WanderlustApp/Pods/leveldb-library/db/db_impl.cc:1147-1157 | Iterators opened at a snapshot at any two moments of a run show the same keys and values in the same order, however the database was flushed and compacted in between. |
| EngineIterators.LevelIsIndexed | WanderlustApp/Pods/leveldb-library/db/version_set.cc:179-228 | A sorted level with the largest keys of its files as index is what a two-level iterator reads as one list. |
| EngineIterators.AddIterators | WanderlustApp/Pods/leveldb-library/db/version_set.cc:230-246 | One child for each level-0 file, and one for each deeper level that is not empty. |
| LogTheorem.CrashPrefix | WanderlustApp/Pods/leveldb-library/db/log_reader.cc:56-271 | Reading any byte prefix of a log gives exactly the records that are complete in it, with no report. |
| LogTheorem.LogRoundTrip | WanderlustApp/Pods/leveldb-library/db/log_writer.cc:34-108 | Every list of records reads back as it was written, with no report, whatever its alignment with blocks. |
| LogTheorem.ReopenedContinues | WanderlustApp/Pods/leveldb-library/db/log_writer.cc:27-30 | A writer that is opened at the end of whole records continues them as if the log had never been closed. |
| LogReopening.ReopenedReadsIff | WanderlustApp/Pods/leveldb-library/db/db_impl.cc:457-477 | For any file, records appended by a writer opened at its end are all read back behind those the file held if and only if it has no stored end of file in it and ends with a physical record, inside a trailer, or where no header fits; then the number of reports is exact, and otherwise fewer records are read. |
| LogReopening.ReopenedCleanIff | WanderlustApp/Pods/leveldb-library/db/version_set.cc:887-933 | A file that reads without a report still does so, with all appended records, if and only if moreover nothing is left over of an unfinished record, and what is broken is only a blank part of a header where no further header fits. |
| LogCrashes.ReopenedAfterCrash | WanderlustApp/Pods/leveldb-library/db/db_impl.cc:457-477 | For a log that a crash cut anywhere: that is so if and only if the cut is not strictly inside a physical record with room for a header behind it in its block; unless it is, there is a report exactly if fragments of an incomplete record are left. |
| LogCrashes.ReopenedCleanAfterCrash | WanderlustApp/Pods/leveldb-library/db/version_set.cc:1013-1042 | For a file that a crash cut anywhere and a writer continued: that is so if and only if the cut leaves nothing of an unfinished record but blank bytes of its header where no further header fits. |
| LogCrashes.LeftOverIsReported | WanderlustApp/Pods/leveldb-library/db/version_set.cc:887-933 | Any record that does not fit into the first block, cut exactly at its end: the file is not torn, all appended records are read back, and there is one report. |
| LogReopening.ContinuedPrefix | WanderlustApp/Pods/leveldb-library/db/log_writer.cc:27-30 | A second crash of any file that was continued in order leaves the old records and those appended ones that are complete; without a new report if the file ended cleanly. |
| LogCrashes.AppendedIsLost | WanderlustApp/Pods/leveldb-library/db/db_impl.cc:457-477 | A log cut inside its record and continued with another one reads back without any record, for every checksum that tells the spliced payload from the original. |
| LogCrashes.SomeChecksumLoses | WanderlustApp/Pods/leveldb-library/db/db_impl.cc:457-477 | There is a sound checksum with which that log loses its records. |
| LogLives.PromisedIsRead | WanderlustApp/Pods/leveldb-library/db/db_impl.cc:1209-1224 | Over any number of appends, syncs, crashes at any byte behind the synced ones and continuations in order: reading the bytes gives exactly the records in the log, all promised ones first, and no report if the log is only continued behind clean ends. |
| LogBreaks.Longer | WanderlustApp/Pods/leveldb-library/db/log_reader.cc:189-271 | Up to the place where reading breaks off, or the old end, a longer file is read in the same way. |
| LogDamage.BlockIsLost | WanderlustApp/Pods/leveldb-library/db/log_reader.cc:56-271 | Any bytes in a block of a log, as long as the reader rejects what it finds at the beginning of the block: exactly the records that are complete before the block and those that begin behind it are read. |
| LogDamage.PhysicalMeans | WanderlustApp/Pods/leveldb-library/db/log_reader.cc:189-271 | What the bytes at a position are taken for: a length that does not fit, preallocated zeros, a wrong checksum, or a fragment of some type; after anything but a fragment the rest of the block is dropped. |
| LogDamage.FragmentMeans | WanderlustApp/Pods/leveldb-library/db/log_reader.cc:84-171 | What a fragment of each stored type completes, leaves and complains of, among them types 5 and 6, which are taken for the end of the file and for a bad record. |
| LogTheorem.RecordBack | WanderlustApp/Pods/leveldb-library/db/log_reader.cc:56-174 | The fragments of one record are put together again, from any offset in a block. |
| LogTheorem.RecordCut | WanderlustApp/Pods/leveldb-library/db/log_reader.cc:189-271 | A file cut off inside a record ends without a record or a report. |
| LogWriting.Writer.AddRecord | WanderlustApp/Pods/leveldb-library/db/log_writer.cc:34-80 | The file grows by the fragments of the record with trailers between them, and the block offset follows. |
| LogWriting.Writer.EmitPhysicalRecord | WanderlustApp/Pods/leveldb-library/db/log_writer.cc:82-108 | One header and its payload. |
| LogReading.Reader.ReadRecord | WanderlustApp/Pods/leveldb-library/db/log_reader.cc:56-174 | The next logical record of the physical records ahead, with one report for each fragment that does not belong. |
| LogReading.Reader.ReadPhysicalRecord | WanderlustApp/Pods/leveldb-library/db/log_reader.cc:189-271 | Block by block, the reader takes the physical records of the whole file in order. |
| LogReading.Reader.ReadAll | WanderlustApp/Pods/leveldb-library/db/db_impl.cc:371-440 | Recovery's loop gives all logical records and the number of reports. |
| LogFormat.UnmaskInvertsMask | WanderlustApp/Pods/leveldb-library/util/crc32c.h:29-38 | Unmasking undoes masking for every 32-bit checksum. |
| LogFormat.MaskedIsSound | WanderlustApp/Pods/leveldb-library/util/crc32c.h:29-38 | A masked and stored checksum is accepted when it is read back, for any 32-bit checksum function. |
| LogFormat.MaskedIsExact | WanderlustApp/Pods/leveldb-library/util/crc32c.h:29-38 | Of all four-byte stamps the masked one is the only one that is accepted. |
| Formats.LogRecordFormat | WanderlustApp/Pods/leveldb-library/db/log_writer.cc:34-108 | The bytes of a record: up to six zeros where no header fits, and fragments of type 1, or 2, 3 and 4, each of checksum, two-byte length, type and payload; every fragment but the last one fills its block. |
| Formats.MaskFormat | WanderlustApp/Pods/leveldb-library/util/crc32c.h:20-35 | The stored checksum is rotated by 15 bits to the right with 0xa282ead8 added. |
| Formats.StampFormat | WanderlustApp/Pods/leveldb-library/db/log_writer.cc:94-104 | With the masked checksum the stamp of a fragment is that checksum in four bytes, the lowest one first. |
| Durability.NothingPromisedIsLost | WanderlustApp/Pods/leveldb-library/db/db_impl.cc:223-278 | In every state of every run with crashes, interrupted recoveries and recoveries, in which torn logs and frayed manifests are not continued: exactly the writes that exist are accounted for by the version or in a log that recovery reads, every synced write among them; what the version accounts for without a table a compaction has dropped completely, or it is an empty batch; every table of a version in use is on disk, and what is appended to log and manifest will be read. |
| Durability.DroppedOnlyByCompactions | WanderlustApp/Pods/leveldb-library/db/db_impl.cc:860-1005 | A write with operations is without a table only after the commit of a compaction whose outputs have nothing of it. |
| DurableBytes.RunRefines | WanderlustApp/Pods/leveldb-library/db/db_impl.cc:371-489 | Runs in which logs and the manifest are bytes, appended to, cut by crashes and continued, and in which the flags of those files are read off their bytes, are runs of that machine. |
| DurableBytes.PromisedIsInBytes | WanderlustApp/Pods/leveldb-library/db/db_impl.cc:371-489 | In every state of every such run, reading the bytes of the logs from the log number on gives every promised write that the version does not account for, and reading the manifest makes no report. |
| DurableBytes.BatchRecord | WanderlustApp/Pods/leveldb-library/db/db_impl.cc:435-440 | The header of a batch gives the interval of sequence numbers that its operations take. |
| Durability.ReplayIsInOrder | WanderlustApp/Pods/leveldb-library/db/db_impl.cc:338-364 | The records that recovery replays, log after log by number, have increasing sequence numbers. |
| Recovery.Recoverer.RecoverLogFile | WanderlustApp/Pods/leveldb-library/db/db_impl.cc:371-489 | The loop over one log: records enter a memtable that becomes a table when it is full or the log ends, unless it has no entries, or the log is the last one and stays in use; the greatest sequence number is kept. |
| Recovery.Recoverer.Recover | WanderlustApp/Pods/leveldb-library/db/db_impl.cc:312-368 | A missing table is noticed unless a file of another kind has its number; the logs from the log number on are replayed in order of their numbers, each number is marked as used, and the last sequence is the greater of the saved and the replayed one. |
| Recovery.Recoverer.Open | WanderlustApp/Pods/leveldb-library/db/db_impl.cc:1474-1515 | A new log is created unless one stays in use, and the manifest is written if there is anything new. |
| Recovery.LogsReplayed | WanderlustApp/Pods/leveldb-library/db/db_impl.cc:338-368 | After any number of logs: new tables, under fresh numbers, hold exactly their records but for empty batches, and those of a log that stays in use are in the memtable; the sequence number is the greatest replayed. |
| Recovery.OpenedCounts | WanderlustApp/Pods/leveldb-library/db/db_impl.cc:280-485 | On a disk in order, the numbers that a recovery hands out are above all logs and tables of the version, the new tables account for all logs but the last one if that stays in use, with nothing but empty batches left out, and the sequence number is exactly the greatest there is. |
| Recovery.OpenedIs | WanderlustApp/Pods/leveldb-library/db/db_impl.cc:371-489 | The last log stays in use exactly if logs may be reused and the memtable gets full in none of its records, and otherwise there is a new log; the manifest is written exactly if its file is a new one or records went into tables. |
| Durability.Open | WanderlustApp/Pods/leveldb-library/db/db_impl.cc:1474-1515 | Opening a database performs the recovery step of the runs, and finds no table missing, if the manifest that it continues is not frayed and the log not torn. |
| Durability.MayBeInterrupted | WanderlustApp/Pods/leveldb-library/db/db_impl.cc:338-364 | Whatever tables a recovery has written when it is interrupted, leaving them behind is a step of the runs. |
| RecoveredReads.RecoveredReadsAreRight | WanderlustApp/Pods/leveldb-library/db/db_impl.cc:280-485 | In every state of such a run, whatever clean compactions have dropped, all entries of their inputs included: a read of any key over the tables and the logs that recovery reads gives the same latest value as all the writes that exist. |
| RecoveredReads.MergeKeepsContents | WanderlustApp/Pods/leveldb-library/db/db_impl.cc:860-963 | A compaction whose outputs hold what the drop rules keep, and below whose dropped markers the other tables have no value, keeps that. |
| DurabilitySteps.CollectionKeepsInv | WanderlustApp/Pods/leveldb-library/db/db_impl.cc:223-278 | Deleting obsolete files removes no table of a live version or of a pending output, and nothing that recovery reads. |
| Durability.DeleteObsoleteFiles | WanderlustApp/Pods/leveldb-library/db/db_impl.cc:223-278 | Over a directory listing: the logs below the log number and the tables that are not live go, everything else stays. |
| DurabilitySteps.RecoverKeepsInv | WanderlustApp/Pods/leveldb-library/db/db_impl.cc:280-485 | Recovery, as computed by replaying the logs, brings back exactly what was on disk and keeps all promises, and continues at exactly the greatest sequence number that was saved or replayed. |
| DurabilitySteps.FlushCommitKeepsInv | WanderlustApp/Pods/leveldb-library/db/db_impl.cc:535-566 | The logs given up when a flush is committed, with its table or without one, held nothing but the flushed memtable. |
| DurabilitySteps.SwitchKeepsInv | WanderlustApp/Pods/leveldb-library/db/db_impl.cc:1336-1366 | A new log and memtable keep every promise. |
| DurabilitySteps.CrashKeepsInv | WanderlustApp/Pods/leveldb-library/db/db_impl.cc:280-369 | A crash that cuts any unsynced part off the logs, inside a record or not, loses no synced write. |
| DurabilitySteps.CompactionCommitKeepsInv | WanderlustApp/Pods/leveldb-library/db/db_impl.cc:860-876 | Replacing inputs by outputs, or by nothing, keeps every promise: records of which the outputs have nothing stay accounted for. |
| WriteBatches.OpsRoundTrip | WanderlustApp/Pods/leveldb-library/db/write_batch.cc:42-109 | Iterating over appended operations gives them back in order. |
| WriteBatches.OpsBeforeMalformed | WanderlustApp/Pods/leveldb-library/db/write_batch.cc:42-80 | Behind any operations that were appended, a malformed one ends the iteration with what is wrong with it, and all before it are found. |
| WriteBatches.WriteBatch.Put | WanderlustApp/Pods/leveldb-library/db/write_batch.cc:98-103 | The batch holds one more operation and counts it. |
| WriteBatches.WriteBatch.Delete | WanderlustApp/Pods/leveldb-library/db/write_batch.cc:105-109 | The same for a deletion. |
| WriteBatches.WriteBatch.Append | WanderlustApp/Pods/leveldb-library/db/write_batch.cc:144-148 | The batch holds both lists of operations under the summed count and its own sequence number, also if a batch is appended to itself. |
| WriteBatches.WriteBatch.Iterate | WanderlustApp/Pods/leveldb-library/db/write_batch.cc:42-80 | Operations before a malformed one are handled, and a wrong count is found at the end. |
| WriteBatches.WriteBatch.IterateBuilt | WanderlustApp/Pods/leveldb-library/db/write_batch.cc:42-80 | A batch built by the operations above hands them over in order, without an error. |
| WriteBatches.WriteBatch.SetSequence | WanderlustApp/Pods/leveldb-library/db/write_batch.cc:94-96 | A new sequence number leaves the operations as they are. |
| WriteBatches.EntriesForJoin | WanderlustApp/Pods/leveldb-library/db/write_batch.cc:116-137 | Joined batches take adjacent intervals of sequence numbers. |
| Formats.BatchFormat | WanderlustApp/Pods/leveldb-library/db/write_batch.cc:82-109 | A batch is its sequence number in eight bytes, its count in four, and for every operation a byte, 1 or 0, and key and value behind their lengths. |
| Formats.OpErrors | WanderlustApp/Pods/leveldb-library/db/write_batch.cc:42-80 | What is said of an operation that cannot be read depends on its first byte, and other bytes than 0 and 1 are refused. |
| GroupCommit.BuildBatchGroup | WanderlustApp/Pods/leveldb-library/db/db_impl.cc:1260-1304 | The group ends before the first sync writer that may not ride or the first batch that does not fit, and nowhere else: within 128 KiB more than a small first batch and otherwise within a megabyte; its batch is all their operations in order. |
| GroupCommit.GroupStaysSmall | WanderlustApp/Pods/leveldb-library/db/db_impl.cc:1268-1287 | A group with more than one batch stays within that limit, and no sync writer is in the group of one that does not sync. |
| GroupCommit.InvariantHolds | WanderlustApp/Pods/leveldb-library/db/db_impl.cc:1185-1258 | Over all interleavings: groups and queue make up the arrivals in order, every group that wrote rode together, and the numbers given out are those of the written batches. |
| GroupCommit.MemberInterval | WanderlustApp/Pods/leveldb-library/db/db_impl.cc:1209-1222 | The batch of each writer gets its own consecutive numbers inside the interval of the group. |
| GroupCommit.IntervalsFollowArrival | WanderlustApp/Pods/leveldb-library/db/db_impl.cc:1185-1258 | Of two written writers the later arrival has the later interval, so intervals are disjoint. |
| GroupCommit.OneGroupEach | WanderlustApp/Pods/leveldb-library/db/db_impl.cc:1236-1250 | No writer is in two groups, or twice in one. |
| GroupCommit.SyncLeads | WanderlustApp/Pods/leveldb-library/db/db_impl.cc:1273-1278 | A sync writer rides only with a leader that syncs. |
| GroupCommit.WriteQueue.Enqueue | WanderlustApp/Pods/leveldb-library/db/db_impl.cc:1185-1203 | An arrival step; nobody is told anything. |
| GroupCommit.WriteQueue.BeginWrite | WanderlustApp/Pods/leveldb-library/db/db_impl.cc:1205-1222 | The front writer fixes its riders and takes the next sequence number while others may still arrive. |
| GroupCommit.WriteQueue.FinishWrite | WanderlustApp/Pods/leveldb-library/db/db_impl.cc:1223-1258 | A finish step; afterwards exactly the members of all groups are told, each the result of its own group. |
| GroupCommit.WriteQueue.LeaveAlone | WanderlustApp/Pods/leveldb-library/db/db_impl.cc:1200-1250 | A front writer without a batch, or for which no room could be made, leaves alone; it is told its own result and no numbers are taken. |
| SkipList.WriterKeepsInv | WanderlustApp/Pods/leveldb-library/db/skiplist.h:337-368 | After each single pointer store of an insertion every level is a strictly sorted sublist of the level below. |
| SkipList.SearchIsSafe | WanderlustApp/Pods/leveldb-library/db/skiplist.h:261-281 | A search interleaved with any stores stays right, and the number of its steps is bounded by what was ahead of it and what was added since. |
| SkipList.SearchFindsInserted | WanderlustApp/Pods/leveldb-library/db/skiplist.h:261-281 | A search that ends finds its key if the key was inserted before it began. |
| SkipList.LookIsRight | WanderlustApp/Pods/leveldb-library/db/skiplist.h:261-281 | A search that ends has the first node at or after the target among all linked at that moment. |
| SkipList.List.FindGreaterOrEqual | WanderlustApp/Pods/leveldb-library/db/skiplist.h:261-281 | For any heights the result is that of a linear search, with the node before it on every level. |
| SkipList.List.Insert | WanderlustApp/Pods/leveldb-library/db/skiplist.h:337-368 | The keys afterwards are the keys before with the new one in its place, for any height. |
| SkipList.List.FindLessThan | WanderlustApp/Pods/leveldb-library/db/skiplist.h:284-302 | The last node before the key. |
| SkipList.List.FindLast | WanderlustApp/Pods/leveldb-library/db/skiplist.h:305-322 | The last node. |
| SkipList.List.Contains | WanderlustApp/Pods/leveldb-library/db/skiplist.h:371-379 | Whether the key is among the keys. |
| SkipList.List.Prev | WanderlustApp/Pods/leveldb-library/db/skiplist.h:213-221 | The node just before, found by key. |
| HandleTables.HandleTable.Lookup | WanderlustApp/Pods/leveldb-library/util/cache.cc:74-76 | The table is a map from tags to handles. |
| HandleTables.HandleTable.Insert | WanderlustApp/Pods/leveldb-library/util/cache.cc:78-92 | Map update; the replaced handle is returned, and the table grows exactly when it holds more handles than buckets. |
| HandleTables.HandleTable.Remove | WanderlustApp/Pods/leveldb-library/util/cache.cc:94-102 | Map removal. |
| HandleTables.HandleTable.Resize | WanderlustApp/Pods/leveldb-library/util/cache.cc:122-147 | The same map in the least power of two of buckets, from 4 on, that is enough for the handles. |
| HandleTables.MaskIsRemainderIff | WanderlustApp/Pods/leveldb-library/util/cache.cc:114-120 | Masking a hash with the length minus one is the remainder for every hash if and only if the length is a power of two. |
| LRUCaches.InvariantHolds | WanderlustApp/Pods/leveldb-library/util/cache.cc:197-333 | After every sequence of calls: the table holds exactly the cached handles, each on one list by its reference count, the usage is the sum of their charges, deleters ran once and only for handles without references, and what a client holds was not deleted. |
| LRUCaches.CallIs | WanderlustApp/Pods/leveldb-library/util/cache.cc:252-333 | What each call does to the cache as a map: an insertion adds one entry and may cost idle ones only, a lookup hands out the entry of the tag and changes none, a release takes one reference back, an erasure removes that entry only, and pruning exactly the idle ones; tags, values and charges never change. |
| LRUCaches.EvictIs | WanderlustApp/Pods/leveldb-library/util/cache.cc:293-300 | Eviction takes handles from the front of the idle list, as few as suffice; afterwards usage is within the capacity or nothing is idle. |
| LRUOrder.OldestGoesFirst | WanderlustApp/Pods/leveldb-library/util/cache.cc:227-300 | Over every sequence of calls: of two handles that are idle, and one of them for longer, an insertion that evicts the younger one has evicted the older one before. |
| LRUOrder.OlderIsBefore | WanderlustApp/Pods/leveldb-library/util/cache.cc:235-250 | Over every sequence of calls the idle list is in the order in which handles became idle. |
| LRUCaches.LookupAfterInsert | WanderlustApp/Pods/leveldb-library/util/cache.cc:252-303 | A lookup right after an insertion finds the new handle. |
| LRUCaches.ReplaceIs | WanderlustApp/Pods/leveldb-library/util/cache.cc:266-303 | Adding first and dropping the old handle of the tag afterwards comes to replacing it. |
| LRUCaches.LRUCache.Insert | WanderlustApp/Pods/leveldb-library/util/cache.cc:266-303 | The state transition of an insertion with eviction; usage is within the capacity or nothing is idle. |
| LRUCaches.LRUCache.Lookup | WanderlustApp/Pods/leveldb-library/util/cache.cc:252-259 | The handle of the tag with one reference more, moved out of the idle list. |
| LRUCaches.LRUCache.Release | WanderlustApp/Pods/leveldb-library/util/cache.cc:227-264 | One reference less; the last one runs the deleter, the last but one of a cached handle makes it idle, behind all that are idle already. |
| LRUCaches.LRUCache.Erase | WanderlustApp/Pods/leveldb-library/util/cache.cc:307-321 | The tag is gone from the table; its handle lives on while clients hold it. |
| LRUCaches.LRUCache.Prune | WanderlustApp/Pods/leveldb-library/util/cache.cc:323-333 | All idle handles are dropped. |
| BlockIteration.BlockIter.Run | WanderlustApp/Pods/leveldb-library/table/block.cc:76-251 | Over a finished block, any sequence of seeks and steps shows what a cursor over the added entries would. |
| BlockIteration.BlockIter.Seek | WanderlustApp/Pods/leveldb-library/table/block.cc:163-201 | Binary search over the restart points and a scan land on the first key at or after the target. |
| BlockIteration.BlockIter.Prev | WanderlustApp/Pods/leveldb-library/table/block.cc:142-161 | The entry before: the inverse of a step forward. |
| BlockIteration.BlockIter.ParseNextKey | WanderlustApp/Pods/leveldb-library/table/block.cc:224-250 | The next entry with its whole key, or the end. |
| BlockIteration.EntryAt | WanderlustApp/Pods/leveldb-library/table/block.cc:54-74 | Decoding at the offset of an entry gives its lengths, and its parts are where they say. |
| BlockBuilding.BlockBuilder.Add | WanderlustApp/Pods/leveldb-library/table/block_builder.cc:72-106 | The buffer is that of the longer list of entries. |
| BlockBuilding.BlockBuilder.Finish | WanderlustApp/Pods/leveldb-library/table/block_builder.cc:62-70 | The finished block: entries, restart array, count. |
| BlockFormat.BuildLaysOut | WanderlustApp/Pods/leveldb-library/table/block_builder.cc:62-106 | For any entries and any restart interval of at least 1 the block is laid out as the iterator expects. |
| BlockFormat.EntryBack | WanderlustApp/Pods/leveldb-library/table/block.cc:54-74 | An encoded entry decodes to its lengths, on the fast path and on the slow one. |
| Formats.BlockEntryFormat | WanderlustApp/Pods/leveldb-library/table/block_builder.cc:72-106 | Every entry is three varints, the rest of its key and its value, and shares with the key before it nothing at a restart point and elsewhere as much as the two have in common. |
| Formats.RestartsFormat | WanderlustApp/Pods/leveldb-library/table/block_builder.cc:72-90 | The restart points are the entries 0, k, 2k and so on, for a restart interval of k. |
| Formats.FinishedFormat | WanderlustApp/Pods/leveldb-library/table/block_builder.cc:62-70 | Behind the entries come the offsets of the restart points and how many these are, four bytes each. |
| Tables.InternalGet | WanderlustApp/Pods/leveldb-library/table/table.cc:216-244 | The first entry at or after the key if it has the key's user key, and otherwise nothing with that user key, in spite of shortened index keys and filters. |
| Tables.AnswerIsTableGet | WanderlustApp/Pods/leveldb-library/db/version_set.cc:263-275 | What is kept of such an answer is the seek in one table that the read path of the engine rests on. |
| Tables.TableBuilder.Add | WanderlustApp/Pods/leveldb-library/table/table_builder.cc:94-123 | The table holds one more entry, the delayed index key separates the blocks, and the block is closed exactly when it has reached the block size. |
| Tables.TableBuilder.Flush | WanderlustApp/Pods/leveldb-library/table/table_builder.cc:125-139 | The open block becomes the last block of the table, with five bytes behind it, unless it is empty; an index key is due. |
| Tables.TableBuilder.Finish | WanderlustApp/Pods/leveldb-library/table/table_builder.cc:198-253 | The finished table has separating index keys and filters that match all its keys, and holds what was added. |
| TableSearch.LookupIs | WanderlustApp/Pods/leveldb-library/table/table.cc:216-244 | The block that the index names holds the first entry at or after the key, unless that entry has another user key. |
| Comparator.RankKeepsOrder | WanderlustApp/Pods/leveldb-library/util/comparator.cc:25-27 | Byte strings in bytewise order embed into the order of user keys. |
| Comparator.FindShortestSeparator | WanderlustApp/Pods/leveldb-library/util/comparator.cc:29-50 | The first byte in which start and limit differ is raised by one and the rest is cut off, exactly if it stays below the limit's byte; the result is not before the start, and before the limit if the start is. |
| Comparator.FindShortSuccessor | WanderlustApp/Pods/leveldb-library/util/comparator.cc:52-61 | The first byte below 255 is raised by one and the rest is cut off; only a key without one is left as it is. |
| Comparator.FindShortestInternalSeparator | WanderlustApp/Pods/leveldb-library/db/dbformat.cc:69-86 | Between two internal keys; shortened exactly if the user key can be, and then with the largest sequence number. |
| Comparator.FindShortInternalSuccessor | WanderlustApp/Pods/leveldb-library/db/dbformat.cc:88-101 | The key itself, or one with a larger and shorter user key whenever there is one to be had by raising a byte, and the largest sequence number. |
| Bloom.CreateFilter | WanderlustApp/Pods/leveldb-library/util/bloom.cc:28-54 | A bit is set if and only if one of the keys probes it, so every key of the list matches; the number of bits is the least multiple of 8 that is enough, and at least 64. |
| Bloom.KeyMayMatch | WanderlustApp/Pods/leveldb-library/util/bloom.cc:56-80 | Yes exactly if all probed bits are set, or the number of probes is reserved. |
| Bloom.ProbeIs | WanderlustApp/Pods/leveldb-library/util/bloom.cc:41-52 | The probes of a key are its hash plus multiples of the hash rotated by 17 bits to the right, in 32 bits. |
| FilterBlocks.FilterBlockBuilder.StartBlock | WanderlustApp/Pods/leveldb-library/table/filter_block.cc:21-27 | Filters are made up to the one the block falls under, and nothing added is lost. |
| FilterBlocks.FilterBlockBuilder.Finish | WanderlustApp/Pods/leveldb-library/table/filter_block.cc:35-49 | There is one filter for every 2 KiB of the file, with exactly the bits that the keys of the blocks beginning there probe; so every key matches the filter of the block it was added under. |
| FilterBlocks.ReaderKeyMayMatch | WanderlustApp/Pods/leveldb-library/table/filter_block.cc:90-104 | The answer of the filter that the offset falls under; without one, yes. |
| Varints.VarintRoundTrip | WanderlustApp/Pods/leveldb-library/util/coding.cc:47-157 | A varint of at most the given number of bytes is read back, whatever follows it. |
| Varints.VarintMeans | WanderlustApp/Pods/leveldb-library/util/coding.cc:47-96 | The bytes of a varint are worth the number in groups of seven bits, all but the last one are marked, and none is needless. |
| Varints.DecodeVarintMeans | WanderlustApp/Pods/leveldb-library/util/coding.cc:112-157 | For any bytes: the bytes up to the first unmarked one are read, if there are not too many of them, as what they are worth. |
| Varints.GetVarint32Means | WanderlustApp/Pods/leveldb-library/util/coding.cc:112-140 | Five bytes at most are read for 32 bits, and higher bits are lost. |
| Varints.GetVarint64Means | WanderlustApp/Pods/leveldb-library/util/coding.cc:142-157 | Ten bytes at most are read for 64 bits, and higher bits are lost. |
| Varints.LengthPrefixedMeans | WanderlustApp/Pods/leveldb-library/util/coding.cc:171-190 | For any bytes: a string is read exactly if its length is and there are so many bytes behind it. |
| Varints.PutVarint | WanderlustApp/Pods/leveldb-library/util/coding.cc:81-96 | The encoding loop writes the recursive encoding. |
| Varints.GetVarintPtr | WanderlustApp/Pods/leveldb-library/util/coding.cc:112-157 | The decoding loop reads what the recursive decoding does, or fails with it. |
| Varints.PrefixedRoundTrip | WanderlustApp/Pods/leveldb-library/util/coding.cc:98-190 | A length-prefixed string is read back. |
| Coding.FixedRoundTrip | WanderlustApp/Pods/leveldb-library/util/coding.cc:9-33 | A fixed-width number is read back. |
| Coding.FixedMeans | WanderlustApp/Pods/leveldb-library/util/coding.cc:9-33 | The bytes of a fixed-width number are worth it with the lowest one first. |
| PbRoundTrip.RoundTrip | WanderlustApp/Pods/nanopb/pb_encode.c:528-550 | Every proper message of a proper descriptor is encoded, and decoding that into a default struct gives it back: required, optional, singular, repeated, packed, union and nested fields. |
| PbRoundTrip.AnyOrder | WanderlustApp/Pods/nanopb/pb_decode.c:925-1073 | Any selection of its fields in any order decodes if and only if no tracked required field is missing; fields that did not come keep their defaults. |
| PbVersions.AcrossVersions | WanderlustApp/Pods/nanopb/pb_decode.c:925-1073 | Schema evolution: for any two versions of a descriptor, what was written under one is read under the other, onto any proper struct, just as it should be: unknown fields are passed over, fields that did not come stay as they were, messages are merged at every depth, arrays are appended, and a member of a union displaces the others; reading fails if and only if a tracked required field is unknown to the writer or an array has no room. |
| PbVersions.PartIsRead | WanderlustApp/Pods/nanopb/pb_decode.c:970-985 | A reader that knows only some of the fields of a message finds in them exactly what was written, whatever the types of the others are. |
| PbVersions.UnknownIsSkipped | WanderlustApp/Pods/nanopb/pb_decode.c:321-331 | For any writer: a record of an unknown number is passed over if its payload is a varint, eight bytes, a length with so many bytes, or four bytes, for wire types 0, 1, 2 and 5. |
| PbVersions.UnknownIsRefused | WanderlustApp/Pods/nanopb/pb_decode.c:321-331 | Other wire types, and records that are cut off, are refused. |
| PbVersions.ZeroKeyEnds | WanderlustApp/Pods/nanopb/pb_decode.c:298-319 | A zero key ends a message. |
| PbVersions.UnpackedIsAppended | WanderlustApp/Pods/nanopb/pb_decode.c:422-464 | An array of numbers may also come element by element, as long as there is room. |
| PbVersions.WireTypeIsIgnored | WanderlustApp/Pods/nanopb/pb_decode.c:406-421 | A field that is no array is read by its own type, whatever its key says. |
| PbVersions.BoolMeans | WanderlustApp/Pods/nanopb/pb_decode.c:1318-1327 | Any number but zero is read as true. |
| PbVersions.FixedMeansNumber | WanderlustApp/Pods/nanopb/pb_decode.c:1283-1316 | A fixed-width field is read from four or eight bytes as what they are worth with the lowest one first, and refused if there are fewer. |
| PbVersions.DataMeans | WanderlustApp/Pods/nanopb/pb_decode.c:1431-1548 | Which bytes and texts behind a length are accepted, and as what: up to the size of the field, with room for the terminator of a text, and of a fixed size or none. |
| PbRoundTrip.SeenIffHasRequired | WanderlustApp/Pods/nanopb/pb_decode.c:1029-1070 | All tracked bits are set exactly when all tracked required fields came. |
| PbRoundTrip.RequiredBeforeIs | WanderlustApp/Pods/nanopb/pb_common.c:17-60 | The index of a required field is the number of required fields before it. |
| PbRoundTrip.ItemsBack | WanderlustApp/Pods/nanopb/pb_decode.c:453-464 | An unpacked array is read back record by record. |
| PbRoundTrip.PackedBack | WanderlustApp/Pods/nanopb/pb_decode.c:422-452 | A packed array is read back. |
| PbRoundTrip.ValueArrived | WanderlustApp/Pods/nanopb/pb_decode.c:466-475 | Storing a member of a union empties the others and nothing else. |
| PbSafety.DecodeKeepsMessageOk | WanderlustApp/Pods/nanopb/pb_decode.c:406-480 | Whatever the input: numbers stay in range, arrays and strings within their storage, and a union has one member at most. |
| PbSafety.DecodedIsStable | WanderlustApp/Pods/nanopb/pb_decode.c:1075-1087 | Whatever was decoded can be encoded, and that decodes to the same message. |
| PbSafety.MissingRequiredIsRejected | WanderlustApp/Pods/nanopb/pb_decode.c:1029-1070 | Any input in which no record is of some one of the first 64 required fields is rejected, whatever its payload bytes look like. |
| PbSafety.AcceptedIffRequiredRecords | WanderlustApp/Pods/nanopb/pb_decode.c:925-1073 | An input is accepted if and only if its records can be read and every tracked required field has one among them. |
| PbSchema.ZeroIsDefault | WanderlustApp/Pods/nanopb/pb_encode.c:240-337 | A value without a has-flag that is left out as zero equals its default, through nested messages. |
| PbFormats.MessageIs | WanderlustApp/Pods/nanopb/pb_encode.c:528-550 | What is written for a proper message is the message in the format of the Protocol Buffers encoding specification, which is written down without any function of the codec: keys of number and wire type, values, lengths and packed arrays, with what is absent or blank left out. |
| PbFormats.ScalarMeans | WanderlustApp/Pods/nanopb/pb_encode.c:769-913 | Value bytes are worth the number itself, modulo 2 to the 64th for plain integers, twice the number or twice its absolute value less one for signed ones, and the number with its lowest byte first for fixed ones; bytes and texts come behind their lengths. |
| PbFormats.ZeroIsBlank | WanderlustApp/Pods/nanopb/pb_encode.c:240-337 | A value without a has-flag is left out if and only if it is zero, empty, or a message of which nothing would be written. |
| PbFormats.IntegerMeans | WanderlustApp/Pods/nanopb/pb_decode.c:1329-1418 | For any varint from any writer: an integer field of any width is read exactly if the varint has at most ten bytes and stands for a number in the range of the field, and as that number. |
| PbFormats.Varint32Means | WanderlustApp/Pods/nanopb/pb_decode.c:187-247 | For any varint: up to five bytes are taken if the number fits 32 bits, and longer ones exactly if the further bytes add nothing but the sign of a negative number. |
| PbWire.Varint32Back | WanderlustApp/Pods/nanopb/pb_decode.c:187-247 | Every 32-bit number is read back from its varint. |
| PbWire.ScalarBack | WanderlustApp/Pods/nanopb/pb_decode.c:1318-1501 | Every scalar of every type and width is read back, whatever follows it; what its bytes mean is the subject of `PbFormats`. |
| PbWire.ZigZagBack | WanderlustApp/Pods/nanopb/pb_encode.c:630-639 | Zigzag encoding is inverted, for every width. |
| PbEncoding.EncodedSize | WanderlustApp/Pods/nanopb/pb_encode.c:567-577 | The sizing pass gives exactly the length of the encoding, and fails just when encoding is refused. |
| PbEncoding.OStream.WriteMessage | WanderlustApp/Pods/nanopb/pb_encode.c:528-550 | Writing succeeds exactly if the message can be encoded and fits, and then the stream has taken exactly its encoding. |
| PbEncoding.OStream.WriteSubmessage | WanderlustApp/Pods/nanopb/pb_encode.c:717-765 | The two passes agree: the length written first is that of the bytes that follow. |
| PbEncoding.OStream.WriteArray | WanderlustApp/Pods/nanopb/pb_encode.c:147-236 | An array is packed if its type allows it, and refused if it is too long. |
| PbEncoding.OStream.WriteSlot | WanderlustApp/Pods/nanopb/pb_encode.c:341-426 | What is absent or zero without a has-flag is not written. |
| PbEncoding.OStream.Write | WanderlustApp/Pods/nanopb/pb_encode.c:103-126 | Succeeds exactly if there is room; a stream that only sizes has room for everything. |
| PbEncoding.VarintBytes | WanderlustApp/Pods/nanopb/pb_encode.c:608-628 | The loop fills its buffer with the varint, in ten bytes at most. |
| PbDecoding.IStream.ReadMessage | WanderlustApp/Pods/nanopb/pb_decode.c:925-1073 | The loop over records succeeds exactly when the recursive reading of the bytes does, with the same message. |
| PbDecoding.IStream.ReadField | WanderlustApp/Pods/nanopb/pb_decode.c:406-480 | One field: success, new struct and bytes used are those of the recursive reading. |
| PbDecoding.IStream.ReadScalars | WanderlustApp/Pods/nanopb/pb_decode.c:432-450 | The loop over a packed array, with overflow refused. |
| PbDecoding.IStream.ReadVarint32 | WanderlustApp/Pods/nanopb/pb_decode.c:187-247 | The loop with its overflow and sign-extension rules. |
| PbDecoding.IStream.Skip | WanderlustApp/Pods/nanopb/pb_decode.c:321-331 | The stream goes on behind the payload that its wire type calls for, or refuses it; which bytes these are is the subject of `PbVersions.UnknownIsSkipped`. |
| PbDecoding.FieldIter.Find | WanderlustApp/Pods/nanopb/pb_common.c:78-95 | Going round from any field finds the field with the number, or comes back to where it was. |
| PbDecoding.FieldIter.CountRequired | WanderlustApp/Pods/nanopb/pb_decode.c:1034-1049 | The number of required fields, with the last one counted. |
| PbDecoding.FieldsSeen.Complete | WanderlustApp/Pods/nanopb/pb_decode.c:1051-1069 | The word by word comparison says whether every tracked required field was seen. |

## Left out

- The Swift sources, Firebase headers and generated tables: user interface, declarations and data without logic.
- Operating system calls, loggers, the C bindings, dump and repair tools: a file is a sequence of bytes, a directory a set of names.
- I/O errors and background errors beyond a group commit that fails: operations are modelled as far as they succeed.
- Corrupted internal keys and corrupted tables; the log reader with a non-zero initial offset and its resynchronization.
- The lookup tables of CRC32C, Snappy, hashing quality, false-positive rates, statistics, seek sampling and floating-point compaction scores: which level or file is due for compaction is an argument of `PickCompaction`.
- Memory order of C++ atomics weaker than one step at a time.
- Linked lists and buckets are sequences, and table contents are part of a file: pointers, arenas and the table cache are not modelled. `LRUCaches` models one shard; the choice of the shard by hash is not modelled.
- The memtable in `Lookup` and `DBImpl` is a sorted list of entries, and the snapshot list an ascending sequence: the length-prefixed buffers in the arena and the links are not modelled. `SkipList` has the list structure itself.
- Bits of Bloom filters are booleans.
- Throttling of writers in `MakeRoomForWrite` (delays and waiting): the model only switches memtables.
- `DurabilitySteps` treats a table as the set of writes it covers, and writing one record to the manifest as one step; `RecoveredReads` adds what the tables really hold. The levels of tables are the subject of `EngineSteps`. In `DurableBytes` the edits in the manifest are any bytes; that they decode to the version is the subject of `ManifestFiles`.
- A number of a previous log, which only databases of older versions have, is read and written by `VersionSets` and not replayed by `Recovery`. Directories hold logs and tables; other kinds of files are left out.
- `Manifests` and `VersionSets` work on decoded records; `ManifestFiles` has their bytes. Which of several errors a manifest that cannot be read is refused with is not modelled.
- An iterator is modelled over the memtable as it was when the iterator was opened; entries written later have larger sequence numbers and are not shown.
- VersionBuilder.Builder.Apply: says nothing about compaction pointers, which `Manifests.ApplyPointers` sets.
- LogReading.Reader.ReadRecord: leaves out the sizes and texts of reports and the offsets of records.
- MemTable.InsertKeepsSorted: leaves out the length-prefixed buffer of an entry.
- The size of an output table under construction is a function of its entries: the estimate of the table builder is not modelled.
- When the memtable is full during a replay is an oracle, because it depends on the memory of the arena.
- FilterBlocks.FilterBlockBuilder.Finish: leaves out how the filters and their offsets are laid out as bytes.
- Tables.TableBuilder.Finish: leaves out block handles, the footer, checksums of blocks and compression; `BlockFormat` has the bytes of a block.
- nanopb callbacks, extensions, pointer fields with allocated memory, arrays of fixed count, messages ended by length or zero on output, and builds without 64-bit integers or with unpacked arrays.
- nanopb structs are passed and returned as values; offsets into structs are not modelled. A field number 0 in the input of a message without fields is treated as unknown.
- PbDecoding.IStream.ReadVarint32: the bit position does not wrap, which in C it does after 37 bytes of one varint where the fast 8-bit type has eight bits.
