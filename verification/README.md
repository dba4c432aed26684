# A verified model of the LevelDB storage engine and the nanopb codec

The iOS app carries two vendored libraries with hard correctness arguments: LevelDB
(`Toss_Time/Pods/leveldb-library`) and nanopb (`Toss_Time/Pods/nanopb`).  This project models what they do and proves
what they are for.  `dafny verify dfyconfig.toml` checks all of it.

The specification of the whole engine is one line: a read of a user key at sequence number `s` gives the newest write
at or before `s`, a deletion meaning absent (`InternalKeys.SpecGet`).  Everything below serves that line.

## What is in which file

- **The LSM engine.**  `InternalKeys` (keys, the specification), `Versions` (files, levels, lookup), `CompactionInputs`
  (scores, choosing inputs), `CompactionWork` (drop rules, the compaction loop), `VersionBuilder` (applying edits),
  `LsmSteps` (what flushes and installs keep), `CompactionReads` (what a compaction does to reads), `Database` (the
  engine as a state machine: write, publish, flush, pick, move, open output, install, abandon, hold a version, snapshot,
  delete files), `DatabaseInvariant` (every step and every run), `LiveVersions` (version and file objects with their
  reference counts on the circular list), `DbImpl` (the methods of the database object, each proved to be such a step),
  `Lookups` (lookups during which other things happen), `Committing` (write groups on top of it), `LimitsOfCompaction`
  and `ResurrectingRun` (what does not hold, and how a run gets there).
- **Iterators.**  `Cursors`, `TwoLevelIterator`, `MergingIterator`, `Runs` (which runs are merged for a scan and for a
  compaction), `DbIter`, and `DbIteration`, which joins them to the database.
- **In memory.**  `SkipList` (a step model with readers running during an insert, and the list object), `MemTable`
  (encoded entries), `SnapshotList`, `LruCache` (doubly linked lists, hash chains and reference counts on the heap).
- **On disk.**  `Coding`, `WriteBatches`, `LogFormat`, `LogReader`, `LogChecks` (what the reader makes of damaged logs),
  `GroupCommit` (write queue, log, replay), `Spellings` (what the decoders accept of any bytes), `Blocks`, `Separators`,
  `Filters`, `TableFormat`, `Tables`, `TableBuilder`, `EditCoding`, `Manifest` (a log of edits and its recovery),
  `EncodedReads` (from encoded keys to the engine's order, for tables and memtables), `ManifestKeys` (byte strings as
  the keys of a MANIFEST).
- **Crash recovery of the whole.**  `Durability` (what the tables hold without memory), `Stores` (the database together
  with its logs and its MANIFEST, as a state machine), `CutLogs` (several logs, each cut), `Recovery` (replaying logs
  into a memtable and level-0 tables), `Opening` (DB::Open on what is left).
- **nanopb.**  `NanopbTypes`, `NanopbEncode`, `NanopbDecode` (what decoding means on any input), `NanopbDecoder` (the
  decoder proved against it), `NanopbRoundTrip`, `NanopbVarints` and `NanopbParses` (what is accepted, of any bytes),
  `NanopbBounds` (what is decoded fits the structure).

Objects that the sources change in place are classes, and their loops are loops; a method's contract ties the new state
to a function or predicate on values, and lemmas prove the promises about those.

## Main results

1. *Compaction and reads.*  At or above the largest snapshot bound of the compactions installed so far, replacing the
   inputs of a compaction by its outputs preserves every read **if and only if** an explicit guard does not hold
   (`CompactionReads.ReadsPreservedIff`).
2. *Every run.*  Under any interleaving of the engine's steps, flushes in the middle of compactions included, levels
   stay sorted and disjoint, shallower entries stay newer, and reads agree with the history as long as no install makes
   the guard true (`DatabaseInvariant.EveryRunKeepsShape`, `EveryRunReadsAgree`, `LiveReadsAgree`).  That condition is
   needed: `ResurrectingRun.DeletedKeyComesBackInARun` is a run from the empty database that violates it.  A lookup need
   not be one step: whatever happens between its capture of the memtables and the version and its end, it gives what its
   snapshot says (`Lookups.LookupAcrossRun`).
3. *Live files.*  Whatever readers, iterators, the compaction and edits hold and let go, a version's count is that of
   its holders, one more if it is current; it is on the list exactly while the count is positive; a file's count is that
   of the versions that name it (`LiveVersions.VersionList`).  So what `AddLiveFiles` collects is exactly what somebody
   may still read, and no table of a held version is ever deleted (`DbImpl.DB.DeleteObsoleteFiles`,
   `DatabaseInvariant.EveryRunKeepsShape`).
4. *Iterators.*  Under any mix of calls the database iterator moves over exactly the map of what was written at its
   sequence number, direction changes included (`DbIteration.NewIterator`, `DbIterators.DbIter`).
5. *What a compaction does.*  `PickCompaction` returns what the trigger, the pointer and the set-up say, no more and no
   less (`CompactionInputs.PickCompaction`); its outputs hold exactly the entries that the drop rules keep, and each is
   closed where its size or the grandparents ask for it and nowhere else (`CompactionWork.DoCompactionWork`).
6. *Crashes.*  Cut anywhere, a log is read back as exactly the records that are whole, without a corruption report
   (`LogReaders.Replay`); so a crash leaves whole write groups in order (`GroupCommit.RecoverAfterCrash`) and the
   version, counters and compaction pointers of the last whole MANIFEST edit (`Manifests.RecoverAfterCrash`).  Together:
   in every state of every run, each version on record in the MANIFEST holds what was written before the log recorded
   with it (`Stores.EveryRunKeepsStore`), so from a prefix of the MANIFEST and what is left of the logs `Opening.Open`
   names the tables that are missing, or rebuilds a database with the whole invariant that answers every read as the
   first n write groups say, for some n, and as all of them if no log was cut (`Opening.LeftAreWholeGroups`); and such a
   database can crash again (`Opening.OpenedStartsAnew`).  Without a crash, too, whoever reads sees a whole number of
   groups (`Committing.ReadsWholeGroups`, `LookupShowsWholeGroups`).
7. *Damage.*  From any file, damaged in any way, the log reader returns only payloads of genuine fragments in their
   order, and every byte of data in front of a record is in the record or counted in a report
   (`LogChecks.RecordIsGenuine`, `BytesAreAccountedFor`).  Batches, MANIFEST records and footers are accepted exactly if
   they are spelled as their formats say (`Spellings.IteratedIff`, `DecodeFieldsIff`, `DecodeFooterIff`).
8. *Concurrent readers.*  A skip-list search interleaved in any way with link stores answers rightly
   (`SkipLists.EveryRunAnswersRightly`).
9. *Tables.*  The bytes that the builder writes can be opened, and a lookup in them finds what it must despite shortened
   separators, filters and compression (`TableBuilding.Build`, `Tables.OpenAndGet`); the answer is the one that the
   engine's model computes on sorted runs (`EncodedReads.TableGet`).
10. *The cache.*  Reference counts tell the list, the hash table is the set of cached entries through every resize, and
   every deleter runs once (`LruCaches.LRUCache`).
11. *nanopb.*  The counting and the writing pass agree at every depth, and an encoded message decodes to what was sent
    if and only if every string in it leaves room for its NUL (`NanopbRoundTrip.MessageIsRead`).  Any bytes are accepted
    if and only if they are fields to their end with the required ones among them (`NanopbParses.AcceptedIff`); unknown
    fields change nothing, messages laid end to end are merged, and what is decoded fits the structure
    (`NanopbBounds.DecodedFits`).

## Where the code does less than one might expect

- `SetupOtherInputs` closes the level inputs under boundary files but not the level+1 inputs.  If a level+1 input ends
  with a droppable deletion whose user key goes on in a file left out, the compaction brings the older value back.
  `LimitsOfCompaction.DeletedKeyComesBack` is a database in which `PickCompaction` may choose such inputs;
  `CompactionReads.ReadsPreservedIff` has the exact guard, and `ClosedNeverResurrects` shows that closing level+1 rules
  it out.  The guard can be evaluated before the install from the inputs, the level+1 file behind them and the horizon.
- Inputs of a manual compaction may have gaps (`LimitsOfCompaction.ManualLeavesGap`).  A flush in the middle of a
  compaction can put its file among the inputs at the output level exactly if between the ends of the inputs there are
  user keys for which the picker goes down to that level and no further, the weights of the levels below included
  (`LimitsOfCompaction.FlushLandsInsideIff`); a user key there is a rank, which need not be that of a byte string.  The
  tree is broken when an output over the gap is installed (`LandedBreaksTree`, `GapAdmitsOverlap`).  Inputs that
  `PickCompaction` chooses leave no gap (`PickedHasNoGap`), and the engine's steps start compactions from those only.
- `VersionEdit::Clear` does not reset the compaction pointers, so `DecodeFrom` undoes `EncodeTo` exactly for a receiver
  that has none (`EditCoding.DecodeUndoesEncodeIff`).  The comment in `version_edit.h` says nothing of this; the model
  follows the code.
- A MANIFEST of which only the snapshot record is whole does not recover (`Manifests.Recover`): that record carries no
  file number.  CURRENT is pointed at a new MANIFEST only after its first edit has been synced
  (`db/version_set.cc:836-861`), so recovery meets such a file only if synced bytes are lost.
- Logs are not synced when they are left for a new one.  If an operation is lost in front of one that is left, replaying
  applies what is left and the result is no prefix of what was written; that is the only way to lose the order
  (`CutLogs.ReplayIsRunIff`).
- The bounds check of `DecodeEntry` adds two 32-bit lengths, so a damaged entry can be accepted although it ends behind
  its block (`Blocks.AcceptedEntryMayNotStay`, with the exact condition in `Blocks.StaysIff`).
- The log reader passes over a header of zeros and the rest of its block without a report, and also a fragment whose
  type is one of the two numbers that it uses itself (`LogChecks.DataAt`).
- nanopb encodes a string that fills its buffer without a NUL and refuses to decode it again
  (`NanopbRoundTrip.MessageIsRead`).
- nanopb refuses a key or length of five bytes that overflows 32 bits, but lets the same number through, its upper bits
  lost, if it is spelled with a zero byte behind (`NanopbVarints.OverflowIsLetThrough`; all cases in `ReadVarint32Is`).

## Conventions

- The user comparator of the engine is any total order; a user key stands for its rank, a real number
  (`InternalKeys`).  On the byte level (`Blocks`, `MemTable`) the comparator is a parameter; shortened separators use
  the bytewise one, as in the source, and for it `EncodedReads` has the ranks.  Write groups and recovery take the
  ranking as a parameter (`Committing`, `Stores`, `Opening`).
- One builder fed with all the edits of a MANIFEST saves what installing them one at a time gives, if and only if no
  deleted file has its number brought back by another file (`VersionBuilder.FoldIsInstallAllIff`).  The engine never
  gives a number to two files; that is all the theorems about recovery assume (`VersionBuilder.FoldIsInstallAll`).
- Compression is any pair of functions of which the second undoes the first; it may be missing.
- Checksums and hash functions are arbitrary functions; masking is exact.  Fixed-width fields, varints and 32-bit hash
  arithmetic wrap as in the source.
- `RecoverAfterCrash`, `RecordAndRecover` and `RoundTrip` are theorems in the form of methods: they run the modelled
  operations one after the other and state what comes out.

## Model

| member | source | states |
|---|---|---|
| InternalKeys.LessIsTotal | Toss_Time/Pods/leveldb-library/db/dbformat.cc:51-67 | A total order: user keys ascend, sequence numbers of one user key descend, a value comes before a deletion |
| InternalKeys.SeekKeyBound | Toss_Time/Pods/leveldb-library/db/dbformat.cc:121-138 | The key a lookup at `s` seeks to comes after exactly the entries of its user key above `s` |
| Versions.FindFile | Toss_Time/Pods/leveldb-library/db/version_set.cc:88-106 | Binary search: the first file whose largest key is at or after the key; every file in front of it ends before, every file from it on does not |
| Versions.SomeFileOverlapsRange | Toss_Time/Pods/leveldb-library/db/version_set.cc:122-157 | True exactly if some file meets the range, for sorted disjoint levels as for level 0, and for open ends |
| Versions.RunGet | Toss_Time/Pods/leveldb-library/db/version_set.cc:263-276 | Seeking in one table gives its newest entry for the user key at or below `s`, or says that there is none |
| Versions.SkippedFileIsPast | Toss_Time/Pods/leveldb-library/db/version_set.cc:365-380 | When one user key spans adjacent files, an entry in a file that the binary search skips lies past the opened file, whose last entry then matches too |
| Versions.FilesToSearch | Toss_Time/Pods/leveldb-library/db/version_set.cc:343-381 | What a lookup opens: of level 0 the files around the key, newest first, of deeper levels at most one; a matching entry elsewhere in the level is older than a match in the opened file |
| Versions.FoundIsNewest | Toss_Time/Pods/leveldb-library/db/version_set.cc:338-415 | Stopping early is right: under the LSM invariant the first file that has a match has the newest of the version |
| Versions.Get | Toss_Time/Pods/leveldb-library/db/version_set.cc:326-421 | Level-by-level search with early stop returns the newest stored entry at or below `s`, or none matches |
| CompactionInputs.GetOverlappingInputs | Toss_Time/Pods/leveldb-library/db/version_set.cc:519-559 | The restart loop ends, at the least range that no selected level-0 file sticks out of, every key added to it covered by an input; the inputs are exactly the files that meet it |
| CompactionInputs.WiderSelectsMore | Toss_Time/Pods/leveldb-library/db/version_set.cc:1418-1447 | A wider range selects at least as many files, and as many only if it selects the same ones: why comparing sizes is enough to accept an expansion |
| CompactionInputs.FindLargestKey | Toss_Time/Pods/leveldb-library/db/version_set.cc:1326-1340 | The greatest largest-key, or that there are no files |
| CompactionInputs.FindSmallestBoundaryFile | Toss_Time/Pods/leveldb-library/db/version_set.cc:1344-1362 | The boundary file with the smallest key, or that no file continues the user key |
| CompactionInputs.AddBoundaryInputs | Toss_Time/Pods/leveldb-library/db/version_set.cc:1378-1401 | Adds boundary files one by one, each the smallest there is, until no file left out continues the user key at which the inputs end; contiguous inputs stay contiguous |
| CompactionInputs.GetRange | Toss_Time/Pods/leveldb-library/db/version_set.cc:1205-1224 | The least smallest key and the greatest largest key, both attained |
| CompactionInputs.ContiguousLeavesNoOlder | Toss_Time/Pods/leveldb-library/db/version_set.cc:1378-1401 | Boundary-closed contiguous inputs leave no older entry of an input key behind in their level |
| CompactionInputs.FirstChoice | Toss_Time/Pods/leveldb-library/db/version_set.cc:1403-1416 | Level inputs closed under boundary files, next-level inputs everything that meets them; connectedness is kept |
| CompactionInputs.ExpansionKeepsNextLevel | Toss_Time/Pods/leveldb-library/db/version_set.cc:1418-1447 | An expansion with equally many level+1 files has the very same ones, and they cover everything that meets the grown level inputs |
| CompactionInputs.GrowInputs | Toss_Time/Pods/leveldb-library/db/version_set.cc:1418-1447 | The inputs are grown exactly if more level inputs leave the level+1 inputs as they are and all together stay below the byte limit; they are then the grown ones, and connectedness is kept |
| CompactionInputs.SetupOtherInputs | Toss_Time/Pods/leveldb-library/db/version_set.cc:1403-1462 | From the inputs given to the final ones: their boundary files, what meets them at level+1, the expansion if it costs no more level+1 files and stays within the limit, the grandparents of the whole range, and the pointer at their largest key |
| CompactionInputs.Finalize | Toss_Time/Pods/leveldb-library/db/version_set.cc:1050-1086 | The first of the fullest levels and its score; a level with a score of one or more has files |
| CompactionInputs.CompactionNeeded | Toss_Time/Pods/leveldb-library/db/version_set.cc:1274-1279 | Too much data comes before too many seeks; nothing is needed exactly if no level is too full and no file was sought too often |
| CompactionInputs.NextFile | Toss_Time/Pods/leveldb-library/db/version_set.cc:1288-1301 | The first file that ends after the pointer, or the first file of the level if no pointer is set or nothing ends after it |
| CompactionInputs.PickInputs | Toss_Time/Pods/leveldb-library/db/version_set.cc:1279-1322 | A size trigger starts from the first file of the level that ends after its pointer, or the first of all if there is none or no pointer; a seek trigger from the file sought; level 0 takes all that overlap; the set-up inputs join up into one user-key interval and move the pointer |
| CompactionInputs.PickCompaction | Toss_Time/Pods/leveldb-library/db/version_set.cc:1270-1322 | A compaction is chosen exactly if one is needed, for the fullest level or else the file sought too often, and it is the one that the trigger, the pointer and the set-up say; its inputs join up |
| CompactionInputs.LimitInputs | Toss_Time/Pods/leveldb-library/db/version_set.cc:1472-1487 | Deeper than level 0: the shortest prefix of the inputs that reaches the limit, or all of them |
| CompactionInputs.CompactRange | Toss_Time/Pods/leveldb-library/db/version_set.cc:1464-1495 | None exactly if no file meets the range; otherwise what SetupOtherInputs makes of the limited selection: closed inputs, next level matched, the pointer moved |
| CompactionWork.Compaction.IsBaseLevelForKey | Toss_Time/Pods/leveldb-library/db/version_set.cc:1533-1552 | For keys asked about in ascending order the moving cursors answer like a full scan of all deeper levels |
| CompactionWork.Compaction.ShouldStopBefore | Toss_Time/Pods/leveldb-library/db/version_set.cc:1554-1576 | The cursor passes exactly the grandparents that end before the key; true exactly if the bytes passed since the last stop exceed the limit, and the count then starts again |
| CompactionWork.CursorMoves | Toss_Time/Pods/leveldb-library/db/version_set.cc:1554-1576 | Over the whole input: the answer at an entry is whether more grandparent bytes than one output should overlap lie between the last stop and the entry |
| CompactionWork.ShouldDrop | Toss_Time/Pods/leveldb-library/db/db_impl.cc:937-974 | The two drop rules together drop exactly the entries hidden from every live snapshot and the dead deletions |
| CompactionWork.FinishOutput | Toss_Time/Pods/leveldb-library/db/db_impl.cc:811-858 | Closing an output moves its entries from the open file to the closed ones and loses none; no closed output is empty |
| CompactionWork.AddEntry | Toss_Time/Pods/leveldb-library/db/db_impl.cc:975-996 | An entry that is kept goes to the end of the open output, and the output is closed exactly if it has then reached the file size |
| CompactionWork.StopOutput | Toss_Time/Pods/leveldb-library/db/db_impl.cc:913-921 | At a stop an output that has entries is closed; an empty one stays open |
| CompactionWork.KeepEntry | Toss_Time/Pods/leveldb-library/db/db_impl.cc:975-996 | A kept entry lengthens the open output; it is closed here only because it is big enough |
| CompactionWork.CompactEntry | Toss_Time/Pods/leveldb-library/db/db_impl.cc:913-996 | One turn of the loop: the output is closed before a stop, the entry dropped or kept, the output closed when it is full; what is kept stays exact and sorted, and every output closed is cut where it should be |
| CompactionWork.DoCompactionWork | Toss_Time/Pods/leveldb-library/db/db_impl.cc:899-999 | One pass of the merging iterator over the inputs: the outputs, in order, hold exactly the entries that are not dropped, sorted; no proper prefix of an output is big enough, no stop lies inside one, and every output but the last was closed because it was big enough or a stop came next |
| VersionBuilder.SortedIsUnique | Toss_Time/Pods/leveldb-library/db/version_set.cc:595-620 | A level is determined by its set of files |
| VersionBuilder.Insert | Toss_Time/Pods/leveldb-library/db/version_set.cc:684-690 | Ordered insertion keeps the order and adds the file to the set |
| VersionBuilder.Builder.Apply | Toss_Time/Pods/leveldb-library/db/version_set.cc:650-692 | Deletions, then additions that take their number off the deleted ones, level by level |
| VersionBuilder.Builder.SaveTo | Toss_Time/Pods/leveldb-library/db/version_set.cc:695-739 | Each saved level is sorted and holds exactly the base and added files whose numbers are not deleted |
| VersionBuilder.SaveLevel | Toss_Time/Pods/leveldb-library/db/version_set.cc:695-754 | Merging the sorted base and added files gives the sorted survivors |
| VersionBuilder.FoldIsInstallAllIff | Toss_Time/Pods/leveldb-library/db/version_set.cc:650-754 | One builder fed with all edits saves what installing them one at a time leaves, if and only if no deleted file has its number brought back by another file |
| VersionBuilder.SurvivingIs | Toss_Time/Pods/leveldb-library/db/version_set.cc:650-754 | File by file: the builder keeps what installing keeps, and besides exactly the files brought back |
| VersionBuilder.FoldIsInstallAll | Toss_Time/Pods/leveldb-library/db/version_set.cc:650-754 | So the two agree whenever a number names one file, as it does in the engine |
| VersionBuilder.ReaddingDiffers | Toss_Time/Pods/leveldb-library/db/version_set.cc:684-690 | A deleted number that is given to another file brings the deleted file back |
| VersionBuilder.InstallEdit | Toss_Time/Pods/leveldb-library/db/version_set.cc:818-824 | One edit on top of the current version: sorted levels, deletions before additions |
| LsmSteps.PickLevelForMemTableOutput | Toss_Time/Pods/leveldb-library/db/version_set.cc:491-516 | The chosen level is as deep as the file goes down from level 0: free of overlap down to it, each level below the next one light enough, and the next one in the way or too deep |
| LsmSteps.LandsAtOne | Toss_Time/Pods/leveldb-library/db/version_set.cc:491-516 | There is exactly one such level |
| LsmSteps.PickedIsInFlight | Toss_Time/Pods/leveldb-library/db/version_set.cc:1270-1322 | What PickCompaction chooses satisfies, in the version it chose from, everything a running compaction relies on |
| LsmSteps.FlushKeepsInvariant | Toss_Time/Pods/leveldb-library/db/db_impl.cc:491-533 | Placing a flushed memtable keeps the LSM invariant |
| LsmSteps.ConnectedHasSides | Toss_Time/Pods/leveldb-library/db/version_set.cc:491-516 | A file apart from every member of a connected set of ranges lies on one side of all of them |
| LsmSteps.FlushKeepsInFlight | Toss_Time/Pods/leveldb-library/db/db_impl.cc:906-918 | A flush in the middle of a picked compaction is harmless: the new file never lands among the inputs' ranges nor behind the outputs |
| LsmSteps.CompactionEditReplaces | Toss_Time/Pods/leveldb-library/db/db_impl.cc:860-876 | Applying the compaction's edit replaces exactly its inputs by its outputs |
| LsmSteps.InstallKeepsInvariant | Toss_Time/Pods/leveldb-library/db/db_impl.cc:860-876 | Installing compaction results keeps levels sorted and disjoint and shallower entries newer |
| CompactionReads.LastHeld | Toss_Time/Pods/leveldb-library/db/db_impl.cc:899-999 | The newest entry held anywhere at or below `s` |
| CompactionReads.HeldAfter | Toss_Time/Pods/leveldb-library/db/db_impl.cc:860-876 | After an install the database holds what was held above, in the remaining files and in the outputs |
| CompactionReads.NewestStays | Toss_Time/Pods/leveldb-library/db/db_impl.cc:937-974 | A read that changes had its newest entry dropped and now finds an older value: nothing else can happen |
| CompactionReads.ChangedReadResurrects | Toss_Time/Pods/leveldb-library/db/version_set.cc:1403-1416 | A read at or above the horizon that changes shows the guard: a droppable deletion at the end of a level+1 input whose key goes on, with a value, in a file left out |
| CompactionReads.GuardChangesRead | Toss_Time/Pods/leveldb-library/db/version_set.cc:1403-1416 | When the guard holds, a key that was deleted reads as that old value again |
| CompactionReads.ReadsPreservedIff | Toss_Time/Pods/leveldb-library/db/db_impl.cc:899-999 | For every user key and every sequence number at or above the horizon, replacing inputs by outputs preserves the read, if and only if the guard does not hold |
| CompactionReads.ClosedNeverResurrects | Toss_Time/Pods/leveldb-library/db/version_set.cc:1403-1416 | The guard never holds when the level+1 inputs are closed under boundary files too |
| LimitsOfCompaction.DeletedKeyComesBack | Toss_Time/Pods/leveldb-library/db/version_set.cc:1407-1411 | PickCompaction can choose inputs whose compaction resurrects a deleted key: only the level inputs are closed under boundary files, not those of level+1 |
| ResurrectingRun.DeletedKeyComesBackInARun | Toss_Time/Pods/leveldb-library/db/db_impl.cc:899-999 | A run from the empty database ends in a resurrecting install, after which the deleted key reads as its old value |
| ResurrectingRun.LevelOfFlush | Toss_Time/Pods/leveldb-library/db/version_set.cc:491-516 | In that run every flush goes to level 2, as the source chooses |
| LimitsOfCompaction.ManualLeavesGap | Toss_Time/Pods/leveldb-library/db/version_set.cc:1464-1495 | The inputs of a manual compaction need not join up, on a tree that satisfies the LSM invariant |
| LimitsOfCompaction.FlushLandsInsideIff | Toss_Time/Pods/leveldb-library/db/version_set.cc:491-516 | A flush can land among the inputs of a compaction at its output level if and only if between their ends there are user keys for which the picker, overlaps and weights included, goes down to that level and no further |
| LimitsOfCompaction.PickedHasNoGap | Toss_Time/Pods/leveldb-library/db/version_set.cc:1270-1322 | Inputs that join up, as PickCompaction chooses them, leave no such keys |
| LimitsOfCompaction.LandedBreaksTree | Toss_Time/Pods/leveldb-library/db/db_impl.cc:860-876 | Installing an output that reaches over a file so landed breaks the LSM invariant |
| LimitsOfCompaction.GapAdmitsOverlap | Toss_Time/Pods/leveldb-library/db/version_set.cc:1464-1495 | It happens: a flush into the gap that a manual compaction leaves, then the install, and level 2 has overlapping files |
| DatabaseInvariant.WriteAgrees | Toss_Time/Pods/leveldb-library/db/db_impl.cc:1185-1256 | A new write is read back as written, and so is everything before |
| DatabaseInvariant.OldReadsStay | Toss_Time/Pods/leveldb-library/db/db_impl.cc:1185-1256 | A new write changes no read below its sequence number |
| DatabaseInvariant.InstallPreservesIff | Toss_Time/Pods/leveldb-library/db/db_impl.cc:860-876 | An install step preserves all reads at or above the new horizon if and only if it resurrects no key |
| DatabaseInvariant.MoveKeepsVersion | Toss_Time/Pods/leveldb-library/db/db_impl.cc:718-728 | A trivial move keeps the LSM invariant, the stored entries and the file numbers |
| DatabaseInvariant.QuietStepKeeps | Toss_Time/Pods/leveldb-library/db/db_impl.cc:535-566 | Every step but a write and an install leaves what is held, and the history, as they were |
| DatabaseInvariant.StepKeeps | Toss_Time/Pods/leveldb-library/db/db_impl.cc:688-767 | Every step keeps the LSM invariant, memtables, snapshots, running compaction and live files; reads agree with the history unless an install resurrects a key |
| DatabaseInvariant.EveryRunKeepsShape | Toss_Time/Pods/leveldb-library/db/db_impl.cc:688-767 | So on every run, from an empty database or from one opened again, in every state |
| DatabaseInvariant.EveryRunReadsAgree | Toss_Time/Pods/leveldb-library/db/db_impl.cc:1100-1145 | On every run without a resurrecting install every read that is still allowed gives what was written |
| DatabaseInvariant.LiveReadsAgree | Toss_Time/Pods/leveldb-library/db/db_impl.cc:1100-1145 | At the last sequence number and at every live snapshot a read gives the newest write at or before it, a deletion meaning absent |
| DatabaseInvariant.FlushKeepsLive | Toss_Time/Pods/leveldb-library/db/db_impl.cc:491-533 | A flush keeps every file of a referenced version, and every output in progress, on disk |
| DatabaseInvariant.InstallKeepsLive | Toss_Time/Pods/leveldb-library/db/db_impl.cc:769-784 | An install keeps every file of a referenced version, and every output in progress, on disk |
| DatabaseInvariant.FileStepsKeepLive | Toss_Time/Pods/leveldb-library/db/db_impl.cc:223-278 | Opening and abandoning outputs, pinning and unpinning versions and deleting obsolete files keep every file of a referenced version and every pending output |
| DbImpl.DbGet | Toss_Time/Pods/leveldb-library/db/db_impl.cc:1122-1136 | What was captured is searched in turn: memtable, immutable memtable, files; the first that knows the key decides |
| DbImpl.AnswersIsView | Toss_Time/Pods/leveldb-library/db/db_impl.cc:1122-1136 | That is exactly the newest entry held at or below `s`, also when the memtable has grown since |
| DbImpl.AnswersAsWritten | Toss_Time/Pods/leveldb-library/db/db_impl.cc:1100-1145 | At a live snapshot it is what the history of writes says |
| DbImpl.LaterWritesInvisible | Toss_Time/Pods/leveldb-library/db/db_impl.cc:1100-1121 | A write that arrives after a reader took its sequence number does not change what the reader finds in the memtable |
| DbImpl.InputsAreMergeable | Toss_Time/Pods/leveldb-library/db/version_set.cc:1237-1268 | The inputs of a running compaction share no entry, and those of a level from 1 on are in order |
| DbImpl.OutputsAreProduced | Toss_Time/Pods/leveldb-library/db/db_impl.cc:786-858 | The loop's outputs, in files with fresh numbers, are what an install may install |
| DbImpl.EditIsInstallable | Toss_Time/Pods/leveldb-library/db/version_set.cc:801-824 | A compaction's edit meets what applying it needs: numbers name files, and no added file is already in its level |
| DbImpl.DB.RefVersion | Toss_Time/Pods/leveldb-library/db/version_set.cc:474-483 | A reader takes a reference to the current version: a step of the engine |
| DbImpl.DB.UnrefVersion | Toss_Time/Pods/leveldb-library/db/db_impl.cc:1050-1058 | And drops it, which frees the version if it was the last |
| DbImpl.DB.BeginGet | Toss_Time/Pods/leveldb-library/db/db_impl.cc:1100-1121 | Under the mutex a lookup takes its sequence number, captures both memtables and becomes a holder of the current version |
| DbImpl.DB.Get | Toss_Time/Pods/leveldb-library/db/db_impl.cc:1100-1145 | A lookup during which nothing else happens returns what the history of writes says and leaves the counts as they were |
| Lookups.MemTableGrows | Toss_Time/Pods/leveldb-library/db/db_impl.cc:1117-1136 | Whatever happens after a lookup has captured its memtable, the table only takes in writes that are newer than anything the lookup may see, until it is switched and stays |
| Lookups.GrownReadsAlike | Toss_Time/Pods/leveldb-library/db/db_impl.cc:1122-1136 | A search at or below the sequence number of the capture does not see the difference |
| Lookups.LookupAcrossRun | Toss_Time/Pods/leveldb-library/db/db_impl.cc:1100-1145 | A lookup that captures in state i, searches its memtable in state k and ends in state j of any run gives what the newest write at or before its snapshot says, in state i and in state j |
| Lookups.HeldFilesStay | Toss_Time/Pods/leveldb-library/db/db_impl.cc:1117-1138 | As long as a reader holds its version, in every state of every run, it is the same version and all its tables are on disk |
| DbImpl.DB.Insert | Toss_Time/Pods/leveldb-library/db/write_batch.cc:116-130 | One operation goes into the memtable with the next sequence number |
| DbImpl.DB.Publish | Toss_Time/Pods/leveldb-library/db/db_impl.cc:1236 | The last sequence number of a group becomes visible in one step |
| DbImpl.DB.SwitchMemTable | Toss_Time/Pods/leveldb-library/db/db_impl.cc:1355-1370 | The full memtable becomes the immutable one; nothing else changes |
| DbImpl.DB.WriteLevel0Table | Toss_Time/Pods/leveldb-library/db/db_impl.cc:491-533 | The table of the immutable memtable has its entries, a well-formed range, and a level where it may go |
| DbImpl.DB.CompactMemTable | Toss_Time/Pods/leveldb-library/db/db_impl.cc:535-566 | A flush is a step of the engine, at the level that the picker says |
| DbImpl.DB.FlushTable | Toss_Time/Pods/leveldb-library/db/db_impl.cc:491-566 | A table of the immutable memtable is built, placed at the level that PickLevelForMemTableOutput says, and installed |
| DbImpl.DB.Install | Toss_Time/Pods/leveldb-library/db/version_set.cc:801-877 | Only the current version changes, to what the edit makes of it |
| DbImpl.DB.GetSnapshot | Toss_Time/Pods/leveldb-library/db/db_impl.cc:1166-1169 | A snapshot at the last sequence number joins the list |
| DbImpl.DB.ReleaseSnapshot | Toss_Time/Pods/leveldb-library/db/db_impl.cc:1171-1175 | A snapshot leaves the list |
| DbImpl.DB.BackgroundCompaction | Toss_Time/Pods/leveldb-library/db/db_impl.cc:688-767 | Nothing exactly if nothing is needed; otherwise the compaction that PickCompaction chooses, moved if it is one file with light grandparents, or else started with the oldest snapshot of that moment; the pointer of its level moves on |
| DbImpl.DB.OpenCompactionOutputFile | Toss_Time/Pods/leveldb-library/db/db_impl.cc:786-809 | A fresh number, protected as a pending output before the file is written |
| DbImpl.DB.RunCompaction | Toss_Time/Pods/leveldb-library/db/db_impl.cc:878-999 | Without the mutex: the outputs keep exactly what the drop rules keep of the inputs, cut at the file size and at grandparent overlap |
| DbImpl.DB.InstallCompactionResults | Toss_Time/Pods/leveldb-library/db/db_impl.cc:860-876 | An install step; reads go on agreeing with the history if and only if it resurrects no key |
| DbImpl.DB.FinishCompaction | Toss_Time/Pods/leveldb-library/db/db_impl.cc:878-1036 | A whole compaction, from its merged input to its install, keeps reads right when the level+1 inputs are closed |
| DbImpl.DB.AbandonCompaction | Toss_Time/Pods/leveldb-library/db/db_impl.cc:769-784 | A compaction that fails leaves only files that the next cleanup may delete |
| DbImpl.DB.ReleaseInputs | Toss_Time/Pods/leveldb-library/db/version_set.cc:1578-1583 | The compaction lets go of the version it was picked on |
| DbImpl.DB.DeleteObsoleteFiles | Toss_Time/Pods/leveldb-library/db/db_impl.cc:223-278 | It collects the live numbers from the list of versions itself; what stays is exactly what the current version, a held version or a pending output needs |
| LiveVersions.VersionList.RefsTellHolders | Toss_Time/Pods/leveldb-library/db/version_set.cc:68-86 | In every reachable state: a version is on the list exactly while it has references, these are its holders and one for being current, and a file has one for every version on the list that names it |
| LiveVersions.VersionList.Ref | Toss_Time/Pods/leveldb-library/db/version_set.cc:474 | The current version gains one reference and one holder |
| LiveVersions.VersionList.Release | Toss_Time/Pods/leveldb-library/db/version_set.cc:476-483 | One holder less; the version is destroyed if nobody is left |
| LiveVersions.VersionList.Unref | Toss_Time/Pods/leveldb-library/db/version_set.cc:476-483 | The version leaves the list exactly if nobody wants it any more, and then its files lose a reference each |
| LiveVersions.VersionList.Remove | Toss_Time/Pods/leveldb-library/db/version_set.cc:68-86 | The destructor unlinks the version and frees the files that no other version names |
| LiveVersions.VersionList.AppendVersion | Toss_Time/Pods/leveldb-library/db/version_set.cc:783-799 | The new version is current and last on the list; the old one goes unless somebody holds it |
| LiveVersions.VersionList.AddLiveFiles | Toss_Time/Pods/leveldb-library/db/version_set.cc:1167-1177 | Walking the circle collects exactly the numbers of the files of the current version and of the held ones |
| LiveVersions.VersionList.LogAndApply | Toss_Time/Pods/leveldb-library/db/version_set.cc:801-877 | The edit makes the new current version; the reference the builder takes on the old one is given back |
| LiveVersions.VersionList.BuildVersion | Toss_Time/Pods/leveldb-library/db/version_set.cc:814-824 | Files kept and files added are in the new version with one more reference each, and nothing is left over |
| LiveVersions.SaveTo | Toss_Time/Pods/leveldb-library/db/version_set.cc:695-739 | Each level is merged from base and added files; every file that goes in gains a reference |
| LiveVersions.SaveLevel | Toss_Time/Pods/leveldb-library/db/version_set.cc:700-723 | The merge of base and added file objects gives the sorted survivors |
| LiveVersions.DropFiles | Toss_Time/Pods/leveldb-library/db/version_set.cc:73-84 | Each file named loses a reference, and is freed at zero |
| LiveVersions.VersionList.Destroy | Toss_Time/Pods/leveldb-library/db/version_set.cc:777-782 | With no holder left the list is empty and every file object freed |
| Committing.OthersKeepAligned | Toss_Time/Pods/leveldb-library/db/db_impl.cc:1185-1256 | Flushes, compactions, snapshots and all other steps keep every live snapshot between two write groups |
| Committing.ReadsWholeGroups | Toss_Time/Pods/leveldb-library/db/db_impl.cc:1223-1236 | A read at a live snapshot, or at the last sequence number, gives what the first k groups wrote, for some k |
| Committing.LookupShowsWholeGroups | Toss_Time/Pods/leveldb-library/db/db_impl.cc:1100-1145 | So does a lookup during which groups are committed, flushed and compacted |
| Committing.Committer.LogGroup | Toss_Time/Pods/leveldb-library/db/db_impl.cc:1204-1222 | The front writer builds its group, the longest that the sync and size rules allow, and logs it; readers see nothing of it |
| Committing.Committer.ApplyOne | Toss_Time/Pods/leveldb-library/db/db_impl.cc:1223-1225 | An operation of the group enters the memtable behind the last visible sequence number |
| Committing.Committer.EndGroup | Toss_Time/Pods/leveldb-library/db/db_impl.cc:1236-1253 | The whole group becomes visible at once |
| Committing.Committer.GetSnapshot | Toss_Time/Pods/leveldb-library/db/db_impl.cc:1166-1169 | Taken at any time, also in mid-group, a snapshot falls after a whole number of groups |
| Committing.Committer.Get | Toss_Time/Pods/leveldb-library/db/db_impl.cc:1100-1145 | A read at any moment of a writer shows a whole number of groups |
| Committing.Committer.SwitchLog | Toss_Time/Pods/leveldb-library/db/db_impl.cc:1355-1370 | A new log and a new memtable start together between two groups; the queue stays |
| Committing.Committer.Resume | Toss_Time/Pods/leveldb-library/db/db_impl.cc:1474-1513 | A database that has been opened again goes on with a new log after the groups that were recovered |
| Committing.Write | Toss_Time/Pods/leveldb-library/db/db_impl.cc:1185-1256 | The first writers of the queue, as many as make a group, are answered, and exactly what they ask for is appended to what is visible; snapshots stay as they were |
| Cursors.SeekIndexIs | Toss_Time/Pods/leveldb-library/db/version_set.cc:88-106 | A seek lands at the one place where keys stop being smaller than the target |
| TwoLevelIterators.TwoLevelIterator.Seek | Toss_Time/Pods/leveldb-library/table/two_level_iterator.cc:82-87 | The first entry at or after the target of all blocks read one after the other, whatever blocks are empty |
| TwoLevelIterators.TwoLevelIterator.SeekToFirst | Toss_Time/Pods/leveldb-library/table/two_level_iterator.cc:89-94 | The first entry of all blocks |
| TwoLevelIterators.TwoLevelIterator.SeekToLast | Toss_Time/Pods/leveldb-library/table/two_level_iterator.cc:96-101 | The last entry of all blocks |
| TwoLevelIterators.TwoLevelIterator.Next | Toss_Time/Pods/leveldb-library/table/two_level_iterator.cc:103-107 | The next entry, into the next block that has any |
| TwoLevelIterators.TwoLevelIterator.Prev | Toss_Time/Pods/leveldb-library/table/two_level_iterator.cc:109-113 | The entry before, into the block before that has any |
| TwoLevelIterators.TwoLevelIterator.SkipEmptyDataBlocksForward | Toss_Time/Pods/leveldb-library/table/two_level_iterator.cc:115-126 | Moves on over empty blocks to the next entry, or off the end |
| TwoLevelIterators.TwoLevelIterator.SkipEmptyDataBlocksBackward | Toss_Time/Pods/leveldb-library/table/two_level_iterator.cc:128-139 | Moves back over empty blocks to the entry before, or off the start |
| TwoLevelIterators.TwoLevelIterator.InitDataBlock | Toss_Time/Pods/leveldb-library/table/two_level_iterator.cc:146-163 | The block that the index leads to is open, the one already open being kept |
| Runs.SeekFile | Toss_Time/Pods/leveldb-library/db/version_set.cc:171-173 | The level's index seek, a binary search over largest keys, is a cursor's seek |
| Runs.NewConcatenatingIterator | Toss_Time/Pods/leveldb-library/db/version_set.cc:223-228 | Over files in order it is a cursor on their concatenation, from block to block |
| Runs.MakeInputIterator | Toss_Time/Pods/leveldb-library/db/version_set.cc:1237-1268 | Level-0 inputs one by one, the inputs of a deeper level as one run: the merged cursor goes over exactly the input entries, in order |
| MergingIterators.UnionExists | Toss_Time/Pods/leveldb-library/table/merger.cc:16-25 | Sorted children without a common key have a sorted union |
| MergingIterators.UnionIsUnique | Toss_Time/Pods/leveldb-library/table/merger.cc:16-25 | And only one |
| MergingIterators.SmallestIsNext | Toss_Time/Pods/leveldb-library/table/merger.cc:148-161 | If every child stands at its first entry at or after a place in the union, the smallest is the union's entry there |
| MergingIterators.LargestIsPrevious | Toss_Time/Pods/leveldb-library/table/merger.cc:163-176 | If every child stands at its last entry before a place, the largest is the one in front of it |
| MergingIterators.TurnedForward | Toss_Time/Pods/leveldb-library/table/merger.cc:55-79 | Turning forward: seeking the other children past the current key puts every child where forward moves need it |
| MergingIterators.TurnedReverse | Toss_Time/Pods/leveldb-library/table/merger.cc:81-108 | Turning back: seeking and stepping back, or going to the end, does the same for backward moves |
| MergingIterators.SteppedForward | Toss_Time/Pods/leveldb-library/table/merger.cc:75-79 | Stepping the current child puts every child after the current entry |
| MergingIterators.MergingIterator.Seek | Toss_Time/Pods/leveldb-library/table/merger.cc:47-53 | The merged cursor stands at the union's first entry at or after the target |
| MergingIterators.MergingIterator.SeekToFirst | Toss_Time/Pods/leveldb-library/table/merger.cc:31-37 | The merged cursor stands at the first entry of the union |
| MergingIterators.MergingIterator.SeekToLast | Toss_Time/Pods/leveldb-library/table/merger.cc:39-45 | The merged cursor stands at the last entry of the union |
| MergingIterators.MergingIterator.Next | Toss_Time/Pods/leveldb-library/table/merger.cc:55-79 | The merged cursor moves on by one in the union, from either direction |
| MergingIterators.MergingIterator.Prev | Toss_Time/Pods/leveldb-library/table/merger.cc:81-108 | The merged cursor moves back by one in the union, from either direction |
| MergingIterators.MergingIterator.Current | Toss_Time/Pods/leveldb-library/table/merger.cc:110-118 | Its entry is the union's entry at that place |
| DbIterators.VisibleIsLookup | Toss_Time/Pods/leveldb-library/db/db_iter.cc:168-198 | The map the iterator shows holds exactly what point lookups at its sequence number find |
| DbIterators.ScanStops | Toss_Time/Pods/leveldb-library/db/db_iter.cc:168-198 | The forward scan stops at the first visible key in bounds |
| DbIterators.ScanBackStops | Toss_Time/Pods/leveldb-library/db/db_iter.cc:227-267 | The backward scan stops with the last visible key in bounds, and the value of its newest visible entry |
| DbIterators.DbIter.FindNextUserEntry | Toss_Time/Pods/leveldb-library/db/db_iter.cc:168-198 | From the internal iterator's place: the first key of the map after the bound |
| DbIterators.DbIter.FindPrevUserEntry | Toss_Time/Pods/leveldb-library/db/db_iter.cc:227-267 | From the internal iterator's place: the last key of the map before the bound |
| DbIterators.DbIter.Seek | Toss_Time/Pods/leveldb-library/db/db_iter.cc:269-281 | The first visible user key at or after the target |
| DbIterators.DbIter.SeekToFirst | Toss_Time/Pods/leveldb-library/db/db_iter.cc:283-292 | The first visible user key |
| DbIterators.DbIter.SeekToLast | Toss_Time/Pods/leveldb-library/db/db_iter.cc:294-299 | The last visible user key |
| DbIterators.DbIter.Next | Toss_Time/Pods/leveldb-library/db/db_iter.cc:141-166 | The next visible user key, also right after moving back |
| DbIterators.DbIter.Prev | Toss_Time/Pods/leveldb-library/db/db_iter.cc:200-225 | The visible user key before, also right after moving forward |
| DbIterators.DbIter.Key | Toss_Time/Pods/leveldb-library/db/db_iter.cc:64-67 | The user key the cursor is on, in either direction |
| DbIterators.DbIter.Value | Toss_Time/Pods/leveldb-library/db/db_iter.cc:68-71 | The value the map gives that key |
| DbImpl.FilesShareNothing | Toss_Time/Pods/leveldb-library/db/version_set.cc:230-251 | No entry is in two files, so the merged runs share no key |
| DbIteration.AddIterators | Toss_Time/Pods/leveldb-library/db/version_set.cc:230-251 | Level-0 files one by one and every deeper level as one run: sorted runs that together hold exactly what is stored |
| DbIteration.NewInternalIterator | Toss_Time/Pods/leveldb-library/db/db_impl.cc:1061-1088 | Memtables and files as runs: sorted, disjoint, together exactly what the database holds |
| DbIteration.UnionShowsHistory | Toss_Time/Pods/leveldb-library/db/db_iter.cc:168-198 | What is visible in the union at `s` is the map of the history at `s` |
| DbIteration.NewIterator | Toss_Time/Pods/leveldb-library/db/db_impl.cc:1147-1158 | A database iterator moves over exactly what was written at its snapshot, and holds the version it reads |
| Coding.DecodeUndoesEncode | Toss_Time/Pods/leveldb-library/util/coding.cc:9-18 | Fixed 32-bit numbers are read back, whatever follows |
| Coding.Decode64UndoesEncode | Toss_Time/Pods/leveldb-library/util/coding.cc:20-33 | Fixed 64-bit numbers are read back |
| Coding.UnrolledIsVarint | Toss_Time/Pods/leveldb-library/util/coding.cc:47-73 | The unrolled encoder writes seven bits a byte, least significant first |
| Coding.EncodeVarint64 | Toss_Time/Pods/leveldb-library/util/coding.cc:81-90 | The encoding loop does the same for 64 bits |
| Coding.GetVarint32 | Toss_Time/Pods/leveldb-library/util/coding.cc:112-140 | The decoding loop, with its limit of five bytes and lost high bits |
| Coding.DecodeUndoesVarint32 | Toss_Time/Pods/leveldb-library/util/coding.cc:112-140 | 32-bit varints are read back, and the rest of the input is left |
| Coding.DecodeUndoesVarint64 | Toss_Time/Pods/leveldb-library/util/coding.cc:142-169 | 64-bit varints are read back |
| Coding.DecodeUndoesLengthPrefix | Toss_Time/Pods/leveldb-library/util/coding.cc:171-190 | Length-prefixed strings are read back |
| Spellings.DecodeVarint32Iff | Toss_Time/Pods/leveldb-library/util/coding.cc:112-129 | A 32-bit number is read exactly from at most five bytes of which only the last is below 128; bits above the 32nd are lost |
| Spellings.DecodeVarint64Iff | Toss_Time/Pods/leveldb-library/util/coding.cc:142-157 | A 64-bit number exactly from at most ten |
| LogFormat.UnmaskUndoesMask | Toss_Time/Pods/leveldb-library/util/crc32c.h:29-38 | Unmasking gives the checksum that was masked |
| WriteBatches.HeaderIsRead | Toss_Time/Pods/leveldb-library/db/write_batch.cc:82-96 | Sequence number and count are read back from the header |
| WriteBatches.DecodeUndoesOps | Toss_Time/Pods/leveldb-library/db/write_batch.cc:42-80 | The operations are read back in order |
| WriteBatches.IterationUndoesRep | Toss_Time/Pods/leveldb-library/db/write_batch.cc:42-80 | Iterating a batch yields its operations, and the count agrees |
| WriteBatches.Iterate | Toss_Time/Pods/leveldb-library/db/write_batch.cc:42-80 | The loop, its error cases and the count check |
| Spellings.IteratedIff | Toss_Time/Pods/leveldb-library/db/write_batch.cc:42-79 | A batch is accepted exactly if it spells as many operations as its header counts, to its last byte |
| WriteBatches.WriteBatch.Put | Toss_Time/Pods/leveldb-library/db/write_batch.cc:98-103 | Adds a put behind the operations so far |
| WriteBatches.WriteBatch.Delete | Toss_Time/Pods/leveldb-library/db/write_batch.cc:105-109 | Adds a deletion behind the operations so far |
| WriteBatches.WriteBatch.Append | Toss_Time/Pods/leveldb-library/db/write_batch.cc:144-150 | Adds the other batch's operations behind those of this one |
| WriteBatches.WriteBatch.SetSequence | Toss_Time/Pods/leveldb-library/db/write_batch.cc:94-96 | Changes the sequence number and nothing else |
| LogFormat.FullBlockFollows | Toss_Time/Pods/leveldb-library/db/log_writer.cc:43-78 | A fragment that does not finish its record fills its block, so fragmenting ends |
| LogFormat.Writer.EmitPhysicalRecord | Toss_Time/Pods/leveldb-library/db/log_writer.cc:82-108 | A fragment: masked checksum, length, type, payload |
| LogFormat.Writer.FillTrailer | Toss_Time/Pods/leveldb-library/db/log_writer.cc:44-54 | A header never starts in the last six bytes of a block; they become zeros |
| LogFormat.Writer.AddFragment | Toss_Time/Pods/leveldb-library/db/log_writer.cc:59-77 | One turn of the loop: the next fragment, its type and its length |
| LogFormat.Writer.AddRecord | Toss_Time/Pods/leveldb-library/db/log_writer.cc:34-80 | Appends the fragments of the record, also an empty one, and a first fragment of length zero |
| LogReaders.Reader.ReadPhysicalRecord | Toss_Time/Pods/leveldb-library/db/log_reader.cc:189-271 | What one call reads at an offset: buffering, trailers, truncated headers, bad lengths and checksums, zero records |
| LogReaders.Reader.ReadRecord | Toss_Time/Pods/leveldb-library/db/log_reader.cc:56-174 | Reassembly of fragments with every error report |
| LogReaders.PieceIsRead | Toss_Time/Pods/leveldb-library/db/log_reader.cc:189-271 | A fragment wholly in the file is read back; one cut short reads as the end of the file, without a report |
| LogReaders.RestIsRead | Toss_Time/Pods/leveldb-library/db/log_reader.cc:56-174 | A fragmented record is reassembled across block boundaries and trailers |
| LogReaders.TornRestIsEof | Toss_Time/Pods/leveldb-library/db/log_reader.cc:56-174 | A record the file ends inside reads as the end of the file, without a report |
| LogReaders.RecordIsRead | Toss_Time/Pods/leveldb-library/db/log_reader.cc:56-174 | A record is returned exactly if it is wholly there |
| LogReaders.WholeIsMaximal | Toss_Time/Pods/leveldb-library/db/log_reader.cc:56-174 | The record behind the whole ones is torn |
| LogReaders.NextOfCutLog | Toss_Time/Pods/leveldb-library/db/log_reader.cc:56-174 | After k records of a cut log comes record k, or the end |
| LogReaders.Replay | Toss_Time/Pods/leveldb-library/db/log_reader.cc:56-174 | On any prefix of a log the reader returns exactly the records wholly in it, then the end of the file, and reports no corruption |
| LogChecks.FitsIffGenuine | Toss_Time/Pods/leveldb-library/db/log_reader.cc:244-257 | The checksum test accepts a fragment exactly if its bytes are those that a writer puts there for its type and payload |
| LogChecks.PieceIs | Toss_Time/Pods/leveldb-library/db/log_reader.cc:188-271 | What the reader makes of any bytes: a genuine fragment is handed on, zeros are passed over, a wrong checksum or length drops the block and is reported, a fragment that the file ends inside is the end |
| LogChecks.PieceIsGenuine | Toss_Time/Pods/leveldb-library/db/log_reader.cc:188-271 | From any offset of any file, whatever is handed on with a type of its own is a genuine fragment, and at most a trailer lies in front of it |
| LogChecks.RecordIsGenuine | Toss_Time/Pods/leveldb-library/db/log_reader.cc:56-174 | Every record returned, from any file, is the payloads of genuine fragments, FULL or FIRST, MIDDLE and LAST, each right behind the one before |
| LogChecks.DamageIsReported | Toss_Time/Pods/leveldb-library/db/log_reader.cc:244-257 | A complete fragment with another checksum is reported together with what was in hand, and reading goes on behind its block |
| LogChecks.BadLengthIsReported | Toss_Time/Pods/leveldb-library/db/log_reader.cc:217-231 | A length beyond the block is reported too, but at the end of the file it is the end |
| LogChecks.BytesAreAccountedFor | Toss_Time/Pods/leveldb-library/db/log_reader.cc:56-174 | Up to a record that is returned every byte of data, in genuine fragments or in dropped blocks, is in the record or counted in a report |
| GroupCommit.BuildBatchGroup | Toss_Time/Pods/leveldb-library/db/db_impl.cc:1260-1306 | The group is the longest prefix of the queue with no sync write hidden in a non-sync group and within the size limit |
| GroupCommit.GroupFits | Toss_Time/Pods/leveldb-library/db/db_impl.cc:1269-1300 | A group's operations can be counted in 32 bits |
| GroupCommit.GroupIsBounded | Toss_Time/Pods/leveldb-library/db/db_impl.cc:1266-1276 | A group bigger than its first batch stays within the limit, and within 128 KB of a small first batch |
| GroupCommit.WritePath.Enqueue | Toss_Time/Pods/leveldb-library/db/db_impl.cc:1185-1198 | A writer joins at any time, and the group under way is not disturbed |
| GroupCommit.WritePath.AnswerEmpty | Toss_Time/Pods/leveldb-library/db/db_impl.cc:1204-1237 | A writer without a batch is answered without a log record |
| GroupCommit.WritePath.BeginGroup | Toss_Time/Pods/leveldb-library/db/db_impl.cc:1204-1207 | The front writer builds its group |
| GroupCommit.WritePath.AddToLog | Toss_Time/Pods/leveldb-library/db/db_impl.cc:1213-1222 | The group is logged, once |
| GroupCommit.WritePath.ApplyOne | Toss_Time/Pods/leveldb-library/db/db_impl.cc:1223-1225 | Each operation applied gets a number above the last visible one |
| GroupCommit.WritePath.EndGroup | Toss_Time/Pods/leveldb-library/db/db_impl.cc:1236-1253 | The sequence number moves past the whole group; its writers are answered |
| GroupCommit.Write | Toss_Time/Pods/leveldb-library/db/db_impl.cc:1185-1256 | The front request is answered; every non-null batch is logged and applied once, in queue order, with consecutive sequence numbers |
| GroupCommit.ApplyRecord | Toss_Time/Pods/leveldb-library/db/db_impl.cc:418-453 | One log record brings back one group, with its sequence numbers |
| GroupCommit.RecoverLogFile | Toss_Time/Pods/leveldb-library/db/db_impl.cc:371-489 | Replaying any prefix of the log rebuilds exactly the groups wholly in it and the last sequence number |
| GroupCommit.RecoverAfterCrash | Toss_Time/Pods/leveldb-library/db/db_impl.cc:371-489 | After a crash: the longest whole sequence of groups, each in full or not at all; without a cut, the same memtable |
| SkipLists.LinkSplices | Toss_Time/Pods/leveldb-library/db/skiplist.h:361-368 | The store that links a node on a level splices it into that level's chain |
| SkipLists.SearchSurvives | Toss_Time/Pods/leveldb-library/db/skiplist.h:260-281 | A search in progress stays where it may stand while chains only grow |
| SkipLists.PublishKeeps | Toss_Time/Pods/leveldb-library/db/skiplist.h:361-368 | After every single link store level 0 is sorted, each level is a sublist of the one below, and the set grows by the key exactly at level 0 |
| SkipLists.StepKeeps | Toss_Time/Pods/leveldb-library/db/skiplist.h:337-368 | So does every step of the writer and of any reader |
| SkipLists.EveryRunAnswersRightly | Toss_Time/Pods/leveldb-library/db/skiplist.h:260-281 | On every interleaving an answered search names a node at or after its target with no key present at its start in between |
| SkipLists.SkipList.FindGreaterOrEqual | Toss_Time/Pods/leveldb-library/db/skiplist.h:260-281 | The first node at or after the key, and on every level the last node before it |
| SkipLists.SkipList.FindLessThan | Toss_Time/Pods/leveldb-library/db/skiplist.h:285-302 | The last node before the key |
| SkipLists.SkipList.FindLast | Toss_Time/Pods/leveldb-library/db/skiplist.h:305-322 | The last node, or the head of an empty list |
| SkipLists.SkipList.Contains | Toss_Time/Pods/leveldb-library/db/skiplist.h:371-378 | True exactly if the key is in the set |
| SkipLists.SkipList.BeginInsert | Toss_Time/Pods/leveldb-library/db/skiplist.h:337-354 | Up to the first link store nothing visible changes |
| SkipLists.SkipList.Prepare | Toss_Time/Pods/leveldb-library/db/skiplist.h:361-365 | The new node's own pointer is not visible |
| SkipLists.SkipList.Publish | Toss_Time/Pods/leveldb-library/db/skiplist.h:366 | One release store, after which the list is in order |
| SkipLists.SkipList.Insert | Toss_Time/Pods/leveldb-library/db/skiplist.h:337-368 | The set gains the key |
| MemTables.ParseUndoesAppend | Toss_Time/Pods/leveldb-library/db/dbformat.h:165-175 | Parsing an internal key gives back what was appended |
| MemTables.EntryIsSplit | Toss_Time/Pods/leveldb-library/db/memtable.cc:75-98 | An encoded entry splits into its internal key and its value |
| MemTables.PlaceIsNewest | Toss_Time/Pods/leveldb-library/db/memtable.cc:100-136 | The entry where the lookup key belongs is the newest eligible write, or there is none |
| MemTables.MemTable.Add | Toss_Time/Pods/leveldb-library/db/memtable.cc:75-98 | The table gains the write, at its place in the order |
| MemTables.MemTable.Get | Toss_Time/Pods/leveldb-library/db/memtable.cc:100-136 | The newest write to the user key at or below the sequence number: a value, a deletion, or nothing, for any total order of user keys |
| SnapshotLists.SnapshotList.Oldest | Toss_Time/Pods/leveldb-library/db/snapshot.h:47-50 | The live snapshot with the smallest number |
| SnapshotLists.SnapshotList.Newest | Toss_Time/Pods/leveldb-library/db/snapshot.h:51-54 | The live snapshot with the greatest number |
| SnapshotLists.SnapshotList.Empty | Toss_Time/Pods/leveldb-library/db/snapshot.h:46 | True exactly if no snapshot is live |
| SnapshotLists.SnapshotList.New | Toss_Time/Pods/leveldb-library/db/snapshot.h:57-71 | The circle gains the snapshot at its end |
| SnapshotLists.SnapshotList.Delete | Toss_Time/Pods/leveldb-library/db/snapshot.h:79-86 | The circle loses that snapshot, wherever it stands, and stays in order |
| Blocks.StaysIff | Toss_Time/Pods/leveldb-library/table/block.cc:54-77 | In a block below 4 GiB an accepted entry ends inside the block if and only if its two lengths do not wrap when they are added as 32-bit numbers |
| Blocks.AcceptedEntryMayNotStay | Toss_Time/Pods/leveldb-library/table/block.cc:70-77 | Seven bytes that are accepted although the value they announce ends far behind them |
| Blocks.BlockBuilder.Add | Toss_Time/Pods/leveldb-library/table/block_builder.cc:72-106 | The buffer goes on encoding the items: the longest prefix shared with the key before, or a full key at a restart point, one at every interval-th item |
| Blocks.BlockBuilder.CurrentSizeEstimate | Toss_Time/Pods/leveldb-library/table/block_builder.cc:56-60 | How long the block would be if it were finished now |
| Blocks.BlockBuilder.Finish | Toss_Time/Pods/leveldb-library/table/block_builder.cc:62-70 | The finished contents are a block of the items added |
| Blocks.BlockBuilder.EmptyBuffer | Toss_Time/Pods/leveldb-library/table/block_builder.h:42 | An empty buffer means that nothing was added |
| Blocks.FastPathAgrees | Toss_Time/Pods/leveldb-library/table/block.cc:54-74 | The fast path for three one-byte lengths agrees with the general decoding |
| Blocks.EntryIsRead | Toss_Time/Pods/leveldb-library/table/block.cc:54-74 | An encoded entry is read back |
| Blocks.BlockParts | Toss_Time/Pods/leveldb-library/table/block.cc:19-39 | Number and positions of the restart points are read back |
| Blocks.ParseReads | Toss_Time/Pods/leveldb-library/table/block.cc:224-250 | With the right key in hand, parsing at an item's offset gives the item |
| Blocks.BlockIter.FindRestart | Toss_Time/Pods/leveldb-library/table/block.cc:163-189 | Binary search: the restart point found is the first one or has a key before the target |
| Blocks.BlockIter.Seek | Toss_Time/Pods/leveldb-library/table/block.cc:163-199 | The first item whose key is at or after the target, or the end |
| Blocks.BlockIter.SeekToFirst | Toss_Time/Pods/leveldb-library/table/block.cc:203-206 | The first item |
| Blocks.BlockIter.SeekToLast | Toss_Time/Pods/leveldb-library/table/block.cc:208-213 | The last item |
| Blocks.BlockIter.Next | Toss_Time/Pods/leveldb-library/table/block.cc:137-140 | The next item in order |
| Blocks.BlockIter.Prev | Toss_Time/Pods/leveldb-library/table/block.cc:142-161 | The item before, so Prev undoes Next |
| Blocks.BlockIter.Key | Toss_Time/Pods/leveldb-library/table/block.cc:128-131 | The full key of the current item, put together from shared prefixes |
| Blocks.BlockIter.Value | Toss_Time/Pods/leveldb-library/table/block.cc:132-135 | The value of the current item |
| Separators.BytewiseIsTotal | Toss_Time/Pods/leveldb-library/util/comparator.cc:25-27 | The bytewise order is a total order |
| Separators.FindShortestSeparator | Toss_Time/Pods/leveldb-library/util/comparator.cc:29-50 | Cut off and stepped up at the first byte that differs if it differs by more than one, and otherwise unchanged; no longer than the start, and strictly between the two keys if changed |
| Separators.FindShortSuccessor | Toss_Time/Pods/leveldb-library/util/comparator.cc:52-64 | Cut off and stepped up at the first byte that can be; greater, and nothing shorter is greater |
| Separators.InternalIsTotal | Toss_Time/Pods/leveldb-library/db/dbformat.cc:51-67 | Encoded internal keys are totally ordered |
| Separators.InternalSeparator | Toss_Time/Pods/leveldb-library/db/dbformat.cc:69-86 | At or after the start and before the limit; if the user key is shortened, which happens exactly where that takes off a byte, it is the earliest key of one strictly between |
| Separators.InternalSuccessor | Toss_Time/Pods/leveldb-library/db/dbformat.cc:88-101 | At or after the key; shortened exactly where that takes off a byte |
| Filters.SetBitSets | Toss_Time/Pods/leveldb-library/util/bloom.cc:50 | Setting a bit sets that bit and leaves every other |
| Filters.BloomFilterPolicy.CreateFilter | Toss_Time/Pods/leveldb-library/util/bloom.cc:28-54 | A bit is set exactly if it is a probe of some key, in a filter with so many bits for each key, at least 64, rounded up to bytes |
| Filters.BloomFilterPolicy.AddProbes | Toss_Time/Pods/leveldb-library/util/bloom.cc:46-52 | The probes of one key are set, those of the keys before stay set, and no other bit is |
| Filters.BloomFilterPolicy.KeyMayMatch | Toss_Time/Pods/leveldb-library/util/bloom.cc:56-80 | Matches exactly if all probes are set, with the cases of short filters and reserved probe counts |
| Filters.NoFalseNegative | Toss_Time/Pods/leveldb-library/util/bloom.cc:28-80 | A filter created for a key matches it, whatever the hash function, and whatever number of bits the reader is set to |
| Filters.FilterIsKept | Toss_Time/Pods/leveldb-library/table/filter_block.cc:51-75 | Generating a filter keeps the ones before, and the keys that wait, and only they, get theirs |
| Filters.FilterIsFound | Toss_Time/Pods/leveldb-library/table/filter_block.cc:77-104 | The offset arithmetic leads to the filter of the range, which is the one of exactly the keys added for its blocks |
| Filters.FilterBlockBuilder.StartBlock | Toss_Time/Pods/leveldb-library/table/filter_block.cc:21-27 | There is one filter for every 2 KB of offsets in front of the block |
| Filters.FilterBlockBuilder.AddKey | Toss_Time/Pods/leveldb-library/table/filter_block.cc:29-33 | The key waits for the filter of its block |
| Filters.FilterBlockBuilder.Finish | Toss_Time/Pods/leveldb-library/table/filter_block.cc:35-49 | The finished filter block has, for each range of offsets, the filter of exactly the keys added for it |
| Filters.FilterBlockReader.KeyMayMatch | Toss_Time/Pods/leveldb-library/table/filter_block.cc:90-104 | No false negative: true for every key added for that block offset, and on every error; and up to the last range with keys true exactly if every probe of the key is one of a key added for the range |
| TableFormat.DecodeUndoesHandle | Toss_Time/Pods/leveldb-library/table/format.cc:15-29 | Block handles are read back, and the rest of the input is left |
| TableFormat.HandleLength | Toss_Time/Pods/leveldb-library/table/format.h:26-27 | A handle never needs more than the 20 bytes that the footer keeps for it |
| TableFormat.DecodeUndoesFooter | Toss_Time/Pods/leveldb-library/table/format.cc:31-62 | The padded footer gives both handles back |
| Spellings.DecodeFooterIff | Toss_Time/Pods/leveldb-library/table/format.cc:42-62 | A footer is accepted exactly if it has the magic number at its end and starts with two handles |
| TableFormat.AppendedIsRead | Toss_Time/Pods/leveldb-library/table/format.cc:64-139 | A block appended with its trailer is read back, compressed or not, with checksums verified or not |
| TableFormat.BlockSurvives | Toss_Time/Pods/leveldb-library/table/format.cc:64-139 | Whatever is appended to the file later, a block stays readable |
| TableFormat.ReadBlockIff | Toss_Time/Pods/leveldb-library/table/format.cc:64-139 | Of any file a block is read exactly if it lies in it, has one of the two types, stands for the contents, and, with checksums verified, has the trailer that the writer puts behind it |
| Tables.SeparatorsAscend | Toss_Time/Pods/leveldb-library/table/table_builder.cc:94-123 | The index keys ascend strictly |
| Tables.EntriesAscend | Toss_Time/Pods/leveldb-library/table/table_builder.cc:94-123 | The entries of a table ascend strictly, across its blocks too |
| Tables.IndexLeadsToFirst | Toss_Time/Pods/leveldb-library/table/table.cc:216-227 | The index leads to the block of the first entry at or after the key, if that entry has its user key, despite shortened separators |
| Tables.FoundIsFirst | Toss_Time/Pods/leveldb-library/table/table.cc:227-238 | What is found in that block is the first entry of the table at or after the key |
| Tables.ReadMeta | Toss_Time/Pods/leveldb-library/table/table.cc:84-134 | The filter is found through the metaindex if the table has one |
| Tables.Open | Toss_Time/Pods/leveldb-library/table/table.cc:38-82 | Opening fails exactly if the footer is missing or bad or the index cannot be read; a table that was built is opened as what it is |
| Tables.Table.SeekIndex | Toss_Time/Pods/leveldb-library/table/table.cc:216-222 | The first separator at or after the key, and its handle |
| Tables.Table.SeekBlock | Toss_Time/Pods/leveldb-library/table/table.cc:229-235 | The first entry of the block at or after the key |
| Tables.Table.InternalGet | Toss_Time/Pods/leveldb-library/table/table.cc:216-244 | Hands on only the first entry of the table at or after the key, and hands it on whenever it has the key's user key, filter or not |
| Tables.OpenAndGet | Toss_Time/Pods/leveldb-library/table/table.cc:38-244 | Bytes that were built as a table, opened and asked: the answer is right whether checksums are verified or not, with a filter policy or without |
| TableBuilding.TableBuilder.Add | Toss_Time/Pods/leveldb-library/table/table_builder.cc:94-123 | The table's entries grow by the new one; blocks, delayed index entries and filter stay consistent, and the block is finished exactly when it reaches the block size |
| TableBuilding.TableBuilder.SettlePending | Toss_Time/Pods/leveldb-library/table/table_builder.cc:102-109 | The delayed index entry gets a key between the last block and the new key |
| TableBuilding.TableBuilder.Flush | Toss_Time/Pods/leveldb-library/table/table_builder.cc:125-139 | The data block is written, with its restart points at every interval-th item; no entry is lost |
| TableBuilding.TableBuilder.WriteRawBlock | Toss_Time/Pods/leveldb-library/table/table_builder.cc:177-194 | The block goes to the end of the file, where its handle says it can be read |
| TableBuilding.TableBuilder.WriteBlock | Toss_Time/Pods/leveldb-library/table/table_builder.cc:141-175 | The same for what compression makes of a block, which is stored exactly if that saves more than an eighth |
| TableBuilding.TableBuilder.Finish | Toss_Time/Pods/leveldb-library/table/table_builder.cc:198-253 | The bytes of the file are those of a table with exactly the entries added, in order: the blocks lie end to end, the filter was given exactly their user keys, and the footer leads to the rest |
| TableBuilding.Build | Toss_Time/Pods/leveldb-library/table/table_builder.cc:94-253 | Adding entries one by one and finishing gives such a file, for any block size, restart interval, compression and filter; each block but the last ends with the item that takes it to the block size, and is stored compressed exactly if that pays |
| EncodedReads.RankIsOrder | Toss_Time/Pods/leveldb-library/util/comparator.cc:25-27 | The bytewise order is an order of ranks in the real line: byte strings compare as their ranks do |
| EncodedReads.OrderIsEncoded | Toss_Time/Pods/leveldb-library/db/dbformat.cc:51-67 | Encoded internal keys compare as the keys of the engine do |
| EncodedReads.AppendUndoesParse | Toss_Time/Pods/leveldb-library/db/dbformat.h:165-175 | A key that parses is the encoding of what was parsed |
| EncodedReads.RunIsSorted | Toss_Time/Pods/leveldb-library/table/table.cc:216-244 | The entries of a table are a sorted run of the engine |
| EncodedReads.TableGet | Toss_Time/Pods/leveldb-library/db/version_set.cc:263-276 | Opening the handed-on entry as Version::Get does gives, byte for byte, what the engine's lookup in the sorted run gives |
| EncodedReads.MemGetIsRunGet | Toss_Time/Pods/leveldb-library/db/memtable.cc:100-136 | The answer of a memtable is the engine's lookup in a sorted run of its writes |
| EditCoding.DecodeUndoesField | Toss_Time/Pods/leveldb-library/db/version_edit.cc:115-190 | Every tagged field is read back |
| EditCoding.DecodeUndoesFields | Toss_Time/Pods/leveldb-library/db/version_edit.cc:107-203 | Every sequence of fields is read back |
| EditCoding.DecodeUndoesEncode | Toss_Time/Pods/leveldb-library/db/version_edit.cc:41-205 | Decoding an encoded edit into any edit gives the encoded one behind the compaction pointers that were there |
| EditCoding.DecodeUndoesEncodeIff | Toss_Time/Pods/leveldb-library/db/version_edit.cc:26-39 | Decoding undoes encoding if and only if the receiving edit has no compaction pointers: Clear does not reset them |
| EditCoding.EncodingIsInjective | Toss_Time/Pods/leveldb-library/db/version_edit.cc:41-85 | Edits with one encoding are one edit |
| EditCoding.VersionEdit.Clear | Toss_Time/Pods/leveldb-library/db/version_edit.cc:26-39 | Forgets everything but the compaction pointers |
| EditCoding.VersionEdit.EncodeTo | Toss_Time/Pods/leveldb-library/db/version_edit.cc:41-85 | Appends an encoding of the edit, deleted files in the order of the set |
| EditCoding.VersionEdit.DecodeFrom | Toss_Time/Pods/leveldb-library/db/version_edit.cc:107-205 | Applies the fields up to the first malformed one to the cleared edit, and says whether there was one |
| Spellings.DecodeFieldsIff | Toss_Time/Pods/leveldb-library/db/version_edit.cc:97-213 | A record is accepted exactly if it spells fields with known tags and existing levels, to its last byte |
| Manifests.FileIsReadBack | Toss_Time/Pods/leveldb-library/db/version_set.cc:1104-1111 | A file whose range can be written down is rebuilt from its record and its table |
| ManifestKeys.KeyIsWritten | Toss_Time/Pods/leveldb-library/db/dbformat.cc:20-23 | An internal key is written as its user key and tag, and read back as the key of the same rank |
| ManifestKeys.ByteDiskReadsBack | Toss_Time/Pods/leveldb-library/db/version_edit.cc:87-95 | Whatever a MANIFEST gives as a key can be written down again: byte strings meet what the MANIFEST needs of its keys |
| ManifestKeys.RecordAndRecover | Toss_Time/Pods/leveldb-library/db/version_set.cc:801-1011 | A table with byte-string keys that is recorded in the MANIFEST of a new database is there after recovery |
| Manifests.ApplyPointers | Toss_Time/Pods/leveldb-library/db/version_set.cc:652-658 | The last pointer named for a level wins |
| Manifests.VersionSet.FillIn | Toss_Time/Pods/leveldb-library/db/version_set.cc:802-816 | The edit gets the counters it does not bring along |
| Manifests.VersionSet.SnapshotEdit | Toss_Time/Pods/leveldb-library/db/version_set.cc:1088-1116 | The snapshot record holds every file of every level and every compaction pointer |
| Manifests.VersionSet.OpenManifest | Toss_Time/Pods/leveldb-library/db/version_set.cc:828-843 | A new MANIFEST starts with a snapshot of what is current |
| Manifests.VersionSet.LogAndApply | Toss_Time/Pods/leveldb-library/db/version_set.cc:801-884 | The edit becomes current, and the MANIFEST, which only grows, now ends with the record that brings back exactly this state |
| Manifests.SavedIsInstalled | Toss_Time/Pods/leveldb-library/db/version_set.cc:933-968 | A builder fed with the first k edits saves the version that was current after the last of them, file by file |
| Manifests.ApplyRecord | Toss_Time/Pods/leveldb-library/db/version_set.cc:933-968 | One record is decoded and adds to builder, pointers and counters what its edit installed; refused exactly if it names another comparator |
| Manifests.Recover | Toss_Time/Pods/leveldb-library/db/version_set.cc:886-1011 | Reading any prefix of a MANIFEST gives the state after the last whole edit; with the snapshot alone, or with another comparator than the one on record, an error |
| Manifests.RecoverAfterCrash | Toss_Time/Pods/leveldb-library/db/version_set.cc:886-1011 | After a crash: the state of the last edit wholly on disk, and file numbers that no table and no log has; without a cut, the current state |
| DbImpl.ListOf | Toss_Time/Pods/leveldb-library/db/version_set.cc:990-1001 | The version put together from the MANIFEST becomes the current one of a new list, file by file |
| DbImpl.DB.FromVersion | Toss_Time/Pods/leveldb-library/db/db_impl.cc:305-336 | A database that starts with a recovered version and empty memory |
| Durability.StepKeepsDurable | Toss_Time/Pods/leveldb-library/db/db_impl.cc:535-566 | In every state the tables alone answer every read as of the oldest write that is in memory only; every step keeps that, but an install whose guard holds on the tables |
| Durability.InstallKeepsDurableIff | Toss_Time/Pods/leveldb-library/db/db_impl.cc:860-876 | An install keeps the answers of the tables alone if and only if the guard does not hold on them |
| Durability.ClosedNeverResurrectsOnDisk | Toss_Time/Pods/leveldb-library/db/version_set.cc:1403-1416 | With closed level+1 inputs that guard cannot hold either |
| Durability.OnlyTablesIsOk | Toss_Time/Pods/leveldb-library/db/db_impl.cc:280-336 | What is left when memory is lost is a database with the invariant, which holds exactly what was written before the first write in memory |
| Durability.PaddedReads | Toss_Time/Pods/leveldb-library/db/db_impl.cc:362-366 | Sequence numbers that are passed over when the MANIFEST knows a later one than the logs change no read |
| Stores.EditDeterminesVersion | Toss_Time/Pods/leveldb-library/db/version_set.cc:801-884 | An edit determines the version it leads to, so the MANIFEST and the list of versions go on alike |
| Stores.StoreStepKeeps | Toss_Time/Pods/leveldb-library/db/db_impl.cc:535-566 | Writing a group to the log, applying it, switching logs, flushing, moving, installing: after every step each version on record in the MANIFEST holds what was written before the log on record with it |
| Stores.EveryRunKeepsStore | Toss_Time/Pods/leveldb-library/db/db_impl.cc:535-566 | So in every state of every run of an opened database |
| CutLogs.ReplayIsRunIff | Toss_Time/Pods/leveldb-library/db/db_impl.cc:338-366 | Replaying cut logs one after the other gives an unbroken run of writes, and then what some number of whole groups wrote, if and only if no operation is lost in front of one that is left |
| Recovery.Rebuild.Add | Toss_Time/Pods/leveldb-library/db/write_batch.cc:116-129 | An operation of a log record enters the memtable with the number that the record gives it |
| Recovery.Rebuild.InsertRecord | Toss_Time/Pods/leveldb-library/db/db_impl.cc:417-440 | A log record is applied: its whole group is in, and the greatest sequence number seen is kept |
| Recovery.Rebuild.WriteLevel0Table | Toss_Time/Pods/leveldb-library/db/db_impl.cc:491-533 | The memtable becomes a table of level 0 with exactly its entries under the next file number, and nothing that was read changes |
| Recovery.Rebuild.ReplayRecord | Toss_Time/Pods/leveldb-library/db/db_impl.cc:417-455 | One record goes into the memtable, which is written out if that takes it over the write buffer size |
| Recovery.Rebuild.RecoverLogFile | Toss_Time/Pods/leveldb-library/db/db_impl.cc:371-489 | Exactly the whole groups in what is left of the log are replayed; the memtable is written out behind exactly the records that take it over the write buffer size |
| Recovery.Rebuild.MarkFileNumberUsed | Toss_Time/Pods/leveldb-library/db/version_set.cc:1044-1048 | The number of a log that was found is not given out again |
| Recovery.ReplayLogs | Toss_Time/Pods/leveldb-library/db/db_impl.cc:313-366 | The logs from the one on record on, however they are listed, are replayed oldest first; the next file number is then greater than each of theirs, and the greatest sequence number in them is known |
| Opening.BaseIsOk | Toss_Time/Pods/leveldb-library/db/db_impl.cc:302-336 | The version on record, with its files there, is a database with the invariant that holds what was written before the log on record |
| Opening.RebuildFrom | Toss_Time/Pods/leveldb-library/db/db_impl.cc:338-366 | Version and logs give a database that answers every read as the groups left say, numbering on from the greatest sequence number on record or left in the logs, with a new log greater than every log replayed and not below the next file number on record |
| Opening.Open | Toss_Time/Pods/leveldb-library/db/db_impl.cc:1474-1513 | A MANIFEST and logs cut by a crash, and the name of a comparator, give an error, or the missing files, or a database with the invariant that answers every read as the groups left say, goes on from the greatest sequence number on record or left, and has a new log and file numbers greater than those of all logs found |
| Opening.LeftAreWholeGroups | Toss_Time/Pods/leveldb-library/db/db_impl.cc:313-366 | The groups left are the first n, each in full, and all of them if no log was cut |
| Opening.OpenedStartsAnew | Toss_Time/Pods/leveldb-library/db/db_impl.cc:1474-1513 | Opened with no number passed over, the database with its new log is again one whose MANIFEST and logs a crash may cut |
| Opening.Create | Toss_Time/Pods/leveldb-library/db/db_impl.cc:1474-1513 | A new database, with its first log and a MANIFEST of the empty version, is one too |
| LruCaches.LruRemove | Toss_Time/Pods/leveldb-library/util/cache.cc:239-242 | Takes an item out of a circular list and leaves the rest in order |
| LruCaches.LruAppend | Toss_Time/Pods/leveldb-library/util/cache.cc:244-250 | Makes an item the newest of a circular list |
| LruCaches.HandleTable.FindPointer | Toss_Time/Pods/leveldb-library/util/cache.cc:114-120 | The slot of the handle with the key, or the last slot of its bucket |
| LruCaches.HandleTable.Lookup | Toss_Time/Pods/leveldb-library/util/cache.cc:74-76 | The handle with the key, or that there is none |
| LruCaches.HandleTable.Insert | Toss_Time/Pods/leveldb-library/util/cache.cc:78-92 | The table holds the handle instead of the one with its key, also when it grows, which it does exactly when there are more handles than buckets |
| LruCaches.HandleTable.Remove | Toss_Time/Pods/leveldb-library/util/cache.cc:94-102 | The table loses the handle with the key, and only that |
| LruCaches.HandleTable.Resize | Toss_Time/Pods/leveldb-library/util/cache.cc:122-146 | The same handles in a table of the least power of two of buckets, from four on, that is not below their number |
| LruCaches.EvictCountIsLeast | Toss_Time/Pods/leveldb-library/util/cache.cc:293-300 | Eviction stops as soon as the rest fits or nothing is left to evict |
| LruCaches.LRUCache.RefsTellList | Toss_Time/Pods/leveldb-library/util/cache.cc:183-192 | In every reachable state: cached with one reference exactly on the LRU list, cached with more exactly on the in-use list, cached exactly in the hash table |
| LruCaches.LRUCache.DeletedOnce | Toss_Time/Pods/leveldb-library/util/cache.cc:225-237 | Every entry inserted is either alive or has had its deleter run, and no deleter runs twice |
| LruCaches.LRUCache.Ref | Toss_Time/Pods/leveldb-library/util/cache.cc:217-223 | One more reference; an entry that only the cache held moves to the in-use list |
| LruCaches.LRUCache.Unref | Toss_Time/Pods/leveldb-library/util/cache.cc:225-237 | One reference less: freed with the last one, newest on the LRU list when only the cache is left |
| LruCaches.LRUCache.FinishErase | Toss_Time/Pods/leveldb-library/util/cache.cc:307-316 | The entry leaves list, usage and cache; it is freed if no client holds it |
| LruCaches.LRUCache.Lookup | Toss_Time/Pods/leveldb-library/util/cache.cc:252-259 | The cached entry with the key and a reference to it, or that there is none; nothing else changes |
| LruCaches.LRUCache.Release | Toss_Time/Pods/leveldb-library/util/cache.cc:261-264 | One client reference less, with the three outcomes spelled out |
| LruCaches.LRUCache.Insert | Toss_Time/Pods/leveldb-library/util/cache.cc:266-303 | The new entry replaces the one with its key, then the fewest oldest unused entries leave; afterwards usage is within capacity or the LRU list is empty |
| LruCaches.LRUCache.Erase | Toss_Time/Pods/leveldb-library/util/cache.cc:318-321 | Exactly the entry with the key leaves the cache |
| LruCaches.LRUCache.EvictOldest | Toss_Time/Pods/leveldb-library/util/cache.cc:294-299 | The oldest unused entry is the one that leaves |
| LruCaches.LRUCache.Prune | Toss_Time/Pods/leveldb-library/util/cache.cc:323-333 | All unused entries leave, oldest first |
| LruCaches.LRUCache.Destroy | Toss_Time/Pods/leveldb-library/util/cache.cc:205-215 | The destructor deletes every cached entry once |
| NanopbTypes.FieldIter.Next | Toss_Time/Pods/nanopb/pb_common.c:20-76 | The next field, around the end, counting required fields |
| NanopbTypes.FieldIter.Find | Toss_Time/Pods/nanopb/pb_common.c:78-95 | The field with the tag from wherever the iterator stands, or that there is none |
| NanopbEncode.OStream.Write | Toss_Time/Pods/nanopb/pb_encode.c:103-125 | The bytes go out if they fit; a counting stream only counts |
| NanopbEncode.OStream.Varint | Toss_Time/Pods/nanopb/pb_encode.c:608-628 | Seven bits a byte; the last byte's top bit is cleared |
| NanopbEncode.OStream.String | Toss_Time/Pods/nanopb/pb_encode.c:709-715 | The length, then the bytes |
| NanopbEncode.PbEncodeSubmessage | Toss_Time/Pods/nanopb/pb_encode.c:717-765 | The counting pass gives the very length that the writing pass needs: "submsg size changed" is no possible outcome, at any depth |
| NanopbEncode.PackedSize | Toss_Time/Pods/nanopb/pb_encode.c:169-197 | The size of a packed array, computed or counted, is that of its items |
| NanopbEncode.PbEncodeArray | Toss_Time/Pods/nanopb/pb_encode.c:147-236 | Nothing, an error, a packed array under one length, or every item under its tag |
| NanopbEncode.PbEncodeField | Toss_Time/Pods/nanopb/pb_encode.c:341-427 | Required, present optional and counted repeated fields are written, absent ones not |
| NanopbEncode.PbEncodeValue | Toss_Time/Pods/nanopb/pb_encode.c:769-912 | Every field type's encoding, with its descriptor errors |
| NanopbEncode.PbEncode | Toss_Time/Pods/nanopb/pb_encode.c:528-550 | The fields in order; a counting and a writing stream get the same bytes |
| NanopbEncode.PbGetEncodedSize | Toss_Time/Pods/nanopb/pb_encode.c:567-576 | Exactly the number of bytes that encoding writes |
| NanopbDecode.ReadScalar | Toss_Time/Pods/nanopb/pb_decode.c:1328-1564 | What each decoder accepts is a value of its field's type |
| NanopbDecode.ReadFields | Toss_Time/Pods/nanopb/pb_decode.c:928-1024 | Whatever the input, the structure keeps its types |
| NanopbParses.AcceptedIff | Toss_Time/Pods/nanopb/pb_decode.c:928-1076 | A message is accepted exactly if it is fields to its end, or to a zero, with each of the first 64 required ones among them, and the structure holds what they make of it one after the other |
| NanopbParses.MissingIsRefused | Toss_Time/Pods/nanopb/pb_decode.c:1033-1073 | A message without one of them is refused, whatever else is in it |
| NanopbParses.ConcatIsMerge | Toss_Time/Pods/nanopb/pb_decode.c:928-1024 | Messages laid end to end are decoded into the structure one after the other |
| NanopbParses.UnknownIsSkipped | Toss_Time/Pods/nanopb/pb_decode.c:956-974 | A field that the message does not have, of any wire type, changes nothing wherever it stands |
| NanopbParses.BadWireTypeIsRefused | Toss_Time/Pods/nanopb/pb_decode.c:324-334 | With another wire type such a field ends the decoding in an error |
| NanopbParses.OlderReaderSkips | Toss_Time/Pods/nanopb/pb_encode.c:147-236 | What the encoder writes for any field is skipped by a reader whose message does not have the field: payloads fit the wire types in front of them |
| NanopbParses.LastValueStays | Toss_Time/Pods/nanopb/pb_decode.c:406-440 | Of a plain field that comes more than once the last value stays |
| NanopbParses.SubmessageIsMerged | Toss_Time/Pods/nanopb/pb_decode.c:1517-1551 | A submessage sent in two fields is the submessage sent in one |
| NanopbBounds.SlotStaysFit | Toss_Time/Pods/nanopb/pb_decode.c:406-486 | No array gets more items than it has room for, no byte field more bytes, and every string keeps room for its NUL |
| NanopbBounds.DecodedFits | Toss_Time/Pods/nanopb/pb_decode.c:1078-1090 | So whatever the input, what is decoded fits the structure |
| NanopbVarints.ReadVarint32Is | Toss_Time/Pods/nanopb/pb_decode.c:187-252 | Of any terminated bytes: up to five are read exactly if the number is below 2^32; of more the low 32 bits are read if only padding follows |
| NanopbVarints.UnendedIsRefused | Toss_Time/Pods/nanopb/pb_decode.c:187-252 | Bytes that do not end are refused |
| NanopbVarints.OverflowIsLetThrough | Toss_Time/Pods/nanopb/pb_decode.c:214-246 | Every overflow that is refused in five bytes is let through, without its upper bits, when a zero byte follows |
| NanopbVarints.SignedIs | Toss_Time/Pods/nanopb/pb_decode.c:1339-1376 | A signed value is stored exactly if it fits the field, never cut off; up to 32 bits it is the low half of the varint |
| NanopbVarints.UnsignedIs | Toss_Time/Pods/nanopb/pb_decode.c:1378-1401 | An unsigned one is the varint itself, if it fits |
| NanopbVarints.ZigZagIs | Toss_Time/Pods/nanopb/pb_decode.c:1403-1425 | A zig-zag one is read exactly from what the encoder makes of it, if it fits |
| NanopbVarints.NoBytesAreZeros | Toss_Time/Pods/nanopb/pb_decode.c:1543-1564 | No bytes stand for zeros in a field of a fixed number of bytes |
| NanopbDecoder.IStream.DecodeVarint32 | Toss_Time/Pods/nanopb/pb_decode.c:187-252 | The loop with its overflow and sign-extension checks |
| NanopbDecoder.IStream.DecodeVarint | Toss_Time/Pods/nanopb/pb_decode.c:255-275 | The 64-bit loop, at most ten bytes |
| NanopbDecoder.IStream.SkipField | Toss_Time/Pods/nanopb/pb_decode.c:278-334 | Skips a field of any wire type |
| NanopbDecoder.PbDecodeField | Toss_Time/Pods/nanopb/pb_decode.c:406-486 | Required, optional, packed and unpacked repeated fields |
| NanopbDecoder.CheckRequired | Toss_Time/Pods/nanopb/pb_decode.c:1033-1073 | True exactly if every tracked required field was seen |
| NanopbDecoder.PbDecodeNoinit | Toss_Time/Pods/nanopb/pb_decode.c:928-1076 | The loop over tags: known fields stored, unknown ones skipped, a zero ends the message |
| NanopbDecoder.PbDecode | Toss_Time/Pods/nanopb/pb_decode.c:1078-1090 | Decoding into a structure set to its defaults |
| NanopbRoundTrip.Varint32IsRead | Toss_Time/Pods/nanopb/pb_decode.c:187-252 | Every 32-bit number is read back |
| NanopbRoundTrip.SignedIsRead | Toss_Time/Pods/nanopb/pb_decode.c:1339-1374 | Negative numbers come back at every width, sign-extended to 64 bits in between |
| NanopbRoundTrip.ZigZagIsRead | Toss_Time/Pods/nanopb/pb_decode.c:1279-1291 | Zig-zag numbers come back |
| NanopbRoundTrip.ScalarIsRead | Toss_Time/Pods/nanopb/pb_decode.c:1328-1564 | Every value but a submessage comes back, or, a string without room for its NUL, is refused |
| NanopbRoundTrip.PackedIsRead | Toss_Time/Pods/nanopb/pb_decode.c:423-452 | A packed array comes back item by item |
| NanopbRoundTrip.MessageIsRead | Toss_Time/Pods/nanopb/pb_decode.c:928-1090 | An encoded message decodes if and only if every string sent leaves room for its NUL, and then it comes back as sent |
| NanopbRoundTrip.SentMessageEncodesAlike | Toss_Time/Pods/nanopb/pb_encode.c:528-550 | Encoding the message that came back gives the same bytes: nothing sent is lost |
| NanopbDecoder.RoundTrip | Toss_Time/Pods/nanopb/pb_encode.c:567-576 | With a buffer of the computed size, encoding never runs out of room and decoding gives the message back |

## Left out

- GroupCommit.Write: does not model a failing log write or sync, which makes the database refuse further writes; I/O errors are left out everywhere.
- GroupCommit.BuildBatchGroup: works on lists of operations, so it does not capture that a lone batch is used in place and a longer group is copied into `tmp_batch_`.
- Versions.Get: does not model the `kCorrupt` outcome or seek statistics; tables hold well-formed internal keys.
- CompactionWork.ShouldDrop: does not model keys that fail to parse, which are kept as they are.
- CompactionWork.DoCompactionWork: does not model shutdown in mid-compaction; a failing compaction is `DbImpl.DB.AbandonCompaction`.
- CompactionInputs.PickCompaction: takes the file that was sought too often as an argument; the seek counts that lead to it are left out, and scores are real numbers without rounding.
- Manifests.VersionSet.LogAndApply: requires that a file number names one file per level, as the engine's own edits do; it does not model failures between writing and installing, nor the early update of a compaction pointer by `SetupOtherInputs`.
- Manifests.Recover: takes files that are prefixes of what was written; other corruptions, the CURRENT file and reuse of an old MANIFEST are left out.
- Opening.Open: takes logs that have lost no operation in front of one that is left, since a history has no gaps (`CutLogs.ReplayIsRunIff` says what happens otherwise); a sequence number passed over is modelled as a deletion of a key never written, and the write path goes on (`Committing.Committer.Resume`) only if none is.  Reuse of the last log, recovery from a log with damage inside (what is then read is `LogChecks.RecordIsGenuine`), CURRENT and the LOCK file are left out.
- Opening.Create: records the first log in a MANIFEST that starts with a snapshot; the one-record MANIFEST that `NewDB` writes before it is left out.
- Recovery.Rebuild.RecoverLogFile: gives the whole log's groups; that a bad record is passed over or ends recovery is there in the code but cannot come up on a log that was only cut.
- Stores.StoreStepKeeps: writes a record of the MANIFEST and installs its version in one step; the source lets the mutex go while it writes, so a crash in between finds a record of a version that was never current, which the step counts as installed.
- LogReaders.Reader.ReadRecord: models `initial_offset` zero only, as every caller uses it, so resynchronisation is left out.
- DbIterators.DbIter.Seek: runs over the entries that existed when the iterator was made; later insertions into the same memtable are newer than its sequence number and invisible to it (`Lookups.GrownReadsAlike`).
- Runs.AddConcatenated: gives the files of a level to the merging iterator as one run; that a two-level iterator, opening one file at a time, is a cursor on that run is `Runs.NewConcatenatingIterator`.
- DbImpl.DB.DeleteObsoleteFiles: decides by file number for tables; logs, MANIFESTs and temporary files are left out.
- DbImpl.DB.CompactMemTable: builds and installs the table in one step; the source lets the mutex go while it builds, but its number is then a pending output and only the thread that builds deletes files or installs edits.
- CompactionInputs.CompactRange: chooses inputs only; manual compactions are not steps of the engine's state machine.
- MemTables.MemTable.FindGreaterOrEqual: scans the sorted entries; the search through the levels is `SkipLists.SkipList.FindGreaterOrEqual`.
- SkipLists.SkipList.Insert: does not model memory orderings; steps are sequentially consistent, and the height is any number from 1 to 12.
- Tables.Open: says nothing of a file that has a footer and a readable index but was not built by the builder.
- Tables.Table.InternalGet: does not go through the block cache, which returns blocks that were read before.
- TableFormat.ReadBlock: takes sizes as they are; the source adds five to them in 64 bits, which wraps for sizes within five of 2^64.
- TableBuilding.TableBuilder.Finish: speaks of files below 2^64 bytes whose blocks are below 4 GiB; the source does not check this.
- Blocks.BlockIter.Seek: runs over well-formed blocks; on damaged ones only the decoding of an entry is modelled.
- Filters.FilterBlockBuilder.AddKey: keeps the waiting keys as a list, not flattened into one string.
- LruCaches.LRUCache.Insert: models one shard; the mutex makes every call atomic, and the deleter is a log of the entries it was called for.
- NanopbDecoder.PbDecodeNoinit: does not model oneof, fixed-count, pointer, callback and extension fields, proto3 fields without a `has_` flag, nor an empty descriptor that meets field number zero.
- NanopbRoundTrip.MessageIsRead: takes encodings below 4 GiB, since the decoder reads lengths as 32-bit numbers.
- NanopbDecoder.IStream.DecodeVarint32: does not model the wrap-around of the eight-bit bit position in a varint of more than 36 bytes.
- WriteBatches.WriteBatch.Put: keys and values below 4 GiB, whose lengths fit the 32 bits they are written with.
- Level-0 write slowdowns, `MakeRoomForWrite`'s waiting, `GetApproximateSizes`, properties and logging: policy.
- The arena, `Env` files, file names and the LOCK file: allocation is always fresh and a file is a sequence of bytes.
- `repair.cc`, `dumpfile.cc`, `c.cc`, `DestroyDB`, and all of the app's Swift code: thin wrappers or no logic to prove.
