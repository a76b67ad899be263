# LevelDB engine and nanopb: a verified model

This project models two libraries that the Flash Chat application ships, and proves what they
are for.

**LevelDB** (`Pods/leveldb-library`) is a multi-version key/value store with a write-ahead log,
a skip-list memtable, background flushes and compactions, snapshots and crash recovery.
**nanopb** (`Pods/nanopb`) encodes and decodes Protocol Buffers messages from descriptors.

`dafny verify dfyconfig.toml` checks everything.

## How it is laid out

| modules | what they model |
|---|---|
| `EngineModel`, `EngineViews`, `EngineInvariant`, `EngineClients`, `EngineBackground`, `EngineRisk`, `EngineRecovery`, `EngineLosses`, `Engine`, `EngineFiles`, `EngineProgress` | the engine as a state machine; a step is what one thread does between two points where it takes or releases the mutex, and slow work with the mutex released is a step of its own, so a crash may come anywhere |
| `DbImpl` | the loops those steps stand for: replaying a log, reading through the layers, collecting files |
| `WriteQueue`, `GroupCommit`, `EngineRefinement` | the queue of writers, thread by thread, the building of a group, and that queue and ring of snapshots do what the engine's steps say |
| `DbIter`, `Compaction`, `Lookup` | the two-way iterator, the compaction loop, and what a read at a snapshot means |
| `SkipList`, `MemTable`, `Snapshots` | the skip list with readers between any two stores, the memtable over it, the ring of snapshots |
| `LogFormat`, `LogRecords`, `LogFiles`, `LogWriter`, `LogReader`, `Crc32c`, `CrcOfEmpty` | the block-structured log: layout, reassembly, both sides, and its checksum |
| `LogStanding`, `LogDrift`, `LogFailures`, `LogAccounting` | what a write that fails half way does to the records that follow it, and what becomes of every byte that is read |
| `WriteBatch`, `VersionEdit`, `DbFormat`, `Coding`, `Numerals`, `DiskLayout` | the encodings everything on disk is made of, and what they are to a reader written in numbers |
| `PbVarint`, `PbStreams`, `PbIterator` | nanopb's integers, streams and field iterator |
| `PbMessage`, `PbEncode`, `PbDecode`, `PbDecoder`, `PbRoundTrip`, `PbSafety`, `PbWire`, `PbUnknown`, `PbForms` | nanopb's descriptors and messages, the encoder over counting and writing streams, what decoding computes and the decoder that computes it, the round trip, what decoding any bytes can give, the wire format in numbers, unknown fields, and the other forms a message may come in |

Where the source changes things in place the model has a class or a method with a loop, proved
against a function of the same name or of the state; the laws are lemmas about those functions.

A version is taken as the set of its table files and a table, a memtable or a log as the set of
its entries; `Lookup.Read` says what a read finds in such a set. The contract of the version
set (`db/version_set.h`) is stated in `EngineModel.IsPick`: an entry outside the inputs of a
compaction is either in a level that `IsBaseLevelForKey` looks at, or newer than the inputs'
entries of its key. LogAndApply may fail after its edit reached the descriptor.

## What turned out not to hold as documented

- An acknowledged write can be lost. `EmitPhysicalRecord` advances `block_offset_` whether or not
  the file took the bytes, and `DBImpl::Write` goes on after a failed append, so that later
  records may be laid out across block boundaries and dropped by the reader (with
  `paranoid_checks` the database does not open): `DbImpl.AnAcknowledgedBatchIsLost` for three
  batches and their bytes, and `Engine.AnAcknowledgedWriteIsLost` for the same three writes in the
  engine, even with `sync`. `LogFailures.ReadsBackIff` and `LogFailures.FailedAppendIff` say
  exactly when a log can lose what follows, and `LogFailures.OneRecordIff` when it does lose a
  record of one fragment. The engine's steps do not look at lengths: there every write to a log
  whose writer is out of step may be lost, which is more than the bytes of some of them allow,
  and `Engine.WhatACrashCanTake` says what then is at risk. The descriptor is written by the same
  writer, and `LogAndApply` too goes on after a failed `AddRecord`
  (`db/version_set.cc:838-880`).
- `DBIter`'s comment says that in reverse the internal iterator stands just before all entries
  of the current key. It stands before all of them, but not always just before: entries that the
  snapshot does not see, of keys in between, are stepped over too. `DbIter.JustBeforeIff` says
  exactly when, and `DbIter.NotAlwaysJustBefore` gives an input.
- The compaction loop does not preserve every read when a key in the middle of a run cannot be
  parsed: `Compaction.CompactionPreservesReads` and `Compaction.RevivedDeletionIsRead` give the
  exact condition.
- A log fragment whose type byte is 5 is taken for the end of the file, because the reader uses
  that number for its own signal: `LogAccounting.TypeFiveEndsTheFile`.
- `VersionEdit::Clear` does not reset the compact pointers: `VersionEdit.SameEditIffFresh`.
- `WriteBatch::Iterate` refuses a batch of 2^31 operations or more, whose count no longer fits
  an int: `WriteBatch.ReplayOf`.
- `pb_decode_varint32` does not detect every overflow: `PbVarint.OverflowMayGoUnnoticed` and
  `PbVarint.MixedSignBytes` are accepted with bits lost. `PbVarint.Decode32IsRightIff` and
  `PbVarint.AcceptedIsRightIff` say for all varints of up to ten bytes when it is right.
- Two unions with 255 bytes of padding between them are taken for one, as the padding then is the
  mark of a union's further members: `PbIterator.WalkFindsTheMembers`.
- `pb_field_iter_find` on an empty message finds tag 0 at the terminator:
  `PbIterator.FieldIter.Find`. The decoder then reads a bool there, and so does the model.

## Model

The main results come first, then the steps towards them module by module.

| member | source | states |
|---|---|---|
| `Engine.CrashSafety` | Flash-Chat-iOS13-master/Pods/leveldb-library/db/db_impl.cc:280-369 | From any sound state, after any interleaving of writes that succeed or fail, memtable switches, flushes, compactions, installs that succeed or fail, file deletions, crashes and recoveries: what is acknowledged is in the history and at or below LastSequence, and Get answers with the newest write of its key at or below LastSequence; when no write is under way, all of the history is. No acknowledgement is taken back but of what was at risk when the run began |
| `Engine.AcknowledgedIsRead` | Flash-Chat-iOS13-master/Pods/leveldb-library/db/db_impl.cc:1210-1246 | After any run, with any crashes in it, an acknowledged write that was not at risk is what Get returns unless a newer write of its key has been published |
| `Engine.WhatACrashCanTake` | Flash-Chat-iOS13-master/Pods/leveldb-library/db/db_impl.cc:371-489 | An acknowledged entry can be taken back by some run with crashes if and only if it is at risk now: appended to its log while the writer was out of step with the file (or not synced, where the machine may go down), in a log that recovery replays, and in no table of the descriptor |
| `Engine.RecoveryRestoresReads` | Flash-Chat-iOS13-master/Pods/leveldb-library/db/db_impl.cc:223-278 | A crash at any point, also between the append, the insertion and the publication of a write, and any recoveries with nothing appended since: every Get answers from what the logs kept, so a key of which the crash took and brought back nothing and which the write under way does not touch reads as before, and one it touches reads as that write left it |
| `Engine.AnAcknowledgedWriteIsLost` | Flash-Chat-iOS13-master/Pods/leveldb-library/db/log_writer.cc:82-108 | From any running state: an append fails and leaves the writer out of step, the next two writes are appended, synced, inserted and acknowledged, the process crashes, and the second of them is gone |
| `Engine.RunKeepsInv` | Flash-Chat-iOS13-master/Pods/leveldb-library/db/db_impl.cc:535-566 | The invariant of the whole engine holds after every run, by way of one lemma a step |
| `Engine.LayeredReadIsCorrect` | Flash-Chat-iOS13-master/Pods/leveldb-library/db/db_impl.cc:1100-1145 | Memtable, then immutable memtable, then tables gives the newest entry not after the snapshot over everything ever logged, at every sequence number a snapshot can still have |
| `Engine.ReadersAreStable` | Flash-Chat-iOS13-master/Pods/leveldb-library/db/db_impl.cc:1062-1087 | A reader that pinned its memtables and version keeps answering from the history as it was when it began, through flushes, compactions and file deletions |
| `Engine.CollectionIsSafe` | Flash-Chat-iOS13-master/Pods/leveldb-library/db/db_impl.cc:223-278 | In every reachable state DeleteObsoleteFiles runs in the only background call there is, and removes or changes no table of a live version, of the descriptor, of a running compaction, or flushed but not installed |
| `EngineFiles.CollectionLeavesWhatIsNeeded` | Flash-Chat-iOS13-master/Pods/leveldb-library/db/db_impl.cc:223-278 | In every reachable state without a background error DeleteObsoleteFiles leaves exactly the tables that a version in use or the descriptor lists or the background thread is still to install, exactly the logs of the two memtables, of the descriptors the one that CURRENT names, no temporary file without such a number, and CURRENT, the lock and the info logs |
| `EngineFiles.CanAlwaysBeOpened` | Flash-Chat-iOS13-master/Pods/leveldb-library/db/version_set.cc:894-915 | After every run, with crashes and failures while descriptors are written, installed and deleted: CURRENT is there and names a descriptor that is there, and no table it lists is missing, so that the database can be opened again |
| `EngineProgress.AFlushCompletes` | Flash-Chat-iOS13-master/Pods/leveldb-library/db/db_impl.cc:535-566 | From any sound state with an immutable memtable and no background call, the steps of one call leave its entries in a table of the current version, its log deleted, and every read as before |
| `EngineProgress.ACompactionCompletes` | Flash-Chat-iOS13-master/Pods/leveldb-library/db/db_impl.cc:878-1037 | From any sound state, the steps of a compaction of any pick that meets the contract leave the version with what the drop rule keeps in place of the inputs, delete the inputs that no reader uses, and leave every read as before |
| `LogFailures.ReadsBackIff` | Flash-Chat-iOS13-master/Pods/leveldb-library/db/log_writer.cc:34-108 | For any file and any block_offset_: everything that can ever be written next is read back, after what is read now, if and only if block_offset_ agrees with the length of the file modulo the block size and the reader is in step at its end |
| `LogFailures.FailedAppendIff` | Flash-Chat-iOS13-master/Pods/leveldb-library/db/log_writer.cc:82-108 | After an AddRecord on a sound log, failed or not and wherever it failed: all that follows is read back if and only if block_offset_ still agrees with the length of the file |
| `LogFailures.ReadsBackThroughout` | Flash-Chat-iOS13-master/Pods/leveldb-library/db/log_writer.cc:34-108 | At every point of every sequence of AddRecord calls all that can follow is read back, if and only if block_offset_ agrees with the file after every call |
| `LogFailures.LogOfCalls` | Flash-Chat-iOS13-master/Pods/leveldb-library/db/log_writer.cc:34-108 | Then the log holds exactly the records all of whose bytes were written, those of failed calls included |
| `LogFailures.AcknowledgedAndLost` | Flash-Chat-iOS13-master/Pods/leveldb-library/db/log_writer.cc:82-108 | On the writer itself, for any three records of which the first two fill a block: the first call fails with nothing written, the two others succeed, and the third record is read back if and only if it is no longer than the first; if not, its loss is reported |
| `DbImpl.WhatTheLogKeeps` | Flash-Chat-iOS13-master/Pods/leveldb-library/db/db_impl.cc:418-453 | While the writer agrees with the file, recovering a log whose appends may fail gives exactly the entries of the batches all of whose bytes were written; and whatever is appended later, at least those |
| `DbImpl.AnAcknowledgedBatchIsLost` | Flash-Chat-iOS13-master/Pods/leveldb-library/db/db_impl.cc:418-453 | Three concrete writes to a new database whose first flush fails: the other two are acknowledged, and recovering their log gives the entries of the second alone and a report |
| `EngineRefinement.QueueRunIsARun` | Flash-Chat-iOS13-master/Pods/leveldb-library/db/db_impl.cc:1185-1256 | Whatever any number of threads do in the queue, interleaved in any way with readers, snapshots, memtable switches and the background thread, is a run of the queue and a run of the engine at once; LastSequence, the writer's phase and the background error agree, and the engine's acknowledged writes and its history grow by exactly those of the groups |
| `EngineRefinement.AReturnedWriteIsKept` | Flash-Chat-iOS13-master/Pods/leveldb-library/db/db_impl.cc:1185-1256 | From the thread to the reader: in any such interleaving and after any run with crashes that follows, the operations of a Write that returned success are acknowledged, those not at risk are never taken back, and a key reads as its last such write left it |
| `EngineRefinement.WhatWasPutIsRead` | Flash-Chat-iOS13-master/Pods/leveldb-library/db/db_impl.cc:1100-1145 | In the caller's terms: after any interleaving and any run with crashes, a Put of a Write that returned success and is not at risk is read back with its value, and a Delete reads as not found, until the key is written again |
| `WriteQueue.WrittenExactlyOnce` | Flash-Chat-iOS13-master/Pods/leveldb-library/db/db_impl.cc:1206-1237 | The log was given exactly the records of the groups that reached it, and the memtables exactly the operations of the writes that returned success, in order of arrival and each once, and those of the group under way if it was inserted |
| `WriteQueue.CommittedExactlyOnce` | Flash-Chat-iOS13-master/Pods/leveldb-library/db/db_impl.cc:1210-1226 | A write with a batch returns success exactly if it is in a group that was logged and inserted, and it is in at most one group |
| `WriteQueue.GroupsAreStretchesOfTheQueue` | Flash-Chat-iOS13-master/Pods/leveldb-library/db/db_impl.cc:1239-1248 | Every group is a contiguous stretch of the queue in order of arrival, with a syncing leader if any member asked to sync; later groups have later writers and later sequence numbers, and no number is used twice even after a failed append |
| `WriteQueue.EveryWriteReturns` | Flash-Chat-iOS13-master/Pods/leveldb-library/db/db_impl.cc:1185-1256 | From every reachable state of the queue its threads come to an end, each with a result: no write waits for ever |
| `SkipList.NoReaderMissesAKey` | Flash-Chat-iOS13-master/Pods/leveldb-library/db/skiplist.h:336-378 | In every interleaving of a writer's single link stores with any readers, a finished search finds every key that was in the list when it began, and only keys that are in the list |
| `DbIter.Run` | Flash-Chat-iOS13-master/Pods/leveldb-library/db/db_iter.cc:141-299 | For every sequence of Seek, SeekToFirst, SeekToLast, Next and Prev, with direction switches anywhere, Valid, key and value are those of a plain cursor over the visible map |
| `DbIter.ViewIsTheVisibleMap` | Flash-Chat-iOS13-master/Pods/leveldb-library/db/db_iter.cc:141-299 | The cursor's list is strictly sorted by user key as unsigned bytes and holds exactly the keys whose newest entry at or before the snapshot is a value, with that value |
| `DbIter.JustBeforeIff` | Flash-Chat-iOS13-master/Pods/leveldb-library/db/db_iter.cc:44-45 | The iterator is at the entry just before the current key's first exactly when that entry is visible, or there is none |
| `Compaction.CompactionPreservesReads` | Flash-Chat-iOS13-master/Pods/leveldb-library/db/db_impl.cc:901-999 | For sorted input, any key and any snapshot at or after smallest_snapshot, reading the kept entries with the rest of the database equals reading the whole input with it, unless an unparseable key revives an obsolete deletion's older value |
| `Compaction.RevivedDeletionIsRead` | Flash-Chat-iOS13-master/Pods/leveldb-library/db/db_impl.cc:931-935 | That exception is exact: whenever an unparseable key makes the loop forget a run it dropped an obsolete deletion of, the oldest snapshot reads a value it did not read before |
| `Compaction.KeptIsWanted` | Flash-Chat-iOS13-master/Pods/leveldb-library/db/db_impl.cc:929-962 | Of a sorted input exactly the wanted entries are kept, in their order, whatever lies below: the comparison with the entry just before finds every entry that an earlier one of its run shadows |
| `LogAccounting.NothingIsDroppedInSilence` | Flash-Chat-iOS13-master/Pods/leveldb-library/db/log_reader.cc:56-174 | On any bytes whatever: every byte of a fragment that passed its checks is in a record that ReadRecord returns or is reported, and so is every dropped stretch, but for the record the file ends in the middle of; unless a fragment has type 5 or 6 |
| `LogFiles.CorruptionIsContained` | Flash-Chat-iOS13-master/Pods/leveldb-library/db/log_reader.cc:218-261 | If the bytes from a fragment's header to the end of its block are replaced by anything that fails the length, zero-type or checksum test there, ReadRecord delivers, in order, exactly the records with no fragment in that stretch |
| `LogFiles.TornTail` | Flash-Chat-iOS13-master/Pods/leveldb-library/db/log_reader.cc:189-271 | Reading any byte prefix of a log gives exactly the records whose last fragment lies wholly in it, and reports nothing |
| `LogFiles.RoundTrip` | Flash-Chat-iOS13-master/Pods/leveldb-library/db/log_reader.cc:56-271 | Reading a log of any records of any lengths gives exactly those records and reports nothing |
| `DbImpl.AppendIsAllOrNothing` | Flash-Chat-iOS13-master/Pods/leveldb-library/db/db_impl.cc:418-453 | Recovering any byte prefix of a log gives exactly the entries of the batches appended whole, in order, and no report of corruption |
| `DbImpl.RecoverLogFile` | Flash-Chat-iOS13-master/Pods/leveldb-library/db/db_impl.cc:371-489 | On success the recovered tables hold exactly the entries of the log's records and max_sequence is the largest they claim; when no table fails to be written it succeeds if and only if there are no paranoid checks, or nothing was dropped from the log and every record of it is a batch that can be replayed |
| `MemTable.MemTable.Get` | Flash-Chat-iOS13-master/Pods/leveldb-library/db/memtable.cc:100-134 | Get finds the newest entry of the key at or before the snapshot, a value or a deletion, and finds nothing exactly when there is none |
| `WriteBatch.ReplayOf` | Flash-Chat-iOS13-master/Pods/leveldb-library/db/write_batch.cc:42-80 | Iterate over a batch of any operations hands over exactly them, in order, and succeeds exactly when an int can count them |
| `VersionEdit.RoundTrip` | Flash-Chat-iOS13-master/Pods/leveldb-library/db/version_edit.cc:41-205 | Decoding what EncodeTo wrote succeeds and gives the same edit, except that compact pointers are added to those the decoding edit had |
| `VersionEdit.SameEditIffFresh` | Flash-Chat-iOS13-master/Pods/leveldb-library/db/version_edit.cc:26-39 | The decoded edit is the same exactly when the decoding edit had no compact pointers; having been cleared is not enough |
| `DiskLayout.BatchLayout` | Flash-Chat-iOS13-master/Pods/leveldb-library/db/write_batch.cc:5-28 | A reader written in numbers finds in a batch eight bytes of sequence number, four of count, and exactly its operations: 1, key and value, or 0 and key, each slice behind its varint length |
| `DiskLayout.EditLayout` | Flash-Chat-iOS13-master/Pods/leveldb-library/db/version_edit.cc:12-85 | A reader written in numbers finds in an encoded edit exactly its fields, behind the numbers 1 to 7 and 9 |
| `PbRoundTrip.RoundTrip` | Flash-Chat-iOS13-master/Pods/nanopb/pb_decode.c:928-1090 | For every well-formed descriptor, nested to any depth, with or without explicit defaults, and every message its struct can hold, encoding succeeds; decoding gives the same message back, every value, has_ flag, count and choice of a union, if every submessage encodes to less than 2^32 bytes, and fails if one does not |
| `PbWire.EncodingIsWire` | Flash-Chat-iOS13-master/Pods/nanopb/pb_encode.c:528-550 | Any reader of the wire format, written in numbers and without the descriptor, finds in the encoding exactly the records of the message: every value behind its field number, with the wire type and the number its type asks for (two's complement, zig-zag, little-endian), in the order of the descriptor, and nothing else |
| `PbForms.AnyFormDecodes` | Flash-Chat-iOS13-master/Pods/nanopb/pb_decode.c:928-1076 | Any fields of a message, each once and in any order, arrays of numbers packed or with a tag for each, among any fields the descriptor lacks, to the end of the bytes or to a zero tag: decoding gives just those, the others as in a fresh struct, if and only if every length is below 2^32 and no required field is missing |
| `PbForms.SentInTwoParts` | Flash-Chat-iOS13-master/Pods/nanopb/pb_decode.c:1506-1528 | A submessage that comes in two parts is put together: the second is read onto the first, and the result is that of one submessage with the fields of both |
| `PbUnknown.OlderDecodesNewer` | Flash-Chat-iOS13-master/Pods/nanopb/pb_decode.c:960-989 | A message written under one descriptor and read under another that lacks any of its fields gives just the fields both have, as they were, if and only if every length the older decoder has to read is below 2^32 |
| `PbForms.NewerDecodesOlder` | Flash-Chat-iOS13-master/Pods/nanopb/pb_decode.c:1026-1073 | A message written under one descriptor and read under another with more fields comes back as it was, the new fields as in a fresh struct, if and only if none of the new ones is required and the lengths are below 2^32 |
| `PbSafety.DecodedMessageHolds` | Flash-Chat-iOS13-master/Pods/nanopb/pb_decode.c:1078-1090 | Whatever bytes pb_decode accepts, the struct can hold the result at every level: counts within array_size, strings terminated and bytes within data_size, integers in range, fixed-count arrays full, at most one member of a union |
| `PbSafety.ReencodingIsStable` | Flash-Chat-iOS13-master/Pods/nanopb/pb_decode.c:1078-1090 | What was decoded from any bytes can be encoded again, and that decodes to the same message if its submessages have lengths below 2^32 |
| `PbEncode.SizeThenWrite` | Flash-Chat-iOS13-master/Pods/nanopb/pb_encode.c:567-576 | If the sizing pass reports n bytes, encoding to a buffer succeeds exactly when it has n bytes, and writes exactly n; if the sizing pass fails, so does writing |
| `PbDecoder.DecodeMessage` | Flash-Chat-iOS13-master/Pods/nanopb/pb_decode.c:1078-1090 | For any bytes, any descriptor and any layout of its structs, the decoder over a stream, with its field iterator and its words of seen bits, accepts and gives exactly what the decoding function does |
| `PbDecode.RequiredFieldsAreThere` | Flash-Chat-iOS13-master/Pods/nanopb/pb_decode.c:1038-1073 | Decoding any bytes succeeds only if the loop met the tag of each of the first 64 required fields: distinct required fields have distinct bits, and only meeting a field sets its bit |
| `PbVarint.Decode32IsRightIff` | Flash-Chat-iOS13-master/Pods/nanopb/pb_decode.c:187-247 | On every varint of up to ten bytes, pb_decode_varint32 gives the value if it is a uint32 or a sign-extended int32, and fails otherwise, exactly when this holds of the bytes: there are five or fewer, or some byte from the sixth on is not tolerated, or bits 4 to 6 of the fifth and all later bits are zero, or all are the sign |
| `PbVarint.AcceptedIsRightIff` | Flash-Chat-iOS13-master/Pods/nanopb/pb_decode.c:222-243 | Of longer varints it accepts exactly those whose later bytes it tolerates one by one, and accepts for the right value exactly those whose high bits are all zero or all the sign |
| `Engine.AFailedWriteMayComeBack` | Flash-Chat-iOS13-master/Pods/leveldb-library/db/db_impl.cc:1227-1233 | A write whose Sync failed is not acknowledged and stops all further ones, and after a crash any part of it may be there or not |
| `EngineFiles.OpeningLeavesWhatIsNeeded` | Flash-Chat-iOS13-master/Pods/leveldb-library/db/db_impl.cc:1503-1506 | The collection at the end of DB::Open leaves exactly the tables of the new descriptor, the new log and, of all descriptors, the new one |
| `EngineFiles.RunKeepsFiled` | Flash-Chat-iOS13-master/Pods/leveldb-library/db/version_set.cc:801-880 | Over every run CURRENT names a descriptor that is there, the open database appends to that one, no other has a higher number but one an opening was about to install, and pending_outputs_ holds just the tables being written |
| `EngineFiles.NewDatabaseIsFiled` | Flash-Chat-iOS13-master/Pods/leveldb-library/db/db_impl.cc:182-208 | The directory that NewDB leaves is such a directory |
| `EngineProgress.TheBackgroundThreadIsNeverStuck` | Flash-Chat-iOS13-master/Pods/leveldb-library/db/db_impl.cc:648-686 | In every reachable state the background call that is there can take its next step, and if there is none one can be scheduled, unless there is a background error |
| `Engine.SmallestSnapshotIsABound` | Flash-Chat-iOS13-master/Pods/leveldb-library/db/db_impl.cc:890-894 | While a compaction runs, under concurrent GetSnapshot, ReleaseSnapshot and Write, its smallest_snapshot is at most every live snapshot and at most the sequence number the next one would get |
| `Engine.RunRemembers` | Flash-Chat-iOS13-master/Pods/leveldb-library/db/db_impl.cc:1234-1237 | Over any run, nothing that is not at risk leaves the history or what was acknowledged: writes, flushes, compactions, even one that takes the log number back, and collections put nothing at risk that was not |
| `Engine.NewDatabaseOpens` | Flash-Chat-iOS13-master/Pods/leveldb-library/db/db_impl.cc:1474-1515 | What NewDB writes is a sound state to start a run from, and it can be opened: the machine reaches a running state with nothing acknowledged |
| `Engine.AWriteIsAcknowledged` | Flash-Chat-iOS13-master/Pods/leveldb-library/db/db_impl.cc:1185-1256 | From any running state that may write, a write whose append succeeds is acknowledged and its sequence numbers published |
| `EngineClients.SwitchKeeps` | Flash-Chat-iOS13-master/Pods/leveldb-library/db/db_impl.cc:1336-1364 | Switching memtables while there is no immutable one keeps the invariant: each memtable still matches its own log and no other log is replayed |
| `EngineClients.AppendOkKeeps` | Flash-Chat-iOS13-master/Pods/leveldb-library/db/db_impl.cc:1210-1216 | Appending a batch adds it to the history and to what the log may bring back, below nothing that is already there; it is in doubt if the writer is out of step, and until it is synced if the machine may go down |
| `EngineClients.InsertKeeps` | Flash-Chat-iOS13-master/Pods/leveldb-library/db/db_impl.cc:1223-1225 | Inserting a logged batch into the memtable changes no view and is invisible to every running reader |
| `EngineClients.PublishKeeps` | Flash-Chat-iOS13-master/Pods/leveldb-library/db/db_impl.cc:1234-1237 | Advancing LastSequence, also after a failed append, keeps sequence numbers unique and snapshots in range |
| `EngineClients.BeginReadKeeps` | Flash-Chat-iOS13-master/Pods/leveldb-library/db/db_impl.cc:1100-1121 | A reader that begins at LastSequence or at a live snapshot sees the history at that sequence number |
| `EngineBackground.CommitFlushKeeps` | Flash-Chat-iOS13-master/Pods/leveldb-library/db/db_impl.cc:491-555 | Taking the table number out of pending_outputs_ before LogAndApply keeps the invariant; the edit carries the log number of the memtable in use now |
| `EngineBackground.FlushReachesManifest` | Flash-Chat-iOS13-master/Pods/leveldb-library/db/version_set.cc:801-880 | When the edit of a flush becomes durable, the replaced log's entries are all in the new table, so a crash right then loses nothing |
| `EngineBackground.CompactionReachesManifest` | Flash-Chat-iOS13-master/Pods/leveldb-library/db/version_set.cc:801-880 | When the edit of a compaction becomes durable, what a crash leaves answers every possible read as before, even if an earlier failed edit is also in the descriptor |
| `EngineBackground.FlushInstalled` | Flash-Chat-iOS13-master/Pods/leveldb-library/db/db_impl.cc:551-562 | Installing the flushed table and dropping the immutable memtable changes no read, on disk or in memory, also in the middle of a compaction |
| `EngineBackground.CompactionInstalled` | Flash-Chat-iOS13-master/Pods/leveldb-library/db/db_impl.cc:860-876 | Installing the outputs of a compaction in place of its inputs changes no read at a snapshot that is still possible |
| `EngineBackground.FlushNotInstalled` | Flash-Chat-iOS13-master/Pods/leveldb-library/db/db_impl.cc:563-565 | A failed LogAndApply, whether or not its edit reached the descriptor, sets the background error and keeps the invariant |
| `EngineBackground.CompactionFailedKeeps` | Flash-Chat-iOS13-master/Pods/leveldb-library/db/db_impl.cc:738-745 | Abandoning a compaction, before or after its edit was written, keeps the invariant and gives up its pending outputs |
| `EngineBackground.BeginCompactionKeeps` | Flash-Chat-iOS13-master/Pods/leveldb-library/db/db_impl.cc:886-897 | A pick that meets the version set's contract stays well placed among memtables and tables of both the running version and the descriptor |
| `EngineBackground.WriteOutputKeeps` | Flash-Chat-iOS13-master/Pods/leveldb-library/db/db_impl.cc:786-809 | Writing an output under a fresh number protected by pending_outputs_ touches nothing that is needed |
| `EngineRecovery.CrashKeeps` | Flash-Chat-iOS13-master/Pods/leveldb-library/db/db_impl.cc:313-341 | At every moment, whatever part of what is in doubt a crash takes from the logs and whatever failed writes it brings back in them, the descriptor's tables and the logs to replay answer every read as the rest of the history does |
| `EngineRecovery.CrashedView` | Flash-Chat-iOS13-master/Pods/leveldb-library/db/db_impl.cc:313-341 | The tables of the descriptor stand for all that is in no memtable, so any part of the rest that the logs keep can be read on top of them |
| `EngineRisk.CompactionDurableKeepsRisk` | Flash-Chat-iOS13-master/Pods/leveldb-library/db/version_set.cc:801-880 | A compaction whose edit reaches the descriptor answers as before without the help of anything a log might lose |
| `EngineRisk.FlushInstalledKeepsRisk` | Flash-Chat-iOS13-master/Pods/leveldb-library/db/db_impl.cc:551-562 | Once a flush is installed its entries count among those no crash can take |
| `EngineLosses.CompactionPutsNothingAtRisk` | Flash-Chat-iOS13-master/Pods/leveldb-library/db/version_set.cc:801-880 | A compaction edit puts nothing at risk, even when it takes the log number back so that a log is replayed again whose flush was not installed |
| `EngineLosses.FlushPutsNothingAtRisk` | Flash-Chat-iOS13-master/Pods/leveldb-library/db/version_set.cc:801-880 | A flush edit in the descriptor only takes entries out of risk |
| `EngineRecovery.NothingIsMissing` | Flash-Chat-iOS13-master/Pods/leveldb-library/db/db_impl.cc:329-349 | Recover's check for missing table files never fails |
| `EngineRecovery.RecoverTableKeeps` | Flash-Chat-iOS13-master/Pods/leveldb-library/db/db_impl.cc:441-453 | Writing a recovered table to a number that may overwrite an orphan keeps everything that is needed |
| `EngineRecovery.CreateLogKeeps` | Flash-Chat-iOS13-master/Pods/leveldb-library/db/db_impl.cc:1484-1497 | The new log gets a number above every log on disk and is empty, so that a crash before the new descriptor changes nothing |
| `EngineRecovery.WriteNewManifestKeeps` | Flash-Chat-iOS13-master/Pods/leveldb-library/db/db_impl.cc:1498-1502 | The new descriptor with the recovered tables and the new log number answers every read as the old descriptor and its logs did |
| `EngineRecovery.OpenDoneKeeps` | Flash-Chat-iOS13-master/Pods/leveldb-library/db/db_impl.cc:1503-1506 | The database that DB::Open returns, after collecting files, satisfies the invariant of a running one |
| `EngineViews.LayersAreEnough` | Flash-Chat-iOS13-master/Pods/leveldb-library/db/db_impl.cc:1125-1134 | Looking in the newest layer first is the same as looking at everything, when newer layers hold newer entries |
| `EngineViews.CompactionIsInvisible` | Flash-Chat-iOS13-master/Pods/leveldb-library/db/db_impl.cc:901-999 | Replacing compaction inputs by what the drop rule keeps preserves equivalence with the history at every snapshot from the floor on |
| `DbImpl.NumberedIsBatch` | Flash-Chat-iOS13-master/Pods/leveldb-library/db/db_impl.cc:1207-1209 | The operations of a group, numbered from LastSequence + 1, are a batch in the sense of the engine's steps |
| `DbImpl.Get` | Flash-Chat-iOS13-master/Pods/leveldb-library/db/db_impl.cc:1100-1145 | Get returns what the layered read returns, with each memtable searched through its skip list |
| `DbImpl.DeleteObsoleteFiles` | Flash-Chat-iOS13-master/Pods/leveldb-library/db/db_impl.cc:223-278 | The files deleted are exactly the children that the switch does not keep, and none after a background error |
| `DbImpl.DeletingIsCollecting` | Flash-Chat-iOS13-master/Pods/leveldb-library/db/db_impl.cc:234-277 | Of all files in the directory, tables, logs, descriptors, temporary files, CURRENT and the lock, the loop leaves exactly those that the engine's step leaves, and those as they were |
| `WriteQueue.OneLeader` | Flash-Chat-iOS13-master/Pods/leveldb-library/db/db_impl.cc:1185-1200 | In every interleaving at most one thread leads, and it is the one at the front of the queue |
| `WriteQueue.NumbersIncrease` | Flash-Chat-iOS13-master/Pods/leveldb-library/db/db_impl.cc:1207-1208 | The sequence numbers given to the memtables increase throughout, so that no two entries share one |
| `WriteQueue.TmpIsEmpty` | Flash-Chat-iOS13-master/Pods/leveldb-library/db/db_impl.cc:1234 | tmp_batch_ is empty whenever BuildBatchGroup runs |
| `WriteQueue.PlaceInGroup` | Flash-Chat-iOS13-master/Pods/leveldb-library/db/db_impl.cc:1280-1303 | A writer's operations stand in the record right after those of the writers before it |
| `WriteQueue.RunKeepsInv` | Flash-Chat-iOS13-master/Pods/leveldb-library/db/db_impl.cc:1185-1256 | The queue invariant holds after every run of any number of threads |
| `WriteQueue.StepsRunOut` | Flash-Chat-iOS13-master/Pods/leveldb-library/db/db_impl.cc:1185-1256 | Every step of every thread, in whatever order they are taken, lowers the number of steps that are left |
| `WriteQueue.NobodyIsStuck` | Flash-Chat-iOS13-master/Pods/leveldb-library/db/db_impl.cc:1190-1196 | As long as some thread has not returned, some thread can take a step |
| `WriteQueue.UndecidedWritersFail` | Flash-Chat-iOS13-master/Pods/leveldb-library/db/db_impl.cc:1310-1319 | Once there is a background error no write succeeds, with a batch or without, but those of the group that is under way |
| `EngineRefinement.QueueStepIsAStep` | Flash-Chat-iOS13-master/Pods/leveldb-library/db/db_impl.cc:1185-1256 | Every step of every thread in the queue of writers is a step of the engine's writer, or none: enabled there, and leading to the corresponding state; the engine acknowledges a group exactly when it was inserted |
| `EngineRefinement.NothingIsAtRisk` | Flash-Chat-iOS13-master/Pods/leveldb-library/db/db_impl.cc:1210-1216 | If every append, failed or not, leaves the writer in agreement with its file, nothing is at risk of a crash of the process |
| `EngineRefinement.ThreadsAlone` | Flash-Chat-iOS13-master/Pods/leveldb-library/db/db_impl.cc:1185-1256 | With nothing but threads, the run of the queue is the one that was asked for |
| `EngineRefinement.WhatWasGiven` | Flash-Chat-iOS13-master/Pods/leveldb-library/db/db_impl.cc:1206-1226 | Between groups the entries of the records that AddRecord was given are the engine's history of the queue and what could not be synced, and the memtables were given what was acknowledged |
| `EngineRefinement.TakeFromRing` | Flash-Chat-iOS13-master/Pods/leveldb-library/db/db_impl.cc:1166-1169 | Adding LastSequence to the ring is the engine's GetSnapshot step |
| `EngineRefinement.ReleaseFromRing` | Flash-Chat-iOS13-master/Pods/leveldb-library/db/db_impl.cc:1171-1174 | Unlinking a node of the ring is the engine's ReleaseSnapshot step |
| `EngineRefinement.SmallestSnapshotOf` | Flash-Chat-iOS13-master/Pods/leveldb-library/db/db_impl.cc:890-894 | The compaction's choice from the ring is the smallest snapshot that the engine's compactions ask for |
| `GroupCommit.BuildBatchGroup` | Flash-Chat-iOS13-master/Pods/leveldb-library/db/db_impl.cc:1258-1306 | The group is the longest prefix of the queue that may join (no sync writer under a leader that does not sync, total size within the limit), the result holds all their operations in order, and it is the first caller's own batch exactly when there is no other |
| `GroupCommit.AppendTo` | Flash-Chat-iOS13-master/Pods/leveldb-library/db/db_impl.cc:1294-1301 | The switch to tmp_batch_ copies the first batch before the joining one and leaves the caller's batch alone |
| `GroupCommit.GroupIsSmall` | Flash-Chat-iOS13-master/Pods/leveldb-library/db/db_impl.cc:1262-1292 | A group of more than one batch has at most 2^20 bytes, the followers of a leader of at most 2^17 bytes add at most 2^17, and a writer is left out only for a sync its leader does not do or because its batch would pass one of these limits |
| `DbIter.Execute` | Flash-Chat-iOS13-master/Pods/leveldb-library/db/db_iter.cc:141-299 | One operation moves the iterator as it moves the plain cursor; Next and Prev only when valid |
| `DbIter.DBIter.Next` | Flash-Chat-iOS13-master/Pods/leveldb-library/db/db_iter.cc:141-166 | Next goes to the following visible key, from either direction |
| `DbIter.DBIter.FindNextUserEntry` | Flash-Chat-iOS13-master/Pods/leveldb-library/db/db_iter.cc:168-198 | The forward scan stops at the first visible live entry past the key to skip, or at the end |
| `DbIter.DBIter.Prev` | Flash-Chat-iOS13-master/Pods/leveldb-library/db/db_iter.cc:200-225 | Prev goes to the preceding visible key, from either direction |
| `DbIter.NextPrevReturns` | Flash-Chat-iOS13-master/Pods/leveldb-library/db/db_iter.cc:200-225 | On the iterator itself: Next and then Prev, with the switch to reverse, returns to the same entry with the same key and value |
| `DbIter.PrevNextReturns` | Flash-Chat-iOS13-master/Pods/leveldb-library/db/db_iter.cc:141-166 | Prev and then Next, with the switch to forward, returns to the same entry with the same key and value |
| `DbIter.DBIter.FindPrevUserEntry` | Flash-Chat-iOS13-master/Pods/leveldb-library/db/db_iter.cc:227-267 | The backward scan saves the last visible live entry before where it began, and leaves the iterator at the last visible entry of an earlier key, or before the list: before every entry of the saved key |
| `DbIter.NotAlwaysJustBefore` | Flash-Chat-iOS13-master/Pods/leveldb-library/db/db_iter.cc:44-45 | An input where it is not: with an unseen entry of an earlier key in between, the only place it can stand is before that entry |
| `DbIter.DBIter.Seek` | Flash-Chat-iOS13-master/Pods/leveldb-library/db/db_iter.cc:269-281 | Seek goes to the first visible key at or after the target |
| `DbIter.DBIter.SeekToFirst` | Flash-Chat-iOS13-master/Pods/leveldb-library/db/db_iter.cc:283-292 | SeekToFirst goes to the first visible key |
| `DbIter.DBIter.SeekToLast` | Flash-Chat-iOS13-master/Pods/leveldb-library/db/db_iter.cc:294-299 | SeekToLast goes to the last visible key |
| `DbIter.ScansShowEverything` | Flash-Chat-iOS13-master/Pods/leveldb-library/db/db_iter.cc:283-299 | SeekToFirst and then Next shows every pair of the list once, in order, and then nothing; SeekToLast and then Prev shows them in reverse |
| `DbIter.SeekShowsTheFirstAtOrAfter` | Flash-Chat-iOS13-master/Pods/leveldb-library/db/db_iter.cc:269-281 | Seek shows the first pair whose key is not below the target in the order of unsigned bytes, or nothing if there is none |
| `Compaction.ParseableRevivesNothing` | Flash-Chat-iOS13-master/Pods/leveldb-library/db/db_impl.cc:931-935 | When every key parses there is no exception |
| `Compaction.DoCompactionWork` | Flash-Chat-iOS13-master/Pods/leveldb-library/db/db_impl.cc:878-1037 | When nothing fails and there is no shutdown, the outputs concatenated are exactly what the drop rule keeps, however they are cut into files; for sorted input they are sorted and hold exactly the entries that are wanted: every unparseable key, and of the others those that no entry before them in their run makes invisible to every snapshot and that are no obsolete deletion. It succeeds exactly then |
| `Compaction.DropRule` | Flash-Chat-iOS13-master/Pods/leveldb-library/db/db_impl.cc:929-962 | The one-pass rule with its three variables decides each entry as the declarative rule does |
| `Compaction.ShadowedIsGone` | Flash-Chat-iOS13-master/Pods/leveldb-library/db/db_impl.cc:946-948 | An entry behind one of its run that the smallest snapshot sees is dropped, also when deeper levels hold the key, so at most one entry of a run is left at or below that snapshot |
| `Compaction.DeletionLeavesNothing` | Flash-Chat-iOS13-master/Pods/leveldb-library/db/db_impl.cc:949-959 | Once an obsolete deletion is dropped, nothing that is kept could answer in its place |
| `SkipList.RunKeepsInv` | Flash-Chat-iOS13-master/Pods/leveldb-library/db/skiplist.h:336-378 | After every single link store the list is sound for every reader, at every point of every run |
| `SkipList.PublishKeepsInv` | Flash-Chat-iOS13-master/Pods/leveldb-library/db/skiplist.h:360-367 | Storing the predecessor's link at one level keeps all levels sorted and nested, and makes level 0 the old set or the old set and the new key |
| `SkipList.StoreKeepsInv` | Flash-Chat-iOS13-master/Pods/leveldb-library/db/skiplist.h:360-367 | Storing the new node's own link at one level changes nothing a reader can reach |
| `SkipList.WalkIsTheLevel` | Flash-Chat-iOS13-master/Pods/leveldb-library/db/skiplist.h:260-281 | The links of a level visit exactly the nodes linked at it, in strictly increasing order |
| `SkipList.SearchStepIsSafe` | Flash-Chat-iOS13-master/Pods/leveldb-library/db/skiplist.h:260-281 | One load of a search keeps the reader before its target and among linked nodes, and ends at the first key at or after it |
| `SkipList.SkipList.FindGreaterOrEqual` | Flash-Chat-iOS13-master/Pods/leveldb-library/db/skiplist.h:260-281 | It returns the first node at or after the key, and in prev the last node before it at every level |
| `SkipList.SkipList.FindLessThan` | Flash-Chat-iOS13-master/Pods/leveldb-library/db/skiplist.h:283-302 | It returns the last node before the key, or the head |
| `SkipList.SkipList.FindLast` | Flash-Chat-iOS13-master/Pods/leveldb-library/db/skiplist.h:304-322 | It returns the last node, or the head of an empty list |
| `SkipList.SkipList.Insert` | Flash-Chat-iOS13-master/Pods/leveldb-library/db/skiplist.h:336-368 | Inserting a new key with any height adds exactly that key |
| `SkipList.SkipList.Contains` | Flash-Chat-iOS13-master/Pods/leveldb-library/db/skiplist.h:370-378 | Contains answers membership |
| `LogWriter.WriteLog` | Flash-Chat-iOS13-master/Pods/leveldb-library/db/log_writer.cc:22-80 | AddRecord calls from scratch, and then through a writer reopened at the end of the file, write the log of all the records |
| `LogWriter.Writer.AddRecord` | Flash-Chat-iOS13-master/Pods/leveldb-library/db/log_writer.cc:34-80 | From any offset and with any of its flushes failing after any number of bytes, it writes the fragments of the record up to the first that fails, trailer bytes included, returns whether all succeeded, and moves block_offset_ past the last one tried |
| `LogWriter.AttemptIs` | Flash-Chat-iOS13-master/Pods/leveldb-library/db/log_writer.cc:34-80 | What AddRecord writes is the fragmentation of the record, up to the first fragment that fails |
| `LogWriter.Writer.EmitPhysicalRecord` | Flash-Chat-iOS13-master/Pods/leveldb-library/db/log_writer.cc:82-108 | It writes the header, with the checksum of type byte and payload, and the payload, or a prefix of them if the flush fails, and advances block_offset_ by all of it either way |
| `LogWriter.Reopened` | Flash-Chat-iOS13-master/Pods/leveldb-library/db/log_writer.cc:26-30 | A log written in two sittings is the log written in one |
| `LogDrift.LostOutOfStep` | Flash-Chat-iOS13-master/Pods/leveldb-library/db/log_writer.cc:82-108 | For any file, if block_offset_ does not agree with its length there is a record that is written in full and never read |
| `LogStanding.LostToTheReader` | Flash-Chat-iOS13-master/Pods/leveldb-library/db/log_reader.cc:189-271 | Nor does agreement help when the reader is not through with what is in the file |
| `LogFailures.EarlierRecordsStay` | Flash-Chat-iOS13-master/Pods/leveldb-library/db/log_reader.cc:56-174 | What was written while the writer agreed with the file is read back whatever is written or fails later |
| `LogFailures.OneRecordIff` | Flash-Chat-iOS13-master/Pods/leveldb-library/db/log_reader.cc:189-271 | The condition for one record, on the bytes: written as one fragment at the end of a file that the reader is through with, wherever its writer takes itself to be, it is read back if and only if it fits into the block of the file |
| `LogFailures.AgreementIsNotEnough` | Flash-Chat-iOS13-master/Pods/leveldb-library/db/log_writer.cc:82-108 | An input on which block_offset_ agrees again by accident, after three failed calls, and what follows is lost all the same |
| `LogFailures.CallAll` | Flash-Chat-iOS13-master/Pods/leveldb-library/db/log_writer.cc:34-108 | Calling the writer any number of times, with any of its writes failing, leaves its file and its offset as the function of the calls says |
| `LogReader.ReadLog` | Flash-Chat-iOS13-master/Pods/leveldb-library/db/log_reader.cc:56-174 | Calling ReadRecord until it returns false delivers and reports what reassembling the file's fragments does |
| `LogReader.Reader.ReadRecord` | Flash-Chat-iOS13-master/Pods/leveldb-library/db/log_reader.cc:56-174 | Each call delivers the next record of the reassembly, with the reports on the way, or ends it |
| `LogReader.Reader.ReadPhysicalRecord` | Flash-Chat-iOS13-master/Pods/leveldb-library/db/log_reader.cc:189-271 | Each call takes the next fragment, lost stretch or end of file off what is left of the file, with its report |
| `LogAccounting.TypeFiveEndsTheFile` | Flash-Chat-iOS13-master/Pods/leveldb-library/db/log_reader.cc:144-151 | That exception is real: a fragment whose type byte is 5 passes the checks and is taken for the end of the file, so that what it interrupts and all that follows is neither read nor reported |
| `LogAccounting.PreallocatedLogReadsBack` | Flash-Chat-iOS13-master/Pods/leveldb-library/db/log_reader.cc:235-241 | A log with any number of zeros behind it, as in a file that was allocated ahead, gives its records and no report |
| `LogFormat.RenderedParses` | Flash-Chat-iOS13-master/Pods/leveldb-library/db/log_reader.cc:215-271 | A header and payload as the writer lays them out pass the reader's checks, whatever follows |
| `LogFormat.PieceIff` | Flash-Chat-iOS13-master/Pods/leveldb-library/db/log_reader.cc:202-271 | The reader takes for a fragment exactly the bytes that the writer lays out for one, length and checksum included, and nothing else |
| `LogFormat.TruncatedIsEof` | Flash-Chat-iOS13-master/Pods/leveldb-library/db/log_reader.cc:205-233 | A record cut off anywhere in its header or payload at the end of the file reads as the end of the file |
| `LogRecords.AroundTheHole` | Flash-Chat-iOS13-master/Pods/leveldb-library/db/log_reader.cc:123-172 | With a loss in place of some fragments, reassembly delivers exactly the records that have no fragment there |
| `Crc32c.ExtendConcat` | Flash-Chat-iOS13-master/Pods/leveldb-library/util/crc32c.h:12-20 | Extending the checksum of a prefix over the rest is the checksum of the whole |
| `Crc32c.StoredRoundTrip` | Flash-Chat-iOS13-master/Pods/leveldb-library/util/crc32c.h:24-38 | Unmasking the stored form of a checksum gives it back |
| `CrcOfEmpty.EmptyChecksum` | Flash-Chat-iOS13-master/Pods/leveldb-library/util/crc32c.h:24-38 | The header of an empty record begins with 05 2b 28 43, the masked CRC-32C of the byte 01 |
| `DiskLayout.KeyLayout` | Flash-Chat-iOS13-master/Pods/leveldb-library/db/dbformat.cc:14-23 | An internal key is the user key and eight bytes, least significant first, of 256 times the sequence number plus the type |
| `DiskLayout.BufferLayout` | Flash-Chat-iOS13-master/Pods/leveldb-library/db/memtable.cc:75-98 | An entry's buffer is its internal key and its value, each behind its varint length |
| `DiskLayout.FragmentLayout` | Flash-Chat-iOS13-master/Pods/leveldb-library/db/log_writer.cc:82-100 | A fragment is four bytes of masked checksum of type and payload, two bytes of length with the low one first, the type, and the payload |
| `DiskLayout.FragmentPlace` | Flash-Chat-iOS13-master/Pods/leveldb-library/db/log_writer.cc:44-66 | A fragment lies in one 32 KB block, and goes to the next one behind zeros exactly when fewer than seven bytes are left |
| `DiskLayout.RecordLayout` | Flash-Chat-iOS13-master/Pods/leveldb-library/db/log_writer.cc:56-79 | A record is one fragment of type 1, or fragments of types 2, 3 and 4 whose payloads make up the record, all but the last filling their blocks |
| `Numerals.VarintRead` | Flash-Chat-iOS13-master/Pods/leveldb-library/util/coding.cc:47-90 | What EncodeVarint writes is the base-128 varint of the value, least significant group first |
| `Numerals.GetVarintReads` | Flash-Chat-iOS13-master/Pods/leveldb-library/util/coding.cc:110-169 | On any bytes GetVarint32 and GetVarint64 read the varint that is there, with the low 32 or 64 bits of its value and exactly its bytes consumed, if and only if it ends within five or ten bytes |
| `Numerals.EightBytesOf` | Flash-Chat-iOS13-master/Pods/leveldb-library/util/coding.cc:9-33 | What EncodeFixed64 writes is the value in eight bytes, least significant first |
| `MemTable.MemTable.Add` | Flash-Chat-iOS13-master/Pods/leveldb-library/db/memtable.cc:75-98 | Add adds exactly that entry, encoded in the buffer its node points to |
| `MemTable.SeekFinds` | Flash-Chat-iOS13-master/Pods/leveldb-library/db/dbformat.cc:121-138 | The seek to (key, snapshot, kValueTypeForSeek) lands on the answer if there is one |
| `MemTable.MatchOf` | Flash-Chat-iOS13-master/Pods/leveldb-library/db/memtable.cc:104-131 | Reading an entry's buffer back gives its key, type and value |
| `WriteBatch.NumberedRange` | Flash-Chat-iOS13-master/Pods/leveldb-library/db/db_impl.cc:435-439 | InsertInto gives the operations the sequence numbers Sequence .. Sequence + Count - 1, the range recovery assumes |
| `WriteBatch.WriteBatch.Put` | Flash-Chat-iOS13-master/Pods/leveldb-library/db/write_batch.cc:98-103 | Put appends one operation to what the batch replays |
| `WriteBatch.WriteBatch.Delete` | Flash-Chat-iOS13-master/Pods/leveldb-library/db/write_batch.cc:105-109 | Delete appends one operation to what the batch replays |
| `WriteBatch.WriteBatch.Append` | Flash-Chat-iOS13-master/Pods/leveldb-library/db/write_batch.cc:144-148 | Append appends all operations of the source, which may be the batch itself |
| `WriteBatch.WriteBatch.SetSequence` | Flash-Chat-iOS13-master/Pods/leveldb-library/db/write_batch.cc:94-96 | SetSequence changes the sequence number and nothing else |
| `WriteBatch.WriteBatch.Iterate` | Flash-Chat-iOS13-master/Pods/leveldb-library/db/write_batch.cc:42-80 | On any bytes whatever it hands over the operations before the first malformed record, and returns the matching status |
| `WriteBatch.WriteBatch.InsertInto` | Flash-Chat-iOS13-master/Pods/leveldb-library/db/write_batch.cc:116-137 | The memtable gets the operations handed over, numbered consecutively from the batch's sequence number |
| `VersionEdit.VersionEdit.EncodeTo` | Flash-Chat-iOS13-master/Pods/leveldb-library/db/version_edit.cc:41-85 | It appends the encoding of the edit |
| `VersionEdit.VersionEdit.DecodeFrom` | Flash-Chat-iOS13-master/Pods/leveldb-library/db/version_edit.cc:107-205 | On any bytes it decodes field by field onto the cleared edit, up to the first error and its message |
| `VersionEdit.VersionEdit.AddFile` | Flash-Chat-iOS13-master/Pods/leveldb-library/db/version_edit.h:59-71 | The encoding of the edit grows by exactly the record of that file, at its end, and the edit stays one that can be written |
| `VersionEdit.AddedFileIsRead` | Flash-Chat-iOS13-master/Pods/leveldb-library/db/version_edit.cc:41-205 | Whoever decodes the edit after AddFile gets what it would have got before, with that file as the last of the new files |
| `VersionEdit.VersionEdit.DeleteFile` | Flash-Chat-iOS13-master/Pods/leveldb-library/db/version_edit.h:73-76 | DeleteFile adds one pair to the ordered set of deleted files |
| `Snapshots.SnapshotList.New` | Flash-Chat-iOS13-master/Pods/leveldb-library/db/snapshot.h:56-71 | A new snapshot goes to the end of the ring, and the sequence numbers stay sorted |
| `Snapshots.SnapshotList.Delete` | Flash-Chat-iOS13-master/Pods/leveldb-library/db/snapshot.h:73-86 | Relinking two neighbours removes exactly that snapshot and leaves the rest in order |
| `Snapshots.SnapshotList.Oldest` | Flash-Chat-iOS13-master/Pods/leveldb-library/db/snapshot.h:47-50 | oldest has the smallest sequence number of all live snapshots |
| `Snapshots.SnapshotList.Newest` | Flash-Chat-iOS13-master/Pods/leveldb-library/db/snapshot.h:51-54 | newest has the largest sequence number of all live snapshots |
| `Snapshots.SmallestSnapshot` | Flash-Chat-iOS13-master/Pods/leveldb-library/db/db_impl.cc:890-894 | The compaction's choice is at most LastSequence and every live snapshot, and is the oldest of them, or LastSequence when there is none |
| `DbFormat.CompareIsBefore` | Flash-Chat-iOS13-master/Pods/leveldb-library/db/dbformat.cc:51-67 | Comparing encoded internal keys is ordering by user key as unsigned bytes, then by decreasing sequence number, then by decreasing type, with equality only of equal keys |
| `DbFormat.KeyLessIsBytewise` | Flash-Chat-iOS13-master/Pods/leveldb-library/include/leveldb/slice.h:101-111 | The comparator's order is that of unsigned bytes: a key is below those it is a proper prefix of, and otherwise the first byte that differs decides |
| `DbFormat.ParseEncoded` | Flash-Chat-iOS13-master/Pods/leveldb-library/db/dbformat.h:165-175 | Parsing and extracting undo the encoding of an internal key |
| `DbFormat.FindShortestSeparator` | Flash-Chat-iOS13-master/Pods/leveldb-library/db/dbformat.cc:69-86 | The separator is at or after start and before limit, and shorter in its user key when it differs |
| `DbFormat.ShortestUserSeparator` | Flash-Chat-iOS13-master/Pods/leveldb-library/util/comparator.cc:29-50 | The shortened user key is at or after start and before limit |
| `Coding.GetVarint64Ptr` | Flash-Chat-iOS13-master/Pods/leveldb-library/util/coding.cc:142-157 | The shifting loop decodes what the recursive definition does, modulo 2^64, and fails exactly when it does |
| `Coding.EncodeVarint64` | Flash-Chat-iOS13-master/Pods/leveldb-library/util/coding.cc:81-90 | The loop appends the varint of the value |
| `Coding.Varint64RoundTrip` | Flash-Chat-iOS13-master/Pods/leveldb-library/util/coding.cc:81-169 | Every 64-bit value comes back, with exactly its bytes consumed |
| `Coding.Varint32RoundTrip` | Flash-Chat-iOS13-master/Pods/leveldb-library/util/coding.cc:47-140 | Every 32-bit value comes back, with exactly its bytes consumed |
| `Coding.LengthPrefixedRoundTrip` | Flash-Chat-iOS13-master/Pods/leveldb-library/util/coding.cc:98-189 | Every slice of a 32-bit length comes back, with exactly its bytes consumed |
| `Coding.FixedRoundTrip` | Flash-Chat-iOS13-master/Pods/leveldb-library/util/coding.cc:9-33 | Fixed-width values come back |
| `PbRoundTrip.MessageRoundTrip` | Flash-Chat-iOS13-master/Pods/nanopb/pb_decode.c:928-1076 | The same for submessages, decoded onto an initialised struct: if the lengths fit, every message comes back |
| `PbRoundTrip.MessageFails` | Flash-Chat-iOS13-master/Pods/nanopb/pb_decode.c:371-385 | If the length of some submessage at any depth does not fit, decoding fails |
| `PbRoundTrip.MessageEncodes` | Flash-Chat-iOS13-master/Pods/nanopb/pb_encode.c:528-550 | Encoding a message its struct can hold never fails |
| `PbRoundTrip.ValueRoundTrip` | Flash-Chat-iOS13-master/Pods/nanopb/pb_decode.c:1321-1551 | Every value comes back from its field encoder, and exactly its bytes are consumed |
| `PbRoundTrip.PackedField` | Flash-Chat-iOS13-master/Pods/nanopb/pb_decode.c:425-454 | A packed array of any length comes back, plain or of fixed count |
| `PbRoundTrip.TaggedField` | Flash-Chat-iOS13-master/Pods/nanopb/pb_decode.c:455-466 | An array of separately tagged values comes back, plain or of fixed count |
| `PbRoundTrip.ZeroIsDefault` | Flash-Chat-iOS13-master/Pods/nanopb/pb_encode.c:238-337 | A proto3 singular value that is left out because it is zero is exactly what decoding starts from |
| `PbSafety.IntegersAreInRange` | Flash-Chat-iOS13-master/Pods/nanopb/pb_decode.c:1332-1415 | Decoding the encoding of any int32 or int64, plain, unsigned or zig-zag, into a field of one, two, four or eight bytes gives the number if the field can hold it, and fails if it cannot |
| `PbSafety.HeldRanges` | Flash-Chat-iOS13-master/Pods/nanopb/pb_decode.c:1332-1415 | What a field can hold is the range of its C type: -128 to 127, 0 to 255, and so on to 64 bits |
| `PbSafety.StoreKeepsSound` | Flash-Chat-iOS13-master/Pods/nanopb/pb_decode.c:406-478 | Storing a decoded value keeps counts and unions sound: choosing a union member unsets the others |
| `PbEncode.EncodeSubmessage` | Flash-Chat-iOS13-master/Pods/nanopb/pb_encode.c:717-765 | Both passes over a submessage agree: it succeeds exactly when the length and the contents fit, and the size never changes between them |
| `PbEncode.EncodeMessage` | Flash-Chat-iOS13-master/Pods/nanopb/pb_encode.c:528-550 | On a counting or a writing stream it succeeds exactly when the message can be encoded and fits, and appends exactly its encoding |
| `PbEncode.PutPacked` | Flash-Chat-iOS13-master/Pods/nanopb/pb_encode.c:161-201 | The precomputed or counted size of a packed array is the size of what is then written |
| `PbEncode.GetEncodedSize` | Flash-Chat-iOS13-master/Pods/nanopb/pb_encode.c:567-576 | The reported size is the length of the encoding |
| `PbWire.ValueIsAsItsTagSays` | Flash-Chat-iOS13-master/Pods/nanopb/pb_encode.c:669-707 | Behind each tag stands what its low three bits announce: 0, one varint; 1, eight bytes; 2, a length and that many bytes; 5, four bytes |
| `PbWire.PackedHoldsItsNumbers` | Flash-Chat-iOS13-master/Pods/nanopb/pb_encode.c:147-201 | The contents of a packed array are its numbers one after the other, each as it would be behind a tag |
| `PbUnknown.UnknownFieldIsSkipped` | Flash-Chat-iOS13-master/Pods/nanopb/pb_decode.c:985-989 | A field the descriptor lacks, of any type and with any values, changes nothing, or makes decoding fail if the length of one of its submessages is 2^32 or more |
| `PbUnknown.UnknownRecordIsSkipped` | Flash-Chat-iOS13-master/Pods/nanopb/pb_decode.c:985-989 | The same for any record of the wire format, whoever wrote it, whose tag and length pb_decode_varint32 reads right |
| `PbUnknown.ShortIsRead` | Flash-Chat-iOS13-master/Pods/nanopb/pb_decode.c:187-247 | Every tag and every length below 2^32 that takes at most five bytes is read right |
| `PbUnknown.SkipIsWire` | Flash-Chat-iOS13-master/Pods/nanopb/pb_decode.c:278-333 | On any bytes and for every wire type, pb_skip_field succeeds exactly when there is such a value and consumes exactly it, given that its length is read right |
| `PbDecoder.DecodeNoInit` | Flash-Chat-iOS13-master/Pods/nanopb/pb_decode.c:928-1076 | The loop keeps one field iterator across fields, the words of fields_seen and the fixed-count field, and counts the required fields by walking to the end of the array; it accepts and gives what the decoding function over sets of indices does |
| `PbDecoder.ReadFound` | Flash-Chat-iOS13-master/Pods/nanopb/pb_decode.c:991-1023 | One field that was found: starting or continuing a fixed-count field, setting its bit, and storing its value takes the decoding function's state to its next one |
| `PbDecoder.FoundIsFindFrom` | Flash-Chat-iOS13-master/Pods/nanopb/pb_common.c:78-95 | The lap of the field iterator ends at the field that a search from its position and then from the beginning finds, and fails when that does |
| `PbDecoder.Finish` | Flash-Chat-iOS13-master/Pods/nanopb/pb_decode.c:1026-1073 | The final checks, on words and on the walked count, succeed exactly when the last fixed-count field is complete and each of the first 64 required fields was seen |
| `PbDecoder.ReadField` | Flash-Chat-iOS13-master/Pods/nanopb/pb_decode.c:406-483 | decode_static_field reads and stores what the decoding function says, and leaves the stream where it says |
| `PbDecoder.StoreValue` | Flash-Chat-iOS13-master/Pods/nanopb/pb_decode.c:415-478 | Storing by cases of the rule, with the loop over the members of a union, leaves the struct that the decoding function says |
| `PbDecoder.Skip` | Flash-Chat-iOS13-master/Pods/nanopb/pb_decode.c:321-333 | Skipping a field on the stream takes what the skipping function takes; PbUnknown.SkipIsWire says what that is |
| `PbIterator.FieldIter.Find` | Flash-Chat-iOS13-master/Pods/nanopb/pb_common.c:78-95 | From any position it stops within one lap, and finds the tag exactly if a field that is no extension has it (or the message is empty and the tag is 0) |
| `PbIterator.FieldIter.Next` | Flash-Chat-iOS13-master/Pods/nanopb/pb_common.c:20-76 | It goes to the next field or back to the first, and pData, pSize and required_field_index agree with a fresh walk |
| `PbIterator.FieldIter.RequiredFields` | Flash-Chat-iOS13-master/Pods/nanopb/pb_decode.c:1036-1049 | The loop to the end of the array counts all required fields |
| `PbIterator.WalkCounts` | Flash-Chat-iOS13-master/Pods/nanopb/pb_common.c:66-71 | required_field_index is the number of required fields before the current one |
| `PbIterator.FieldsDoNotOverlap` | Flash-Chat-iOS13-master/Pods/nanopb/pb_common.c:37-73 | A field that is not in the union of the one before it begins after that one ends |
| `PbIterator.WalkFindsTheMembers` | Flash-Chat-iOS13-master/Pods/nanopb/pb_common.c:37-73 | For a field array as the macros of pb.h make it for a struct, the walk has pData at every member, with arrays, pointers and unions, if and only if no two unions have exactly the padding between them that marks a member of the same one |
| `PbIterator.MarkSeen` | Flash-Chat-iOS13-master/Pods/nanopb/pb_decode.c:1015-1020 | Setting a bit in fields_seen adds that required field, if it is among the first 64, to the set seen |
| `PbIterator.AllRequiredSeen` | Flash-Chat-iOS13-master/Pods/nanopb/pb_decode.c:1051-1073 | The comparison of words with masks succeeds exactly when each of the first 64 required fields was seen |
| `PbStreams.OStream.EncodeVarint` | Flash-Chat-iOS13-master/Pods/nanopb/pb_encode.c:608-628 | The loop writes the varint of the value if there is room for it, and counts it on a sizing stream |
| `PbStreams.OStream.Write` | Flash-Chat-iOS13-master/Pods/nanopb/pb_encode.c:103-124 | Writing succeeds exactly when there is room, and appends exactly the bytes |
| `PbStreams.IStream.DecodeVarint` | Flash-Chat-iOS13-master/Pods/nanopb/pb_decode.c:254-275 | The loop decodes at most ten bytes to a 64-bit value, consumes exactly those, and fails otherwise |
| `PbStreams.IStream.DecodeVarint32` | Flash-Chat-iOS13-master/Pods/nanopb/pb_decode.c:187-252 | The loop with its overflow and sign-extension checks computes what the 32-bit decoding function says |
| `PbVarint.Decode32Unsigned` | Flash-Chat-iOS13-master/Pods/nanopb/pb_decode.c:187-247 | Every uint32 comes back, with exactly its bytes consumed |
| `PbVarint.Decode32Negative` | Flash-Chat-iOS13-master/Pods/nanopb/pb_decode.c:187-247 | Every sign-extended negative int32 takes ten bytes and comes back as its low 32 bits |
| `PbVarint.LengthTooBig` | Flash-Chat-iOS13-master/Pods/nanopb/pb_decode.c:187-247 | A length from 2^32 up to 2^63, encoded as the encoder does, is refused and never taken for a shorter one |
| `PbVarint.ShortIsIntended` | Flash-Chat-iOS13-master/Pods/nanopb/pb_decode.c:239-243 | Up to five bytes it is always right |
| `PbVarint.OverflowMayGoUnnoticed` | Flash-Chat-iOS13-master/Pods/nanopb/pb_decode.c:222-243 | An accepted input that loses bits 32 to 34 |
| `PbVarint.MixedSignBytes` | Flash-Chat-iOS13-master/Pods/nanopb/pb_decode.c:229-232 | An accepted input that mixes sign bytes and zero bytes |
| `PbVarint.ZigZagRoundTrip` | Flash-Chat-iOS13-master/Pods/nanopb/pb_encode.c:630-639 | Decoding undoes the zig-zag encoding of every int64 |
| `PbVarint.ZigZagOnto` | Flash-Chat-iOS13-master/Pods/nanopb/pb_decode.c:1272-1284 | Encoding undoes the decoding of every uint64 |

## Left out

- Engine.CrashSafety: an edit that is appended to the descriptor after a failed one is taken as readable. A background error is set by then, so that no file is deleted any more and the tables and logs from before are all still there; where the reader reports a loss, Recover refuses to open.
- Engine.WhatACrashCanTake: whether a record written out of step fits its block, so that what is at risk is an upper bound of what the source loses; LogFailures.OneRecordIff has the condition.
- Engine.CrashSafety: a log whose writer is out of step might also hold, in the bytes of a value, what reads as a record; the model has recovery miss records there or find failed ones, and not make some up.
- Engine.CrashSafety: a machine that goes down while it recovers from the crash of a process, and the loss of a synced file because its directory entry was not.
- Engine.CrashSafety: batches whose insertion into the memtable fails, and sequence numbers beyond 2^56 - 1, are not modelled.
- Engine.RunKeepsInv: levels, so also trivial moves (which leave the set of files as it is) and the choice of a level for a flushed table; reading one version is by contract the newest entry of its tables, and two copies of a table that a repeated flush left count as one.
- EngineBackground.BeginCompactionKeeps: how PickCompaction and CompactRange meet their contract (version_set.cc), and when a compaction is needed.
- EngineRecovery.OpenDoneKeeps: option reuse_logs, and databases whose descriptor or log directory is damaged.
- EngineRecovery.RecoverTableKeeps: the order in which logs are replayed, which makes no difference to the set of entries.
- EngineFiles.CanAlwaysBeOpened: a rename of CURRENT that took effect and is reported as failed, after which LogAndApply deletes the descriptor that CURRENT names; and other incarnations of the database in the same directory, which the lock excludes.
- DbImpl.Get: Version::Get is a parameter with its contract; read statistics and sampling.
- WriteQueue.RunKeepsInv: write slowdown, memory orders and condition variables; a wait is any number of other threads' steps.
- DbIter.Run: read sampling, and errors of the internal iterator; the merging iterator is a cursor over a sorted list.
- DbFormat.CompareIsBefore: user comparators other than the bytewise one; filter policies and FindShortSuccessor.
- Compaction.DoCompactionWork: the table format; where one output ends and the next begins; whether an output is full, should end early, or cannot be written are parameters, and one flag stands for every failing file operation of an entry.
- SkipList.NoReaderMissesAKey: memory orders weaker than one store at a time; heights are parameters.
- LogReader.Reader.ReadRecord: initial_offset above 0 (no caller uses it) and with it resyncing_ and LastRecordOffset; read errors of the file.
- LogWriter.Writer.AddRecord: files whose Append writes through, or fails, before Flush; the library's own files hold a fragment and its trailer in their buffer until then.
- MemTable.MemTable.Add: the arena, and slices longer than a 32-bit length.
- VersionEdit.RoundTrip: keys are kept encoded; DebugString.
- Snapshots.SnapshotList.Delete: freeing the node; the ghost position says that the node is in the list.
- PbRoundTrip.RoundTrip: callbacks, extensions, pointer fields and PB_WITHOUT_64BIT; explicit defaults of proto3 singular fields, which the generator never writes; encodings of 2^63 bytes or more, which are no objects in memory.
- PbDecode.Decode: a fixed-count array that the input does not mention keeps whatever memory it had, as no default is written to it; the model takes zeros.
- PbDecoder.DecodeMessage: field arrays may lay out a struct in any way, but values are stored by field index and not by address; PbIterator is where addresses are computed.
- PbVarint.Decode32IsRightIff: varints of more than ten bytes, which are no 64-bit value; what the code does with them is PbVarint.More32, with the eight bits of its counter.
- PbMessage.Holds: structs hold values, not bytes; stale memory behind a false has_ flag, a smaller count or another union member is not represented.
- PbStreams.OStream.Write: wrap-around of size_t, and callbacks other than the memory buffer.
- PbIterator.FieldIter.Find: extension fields are recognised but not followed.
- Table files, blocks, caches, Env, repair, dump, the C interface and properties of LevelDB, and the Swift applications.
